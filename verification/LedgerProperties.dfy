/** What the ledger's check guarantees, and that every recorded series passes it. */
module LedgerProperties {
  import opened Wrappers
  import opened Lines
  import opened Ordering
  import opened Ledger

  // ---------------------------------------------------------------- tampering

  /** Only a ledger that is nothing but its header ends in an enrollment row. */
  lemma LastIsRow(codec: Codec, lines: seq<string>)
    requires CleanLines(codec, lines)
    ensures |lines| == 1 <==> RecordAt(codec, lines[|lines| - 1]).kind == Enrollment
  {
    if |lines| > 1 { assert RowClean(codec, lines, |lines| - 1); }
  }

  /** What the chain cannot see: rows cut off the end leave a clean ledger. */
  lemma CleanPrefix(codec: Codec, lines: seq<string>, k: nat)
    requires CleanLines(codec, lines) && 1 <= k <= |lines|
    ensures CleanLines(codec, lines[..k])
  {
    forall i | 1 <= i < k ensures RowClean(codec, lines[..k], i) {
      assert RowClean(codec, lines, i);
      assert lines[..k][..i] == lines[..i];
    }
  }

  /** With a collision-free digest the last line of a clean ledger fixes every line before it: no
      earlier row can be reordered, deleted or rewritten while the tail stays. */
  lemma {:induction false} TailDeterminesHistory(codec: Codec, a: seq<string>, b: seq<string>)
    requires CollisionFree(codec) && CleanLines(codec, a) && CleanLines(codec, b)
    requires a[|a| - 1] == b[|b| - 1]
    ensures a == b
  {
    LastIsRow(codec, a);
    LastIsRow(codec, b);
    if |a| > 1 {
      assert RowClean(codec, a, |a| - 1) && RowClean(codec, b, |b| - 1);
      CleanPrefix(codec, a, |a| - 1);
      CleanPrefix(codec, b, |b| - 1);
      TailDeterminesHistory(codec, a[..|a| - 1], b[..|b| - 1]);
      assert a == a[..|a| - 1] + [a[|a| - 1]];
      assert b == b[..|b| - 1] + [b[|b| - 1]];
    }
  }

  /** The same for stored files. */
  lemma TailDeterminesLedger(codec: Codec, a: string, b: string)
    requires CollisionFree(codec) && Clean(codec, Some(a)) && Clean(codec, Some(b))
    requires LinesOf(a)[|LinesOf(a)| - 1] == LinesOf(b)[|LinesOf(b)| - 1]
    ensures LinesOf(a) == LinesOf(b)
  {
    TailDeterminesHistory(codec, LinesOf(a), LinesOf(b));
  }

  // ---------------------------------------------------------------- the sample

  /** Eligible rows of a clean ledger are observations of pairwise different trees. */
  lemma EligibleRowsDistinct(codec: Codec, lines: seq<string>, i: nat, j: nat)
    requires CleanLines(codec, lines) && i < j < |lines|
    requires RecordAt(codec, lines[i]).eligible == Some(true) && RecordAt(codec, lines[j]).eligible == Some(true)
    requires i >= 1
    ensures RecordAt(codec, lines[i]).fingerprint.Some? && RecordAt(codec, lines[j]).fingerprint.Some?
    ensures RecordAt(codec, lines[i]).fingerprint != RecordAt(codec, lines[j]).fingerprint
  {
    assert RowClean(codec, lines, i) && RowClean(codec, lines, j);
    assert lines[..j][i] == lines[i];
  }

  // ---------------------------------------------------------------- every run

  lemma RowAppended(codec: Codec, lines: seq<string>, line: string)
    requires CleanLines(codec, lines) && codec.parse(line).Some?
    requires RowClean(codec, lines + [line], |lines|)
    ensures CleanLines(codec, lines + [line])
  {
    var more := lines + [line];
    forall i | 1 <= i < |more| ensures RowClean(codec, more, i) {
      if i < |lines| {
        assert RowClean(codec, lines, i);
        assert more[..i] == lines[..i];
      }
    }
  }

  /** The row a shadow run stores is clean where it stands. */
  lemma ShadowRowClean(codec: Codec, file: Option<string>, o: Observation)
    requires Faithful(codec) && Clean(codec, file) && Terminated(file.value)
    ensures var lines := LinesOf(file.value);
      var line := ChainedLine(codec, file, ShadowRow(codec, lines, o));
      CleanLines(codec, lines + [line])
  {
    var lines := LinesOf(file.value);
    var row := ShadowRow(codec, lines, o);
    var line := ChainedLine(codec, file, row);
    var more := lines + [line];
    assert FirstHeader(codec, lines) == Some(RecordAt(codec, lines[0]));
    var stored := row.(prev := Chained(codec.digest(lines[|lines| - 1])));
    assert codec.parse(codec.render(stored)) == Some(stored);
    assert RecordAt(codec, more[|lines|]) == stored;
    assert more[..|lines|] == lines;
    RowAppended(codec, lines, line);
  }

  ghost predicate Sound(codec: Codec, file: Option<string>) { Clean(codec, file) && Terminated(StoredText(file)) }

  /** One shadow run keeps the ledger clean; when it records, it adds one line and changes nothing stored. */
  lemma ShadowKeepsClean(codec: Codec, file: Option<string>, o: Observation, dryRun: bool)
    requires Faithful(codec) && Sound(codec, file)
    ensures var after := ShadowFile(codec, file, o, dryRun);
      && Sound(codec, after) && (Records(codec, file, dryRun) <==> !dryRun)
      && if dryRun then after == file else
           file.value < after.value &&
           LinesOf(after.value) ==
             LinesOf(file.value) + [ChainedLine(codec, file, ShadowRow(codec, LinesOf(file.value), o))]
  {
    if !dryRun {
      var row := ShadowRow(codec, LinesOf(file.value), o);
      var line := ChainedLine(codec, file, row);
      assert OneLine(line) && !Blank(line);
      AppendLine(file.value, line);
      ShadowRowClean(codec, file, o);
      var after := file.value + line + "\n";
      assert after[..|file.value|] == file.value;
    }
  }

  /** A ledger declared on an empty file. */
  function Declared(codec: Codec, now: string, rest: string): Option<string> {
    Some(EnrolledText(codec, "", now, rest))
  }

  lemma DeclaredClean(codec: Codec, now: string, rest: string)
    requires Faithful(codec)
    ensures Sound(codec, Declared(codec, now, rest))
    ensures |LinesOf(Declared(codec, now, rest).value)| == 1
  {
    var header := Header(now, rest).(prev := Chained(""));
    var line := codec.render(header);
    assert codec.parse(line) == Some(header);
    assert OneLine(line) && !Blank(line);
    AppendLine("", line);
    assert LinesOf("") == [] by { assert Pieces("") == [""]; assert NonBlank([""]) == []; }
    assert "" + line + "\n" == EnrolledText(codec, "", now, rest);
  }

  datatype ShadowCall = ShadowCall(o: Observation, dryRun: bool)

  /** The stored file after a series of shadow runs. */
  function AfterAll(codec: Codec, file: Option<string>, calls: seq<ShadowCall>): Option<string> {
    if calls == [] then file else
      var last := calls[|calls| - 1];
      ShadowFile(codec, AfterAll(codec, file, calls[..|calls| - 1]), last.o, last.dryRun)
  }

  function Recording(calls: seq<ShadowCall>): nat {
    if calls == [] then 0 else Recording(calls[..|calls| - 1]) + if calls[|calls| - 1].dryRun then 0 else 1
  }

  /** Whatever is observed and whatever the clock says, a declared ledger passes the check after every
      series of shadow runs, holds one line per recording run, and still starts with what was stored before. */
  lemma {:induction false} EveryRunIsClean(codec: Codec, now: string, rest: string, calls: seq<ShadowCall>)
    requires Faithful(codec)
    ensures Sound(codec, AfterAll(codec, Declared(codec, now, rest), calls))
    ensures |LinesOf(AfterAll(codec, Declared(codec, now, rest), calls).value)| == 1 + Recording(calls)
    ensures calls != [] ==>
      AfterAll(codec, Declared(codec, now, rest), calls[..|calls| - 1]).Some? &&
      AfterAll(codec, Declared(codec, now, rest), calls[..|calls| - 1]).value <=
        AfterAll(codec, Declared(codec, now, rest), calls).value
  {
    var start := Declared(codec, now, rest);
    if calls == [] {
      DeclaredClean(codec, now, rest);
    } else {
      var before := calls[..|calls| - 1];
      var last := calls[|calls| - 1];
      EveryRunIsClean(codec, now, rest, before);
      ShadowKeepsClean(codec, AfterAll(codec, start, before), last.o, last.dryRun);
    }
  }

  // ---------------------------------------------------------------- what is recorded

  /** The one line of a declared ledger is a header that fixes the cutoff at the declaration. */
  lemma DeclaredHeader(codec: Codec, now: string, rest: string)
    requires Faithful(codec)
    ensures var lines := LinesOf(Declared(codec, now, rest).value);
      && |lines| == 1 && codec.parse(lines[0]).Some?
      && var r := codec.parse(lines[0]).value;
         r.kind == Enrollment && r.cutoff == now && r.prev == Chained("") && r.rest == rest
  {
    var header := Header(now, rest).(prev := Chained(""));
    var line := codec.render(header);
    assert codec.parse(line) == Some(header);
    assert OneLine(line) && !Blank(line);
    AppendLine("", line);
    assert LinesOf("") == [] by { assert Pieces("") == [""]; assert NonBlank([""]) == []; }
    assert "" + line + "\n" == EnrolledText(codec, "", now, rest);
  }

  /** Some recording call observed this fingerprint. */
  ghost predicate Observed(calls: seq<ShadowCall>, fingerprint: string) {
    exists k :: 0 <= k < |calls| && !calls[k].dryRun && calls[k].o.fingerprint == Some(fingerprint)
  }

  /** The stored row of an observation. */
  lemma StoredRow(codec: Codec, file: Option<string>, o: Observation) returns (line: string)
    requires Faithful(codec) && Sound(codec, file)
    ensures ShadowFile(codec, file, o, false).Some?
    ensures LinesOf(ShadowFile(codec, file, o, false).value) == LinesOf(file.value) + [line]
    ensures codec.parse(line).Some?
    ensures var lines, r := LinesOf(file.value), codec.parse(line).value;
      && r.kind == Run && r.prev == Chained(codec.digest(lines[|lines| - 1]))
      && r.recordedAt == o.recordedAt && r.fingerprint == o.fingerprint && r.rest == o.rest
      && (r.changed <==> o.changedPaths > 0)
      && r.eligible == Some(Eligible(codec, lines, RecordAt(codec, lines[0]).cutoff, r))
  {
    ShadowKeepsClean(codec, file, o, false);
    var lines := LinesOf(file.value);
    var row := ShadowRow(codec, lines, o);
    line := ChainedLine(codec, file, row);
    assert FirstHeader(codec, lines) == Some(RecordAt(codec, lines[0]));
    var stored := row.(prev := Chained(codec.digest(lines[|lines| - 1])));
    assert codec.parse(codec.render(stored)) == Some(stored);
  }

  ghost predicate FirstLine(file: Option<string>, line: string) {
    file.Some? && LinesOf(file.value) != [] && LinesOf(file.value)[0] == line
  }

  /** The first line never changes. */
  lemma {:induction false} HeaderStays(codec: Codec, now: string, rest: string, calls: seq<ShadowCall>, line: string)
    requires Faithful(codec) && FirstLine(Declared(codec, now, rest), line)
    ensures FirstLine(AfterAll(codec, Declared(codec, now, rest), calls), line)
  {
    if calls != [] {
      var before, last := calls[..|calls| - 1], calls[|calls| - 1];
      HeaderStays(codec, now, rest, before, line);
      EveryRunIsClean(codec, now, rest, before);
      ShadowKeepsClean(codec, AfterAll(codec, Declared(codec, now, rest), before), last.o, last.dryRun);
    }
  }

  lemma SeenOneMore(codec: Codec, lines: seq<string>, line: string, f: string)
    ensures Seen(codec, lines + [line], f) <==>
      Seen(codec, lines, f) || (RecordAt(codec, line).kind == Run && RecordAt(codec, line).fingerprint == Some(f))
  {
    SeenStep(codec, lines + [line], |lines|);
    assert (lines + [line])[..|lines| + 1] == lines + [line] && (lines + [line])[..|lines|] == lines;
  }

  lemma SeenAfter(codec: Codec, file: Option<string>, o: Observation, f: string)
    requires Faithful(codec) && Sound(codec, file)
    ensures ShadowFile(codec, file, o, false).Some?
    ensures Seen(codec, LinesOf(ShadowFile(codec, file, o, false).value), f) <==>
      Seen(codec, LinesOf(file.value), f) || o.fingerprint == Some(f)
  {
    var line := StoredRow(codec, file, o);
    SeenOneMore(codec, LinesOf(file.value), line, f);
  }

  lemma ObservedStep(calls: seq<ShadowCall>, f: string)
    requires calls != []
    ensures var last := calls[|calls| - 1];
      Observed(calls, f) <==>
      Observed(calls[..|calls| - 1], f) || (!last.dryRun && last.o.fingerprint == Some(f))
  {
    var n := |calls| - 1;
    if k :| 0 <= k < n && !calls[..n][k].dryRun && calls[..n][k].o.fingerprint == Some(f) {
      assert !calls[k].dryRun && calls[k].o.fingerprint == Some(f);
    }
    if k :| 0 <= k < |calls| && !calls[k].dryRun && calls[k].o.fingerprint == Some(f) {
      if k < n { assert !calls[..n][k].dryRun && calls[..n][k].o.fingerprint == Some(f); }
    }
  }

  /** The fingerprints of the stored run rows are those of the recording calls. */
  lemma {:induction false} SeenIsObserved(codec: Codec, now: string, rest: string, calls: seq<ShadowCall>, f: string)
    requires Faithful(codec)
    ensures Sound(codec, AfterAll(codec, Declared(codec, now, rest), calls))
    ensures Seen(codec, LinesOf(AfterAll(codec, Declared(codec, now, rest), calls).value), f) <==> Observed(calls, f)
  {
    EveryRunIsClean(codec, now, rest, calls);
    if calls == [] {
      DeclaredHeader(codec, now, rest);
    } else {
      var before, last := calls[..|calls| - 1], calls[|calls| - 1];
      var file := AfterAll(codec, Declared(codec, now, rest), before);
      SeenIsObserved(codec, now, rest, before, f);
      ObservedStep(calls, f);
      if !last.dryRun { SeenAfter(codec, file, last.o, f); }
    }
  }

  /** The row recorded after a declaration and any series of runs is eligible exactly when its fingerprint is not
      empty and was in no recorded observation before, some path changed, and it comes after the declaration. */
  lemma EligibleExactly(codec: Codec, now: string, rest: string, calls: seq<ShadowCall>, o: Observation)
    requires Faithful(codec)
    ensures var before := AfterAll(codec, Declared(codec, now, rest), calls);
      var after := AfterAll(codec, Declared(codec, now, rest), calls + [ShadowCall(o, false)]);
      && before.Some? && after.Some? && |LinesOf(after.value)| == |LinesOf(before.value)| + 1
      && var row := codec.parse(LinesOf(after.value)[|LinesOf(before.value)|]);
         && row.Some? && row.value.kind == Run && row.value.fingerprint == o.fingerprint
         && row.value.recordedAt == o.recordedAt && row.value.eligible.Some?
         && (row.value.eligible.value <==>
               o.fingerprint.Some? && o.fingerprint.value != "" && !Observed(calls, o.fingerprint.value) &&
               o.changedPaths > 0 && now != "" && Less(now, o.recordedAt))
  {
    var file := AfterAll(codec, Declared(codec, now, rest), calls);
    var more := calls + [ShadowCall(o, false)];
    assert more[..|more| - 1] == calls;
    DeclaredHeader(codec, now, rest);
    HeaderStays(codec, now, rest, calls, LinesOf(Declared(codec, now, rest).value)[0]);
    EveryRunIsClean(codec, now, rest, calls);
    var line := StoredRow(codec, file, o);
    if o.fingerprint.Some? { SeenIsObserved(codec, now, rest, calls, o.fingerprint.value); }
  }

  // ---------------------------------------------------------------- what the check reports

  /** The rows are the readable lines, each as often as it is stored. */
  lemma {:induction false} RowsAreReadable(codec: Codec, lines: seq<string>)
    ensures forall x ::
      multiset(ReadableLines(codec, lines))[x] == if codec.parse(x).Some? then multiset(lines)[x] else 0
  {
    if lines != [] {
      RowsAreReadable(codec, lines[..|lines| - 1]);
      assert lines == lines[..|lines| - 1] + [lines[|lines| - 1]];
    }
  }

  lemma {:induction false} SeveralMeans(kinds: seq<Kind>)
    ensures multiset(kinds)[Enrollment] >= 1 <==> Enrollment in kinds
    ensures multiset(kinds)[Enrollment] > 1 <==>
      exists j, k :: 0 <= j < k < |kinds| && kinds[j] == Enrollment && kinds[k] == Enrollment
  {
    if kinds != [] {
      var n := |kinds| - 1;
      SeveralMeans(kinds[..n]);
      assert kinds == kinds[..n] + [kinds[n]];
      if j, k :| 0 <= j < k < |kinds| && kinds[j] == Enrollment && kinds[k] == Enrollment {
        assert kinds[..n][j] == Enrollment;
        if k < n { assert kinds[..n][k] == Enrollment; }
      }
      if j, k :| 0 <= j < k < n && kinds[..n][j] == Enrollment && kinds[..n][k] == Enrollment {
        assert kinds[j] == Enrollment && kinds[k] == Enrollment;
      }
      if j :| 0 <= j < n && kinds[..n][j] == Enrollment { assert kinds[j] == Enrollment; }
    }
  }

  /** The reported faults of lines: unreadable ones, and run rows that do not carry the digest of the line before. */
  lemma LineFaultsExactly(codec: Codec, lines: seq<string>, i: nat)
    ensures LinesFault(codec, lines, LineUnreadable(i)) <==> i < |lines| && codec.parse(lines[i]).None?
    ensures LinesFault(codec, lines, RowUnchained(i)) <==>
      1 <= i < |lines| && RecordAt(codec, lines[i]).kind == Run && RecordAt(codec, lines[i]).prev == Unchained
    ensures LinesFault(codec, lines, ChainBroken(i)) <==>
      1 <= i < |lines| && RecordAt(codec, lines[i]).kind == Run &&
      RecordAt(codec, lines[i]).prev != Unchained &&
      RecordAt(codec, lines[i]).prev != Chained(codec.digest(lines[i - 1]))
  {
  }

  function KindsOf(codec: Codec, rows: seq<string>): (r: seq<Kind>)
    ensures |r| == |rows| && forall i :: 0 <= i < |rows| ==> r[i] == RecordAt(codec, rows[i]).kind
  {
    seq(|rows|, j requires 0 <= j < |rows| => RecordAt(codec, rows[j]).kind)
  }

  lemma ManyHeaders(codec: Codec, rows: seq<string>)
    requires rows != []
    ensures StructureFault(codec, rows, SeveralHeaders) <==>
      var kinds := KindsOf(codec, rows);
      exists j, k :: 0 <= j < k < |rows| && kinds[j] == Enrollment && kinds[k] == Enrollment
  {
    var kinds := KindsOf(codec, rows);
    if j, k :| 0 <= j < k < |rows| && kinds[j] == Enrollment && kinds[k] == Enrollment {
      assert RecordAt(codec, rows[j]).kind == Enrollment && RecordAt(codec, rows[k]).kind == Enrollment;
    }
    if StructureFault(codec, rows, SeveralHeaders) {
      var j, k :|
        0 <= j < k < |rows| &&
        RecordAt(codec, rows[j]).kind == Enrollment && RecordAt(codec, rows[k]).kind == Enrollment;
      assert kinds[j] == Enrollment && kinds[k] == Enrollment;
    }
  }

  /** The reported faults of the structure: no row, no header first, several headers, another kind of row. */
  lemma StructureFaultsExactly(codec: Codec, lines: seq<string>, rows: seq<string>, i: nat)
    requires rows == ReadableLines(codec, lines)
    ensures LinesFault(codec, lines, NoRecords) <==> rows == []
    ensures LinesFault(codec, lines, FirstNotHeader) <==> rows != [] && RecordAt(codec, rows[0]).kind != Enrollment
    ensures LinesFault(codec, lines, SeveralHeaders) <==> multiset(KindsOf(codec, rows))[Enrollment] > 1
    ensures LinesFault(codec, lines, UnexpectedKind(i)) <==> 1 <= i < |rows| && RecordAt(codec, rows[i]).kind != Run
  {
    SeveralMeans(KindsOf(codec, rows));
    if rows != [] { ManyHeaders(codec, rows); }
  }

  /** The reported faults of rows: eligibility or digest of the selected nodes that do not recompute. */
  lemma RowFaultsExactly(codec: Codec, lines: seq<string>, rows: seq<string>, cutoff: string, i: nat)
    requires rows == ReadableLines(codec, lines) && i < |rows| && RecordAt(codec, rows[i]).kind == Run
    requires cutoff == if FirstHeader(codec, rows).Some? then FirstHeader(codec, rows).value.cutoff else ""
    ensures var r := RecordAt(codec, rows[i]);
      && (LinesFault(codec, lines, EligibleDisagrees(i)) <==> r.eligible != Some(
            r.fingerprint.Some? && r.fingerprint.value != "" && r.changed && cutoff != "" &&
            Less(cutoff, r.recordedAt) && forall j :: 0 <= j < i ==>
              !(RecordAt(codec, rows[j]).kind == Run && RecordAt(codec, rows[j]).fingerprint == r.fingerprint)))
      && (LinesFault(codec, lines, NodesDigestDisagrees(i)) <==>
            r.selectedNodes.Some? && r.nodesDigest != codec.nodeDigest(r.selectedNodes.value))
  {
    forall j | 0 <= j < i ensures rows[..i][j] == rows[j] { }
  }
}
