/** The shadow ledger: an append-only, hash-chained log and the check of it. */
module Ledger {
  import opened Wrappers
  import opened Ordering
  import opened Lines

  datatype Kind = Enrollment | Run | OtherKind

  /** `prev_sha256`: absent, a string, or some other JSON value. */
  datatype Prev = Unchained | Chained(digest: string) | NotADigest

  /** One ledger row. `eligible` is absent unless it is a boolean; `changed` says whether
      `changed_path_count` is truthy; `cutoff` is "" when the row has none; everything the check
      does not look at is in `rest`. */
  datatype Record = Record(
    kind: Kind,
    prev: Prev,
    cutoff: string,
    recordedAt: string,
    fingerprint: Option<string>,
    eligible: Option<bool>,
    changed: bool,
    selectedNodes: Option<seq<string>>,
    nodesDigest: string,
    rest: string)

  /** JSON and SHA-256, left uninterpreted. `parse` answers nothing for text that is not a JSON object. */
  datatype Codec = Codec(
    parse: string -> Option<Record>,
    render: Record -> string,
    digest: string -> string,
    nodeDigest: seq<string> -> string)

  /** A rendered row is one non-blank line and reads back as itself. */
  ghost predicate Faithful(codec: Codec) {
    && (forall r :: codec.parse(codec.render(r)) == Some(r))
    && forall r :: OneLine(codec.render(r)) && !Blank(codec.render(r))
  }

  ghost predicate CollisionFree(codec: Codec) {
    forall a, b :: codec.digest(a) == codec.digest(b) ==> a == b
  }

  // ---------------------------------------------------------------- what a clean ledger is

  predicate Readable(codec: Codec, lines: seq<string>) {
    forall i :: 0 <= i < |lines| ==> codec.parse(lines[i]).Some?
  }

  function RecordAt(codec: Codec, line: string): Record {
    var r := codec.parse(line);
    if r.Some? then r.value else Record(OtherKind, Unchained, "", "", None, None, false, None, "", "")
  }

  predicate Seen(codec: Codec, prior: seq<string>, fingerprint: string) {
    exists i :: 0 <= i < |prior| && RecordAt(codec, prior[i]).kind == Run &&
      RecordAt(codec, prior[i]).fingerprint == Some(fingerprint)
  }

  /** The rule a row's `eligible` must agree with: a fingerprint not seen in an earlier run row,
      a non-empty change and a time after the cutoff. `prior` are the lines before the row. */
  predicate Eligible(codec: Codec, prior: seq<string>, cutoff: string, r: Record) {
    && r.fingerprint.Some? && r.fingerprint.value != ""
    && !Seen(codec, prior, r.fingerprint.value)
    && r.changed && cutoff != "" && Less(cutoff, r.recordedAt)
  }

  predicate NodesAgree(codec: Codec, r: Record) {
    r.selectedNodes.Some? ==> r.nodesDigest == codec.nodeDigest(r.selectedNodes.value)
  }

  /** Row `i` is a run row chained to the line before it, with the eligibility its history gives it. */
  predicate RowClean(codec: Codec, lines: seq<string>, i: nat)
    requires 1 <= i < |lines|
  {
    var r := RecordAt(codec, lines[i]);
    && r.kind == Run
    && r.prev == Chained(codec.digest(lines[i - 1]))
    && r.eligible == Some(Eligible(codec, lines[..i], RecordAt(codec, lines[0]).cutoff, r))
    && NodesAgree(codec, r)
  }

  /** A header and then clean rows only. */
  predicate CleanLines(codec: Codec, lines: seq<string>) {
    && lines != [] && Readable(codec, lines)
    && RecordAt(codec, lines[0]).kind == Enrollment
    && forall i :: 1 <= i < |lines| ==> RowClean(codec, lines, i)
  }

  predicate Clean(codec: Codec, file: Option<string>) {
    file.Some? && CleanLines(codec, LinesOf(file.value))
  }

  // ---------------------------------------------------------------- the operations, on the stored text

  function StoredText(file: Option<string>): string { if file.Some? then file.value else "" }

  /** The line written for a row: chained to the last stored line. */
  function ChainedLine(codec: Codec, file: Option<string>, r: Record): string {
    var lines := LinesOf(StoredText(file));
    codec.render(r.(prev := Chained(if lines == [] then "" else codec.digest(lines[|lines| - 1]))))
  }

  /** One observation of the selector on one tree, at one reading of the clock. */
  datatype Observation = Observation(fingerprint: Option<string>, changedPaths: nat, recordedAt: string, rest: string)

  function Header(now: string, rest: string): Record {
    Record(Enrollment, Unchained, now, "", None, None, false, None, "", rest)
  }

  function FirstHeader(codec: Codec, lines: seq<string>): Option<Record> {
    if lines == [] then None
    else if RecordAt(codec, lines[0]).kind == Enrollment then Some(RecordAt(codec, lines[0]))
    else FirstHeader(codec, lines[1..])
  }

  /** The header is the first enrollment row, and there is none only when no row is one. */
  lemma {:induction false} FirstOfHeaders(codec: Codec, lines: seq<string>)
    ensures FirstHeader(codec, lines).None? <==>
      forall i :: 0 <= i < |lines| ==> RecordAt(codec, lines[i]).kind != Enrollment
    ensures FirstHeader(codec, lines).Some? ==> exists i ::
      0 <= i < |lines| && RecordAt(codec, lines[i]).kind == Enrollment &&
      FirstHeader(codec, lines).value == RecordAt(codec, lines[i]) &&
      forall j :: 0 <= j < i ==> RecordAt(codec, lines[j]).kind != Enrollment
  {
    if lines != [] && RecordAt(codec, lines[0]).kind != Enrollment {
      FirstOfHeaders(codec, lines[1..]);
      forall i | 1 <= i < |lines| ensures lines[i] == lines[1..][i - 1] { }
      if FirstHeader(codec, lines).Some? {
        var i :| 0 <= i < |lines| - 1 && RecordAt(codec, lines[1..][i]).kind == Enrollment &&
          FirstHeader(codec, lines[1..]).value == RecordAt(codec, lines[1..][i]) &&
          forall j :: 0 <= j < i ==> RecordAt(codec, lines[1..][j]).kind != Enrollment;
        assert lines[i + 1] == lines[1..][i];
        forall j | 0 <= j < i + 1 ensures RecordAt(codec, lines[j]).kind != Enrollment {
          if j > 0 { assert lines[j] == lines[1..][j - 1]; }
        }
      }
    }
  }

  /** The row a recording shadow run writes, before it is chained. */
  function ShadowRow(codec: Codec, lines: seq<string>, o: Observation): Record {
    var header := FirstHeader(codec, lines);
    var r := Record(Run, Unchained, "", o.recordedAt, o.fingerprint, None, o.changedPaths > 0, None, "", o.rest);
    r.(eligible := Some(Eligible(codec, lines, if header.Some? then header.value.cutoff else "", r)))
  }

  datatype ShadowProblem = NoFingerprint | LedgerUnreadable | NoHeader

  /** What a shadow run complains of. */
  function ShadowProblems(codec: Codec, lines: seq<string>, o: Observation): set<ShadowProblem> {
    (if o.fingerprint.None? then {NoFingerprint} else {}) +
    (if !Readable(codec, lines) then {LedgerUnreadable}
     else if FirstHeader(codec, lines).None? then {NoHeader} else {})
  }

  /** Whether a shadow run appends a row at all. */
  predicate Records(codec: Codec, file: Option<string>, dryRun: bool) {
    !dryRun && Readable(codec, LinesOf(StoredText(file))) && Terminated(StoredText(file))
  }

  /** The stored file after one shadow run. */
  function ShadowFile(codec: Codec, file: Option<string>, o: Observation, dryRun: bool): Option<string> {
    if !Records(codec, file, dryRun) then file
    else Some(StoredText(file) + ChainedLine(codec, file, ShadowRow(codec, LinesOf(StoredText(file)), o)) + "\n")
  }

  /** An empty ledger's text with the enrollment header written to it. */
  function EnrolledText(codec: Codec, text: string, now: string, rest: string): string {
    text + codec.render(Header(now, rest).(prev := Chained(""))) + "\n"
  }

  /** What a shadow run answers: a refusal, the report of a dry run, the recorded row, or an exception. */
  datatype ShadowAnswer =
    | Refused(problems: set<ShadowProblem>)
    | DryRun(eligible: bool, problems: set<ShadowProblem>)
    | Recorded(row: Record, problems: set<ShadowProblem>)
    | PartialLine

  // ---------------------------------------------------------------- the file

  /** What the check reports. Lines and rows are numbered from 0; the rows are the readable lines. */
  datatype LedgerProblem =
    | LineUnreadable(line: nat) | RowUnchained(line: nat) | ChainBroken(line: nat)
    | LedgerMissing | NoRecords
    | FirstNotHeader | SeveralHeaders | UnexpectedKind(row: nat)
    | EligibleDisagrees(row: nat) | NodesDigestDisagrees(row: nat)

  function ReadableLines(codec: Codec, lines: seq<string>): seq<string> {
    if lines == [] then [] else
      var n := |lines| - 1;
      ReadableLines(codec, lines[..n]) + if codec.parse(lines[n]).Some? then [lines[n]] else []
  }

  lemma {:induction false} AllReadable(codec: Codec, lines: seq<string>)
    requires Readable(codec, lines)
    ensures ReadableLines(codec, lines) == lines
  {
    if lines != [] {
      var n := |lines| - 1;
      AllReadable(codec, lines[..n]);
      assert codec.parse(lines[n]).Some?;
    }
  }

  function CutoffOf(header: Option<Record>): string { if header.Some? then header.value.cutoff else "" }

  predicate UnreadableFault(codec: Codec, lines: seq<string>, p: LedgerProblem) {
    p.LineUnreadable? && p.line < |lines| && codec.parse(lines[p.line]).None?
  }

  /** A run row that does not name the digest of the line before it. */
  predicate ChainFault(codec: Codec, lines: seq<string>, p: LedgerProblem) {
    (p.RowUnchained? || p.ChainBroken?) && 1 <= p.line < |lines| &&
      var r := RecordAt(codec, lines[p.line]);
      r.kind == Run && r.prev != Chained(codec.digest(lines[p.line - 1])) && (p.RowUnchained? <==> r.prev == Unchained)
  }

  /** The first row is not the header, there are several, or another row is not a run row. */
  ghost predicate StructureFault(codec: Codec, rows: seq<string>, p: LedgerProblem)
    requires rows != []
  {
    match p
    case FirstNotHeader => RecordAt(codec, rows[0]).kind != Enrollment
    case SeveralHeaders =>
      exists j, k :: 0 <= j < k < |rows| &&
        RecordAt(codec, rows[j]).kind == Enrollment && RecordAt(codec, rows[k]).kind == Enrollment
    case UnexpectedKind(i) => 1 <= i < |rows| && RecordAt(codec, rows[i]).kind != Run
    case _ => false
  }

  /** A run row whose eligibility or node digest does not recompute. */
  predicate RowFault(codec: Codec, rows: seq<string>, header: Option<Record>, p: LedgerProblem) {
    match p
    case EligibleDisagrees(i) =>
      i < |rows| &&
      var r := RecordAt(codec, rows[i]);
      r.kind == Run && r.eligible != Some(Eligible(codec, rows[..i], CutoffOf(header), r))
    case NodesDigestDisagrees(i) =>
      i < |rows| && RecordAt(codec, rows[i]).kind == Run && !NodesAgree(codec, RecordAt(codec, rows[i]))
    case _ => false
  }

  ghost predicate LinesFault(codec: Codec, lines: seq<string>, p: LedgerProblem) {
    var rows := ReadableLines(codec, lines);
    || UnreadableFault(codec, lines, p) || ChainFault(codec, lines, p)
    || (if rows == [] then p == NoRecords
        else StructureFault(codec, rows, p) || RowFault(codec, rows, FirstHeader(codec, rows), p))
  }

  ghost predicate Fault(codec: Codec, file: Option<string>, p: LedgerProblem) {
    if file.None? then p == LedgerMissing else LinesFault(codec, LinesOf(file.value), p)
  }

  lemma FaultlessRow(codec: Codec, lines: seq<string>, i: nat)
    requires 1 <= i < |lines| && Readable(codec, lines) && RecordAt(codec, lines[0]).kind == Enrollment
    requires forall p :: !LinesFault(codec, lines, p)
    ensures RowClean(codec, lines, i)
  {
    AllReadable(codec, lines);
    assert !LinesFault(codec, lines, UnexpectedKind(i));
    assert !LinesFault(codec, lines, RowUnchained(i)) && !LinesFault(codec, lines, ChainBroken(i));
    assert !LinesFault(codec, lines, EligibleDisagrees(i));
    assert !LinesFault(codec, lines, NodesDigestDisagrees(i));
  }

  lemma FaultlessIsClean(codec: Codec, lines: seq<string>)
    requires forall p :: !LinesFault(codec, lines, p)
    ensures CleanLines(codec, lines)
  {
    forall i | 0 <= i < |lines| ensures codec.parse(lines[i]).Some? {
      assert !LinesFault(codec, lines, LineUnreadable(i));
    }
    AllReadable(codec, lines);
    assert !LinesFault(codec, lines, NoRecords);
    assert !LinesFault(codec, lines, FirstNotHeader);
    assert RecordAt(codec, lines[0]).kind == Enrollment;
    forall i | 1 <= i < |lines| ensures RowClean(codec, lines, i) { FaultlessRow(codec, lines, i); }
  }

  lemma CleanChain(codec: Codec, lines: seq<string>, p: LedgerProblem)
    requires CleanLines(codec, lines)
    ensures !ChainFault(codec, lines, p)
  {
    if (p.RowUnchained? || p.ChainBroken?) && 1 <= p.line < |lines| { assert RowClean(codec, lines, p.line); }
  }

  lemma CleanStructure(codec: Codec, lines: seq<string>, p: LedgerProblem)
    requires CleanLines(codec, lines)
    ensures !StructureFault(codec, lines, p)
  {
    forall i | 1 <= i < |lines| ensures RecordAt(codec, lines[i]).kind == Run { assert RowClean(codec, lines, i); }
  }

  lemma CleanRows(codec: Codec, lines: seq<string>, p: LedgerProblem)
    requires CleanLines(codec, lines)
    ensures !RowFault(codec, lines, FirstHeader(codec, lines), p)
  {
    match p {
      case EligibleDisagrees(i) => if 1 <= i < |lines| { assert RowClean(codec, lines, i); }
      case NodesDigestDisagrees(i) => if 1 <= i < |lines| { assert RowClean(codec, lines, i); }
      case _ =>
    }
  }

  lemma CleanIsFaultless(codec: Codec, lines: seq<string>, p: LedgerProblem)
    requires CleanLines(codec, lines)
    ensures !LinesFault(codec, lines, p)
  {
    AllReadable(codec, lines);
    CleanStructure(codec, lines, p);
    CleanRows(codec, lines, p);
    CleanChain(codec, lines, p);
    assert !UnreadableFault(codec, lines, p);
  }

  /** A ledger is clean exactly when it has no fault. */
  lemma CleanMeans(codec: Codec, file: Option<string>)
    ensures Clean(codec, file) <==> forall p :: !Fault(codec, file, p)
  {
    if file.None? {
      assert Fault(codec, file, LedgerMissing);
    } else {
      var lines := LinesOf(file.value);
      if Clean(codec, file) {
        forall p ensures !Fault(codec, file, p) { CleanIsFaultless(codec, lines, p); }
      }
      if forall p :: !Fault(codec, file, p) {
        forall p ensures !LinesFault(codec, lines, p) { assert !Fault(codec, file, p); }
        FaultlessIsClean(codec, lines);
      }
    }
  }

  lemma SeenStep(codec: Codec, lines: seq<string>, i: nat)
    requires i < |lines|
    ensures forall f :: Seen(codec, lines[..i + 1], f) <==>
      Seen(codec, lines[..i], f) ||
        (RecordAt(codec, lines[i]).kind == Run && RecordAt(codec, lines[i]).fingerprint == Some(f))
  {
    var p, q := lines[..i], lines[..i + 1];
    assert q == p + [lines[i]];
    forall f
      ensures Seen(codec, q, f) <==>
        Seen(codec, p, f) || (RecordAt(codec, lines[i]).kind == Run && RecordAt(codec, lines[i]).fingerprint == Some(f))
    {
      if Seen(codec, p, f) {
        var j :| 0 <= j < |p| && RecordAt(codec, p[j]).kind == Run && RecordAt(codec, p[j]).fingerprint == Some(f);
        assert q[j] == p[j];
      }
      assert q[i] == lines[i];
    }
  }

  class LedgerFile {
    const codec: Codec
    var file: Option<string>

    constructor (codec: Codec)
      ensures this.codec == codec && file == None
    {
      this.codec, file := codec, None;
    }

    /** Refuses a partial last line; otherwise writes one chained line and checks that it only added. */
    method Append(r: Record) returns (ok: bool)
      modifies this`file
      ensures ok <==> Terminated(StoredText(old(file)))
      ensures file == if ok then Some(StoredText(old(file)) + ChainedLine(codec, old(file), r) + "\n") else old(file)
      ensures ok ==> StoredText(old(file)) < file.value
    {
      var before := StoredText(file);
      if !Terminated(before) { return false; }
      var line := ChainedLine(codec, file, r);
      var after := before + line + "\n";
      file := Some(after);
      assert after[..|before|] == before;
      ok := before < after;
    }

    /** Writes the enrollment header, once and only on an empty ledger. */
    method DeclareEnrollment(now: string, rest: string) returns (ok: bool)
      modifies this`file
      ensures ok <==> LinesOf(StoredText(old(file))) == [] && Terminated(StoredText(old(file)))
      ensures file == if ok then Some(EnrolledText(codec, StoredText(old(file)), now, rest)) else old(file)
    {
      var lines := LinesOf(StoredText(file));
      if !Readable(codec, lines) { return false; }
      if exists i :: 0 <= i < |lines| && RecordAt(codec, lines[i]).kind == Enrollment { return false; }
      if lines != [] { return false; }
      ok := Append(Header(now, rest));
    }

    /** Records one observation, unless the ledger is unreadable or this is a dry run. */
    method RunShadow(o: Observation, dryRun: bool) returns (answer: ShadowAnswer)
      modifies this`file
      ensures file == ShadowFile(codec, old(file), o, dryRun)
      ensures answer.Recorded? <==> Records(codec, old(file), dryRun)
      ensures answer.Refused? <==> !Readable(codec, LinesOf(StoredText(old(file))))
      ensures answer.DryRun? <==> dryRun && !answer.Refused?
      ensures var row := ShadowRow(codec, LinesOf(StoredText(old(file))), o);
        (answer.DryRun? ==> row.eligible == Some(answer.eligible)) && (answer.Recorded? ==> answer.row == row)
      ensures !answer.PartialLine? ==>
        answer.problems == ShadowProblems(codec, LinesOf(StoredText(old(file))), o)
      ensures var lines := LinesOf(StoredText(old(file)));
        && (answer.Refused? <==> exists i :: 0 <= i < |lines| && codec.parse(lines[i]).None?)
        && (answer.PartialLine? <==> !answer.Refused? && !dryRun && !Terminated(StoredText(old(file))))
        && (!answer.PartialLine? ==>
              (NoFingerprint in answer.problems <==> o.fingerprint.None?) &&
              (LedgerUnreadable in answer.problems <==> answer.Refused?) &&
              (NoHeader in answer.problems <==>
                 (!answer.Refused? && forall i :: 0 <= i < |lines| ==> RecordAt(codec, lines[i]).kind != Enrollment)))
    {
      var lines := LinesOf(StoredText(file));
      var problems := if o.fingerprint.None? then {NoFingerprint} else {};
      FirstOfHeaders(codec, lines);
      if !Readable(codec, lines) { return Refused(problems + {LedgerUnreadable}); }
      if FirstHeader(codec, lines).None? { problems := problems + {NoHeader}; }
      var row := BuildRow(lines, o);
      if dryRun { return DryRun(row.eligible.value, problems); }
      var appended := Append(row);
      answer := if appended then Recorded(row, problems) else PartialLine;
    }

    /** The row for one observation, eligible by what the stored lines hold. */
    method BuildRow(lines: seq<string>, o: Observation) returns (row: Record)
      requires Readable(codec, lines)
      ensures row == ShadowRow(codec, lines, o)
    {
      var header := FirstHeader(codec, lines);
      var seen := SeenFingerprints(lines);
      var cutoff := if header.Some? then header.value.cutoff else "";
      var eligible := o.fingerprint.Some? && o.fingerprint.value != "" && o.fingerprint !in seen
        && o.changedPaths > 0 && cutoff != "" && Less(cutoff, o.recordedAt);
      row := Record(Run, Unchained, "", o.recordedAt, o.fingerprint, Some(eligible), o.changedPaths > 0, None, "",
        o.rest);
    }

    /** The fingerprints of the stored run rows. */
    method SeenFingerprints(lines: seq<string>) returns (seen: set<Option<string>>)
      requires Readable(codec, lines)
      ensures forall f :: f in seen <==>
        exists j :: 0 <= j < |lines| && RecordAt(codec, lines[j]).kind == Run &&
          RecordAt(codec, lines[j]).fingerprint == f
    {
      seen := {};
      for i := 0 to |lines|
        invariant forall f :: f in seen <==>
          exists j :: 0 <= j < i && RecordAt(codec, lines[j]).kind == Run && RecordAt(codec, lines[j]).fingerprint == f
      {
        var r := RecordAt(codec, lines[i]);
        if r.kind == Run { seen := seen + {r.fingerprint}; }
      }
    }

    /** Every structural problem; writes nothing. */
    method Check() returns (problems: seq<LedgerProblem>)
      ensures forall p :: p in problems <==> Fault(codec, file, p)
      ensures problems == [] <==> Clean(codec, file)
    {
      CleanMeans(codec, file);
      problems := CheckFile();
      if problems != [] { assert problems[0] in problems; }
    }

    method CheckFile() returns (problems: seq<LedgerProblem>)
      ensures forall p :: p in problems <==> Fault(codec, file, p)
    {
      if file.None? { return [LedgerMissing]; }
      var lines := LinesOf(file.value);
      var errors, rows := ReadRows(lines);
      var chain := CheckChain(lines);
      if rows == [] { return errors + chain + [NoRecords]; }
      var structure := CheckStructure(rows);
      var disagreeing := CheckRows(rows, FirstHeader(codec, rows));
      problems := errors + chain + structure + disagreeing;
    }

    /** The readable lines, and the others as errors. */
    method ReadRows(lines: seq<string>) returns (errors: seq<LedgerProblem>, rows: seq<string>)
      ensures rows == ReadableLines(codec, lines)
      ensures forall p :: p in errors <==> UnreadableFault(codec, lines, p)
    {
      errors, rows := [], [];
      for i := 0 to |lines|
        invariant rows == ReadableLines(codec, lines[..i])
        invariant forall p :: p in errors <==> UnreadableFault(codec, lines, p) && p.line < i
      {
        assert lines[..i + 1][..i] == lines[..i];
        if codec.parse(lines[i]).Some? { rows := rows + [lines[i]]; } else { errors := errors + [LineUnreadable(i)]; }
      }
      assert lines[..|lines|] == lines;
    }

    method CheckChain(lines: seq<string>) returns (problems: seq<LedgerProblem>)
      ensures forall p :: p in problems <==> ChainFault(codec, lines, p)
    {
      problems := [];
      if lines == [] { return; }
      for i := 1 to |lines|
        invariant forall p :: p in problems <==> ChainFault(codec, lines, p) && p.line < i
      {
        var r := RecordAt(codec, lines[i]);
        if r.kind == Run {
          if r.prev == Unchained {
            problems := problems + [RowUnchained(i)];
          } else if r.prev != Chained(codec.digest(lines[i - 1])) {
            problems := problems + [ChainBroken(i)];
          }
        }
      }
    }

    method CountHeaders(rows: seq<string>) returns (headers: nat)
      ensures headers > 1 <==> (exists j, k ::
        0 <= j < k < |rows| &&
        RecordAt(codec, rows[j]).kind == Enrollment && RecordAt(codec, rows[k]).kind == Enrollment)
    {
      headers := 0;
      for i := 0 to |rows|
        invariant headers == 0 <==> forall j :: 0 <= j < i ==> RecordAt(codec, rows[j]).kind != Enrollment
        invariant headers <= 1 <==> forall j, k :: 0 <= j < k < i ==>
          !(RecordAt(codec, rows[j]).kind == Enrollment && RecordAt(codec, rows[k]).kind == Enrollment)
      {
        if RecordAt(codec, rows[i]).kind == Enrollment { headers := headers + 1; }
      }
    }

    method CheckStructure(rows: seq<string>) returns (problems: seq<LedgerProblem>)
      requires rows != []
      ensures forall p :: p in problems <==> StructureFault(codec, rows, p)
    {
      problems := [];
      if RecordAt(codec, rows[0]).kind != Enrollment { problems := problems + [FirstNotHeader]; }
      var headers := CountHeaders(rows);
      if headers > 1 { problems := problems + [SeveralHeaders]; }
      for i := 1 to |rows|
        invariant forall p :: p in problems <==>
          StructureFault(codec, rows, p) && (p.UnexpectedKind? ==> p.row < i)
      {
        if RecordAt(codec, rows[i]).kind != Run { problems := problems + [UnexpectedKind(i)]; }
      }
    }

    /** Recomputes every run row's eligibility from the rows before it. */
    method CheckRows(rows: seq<string>, header: Option<Record>) returns (problems: seq<LedgerProblem>)
      ensures forall p :: p in problems <==> RowFault(codec, rows, header, p)
    {
      problems := [];
      var cutoff := CutoffOf(header);
      var seen: set<string> := {};
      for i := 0 to |rows|
        invariant forall f :: f in seen <==> Seen(codec, rows[..i], f)
        invariant forall p :: p in problems <==> RowFault(codec, rows, header, p) && p.row < i
      {
        var r := RecordAt(codec, rows[i]);
        SeenStep(codec, rows, i);
        if r.kind == Run {
          var expected := r.fingerprint.Some? && r.fingerprint.value != "" && r.fingerprint.value !in seen
            && r.changed && cutoff != "" && Less(cutoff, r.recordedAt);
          if r.eligible != Some(expected) { problems := problems + [EligibleDisagrees(i)]; }
          if r.fingerprint.Some? { seen := seen + {r.fingerprint.value}; }
          if r.selectedNodes.Some? && r.nodesDigest != codec.nodeDigest(r.selectedNodes.value) {
            problems := problems + [NodesDigestDisagrees(i)];
          }
        }
      }
    }
  }
}
