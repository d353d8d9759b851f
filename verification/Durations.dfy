/** The durations file: written from a green gate's JUnit report and collection, read back by the planner. */
module Durations {
  import opened Wrappers
  import opened Ordering
  import opened NodeIds
  import opened Text
  import opened GateTiming
  import opened ShardEvidence
  import opened Planner

  // ---------------------------------------------------------------- strings

  /** `s.split(".")` joined by `::`. */
  function Chained(s: string): string {
    if s == "" then "" else (if s[0] == '.' then "::" else [s[0]]) + Chained(s[1..])
  }

  predicate HasSeparator(s: string) { exists i :: 0 <= i < |s| - 1 && s[i] == ':' && s[i + 1] == ':' }

  /** A `..` segment between slashes. */
  predicate HasParentSegment(s: string) {
    exists i :: 0 <= i <= |s| - 2 && s[i] == '.' && s[i + 1] == '.' && (i == 0 || s[i - 1] == '/') &&
      (i + 2 == |s| || s[i + 2] == '/')
  }

  /** A usable `files` key: a relative path with no drive, root, backslash, `..` or `::`. */
  predicate KeyUsable(key: string) {
    && key != "" && '\\' !in key && !HasSeparator(key) && !HasParentSegment(key)
    && key[0] != '/' && !(|key| >= 2 && key[1] == ':')
  }

  /** The dotted module name JUnit class names start with. */
  function DottedName(file: string): string {
    Replaced(if EndsWith(file, ".py") then file[..|file| - 3] else file, '/', '.')
  }

  // ---------------------------------------------------------------- crediting

  /** `length` ends a dotted component of the class name. */
  predicate ComponentEnd(classname: string, length: nat) {
    length <= |classname| && (length == |classname| || classname[length] == '.')
  }

  /** The dotted prefixes of a class name that name a collected file. */
  predicate Prefixes(classname: string, index: map<string, string>, length: nat) {
    ComponentEnd(classname, length) && classname[..length] in index
  }

  /** The file whose dotted name is the longest component prefix of the class name. */
  method Credited(classname: string, index: map<string, string>) returns (file: Option<string>, length: nat)
    ensures file.None? <==> forall k :: 0 <= k <= |classname| ==> !Prefixes(classname, index, k)
    ensures file.Some? ==> Prefixes(classname, index, length) && file.value == index[classname[..length]]
    ensures file.Some? ==> forall k :: length < k <= |classname| ==> !Prefixes(classname, index, k)
  {
    length := |classname|;
    while true
      invariant length <= |classname|
      invariant forall k :: length < k <= |classname| ==> !Prefixes(classname, index, k)
      decreases length
    {
      if Prefixes(classname, index, length) { return Some(index[classname[..length]]), length; }
      if length == 0 { return None, 0; }
      length := length - 1;
    }
  }

  ghost function DottedNames(files: seq<string>): (r: seq<string>)
    ensures |r| == |files| && forall i :: 0 <= i < |r| ==> r[i] == DottedName(files[i])
  {
    seq(|files|, i requires 0 <= i < |files| => DottedName(files[i]))
  }

  /** The table from each name to the file it belongs to. */
  ghost predicate Indexes(names: seq<string>, files: seq<string>, index: map<string, string>)
    requires |names| == |files|
  {
    && (forall i :: 0 <= i < |names| ==> names[i] in index && index[names[i]] == files[i])
    && forall d :: d in index ==> d in names
  }

  lemma SharedName(names: seq<string>, k: nat)
    requires k < |names| && names[k] in names[..k]
    ensures !Distinct(names)
  {
    var i :| 0 <= i < k && names[..k][i] == names[k];
    assert names[i] == names[k];
  }

  lemma AddName(names: seq<string>, files: seq<string>, k: nat, index: map<string, string>)
    requires k < |names| == |files| && Indexes(names[..k], files[..k], index) && Distinct(names[..k])
    requires names[k] !in index
    ensures Indexes(names[..k + 1], files[..k + 1], index[names[k] := files[k]]) && Distinct(names[..k + 1])
  {
    var p, q := names[..k], names[..k + 1];
    assert q == p + [names[k]] && files[..k + 1] == files[..k] + [files[k]];
    forall i | 0 <= i < k ensures p[i] != names[k] { assert p[i] in index; }
  }

  /** One dotted name per file, or nothing when two files share one. */
  method DottedIndex(files: seq<string>) returns (index: Option<map<string, string>>)
    ensures index.None? <==> !Distinct(DottedNames(files))
    ensures index.Some? ==> Indexes(DottedNames(files), files, index.value)
  {
    var found: map<string, string> := map[];
    ghost var names := DottedNames(files);
    for k := 0 to |files|
      invariant Indexes(names[..k], files[..k], found) && Distinct(names[..k])
    {
      var dotted := DottedName(files[k]);
      if dotted in found {
        SharedName(names, k);
        return None;
      }
      AddName(names, files, k, found);
      found := found[dotted := files[k]];
    }
    assert names[..|files|] == names && files[..|files|] == files;
    index := Some(found);
  }

  /** `_node_id`: the file, the class chain after the module's dotted name, and the raw test name. */
  function NodeId(file: string, classname: string, length: nat, name: string): string
    requires length <= |classname|
  {
    var rest := classname[length..];
    file + (if rest == "" then "" else "::" + Chained(rest[1..])) + "::" + name
  }

  // ---------------------------------------------------------------- reading the report

  /** A JUnit testcase element: whether it failed or errored, and its time when that is a number. */
  datatype Element = Element(classname: string, name: string, failing: bool, time: Option<real>)

  datatype CreditedCase = CreditedCase(file: string, nodeId: string, seconds: real)

  datatype Refusal =
    | CollectionInvalid | KeyUnusable | SharedDottedName | NoTime | Failing | Orphans | NotTheCollection
    | NoTimeRecorded | MeanTooSmall

  /** What one accepted element is turned into. */
  ghost predicate CreditOf(index: map<string, string>, e: Element, c: CreditedCase) {
    && !e.failing && e.time == Some(c.seconds) && c.seconds >= 0.0
    && exists length ::
         && 0 <= length <= |e.classname| && Prefixes(e.classname, index, length)
         && (forall k :: length < k <= |e.classname| ==> !Prefixes(e.classname, index, k))
         && c.file == index[e.classname[..length]] && c.nodeId == NodeId(c.file, e.classname, length, e.name)
  }

  /** A time that is missing, no number or negative. */
  predicate BadTime(e: Element) { !e.failing && (e.time.None? || e.time.value < 0.0) }

  predicate Orphan(index: map<string, string>, e: Element) {
    !e.failing && !BadTime(e) && forall k :: 0 <= k <= |e.classname| ==> !Prefixes(e.classname, index, k)
  }

  ghost predicate SomeBadTime(elements: seq<Element>) { exists e :: e in elements && BadTime(e) }

  ghost predicate SomeFailing(elements: seq<Element>) { exists e :: e in elements && e.failing }

  ghost predicate SomeOrphan(index: map<string, string>, elements: seq<Element>) {
    exists e :: e in elements && Orphan(index, e)
  }

  predicate Creditable(index: map<string, string>, e: Element) {
    !e.failing && e.time.Some? && e.time.value >= 0.0 &&
      exists k :: 0 <= k <= |e.classname| && Prefixes(e.classname, index, k)
  }

  lemma NotCreditable(index: map<string, string>, e: Element)
    ensures Creditable(index, e) <==> !e.failing && !BadTime(e) && !Orphan(index, e)
  {
  }

  method CreditElement(e: Element, index: map<string, string>) returns (c: Option<CreditedCase>)
    requires !e.failing && e.time.Some? && e.time.value >= 0.0
    ensures c.Some? <==> Creditable(index, e)
    ensures c.Some? ==> CreditOf(index, e, c.value)
  {
    var file, length := Credited(e.classname, index);
    if file.None? { return None; }
    c := Some(CreditedCase(file.value, NodeId(file.value, e.classname, length, e.name), e.time.value));
    assert Prefixes(e.classname, index, length);
  }

  ghost predicate AllCredited(elements: seq<Element>, index: map<string, string>, credits: seq<CreditedCase>) {
    |credits| == |elements| && forall i :: 0 <= i < |elements| ==> CreditOf(index, elements[i], credits[i])
  }

  /** Every element credited, in order; or a bad time, else failures, else orphans. */
  method ReadTestcases(elements: seq<Element>, index: map<string, string>)
    returns (r: Result<seq<CreditedCase>, Refusal>)
    ensures r.Success? ==> AllCredited(elements, index, r.value)
    ensures r.Success? <==> forall e :: e in elements ==> Creditable(index, e)
    ensures r == Failure(NoTime) <==>
      exists e :: e in elements && !e.failing && (e.time.None? || e.time.value < 0.0)
    ensures r == Failure(Failing) <==> r != Failure(NoTime) && exists e :: e in elements && e.failing
    ensures r == Failure(Orphans) <==> (r != Failure(NoTime) && r != Failure(Failing) &&
      exists e :: e in elements && forall k :: 0 <= k <= |e.classname| ==> !Prefixes(e.classname, index, k))
  {
    var credits, failing, orphans := [], false, false;
    for i := 0 to |elements|
      invariant !SomeBadTime(elements[..i])
      invariant failing <==> SomeFailing(elements[..i])
      invariant orphans <==> SomeOrphan(index, elements[..i])
      invariant !failing && !orphans ==> AllCredited(elements[..i], index, credits)
    {
      var e := elements[i];
      assert elements[..i + 1] == elements[..i] + [e];
      if e.failing {
        failing := true;
      } else {
        if e.time.None? || e.time.value < 0.0 {
          assert e in elements && BadTime(e) && !Creditable(index, e);
          return Failure(NoTime);
        }
        var c := CreditElement(e, index);
        NotCreditable(index, e);
        if c.None? { orphans := true; } else { credits := credits + [c.value]; }
      }
    }
    assert elements[..|elements|] == elements;
    forall e | e in elements ensures Creditable(index, e) <==> !e.failing && !BadTime(e) && !Orphan(index, e) {
      NotCreditable(index, e);
    }
    if failing { return Failure(Failing); }
    if orphans { return Failure(Orphans); }
    r := Success(credits);
  }

  // ---------------------------------------------------------------- rounding

  /** Python's `round`: to the nearest integer, ties to even. */
  function Round(x: real): int {
    var f := x.Floor;
    var d := x - f as real;
    if d < 0.5 then f else if d > 0.5 then f + 1 else if f % 2 == 0 then f else f + 1
  }

  lemma RoundNear(x: real)
    ensures -0.5 <= Round(x) as real - x <= 0.5
  {
  }

  /** `round(seconds, 1)`. */
  function Tenths(seconds: real): real { Round(seconds * 10.0) as real / 10.0 }

  /** `max(1, round(seconds * 1000))`. */
  function Milliseconds(seconds: real): int { if Round(seconds * 1000.0) > 1 then Round(seconds * 1000.0) else 1 }

  /** The nearest integer, and of two equally near ones the even one. */
  lemma RoundExactly(x: real, r: int)
    ensures Round(x) == r <==> -0.5 <= r as real - x <= 0.5 && (r as real - x in {-0.5, 0.5} ==> r % 2 == 0)
  {
    var d := x - x.Floor as real;
    assert 0.0 <= d < 1.0;
    if -0.5 <= r as real - x <= 0.5 { assert r == x.Floor || r == x.Floor + 1; }
  }

  /** Less than a millisecond and a half is one millisecond; any other time is the nearest one. */
  lemma MillisecondsExactly(seconds: real, r: int)
    requires seconds >= 0.0
    ensures Milliseconds(seconds) == r <==>
      r >= 1 && if seconds * 1000.0 < 1.5 then r == 1 else
      -0.5 <= r as real - seconds * 1000.0 <= 0.5 && (r as real - seconds * 1000.0 in {-0.5, 0.5} ==> r % 2 == 0)
  {
    RoundExactly(seconds * 1000.0, Round(seconds * 1000.0));
    RoundExactly(seconds * 1000.0, r);
  }

  lemma WholeRounds(k: int)
    ensures Round(k as real) == k
  {
  }

  /** A time written to a tenth and read back in milliseconds is off by at most 50. */
  lemma WithinFifty(seconds: real)
    requires seconds >= 0.0
    ensures Tenths(seconds) >= 0.0
    ensures -50.0 <= Milliseconds(Tenths(seconds)) as real - 1000.0 * seconds <= 50.0
  {
    var k := Round(seconds * 10.0);
    RoundNear(seconds * 10.0);
    assert k >= 0;
    var scaled := Tenths(seconds) * 1000.0;
    assert scaled == (100 * k) as real;
    WholeRounds(100 * k);
  }

  // ---------------------------------------------------------------- writing

  ghost function Ids(credits: seq<CreditedCase>): (r: seq<string>)
    ensures |r| == |credits| && forall i :: 0 <= i < |r| ==> r[i] == credits[i].nodeId
  {
    seq(|credits|, i requires 0 <= i < |credits| => credits[i].nodeId)
  }

  /** Unrounded seconds per credited file. */
  ghost function FileTimes(credits: seq<CreditedCase>): map<string, real> {
    if credits == [] then map[] else
      var last := credits[|credits| - 1];
      Credit(FileTimes(credits[..|credits| - 1]), last.file, last.seconds)
  }

  ghost function Total(credits: seq<CreditedCase>): real {
    if credits == [] then 0.0 else Total(credits[..|credits| - 1]) + credits[|credits| - 1].seconds
  }

  predicate NodesUsable(nodes: seq<string>) {
    nodes != [] && Distinct(nodes) && forall f :: f in FilesOf(nodes) ==> KeyUsable(f)
  }

  ghost predicate Named(nodes: seq<string>, index: map<string, string>) {
    Indexes(DottedNames(Sorted(FilesOf(nodes))), Sorted(FilesOf(nodes)), index)
  }

  /** What one accepted set of inputs is: a clean run of exactly the collection. */
  ghost predicate CleanRun(elements: seq<Element>, nodes: seq<string>, index: map<string, string>,
                           credits: seq<CreditedCase>) {
    && NodesUsable(nodes)
    && Named(nodes, index)
    && AllCredited(elements, index, credits)
    && multiset(Ids(credits)) == multiset(nodes)
  }

  method SumFiles(credits: seq<CreditedCase>) returns (times: map<string, real>, total: real)
    ensures times == FileTimes(credits) && total == Total(credits)
  {
    times, total := map[], 0.0;
    for i := 0 to |credits|
      invariant times == FileTimes(credits[..i]) && total == Total(credits[..i])
    {
      assert credits[..i + 1][..i] == credits[..i];
      times := Credit(times, credits[i].file, credits[i].seconds);
      total := total + credits[i].seconds;
    }
    assert credits[..|credits|] == credits;
  }

  /** `_require_the_collected_nodes`: the report holds every collected node once and nothing else. */
  method SameNodes(credits: seq<CreditedCase>, nodes: seq<string>) returns (same: bool)
    ensures same <==> multiset(Ids(credits)) == multiset(nodes)
  {
    var seen := seq(|credits|, i requires 0 <= i < |credits| => credits[i].nodeId);
    assert seen == Ids(credits);
    same := multiset(seen) == multiset(nodes);
  }

  lemma SharedNameRefused(names: seq<string>, files: seq<string>, index: map<string, string>)
    requires |names| == |files| && Distinct(files) && Indexes(names, files, index)
    ensures Distinct(names)
  {
    forall i, j | 0 <= i < j < |names| ensures names[i] != names[j] { assert files[i] != files[j]; }
  }

  lemma IndexUnique(names: seq<string>, files: seq<string>, a: map<string, string>, b: map<string, string>)
    requires |names| == |files| && Indexes(names, files, a) && Indexes(names, files, b)
    ensures a == b
  {
    forall d ensures d in a <==> d in b { }
    forall d | d in a ensures a[d] == b[d] { var i :| 0 <= i < |names| && names[i] == d; }
  }

  lemma CreditUnique(index: map<string, string>, e: Element, c: CreditedCase, d: CreditedCase)
    requires CreditOf(index, e, c) && CreditOf(index, e, d)
    ensures c == d && Creditable(index, e)
  {
  }

  lemma CreditsUnique(elements: seq<Element>, index: map<string, string>, a: seq<CreditedCase>, b: seq<CreditedCase>)
    requires AllCredited(elements, index, a) && AllCredited(elements, index, b)
    ensures a == b
  {
    forall i | 0 <= i < |a| ensures a[i] == b[i] { CreditUnique(index, elements[i], a[i], b[i]); }
  }

  lemma CreditsCreditable(elements: seq<Element>, index: map<string, string>, credits: seq<CreditedCase>)
    requires AllCredited(elements, index, credits)
    ensures forall e :: e in elements ==> Creditable(index, e)
  {
    forall e | e in elements ensures Creditable(index, e) {
      var i :| 0 <= i < |elements| && elements[i] == e;
      CreditUnique(index, e, credits[i], credits[i]);
    }
  }

  /** One index and one crediting at most make a run clean. */
  lemma RunUnique(elements: seq<Element>, nodes: seq<string>, a: map<string, string>, b: map<string, string>,
                  c: seq<CreditedCase>, d: seq<CreditedCase>)
    requires CleanRun(elements, nodes, a, c) && CleanRun(elements, nodes, b, d)
    ensures a == b && c == d
  {
    var files := Sorted(FilesOf(nodes));
    IndexUnique(DottedNames(files), files, a, b);
    CreditsUnique(elements, a, c, d);
  }

  /** The collected files, when the collection can be written as keys. */
  method CollectedFiles(nodes: seq<string>) returns (r: Result<seq<string>, Refusal>)
    ensures r.Success? <==> NodesUsable(nodes)
    ensures r.Success? ==> r.value == Sorted(FilesOf(nodes))
  {
    DistinctSize(nodes);
    if nodes == [] || |Elements(nodes)| != |nodes| { return Failure(CollectionInvalid); }
    if f :| f in FilesOf(nodes) && !KeyUsable(f) { return Failure(KeyUnusable); }
    var files := Sort(FilesOf(nodes));
    r := Success(files);
  }

  /** The dotted names of the collected files, when each names one file. */
  method NameFiles(nodes: seq<string>) returns (r: Result<map<string, string>, Refusal>)
    ensures r.Success? ==> NodesUsable(nodes) && Named(nodes, r.value)
    ensures r.Failure? ==> !NodesUsable(nodes) || forall index :: !Named(nodes, index)
  {
    var files := CollectedFiles(nodes);
    if files.Failure? { return Failure(files.error); }
    var found := DottedIndex(files.value);
    if found.None? {
      CanonicalDistinct(files.value);
      forall index ensures !Named(nodes, index) {
        if Named(nodes, index) { SharedNameRefused(DottedNames(files.value), files.value, index); }
      }
      return Failure(SharedDottedName);
    }
    r := Success(found.value);
  }

  lemma NotCredited(elements: seq<Element>, nodes: seq<string>, index: map<string, string>)
    requires Named(nodes, index) && exists e :: e in elements && !Creditable(index, e)
    ensures forall a, c :: !CleanRun(elements, nodes, a, c)
  {
    var files := Sorted(FilesOf(nodes));
    forall a, c ensures !CleanRun(elements, nodes, a, c) {
      if CleanRun(elements, nodes, a, c) {
        IndexUnique(DottedNames(files), files, a, index);
        CreditsCreditable(elements, index, c);
      }
    }
  }

  lemma NotTheNodes(elements: seq<Element>, nodes: seq<string>, index: map<string, string>, credits: seq<CreditedCase>)
    requires Named(nodes, index) && AllCredited(elements, index, credits)
    requires multiset(Ids(credits)) != multiset(nodes)
    ensures forall a, c :: !CleanRun(elements, nodes, a, c)
  {
    var files := Sorted(FilesOf(nodes));
    forall a, c ensures !CleanRun(elements, nodes, a, c) {
      if CleanRun(elements, nodes, a, c) {
        IndexUnique(DottedNames(files), files, a, index);
        CreditsUnique(elements, index, c, credits);
      }
    }
  }

  /** The credited cases of a clean run of the collection; refused exactly when there is no such reading. */
  method ReadRun(elements: seq<Element>, nodes: seq<string>)
    returns (r: Result<seq<CreditedCase>, Refusal>, ghost index: map<string, string>)
    ensures r.Success? ==> CleanRun(elements, nodes, index, r.value)
    ensures r.Failure? ==> forall a, c :: !CleanRun(elements, nodes, a, c)
  {
    index := map[];
    var named := NameFiles(nodes);
    if named.Failure? { return Failure(named.error), map[]; }
    index := named.value;
    var read := ReadTestcases(elements, named.value);
    if read.Failure? {
      NotCredited(elements, nodes, index);
      return Failure(read.error), index;
    }
    assert AllCredited(elements, index, read.value);
    var same := SameNodes(read.value, nodes);
    if !same {
      NotTheNodes(elements, nodes, index, read.value);
      return Failure(NotTheCollection), index;
    }
    r := Success(read.value);
  }

  lemma NonEmptyRun(credits: seq<CreditedCase>, nodes: seq<string>)
    requires nodes != [] && multiset(Ids(credits)) == multiset(nodes)
    ensures credits != []
  {
    assert nodes[0] in multiset(nodes);
  }

  lemma OnlyRun(elements: seq<Element>, nodes: seq<string>, index: map<string, string>, credits: seq<CreditedCase>)
    requires CleanRun(elements, nodes, index, credits)
    ensures forall a, c :: CleanRun(elements, nodes, a, c) ==> c == credits
    ensures credits != []
  {
    forall a, c | CleanRun(elements, nodes, a, c) ensures c == credits {
      RunUnique(elements, nodes, index, a, credits, c);
    }
    NonEmptyRun(credits, nodes);
  }

  /** The run took time, and enough of it per test for the mean to be written as more than zero. */
  ghost predicate TookTime(credits: seq<CreditedCase>) {
    Total(credits) > 0.0 && credits != [] && Round(Total(credits) / |credits| as real * 10000.0) > 0
  }

  const SCHEMA_VERSION := 1

  /** The durations document, without the names and digests of its sources. */
  datatype Document = Document(
    version: int, testcases: nat, totalSeconds: real, meanSeconds: real, files: map<string, real>)

  /** `round(seconds, 4)`. */
  function TenThousandths(seconds: real): real { Round(seconds * 10000.0) as real / 10000.0 }

  ghost function Written(credits: seq<CreditedCase>): map<string, real> {
    map f | f in FileTimes(credits) :: Tenths(FileTimes(credits)[f])
  }

  ghost function DocumentOf(credits: seq<CreditedCase>): Document
    requires credits != []
  {
    Document(SCHEMA_VERSION, |credits|, Tenths(Total(credits)), TenThousandths(Total(credits) / |credits| as real),
             Written(credits))
  }

  /** Seconds per file in tenths, unless the run took no time worth writing. */
  method WriteFiles(credits: seq<CreditedCase>) returns (r: Result<Document, Refusal>)
    requires credits != []
    ensures r.Success? <==> TookTime(credits)
    ensures r.Success? ==> r.value == DocumentOf(credits)
  {
    var times, total := SumFiles(credits);
    if !(total > 0.0) { return Failure(NoTimeRecorded); }
    var mean := TenThousandths(total / |credits| as real);
    if !(mean > 0.0) { return Failure(MeanTooSmall); }
    var files := map f | f in times :: Tenths(times[f]);
    r := Success(Document(SCHEMA_VERSION, |credits|, Tenths(total), mean, files));
  }

  /** The document of the one clean reading of the run, when it took some time; refused exactly otherwise. */
  method BuildPayload(elements: seq<Element>, nodes: seq<string>)
    returns (r: Result<Document, Refusal>, ghost index: map<string, string>, ghost credits: seq<CreditedCase>)
    ensures r.Success? ==>
      CleanRun(elements, nodes, index, credits) && TookTime(credits) && r.value == DocumentOf(credits)
    ensures r.Failure? ==> forall a, c :: CleanRun(elements, nodes, a, c) ==> !TookTime(c)
  {
    var read;
    read, index := ReadRun(elements, nodes);
    if read.Failure? { return Failure(read.error), index, []; }
    credits := read.value;
    OnlyRun(elements, nodes, index, credits);
    r := WriteFiles(read.value);
  }

  // ---------------------------------------------------------------- reading

  function InMilliseconds(files: map<string, real>): map<string, int> { map f | f in files :: Milliseconds(files[f]) }

  predicate Readable(files: map<string, real>) { forall f :: f in files ==> KeyUsable(f) && files[f] >= 0.0 }

  /** The planner's reader: the right version, every key usable and every time non-negative, as integer
      milliseconds under the digest of the file's bytes. */
  method ReadDurations(version: Option<int>, files: map<string, real>, sha256: string)
    returns (r: Option<DurationsFile>)
    ensures r.Some? <==> version == Some(1) && forall f :: f in files ==> KeyUsable(f) && files[f] >= 0.0
    ensures r.Some? ==> r.value == DurationsFile(InMilliseconds(files), sha256)
  {
    if version != Some(SCHEMA_VERSION) { return None; }
    if f :| f in files && !(KeyUsable(f) && files[f] >= 0.0) { return None; }
    r := Some(DurationsFile(InMilliseconds(files), sha256));
  }

  /** The planner never refuses a duration that the reader answered. */
  lemma ReaderFeedsPlanner(files: map<string, real>, ids: seq<string>, n: int, digests: Digests)
    requires Readable(files)
    ensures forall f :: f in InMilliseconds(files) ==> InMilliseconds(files)[f] >= 1
    ensures Planned(ids, InMilliseconds(files), n, digests) != Failure(DurationInvalid)
  {
    forall f | f in files ensures Milliseconds(files[f]) >= 1 {
      MillisecondsExactly(files[f], Milliseconds(files[f]));
    }
  }

  // ---------------------------------------------------------------- the file a testcase belongs to

  lemma TailUsable(f: string)
    requires f != "" && !HasSeparator(f) && f[|f| - 1] != ':'
    ensures !HasSeparator(f[1..]) && (f[1..] == "" || f[1..][|f| - 2] != ':')
  {
    var t := f[1..];
    forall i | 0 <= i < |t| - 1 ensures !(t[i] == ':' && t[i + 1] == ':') {
      assert t[i] == f[i + 1] && t[i + 1] == f[i + 2];
    }
  }

  lemma {:induction false} FileOfPrefix(f: string, rest: string)
    requires !HasSeparator(f) && (f == "" || f[|f| - 1] != ':')
    ensures NodeFile(f + "::" + rest) == f
  {
    var s := f + "::" + rest;
    if f == "" {
      assert s[0] == ':' && s[1] == ':';
    } else {
      if |f| >= 2 { assert f[0] != ':' || f[1] != ':'; } else { assert s[0] != ':'; }
      assert s[1..] == f[1..] + "::" + rest;
      TailUsable(f);
      FileOfPrefix(f[1..], rest);
    }
  }

  /** The file part of an ID that has a separator ends just before the first one. */
  lemma {:induction false} FileEndsBeforeSeparator(id: string)
    requires HasSeparator(id)
    ensures var f := NodeFile(id); f == "" || f[|f| - 1] != ':'
    ensures |NodeFile(id)| < |id| && id[|NodeFile(id)|] == ':'
  {
    var i :| 0 <= i < |id| - 1 && id[i] == ':' && id[i + 1] == ':';
    if !(id[0] == ':' && id[1] == ':') {
      assert id[1..][i - 1] == ':' && id[1..][i] == ':';
      FileEndsBeforeSeparator(id[1..]);
    }
  }

  lemma NodeIdParts(file: string, classname: string, length: nat, name: string) returns (rest: string)
    requires length <= |classname|
    ensures NodeId(file, classname, length, name) == file + "::" + rest
    ensures HasSeparator(NodeId(file, classname, length, name))
  {
    var tail := classname[length..];
    rest := if tail == "" then name else Chained(tail[1..]) + "::" + name;
    var id := NodeId(file, classname, length, name);
    assert id == file + "::" + rest;
    assert id[|file|] == ':' && id[|file| + 1] == ':';
  }

  lemma IndexedFile(nodes: seq<string>, index: map<string, string>, d: string)
    requires Named(nodes, index) && d in index
    ensures index[d] in FilesOf(nodes)
  {
    var files := Sorted(FilesOf(nodes));
    var i :| 0 <= i < |DottedNames(files)| && DottedNames(files)[i] == d;
    assert index[d] == files[i];
  }

  lemma CreditHasFile(nodes: seq<string>, index: map<string, string>, e: Element, c: CreditedCase)
    requires Named(nodes, index) && CreditOf(index, e, c)
    ensures HasSeparator(c.nodeId) && c.file in FilesOf(nodes)
    ensures KeyUsable(c.file) && c.file[|c.file| - 1] != ':' ==> NodeFile(c.nodeId) == c.file
  {
    var length :| 0 <= length <= |e.classname| && Prefixes(e.classname, index, length) &&
      c.file == index[e.classname[..length]] && c.nodeId == NodeId(c.file, e.classname, length, e.name);
    IndexedFile(nodes, index, e.classname[..length]);
    var rest := NodeIdParts(c.file, e.classname, length, e.name);
    if KeyUsable(c.file) && c.file[|c.file| - 1] != ':' { FileOfPrefix(c.file, rest); }
  }

  /** A node of the collection is some credited case's. */
  lemma NodeCredited(credits: seq<CreditedCase>, nodes: seq<string>, k: nat) returns (j: nat)
    requires multiset(Ids(credits)) == multiset(nodes) && k < |nodes|
    ensures j < |credits| && credits[j].nodeId == nodes[k]
  {
    assert nodes[k] in multiset(Ids(credits));
    j :| 0 <= j < |Ids(credits)| && Ids(credits)[j] == nodes[k];
  }

  lemma CreditCollected(credits: seq<CreditedCase>, nodes: seq<string>, i: nat)
    requires multiset(Ids(credits)) == multiset(nodes) && i < |credits|
    ensures credits[i].nodeId in nodes
  {
    assert Ids(credits)[i] in multiset(Ids(credits));
  }

  /** In an accepted run every testcase is credited to the file of its own node: the credited file is some
      collected node's, that node is itself in the report, so it has a separator and its file ends before it. */
  lemma CreditedToOwnFile(elements: seq<Element>, nodes: seq<string>, index: map<string, string>,
                          credits: seq<CreditedCase>, i: nat)
    requires CleanRun(elements, nodes, index, credits) && i < |credits|
    ensures credits[i].file == NodeFile(credits[i].nodeId) && credits[i].nodeId in nodes
  {
    CreditHasFile(nodes, index, elements[i], credits[i]);
    CreditCollected(credits, nodes, i);
    var k :| 0 <= k < |nodes| && NodeFile(nodes[k]) == credits[i].file;
    var j := NodeCredited(credits, nodes, k);
    CreditHasFile(nodes, index, elements[j], credits[j]);
    FileEndsBeforeSeparator(nodes[k]);
  }

  // ---------------------------------------------------------------- totals and the round trip

  lemma {:induction false} FileTimesTotal(credits: seq<CreditedCase>)
    ensures TimeSum(FileTimes(credits).Keys, FileTimes(credits)) == Total(credits)
  {
    if credits != [] {
      var last := credits[|credits| - 1];
      FileTimesTotal(credits[..|credits| - 1]);
      CreditTotal(FileTimes(credits[..|credits| - 1]), last.file, last.seconds);
    }
  }

  lemma {:induction false} FileTimesKeys(credits: seq<CreditedCase>, f: string)
    requires forall i :: 0 <= i < |credits| ==> credits[i].seconds >= 0.0
    ensures f in FileTimes(credits) <==> exists i :: 0 <= i < |credits| && credits[i].file == f
    ensures f in FileTimes(credits) ==> FileTimes(credits)[f] >= 0.0
  {
    if credits != [] {
      var rest := credits[..|credits| - 1];
      FileTimesKeys(rest, f);
      FileTimesKeys(rest, credits[|credits| - 1].file);
      if i :| 0 <= i < |rest| && rest[i].file == f { assert credits[i] == rest[i]; }
      if i :| 0 <= i < |credits| && credits[i].file == f {
        if i < |rest| { assert rest[i] == credits[i]; }
      }
    }
  }

  lemma TimesNonNegative(elements: seq<Element>, index: map<string, string>, credits: seq<CreditedCase>)
    requires AllCredited(elements, index, credits)
    ensures forall i :: 0 <= i < |credits| ==> credits[i].seconds >= 0.0
  {
    forall i | 0 <= i < |credits| ensures credits[i].seconds >= 0.0 { assert CreditOf(index, elements[i], credits[i]); }
  }

  /** The files credited with time are exactly the collected ones. */
  lemma CreditedFiles(elements: seq<Element>, nodes: seq<string>, index: map<string, string>,
                      credits: seq<CreditedCase>, f: string)
    requires CleanRun(elements, nodes, index, credits)
    ensures f in FileTimes(credits) <==> f in FilesOf(nodes)
  {
    TimesNonNegative(elements, index, credits);
    FileTimesKeys(credits, f);
    if i :| 0 <= i < |credits| && credits[i].file == f {
      CreditedToOwnFile(elements, nodes, index, credits, i);
      var k :| 0 <= k < |nodes| && nodes[k] == credits[i].nodeId;
    }
    if k :| 0 <= k < |nodes| && NodeFile(nodes[k]) == f {
      var i := NodeCredited(credits, nodes, k);
      CreditedToOwnFile(elements, nodes, index, credits, i);
    }
  }

  lemma SameCount(credits: seq<CreditedCase>, nodes: seq<string>)
    requires multiset(Ids(credits)) == multiset(nodes)
    ensures |credits| == |nodes|
  {
    assert |multiset(Ids(credits))| == |Ids(credits)| && |multiset(nodes)| == |nodes|;
  }

  /** The written table has exactly the collected files; its unrounded times add up to the run's total;
      the planner's reader accepts it and every file's milliseconds are within 50 of its true time. */
  lemma WriterToReader(elements: seq<Element>, nodes: seq<string>, index: map<string, string>,
                       credits: seq<CreditedCase>, document: Document)
    requires CleanRun(elements, nodes, index, credits) && credits != [] && document == DocumentOf(credits)
    ensures document.files.Keys == FilesOf(nodes) && document.testcases == |nodes|
    ensures document.version == 1 && Readable(document.files)
    ensures TimeSum(FileTimes(credits).Keys, FileTimes(credits)) == Total(credits)
    ensures forall f :: f in document.files ==>
      -50.0 <= InMilliseconds(document.files)[f] as real - 1000.0 * FileTimes(credits)[f] <= 50.0
  {
    FileTimesTotal(credits);
    TimesNonNegative(elements, index, credits);
    SameCount(credits, nodes);
    forall f ensures f in document.files <==> f in FilesOf(nodes) { CreditedFiles(elements, nodes, index, credits, f); }
    forall f | f in document.files
      ensures document.files[f] >= 0.0
      ensures -50.0 <= InMilliseconds(document.files)[f] as real - 1000.0 * FileTimes(credits)[f] <= 50.0
    {
      FileTimesKeys(credits, f);
      WithinFifty(FileTimes(credits)[f]);
    }
  }
}
