/** What the durations writer accepts and writes, stated on the report, the collection and the keys. */
module DurationsProperties {
  import opened Wrappers
  import opened Ordering
  import opened NodeIds
  import opened Text
  import opened Durations

  // ---------------------------------------------------------------- keys

  /** `s.split(c)`. */
  function Split(s: string, c: char): (r: seq<string>)
    ensures r != []
  {
    if s == "" then [""]
    else if s[0] == c then [""] + Split(s[1..], c)
    else var rest := Split(s[1..], c); [[s[0]] + rest[0]] + rest[1..]
  }

  /** `..` is a whole segment from `i` to the next slash or the end. */
  predicate ParentAt(s: string, i: nat) {
    i + 2 <= |s| && s[i] == '.' && s[i + 1] == '.' && (i + 2 == |s| || s[i + 2] == '/')
  }

  predicate StartsParent(s: string) { ParentAt(s, 0) }

  lemma {:induction false} FirstPart(s: string)
    ensures Split(s, '/')[0] == ".." <==> StartsParent(s)
    ensures Split(s, '/')[0] == "." <==> |s| >= 1 && s[0] == '.' && (|s| == 1 || s[1] == '/')
    ensures Split(s, '/')[0] == "" <==> s == "" || s[0] == '/'
  {
    if s != "" && s[0] != '/' {
      FirstPart(s[1..]);
      var first := Split(s[1..], '/')[0];
      assert Split(s, '/')[0] == [s[0]] + first;
      assert [s[0]] + first == ".." <==> s[0] == '.' && first == "." by {
        assert ".." == ['.'] + ".";
        if [s[0]] + first == ".." { assert ([s[0]] + first)[1..] == first; }
      }
      assert [s[0]] + first == "." <==> s[0] == '.' && first == "" by {
        if [s[0]] + first == "." { assert |first| == 0; }
        if first == "" { assert [s[0]] + first == [s[0]]; }
      }
    }
  }

  /** Some `..` segment starts behind a slash. */
  ghost predicate LaterParent(s: string) { exists i: nat :: i > 0 && ParentAt(s, i) && s[i - 1] == '/' }

  lemma LaterStep(s: string)
    requires s != ""
    ensures LaterParent(s) <==> LaterParent(s[1..]) || (s[0] == '/' && StartsParent(s[1..]))
  {
    var t := s[1..];
    forall i: nat ensures ParentAt(t, i) <==> ParentAt(s, i + 1) { }
    if i: nat :| i > 0 && ParentAt(s, i) && s[i - 1] == '/' {
      assert ParentAt(t, i - 1);
      if i > 1 { assert t[i - 2] == '/'; }
    }
    if i: nat :| i > 0 && ParentAt(t, i) && t[i - 1] == '/' {
      assert ParentAt(s, i + 1) && s[i] == '/';
    }
    if s[0] == '/' && StartsParent(t) { assert ParentAt(s, 1); }
  }

  lemma {:induction false} LaterParts(s: string)
    ensures ".." in Split(s, '/')[1..] <==> LaterParent(s)
  {
    if s == "" {
      assert Split(s, '/')[1..] == [];
    } else {
      var rest := Split(s[1..], '/');
      LaterParts(s[1..]);
      FirstPart(s[1..]);
      LaterStep(s);
      assert rest == [rest[0]] + rest[1..];
      if s[0] == '/' {
        assert Split(s, '/')[1..] == rest;
      } else {
        assert Split(s, '/')[1..] == rest[1..];
      }
    }
  }

  lemma SegmentAt(s: string, i: nat)
    requires ParentAt(s, i) && (i == 0 || s[i - 1] == '/')
    ensures HasParentSegment(s)
  {
    assert 0 <= i <= |s| - 2 && s[i] == '.' && s[i + 1] == '.';
  }

  lemma ParentSegments(s: string)
    ensures HasParentSegment(s) <==> ".." in Split(s, '/')
  {
    FirstPart(s);
    LaterParts(s);
    var parts := Split(s, '/');
    assert parts == [parts[0]] + parts[1..];
    if HasParentSegment(s) {
      var i: nat :| 0 <= i <= |s| - 2 && s[i] == '.' && s[i + 1] == '.' && (i == 0 || s[i - 1] == '/') &&
        (i + 2 == |s| || s[i + 2] == '/');
      assert ParentAt(s, i);
    }
    if StartsParent(s) { SegmentAt(s, 0); }
    if LaterParent(s) {
      var i: nat :| i > 0 && ParentAt(s, i) && s[i - 1] == '/';
      SegmentAt(s, i);
    }
  }

  /** A key is a relative path: not empty, no backslash, no `::`, no drive or root, and no `..` among its segments. */
  lemma KeysExactly(key: string)
    ensures KeyUsable(key) <==>
      && key != "" && '\\' !in key && (forall k: nat :: !SeparatorAt(key, k))
      && key[0] != '/' && (|key| < 2 || key[1] != ':') && ".." !in Split(key, '/')
  {
    ParentSegments(key);
    if k: nat :| SeparatorAt(key, k) { assert key[k] == ':' && key[k + 1] == ':'; }
    if HasSeparator(key) {
      var i :| 0 <= i < |key| - 1 && key[i] == ':' && key[i + 1] == ':';
      assert SeparatorAt(key, i);
    }
  }

  // ---------------------------------------------------------------- the report of a run

  /** `sep.join(parts)`. */
  function Joined(parts: seq<string>, sep: string): string {
    if parts == [] then "" else if |parts| == 1 then parts[0] else parts[0] + sep + Joined(parts[1..], sep)
  }

  lemma {:induction false} ChainedPart(part: string, rest: string)
    requires '.' !in part
    ensures Chained(part + "." + rest) == part + "::" + Chained(rest) && Chained(part) == part
  {
    var s := part + "." + rest;
    if part == "" {
      assert s[0] == '.' && s[1..] == rest;
    } else {
      assert s[0] == part[0] && part[0] in part && s[1..] == part[1..] + "." + rest;
      ChainedPart(part[1..], rest);
      assert part == [part[0]] + part[1..];
    }
  }

  /** Splitting at dots and joining with `::`. */
  lemma {:induction false} ChainedParts(parts: seq<string>)
    requires forall p :: p in parts ==> '.' !in p
    ensures Chained(Joined(parts, ".")) == Joined(parts, "::")
  {
    if parts != [] {
      assert parts[0] in parts;
      if |parts| == 1 {
        ChainedPart(parts[0], "");
      } else {
        ChainedPart(parts[0], Joined(parts[1..], "."));
        ChainedParts(parts[1..]);
      }
    }
  }

  /** The dotted name of a Python file is its path with dots, without `.py`. */
  lemma DottedWritten(stem: string)
    ensures |DottedName(stem + ".py")| == |stem|
    ensures forall k :: 0 <= k < |stem| ==> DottedName(stem + ".py")[k] == if stem[k] == '/' then '.' else stem[k]
    ensures !EndsWith(stem, ".py") ==> (|DottedName(stem)| == |stem| &&
      forall k :: 0 <= k < |stem| ==> DottedName(stem)[k] == if stem[k] == '/' then '.' else stem[k])
  {
    assert (stem + ".py")[|stem|..] == ".py" && (stem + ".py")[..|stem|] == stem;
    ReplacedAt(stem, '/', '.');
  }

  /** The JUnit element of the test `name` in the classes `classes` of `file`, and its node ID. */
  ghost predicate ElementOf(e: Element, node: string, file: string, classes: seq<string>, name: string) {
    && (forall c :: c in classes ==> '.' !in c)
    && e.classname == DottedName(file) + (if classes == [] then "" else "." + Joined(classes, "."))
    && e.name == name
    && node == file + (if classes == [] then "" else "::" + Joined(classes, "::")) + "::" + name
  }

  /** No other collected file's dotted name is a longer part of the class name, up to a dot or the end. */
  ghost predicate OwnedBy(e: Element, file: string, index: map<string, string>) {
    && DottedName(file) in index && index[DottedName(file)] == file
    && forall d :: d in index && |d| > |DottedName(file)| && d <= e.classname ==>
         |d| < |e.classname| && e.classname[|d|] != '.'
  }

  lemma OwnPrefix(e: Element, node: string, file: string, classes: seq<string>, name: string,
                  index: map<string, string>)
    requires ElementOf(e, node, file, classes, name) && OwnedBy(e, file, index)
    ensures var k := |DottedName(file)|;
      k <= |e.classname| && e.classname[..k] == DottedName(file) && Prefixes(e.classname, index, k) &&
      forall j :: k < j <= |e.classname| ==> !Prefixes(e.classname, index, j)
  {
    var k := |DottedName(file)|;
    assert e.classname[..k] == DottedName(file);
    forall j | k < j <= |e.classname| ensures !Prefixes(e.classname, index, j) {
      var d := e.classname[..j];
      assert d <= e.classname && |d| == j;
    }
  }

  lemma OwnNodeId(e: Element, node: string, file: string, classes: seq<string>, name: string)
    requires ElementOf(e, node, file, classes, name)
    ensures |DottedName(file)| <= |e.classname| && NodeId(file, e.classname, |DottedName(file)|, e.name) == node
  {
    var k := |DottedName(file)|;
    if classes != [] {
      ChainedParts(classes);
      assert e.classname[k..] == "." + Joined(classes, ".");
      assert e.classname[k..][1..] == Joined(classes, ".");
    } else {
      assert e.classname[k..] == "";
    }
  }

  /** A passing test of a collected file is credited to that file, under its own node ID, with its time. */
  lemma CreditOfTest(e: Element, node: string, file: string, classes: seq<string>, name: string,
                     index: map<string, string>, seconds: real)
    requires ElementOf(e, node, file, classes, name) && OwnedBy(e, file, index)
    requires !e.failing && e.time == Some(seconds) && seconds >= 0.0
    ensures CreditOf(index, e, CreditedCase(file, node, seconds))
  {
    OwnPrefix(e, node, file, classes, name, index);
    OwnNodeId(e, node, file, classes, name);
    assert 0 <= |DottedName(file)| <= |e.classname|;
  }

  /** Element `i` is the passing test of node `i`, in its own file. */
  ghost predicate Reports(e: Element, node: string, seconds: real, index: map<string, string>) {
    && !e.failing && e.time == Some(seconds) && seconds >= 0.0
    && exists classes, name :: ElementOf(e, node, NodeFile(node), classes, name) && OwnedBy(e, NodeFile(node), index)
  }

  /** The report of a run of exactly the collection, in any order, is a clean run, credited test by test. */
  lemma OwnReportIsClean(elements: seq<Element>, order: seq<string>, times: seq<real>, nodes: seq<string>,
                         index: map<string, string>, credits: seq<CreditedCase>)
    requires NodesUsable(nodes) && Named(nodes, index) && multiset(order) == multiset(nodes)
    requires |elements| == |order| == |times| == |credits|
    requires forall i :: 0 <= i < |order| ==>
      Reports(elements[i], order[i], times[i], index) &&
      credits[i] == CreditedCase(NodeFile(order[i]), order[i], times[i])
    ensures CleanRun(elements, nodes, index, credits)
  {
    forall i | 0 <= i < |order| ensures CreditOf(index, elements[i], credits[i]) {
      var classes, name :| ElementOf(elements[i], order[i], NodeFile(order[i]), classes, name) &&
        OwnedBy(elements[i], NodeFile(order[i]), index);
      CreditOfTest(elements[i], order[i], NodeFile(order[i]), classes, name, index, times[i]);
    }
    assert Ids(credits) == order;
  }

  // ---------------------------------------------------------------- the document

  /** The mean is written as more than zero exactly when it is more than half of the last digit. */
  lemma TookTimeExactly(credits: seq<CreditedCase>)
    requires credits != []
    ensures TookTime(credits) <==> 10000.0 * (Total(credits) / |credits| as real) > 0.5
  {
    var n, mean := |credits| as real, Total(credits) / |credits| as real;
    RoundExactly(mean * 10000.0, Round(mean * 10000.0));
    RoundExactly(mean * 10000.0, 0);
    assert mean * n == Total(credits);
    if mean > 0.0 { assert mean * n > 0.0; }
  }

  /** `k` is the nearest integer to `exact` times `scale`, and `written` is `k` over `scale`. */
  ghost predicate Nearest(k: int, written: real, exact: real, scale: real) {
    var off := k as real - exact * scale;
    written * scale == k as real && -0.5 <= off <= 0.5 && (off in {-0.5, 0.5} ==> k % 2 == 0)
  }

  /** `written` is the multiple of 1/`scale` nearest to `exact`, and of two equally near ones the even one. */
  ghost predicate NearestWith(written: real, exact: real, scale: real) {
    exists k: int :: Nearest(k, written, exact, scale)
  }

  lemma RoundedTo(exact: real, scale: real)
    requires scale > 0.0
    ensures NearestWith(Round(exact * scale) as real / scale, exact, scale)
  {
    var k := Round(exact * scale);
    RoundExactly(exact * scale, k);
    assert Nearest(k, k as real / scale, exact, scale);
  }

  lemma DecimalsRounded(exact: real)
    ensures NearestWith(Tenths(exact), exact, 10.0) && NearestWith(TenThousandths(exact), exact, 10000.0)
  {
    RoundedTo(exact, 10.0);
    RoundedTo(exact, 10000.0);
  }

  lemma FilesRounded(credits: seq<CreditedCase>, files: map<string, real>)
    requires files == Written(credits)
    ensures files.Keys == FileTimes(credits).Keys
    ensures forall f :: f in files ==> NearestWith(files[f], FileTimes(credits)[f], 10.0)
  {
    forall f | f in files ensures NearestWith(files[f], FileTimes(credits)[f], 10.0) {
      DecimalsRounded(FileTimes(credits)[f]);
    }
  }

  /** The version is 1, and total, mean and the time of each file are the nearest with one, four and one decimals. */
  lemma DocumentExactly(credits: seq<CreditedCase>, document: Document)
    requires credits != [] && document == DocumentOf(credits)
    ensures document.version == 1 && document.testcases == |credits|
    ensures NearestWith(document.totalSeconds, Total(credits), 10.0)
    ensures NearestWith(document.meanSeconds, Total(credits) / |credits| as real, 10000.0)
    ensures document.files.Keys == FileTimes(credits).Keys
    ensures forall f :: f in document.files ==> NearestWith(document.files[f], FileTimes(credits)[f], 10.0)
  {
    DecimalsRounded(Total(credits));
    DecimalsRounded(Total(credits) / |credits| as real);
    FilesRounded(credits, document.files);
  }
}
