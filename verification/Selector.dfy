/** The fail-broad test selector. */
module Selector {
  import opened Wrappers
  import opened NodeIds
  import opened Text

  // ---------------------------------------------------------------- strings

  /** `s.replace("::", ".")`. */
  function DotJoined(s: string): string {
    if |s| >= 2 && s[0] == ':' && s[1] == ':' then "." + DotJoined(s[2..])
    else if s == "" then "" else [s[0]] + DotJoined(s[1..])
  }

  /** What follows the first `::`, if there is one. */
  function AfterFile(id: string): Option<string> {
    if |id| < 2 then None
    else if id[0] == ':' && id[1] == ':' then Some(id[2..])
    else AfterFile(id[1..])
  }

  function UpTo(s: string, c: char): string {
    if s == "" || s[0] == c then "" else [s[0]] + UpTo(s[1..], c)
  }

  predicate StartsWith(s: string, prefix: string) { prefix <= s }

  /** `fnmatch.fnmatchcase` for patterns whose only special character is `*`, which crosses `/`. */
  predicate Glob(pattern: string, s: string)
    decreases |pattern| + |s|
  {
    if pattern == "" then s == ""
    else if pattern[0] == '*' then Glob(pattern[1..], s) || (s != "" && Glob(pattern, s[1..]))
    else s != "" && s[0] == pattern[0] && Glob(pattern[1..], s[1..])
  }

  predicate MatchesAny(path: string, patterns: seq<string>) {
    exists i :: 0 <= i < |patterns| && Glob(patterns[i], path)
  }

  // ---------------------------------------------------------------- constants

  const SCHEMA_VERSION := 1
  const SELECTOR_VERSION := "ad-1270f.1"
  const MAP_VERSION := "1"
  const BLAST_RADIUS_PATTERNS: seq<string> := [
    "src/probos/runtime.py", "src/probos/startup/" + "*", "src/probos/config.py",
    "src/probos/config_models/" + "*" + ".py", "src/probos/config_profiles.py", "config/profiles/" + "*",
    "src/probos/types.py", "src/probos/" + "*" + ("protocol" + "*" + ".py"),
    "src/probos/" + "*" + ("event" + "*" + ".py"), "pyproject.toml", "requirements" + "*" + ".txt",
    "" + "*" + "conftest.py", "scripts/run_test_gate.py", "scripts/_gate_pytest_plugin.py",
    "scripts/_gate_process_supervisor.py"]
  const SELECTOR_SELF_PATTERNS: seq<string> := [
    "scripts/select_tests.py", "tests/test_ad1270f_impact_selector.py",
    "docs/development/" + "test-selection-shadow-ledger.jsonl", "logs/gates/testmap-" + "*" + ".json"]

  // ---------------------------------------------------------------- contexts

  /** The dotted coverage context of a node ID, without its parameters. */
  function ContextForNode(node: string): Option<string> {
    var id := Replaced(node, '\\', '/');
    var path, rest := NodeFile(id), AfterFile(id);
    if rest.None? || !EndsWith(path, ".py") || rest.value == "" then None else
      var tail := DotJoined(UpTo(rest.value, '['));
      if tail == "" then None else Some(Replaced(path[..|path| - 3], '/', '.') + "." + tail)
  }

  // ---------------------------------------------------------------- inputs

  datatype Status = Added | Modified | Deleted | Renamed | Copied | OtherStatus

  datatype ChangeEntry = ChangeEntry(status: Status, path: string, oldPath: Option<string>)

  datatype TestMap = TestMap(
    schemaVersion: int, selectorVersion: string, mapVersion: string, baseCommit: string, baseTree: string,
    contexts: map<string, set<string>>, measuredFiles: set<string>, uncontexted: set<string>)

  /** What git answers: a commit's presence, ancestry and tree, and the difference to the working tree. */
  datatype Git = Git(
    exists_: string -> bool, isAncestor: string -> bool, treeOf: string -> Option<string>,
    diff: string -> Option<seq<ChangeEntry>>)

  /** Everything a selection reads; `dynamic` says of a changed Python file that it cannot be read or
      parsed, or imports by a computed name. */
  datatype Inputs = Inputs(
    testMap: Option<TestMap>, full: set<string>, git: Git, base: Option<string>,
    dynamic: string -> bool, crossing: set<string>, seamErrors: bool)

  datatype Rule =
    | MapMissing | MapSchema | MapBaseUnknown | MapNotAncestor | MapTreeMismatch | DiffDeleted | DiffRenamed
    | BlastRadius | UnknownModule | DynamicImport | UncontextedTest | SelectorSelfChange

  datatype Verdict = Selected | FailBroad

  /** `nodes` stands for the sorted list of the same names. */
  datatype Selection = Selection(
    verdict: Verdict, reasons: set<Rule>, nodes: set<string>, changed: seq<ChangeEntry>, base: string)

  // ---------------------------------------------------------------- what each rule means

  function BaseRef(i: Inputs, m: TestMap): string {
    if i.base.Some? && i.base.value != "" then i.base.value else m.baseCommit
  }

  predicate BaseKnown(i: Inputs, m: TestMap) { m.baseCommit != "" && i.git.exists_(m.baseCommit) }

  function Diff(i: Inputs, m: TestMap): Option<seq<ChangeEntry>> {
    if BaseKnown(i, m) then i.git.diff(BaseRef(i, m)) else Some([])
  }

  function Entries(i: Inputs, m: TestMap): seq<ChangeEntry> { if Diff(i, m).Some? then Diff(i, m).value else [] }

  /** Every path a change touches, the source side of a rename included. */
  function ChangedPaths(entries: seq<ChangeEntry>): set<string> {
    (set k | 0 <= k < |entries| :: entries[k].path) +
    (set k | 0 <= k < |entries| && entries[k].oldPath.Some? && entries[k].oldPath.value != ""
      :: entries[k].oldPath.value)
  }

  function Paths(i: Inputs, m: TestMap): set<string> { ChangedPaths(Entries(i, m)) }

  predicate Relatable(m: TestMap, path: string) {
    path in m.measuredFiles || (StartsWith(path, "tests/") && EndsWith(path, ".py"))
  }

  predicate Resolves(full: set<string>, context: string) { exists n :: n in full && ContextForNode(n) == Some(context) }

  /** The node's own context is in the map. */
  predicate Contexted(m: TestMap, node: string) {
    ContextForNode(node).Some? && ContextForNode(node).value in m.contexts
  }

  predicate EntryDynamic(i: Inputs, e: ChangeEntry) {
    e.status != Deleted && EndsWith(e.path, ".py") && i.dynamic(e.path)
  }

  predicate Moves(e: ChangeEntry) { e.status == Renamed || e.status == Copied }

  /** When a rule makes the selector fail broad. */
  predicate Fires(i: Inputs, m: TestMap, rule: Rule) {
    match rule
    case MapMissing => false
    case MapSchema => m.schemaVersion != SCHEMA_VERSION || m.selectorVersion != SELECTOR_VERSION ||
      m.mapVersion != MAP_VERSION
    case MapBaseUnknown => !BaseKnown(i, m)
    case MapNotAncestor => BaseKnown(i, m) && !i.git.isAncestor(m.baseCommit)
    case MapTreeMismatch => BaseKnown(i, m) && i.git.treeOf(m.baseCommit) != Some(m.baseTree)
    case DiffDeleted => Diff(i, m).None? || exists k :: 0 <= k < |Entries(i, m)| && Entries(i, m)[k].status == Deleted
    case DiffRenamed =>
      Diff(i, m).None? || exists k :: 0 <= k < |Entries(i, m)| && Moves(Entries(i, m)[k])
    case BlastRadius => exists p :: p in Paths(i, m) && MatchesAny(p, BLAST_RADIUS_PATTERNS)
    case SelectorSelfChange => exists p :: p in Paths(i, m) && MatchesAny(p, SELECTOR_SELF_PATTERNS)
    case UnknownModule => exists p :: p in Paths(i, m) && !Relatable(m, p)
    case DynamicImport => exists k :: 0 <= k < |Entries(i, m)| && EntryDynamic(i, Entries(i, m)[k])
    case UncontextedTest =>
      || i.seamErrors || (exists c :: c in m.contexts && !Resolves(i.full, c))
      || exists n :: n in i.full && n !in m.uncontexted && !Contexted(m, n)
  }

  predicate Quiet(i: Inputs, m: TestMap) { forall rule :: !Fires(i, m, rule) }

  /** The node's context covers the path, or the path is the node's own test file. */
  predicate Relates(m: TestMap, path: string, node: string) {
    (Contexted(m, node) && path in m.contexts[ContextForNode(node).value]) ||
      (EndsWith(path, ".py") && NodeFile(node) == path)
  }

  /** The node is one the change may affect. */
  predicate Affected(m: TestMap, paths: set<string>, node: string) { exists p :: p in paths && Relates(m, p, node) }

  /** What is run of the collection when no rule fires. */
  predicate Picked(i: Inputs, m: TestMap, node: string) {
    node in i.full && (node in m.uncontexted || node in i.crossing || Affected(m, Paths(i, m), node))
  }

  /** The verdict as a function of the inputs. */
  ghost predicate IsSelection(i: Inputs, s: Selection) {
    match i.testMap
    case None => s == Selection(FailBroad, {MapMissing}, i.full, [], if i.base.Some? then i.base.value else "")
    case Some(m) =>
      && s.changed == Entries(i, m) && s.base == BaseRef(i, m)
      && if !Quiet(i, m) then
           s.verdict == FailBroad && s.nodes == i.full && forall rule :: rule in s.reasons <==> Fires(i, m, rule)
         else if Paths(i, m) != {} && forall n :: !Picked(i, m, n) then
           s.verdict == FailBroad && s.nodes == i.full && s.reasons == {UnknownModule}
         else
           s.verdict == Selected && s.reasons == {} && forall n :: n in s.nodes <==> Picked(i, m, n)
  }

  // ---------------------------------------------------------------- the selector's passes

  predicate MapRule(rule: Rule) { rule in {MapSchema, MapBaseUnknown, MapNotAncestor, MapTreeMismatch} }

  predicate EntryRule(rule: Rule) { rule in {DiffDeleted, DiffRenamed, DynamicImport} }

  predicate PathRule(rule: Rule) { rule in {BlastRadius, SelectorSelfChange, UnknownModule} }

  /** Whether the map can be related to the current tree. */
  method ValidateMap(i: Inputs, m: TestMap) returns (reasons: set<Rule>)
    ensures forall rule :: rule in reasons <==> MapRule(rule) && Fires(i, m, rule)
  {
    reasons := {};
    if m.schemaVersion != SCHEMA_VERSION || m.selectorVersion != SELECTOR_VERSION || m.mapVersion != MAP_VERSION {
      reasons := reasons + {MapSchema};
    }
    if m.baseCommit == "" || !i.git.exists_(m.baseCommit) { return reasons + {MapBaseUnknown}; }
    if !i.git.isAncestor(m.baseCommit) { reasons := reasons + {MapNotAncestor}; }
    if i.git.treeOf(m.baseCommit) != Some(m.baseTree) { reasons := reasons + {MapTreeMismatch}; }
  }

  /** The rules the entries themselves fire. */
  method EntryReasons(i: Inputs, entries: seq<ChangeEntry>) returns (reasons: set<Rule>)
    ensures forall rule :: rule in reasons ==> EntryRule(rule)
    ensures DiffDeleted in reasons <==> exists k :: 0 <= k < |entries| && entries[k].status == Deleted
    ensures DiffRenamed in reasons <==> exists k :: 0 <= k < |entries| && Moves(entries[k])
    ensures DynamicImport in reasons <==> exists k :: 0 <= k < |entries| && EntryDynamic(i, entries[k])
  {
    reasons := {};
    for k := 0 to |entries|
      invariant forall rule :: rule in reasons ==> EntryRule(rule)
      invariant DiffDeleted in reasons <==> exists j :: 0 <= j < k && entries[j].status == Deleted
      invariant DiffRenamed in reasons <==> exists j :: 0 <= j < k && Moves(entries[j])
      invariant DynamicImport in reasons <==> exists j :: 0 <= j < k && EntryDynamic(i, entries[j])
    {
      var e := entries[k];
      if e.status == Deleted { reasons := reasons + {DiffDeleted}; }
      else if Moves(e) { reasons := reasons + {DiffRenamed}; }
      if EntryDynamic(i, e) { reasons := reasons + {DynamicImport}; }
    }
  }

  /** A diff that cannot be read counts as deletions and renames. */
  method DiffReasons(i: Inputs, m: TestMap) returns (reasons: set<Rule>)
    ensures forall rule :: rule in reasons <==> EntryRule(rule) && Fires(i, m, rule)
  {
    if Diff(i, m).None? { return {DiffDeleted, DiffRenamed}; }
    reasons := EntryReasons(i, Entries(i, m));
  }

  predicate Blasts(p: string) { MatchesAny(p, BLAST_RADIUS_PATTERNS) }

  predicate ChangesSelector(p: string) { MatchesAny(p, SELECTOR_SELF_PATTERNS) }

  /** The rules one changed path fires. */
  function RulesOf(m: TestMap, p: string): set<Rule> {
    (if Blasts(p) then {BlastRadius} else {}) + (if ChangesSelector(p) then {SelectorSelfChange} else {}) +
    (if Relatable(m, p) then {} else {UnknownModule})
  }

  method PathReasons(m: TestMap, paths: set<string>) returns (reasons: set<Rule>)
    ensures forall rule :: rule in reasons <==> exists p :: p in paths && rule in RulesOf(m, p)
  {
    reasons := {};
    var rest := paths;
    while rest != {}
      invariant rest <= paths
      invariant forall rule :: rule in reasons <==> exists p :: p in paths - rest && rule in RulesOf(m, p)
      decreases |rest|
    {
      var p :| p in rest;
      reasons := reasons + RulesOf(m, p);
      rest := rest - {p};
    }
  }

  method ContextReasons(i: Inputs, m: TestMap) returns (reasons: set<Rule>)
    ensures forall rule :: rule in reasons <==> rule == UncontextedTest && Fires(i, m, rule)
  {
    var unresolvable := exists c :: c in m.contexts && !Resolves(i.full, c);
    var unaccounted := exists n :: n in i.full && n !in m.uncontexted && !Contexted(m, n);
    reasons := if unresolvable || unaccounted || i.seamErrors then {UncontextedTest} else {};
  }

  lemma OneGroup(rule: Rule)
    ensures MapRule(rule) || EntryRule(rule) || PathRule(rule) || rule == UncontextedTest || rule == MapMissing
  {
  }

  /** A path rule fires exactly when some changed path fires it. */
  lemma PathFires(i: Inputs, m: TestMap, rule: Rule)
    ensures (exists p :: p in Paths(i, m) && rule in RulesOf(m, p)) <==> PathRule(rule) && Fires(i, m, rule)
  {
    if PathRule(rule) && Fires(i, m, rule) {
      match rule
      case BlastRadius =>
        var p :| p in Paths(i, m) && MatchesAny(p, BLAST_RADIUS_PATTERNS);
        assert rule in RulesOf(m, p);
      case SelectorSelfChange =>
        var p :| p in Paths(i, m) && MatchesAny(p, SELECTOR_SELF_PATTERNS);
        assert rule in RulesOf(m, p);
      case UnknownModule =>
        var p :| p in Paths(i, m) && !Relatable(m, p);
        assert rule in RulesOf(m, p);
    }
  }

  method Reasons(i: Inputs, m: TestMap) returns (reasons: set<Rule>)
    ensures forall rule :: rule in reasons <==> Fires(i, m, rule)
  {
    var map_ := ValidateMap(i, m);
    var entry := DiffReasons(i, m);
    var path := PathReasons(m, Paths(i, m));
    var context := ContextReasons(i, m);
    reasons := map_ + entry + path + context;
    forall rule ensures rule in reasons <==> Fires(i, m, rule) {
      PathFires(i, m, rule);
      OneGroup(rule);
    }
  }

  /** The union of what each path selects. */
  method Gather(paths: set<string>, nodesFor: string -> set<string>) returns (r: set<string>)
    ensures forall n :: n in r <==> exists p :: p in paths && n in nodesFor(p)
  {
    r := {};
    var rest := paths;
    while rest != {}
      invariant rest <= paths
      invariant forall n :: n in r <==> exists p :: p in paths - rest && n in nodesFor(p)
      decreases |rest|
    {
      var p :| p in rest;
      r := r + nodesFor(p);
      rest := rest - {p};
    }
  }

  /** The nodes one changed path selects: through its contexts, and as a test file of its own. */
  function NodesFor(full: set<string>, m: TestMap, p: string): set<string> {
    set n | n in full && Relates(m, p, n)
  }

  method PickNodes(i: Inputs, m: TestMap) returns (selected: set<string>)
    ensures forall n :: n in selected <==> Picked(i, m, n)
  {
    var gathered := Gather(Paths(i, m), p => NodesFor(i.full, m, p));
    selected := m.uncontexted * i.full + i.crossing * i.full + gathered;
  }

  method Select(i: Inputs) returns (s: Selection)
    ensures IsSelection(i, s)
  {
    if i.testMap.None? {
      return Selection(FailBroad, {MapMissing}, i.full, [], if i.base.Some? then i.base.value else "");
    }
    var m := i.testMap.value;
    var changed := Entries(i, m);
    var reasons := Reasons(i, m);
    if rule :| rule in reasons {
      assert Fires(i, m, rule);
      return Selection(FailBroad, reasons, i.full, changed, BaseRef(i, m));
    }
    var selected := PickNodes(i, m);
    if Paths(i, m) != {} && selected == {} {
      return Selection(FailBroad, {UnknownModule}, i.full, changed, BaseRef(i, m));
    }
    return Selection(Selected, {}, selected, changed, BaseRef(i, m));
  }

  // ---------------------------------------------------------------- safety

  lemma {:induction false} ReplacedFile(id: string)
    ensures NodeFile(Replaced(id, '\\', '/')) == Replaced(NodeFile(id), '\\', '/')
  {
    if id != "" && !(|id| >= 2 && id[0] == ':' && id[1] == ':') {
      ReplacedFile(id[1..]);
      var r := Replaced(id, '\\', '/');
      ReplacedAt(id, '\\', '/');
      assert r[1..] == Replaced(id[1..], '\\', '/');
    }
  }

  lemma EndsInPython(s: string)
    ensures EndsWith(s, ".py") <==> |s| >= 3 && s[|s| - 3] == '.' && s[|s| - 2] == 'p' && s[|s| - 1] == 'y'
  {
    if |s| >= 3 {
      var tail := s[|s| - 3..];
      assert tail[0] == s[|s| - 3] && tail[1] == s[|s| - 2] && tail[2] == s[|s| - 1];
    }
  }

  lemma PythonBefore(f: string)
    requires EndsWith(Replaced(f, '\\', '/'), ".py")
    ensures EndsWith(f, ".py")
  {
    EndsInPython(Replaced(f, '\\', '/'));
    EndsInPython(f);
    ReplacedAt(f, '\\', '/');
  }

  /** A node with a context lives in a Python file. */
  lemma ContextedIsPython(node: string)
    requires ContextForNode(node).Some?
    ensures EndsWith(NodeFile(node), ".py")
  {
    ReplacedFile(node);
    PythonBefore(NodeFile(node));
  }

  /** A test is dropped only when the map shows it unrelated to the change: its own context is in the
      map and covers no changed path, its file is unchanged, and it is in neither forced set. */
  lemma DroppedIsUnrelated(i: Inputs, s: Selection, m: TestMap, n: string)
    requires IsSelection(i, s) && i.testMap == Some(m) && s.verdict == Selected
    requires n in i.full && n !in s.nodes
    ensures Contexted(m, n) && m.contexts[ContextForNode(n).value] * Paths(i, m) == {}
    ensures NodeFile(n) !in Paths(i, m) && n !in m.uncontexted && n !in i.crossing
  {
    assert !Picked(i, m, n);
    assert !Fires(i, m, UncontextedTest);
    ContextedIsPython(n);
    forall p | p in Paths(i, m) ensures !Relates(m, p, n) { }
  }

  /** Fail-broad always runs everything, and a change that was measured never selects nothing. */
  lemma NeverTooLittle(i: Inputs, s: Selection)
    requires IsSelection(i, s)
    ensures s.verdict == FailBroad ==> s.nodes == i.full
    ensures s.verdict == Selected ==> s.nodes <= i.full && i.testMap.Some? && Quiet(i, i.testMap.value)
    ensures s.verdict == Selected && Paths(i, i.testMap.value) != {} ==> s.nodes != {}
  {
    if s.verdict == Selected && Paths(i, i.testMap.value) != {} {
      var n :| Picked(i, i.testMap.value, n);
      assert n in s.nodes;
    }
  }

  // ---------------------------------------------------------------- monotonicity

  /** The same map, collection and seams, with at least the changes of `a` in `b`. */
  ghost predicate Widens(a: Inputs, b: Inputs, m: TestMap) {
    && a.testMap == b.testMap == Some(m) && a.full == b.full && a.base == b.base
    && a.dynamic == b.dynamic && a.crossing == b.crossing && a.seamErrors == b.seamErrors
    && BaseKnown(a, m) == BaseKnown(b, m)
    && (BaseKnown(a, m) ==> a.git.isAncestor(m.baseCommit) == b.git.isAncestor(m.baseCommit) &&
                            a.git.treeOf(m.baseCommit) == b.git.treeOf(m.baseCommit))
    && Diff(a, m).Some? && Diff(b, m).Some?
    && forall k :: 0 <= k < |Entries(a, m)| ==> Entries(a, m)[k] in Entries(b, m)
  }

  lemma WiderPaths(a: Inputs, b: Inputs, m: TestMap)
    requires Widens(a, b, m)
    ensures Paths(a, m) <= Paths(b, m)
  {
    forall p | p in Paths(a, m) ensures p in Paths(b, m) {
      var k :| 0 <= k < |Entries(a, m)| &&
        (Entries(a, m)[k].path == p || (Entries(a, m)[k].oldPath == Some(p) && p != ""));
      var j :| 0 <= j < |Entries(b, m)| && Entries(b, m)[j] == Entries(a, m)[k];
    }
  }

  lemma WiderFires(a: Inputs, b: Inputs, m: TestMap, rule: Rule)
    requires Widens(a, b, m) && Fires(a, m, rule)
    ensures Fires(b, m, rule)
  {
    WiderPaths(a, b, m);
    match rule
    case DiffDeleted =>
      var k :| 0 <= k < |Entries(a, m)| && Entries(a, m)[k].status == Deleted;
      assert Entries(a, m)[k] in Entries(b, m);
    case DiffRenamed =>
      var k :| 0 <= k < |Entries(a, m)| && (Entries(a, m)[k].status == Renamed || Entries(a, m)[k].status == Copied);
      assert Entries(a, m)[k] in Entries(b, m);
    case DynamicImport =>
      var k :| 0 <= k < |Entries(a, m)| && EntryDynamic(a, Entries(a, m)[k]);
      assert Entries(a, m)[k] in Entries(b, m);
    case _ =>
  }

  /** The one way a selection can fail broad with no rule firing. */
  ghost predicate ResolvedToNothing(i: Inputs, m: TestMap) {
    Quiet(i, m) && Paths(i, m) != {} && forall n :: !Picked(i, m, n)
  }

  /** Adding changes never drops a node, unless the narrower change was run broadly only because it
      resolved to no test at all. */
  lemma MoreChangesMoreTests(a: Inputs, b: Inputs, m: TestMap, s: Selection, t: Selection)
    requires Widens(a, b, m) && IsSelection(a, s) && IsSelection(b, t)
    requires !ResolvedToNothing(a, m)
    ensures s.nodes <= t.nodes
  {
    WiderPaths(a, b, m);
    NeverTooLittle(a, s);
    if !Quiet(a, m) {
      var rule :| Fires(a, m, rule);
      WiderFires(a, b, m, rule);
    } else if t.verdict == Selected {
      forall n | n in s.nodes ensures n in t.nodes {
        assert Picked(a, m, n);
        assert Picked(b, m, n);
      }
    }
  }

  /** Exactly when widening drops a node: the narrower change resolved to no test, and for the wider one no rule
      fires and it resolves to some tests but not all. */
  lemma DropsExactlyWhen(a: Inputs, b: Inputs, m: TestMap, s: Selection, t: Selection)
    requires Widens(a, b, m) && IsSelection(a, s) && IsSelection(b, t)
    ensures !(s.nodes <= t.nodes) <==>
      ResolvedToNothing(a, m) && Quiet(b, m) &&
      (exists n :: Picked(b, m, n)) && (exists n :: n in b.full && !Picked(b, m, n))
  {
    if ResolvedToNothing(a, m) {
      WiderPaths(a, b, m);
      assert s.nodes == a.full && Paths(b, m) != {};
    } else {
      MoreChangesMoreTests(a, b, m, s, t);
    }
  }

  // ---------------------------------------------------------------- a change set that drops tests by growing

  /** Two tests of one file, with contexts of their own; only the first one's context covers `y`. */
  ghost predicate TwoTests(n1: string, n2: string, c1: string, c2: string) {
    ContextForNode(n1) == Some(c1) && ContextForNode(n2) == Some(c2) && c1 != c2
  }

  function SmallMap(c1: string, c2: string): TestMap {
    TestMap(SCHEMA_VERSION, SELECTOR_VERSION, MAP_VERSION, "h", "t", map[c1 := {"y"}, c2 := {}], {"x", "y"}, {})
  }

  function SmallInputs(entries: seq<ChangeEntry>, n1: string, n2: string, m: TestMap): Inputs {
    Inputs(Some(m), {n1, n2}, Git(c => true, c => true, c => Some("t"), c => Some(entries)), None, p => false, {},
      false)
  }

  /** Entries that modify the two files that are no tests. */
  predicate Small(entries: seq<ChangeEntry>) {
    forall k :: 0 <= k < |entries| ==>
      entries[k] in {ChangeEntry(Modified, "x", None), ChangeEntry(Modified, "y", None)}
  }

  lemma SmallUnmatched(path: string, pattern: string)
    requires path in {"x", "y"} && |pattern| >= 2
    requires pattern[0] !in {'x', 'y'} && (pattern[0] == '*' ==> pattern[1] !in {'*', 'x', 'y'})
    ensures !Glob(pattern, path)
  {
    if pattern[0] == '*' {
      assert !Glob(pattern[1..], path) && !Glob(pattern[1..], "");
      assert path[1..] == "" && !Glob(pattern, "");
    }
  }

  lemma SmallPaths(path: string)
    requires path in {"x", "y"}
    ensures !MatchesAny(path, BLAST_RADIUS_PATTERNS) && !MatchesAny(path, SELECTOR_SELF_PATTERNS)
  {
    forall i | 0 <= i < |BLAST_RADIUS_PATTERNS| ensures !Glob(BLAST_RADIUS_PATTERNS[i], path) {
      SmallUnmatched(path, BLAST_RADIUS_PATTERNS[i]);
    }
    SmallUnmatched(path, "scripts/select_tests.py");
    SmallUnmatched(path, "tests/test_ad1270f_impact_selector.py");
    var ledger := "docs/development/" + "test-selection-shadow-ledger.jsonl";
    assert ledger[0] == "docs/development/"[0] && ledger[1] == "docs/development/"[1];
    SmallUnmatched(path, ledger);
    SmallUnmatched(path, "logs/gates/testmap-*.json");
  }

  lemma SmallEntries(entries: seq<ChangeEntry>, n1: string, n2: string, m: TestMap)
    requires Small(entries) && m.baseCommit == "h"
    ensures Diff(SmallInputs(entries, n1, n2, m), m) == Some(entries)
    ensures ChangedPaths(entries) <= {"x", "y"}
    ensures forall k :: 0 <= k < |entries| ==> entries[k].status == Modified
  {
  }

  lemma SmallQuiet(entries: seq<ChangeEntry>, n1: string, n2: string, c1: string, c2: string)
    requires Small(entries) && TwoTests(n1, n2, c1, c2)
    ensures Quiet(SmallInputs(entries, n1, n2, SmallMap(c1, c2)), SmallMap(c1, c2))
  {
    SmallEntries(entries, n1, n2, SmallMap(c1, c2));
    SmallPaths("x");
    SmallPaths("y");
  }

  lemma SmallPicked(entries: seq<ChangeEntry>, n1: string, n2: string, c1: string, c2: string, n: string)
    requires Small(entries) && TwoTests(n1, n2, c1, c2)
    ensures Picked(SmallInputs(entries, n1, n2, SmallMap(c1, c2)), SmallMap(c1, c2), n) <==>
      n == n1 && "y" in ChangedPaths(entries)
  {
    var m := SmallMap(c1, c2);
    SmallEntries(entries, n1, n2, m);
    if n in {n1, n2} {
      forall p | p in ChangedPaths(entries) ensures Relates(m, p, n) <==> n == n1 && p == "y" {
        assert p in {"x", "y"} && !EndsWith(p, ".py");
      }
    }
  }

  lemma {:induction false} Halves(path: string, rest: string)
    requires ':' !in path
    ensures NodeFile(path + "::" + rest) == path && AfterFile(path + "::" + rest) == Some(rest)
  {
    var id := path + "::" + rest;
    if path == "" {
      assert id[2..] == rest;
    } else {
      assert id[0] == path[0] && path[0] in path;
      assert id[1..] == path[1..] + "::" + rest;
      Halves(path[1..], rest);
    }
  }

  /** The context of a one-letter test in a one-letter file. */
  lemma SmallContext(file: char, name: char) returns (node: string)
    requires file in {'a', 'b', 'c'} && name in {'a', 'b', 'c'}
    ensures ContextForNode(node) == Some([file] + "." + [name])
  {
    var path := [file] + ".py";
    node := path + "::" + [name];
    ReplacedAt(node, '\\', '/');
    assert Replaced(node, '\\', '/') == node;
    Halves(path, [name]);
    ReplacedAt([file], '/', '.');
    assert path[..|path| - 3] == [file] && Replaced([file], '/', '.') == [file];
    assert [name][1..] == "" && UpTo([name], '[') == [name];
    assert DotJoined([name][1..]) == "" && DotJoined([name]) == [name] + "";
  }

  lemma SmallDrop(n1: string, n2: string, c1: string, c2: string)
    returns (a: Inputs, b: Inputs, m: TestMap, s: Selection, t: Selection)
    requires TwoTests(n1, n2, c1, c2)
    ensures Widens(a, b, m) && IsSelection(a, s) && IsSelection(b, t) && !(s.nodes <= t.nodes)
  {
    var x, y := ChangeEntry(Modified, "x", None), ChangeEntry(Modified, "y", None);
    m := SmallMap(c1, c2);
    a, b := SmallInputs([x], n1, n2, m), SmallInputs([x, y], n1, n2, m);
    SmallQuiet([x], n1, n2, c1, c2);
    SmallQuiet([x, y], n1, n2, c1, c2);
    assert [x][0].path == "x" && [x, y][1].path == "y";
    assert "x" in ChangedPaths([x]) && "y" !in ChangedPaths([x]) && "y" in ChangedPaths([x, y]);
    forall n ensures !Picked(a, m, n) { SmallPicked([x], n1, n2, c1, c2, n); }
    forall n ensures Picked(b, m, n) <==> n == n1 { SmallPicked([x, y], n1, n2, c1, c2, n); }
    s := Selection(FailBroad, {UnknownModule}, a.full, [x], "h");
    t := Selection(Selected, {}, {n1}, [x, y], "h");
    assert Picked(b, m, n1) && n2 in s.nodes && n2 !in t.nodes;
  }

  /** Without that hypothesis a wider change set can lose tests: `x` alone is related to nothing, so everything
      runs; `x` and `y` together are related to one test, so the other is dropped. */
  lemma MoreChangesCanDrop() returns (a: Inputs, b: Inputs, m: TestMap, s: Selection, t: Selection)
    ensures Widens(a, b, m) && IsSelection(a, s) && IsSelection(b, t) && !(s.nodes <= t.nodes)
  {
    var n1 := SmallContext('a', 'b');
    var n2 := SmallContext('a', 'c');
    assert ("a" + "." + "b")[2] != ("a" + "." + "c")[2];
    a, b, m, s, t := SmallDrop(n1, n2, ['a'] + "." + ['b'], ['a'] + "." + ['c']);
  }
}
