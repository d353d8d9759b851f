/** What makes the selector fail broad, stated on the change, the map and the collection. */
module SelectorRules {
  import opened Wrappers
  import opened NodeIds
  import opened Text
  import opened Selector

  // ---------------------------------------------------------------- patterns

  lemma {:induction false} GlobPrefix(pre: string, q: string, s: string)
    requires '*' !in pre
    ensures Glob(pre + q, s) <==> pre <= s && Glob(q, s[|pre|..])
  {
    if pre == "" {
      assert pre + q == q && s[0..] == s;
    } else {
      var p := pre + q;
      assert p[0] == pre[0] && pre[0] in pre && p[1..] == pre[1..] + q;
      if s != "" && s[0] == pre[0] {
        GlobPrefix(pre[1..], q, s[1..]);
        assert pre <= s <==> pre[1..] <= s[1..] by { assert pre == [pre[0]] + pre[1..] && s == [s[0]] + s[1..]; }
        assert pre <= s ==> s[1..][|pre| - 1..] == s[|pre|..];
      }
    }
  }

  lemma {:induction false} GlobTail(q: string, s: string)
    ensures Glob("*" + q, s) <==> exists i :: 0 <= i <= |s| && Glob(q, s[i..])
  {
    var p := "*" + q;
    assert p[0] == '*' && p[1..] == q && s[0..] == s;
    if s != "" {
      GlobTail(q, s[1..]);
      forall i | 1 <= i <= |s| ensures s[i..] == s[1..][i - 1..] { }
      if i :| 0 <= i <= |s| - 1 && Glob(q, s[1..][i..]) { assert s[i + 1..] == s[1..][i..]; }
    }
  }

  /** A pattern without a star matches itself alone. */
  lemma GlobPlain(p: string, s: string)
    requires '*' !in p
    ensures Glob(p, s) <==> s == p
  {
    GlobPrefix(p, "", s);
    assert p + "" == p;
  }

  /** The text before the first star is literal, and the star takes any text before what the rest matches. */
  lemma GlobStar(pre: string, rest: string, s: string)
    requires '*' !in pre
    ensures Glob(pre + "*" + rest, s) <==> pre <= s && exists i :: |pre| <= i <= |s| && Glob(rest, s[i..])
  {
    assert pre + "*" + rest == pre + ("*" + rest);
    GlobPrefix(pre, "*" + rest, s);
    if pre <= s {
      var t := s[|pre|..];
      GlobTail(rest, t);
      if i :| 0 <= i <= |t| && Glob(rest, t[i..]) { assert t[i..] == s[|pre| + i..]; }
      if i :| |pre| <= i <= |s| && Glob(rest, s[i..]) { assert t[i - |pre|..] == s[i..]; }
    }
  }

  lemma GlobPrefixStar(pre: string, s: string)
    requires '*' !in pre
    ensures Glob(pre + "*", s) <==> pre <= s
  {
    assert pre + "*" + "" == pre + "*";
    GlobStar(pre, "", s);
    if pre <= s { assert s[|s|..] == ""; }
  }

  /** The text starts and ends so, with no overlap. */
  predicate Between(s: string, pre: string, suffix: string) {
    |s| >= |pre| + |suffix| && pre <= s && EndsWith(s, suffix)
  }

  lemma GlobBetween(pre: string, suffix: string, s: string)
    requires '*' !in pre && '*' !in suffix
    ensures Glob(pre + "*" + suffix, s) <==> Between(s, pre, suffix)
  {
    GlobStar(pre, suffix, s);
    forall i | 0 <= i <= |s| ensures Glob(suffix, s[i..]) <==> s[i..] == suffix { GlobPlain(suffix, s[i..]); }
    if |s| >= |pre| + |suffix| && EndsWith(s, suffix) { assert s[|s| - |suffix|..] == suffix; }
  }

  // ---------------------------------------------------------------- the paths that fail broad

  /** `word` stands somewhere behind the directory, and the path ends in `.py` behind it. */
  ghost predicate PythonWith(path: string, directory: string, word: string) {
    directory <= path && exists i :: |directory| <= i <= |path| && Between(path[i..], word, ".py")
  }

  /** The paths any of whose changes runs everything. */
  ghost predicate BlastPath(p: string) {
    || p in {"src/probos/runtime.py", "src/probos/config.py", "src/probos/config_profiles.py", "src/probos/types.py",
             "pyproject.toml", "scripts/run_test_gate.py", "scripts/_gate_pytest_plugin.py",
             "scripts/_gate_process_supervisor.py"}
    || "src/probos/startup/" <= p || "config/profiles/" <= p || EndsWith(p, "conftest.py")
    || Between(p, "src/probos/config_models/", ".py")
    || Between(p, "requirements", ".txt")
    || PythonWith(p, "src/probos/", "protocol") || PythonWith(p, "src/probos/", "event")
  }

  /** The selector's own files. */
  ghost predicate SelectorPath(p: string) {
    || p in {"scripts/select_tests.py", "tests/test_ad1270f_impact_selector.py",
             "docs/development/" + "test-selection-shadow-ledger.jsonl"}
    || Between(p, "logs/gates/testmap-", ".json")
  }

  lemma GlobWord(directory: string, word: string, path: string)
    requires '*' !in directory && '*' !in word
    ensures Glob(directory + "*" + (word + "*" + ".py"), path) <==> PythonWith(path, directory, word)
  {
    GlobStar(directory, word + "*" + ".py", path);
    forall i | |directory| <= i <= |path|
      ensures Glob(word + "*" + ".py", path[i..]) <==> Between(path[i..], word, ".py")
    {
      GlobBetween(word, ".py", path[i..]);
    }
  }

  lemma SourceNames(p: string, patterns: seq<string>)
    requires patterns == BLAST_RADIUS_PATTERNS
    ensures Glob(patterns[0], p) <==> p == "src/probos/runtime.py"
    ensures Glob(patterns[6], p) <==> p == "src/probos/types.py"
  {
    GlobPlain("src/probos/runtime.py", p);
    GlobPlain("src/probos/types.py", p);
  }

  lemma ConfigNames(p: string, patterns: seq<string>)
    requires patterns == BLAST_RADIUS_PATTERNS
    ensures Glob(patterns[2], p) <==> p == "src/probos/config.py"
    ensures Glob(patterns[4], p) <==> p == "src/probos/config_profiles.py"
  {
    GlobPlain("src/probos/config.py", p);
    GlobPlain("src/probos/config_profiles.py", p);
  }

  lemma ProjectNames(p: string, patterns: seq<string>)
    requires patterns == BLAST_RADIUS_PATTERNS
    ensures Glob(patterns[9], p) <==> p == "pyproject.toml"
    ensures Glob(patterns[12], p) <==> p == "scripts/run_test_gate.py"
  {
    GlobPlain("pyproject.toml", p);
    GlobPlain("scripts/run_test_gate.py", p);
  }

  lemma GateNames(p: string, patterns: seq<string>)
    requires patterns == BLAST_RADIUS_PATTERNS
    ensures Glob(patterns[13], p) <==> p == "scripts/_gate_pytest_plugin.py"
    ensures Glob(patterns[14], p) <==> p == "scripts/_gate_process_supervisor.py"
  {
    GlobPlain("scripts/_gate_pytest_plugin.py", p);
    GlobPlain("scripts/_gate_process_supervisor.py", p);
  }

  lemma BlastDirectories(p: string, patterns: seq<string>)
    requires patterns == BLAST_RADIUS_PATTERNS
    ensures Glob(patterns[1], p) <==> "src/probos/startup/" <= p
    ensures Glob(patterns[5], p) <==> "config/profiles/" <= p
  {
    GlobPrefixStar("src/probos/startup/", p);
    GlobPrefixStar("config/profiles/", p);
  }

  lemma BlastEndings(p: string, patterns: seq<string>)
    requires patterns == BLAST_RADIUS_PATTERNS
    ensures Glob(patterns[3], p) <==> Between(p, "src/probos/config_models/", ".py")
    ensures Glob(patterns[10], p) <==> Between(p, "requirements", ".txt")
  {
    GlobBetween("src/probos/config_models/", ".py", p);
    GlobBetween("requirements", ".txt", p);
  }

  lemma BlastConftest(p: string, patterns: seq<string>)
    requires patterns == BLAST_RADIUS_PATTERNS
    ensures Glob(patterns[11], p) <==> EndsWith(p, "conftest.py")
  {
    GlobBetween("", "conftest.py", p);
  }

  lemma BlastWords(p: string, patterns: seq<string>)
    requires patterns == BLAST_RADIUS_PATTERNS
    ensures Glob(patterns[7], p) <==> PythonWith(p, "src/probos/", "protocol")
    ensures Glob(patterns[8], p) <==> PythonWith(p, "src/probos/", "event")
  {
    GlobWord("src/probos/", "protocol", p);
    GlobWord("src/probos/", "event", p);
  }

  lemma FifteenPatterns(p: string, patterns: seq<string>)
    requires |patterns| == 15
    ensures MatchesAny(p, patterns) <==>
      (Glob(patterns[0], p) || Glob(patterns[1], p) || Glob(patterns[2], p) || Glob(patterns[3], p) ||
       Glob(patterns[4], p) || Glob(patterns[5], p) || Glob(patterns[6], p) || Glob(patterns[7], p) ||
       Glob(patterns[8], p) || Glob(patterns[9], p) || Glob(patterns[10], p) || Glob(patterns[11], p) ||
       Glob(patterns[12], p) || Glob(patterns[13], p) || Glob(patterns[14], p))
  {
  }

  lemma BlastsMean(p: string)
    ensures Blasts(p) <==> BlastPath(p)
  {
    var patterns := BLAST_RADIUS_PATTERNS;
    FifteenPatterns(p, patterns);
    SourceNames(p, patterns);
    ConfigNames(p, patterns);
    ProjectNames(p, patterns);
    GateNames(p, patterns);
    BlastDirectories(p, patterns);
    BlastEndings(p, patterns);
    BlastConftest(p, patterns);
    BlastWords(p, patterns);
  }

  lemma SelectorNames(p: string, patterns: seq<string>)
    requires patterns == SELECTOR_SELF_PATTERNS
    ensures Glob(patterns[0], p) <==> p == "scripts/select_tests.py"
    ensures Glob(patterns[1], p) <==> p == "tests/test_ad1270f_impact_selector.py"
  {
    GlobPlain("scripts/select_tests.py", p);
    GlobPlain("tests/test_ad1270f_impact_selector.py", p);
  }

  lemma LedgerName(p: string, patterns: seq<string>)
    requires patterns == SELECTOR_SELF_PATTERNS
    ensures Glob(patterns[2], p) <==> p == "docs/development/" + "test-selection-shadow-ledger.jsonl"
  {
    GlobPlain("docs/development/" + "test-selection-shadow-ledger.jsonl", p);
  }

  lemma MapNames(p: string, patterns: seq<string>)
    requires patterns == SELECTOR_SELF_PATTERNS
    ensures Glob(patterns[3], p) <==> Between(p, "logs/gates/testmap-", ".json")
  {
    GlobBetween("logs/gates/testmap-", ".json", p);
  }

  lemma FourPatterns(p: string, patterns: seq<string>)
    requires |patterns| == 4
    ensures MatchesAny(p, patterns) <==>
      Glob(patterns[0], p) || Glob(patterns[1], p) || Glob(patterns[2], p) || Glob(patterns[3], p)
  {
  }

  lemma ChangesSelectorMeans(p: string)
    ensures ChangesSelector(p) <==> SelectorPath(p)
  {
    FourPatterns(p, SELECTOR_SELF_PATTERNS);
    SelectorNames(p, SELECTOR_SELF_PATTERNS);
    LedgerName(p, SELECTOR_SELF_PATTERNS);
    MapNames(p, SELECTOR_SELF_PATTERNS);
  }

  // ---------------------------------------------------------------- the verdict

  /** The map was written by this selector, and its base is an ancestor with the tree it names. */
  ghost predicate Current(i: Inputs, m: TestMap) {
    && m.schemaVersion == 1 && m.selectorVersion == "ad-1270f.1" && m.mapVersion == "1"
    && m.baseCommit != "" && i.git.exists_(m.baseCommit) && i.git.isAncestor(m.baseCommit)
    && i.git.treeOf(m.baseCommit) == Some(m.baseTree)
  }

  /** The entries that differ from the base asked for, or from the map's own. */
  function Compared(i: Inputs, m: TestMap): Option<seq<ChangeEntry>> {
    i.git.diff(if i.base.Some? && i.base.value != "" then i.base.value else m.baseCommit)
  }

  ghost predicate Touches(entries: seq<ChangeEntry>, p: string) {
    exists e :: e in entries && (e.path == p || (e.oldPath == Some(p) && p != ""))
  }

  /** Nothing deleted, renamed or copied, and no changed Python file that imports by a computed name. */
  ghost predicate PlainChange(i: Inputs, entries: seq<ChangeEntry>) {
    forall e :: e in entries ==>
      e.status !in {Deleted, Renamed, Copied} && !(EndsWith(e.path, ".py") && i.dynamic(e.path))
  }

  /** The path can be related to tests one by one. */
  ghost predicate Narrow(m: TestMap, p: string) {
    && (p in m.measuredFiles || ("tests/" <= p && EndsWith(p, ".py")))
    && !BlastPath(p) && !SelectorPath(p)
  }

  /** Every context is a collected node's, and every node has a context or is known to have none. */
  ghost predicate Accounted(i: Inputs, m: TestMap) {
    && !i.seamErrors
    && (forall c :: c in m.contexts ==> exists n :: n in i.full && ContextForNode(n) == Some(c))
    && forall n :: n in i.full && n !in m.uncontexted ==>
         ContextForNode(n).Some? && ContextForNode(n).value in m.contexts
  }

  ghost predicate Covers(m: TestMap, node: string, p: string) {
    || (ContextForNode(node).Some? && ContextForNode(node).value in m.contexts &&
        p in m.contexts[ContextForNode(node).value])
    || (EndsWith(p, ".py") && NodeFile(node) == p)
  }

  /** The node has to run: forced, or related to a touched path. */
  ghost predicate MustRun(i: Inputs, m: TestMap, entries: seq<ChangeEntry>, n: string) {
    n in i.full &&
    (n in m.uncontexted || n in i.crossing || exists p :: Touches(entries, p) && Covers(m, n, p))
  }

  /** The change can be answered with a selection. */
  ghost predicate Narrowed(i: Inputs, m: TestMap, entries: seq<ChangeEntry>) {
    && PlainChange(i, entries) && (forall p :: Touches(entries, p) ==> Narrow(m, p))
    && ((forall p :: !Touches(entries, p)) || exists n :: MustRun(i, m, entries, n))
  }

  lemma TouchedPaths(entries: seq<ChangeEntry>, p: string)
    ensures p in ChangedPaths(entries) <==> Touches(entries, p)
  {
    if e :| e in entries && (e.path == p || (e.oldPath == Some(p) && p != "")) {
      var k :| 0 <= k < |entries| && entries[k] == e;
      if e.path != p { assert entries[k].oldPath.Some? && entries[k].oldPath.value == p; }
    }
    if p in ChangedPaths(entries) {
      var k :| 0 <= k < |entries| && (entries[k].path == p || (entries[k].oldPath == Some(p) && p != ""));
      assert entries[k] in entries;
    }
  }

  lemma MustRunIsPicked(i: Inputs, m: TestMap, n: string)
    requires BaseKnown(i, m) && Compared(i, m).Some?
    ensures Picked(i, m, n) <==> MustRun(i, m, Compared(i, m).value, n)
  {
    var entries := Compared(i, m).value;
    assert Entries(i, m) == entries;
    forall p ensures p in Paths(i, m) <==> Touches(entries, p) { TouchedPaths(entries, p); }
    forall p ensures Relates(m, p, n) <==> Covers(m, n, p) { }
  }

  lemma QuietMap(i: Inputs, m: TestMap)
    ensures Current(i, m) <==>
      !Fires(i, m, MapSchema) && !Fires(i, m, MapBaseUnknown) && !Fires(i, m, MapNotAncestor) &&
      !Fires(i, m, MapTreeMismatch)
  {
  }

  lemma QuietEntries(i: Inputs, m: TestMap)
    requires BaseKnown(i, m)
    ensures Compared(i, m).Some? && PlainChange(i, Compared(i, m).value) <==>
      !Fires(i, m, DiffDeleted) && !Fires(i, m, DiffRenamed) && !Fires(i, m, DynamicImport)
  {
    assert Diff(i, m) == Compared(i, m);
    var entries := Entries(i, m);
    forall k | 0 <= k < |entries| ensures entries[k] in entries { }
  }

  lemma QuietPaths(i: Inputs, m: TestMap)
    requires BaseKnown(i, m) && Compared(i, m).Some?
    ensures (forall p :: Touches(Compared(i, m).value, p) ==> Narrow(m, p)) <==>
      !Fires(i, m, BlastRadius) && !Fires(i, m, SelectorSelfChange) && !Fires(i, m, UnknownModule)
  {
    var entries := Compared(i, m).value;
    forall p
      ensures p in Paths(i, m) <==> Touches(entries, p)
      ensures Narrow(m, p) <==>
        Relatable(m, p) && !MatchesAny(p, BLAST_RADIUS_PATTERNS) && !MatchesAny(p, SELECTOR_SELF_PATTERNS)
    {
      TouchedPaths(entries, p);
      BlastsMean(p);
      ChangesSelectorMeans(p);
    }
  }

  lemma QuietContexts(i: Inputs, m: TestMap)
    ensures Accounted(i, m) <==> !Fires(i, m, UncontextedTest)
  {
    forall c ensures Resolves(i.full, c) <==> exists n :: n in i.full && ContextForNode(n) == Some(c) { }
  }

  lemma EachRule(i: Inputs, m: TestMap)
    ensures Quiet(i, m) <==>
      !Fires(i, m, MapMissing) && !Fires(i, m, MapSchema) && !Fires(i, m, MapBaseUnknown) &&
      !Fires(i, m, MapNotAncestor) && !Fires(i, m, MapTreeMismatch) && !Fires(i, m, DiffDeleted) &&
      !Fires(i, m, DiffRenamed) && !Fires(i, m, BlastRadius) && !Fires(i, m, UnknownModule) &&
      !Fires(i, m, DynamicImport) && !Fires(i, m, UncontextedTest) && !Fires(i, m, SelectorSelfChange)
  {
    if rule :| Fires(i, m, rule) {
      match rule {
        case MapMissing =>
        case MapSchema =>
        case MapBaseUnknown =>
        case MapNotAncestor =>
        case MapTreeMismatch =>
        case DiffDeleted =>
        case DiffRenamed =>
        case BlastRadius =>
        case UnknownModule =>
        case DynamicImport =>
        case UncontextedTest =>
        case SelectorSelfChange =>
      }
    }
  }

  lemma QuietMeans(i: Inputs, m: TestMap)
    ensures Quiet(i, m) <==>
      Current(i, m) && Accounted(i, m) && Compared(i, m).Some? && PlainChange(i, Compared(i, m).value) &&
      forall p :: Touches(Compared(i, m).value, p) ==> Narrow(m, p)
  {
    QuietMap(i, m);
    QuietContexts(i, m);
    if BaseKnown(i, m) {
      QuietEntries(i, m);
      if Compared(i, m).Some? { QuietPaths(i, m); }
    }
    EachRule(i, m);
  }

  /** The verdict, exactly, and what is then run. */
  lemma VerdictExactly(i: Inputs, s: Selection, m: TestMap)
    requires IsSelection(i, s) && i.testMap == Some(m)
    ensures s.verdict == Selected <==>
      Current(i, m) && Accounted(i, m) && Compared(i, m).Some? && Narrowed(i, m, Compared(i, m).value)
    ensures s.verdict == Selected ==> forall n :: n in s.nodes <==> MustRun(i, m, Compared(i, m).value, n)
    ensures s.verdict == FailBroad ==> s.nodes == i.full
    ensures s.base == if i.base.Some? && i.base.value != "" then i.base.value else m.baseCommit
    ensures m.baseCommit != "" && i.git.exists_(m.baseCommit) && Compared(i, m).Some? ==>
      s.changed == Compared(i, m).value
  {
    QuietMeans(i, m);
    if Quiet(i, m) {
      var entries := Compared(i, m).value;
      assert Entries(i, m) == entries;
      forall n ensures Picked(i, m, n) <==> MustRun(i, m, entries, n) { MustRunIsPicked(i, m, n); }
      forall p ensures p in Paths(i, m) <==> Touches(entries, p) { TouchedPaths(entries, p); }
    }
  }

  /** Any touched path of these kinds makes every selection run the whole collection. */
  lemma BlastFailsBroad(i: Inputs, s: Selection, m: TestMap, entries: seq<ChangeEntry>, p: string)
    requires IsSelection(i, s) && i.testMap == Some(m) && Compared(i, m) == Some(entries) && Touches(entries, p)
    requires BlastPath(p) || SelectorPath(p)
    ensures s.verdict == FailBroad && s.nodes == i.full
  {
    VerdictExactly(i, s, m);
    assert !Narrow(m, p);
  }

  // ---------------------------------------------------------------- the reasons

  /** What each reason reports, on the map, the change and the collection. */
  ghost predicate Broken(i: Inputs, m: TestMap, rule: Rule) {
    var known := m.baseCommit != "" && i.git.exists_(m.baseCommit);
    var diff := Compared(i, m);
    match rule
    case MapMissing => false
    case MapSchema => m.schemaVersion != 1 || m.selectorVersion != "ad-1270f.1" || m.mapVersion != "1"
    case MapBaseUnknown => !known
    case MapNotAncestor => known && !i.git.isAncestor(m.baseCommit)
    case MapTreeMismatch => known && i.git.treeOf(m.baseCommit) != Some(m.baseTree)
    case DiffDeleted => known && (diff.None? || exists e :: e in diff.value && e.status == Deleted)
    case DiffRenamed => known && (diff.None? || exists e :: e in diff.value && e.status in {Renamed, Copied})
    case DynamicImport =>
      known && diff.Some? &&
      exists e :: e in diff.value && e.status != Deleted && EndsWith(e.path, ".py") && i.dynamic(e.path)
    case BlastRadius => known && diff.Some? && exists p :: Touches(diff.value, p) && BlastPath(p)
    case SelectorSelfChange => known && diff.Some? && exists p :: Touches(diff.value, p) && SelectorPath(p)
    case UnknownModule =>
      known && diff.Some? &&
      exists p :: Touches(diff.value, p) && p !in m.measuredFiles && !("tests/" <= p && EndsWith(p, ".py"))
    case UncontextedTest => !Accounted(i, m)
  }

  lemma BrokenEntries(i: Inputs, m: TestMap, rule: Rule)
    requires rule in {DiffDeleted, DiffRenamed, DynamicImport}
    ensures Fires(i, m, rule) <==> Broken(i, m, rule)
  {
    if BaseKnown(i, m) && Compared(i, m).Some? {
      var entries := Compared(i, m).value;
      assert Entries(i, m) == entries;
      forall k | 0 <= k < |entries| ensures entries[k] in entries { }
      forall e | e in entries ensures exists k :: 0 <= k < |Entries(i, m)| && Entries(i, m)[k] == e {
        var k :| 0 <= k < |entries| && entries[k] == e;
      }
    }
  }

  lemma BrokenPaths(i: Inputs, m: TestMap, rule: Rule)
    requires rule in {BlastRadius, SelectorSelfChange, UnknownModule}
    ensures Fires(i, m, rule) <==> Broken(i, m, rule)
  {
    if BaseKnown(i, m) && Compared(i, m).Some? {
      forall p
        ensures p in Paths(i, m) <==> Touches(Compared(i, m).value, p)
        ensures MatchesAny(p, BLAST_RADIUS_PATTERNS) <==> BlastPath(p)
        ensures MatchesAny(p, SELECTOR_SELF_PATTERNS) <==> SelectorPath(p)
      {
        TouchedPaths(Compared(i, m).value, p);
        BlastsMean(p);
        ChangesSelectorMeans(p);
      }
    }
  }

  lemma BrokenMeans(i: Inputs, m: TestMap, rule: Rule)
    ensures Fires(i, m, rule) <==> Broken(i, m, rule)
  {
    match rule {
      case DiffDeleted => BrokenEntries(i, m, rule);
      case DiffRenamed => BrokenEntries(i, m, rule);
      case DynamicImport => BrokenEntries(i, m, rule);
      case BlastRadius => BrokenPaths(i, m, rule);
      case SelectorSelfChange => BrokenPaths(i, m, rule);
      case UnknownModule => BrokenPaths(i, m, rule);
      case UncontextedTest => QuietContexts(i, m);
      case _ =>
    }
  }

  /** The reasons given: every broken rule, or that the change resolved to no test. */
  lemma ReasonsExactly(i: Inputs, s: Selection, m: TestMap)
    requires IsSelection(i, s) && i.testMap == Some(m)
    ensures (exists rule :: Broken(i, m, rule)) ==> forall rule :: rule in s.reasons <==> Broken(i, m, rule)
    ensures !(exists rule :: Broken(i, m, rule)) ==>
      s.reasons == if s.verdict == FailBroad then {UnknownModule} else {}
  {
    forall rule ensures Fires(i, m, rule) <==> Broken(i, m, rule) { BrokenMeans(i, m, rule); }
    if !Quiet(i, m) {
      var rule :| Fires(i, m, rule);
      assert Broken(i, m, rule);
    }
  }

  // ---------------------------------------------------------------- contexts

  lemma {:induction false} DotJoinedPlain(s: string)
    requires forall k: nat :: !SeparatorAt(s, k)
    ensures DotJoined(s) == s
  {
    if s != "" {
      assert !SeparatorAt(s, 0);
      forall k: nat ensures !SeparatorAt(s[1..], k) { assert !SeparatorAt(s, k + 1); }
      DotJoinedPlain(s[1..]);
      assert s == [s[0]] + s[1..];
    }
  }

  /** Each `::` becomes a dot; a single colon stays. */
  lemma {:induction false} DotJoinedAt(part: string, rest: string)
    requires forall k: nat :: k < |part| ==> !SeparatorAt(part + "::" + rest, k)
    ensures DotJoined(part + "::" + rest) == part + "." + DotJoined(rest)
  {
    var s := part + "::" + rest;
    if part == "" {
      assert s[2..] == rest;
    } else {
      assert !SeparatorAt(s, 0) && s[0] == part[0];
      assert s[1..] == part[1..] + "::" + rest;
      forall k: nat | k < |part[1..]| ensures !SeparatorAt(part[1..] + "::" + rest, k) {
        assert !SeparatorAt(s, k + 1);
      }
      DotJoinedAt(part[1..], rest);
      assert part == [part[0]] + part[1..];
    }
  }

  lemma {:induction false} UpToStop(s: string, tail: string, c: char)
    requires c !in s && (tail == "" || tail[0] == c)
    ensures UpTo(s + tail, c) == s
  {
    if s == "" {
      assert s + tail == tail;
    } else {
      assert (s + tail)[0] == s[0] && s[0] in s && (s + tail)[1..] == s[1..] + tail;
      UpToStop(s[1..], tail, c);
      assert s == [s[0]] + s[1..];
    }
  }

  lemma Unreplaced(s: string, from: char, to: char)
    requires from !in s
    ensures Replaced(s, from, to) == s
  {
    ReplacedAt(s, from, to);
    forall k | 0 <= k < |s| ensures Replaced(s, from, to)[k] == s[k] { assert s[k] in s; }
  }

  lemma {:induction false} ReplacedParts(a: string, b: string, from: char, to: char)
    ensures Replaced(a + b, from, to) == Replaced(a, from, to) + Replaced(b, from, to)
  {
    if a == "" {
      assert a + b == b;
    } else {
      assert (a + b)[0] == a[0] && (a + b)[1..] == a[1..] + b;
      ReplacedParts(a[1..], b, from, to);
    }
  }

  lemma SlashedNode(path: string, name: string, parameters: string)
    requires '\\' !in path && '\\' !in name
    ensures Replaced(path + "::" + (name + parameters), '\\', '/') ==
      path + "::" + (name + Replaced(parameters, '\\', '/'))
  {
    ReplacedParts(path + "::", name + parameters, '\\', '/');
    ReplacedParts(path, "::", '\\', '/');
    ReplacedParts(name, parameters, '\\', '/');
    Unreplaced(path, '\\', '/');
    Unreplaced("::", '\\', '/');
    Unreplaced(name, '\\', '/');
  }

  lemma ContextParts(id: string, path: string, rest: string)
    requires NodeFile(Replaced(id, '\\', '/')) == path && AfterFile(Replaced(id, '\\', '/')) == Some(rest)
    requires EndsWith(path, ".py") && rest != "" && DotJoined(UpTo(rest, '[')) != ""
    ensures ContextForNode(id) == Some(Replaced(path[..|path| - 3], '/', '.') + "." + DotJoined(UpTo(rest, '[')))
  {
  }

  /** The context of a test `name` in `module.py`, whatever its parameters: the module and the test with dots. */
  lemma ContextWritten(module_: string, name: string, parameters: string)
    requires ':' !in module_ && '\\' !in module_ && '\\' !in name && '[' !in name && name != ""
    requires parameters == "" || parameters[0] == '['
    ensures ContextForNode(module_ + ".py" + "::" + (name + parameters)) ==
      Some(Replaced(module_, '/', '.') + "." + DotJoined(name))
  {
    var path, tail := module_ + ".py", Replaced(parameters, '\\', '/');
    SlashedNode(path, name, parameters);
    Halves(path, name + tail);
    UpToStop(name, tail, '[');
    assert path[..|path| - 3] == module_ && path[|path| - 3..] == ".py";
    ContextParts(path + "::" + (name + parameters), path, name + tail);
  }

  /** A method of a class, and a plain function. */
  lemma ContextOfTest(module_: string, class_: string, function_: string, parameters: string)
    requires ':' !in module_ && '\\' !in module_ && ':' !in class_ && '\\' !in class_ && '[' !in class_
    requires ':' !in function_ && '\\' !in function_ && '[' !in function_ && function_ != ""
    requires parameters == "" || parameters[0] == '['
    ensures ContextForNode(module_ + ".py" + "::" + (function_ + parameters)) ==
      Some(Replaced(module_, '/', '.') + "." + function_)
    ensures ContextForNode(module_ + ".py" + "::" + (class_ + "::" + function_ + parameters)) ==
      Some(Replaced(module_, '/', '.') + "." + (class_ + "." + function_))
  {
    ContextWritten(module_, function_, parameters);
    ContextWritten(module_, class_ + "::" + function_, parameters);
    forall k: nat ensures !SeparatorAt(function_, k) { assert k < |function_| ==> function_[k] in function_; }
    DotJoinedPlain(function_);
    forall k: nat | k < |class_| ensures !SeparatorAt(class_ + "::" + function_, k) {
      assert (class_ + "::" + function_)[k] == class_[k] && class_[k] in class_;
    }
    DotJoinedAt(class_, function_);
  }

  /** What is left behind the first `::`, and that there is nothing without one. */
  lemma {:induction false} AfterFileExactly(id: string)
    ensures AfterFile(id).None? <==> forall k: nat :: !SeparatorAt(id, k)
    ensures AfterFile(id).Some? ==> |NodeFile(id)| + 2 <= |id| && AfterFile(id).value == id[|NodeFile(id)| + 2..]
  {
    if |id| >= 2 {
      if SeparatorAt(id, 0) {
        assert NodeFile(id) == "";
      } else {
        AfterFileExactly(id[1..]);
        forall k: nat ensures SeparatorAt(id[1..], k) <==> SeparatorAt(id, k + 1) { }
        if k: nat :| SeparatorAt(id, k) { assert k > 0 && SeparatorAt(id[1..], k - 1); }
        assert NodeFile(id) == [id[0]] + NodeFile(id[1..]);
      }
    }
  }

  lemma {:induction false} JoinedEmpty(s: string)
    ensures DotJoined(s) == "" <==> s == ""
  {
  }

  /** A node has no context exactly when its ID has no test name before a parameter, or its file is no Python file. */
  lemma NoContextExactly(node: string)
    ensures var id := Replaced(node, '\\', '/');
      ContextForNode(node).None? <==>
      AfterFile(id).None? || !EndsWith(NodeFile(id), ".py") || AfterFile(id).value == "" ||
      AfterFile(id).value[0] == '['
  {
    var rest := AfterFile(Replaced(node, '\\', '/'));
    if rest.Some? { JoinedEmpty(UpTo(rest.value, '[')); }
  }

  /** Without a map every test runs. */
  lemma NoMapFailsBroad(i: Inputs, s: Selection)
    requires IsSelection(i, s) && i.testMap.None?
    ensures s.verdict == FailBroad && s.reasons == {MapMissing} && s.nodes == i.full && s.changed == []
    ensures s.base == if i.base.Some? then i.base.value else ""
  {
  }
}
