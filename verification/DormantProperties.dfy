/** When a class is dormant, stated as the chains of bases and of uses that would save it. */
module DormantProperties {
  import opened Graphs
  import opened Dormant
  import opened Text

  // ---------------------------------------------------------------- schema kinds

  /** The bases that make a class a schema kind, by name or by ending. */
  ghost predicate SchemaName(name: string) {
    || name in {"BaseModel", "RootModel", "BaseSettings", "Protocol", "Enum", "IntEnum", "StrEnum", "Flag", "IntFlag",
                "TypedDict", "NamedTuple", "BaseException", "Exception"}
    || exists stem: string :: name == stem + "Error" || name == stem + "Exception" || name == stem + "Warning"
  }

  lemma Ending(name: string, suffix: string)
    ensures EndsWith(name, suffix) <==> exists stem: string :: name == stem + suffix
  {
    if EndsWith(name, suffix) { assert name == name[..|name| - |suffix|] + suffix; }
    if stem: string :| name == stem + suffix { assert name[|name| - |suffix|..] == suffix; }
  }

  lemma SchemaNames(name: string)
    ensures IsSchemaBase(name) <==> SchemaName(name)
  {
    Ending(name, "Error");
    Ending(name, "Exception");
    Ending(name, "Warning");
  }

  /** Some module has a class `name` with this base. */
  ghost predicate Inherits(modules: seq<SourceModule>, name: string, base: string) {
    exists m :: m in modules && name in m.classes && base in m.classes[name]
  }

  /** Each name of the chain inherits from the next, and the last one is a schema base. */
  ghost predicate BaseChain(modules: seq<SourceModule>, chain: seq<string>) {
    && |chain| >= 2 && SchemaName(chain[|chain| - 1])
    && forall i :: 0 <= i < |chain| - 1 ==> Inherits(modules, chain[i], chain[i + 1])
  }

  lemma InheritsMeans(modules: seq<SourceModule>, name: string, base: string)
    ensures HasBase(modules, name, base) <==> Inherits(modules, name, base)
  {
    if Inherits(modules, name, base) {
      var m :| m in modules && name in m.classes && base in m.classes[name];
      var i :| 0 <= i < |modules| && modules[i] == m;
      assert Edge(modules[i].classes, name, base);
    }
  }

  lemma {:induction false} ChainForces(modules: seq<SourceModule>, chain: seq<string>, s: set<string>)
    requires BaseChain(modules, chain) && ClosedOver(modules, s)
    ensures chain[0] in s
  {
    assert Inherits(modules, chain[0], chain[1]);
    InheritsMeans(modules, chain[0], chain[1]);
    if |chain| == 2 {
      SchemaNames(chain[1]);
    } else {
      var rest := chain[1..];
      forall i | 0 <= i < |rest| - 1 ensures Inherits(modules, rest[i], rest[i + 1]) {
        assert Inherits(modules, chain[i + 1], chain[i + 2]);
      }
      ChainForces(modules, rest, s);
    }
  }

  ghost predicate Chained(modules: seq<SourceModule>, name: string) {
    exists chain :: BaseChain(modules, chain) && chain[0] == name
  }

  /** The classes that have such a chain. */
  ghost function ChainedClasses(modules: seq<SourceModule>): set<string> {
    set m, name | m in modules && name in m.classes && Chained(modules, name) :: name
  }

  lemma ChainLonger(modules: seq<SourceModule>, name: string, base: string)
    requires Inherits(modules, name, base) && (SchemaName(base) || Chained(modules, base))
    ensures Chained(modules, name)
  {
    if SchemaName(base) {
      assert BaseChain(modules, [name, base]);
    } else {
      var chain :| BaseChain(modules, chain) && chain[0] == base;
      var longer := [name] + chain;
      forall i | 0 <= i < |longer| - 1 ensures Inherits(modules, longer[i], longer[i + 1]) {
        if i > 0 { assert Inherits(modules, chain[i - 1], chain[i]); }
      }
      assert BaseChain(modules, longer);
    }
  }

  lemma ChainedIsClosed(modules: seq<SourceModule>)
    ensures ClosedOver(modules, ChainedClasses(modules))
  {
    var s := ChainedClasses(modules);
    forall name, base | HasBase(modules, name, base) && (IsSchemaBase(base) || base in s) ensures name in s {
      InheritsMeans(modules, name, base);
      SchemaNames(base);
      ChainLonger(modules, name, base);
    }
  }

  /** A class is a schema kind exactly when a chain of bases, through any modules, ends in a schema base. */
  lemma SchemaKindExactly(modules: seq<SourceModule>, name: string)
    ensures SchemaKind(modules, name) <==> Chained(modules, name)
  {
    if SchemaKind(modules, name) {
      ChainedIsClosed(modules);
      assert name in ChainedClasses(modules);
    }
    if Chained(modules, name) {
      var chain :| BaseChain(modules, chain) && chain[0] == name;
      forall s: set<string> | ClosedOver(modules, s) ensures name in s { ChainForces(modules, chain, s); }
    }
  }

  // ---------------------------------------------------------------- liveness

  /** Module-level code or some definition of the module uses the name. */
  predicate UsedBy(m: SourceModule, name: string) {
    name in m.rootUses || exists d :: d in m.symbols && name in m.symbols[d]
  }

  /** The definition is used from another path or by module-level code, or it is registered by a decorator. */
  ghost predicate Started(modules: seq<SourceModule>, m: SourceModule, name: string) {
    name in m.symbols &&
    (name in m.rootUses || name in m.registered ||
     exists other :: other in modules && other.path != m.path && UsedBy(other, name))
  }

  /** One definition of the module uses another. */
  predicate UsesHere(m: SourceModule, a: string, b: string) {
    a in m.symbols && b in m.symbols[a] && b in m.symbols
  }

  /** Each definition of the chain uses the next one, and the first one is started. */
  ghost predicate UseChain(modules: seq<SourceModule>, m: SourceModule, chain: seq<string>) {
    && chain != [] && Started(modules, m, chain[0])
    && forall i :: 0 <= i < |chain| - 1 ==> UsesHere(m, chain[i], chain[i + 1])
  }

  lemma StartedMeans(modules: seq<SourceModule>, m: SourceModule, name: string)
    ensures RootIn(modules, m, name) <==> Started(modules, m, name)
  {
    if other :| other in modules && other.path != m.path && UsedBy(other, name) {
      var i :| 0 <= i < |modules| && modules[i] == other;
      assert name in Uses(modules[i]);
    }
    if UsedElsewhere(modules, m, name) {
      var i :| 0 <= i < |modules| && name in Uses(modules[i]) && modules[i].path != m.path;
      assert modules[i] in modules && UsedBy(modules[i], name);
    }
  }

  /** A chain of same-module uses from `a` to `b`. */
  ghost predicate Path(m: SourceModule, chain: seq<string>, a: string, b: string) {
    && chain != [] && chain[0] == a && chain[|chain| - 1] == b
    && forall i :: 0 <= i < |chain| - 1 ==> UsesHere(m, chain[i], chain[i + 1])
  }

  lemma {:induction false} PathOf(m: SourceModule, a: string, b: string, n: nat) returns (chain: seq<string>)
    requires ReachIn(UsesWithin(m), a, b, n)
    ensures Path(m, chain, a, b)
    decreases n
  {
    if n == 0 {
      chain := [a];
    } else {
      var c :| Edge(UsesWithin(m), a, c) && ReachIn(UsesWithin(m), c, b, n - 1);
      var rest := PathOf(m, c, b, n - 1);
      chain := [a] + rest;
      forall i | 0 <= i < |chain| - 1 ensures UsesHere(m, chain[i], chain[i + 1]) {
        if i > 0 { assert UsesHere(m, rest[i - 1], rest[i]); }
      }
    }
  }

  lemma {:induction false} PathReaches(m: SourceModule, chain: seq<string>, a: string, b: string)
    requires Path(m, chain, a, b)
    ensures Reach(UsesWithin(m), a, b)
  {
    if |chain| == 1 {
      ReachSelf(UsesWithin(m), a);
    } else {
      assert UsesHere(m, chain[0], chain[1]);
      assert Edge(UsesWithin(m), chain[0], chain[1]);
      forall i | 0 <= i < |chain[1..]| - 1 ensures UsesHere(m, chain[1..][i], chain[1..][i + 1]) {
        assert UsesHere(m, chain[i + 1], chain[i + 2]);
      }
      assert Path(m, chain[1..], chain[1], b);
      PathReaches(m, chain[1..], chain[1], b);
      ReachStep(UsesWithin(m), a, chain[1], b);
    }
  }

  /** A definition is live exactly when a chain of same-module uses leads to it from a started one. */
  lemma LiveExactly(modules: seq<SourceModule>, m: SourceModule, name: string)
    ensures LiveIn(modules, m, name) <==> exists chain :: UseChain(modules, m, chain) && chain[|chain| - 1] == name
  {
    if LiveIn(modules, m, name) {
      var r :| RootIn(modules, m, r) && Reach(UsesWithin(m), r, name);
      var n: nat :| ReachIn(UsesWithin(m), r, name, n);
      var chain := PathOf(m, r, name, n);
      StartedMeans(modules, m, r);
      assert UseChain(modules, m, chain);
    }
    if chain :| UseChain(modules, m, chain) && chain[|chain| - 1] == name {
      StartedMeans(modules, m, chain[0]);
      assert Path(m, chain, chain[0], name);
      PathReaches(m, chain, chain[0], name);
    }
  }

  /** A class is reported exactly when its name is public, no chain of bases makes it a schema kind, and no chain of
      uses makes it live. */
  lemma DormantExactly(modules: seq<SourceModule>, m: SourceModule, name: string)
    ensures DormantIn(modules, m, name) <==>
      && name in m.classes && (name == "" || name[0] != '_')
      && !(exists chain :: BaseChain(modules, chain) && chain[0] == name)
      && !(exists chain :: UseChain(modules, m, chain) && chain[|chain| - 1] == name)
  {
    SchemaKindExactly(modules, name);
    LiveExactly(modules, m, name);
  }
}
