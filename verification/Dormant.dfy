/** Dormant classes: liveness inside a module, schema kinds across the tree, and the report. */
module Dormant {
  import opened Graphs
  import opened Text

  /** A parsed module: what its top-level definitions use, its classes' bases, what its
      module-level code uses and which definitions carry a registering decorator. */
  datatype SourceModule = SourceModule(
    path: string,
    symbols: map<string, set<string>>,
    classes: map<string, set<string>>,
    rootUses: set<string>,
    registered: set<string>)

  type Users = map<string, set<string>>

  const SCHEMA_BASES: set<string> := {
    "BaseModel", "RootModel", "BaseSettings", "Protocol", "Enum", "IntEnum", "StrEnum", "Flag", "IntFlag",
    "TypedDict", "NamedTuple", "BaseException", "Exception"}

  predicate IsSchemaBase(name: string) {
    name in SCHEMA_BASES || EndsWith(name, "Error") || EndsWith(name, "Exception") || EndsWith(name, "Warning")
  }

  predicate Private(name: string) { name != "" && name[0] == '_' }

  // ---------------------------------------------------------------- liveness in one module

  /** Same-module uses between top-level definitions. */
  function UsesWithin(m: SourceModule): Graph { map d | d in m.symbols :: m.symbols[d] * m.symbols.Keys }

  function UsersOf(users: Users, name: string): set<string> { if name in users then users[name] else {} }

  predicate IsRoot(m: SourceModule, users: Users, name: string) {
    name in m.symbols && (UsersOf(users, name) - {m.path} != {} || name in m.rootUses || name in m.registered)
  }

  /** Reachable from a root through same-module uses. */
  ghost predicate IsLive(m: SourceModule, users: Users, name: string) {
    exists r :: IsRoot(m, users, r) && Reach(UsesWithin(m), r, name)
  }

  /** The worklist's invariant: the roots are in, only live names are in, and a name off the frontier
      has all its same-module uses in. */
  ghost predicate Explored(m: SourceModule, users: Users, live: set<string>, frontier: seq<string>) {
    && (forall name :: IsRoot(m, users, name) ==> name in live)
    && (forall name :: name in live ==> name in m.symbols && IsLive(m, users, name))
    && (forall name :: name in frontier ==> name in live)
    && forall a, b :: a in live && a !in frontier && Edge(UsesWithin(m), a, b) ==> b in live
  }

  lemma RootsExplored(m: SourceModule, users: Users, live: set<string>, frontier: seq<string>)
    requires forall name :: name in live <==> IsRoot(m, users, name)
    requires forall name :: name in frontier <==> name in live
    ensures Explored(m, users, live, frontier)
  {
    forall name | name in live ensures IsLive(m, users, name) { ReachSelf(UsesWithin(m), name); }
  }

  method PushUnseen(ghost keys: set<string>, uses: set<string>, live0: set<string>, frontier0: seq<string>)
    returns (live: set<string>, frontier: seq<string>)
    requires uses <= keys
    ensures forall x :: x in live <==> x in live0 || x in uses
    ensures forall x :: x in frontier <==> x in frontier0 || (x in uses && x !in live0)
    ensures |keys - live| < |keys - live0| || (live == live0 && frontier == frontier0)
  {
    live, frontier := live0, frontier0;
    var rest := uses;
    while rest != {}
      invariant rest <= uses
      invariant forall x :: x in live <==> x in live0 || (x in uses && x !in rest)
      invariant forall x :: x in frontier <==> x in frontier0 || (x in uses && x !in rest && x !in live0)
      invariant |keys - live| < |keys - live0| || (live == live0 && frontier == frontier0)
      decreases |rest|
    {
      var name :| name in rest;
      if name !in live {
        FewerUnseen(keys, live, live + {name}, name);
        live := live + {name};
        frontier := frontier + [name];
      }
      rest := rest - {name};
    }
  }

  lemma UsedIsLive(m: SourceModule, users: Users, d: string, name: string)
    requires IsLive(m, users, d) && Edge(UsesWithin(m), d, name)
    ensures IsLive(m, users, name)
  {
    var r :| IsRoot(m, users, r) && Reach(UsesWithin(m), r, d);
    var n: nat :| ReachIn(UsesWithin(m), r, d, n);
    ReachSnoc(UsesWithin(m), r, d, name, n);
  }

  lemma Visited(m: SourceModule, users: Users, d: string, live0: set<string>, frontier0: seq<string>, live: set<string>,
                frontier: seq<string>)
    requires Explored(m, users, live0, frontier0 + [d]) && d in m.symbols
    requires forall x :: x in live <==> x in live0 || x in UsesWithin(m)[d]
    requires forall x :: x in frontier <==> x in frontier0 || (x in UsesWithin(m)[d] && x !in live0)
    ensures Explored(m, users, live, frontier)
  {
    assert d in frontier0 + [d];
    forall name | name in live ensures name in m.symbols && IsLive(m, users, name) {
      if name !in live0 { UsedIsLive(m, users, d, name); }
    }
    forall name | name in frontier ensures name in live {
      if name in frontier0 { assert name in frontier0 + [d]; }
    }
    forall a, b | a in live && a !in frontier && Edge(UsesWithin(m), a, b) ensures b in live {
      if a != d { assert a !in frontier0 + [d]; }
    }
  }

  /** Pops the last name, adds what it uses, and puts each addition on the frontier. */
  method Visit(m: SourceModule, users: Users, live0: set<string>, frontier0: seq<string>)
    returns (live: set<string>, frontier: seq<string>)
    requires frontier0 != [] && Explored(m, users, live0, frontier0)
    ensures Explored(m, users, live, frontier)
    ensures |m.symbols.Keys - live| < |m.symbols.Keys - live0| || (live == live0 && |frontier| < |frontier0|)
  {
    var d, rest := frontier0[|frontier0| - 1], frontier0[..|frontier0| - 1];
    assert frontier0 == rest + [d];
    assert d in frontier0;
    live, frontier := PushUnseen(m.symbols.Keys, m.symbols[d] * m.symbols.Keys, live0, rest);
    Visited(m, users, d, live0, rest, live, frontier);
  }

  lemma LiveIsReachable(m: SourceModule, users: Users, live: set<string>)
    requires Explored(m, users, live, [])
    ensures forall name :: name in live <==> IsLive(m, users, name)
  {
    assert Closed(UsesWithin(m), live);
    forall name | IsLive(m, users, name) ensures name in live {
      var r :| IsRoot(m, users, r) && Reach(UsesWithin(m), r, name);
      var n: nat :| ReachIn(UsesWithin(m), r, name, n);
      ClosedHolds(UsesWithin(m), live, r, name, n);
    }
  }

  method ToList(s: set<string>) returns (r: seq<string>)
    ensures forall x :: x in r <==> x in s
  {
    r := [];
    var rest := s;
    while rest != {}
      invariant rest <= s
      invariant forall x :: x in r <==> x in s - rest
      decreases |rest|
    {
      var x :| x in rest;
      r := r + [x];
      rest := rest - {x};
    }
  }

  method Live(m: SourceModule, users: Users) returns (live: set<string>)
    ensures forall name :: name in live <==> IsLive(m, users, name)
  {
    live := set name | name in m.symbols && IsRoot(m, users, name);
    var frontier := ToList(live);
    RootsExplored(m, users, live, frontier);
    while frontier != []
      invariant Explored(m, users, live, frontier)
      decreases |m.symbols.Keys - live|, |frontier|
    {
      live, frontier := Visit(m, users, live, frontier);
    }
    LiveIsReachable(m, users, live);
  }

  // ---------------------------------------------------------------- schema kinds

  /** The base rule: some base is a schema kind, or a class already known to be one. */
  predicate Follows(bases: Graph, schema: set<string>, name: string) {
    name in bases && exists base :: base in bases[name] && (IsSchemaBase(base) || base in schema)
  }

  ghost predicate SchemaClosed(bases: Graph, schema: set<string>) {
    forall name :: Follows(bases, schema, name) ==> name in schema
  }

  /** The least set closed under the base rule. */
  ghost predicate LeastSchema(bases: Graph, schema: set<string>) {
    SchemaClosed(bases, schema) && forall s: set<string> :: SchemaClosed(bases, s) ==> schema <= s
  }

  lemma Forced(bases: Graph, schema: set<string>, s: set<string>, name: string)
    requires SchemaClosed(bases, s) && schema <= s && Follows(bases, schema, name)
    ensures name in s
  {
    var base :| base in bases[name] && (IsSchemaBase(base) || base in schema);
    assert Follows(bases, s, name);
  }

  /** One pass over all classes, adding as it goes. */
  method SchemaPass(bases: Graph, schema0: set<string>) returns (schema: set<string>, grew: bool)
    requires schema0 <= bases.Keys
    requires forall s: set<string> :: SchemaClosed(bases, s) ==> schema0 <= s
    ensures schema0 <= schema <= bases.Keys
    ensures forall s: set<string> :: SchemaClosed(bases, s) ==> schema <= s
    ensures !grew ==> schema == schema0 && SchemaClosed(bases, schema)
    ensures grew ==> |bases.Keys - schema| < |bases.Keys - schema0|
  {
    schema, grew := schema0, false;
    var rest := bases.Keys;
    while rest != {}
      invariant rest <= bases.Keys
      invariant schema0 <= schema <= bases.Keys
      invariant forall s: set<string> :: SchemaClosed(bases, s) ==> schema <= s
      invariant !grew ==> schema == schema0
      invariant !grew ==> forall name :: name in bases && name !in rest && Follows(bases, schema, name) ==>
        name in schema
      invariant grew ==> |bases.Keys - schema| < |bases.Keys - schema0|
      decreases |rest|
    {
      var name :| name in rest;
      if name !in schema && Follows(bases, schema, name) {
        forall s: set<string> | SchemaClosed(bases, s) ensures name in s { Forced(bases, schema, s, name); }
        FewerUnseen(bases.Keys, schema, schema + {name}, name);
        schema := schema + {name};
        grew := true;
      }
      rest := rest - {name};
    }
  }

  method SchemaClasses(bases: Graph) returns (schema: set<string>)
    ensures LeastSchema(bases, schema)
  {
    schema := {};
    var grew := true;
    while grew
      invariant schema <= bases.Keys
      invariant forall s: set<string> :: SchemaClosed(bases, s) ==> schema <= s
      invariant !grew ==> SchemaClosed(bases, schema)
      decreases |bases.Keys - schema|, grew
    {
      schema, grew := SchemaPass(bases, schema);
    }
  }

  // ---------------------------------------------------------------- the report

  function Uses(m: SourceModule): set<string> { m.rootUses + set d, u | d in m.symbols && u in m.symbols[d] :: u }

  /** The paths of the modules that use a name. */
  ghost predicate UsersRecorded(modules: seq<SourceModule>, users: Users) {
    forall name, path :: path in UsersOf(users, name) <==>
      exists i :: 0 <= i < |modules| && name in Uses(modules[i]) && modules[i].path == path
  }

  ghost predicate HasClass(modules: seq<SourceModule>, name: string) {
    exists i :: 0 <= i < |modules| && name in modules[i].classes
  }

  ghost predicate HasBase(modules: seq<SourceModule>, name: string, base: string) {
    exists i :: 0 <= i < |modules| && Edge(modules[i].classes, name, base)
  }

  /** Every base that any module's class of that name has. */
  ghost predicate BasesRecorded(modules: seq<SourceModule>, bases: Graph) {
    && (forall name :: name in bases <==> HasClass(modules, name))
    && forall name, base :: Edge(bases, name, base) <==> HasBase(modules, name, base)
  }

  /** Some module at another path uses the name. */
  ghost predicate UsedElsewhere(modules: seq<SourceModule>, m: SourceModule, name: string) {
    exists i :: 0 <= i < |modules| && name in Uses(modules[i]) && modules[i].path != m.path
  }

  ghost predicate RootIn(modules: seq<SourceModule>, m: SourceModule, name: string) {
    name in m.symbols && (UsedElsewhere(modules, m, name) || name in m.rootUses || name in m.registered)
  }

  ghost predicate LiveIn(modules: seq<SourceModule>, m: SourceModule, name: string) {
    exists r :: RootIn(modules, m, r) && Reach(UsesWithin(m), r, name)
  }

  /** Every class with a base that is a schema base, or in the set, is in the set. */
  ghost predicate ClosedOver(modules: seq<SourceModule>, s: set<string>) {
    forall name, base :: HasBase(modules, name, base) && (IsSchemaBase(base) || base in s) ==> name in s
  }

  ghost predicate SchemaKind(modules: seq<SourceModule>, name: string) {
    forall s: set<string> :: ClosedOver(modules, s) ==> name in s
  }

  /** A public class of `m` that is no schema kind and that nothing live in its module reaches. */
  ghost predicate DormantIn(modules: seq<SourceModule>, m: SourceModule, name: string) {
    name in m.classes && !Private(name) && !SchemaKind(modules, name) && !LiveIn(modules, m, name)
  }

  lemma AddOne(users: Users, name: string, path: string)
    ensures var more := users[name := UsersOf(users, name) + {path}];
      forall other, p :: p in UsersOf(more, other) <==> p in UsersOf(users, other) || (other == name && p == path)
  {
  }

  /** `users.setdefault(name, set()).add(path)` for every name used. */
  method AddUser(path: string, uses: set<string>, users0: Users) returns (users: Users)
    ensures forall name, p :: p in UsersOf(users, name) <==> p in UsersOf(users0, name) || (name in uses && p == path)
  {
    users := users0;
    var rest := uses;
    while rest != {}
      invariant rest <= uses
      invariant forall name, p :: p in UsersOf(users, name) <==>
        p in UsersOf(users0, name) || (name in uses && name !in rest && p == path)
      decreases |rest|
    {
      var name :| name in rest;
      AddOne(users, name, path);
      users := users[name := UsersOf(users, name) + {path}];
      rest := rest - {name};
    }
  }

  lemma UsersStep(modules: seq<SourceModule>, i: nat, users0: Users, users: Users)
    requires i < |modules| && UsersRecorded(modules[..i], users0)
    requires forall name, p :: p in UsersOf(users, name) <==>
      p in UsersOf(users0, name) || (name in Uses(modules[i]) && p == modules[i].path)
    ensures UsersRecorded(modules[..i + 1], users)
  {
    var p, q := modules[..i], modules[..i + 1];
    forall name, path
      ensures path in UsersOf(users, name) <==> exists j :: 0 <= j < |q| && name in Uses(q[j]) && q[j].path == path
    {
      if path in UsersOf(users0, name) {
        var j :| 0 <= j < |p| && name in Uses(p[j]) && p[j].path == path;
        assert q[j] == p[j];
      } else if path in UsersOf(users, name) {
        assert q[i] == modules[i];
      }
      if j :| 0 <= j < |q| && name in Uses(q[j]) && q[j].path == path {
        if j < i { assert p[j] == q[j]; }
      }
    }
  }

  method RecordUses(modules: seq<SourceModule>, i: nat, users0: Users) returns (users: Users)
    requires i < |modules| && UsersRecorded(modules[..i], users0)
    ensures UsersRecorded(modules[..i + 1], users)
  {
    users := AddUser(modules[i].path, Uses(modules[i]), users0);
    UsersStep(modules, i, users0, users);
  }

  method RecordUsers(modules: seq<SourceModule>) returns (users: Users)
    ensures UsersRecorded(modules, users)
  {
    users := map[];
    for i := 0 to |modules|
      invariant UsersRecorded(modules[..i], users)
    {
      users := RecordUses(modules, i, users);
    }
    assert modules[..|modules|] == modules;
  }

  function BasesOf(bases: Graph, name: string): set<string> { if name in bases then bases[name] else {} }

  lemma ClassStep(modules: seq<SourceModule>, i: nat, name: string)
    requires i < |modules|
    ensures HasClass(modules[..i + 1], name) <==> HasClass(modules[..i], name) || name in modules[i].classes
  {
    var p, q := modules[..i], modules[..i + 1];
    assert q == p + [modules[i]];
    if j :| 0 <= j < |p| && name in p[j].classes { assert q[j] == p[j]; }
    if name in modules[i].classes { assert q[i] == modules[i]; }
  }

  lemma BaseStep(modules: seq<SourceModule>, i: nat, name: string, base: string)
    requires i < |modules|
    ensures HasBase(modules[..i + 1], name, base) <==>
      HasBase(modules[..i], name, base) || Edge(modules[i].classes, name, base)
  {
    var p, q := modules[..i], modules[..i + 1];
    assert q == p + [modules[i]];
    if j :| 0 <= j < |p| && Edge(p[j].classes, name, base) { assert q[j] == p[j]; }
    if Edge(modules[i].classes, name, base) { assert q[i] == modules[i]; }
  }

  lemma BasesStep(modules: seq<SourceModule>, i: nat, known: Graph, bases: Graph)
    requires i < |modules| && BasesRecorded(modules[..i], known)
    requires bases.Keys == known.Keys + modules[i].classes.Keys
    requires forall name :: name in bases ==> bases[name] == BasesOf(known, name) + BasesOf(modules[i].classes, name)
    ensures BasesRecorded(modules[..i + 1], bases)
  {
    forall name ensures name in bases <==> HasClass(modules[..i + 1], name) {
      ClassStep(modules, i, name);
    }
    forall name, base ensures Edge(bases, name, base) <==> HasBase(modules[..i + 1], name, base) {
      BaseStep(modules, i, name, base);
    }
  }

  method RecordBases(modules: seq<SourceModule>) returns (bases: Graph)
    ensures BasesRecorded(modules, bases)
  {
    bases := map[];
    for i := 0 to |modules|
      invariant BasesRecorded(modules[..i], bases)
    {
      var classes, known := modules[i].classes, bases;
      bases := map name | name in known.Keys + classes.Keys :: BasesOf(known, name) + BasesOf(classes, name);
      BasesStep(modules, i, known, bases);
    }
    assert modules[..|modules|] == modules;
  }

  lemma LiveByUsers(modules: seq<SourceModule>, users: Users, m: SourceModule, name: string)
    requires UsersRecorded(modules, users)
    ensures IsLive(m, users, name) <==> LiveIn(modules, m, name)
  {
    forall r ensures IsRoot(m, users, r) <==> RootIn(modules, m, r) {
      if path :| path in UsersOf(users, r) - {m.path} { assert UsedElsewhere(modules, m, r); }
      if i :| 0 <= i < |modules| && r in Uses(modules[i]) && modules[i].path != m.path {
        assert modules[i].path in UsersOf(users, r) - {m.path};
      }
    }
  }

  lemma ClosedByBases(modules: seq<SourceModule>, bases: Graph, s: set<string>)
    requires BasesRecorded(modules, bases)
    ensures SchemaClosed(bases, s) <==> ClosedOver(modules, s)
  {
    if SchemaClosed(bases, s) {
      forall name, base | HasBase(modules, name, base) && (IsSchemaBase(base) || base in s) ensures name in s {
        assert Edge(bases, name, base);
        assert Follows(bases, s, name);
      }
    }
    if ClosedOver(modules, s) {
      forall name | Follows(bases, s, name) ensures name in s {
        var base :| base in bases[name] && (IsSchemaBase(base) || base in s);
        assert Edge(bases, name, base);
      }
    }
  }

  lemma SchemaByBases(modules: seq<SourceModule>, bases: Graph, schema: set<string>, name: string)
    requires BasesRecorded(modules, bases) && LeastSchema(bases, schema)
    ensures name in schema <==> SchemaKind(modules, name)
  {
    forall s: set<string> ensures SchemaClosed(bases, s) <==> ClosedOver(modules, s) {
      ClosedByBases(modules, bases, s);
    }
  }

  method ReportModule(ghost modules: seq<SourceModule>, m: SourceModule, users: Users, ghost bases: Graph,
                      schema: set<string>)
    returns (dormant: set<string>)
    requires UsersRecorded(modules, users) && BasesRecorded(modules, bases) && LeastSchema(bases, schema)
    ensures forall name :: name in dormant <==> DormantIn(modules, m, name)
  {
    var live := Live(m, users);
    dormant := set name | name in m.classes && !Private(name) && name !in schema && name !in live;
    forall name ensures name in dormant <==> DormantIn(modules, m, name) {
      LiveByUsers(modules, users, m, name);
      SchemaByBases(modules, bases, schema, name);
    }
  }

  /** The dormant classes, each with the path of its module. */
  method BuildReport(modules: seq<SourceModule>) returns (dormant: set<(string, string)>)
    ensures forall path, name :: (path, name) in dormant <==>
      exists i :: 0 <= i < |modules| && modules[i].path == path && DormantIn(modules, modules[i], name)
  {
    var users := RecordUsers(modules);
    var bases := RecordBases(modules);
    var schema := SchemaClasses(bases);
    dormant := {};
    for i := 0 to |modules|
      invariant forall path, name :: (path, name) in dormant <==>
        exists j :: 0 <= j < i && modules[j].path == path && DormantIn(modules, modules[j], name)
    {
      var names := ReportModule(modules, modules[i], users, bases, schema);
      dormant := dormant + set name | name in names :: (modules[i].path, name);
    }
  }

  // ---------------------------------------------------------------- growth

  /** `b` is `a` with perhaps more definitions, uses, bases and registrations. */
  ghost predicate Grown(a: SourceModule, b: SourceModule) {
    && a.path == b.path && a.rootUses <= b.rootUses && a.registered <= b.registered
    && (forall d :: d in a.symbols ==> d in b.symbols && a.symbols[d] <= b.symbols[d])
    && forall c :: c in a.classes ==> c in b.classes && a.classes[c] <= b.classes[c]
  }

  /** Every module of `before` is still there, perhaps grown; there may be new ones. */
  ghost predicate TreeGrown(before: seq<SourceModule>, after: seq<SourceModule>) {
    forall i :: 0 <= i < |before| ==> exists j :: 0 <= j < |after| && Grown(before[i], after[j])
  }

  lemma BaseGrows(before: seq<SourceModule>, after: seq<SourceModule>, name: string, base: string)
    requires TreeGrown(before, after) && HasBase(before, name, base)
    ensures HasBase(after, name, base)
  {
    var i :| 0 <= i < |before| && Edge(before[i].classes, name, base);
    var j :| 0 <= j < |after| && Grown(before[i], after[j]);
    assert Edge(after[j].classes, name, base);
  }

  lemma SchemaGrows(before: seq<SourceModule>, after: seq<SourceModule>, name: string)
    requires TreeGrown(before, after) && SchemaKind(before, name)
    ensures SchemaKind(after, name)
  {
    forall s: set<string> | ClosedOver(after, s) ensures name in s {
      forall d, base | HasBase(before, d, base) && (IsSchemaBase(base) || base in s) ensures d in s {
        BaseGrows(before, after, d, base);
      }
      assert ClosedOver(before, s);
    }
  }

  lemma LiveGrows(before: seq<SourceModule>, after: seq<SourceModule>, m0: SourceModule, m1: SourceModule, name: string)
    requires TreeGrown(before, after) && Grown(m0, m1) && LiveIn(before, m0, name)
    ensures LiveIn(after, m1, name)
  {
    var r :| RootIn(before, m0, r) && Reach(UsesWithin(m0), r, name);
    if UsedElsewhere(before, m0, r) {
      var i :| 0 <= i < |before| && r in Uses(before[i]) && before[i].path != m0.path;
      var j :| 0 <= j < |after| && Grown(before[i], after[j]);
      assert r in Uses(after[j]);
    }
    assert RootIn(after, m1, r);
    var n: nat :| ReachIn(UsesWithin(m0), r, name, n);
    forall x, y | Edge(UsesWithin(m0), x, y) ensures Edge(UsesWithin(m1), x, y) { }
    ReachGrows(UsesWithin(m0), UsesWithin(m1), r, name, n);
  }

  /** Adding modules, definitions, uses or bases never makes a class dormant that was not. */
  lemma NeverTurnsDormant(before: seq<SourceModule>, after: seq<SourceModule>, m0: SourceModule, m1: SourceModule,
                          name: string)
    requires TreeGrown(before, after) && Grown(m0, m1) && name in m0.classes
    ensures DormantIn(after, m1, name) ==> DormantIn(before, m0, name)
  {
    if SchemaKind(before, name) { SchemaGrows(before, after, name); }
    if LiveIn(before, m0, name) { LiveGrows(before, after, m0, m1, name); }
  }
}
