/** The store registry check: which modules the declarations claim, and the reviewed baseline of the rest. */
module StoreRegistry {
  import opened Wrappers
  import opened Ordering

  // ---------------------------------------------------------------- declarations

  /** What the tree holds: the symbols each module defines, the tracked sources, the tables each module creates. */
  datatype Tree = Tree(symbols: map<string, set<string>>, sources: set<string>, detected: map<string, seq<string>>)

  /** One declaration as read: a field is there only when it is a string, the companions only when they
      are a tuple of strings. */
  datatype Declaration = Declaration(
    storeId: Option<string>, path: Option<string>,
    ownerModule: Option<string>, ownerSymbol: Option<string>, companions: Option<seq<string>>)

  predicate Blank(s: string) { forall c :: c in s ==> c in " \t\n\r" }

  predicate Resolves(tree: Tree, owner: string, symbol: string) {
    owner in tree.symbols && symbol in tree.symbols[owner]
  }

  /** `_valid_companion_schema_modules`: no blank, no repeat, not the owner. */
  predicate CompanionsValid(d: Declaration) {
    d.companions.Some? && (forall c :: c in d.companions.value ==> !Blank(c)) && Distinct(d.companions.value) &&
    (d.ownerModule.Some? ==> d.ownerModule.value !in d.companions.value)
  }

  method ValidCompanions(d: Declaration) returns (r: Option<seq<string>>)
    ensures r == if CompanionsValid(d) then d.companions else None
  {
    if d.companions.None? { return None; }
    if c :| c in d.companions.value && Blank(c) { return None; }
    DistinctSize(d.companions.value);
    if |d.companions.value| != |Elements(d.companions.value)| { return None; }
    if d.ownerModule.Some? && d.ownerModule.value in d.companions.value { return None; }
    r := d.companions;
  }

  predicate Claimable(tree: Tree, companion: string) { companion in tree.sources && companion in tree.detected }

  ghost function Usable(tree: Tree, companions: seq<string>): seq<string> {
    if companions == [] then [] else
      var last := companions[|companions| - 1];
      Usable(tree, companions[..|companions| - 1]) + if Claimable(tree, last) then [last] else []
  }

  ghost function OwnerClaim(tree: Tree, d: Declaration): seq<string> {
    if d.ownerModule.Some? && d.ownerSymbol.Some? && Resolves(tree, d.ownerModule.value, d.ownerSymbol.value)
    then [d.ownerModule.value] else []
  }

  ghost function CompanionClaims(tree: Tree, d: Declaration): seq<string> {
    if CompanionsValid(d) then Usable(tree, d.companions.value) else []
  }

  /** The modules one declaration tries to claim: its resolved owner, then its usable companions. */
  ghost function Claims(tree: Tree, d: Declaration): seq<string> { OwnerClaim(tree, d) + CompanionClaims(tree, d) }

  ghost function Named(name: Option<string>): seq<string> {
    if name.Some? && !Blank(name.value) then [name.value] else []
  }

  /** All of what `f` gives, declaration after declaration. */
  ghost function Gathered<T>(f: T -> seq<string>, xs: seq<T>): seq<string> {
    if xs == [] then [] else Gathered(f, xs[..|xs| - 1]) + f(xs[|xs| - 1])
  }

  ghost function Attempts(tree: Tree, declarations: seq<Declaration>): seq<string> {
    Gathered(d => Claims(tree, d), declarations)
  }

  /** How many elements repeat an earlier one. */
  ghost function Repeats(xs: seq<string>): int { |xs| - |Elements(xs)| }

  // ---------------------------------------------------------------- the claim loop

  lemma OneMore(xs: seq<string>, x: string)
    ensures Elements(xs + [x]) == Elements(xs) + {x}
    ensures Repeats(xs + [x]) == Repeats(xs) + if x in Elements(xs) then 1 else 0
  {
    assert Elements(xs + [x]) == Elements(xs) + {x} by {
      forall y ensures y in Elements(xs + [x]) <==> y in Elements(xs) + {x} { }
    }
    if x in Elements(xs) { assert Elements(xs) + {x} == Elements(xs); }
  }

  ghost predicate Unresolved(tree: Tree, d: Declaration) {
    d.ownerModule.Some? && d.ownerSymbol.Some? && !Resolves(tree, d.ownerModule.value, d.ownerSymbol.value)
  }

  ghost function Unusable(tree: Tree, d: Declaration): int {
    if CompanionsValid(d) then |d.companions.value| - |CompanionClaims(tree, d)| else 0
  }

  /** What the loop over declarations has found: who claimed each module first, and the errors so far. */
  class Registry {
    var claims: map<string, nat>
    var declared: set<string>
    var duplicateClaims: nat
    var unresolvedOwners: nat
    var unusableCompanions: nat

    constructor ()
      ensures claims == map[] && declared == {}
      ensures duplicateClaims == 0 && unresolvedOwners == 0 && unusableCompanions == 0
    {
      claims, declared, duplicateClaims, unresolvedOwners, unusableCompanions := map[], {}, 0, 0, 0;
    }

    /** The claims recorded are those of a list of attempts. */
    ghost predicate Holds(attempts: seq<string>)
      reads this
    {
      declared == Elements(attempts) && claims.Keys == declared && duplicateClaims == Repeats(attempts)
    }

    method Claim(target: string, claimant: nat, ghost attempts: seq<string>)
      requires Holds(attempts)
      modifies this`claims, this`declared, this`duplicateClaims
      ensures Holds(attempts + [target])
      ensures claims == if target in old(claims) then old(claims) else old(claims)[target := claimant]
    {
      OneMore(attempts, target);
      if target in claims {
        duplicateClaims := duplicateClaims + 1;
      } else {
        claims := claims[target := claimant];
        declared := declared + {target};
      }
    }

    method ClaimCompanions(tree: Tree, companions: seq<string>, claimant: nat, ghost attempts: seq<string>)
      requires Holds(attempts)
      modifies this`claims, this`declared, this`duplicateClaims, this`unusableCompanions
      ensures Holds(attempts + Usable(tree, companions))
      ensures unusableCompanions == old(unusableCompanions) + |companions| - |Usable(tree, companions)|
    {
      assert attempts + [] == attempts;
      for i := 0 to |companions|
        invariant Holds(attempts + Usable(tree, companions[..i]))
        invariant unusableCompanions == old(unusableCompanions) + i - |Usable(tree, companions[..i])|
      {
        ghost var before := Usable(tree, companions[..i]);
        assert companions[..i + 1][..i] == companions[..i];
        if companions[i] !in tree.sources || companions[i] !in tree.detected {
          unusableCompanions := unusableCompanions + 1;
          assert Usable(tree, companions[..i + 1]) == before;
        } else {
          Claim(companions[i], claimant, attempts + before);
          assert attempts + before + [companions[i]] == attempts + (before + [companions[i]]);
        }
      }
      assert companions[..|companions|] == companions;
    }

    method ClaimOwner(tree: Tree, d: Declaration, claimant: nat, ghost attempts: seq<string>)
      requires Holds(attempts)
      modifies this`claims, this`declared, this`duplicateClaims, this`unresolvedOwners
      ensures Holds(attempts + OwnerClaim(tree, d))
      ensures unresolvedOwners == old(unresolvedOwners) + if Unresolved(tree, d) then 1 else 0
    {
      assert attempts + [] == attempts;
      if d.ownerModule.Some? && d.ownerSymbol.Some? {
        if !Resolves(tree, d.ownerModule.value, d.ownerSymbol.value) {
          unresolvedOwners := unresolvedOwners + 1;
        } else {
          Claim(d.ownerModule.value, claimant, attempts);
        }
      }
    }

    /** One pass over a declaration: its owner, then its companions. */
    method ClaimModules(tree: Tree, d: Declaration, claimant: nat, ghost attempts: seq<string>)
      requires Holds(attempts)
      modifies this
      ensures Holds(attempts + Claims(tree, d))
      ensures unresolvedOwners == old(unresolvedOwners) + if Unresolved(tree, d) then 1 else 0
      ensures unusableCompanions == old(unusableCompanions) + Unusable(tree, d)
    {
      ClaimOwner(tree, d, claimant, attempts);
      ghost var after := attempts + OwnerClaim(tree, d);
      assert attempts + Claims(tree, d) == after + CompanionClaims(tree, d);
      var companions := ValidCompanions(d);
      if companions.Some? {
        ClaimCompanions(tree, companions.value, claimant, after);
      } else {
        assert after + CompanionClaims(tree, d) == after;
      }
    }
  }

  ghost function UnresolvedCount(tree: Tree, declarations: seq<Declaration>): nat {
    if declarations == [] then 0 else
      UnresolvedCount(tree, declarations[..|declarations| - 1]) +
      if Unresolved(tree, declarations[|declarations| - 1]) then 1 else 0
  }

  ghost function UnusableCount(tree: Tree, declarations: seq<Declaration>): int {
    if declarations == [] then 0 else
      UnusableCount(tree, declarations[..|declarations| - 1]) + Unusable(tree, declarations[|declarations| - 1])
  }

  /** Every declaration in order: the declared modules are those some declaration may claim, and the
      duplicate-claim errors are the claim attempts beyond one per module. */
  method ClaimAll(tree: Tree, declarations: seq<Declaration>) returns (registry: Registry)
    ensures fresh(registry)
    ensures registry.declared == Elements(Attempts(tree, declarations))
    ensures registry.duplicateClaims == Repeats(Attempts(tree, declarations))
    ensures registry.unresolvedOwners == UnresolvedCount(tree, declarations)
    ensures registry.unusableCompanions == UnusableCount(tree, declarations)
  {
    registry := new Registry();
    for i := 0 to |declarations|
      invariant fresh(registry) && registry.Holds(Attempts(tree, declarations[..i]))
      invariant registry.unresolvedOwners == UnresolvedCount(tree, declarations[..i])
      invariant registry.unusableCompanions == UnusableCount(tree, declarations[..i])
    {
      assert declarations[..i + 1][..i] == declarations[..i];
      registry.ClaimModules(tree, declarations[i], i, Attempts(tree, declarations[..i]));
    }
    assert declarations[..|declarations|] == declarations;
  }

  ghost function AllNamed(names: seq<Option<string>>): seq<string> { Gathered(n => Named(n), names) }

  lemma NamedStep(names: seq<Option<string>>, i: nat)
    requires i < |names|
    ensures AllNamed(names[..i + 1]) == AllNamed(names[..i]) + Named(names[i])
  {
    assert names[..i + 1][..i] == names[..i];
  }

  method SeeName(name: string, at: nat, before: map<string, nat>, count: nat, ghost all: seq<string>)
    returns (seen: map<string, nat>, repeated: nat)
    requires before.Keys == Elements(all) && count == Repeats(all)
    ensures seen == if name in before then before else before[name := at]
    ensures seen.Keys == Elements(all + [name]) && repeated == Repeats(all + [name])
  {
    OneMore(all, name);
    if name in before { return before, count + 1; }
    seen, repeated := before[name := at], count;
  }

  /** The duplicate-identifier and duplicate-path loops. */
  method CountRepeats(names: seq<Option<string>>) returns (seen: map<string, nat>, repeated: nat)
    ensures seen.Keys == Elements(AllNamed(names))
    ensures repeated == Repeats(AllNamed(names))
  {
    seen, repeated := map[], 0;
    ghost var all: seq<string> := [];
    for i := 0 to |names|
      invariant all == AllNamed(names[..i])
      invariant seen.Keys == Elements(all) && repeated == Repeats(all)
    {
      NamedStep(names, i);
      if names[i].Some? && !Blank(names[i].value) {
        seen, repeated := SeeName(names[i].value, i, seen, repeated, all);
        all := all + [names[i].value];
      } else {
        assert all + [] == all;
      }
    }
    assert names[..|names|] == names;
  }

  // ---------------------------------------------------------------- order of declarations

  lemma {:induction false} GatheredWithout<T>(f: T -> seq<string>, xs: seq<T>, i: nat)
    requires i < |xs|
    ensures multiset(Gathered(f, xs)) == multiset(Gathered(f, Without(xs, i))) + multiset(f(xs[i]))
  {
    var n := |xs| - 1;
    if i == n {
      assert Without(xs, i) == xs[..n];
    } else {
      GatheredWithout(f, xs[..n], i);
      WithoutLast(xs, i);
      var rest := Without(xs, i);
      assert multiset(Gathered(f, rest)) == multiset(Gathered(f, rest[..n - 1])) + multiset(f(rest[n - 1]));
    }
  }

  lemma {:induction false} GatheredPermuted<T>(f: T -> seq<string>, xs: seq<T>, ys: seq<T>)
    requires multiset(xs) == multiset(ys)
    ensures multiset(Gathered(f, xs)) == multiset(Gathered(f, ys))
  {
    if xs == [] {
      assert |multiset(ys)| == 0;
    } else {
      var i := TakeOut(xs, ys);
      GatheredWithout(f, ys, i);
      GatheredPermuted(f, xs[..|xs| - 1], Without(ys, i));
    }
  }

  lemma RepeatsPermuted(xs: seq<string>, ys: seq<string>)
    requires multiset(xs) == multiset(ys)
    ensures Elements(xs) == Elements(ys) && Repeats(xs) == Repeats(ys)
  {
    assert |multiset(xs)| == |xs| && |multiset(ys)| == |ys|;
    forall x ensures x in Elements(xs) <==> x in Elements(ys) {
      assert x in xs <==> x in multiset(xs);
      assert x in ys <==> x in multiset(ys);
    }
  }

  /** Reordering the declarations changes neither the declared modules nor the number of duplicate claims,
      though it may change which declaration is blamed. */
  lemma OrderIsIrrelevant(tree: Tree, declarations: seq<Declaration>, others: seq<Declaration>)
    requires multiset(declarations) == multiset(others)
    ensures Elements(Attempts(tree, declarations)) == Elements(Attempts(tree, others))
    ensures Repeats(Attempts(tree, declarations)) == Repeats(Attempts(tree, others))
  {
    GatheredPermuted(d => Claims(tree, d), declarations, others);
    RepeatsPermuted(Attempts(tree, declarations), Attempts(tree, others));
  }

  /** `d` can claim `m`: as its resolved owner, or as a tracked companion that creates tables. */
  predicate Takes(tree: Tree, d: Declaration, m: string) {
    || (d.ownerModule == Some(m) && d.ownerSymbol.Some? && Resolves(tree, m, d.ownerSymbol.value))
    || (CompanionsValid(d) && m in d.companions.value && Claimable(tree, m))
  }

  lemma {:induction false} UsableMeans(tree: Tree, companions: seq<string>, m: string)
    ensures m in Usable(tree, companions) <==> m in companions && Claimable(tree, m)
  {
    if companions != [] { UsableMeans(tree, companions[..|companions| - 1], m); }
  }

  lemma TakesMeans(tree: Tree, d: Declaration, m: string)
    ensures m in Claims(tree, d) <==> Takes(tree, d, m)
  {
    if CompanionsValid(d) { UsableMeans(tree, d.companions.value, m); }
  }

  /** A module is declared exactly when some declaration can claim it as owner or companion. */
  lemma {:induction false} DeclaredMeans(tree: Tree, declarations: seq<Declaration>, m: string)
    ensures m in Elements(Attempts(tree, declarations)) <==> exists d :: d in declarations && Takes(tree, d, m)
  {
    if declarations != [] {
      var n := |declarations| - 1;
      DeclaredMeans(tree, declarations[..n], m);
      TakesMeans(tree, declarations[n], m);
      assert declarations == declarations[..n] + [declarations[n]];
      assert Attempts(tree, declarations) == Attempts(tree, declarations[..n]) + Claims(tree, declarations[n]);
    }
  }

  // ---------------------------------------------------------------- the baseline

  datatype Kind = UndeclaredStore | StaleRow | TableDrift

  datatype Finding = Finding(kind: Kind, name: string)

  function UndeclaredRows(detected: map<string, seq<string>>, declared: set<string>): map<string, seq<string>> {
    map m | m in detected && m !in declared :: detected[m]
  }

  function Drifted(rows: map<string, seq<string>>, undeclared: map<string, seq<string>>): set<string> {
    set m | m in rows && m in undeclared && rows[m] != undeclared[m]
  }

  ghost function Tagged(kind: Kind, names: seq<string>): (r: seq<Finding>)
    ensures |r| == |names| && forall i :: 0 <= i < |r| ==> r[i] == Finding(kind, names[i])
  {
    seq(|names|, i requires 0 <= i < |names| => Finding(kind, names[i]))
  }

  method Report(findings: seq<Finding>, kind: Kind, names: seq<string>) returns (r: seq<Finding>)
    ensures r == findings + Tagged(kind, names)
  {
    r := findings;
    ghost var all := Tagged(kind, names);
    for i := 0 to |names|
      invariant r == findings + all[..i]
    {
      assert all[..i + 1] == all[..i] + [Finding(kind, names[i])];
      r := r + [Finding(kind, names[i])];
    }
  }

  ghost function Differences(rows: map<string, seq<string>>, undeclared: map<string, seq<string>>): seq<Finding> {
    Tagged(UndeclaredStore, Sorted(undeclared.Keys - rows.Keys)) +
    Tagged(StaleRow, Sorted(rows.Keys - undeclared.Keys)) +
    Tagged(TableDrift, Sorted(Drifted(rows, undeclared)))
  }

  /** There is nothing to report exactly when the rows are the undeclared stores, tables included. */
  lemma NoDifference(rows: map<string, seq<string>>, undeclared: map<string, seq<string>>)
    ensures Differences(rows, undeclared) == [] <==> rows == undeclared
  {
    if Differences(rows, undeclared) == [] {
      forall m ensures m in rows <==> m in undeclared {
        assert m !in Sorted(undeclared.Keys - rows.Keys) && m !in Sorted(rows.Keys - undeclared.Keys);
        assert m !in undeclared.Keys - rows.Keys && m !in rows.Keys - undeclared.Keys;
      }
      forall m | m in rows ensures rows[m] == undeclared[m] { assert m !in Drifted(rows, undeclared); }
    }
  }

  /** The differences of each kind. */
  ghost predicate Differs(rows: map<string, seq<string>>, undeclared: map<string, seq<string>>, f: Finding) {
    match f.kind
    case UndeclaredStore => f.name in undeclared && f.name !in rows
    case StaleRow => f.name in rows && f.name !in undeclared
    case TableDrift => f.name in rows && f.name in undeclared && rows[f.name] != undeclared[f.name]
  }

  /** Missing rows come first, then stale ones, then changed ones. */
  function Rank(kind: Kind): nat { match kind case UndeclaredStore => 0 case StaleRow => 1 case TableDrift => 2 }

  lemma TaggedMembers(kind: Kind, names: seq<string>)
    ensures forall f: Finding :: f in Tagged(kind, names) <==> f.kind == kind && f.name in names
  {
    forall f: Finding | f.kind == kind && f.name in names ensures f in Tagged(kind, names) {
      var i :| 0 <= i < |names| && names[i] == f.name;
      assert Tagged(kind, names)[i] == f;
    }
  }

  lemma DriftedMembers(rows: map<string, seq<string>>, undeclared: map<string, seq<string>>, name: string)
    ensures name in Sorted(undeclared.Keys - rows.Keys) <==> name in undeclared && name !in rows
    ensures name in Sorted(rows.Keys - undeclared.Keys) <==> name in rows && name !in undeclared
    ensures name in Sorted(Drifted(rows, undeclared)) <==>
      name in rows && name in undeclared && rows[name] != undeclared[name]
  {
  }

  lemma DifferenceFound(rows: map<string, seq<string>>, undeclared: map<string, seq<string>>, f: Finding)
    ensures f in Differences(rows, undeclared) <==> Differs(rows, undeclared, f)
  {
    TaggedMembers(UndeclaredStore, Sorted(undeclared.Keys - rows.Keys));
    TaggedMembers(StaleRow, Sorted(rows.Keys - undeclared.Keys));
    TaggedMembers(TableDrift, Sorted(Drifted(rows, undeclared)));
    DriftedMembers(rows, undeclared, f.name);
  }

  ghost predicate FindingBefore(f: Finding, g: Finding) {
    Rank(f.kind) < Rank(g.kind) || (f.kind == g.kind && Less(f.name, g.name))
  }

  lemma TaggedInOrder(a: seq<string>, b: seq<string>, c: seq<string>, findings: seq<Finding>)
    requires Canonical(a) && Canonical(b) && Canonical(c)
    requires findings == Tagged(UndeclaredStore, a) + Tagged(StaleRow, b) + Tagged(TableDrift, c)
    ensures forall i, j :: 0 <= i < j < |findings| ==> FindingBefore(findings[i], findings[j])
  {
  }

  /** Each difference is found once, by kind and then by name. */
  lemma DifferencesExactly(rows: map<string, seq<string>>, undeclared: map<string, seq<string>>)
    ensures forall f: Finding :: f in Differences(rows, undeclared) <==> Differs(rows, undeclared, f)
    ensures forall i, j :: 0 <= i < j < |Differences(rows, undeclared)| ==>
      FindingBefore(Differences(rows, undeclared)[i], Differences(rows, undeclared)[j])
  {
    forall f: Finding ensures f in Differences(rows, undeclared) <==> Differs(rows, undeclared, f) {
      DifferenceFound(rows, undeclared, f);
    }
    TaggedInOrder(Sorted(undeclared.Keys - rows.Keys), Sorted(rows.Keys - undeclared.Keys),
                  Sorted(Drifted(rows, undeclared)), Differences(rows, undeclared));
  }

  /** Undeclared stores without a row, rows without an undeclared store, then rows whose tables changed, each sorted. */
  method CompareToBaseline(detected: map<string, seq<string>>, declared: set<string>, rows: map<string, seq<string>>)
    returns (findings: seq<Finding>)
    ensures findings == Differences(rows, UndeclaredRows(detected, declared))
    ensures findings == [] <==> rows == UndeclaredRows(detected, declared)
  {
    var undeclared := UndeclaredRows(detected, declared);
    var added := Sort(undeclared.Keys - rows.Keys);
    findings := Report([], UndeclaredStore, added);
    assert [] + Tagged(UndeclaredStore, added) == Tagged(UndeclaredStore, added);
    var stale := Sort(rows.Keys - undeclared.Keys);
    findings := Report(findings, StaleRow, stale);
    var drifted := Sort(Drifted(rows, undeclared));
    findings := Report(findings, TableDrift, drifted);
    NoDifference(rows, undeclared);
  }

  /** A row as read from the file: not a mapping, or a mapping whose fields are there when well typed. */
  datatype RawRow = NotAMapping | Row(name: Option<string>, tables: Option<seq<string>>)

  function Insert(r: seq<string>, x: string): seq<string> {
    if r != [] && Less(x, r[|r| - 1]) then Insert(r[..|r| - 1], x) + [r[|r| - 1]] else r + [x]
  }

  /** `sorted` of a list, repeats kept. */
  function SortedList(xs: seq<string>): seq<string> {
    if xs == [] then [] else Insert(SortedList(xs[..|xs| - 1]), xs[|xs| - 1])
  }

  lemma InsertLast(r: seq<string>, x: string)
    requires r == [] || Less(r[|r| - 1], x)
    ensures Insert(r, x) == r + [x]
  {
    if r != [] { LessAsymmetric(r[|r| - 1], x); }
  }

  lemma {:induction false} SortedAlready(xs: seq<string>)
    requires Canonical(xs)
    ensures SortedList(xs) == xs
  {
    if xs != [] {
      var n := |xs| - 1;
      SortedAlready(xs[..n]);
      InsertLast(xs[..n], xs[n]);
      assert xs[..n] + [xs[n]] == xs;
    }
  }

  predicate RowKept(before: map<string, seq<string>>, row: RawRow) {
    row.Row? && row.name.Some? && !Blank(row.name.value) && row.name.value !in before
  }

  function TablesOf(row: RawRow): seq<string>
    requires row.Row?
  {
    if row.tables.Some? then SortedList(row.tables.value) else []
  }

  ghost function RowsOf(raw: seq<RawRow>): map<string, seq<string>> {
    if raw == [] then map[] else
      var before, last := RowsOf(raw[..|raw| - 1]), raw[|raw| - 1];
      if RowKept(before, last) then before[last.name.value := TablesOf(last)] else before
  }

  datatype RowError =
    | RowNotAMapping(position: nat) | NameMissing(position: nat) | DuplicateRow(name: string)
    | BadTables(name: string)

  /** What is wrong with one row, given the rows kept before it. */
  function OwnErrors(before: map<string, seq<string>>, row: RawRow, position: nat): seq<RowError> {
    if row.NotAMapping? then [RowNotAMapping(position)]
    else if row.name.None? || Blank(row.name.value) then [NameMissing(position)]
    else if row.name.value in before then [DuplicateRow(row.name.value)]
    else if row.tables.None? then [BadTables(row.name.value)] else []
  }

  ghost function RowErrors(raw: seq<RawRow>): seq<RowError> {
    if raw == [] then [] else
      var n := |raw| - 1;
      RowErrors(raw[..n]) + OwnErrors(RowsOf(raw[..n]), raw[n], n)
  }

  ghost predicate RowsSound(raw: seq<RawRow>) { RowErrors(raw) == [] }

  method BaselineRows(raw: seq<RawRow>) returns (rows: map<string, seq<string>>, errors: seq<RowError>)
    ensures rows == RowsOf(raw) && errors == RowErrors(raw)
  {
    rows, errors := map[], [];
    for i := 0 to |raw|
      invariant rows == RowsOf(raw[..i]) && errors == RowErrors(raw[..i])
    {
      assert raw[..i + 1][..i] == raw[..i];
      var row := raw[i];
      if row.NotAMapping? {
        errors := errors + [RowNotAMapping(i)];
      } else if row.name.None? || Blank(row.name.value) {
        errors := errors + [NameMissing(i)];
      } else if row.name.value in rows {
        errors := errors + [DuplicateRow(row.name.value)];
      } else {
        if row.tables.None? { errors := errors + [BadTables(row.name.value)]; }
        rows := rows[row.name.value := TablesOf(row)];
      }
    }
    assert raw[..|raw|] == raw;
  }

  function Rendered(detected: map<string, seq<string>>, names: seq<string>): seq<RawRow>
    requires forall m :: m in names ==> m in detected
  {
    if names == [] then [] else
      var n := |names| - 1;
      Rendered(detected, names[..n]) + [Row(Some(names[n]), Some(detected[names[n]]))]
  }

  /** The row set `--update-baseline` writes. */
  method RenderRows(detected: map<string, seq<string>>, declared: set<string>) returns (raw: seq<RawRow>)
    ensures raw == Rendered(detected, Sorted(detected.Keys - declared))
  {
    var names := Sort(detected.Keys - declared);
    raw := Rendered(detected, names);
  }

  /** Detection gives named modules and sorted table names without repeats. */
  predicate WellDetected(detected: map<string, seq<string>>) {
    forall m :: m in detected ==> !Blank(m) && Canonical(detected[m])
  }

  ghost function Restricted(detected: map<string, seq<string>>, names: seq<string>): map<string, seq<string>> {
    map m | m in detected && m in names :: detected[m]
  }

  lemma RestrictedStep(detected: map<string, seq<string>>, names: seq<string>)
    requires names != [] && names[|names| - 1] in detected
    ensures var last := names[|names| - 1];
      Restricted(detected, names) == Restricted(detected, names[..|names| - 1])[last := detected[last]]
  {
    var n := |names| - 1;
    assert names == names[..n] + [names[n]];
  }

  lemma RestrictedIsUndeclared(detected: map<string, seq<string>>, declared: set<string>, names: seq<string>)
    requires forall m :: m in names <==> m in detected.Keys - declared
    ensures Restricted(detected, names) == UndeclaredRows(detected, declared)
  {
    forall m ensures m in Restricted(detected, names) <==> m in UndeclaredRows(detected, declared) {
      assert m in names <==> m in detected.Keys - declared;
    }
  }

  /** One more row with a new name and sorted tables is kept as it stands. */
  lemma RowAdded(raw: seq<RawRow>, name: string, tables: seq<string>)
    requires !Blank(name) && Canonical(tables) && name !in RowsOf(raw) && RowsSound(raw)
    ensures RowsOf(raw + [Row(Some(name), Some(tables))]) == RowsOf(raw)[name := tables]
    ensures RowsSound(raw + [Row(Some(name), Some(tables))])
  {
    SortedAlready(tables);
    assert (raw + [Row(Some(name), Some(tables))])[..|raw|] == raw;
  }

  lemma {:induction false} RenderedRead(detected: map<string, seq<string>>, names: seq<string>)
    requires WellDetected(detected) && Distinct(names) && forall m :: m in names ==> m in detected
    ensures RowsOf(Rendered(detected, names)) == Restricted(detected, names)
    ensures RowsSound(Rendered(detected, names))
  {
    if names != [] {
      var n := |names| - 1;
      RenderedRead(detected, names[..n]);
      RowAdded(Rendered(detected, names[..n]), names[n], detected[names[n]]);
      RestrictedStep(detected, names);
    }
  }

  /** Rendering the undeclared stores and reading the rows back gives them unchanged. */
  lemma RenderRoundTrip(detected: map<string, seq<string>>, declared: set<string>)
    requires WellDetected(detected)
    ensures RowsOf(Rendered(detected, Sorted(detected.Keys - declared))) == UndeclaredRows(detected, declared)
    ensures RowsSound(Rendered(detected, Sorted(detected.Keys - declared)))
  {
    var names := Sorted(detected.Keys - declared);
    CanonicalDistinct(names);
    RenderedRead(detected, names);
    RestrictedIsUndeclared(detected, declared, names);
  }

  // ---------------------------------------------------------------- regeneration

  ghost predicate OwnerNamed(declarations: seq<Declaration>, m: string) {
    exists d :: d in declarations && d.ownerModule == Some(m)
  }

  ghost predicate CompanionTaken(tree: Tree, declarations: seq<Declaration>, m: string) {
    exists d :: d in declarations && CompanionsValid(d) && m in d.companions.value && Claimable(tree, m)
  }

  ghost predicate Counted(tree: Tree, declarations: seq<Declaration>, m: string) {
    OwnerNamed(declarations, m) || CompanionTaken(tree, declarations, m)
  }

  /** `_declared_modules_for_baseline`: every owner module that is a string, resolved or not, and usable companions. */
  method DeclaredForBaseline(tree: Tree, declarations: seq<Declaration>) returns (declared: set<string>)
    ensures forall m :: m in declared <==> Counted(tree, declarations, m)
  {
    declared := set d | d in declarations && d.ownerModule.Some? :: d.ownerModule.value;
    assert forall m :: m in declared ==> exists d :: d in declarations && d.ownerModule == Some(m);
    for i := 0 to |declarations|
      invariant forall m :: m in declared <==> OwnerNamed(declarations, m) || CompanionTaken(tree, declarations[..i], m)
    {
      assert declarations[..i + 1] == declarations[..i] + [declarations[i]];
      var companions := ValidCompanions(declarations[i]);
      if companions.Some? {
        var usable := set c | c in companions.value && c in tree.sources && c in tree.detected;
        declared := declared + usable;
      }
    }
    assert declarations[..|declarations|] == declarations;
  }

  /** Every owner module that creates tables is really claimed, by its own declaration or another. */
  predicate OwnersClaimed(tree: Tree, declarations: seq<Declaration>) {
    forall d :: d in declarations && d.ownerModule.Some? && d.ownerModule.value in tree.detected ==>
      exists e :: e in declarations && Takes(tree, e, d.ownerModule.value)
  }

  lemma TakenIsCounted(tree: Tree, declarations: seq<Declaration>, m: string)
    ensures m in Elements(Attempts(tree, declarations)) <==> exists e :: e in declarations && Takes(tree, e, m)
    ensures m in Elements(Attempts(tree, declarations)) ==> Counted(tree, declarations, m)
    ensures CompanionTaken(tree, declarations, m) ==> m in Elements(Attempts(tree, declarations))
  {
    DeclaredMeans(tree, declarations, m);
    if d :| d in declarations && CompanionsValid(d) && m in d.companions.value && Claimable(tree, m) {
      assert Takes(tree, d, m);
    }
  }

  lemma SameLeftOut(tree: Tree, declarations: seq<Declaration>, forBaseline: set<string>, declared: set<string>)
    requires forall m :: m in forBaseline <==> Counted(tree, declarations, m)
    requires declared == Elements(Attempts(tree, declarations))
    ensures UndeclaredRows(tree.detected, forBaseline) == UndeclaredRows(tree.detected, declared) <==>
      OwnersClaimed(tree, declarations)
  {
    var written, expected := UndeclaredRows(tree.detected, forBaseline), UndeclaredRows(tree.detected, declared);
    if written == expected {
      forall d | d in declarations && d.ownerModule.Some? && d.ownerModule.value in tree.detected
        ensures exists e :: e in declarations && Takes(tree, e, d.ownerModule.value)
      {
        var m := d.ownerModule.value;
        assert Counted(tree, declarations, m);
        assert m !in written && m !in expected;
        TakenIsCounted(tree, declarations, m);
      }
    }
    if OwnersClaimed(tree, declarations) {
      forall m | m in tree.detected ensures m in written <==> m in expected { TakenIsCounted(tree, declarations, m); }
    }
  }

  /** A regenerated baseline passes the comparison exactly when every declared owner that creates tables is
      claimed: the baseline leaves out every named owner, the check only the resolved ones. */
  lemma RegeneratedIsClean(tree: Tree, declarations: seq<Declaration>, forBaseline: set<string>)
    requires WellDetected(tree.detected)
    requires forall m :: m in forBaseline <==> Counted(tree, declarations, m)
    ensures RowsOf(Rendered(tree.detected, Sorted(tree.detected.Keys - forBaseline))) ==
            UndeclaredRows(tree.detected, Elements(Attempts(tree, declarations)))
            <==> OwnersClaimed(tree, declarations)
  {
    RenderRoundTrip(tree.detected, forBaseline);
    SameLeftOut(tree, declarations, forBaseline, Elements(Attempts(tree, declarations)));
  }

  lemma {:induction false} NoneUnresolved(tree: Tree, declarations: seq<Declaration>)
    ensures UnresolvedCount(tree, declarations) == 0 <==> forall d :: d in declarations ==> !Unresolved(tree, d)
  {
    if declarations != [] {
      var n := |declarations| - 1;
      NoneUnresolved(tree, declarations[..n]);
      assert declarations == declarations[..n] + [declarations[n]];
    }
  }

  /** With no unresolved owner and an owner symbol in every declaration, regeneration leaves nothing to report. */
  lemma NoErrorsThenClean(tree: Tree, declarations: seq<Declaration>)
    requires UnresolvedCount(tree, declarations) == 0
    requires forall d :: d in declarations && d.ownerModule.Some? ==> d.ownerSymbol.Some?
    ensures OwnersClaimed(tree, declarations)
  {
    NoneUnresolved(tree, declarations);
    forall d | d in declarations && d.ownerModule.Some? && d.ownerModule.value in tree.detected
      ensures exists e :: e in declarations && Takes(tree, e, d.ownerModule.value)
    {
      assert !Unresolved(tree, d);
      assert Takes(tree, d, d.ownerModule.value);
    }
  }

  /** A declaration whose owner symbol is gone: the regenerated baseline has no row, the check reports it. */
  lemma UnresolvedOwnerReported()
    ensures var d := Declaration(Some("a"), None, Some("m"), Some("Gone"), Some([]));
      var tree := Tree(map["m" := {}], {"m"}, map["m" := ["t"]]);
      Counted(tree, [d], "m") && "m" in UndeclaredRows(tree.detected, Elements(Attempts(tree, [d]))) &&
        !OwnersClaimed(tree, [d])
  {
    var d := Declaration(Some("a"), None, Some("m"), Some("Gone"), Some([]));
    var tree := Tree(map["m" := {}], {"m"}, map["m" := ["t"]]);
    assert d in [d] && d.ownerModule == Some("m");
    TakenIsCounted(tree, [d], "m");
    assert !Takes(tree, d, "m");
    assert forall e :: e in [d] ==> e == d;
  }
}
