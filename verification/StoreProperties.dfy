/** What the store registry claims and counts, declaration by declaration. */
module StoreProperties {
  import opened Wrappers
  import opened Ordering
  import opened StoreRegistry

  /** White space as far as the registry is concerned. */
  lemma BlankExactly(s: string)
    ensures Blank(s) <==> forall i :: 0 <= i < |s| ==> s[i] as int in {9, 10, 13, 32}
  {
    if Blank(s) {
      forall i | 0 <= i < |s| ensures s[i] as int in {9, 10, 13, 32} { assert s[i] in " \t\n\r"; }
    }
    if forall i :: 0 <= i < |s| ==> s[i] as int in {9, 10, 13, 32} {
      forall c | c in s ensures c in " \t\n\r" {
        var i :| 0 <= i < |s| && s[i] == c;
        var k := if c as int == 32 then 0 else if c as int == 9 then 1 else if c as int == 10 then 2 else 3;
        assert " \t\n\r"[k] == c;
      }
    }
  }

  /** The declaration names a module that has its symbol. */
  predicate OwnsAt(tree: Tree, d: Declaration, m: string) {
    d.ownerModule == Some(m) && d.ownerSymbol.Some? && m in tree.symbols && d.ownerSymbol.value in tree.symbols[m]
  }

  /** The declaration's companions are distinct names that are not blank and not its owner. */
  predicate Companionable(d: Declaration) {
    && d.companions.Some?
    && (forall i :: 0 <= i < |d.companions.value| ==> !Blank(d.companions.value[i]))
    && (forall i, j :: 0 <= i < j < |d.companions.value| ==> d.companions.value[i] != d.companions.value[j])
    && forall i :: 0 <= i < |d.companions.value| ==> Some(d.companions.value[i]) != d.ownerModule
  }

  /** The declaration names `m` as a companion, and `m` is a tracked source that creates tables. */
  predicate AccompaniesAt(tree: Tree, d: Declaration, m: string) {
    Companionable(d) && m in d.companions.value && m in tree.sources && m in tree.detected
  }

  lemma CompanionableMeans(d: Declaration)
    ensures CompanionsValid(d) <==> Companionable(d)
  {
    if d.companions.Some? {
      forall c ensures c in d.companions.value <==>
        exists i :: 0 <= i < |d.companions.value| && d.companions.value[i] == c { }
    }
  }

  /** The declarations that own `m`, and those it accompanies. */
  function Owners(tree: Tree, declarations: seq<Declaration>, m: string): set<nat> {
    set i: nat | i < |declarations| && OwnsAt(tree, declarations[i], m)
  }

  function Accompanied(tree: Tree, declarations: seq<Declaration>, m: string): set<nat> {
    set i: nat | i < |declarations| && AccompaniesAt(tree, declarations[i], m)
  }

  lemma {:induction false} UsableCount(tree: Tree, companions: seq<string>, m: string)
    ensures multiset(Usable(tree, companions))[m] ==
      if m in tree.sources && m in tree.detected then multiset(companions)[m] else 0
  {
    if companions != [] {
      UsableCount(tree, companions[..|companions| - 1], m);
      assert companions == companions[..|companions| - 1] + [companions[|companions| - 1]];
    }
  }

  lemma ClaimsCount(tree: Tree, d: Declaration, m: string)
    ensures multiset(Claims(tree, d))[m] ==
      (if OwnsAt(tree, d, m) then 1 else 0) + if AccompaniesAt(tree, d, m) then 1 else 0
  {
    CompanionableMeans(d);
    if CompanionsValid(d) {
      UsableCount(tree, d.companions.value, m);
      DistinctOnce(d.companions.value, m);
    }
  }

  lemma OneMoreOwner(tree: Tree, declarations: seq<Declaration>, m: string)
    requires declarations != []
    ensures |Owners(tree, declarations, m)| == |Owners(tree, declarations[..|declarations| - 1], m)| +
      if OwnsAt(tree, declarations[|declarations| - 1], m) then 1 else 0
  {
    var n := |declarations| - 1;
    assert Owners(tree, declarations, m) ==
      Owners(tree, declarations[..n], m) + if OwnsAt(tree, declarations[n], m) then {n} else {};
  }

  lemma OneMoreAccompanied(tree: Tree, declarations: seq<Declaration>, m: string)
    requires declarations != []
    ensures |Accompanied(tree, declarations, m)| == |Accompanied(tree, declarations[..|declarations| - 1], m)| +
      if AccompaniesAt(tree, declarations[|declarations| - 1], m) then 1 else 0
  {
    var n := |declarations| - 1;
    assert Accompanied(tree, declarations, m) ==
      Accompanied(tree, declarations[..n], m) + if AccompaniesAt(tree, declarations[n], m) then {n} else {};
  }

  lemma OneMoreAttempt(tree: Tree, declarations: seq<Declaration>, m: string)
    requires declarations != []
    ensures var n := |declarations| - 1;
      multiset(Attempts(tree, declarations))[m] ==
      multiset(Attempts(tree, declarations[..n]))[m] + multiset(Claims(tree, declarations[n]))[m]
  {
    var n := |declarations| - 1;
    assert Attempts(tree, declarations) == Attempts(tree, declarations[..n]) + Claims(tree, declarations[n]);
  }

  /** A module is claimed once by each declaration that owns it and once by each that it accompanies. */
  lemma {:induction false} ClaimedExactly(tree: Tree, declarations: seq<Declaration>, m: string)
    ensures multiset(Attempts(tree, declarations))[m] ==
      |Owners(tree, declarations, m)| + |Accompanied(tree, declarations, m)|
  {
    if declarations == [] {
      assert Owners(tree, declarations, m) == {} && Accompanied(tree, declarations, m) == {};
    } else {
      var n := |declarations| - 1;
      ClaimedExactly(tree, declarations[..n], m);
      ClaimsCount(tree, declarations[n], m);
      OneMoreOwner(tree, declarations, m);
      OneMoreAccompanied(tree, declarations, m);
      OneMoreAttempt(tree, declarations, m);
    }
  }

  /** The declarations whose owner and symbol are given and do not resolve. */
  function Missing(tree: Tree, declarations: seq<Declaration>): set<nat> {
    set i: nat | i < |declarations| && declarations[i].ownerModule.Some? && declarations[i].ownerSymbol.Some? &&
      !OwnsAt(tree, declarations[i], declarations[i].ownerModule.value)
  }

  /** Each of them is one error. */
  lemma {:induction false} UnresolvedExactly(tree: Tree, declarations: seq<Declaration>)
    ensures UnresolvedCount(tree, declarations) == |Missing(tree, declarations)|
  {
    if declarations == [] {
      assert Missing(tree, declarations) == {};
    } else {
      var n := |declarations| - 1;
      UnresolvedExactly(tree, declarations[..n]);
      assert Missing(tree, declarations) ==
        Missing(tree, declarations[..n]) + if Unresolved(tree, declarations[n]) then {n} else {};
    }
  }

  /** The places of companions that are no tracked source or create no table. */
  function Untracked(tree: Tree, companions: seq<string>): set<nat> {
    set j: nat | j < |companions| && (companions[j] !in tree.sources || companions[j] !in tree.detected)
  }

  lemma {:induction false} UntrackedExactly(tree: Tree, companions: seq<string>)
    ensures |companions| - |Usable(tree, companions)| == |Untracked(tree, companions)|
  {
    if companions == [] {
      assert Untracked(tree, companions) == {};
    } else {
      var n := |companions| - 1;
      UntrackedExactly(tree, companions[..n]);
      assert Untracked(tree, companions) ==
        Untracked(tree, companions[..n]) + if Claimable(tree, companions[n]) then {} else {n};
    }
  }

  /** Each of a declaration's usable companions that is untracked is one error; malformed companions are none here. */
  lemma UnusableExactly(tree: Tree, d: Declaration)
    ensures Unusable(tree, d) == if Companionable(d) then |Untracked(tree, d.companions.value)| else 0
  {
    CompanionableMeans(d);
    if CompanionsValid(d) { UntrackedExactly(tree, d.companions.value); }
  }

  /** The declarations together have the errors of each. */
  lemma UnusableAdds(tree: Tree, declarations: seq<Declaration>, d: Declaration)
    ensures UnusableCount(tree, []) == 0
    ensures UnusableCount(tree, declarations + [d]) == UnusableCount(tree, declarations) +
      if Companionable(d) then |Untracked(tree, d.companions.value)| else 0
  {
    assert (declarations + [d])[..|declarations|] == declarations;
    UnusableExactly(tree, d);
  }

  /** Where a name is given. */
  function GivenAt(names: seq<Option<string>>, m: string): set<nat> { set i: nat | i < |names| && names[i] == Some(m) }

  lemma GivenStep(names: seq<Option<string>>, m: string)
    requires names != []
    ensures var n := |names| - 1;
      |GivenAt(names, m)| == |GivenAt(names[..n], m)| + if names[n] == Some(m) then 1 else 0
  {
    var n := |names| - 1;
    assert GivenAt(names, m) == GivenAt(names[..n], m) + if names[n] == Some(m) then {n} else {};
  }

  lemma NamedOnce(names: seq<Option<string>>, m: string)
    requires names != []
    ensures var n := |names| - 1;
      multiset(AllNamed(names))[m] ==
      multiset(AllNamed(names[..n]))[m] + if names[n] == Some(m) && !Blank(m) then 1 else 0
  {
    assert AllNamed(names) == AllNamed(names[..|names| - 1]) + Named(names[|names| - 1]);
  }

  /** A name that is not blank counts once wherever it is given, and a blank one never. */
  lemma {:induction false} NamedExactly(names: seq<Option<string>>, m: string)
    ensures multiset(AllNamed(names))[m] == if Blank(m) then 0 else |GivenAt(names, m)|
  {
    if names == [] {
      assert GivenAt(names, m) == {};
    } else {
      var n := |names| - 1;
      NamedExactly(names[..n], m);
      GivenStep(names, m);
      NamedOnce(names, m);
    }
  }

  // ---------------------------------------------------------------- baseline rows

  predicate NamedRow(row: RawRow, m: string) { row.Row? && row.name == Some(m) }

  /** Row `i` is the first with this name. */
  ghost predicate FirstNamed(raw: seq<RawRow>, m: string, i: nat) {
    i < |raw| && NamedRow(raw[i], m) && forall j :: 0 <= j < i ==> !NamedRow(raw[j], m)
  }

  ghost predicate SomeNamed(raw: seq<RawRow>, m: string) { exists i: nat :: i < |raw| && NamedRow(raw[i], m) }

  lemma SomeStep(raw: seq<RawRow>, m: string)
    requires raw != []
    ensures var n := |raw| - 1; SomeNamed(raw, m) <==> SomeNamed(raw[..n], m) || NamedRow(raw[n], m)
  {
    var n := |raw| - 1;
    if SomeNamed(raw[..n], m) {
      var i: nat :| i < n && NamedRow(raw[..n][i], m);
      assert NamedRow(raw[i], m);
    }
    if SomeNamed(raw, m) {
      var i: nat :| i < |raw| && NamedRow(raw[i], m);
      if i < n { assert NamedRow(raw[..n][i], m); }
    }
  }

  /** The rows kept are, by name, the first of each name that is not blank. */
  lemma {:induction false} RowsExactly(raw: seq<RawRow>, m: string)
    ensures m in RowsOf(raw) <==> !Blank(m) && SomeNamed(raw, m)
    ensures m in RowsOf(raw) ==> forall i: nat :: FirstNamed(raw, m, i) ==> RowsOf(raw)[m] == TablesOf(raw[i])
  {
    if raw != [] {
      var n := |raw| - 1;
      RowsExactly(raw[..n], m);
      SomeStep(raw, m);
      forall i | 0 <= i < n ensures raw[..n][i] == raw[i] { }
      if m in RowsOf(raw) {
        forall i: nat | FirstNamed(raw, m, i) ensures RowsOf(raw)[m] == TablesOf(raw[i]) {
          if i < n {
            assert FirstNamed(raw[..n], m, i) && m in RowsOf(raw[..n]);
          } else {
            assert m !in RowsOf(raw[..n]);
          }
        }
      }
    }
  }

  /** What is wrong with the rows, each by its place or name. */
  lemma {:induction false} RowErrorsExactly(raw: seq<RawRow>, k: nat)
    ensures RowNotAMapping(k) in RowErrors(raw) <==> k < |raw| && raw[k].NotAMapping?
    ensures NameMissing(k) in RowErrors(raw) <==>
      k < |raw| && raw[k].Row? && (raw[k].name.None? || Blank(raw[k].name.value))
  {
    if raw != [] { RowErrorsExactly(raw[..|raw| - 1], k); }
  }

  ghost predicate TwiceNamed(raw: seq<RawRow>, m: string) {
    exists i: nat, j: nat :: i < j < |raw| && NamedRow(raw[i], m) && NamedRow(raw[j], m)
  }

  /** The first row of that name has no list of strings for its tables. */
  ghost predicate FirstUnlisted(raw: seq<RawRow>, m: string) {
    exists i: nat :: FirstNamed(raw, m, i) && raw[i].tables.None?
  }

  lemma TwiceStep(raw: seq<RawRow>, row: RawRow, m: string)
    ensures TwiceNamed(raw + [row], m) <==> TwiceNamed(raw, m) || (NamedRow(row, m) && SomeNamed(raw, m))
  {
    var more := raw + [row];
    if TwiceNamed(more, m) {
      var i: nat, j: nat :| i < j < |more| && NamedRow(more[i], m) && NamedRow(more[j], m);
      assert NamedRow(raw[i], m);
      if j < |raw| { assert NamedRow(raw[j], m); }
    }
    if TwiceNamed(raw, m) {
      var i: nat, j: nat :| i < j < |raw| && NamedRow(raw[i], m) && NamedRow(raw[j], m);
      assert NamedRow(more[i], m) && NamedRow(more[j], m);
    }
    if NamedRow(row, m) && SomeNamed(raw, m) {
      var i: nat :| i < |raw| && NamedRow(raw[i], m);
      assert NamedRow(more[i], m) && NamedRow(more[|raw|], m);
    }
  }

  lemma UnlistedStep(raw: seq<RawRow>, row: RawRow, m: string)
    ensures FirstUnlisted(raw + [row], m) <==>
      FirstUnlisted(raw, m) || (NamedRow(row, m) && row.tables.None? && !SomeNamed(raw, m))
  {
    var more := raw + [row];
    assert more[|raw|] == row && forall j :: 0 <= j < |raw| ==> more[j] == raw[j];
    if FirstUnlisted(more, m) {
      var i: nat :| FirstNamed(more, m, i) && more[i].tables.None?;
      if i < |raw| { assert FirstNamed(raw, m, i); }
    }
    if FirstUnlisted(raw, m) {
      var i: nat :| FirstNamed(raw, m, i) && raw[i].tables.None?;
      assert FirstNamed(more, m, i);
    }
    if NamedRow(row, m) && row.tables.None? && !SomeNamed(raw, m) { assert FirstNamed(more, m, |raw|); }
  }

  /** What the last row adds about a name. */
  lemma OwnNameErrors(before: map<string, seq<string>>, row: RawRow, n: nat, m: string)
    ensures DuplicateRow(m) in OwnErrors(before, row, n) <==> NamedRow(row, m) && !Blank(m) && m in before
    ensures BadTables(m) in OwnErrors(before, row, n) <==>
      NamedRow(row, m) && !Blank(m) && m !in before && row.tables.None?
  {
  }

  lemma {:induction false} NameErrorsExactly(raw: seq<RawRow>, m: string)
    ensures DuplicateRow(m) in RowErrors(raw) <==> !Blank(m) && TwiceNamed(raw, m)
    ensures BadTables(m) in RowErrors(raw) <==> !Blank(m) && FirstUnlisted(raw, m)
  {
    if raw != [] {
      var n := |raw| - 1;
      NameErrorsExactly(raw[..n], m);
      RowsExactly(raw[..n], m);
      OwnNameErrors(RowsOf(raw[..n]), raw[n], n, m);
      assert raw == raw[..n] + [raw[n]];
      TwiceStep(raw[..n], raw[n], m);
      UnlistedStep(raw[..n], raw[n], m);
    }
  }

  /** In order, with repeats allowed. */
  ghost predicate Ascending(r: seq<string>) { forall i, j :: 0 <= i < j < |r| ==> !Less(r[j], r[i]) }

  lemma AscendingMore(r: seq<string>, x: string)
    requires Ascending(r) && forall i :: 0 <= i < |r| ==> !Less(x, r[i])
    ensures Ascending(r + [x])
  {
  }

  lemma AboveAll(r: seq<string>, x: string)
    requires Ascending(r) && r != [] && !Less(x, r[|r| - 1])
    ensures forall i :: 0 <= i < |r| ==> !Less(x, r[i])
  {
    var n := |r| - 1;
    forall i | 0 <= i < |r| ensures !Less(x, r[i]) {
      if Less(x, r[i]) && i < n {
        assert !Less(r[n], r[i]);
        LessTotal(r[i], r[n]);
        if Less(r[i], r[n]) { LessTransitive(x, r[i], r[n]); }
      }
    }
  }

  lemma BelowLast(r: seq<string>, x: string, rest: seq<string>)
    requires Ascending(r) && r != [] && Less(x, r[|r| - 1])
    requires multiset(rest) == multiset(r[..|r| - 1]) + multiset{x}
    ensures forall i :: 0 <= i < |rest| ==> !Less(r[|r| - 1], rest[i])
  {
    forall i | 0 <= i < |rest| ensures !Less(r[|r| - 1], rest[i]) {
      assert rest[i] in multiset(rest);
      if rest[i] == x {
        LessAsymmetric(x, r[|r| - 1]);
      } else {
        assert rest[i] in r[..|r| - 1];
      }
    }
  }

  lemma {:induction false} InsertSorts(r: seq<string>, x: string)
    requires Ascending(r)
    ensures multiset(Insert(r, x)) == multiset(r) + multiset{x} && Ascending(Insert(r, x))
  {
    if r != [] {
      var n := |r| - 1;
      assert r == r[..n] + [r[n]];
      if Less(x, r[n]) {
        InsertSorts(r[..n], x);
        BelowLast(r, x, Insert(r[..n], x));
        AscendingMore(Insert(r[..n], x), r[n]);
      } else {
        AboveAll(r, x);
        AscendingMore(r, x);
      }
    }
  }

  /** Table names are sorted, each as often as it is listed. */
  lemma {:induction false} SortedListSorts(xs: seq<string>)
    ensures multiset(SortedList(xs)) == multiset(xs) && Ascending(SortedList(xs))
  {
    if xs != [] {
      var n := |xs| - 1;
      SortedListSorts(xs[..n]);
      assert xs == xs[..n] + [xs[n]];
      InsertSorts(SortedList(xs[..n]), xs[n]);
    }
  }
}
