/** Lists that together run a collection exactly once. */
module Collections {
  import opened Ordering

  /** All elements of all lists, with multiplicity. */
  ghost function AllOf(lists: seq<seq<string>>): multiset<string> {
    if lists == [] then multiset{} else AllOf(lists[..|lists| - 1]) + multiset(lists[|lists| - 1])
  }

  ghost function TotalLength(lists: seq<seq<string>>): nat {
    if lists == [] then 0 else TotalLength(lists[..|lists| - 1]) + |lists[|lists| - 1]|
  }

  ghost predicate NoRepeats(lists: seq<seq<string>>) { forall i :: 0 <= i < |lists| ==> Distinct(lists[i]) }

  ghost predicate Disjoint(lists: seq<seq<string>>) {
    forall i, j, x :: 0 <= i < j < |lists| && x in lists[i] ==> x !in lists[j]
  }

  ghost predicate InSome(lists: seq<seq<string>>, x: string) { exists i :: 0 <= i < |lists| && x in lists[i] }

  ghost predicate Covers(lists: seq<seq<string>>, collection: seq<string>) {
    forall x :: InSome(lists, x) <==> x in collection
  }

  lemma {:induction false} CountAtMostOnce<T>(xs: seq<T>)
    requires forall x :: multiset(xs)[x] <= 1
    ensures Distinct(xs)
  {
    forall i, j | 0 <= i < j < |xs| ensures xs[i] != xs[j] {
      assert xs == xs[..j] + xs[j..];
      assert xs[i] == xs[..j][i];
      assert xs[j] == xs[j..][0];
      assert multiset(xs) == multiset(xs[..j]) + multiset(xs[j..]);
      assert xs[i] in multiset(xs[..j]) && xs[j] in multiset(xs[j..]);
      assert multiset(xs)[xs[j]] == multiset(xs[..j])[xs[j]] + multiset(xs[j..])[xs[j]];
    }
  }

  lemma InSomeStep(lists: seq<seq<string>>, x: string)
    requires lists != []
    ensures InSome(lists, x) <==> InSome(lists[..|lists| - 1], x) || x in lists[|lists| - 1]
  {
    var rest := lists[..|lists| - 1];
    if i :| 0 <= i < |rest| && x in rest[i] { assert x in lists[i]; }
    if i :| 0 <= i < |lists| && x in lists[i] {
      if i < |rest| { assert x in rest[i]; }
    }
  }

  ghost predicate Avoids(xs: seq<string>, lists: seq<seq<string>>) { forall x :: x in xs ==> !InSome(lists, x) }

  lemma DisjointStep(lists: seq<seq<string>>)
    requires lists != []
    ensures NoRepeats(lists) <==> NoRepeats(lists[..|lists| - 1]) && Distinct(lists[|lists| - 1])
    ensures Disjoint(lists) <==>
      Disjoint(lists[..|lists| - 1]) && Avoids(lists[|lists| - 1], lists[..|lists| - 1])
  {
    var rest, last := lists[..|lists| - 1], lists[|lists| - 1];
    if Disjoint(lists) {
      forall i, j, x | 0 <= i < j < |rest| && x in rest[i] ensures x !in rest[j] { assert x in lists[i]; }
      forall i, x | 0 <= i < |rest| && x in last ensures x !in rest[i] { assert rest[i] == lists[i]; }
    }
    if Disjoint(rest) && Avoids(last, rest) {
      forall i, j, x | 0 <= i < j < |lists| && x in lists[i] ensures x !in lists[j] {
        assert x in rest[i];
        if j < |rest| { assert lists[j] == rest[j]; } else { assert InSome(rest, x); }
      }
    }
    if NoRepeats(lists) {
      forall i | 0 <= i < |rest| ensures Distinct(rest[i]) { assert rest[i] == lists[i]; }
    }
  }

  lemma {:induction false} CountIn(lists: seq<seq<string>>, x: string)
    requires NoRepeats(lists) && Disjoint(lists)
    ensures AllOf(lists)[x] == if InSome(lists, x) then 1 else 0
  {
    if lists != [] {
      DisjointStep(lists);
      CountIn(lists[..|lists| - 1], x);
      DistinctOnce(lists[|lists| - 1], x);
      InSomeStep(lists, x);
    }
  }

  lemma {:induction false} ListWithin(lists: seq<seq<string>>, i: nat)
    requires i < |lists|
    ensures multiset(lists[i]) <= AllOf(lists)
  {
    if i < |lists| - 1 { ListWithin(lists[..|lists| - 1], i); }
  }

  lemma {:induction false} TwoWithin(lists: seq<seq<string>>, i: nat, j: nat)
    requires i < j < |lists|
    ensures multiset(lists[i]) + multiset(lists[j]) <= AllOf(lists)
  {
    if j < |lists| - 1 { TwoWithin(lists[..|lists| - 1], i, j); } else { ListWithin(lists[..|lists| - 1], i); }
  }

  lemma {:induction false} InAll(lists: seq<seq<string>>, x: string)
    ensures x in AllOf(lists) <==> InSome(lists, x)
  {
    if lists != [] {
      InAll(lists[..|lists| - 1], x);
      InSomeStep(lists, x);
    }
  }

  lemma OnceImplies(lists: seq<seq<string>>, collection: seq<string>)
    requires Distinct(collection) && AllOf(lists) == multiset(collection)
    ensures NoRepeats(lists) && Disjoint(lists) && Covers(lists, collection)
  {
    forall x ensures AllOf(lists)[x] <= 1 { DistinctOnce(collection, x); }
    forall i | 0 <= i < |lists| ensures Distinct(lists[i]) {
      ListWithin(lists, i);
      CountAtMostOnce(lists[i]);
    }
    forall i, j, x | 0 <= i < j < |lists| && x in lists[i] ensures x !in lists[j] {
      TwoWithin(lists, i, j);
      assert multiset(lists[i])[x] >= 1;
      assert (multiset(lists[i]) + multiset(lists[j]))[x] <= 1;
    }
    forall x ensures InSome(lists, x) <==> x in collection {
      InAll(lists, x);
      assert x in collection <==> x in multiset(collection);
    }
  }

  /** Lists without repeats that share nothing and cover a collection are exactly those that hold
      each of its elements once. */
  lemma PartitionIff(lists: seq<seq<string>>, collection: seq<string>)
    requires Distinct(collection)
    ensures NoRepeats(lists) && Disjoint(lists) && Covers(lists, collection) <==> AllOf(lists) == multiset(collection)
  {
    if NoRepeats(lists) && Disjoint(lists) && Covers(lists, collection) {
      forall x ensures AllOf(lists)[x] == multiset(collection)[x] {
        CountIn(lists, x);
        DistinctOnce(collection, x);
      }
    }
    if AllOf(lists) == multiset(collection) { OnceImplies(lists, collection); }
  }

  lemma {:induction false} LengthIsSize(lists: seq<seq<string>>)
    ensures |AllOf(lists)| == TotalLength(lists)
  {
    if lists != [] { LengthIsSize(lists[..|lists| - 1]); }
  }

  // ---------------------------------------------------------------- the same, one list at a time

  ghost function UnionOf(lists: seq<seq<string>>): set<string> {
    if lists == [] then {} else UnionOf(lists[..|lists| - 1]) + Elements(lists[|lists| - 1])
  }

  /** Each list has no repeat and nothing of the lists before it. */
  ghost predicate OnceOnly(lists: seq<seq<string>>) {
    lists == [] ||
    (OnceOnly(lists[..|lists| - 1]) && Distinct(lists[|lists| - 1]) &&
     UnionOf(lists[..|lists| - 1]) * Elements(lists[|lists| - 1]) == {})
  }

  lemma {:induction false} UnionIsSome(lists: seq<seq<string>>, x: string)
    ensures x in UnionOf(lists) <==> InSome(lists, x)
  {
    if lists != [] {
      UnionIsSome(lists[..|lists| - 1], x);
      InSomeStep(lists, x);
    }
  }

  lemma {:induction false} OnceOnlyIff(lists: seq<seq<string>>)
    ensures OnceOnly(lists) <==> NoRepeats(lists) && Disjoint(lists)
  {
    if lists != [] {
      var rest, last := lists[..|lists| - 1], lists[|lists| - 1];
      OnceOnlyIff(rest);
      DisjointStep(lists);
      forall x ensures x in UnionOf(rest) <==> InSome(rest, x) { UnionIsSome(rest, x); }
      assert UnionOf(rest) * Elements(last) == {} <==> Avoids(last, rest) by {
        forall x | x in last && InSome(rest, x) ensures x in UnionOf(rest) * Elements(last) { }
      }
    }
  }

  lemma {:induction false} OncePrefix(lists: seq<seq<string>>, k: nat)
    requires k <= |lists| && OnceOnly(lists)
    ensures OnceOnly(lists[..k])
  {
    if k < |lists| {
      OncePrefix(lists[..|lists| - 1], k);
      assert lists[..|lists| - 1][..k] == lists[..k];
    } else {
      assert lists[..k] == lists;
    }
  }

  lemma CoversUnion(lists: seq<seq<string>>, collection: seq<string>)
    ensures Covers(lists, collection) <==> UnionOf(lists) == Elements(collection)
  {
    forall x ensures x in UnionOf(lists) <==> InSome(lists, x) { UnionIsSome(lists, x); }
    forall x ensures x in Elements(collection) <==> x in collection { }
  }
}
