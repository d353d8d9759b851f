/** Python's string order, sorting by a key and sums over finite sets. */
module Ordering {
  /** `a < b` for Python strings: code point by code point. */
  predicate Less(a: string, b: string) {
    b != [] && (a == [] || a[0] < b[0] || (a[0] == b[0] && Less(a[1..], b[1..])))
  }

  lemma {:induction false} LessAsymmetric(a: string, b: string)
    ensures Less(a, b) ==> !Less(b, a) && a != b
  {
    if a != [] && b != [] && a[0] == b[0] { LessAsymmetric(a[1..], b[1..]); }
  }

  /** `k` is the first place where `a` and `b` differ, or the end of one of them. */
  predicate SplitAt(a: string, b: string, k: nat) {
    k <= |a| && k <= |b| && a[..k] == b[..k] && (k == |a| || k == |b| || a[k] != b[k])
  }

  /** The order is decided there: by the characters, or by which one ends. */
  lemma {:induction false} LessMeans(a: string, b: string, k: nat)
    requires SplitAt(a, b, k)
    ensures Less(a, b) <==> k < |b| && (k == |a| || a[k] < b[k])
  {
    if k > 0 {
      assert a[0] == a[..k][0] && b[0] == b[..k][0];
      assert a[1..][..k - 1] == a[..k][1..] && b[1..][..k - 1] == b[..k][1..];
      LessMeans(a[1..], b[1..], k - 1);
    }
  }

  lemma {:induction false} LessTransitive(a: string, b: string, c: string)
    requires Less(a, b) && Less(b, c)
    ensures Less(a, c)
  {
    if a != [] && a[0] == b[0] && b[0] == c[0] { LessTransitive(a[1..], b[1..], c[1..]); }
  }

  lemma {:induction false} LessTotal(a: string, b: string)
    ensures a == b || Less(a, b) || Less(b, a)
  {
    if a != [] && b != [] && a[0] == b[0] {
      LessTotal(a[1..], b[1..]);
      assert a == [a[0]] + a[1..] && b == [b[0]] + b[1..];
    }
  }

  /** The order of `sorted(..., key=lambda x: (-w[x], x))`. */
  predicate Before(x: string, y: string, w: map<string, int>)
    requires x in w && y in w
  {
    w[x] > w[y] || (w[x] == w[y] && Less(x, y))
  }

  lemma BeforeTransitive(x: string, y: string, z: string, w: map<string, int>)
    requires x in w && y in w && z in w
    requires Before(x, y, w) && Before(y, z, w)
    ensures Before(x, z, w)
  {
    if w[x] == w[z] { LessTransitive(x, y, z); }
  }

  predicate First(x: string, s: set<string>, w: map<string, int>)
    requires s <= w.Keys
  {
    x in s && forall y :: y in s && y != x ==> Before(x, y, w)
  }

  lemma {:induction false} FirstExists(s: set<string>, w: map<string, int>)
    requires s != {} && s <= w.Keys
    ensures exists x :: First(x, s, w)
  {
    var a :| a in s;
    if s == {a} {
      assert First(a, s, w);
    } else {
      var rest := s - {a};
      FirstExists(rest, w);
      var b :| First(b, rest, w);
      LessTotal(a, b);
      if Before(a, b, w) {
        forall y | y in s && y != a ensures Before(a, y, w) {
          if y != b { BeforeTransitive(a, b, y, w); }
        }
        assert First(a, s, w);
      } else {
        assert First(b, s, w);
      }
    }
  }

  lemma FirstUnique(s: set<string>, w: map<string, int>, x: string, y: string)
    requires s <= w.Keys && First(x, s, w) && First(y, s, w)
    ensures x == y
  {
    if x != y && w[x] == w[y] { LessAsymmetric(x, y); }
  }

  ghost function FirstOf(s: set<string>, w: map<string, int>): (x: string)
    requires s != {} && s <= w.Keys
    ensures First(x, s, w)
  {
    FirstExists(s, w);
    var x :| First(x, s, w);
    x
  }

  /** The elements of `s`, heaviest first and then by name. */
  ghost function SortedBy(s: set<string>, w: map<string, int>): (r: seq<string>)
    requires s <= w.Keys
    ensures |r| == |s|
    ensures forall x :: x in r <==> x in s
    ensures forall i, j :: 0 <= i < j < |r| ==> Before(r[i], r[j], w)
  {
    if s == {} then [] else
      var x := FirstOf(s, w);
      [x] + SortedBy(s - {x}, w)
  }

  ghost function Zeros(s: set<string>): map<string, int> { map x | x in s :: 0 }

  /** Sorted and free of repeats. */
  predicate Canonical(r: seq<string>) {
    forall i, j :: 0 <= i < j < |r| ==> Less(r[i], r[j])
  }

  /** `sorted(s)` for a set of strings. */
  ghost function Sorted(s: set<string>): (r: seq<string>)
    ensures |r| == |s|
    ensures forall x :: x in r <==> x in s
    ensures Canonical(r)
  {
    SortedBy(s, Zeros(s))
  }

  predicate Distinct<T(==)>(r: seq<T>) {
    forall i, j :: 0 <= i < j < |r| ==> r[i] != r[j]
  }

  lemma CanonicalDistinct(r: seq<string>)
    requires Canonical(r)
    ensures Distinct(r)
  {
    forall i, j | 0 <= i < j < |r| ensures r[i] != r[j] { LessAsymmetric(r[i], r[j]); }
  }

  lemma SortedByDistinct(s: set<string>, w: map<string, int>)
    requires s <= w.Keys
    ensures Distinct(SortedBy(s, w))
  {
    var r := SortedBy(s, w);
    forall i, j | 0 <= i < j < |r| ensures r[i] != r[j] {
      if w[r[i]] == w[r[j]] { LessAsymmetric(r[i], r[j]); }
    }
  }

  function Elements<T>(r: seq<T>): set<T> { set x | x in r }

  lemma SubsetSize<T>(s: set<T>, t: set<T>)
    requires s <= t
    ensures |s| <= |t|
  {
    assert t == s + (t - s);
  }

  lemma SortStep(r: seq<string>, rest: set<string>, w: map<string, int>, x: string)
    requires rest <= w.Keys && First(x, rest, w)
    ensures r + SortedBy(rest, w) == r + [x] + SortedBy(rest - {x}, w)
  {
    FirstUnique(rest, w, x, FirstOf(rest, w));
  }

  /** Sorting as a loop: repeatedly take the first remaining element. */
  method SortBy(s: set<string>, w: map<string, int>) returns (r: seq<string>)
    requires s <= w.Keys
    ensures r == SortedBy(s, w)
  {
    r := [];
    var rest := s;
    while rest != {}
      invariant rest <= s
      invariant r + SortedBy(rest, w) == SortedBy(s, w)
      decreases |rest|
    {
      FirstExists(rest, w);
      var x :| x in rest && First(x, rest, w);
      SortStep(r, rest, w, x);
      r := r + [x];
      rest := rest - {x};
    }
  }

  method Sort(s: set<string>) returns (r: seq<string>)
    ensures r == Sorted(s)
  {
    r := SortBy(s, map x | x in s :: 0);
  }

  lemma EmptyElements(a: seq<string>)
    ensures Elements(a) == {} <==> a == []
  {
    if a != [] { assert a[0] in Elements(a); }
  }

  lemma SameHead(a: seq<string>, b: seq<string>)
    requires Canonical(a) && Canonical(b) && Elements(a) == Elements(b) && a != [] && b != []
    ensures a[0] == b[0]
  {
    assert a[0] in Elements(b) && b[0] in Elements(a);
    LessAsymmetric(a[0], b[0]);
  }

  /** A strictly sorted list is determined by its elements. */
  lemma {:induction false} CanonicalUnique(a: seq<string>, b: seq<string>)
    requires Canonical(a) && Canonical(b) && Elements(a) == Elements(b)
    ensures a == b
  {
    EmptyElements(a);
    EmptyElements(b);
    if a != [] {
      SameHead(a, b);
      CanonicalDistinct(a);
      CanonicalDistinct(b);
      assert Elements(a[1..]) == Elements(a) - {a[0]};
      assert Elements(b[1..]) == Elements(b) - {b[0]};
      CanonicalUnique(a[1..], b[1..]);
      assert a == [a[0]] + a[1..] && b == [b[0]] + b[1..];
    }
  }

  // ---------------------------------------------------------------- sums

  ghost function Sum(s: set<string>, w: map<string, int>): int
    requires s <= w.Keys
  {
    if s == {} then 0 else var x :| x in s; w[x] + Sum(s - {x}, w)
  }

  lemma {:induction false} SumTake(s: set<string>, w: map<string, int>, x: string)
    requires s <= w.Keys && x in s
    ensures Sum(s, w) == w[x] + Sum(s - {x}, w)
  {
    var y :| y in s && Sum(s, w) == w[y] + Sum(s - {y}, w);
    if y != x {
      SumTake(s - {y}, w, x);
      SumTake(s - {x}, w, y);
      assert s - {y} - {x} == s - {x} - {y};
    }
  }

  lemma SumAdd(s: set<string>, w: map<string, int>, x: string)
    requires s <= w.Keys && x in w && x !in s
    ensures Sum(s + {x}, w) == w[x] + Sum(s, w)
  {
    SumTake(s + {x}, w, x);
    assert s + {x} - {x} == s;
  }

  lemma {:induction false} SumSame(s: set<string>, v: map<string, int>, w: map<string, int>)
    requires s <= v.Keys && s <= w.Keys
    requires forall x :: x in s ==> v[x] == w[x]
    ensures Sum(s, v) == Sum(s, w)
  {
    if s != {} {
      var x :| x in s;
      SumTake(s, v, x);
      SumTake(s, w, x);
      SumSame(s - {x}, v, w);
    }
  }

  lemma OneMoreTimes(a: nat, n: nat)
    ensures a * (n + 1) == a * n + a
  {
  }

  lemma {:induction false} SumAtLeast(s: set<string>, w: map<string, int>, least: nat)
    requires s <= w.Keys
    requires forall x :: x in s ==> w[x] >= least
    ensures Sum(s, w) >= least * |s|
  {
    if s != {} {
      var x :| x in s;
      SumTake(s, w, x);
      SumAtLeast(s - {x}, w, least);
      OneMoreTimes(least, |s - {x}|);
    }
  }

  lemma {:induction false} SumUnion(s: set<string>, t: set<string>, w: map<string, int>)
    requires s <= w.Keys && t <= w.Keys && s !! t
    ensures Sum(s + t, w) == Sum(s, w) + Sum(t, w)
  {
    if t == {} {
      assert s + t == s;
    } else {
      var x :| x in t;
      SumTake(t, w, x);
      SumUnion(s, t - {x}, w);
      SumAdd(s + (t - {x}), w, x);
      assert s + t == s + (t - {x}) + {x};
    }
  }

  method SumOf(s: set<string>, w: map<string, int>) returns (total: int)
    requires s <= w.Keys
    ensures total == Sum(s, w)
  {
    total := 0;
    var rest := s;
    while rest != {}
      invariant rest <= s
      invariant total + Sum(rest, w) == Sum(s, w)
      decreases |rest|
    {
      var x :| x in rest;
      SumTake(rest, w, x);
      total := total + w[x];
      rest := rest - {x};
    }
  }

  /** `len(xs) == len(set(xs))` holds exactly of lists without repeats. */
  lemma {:induction false} DistinctSize<T>(xs: seq<T>)
    ensures |Elements(xs)| <= |xs|
    ensures |Elements(xs)| == |xs| <==> Distinct(xs)
  {
    if xs != [] {
      var rest, last := xs[..|xs| - 1], xs[|xs| - 1];
      DistinctSize(rest);
      assert xs == rest + [last];
      assert Elements(xs) == Elements(rest) + {last};
      if last in rest {
        assert Elements(xs) == Elements(rest);
        var i :| 0 <= i < |rest| && rest[i] == last;
        assert xs[i] == xs[|xs| - 1];
      } else {
        assert Distinct(rest) ==> Distinct(xs);
        assert Distinct(xs) ==> Distinct(rest) by {
          if Distinct(xs) {
            forall i, j | 0 <= i < j < |rest| ensures rest[i] != rest[j] { assert xs[i] != xs[j]; }
          }
        }
      }
    }
  }

  lemma {:induction false} DistinctOnce<T>(xs: seq<T>, x: T)
    requires Distinct(xs)
    ensures multiset(xs)[x] == if x in xs then 1 else 0
  {
    if xs != [] {
      var rest, last := xs[..|xs| - 1], xs[|xs| - 1];
      assert xs == rest + [last];
      DistinctOnce(rest, x);
      if last == x { assert x !in rest; }
    }
  }

  // ---------------------------------------------------------------- permutations

  function Without<T>(xs: seq<T>, i: nat): (r: seq<T>)
    requires i < |xs|
    ensures |r| == |xs| - 1
  {
    xs[..i] + xs[i + 1..]
  }

  lemma WithoutLast<T>(xs: seq<T>, i: nat)
    requires i < |xs| - 1
    ensures Without(xs, i)[..|xs| - 2] == Without(xs[..|xs| - 1], i) && Without(xs, i)[|xs| - 2] == xs[|xs| - 1]
  {
  }

  /** Where a permutation has the last element, and that the rests are permutations again. */
  lemma TakeOut<T>(xs: seq<T>, ys: seq<T>) returns (i: nat)
    requires multiset(xs) == multiset(ys) && xs != []
    ensures i < |ys| && ys[i] == xs[|xs| - 1]
    ensures multiset(xs[..|xs| - 1]) == multiset(Without(ys, i))
  {
    var n, last := |xs| - 1, xs[|xs| - 1];
    assert xs == xs[..n] + [last];
    assert last in multiset(ys);
    i :| 0 <= i < |ys| && ys[i] == last;
    assert ys == ys[..i] + [last] + ys[i + 1..];
    assert multiset(Without(ys, i)) == multiset(ys) - multiset{last};
  }
}
