/** Longest-processing-time scheduling, stated on sequences: `w[i]` is the weight of the
    i-th file taken and `a[i]` the shard it went to. Proves Graham's 4/3 - 1/(3N) bound. */
module Graham {
  /** Weight that the first `t` placements put on shard `m`. */
  ghost function Load(a: seq<nat>, w: seq<nat>, m: nat, t: nat): nat
    requires t <= |a| == |w|
  {
    if t == 0 then 0 else Load(a, w, m, t - 1) + if a[t - 1] == m then w[t - 1] else 0
  }

  /** How many of the first `t` placements went to shard `m`. */
  ghost function Count(a: seq<nat>, m: nat, t: nat): nat
    requires t <= |a|
  {
    if t == 0 then 0 else Count(a, m, t - 1) + if a[t - 1] == m then 1 else 0
  }

  ghost function CountOver(a: seq<nat>, n: nat, t: nat): nat
    requires t <= |a|
  {
    if n == 0 then 0 else CountOver(a, n - 1, t) + Count(a, n - 1, t)
  }

  ghost function LoadOver(a: seq<nat>, w: seq<nat>, n: nat, t: nat): nat
    requires t <= |a| == |w|
  {
    if n == 0 then 0 else LoadOver(a, w, n - 1, t) + Load(a, w, n - 1, t)
  }

  ghost function PrefixSum(w: seq<nat>, t: nat): nat
    requires t <= |w|
  {
    if t == 0 then 0 else PrefixSum(w, t - 1) + w[t - 1]
  }

  ghost predicate Descending(w: seq<nat>) {
    forall i, j :: 0 <= i < j < |w| ==> w[i] >= w[j]
  }

  ghost predicate Positive(w: seq<nat>) {
    forall i :: 0 <= i < |w| ==> w[i] >= 1
  }

  ghost predicate Within(a: seq<nat>, n: nat) {
    forall i :: 0 <= i < |a| ==> a[i] < n
  }

  /** Every placement goes to a shard whose load is least at that moment. */
  ghost predicate Greedy(a: seq<nat>, w: seq<nat>, n: nat)
    requires |a| == |w|
  {
    forall t, m {:trigger Load(a, w, m, t)} :: 0 <= t < |a| && 0 <= m < n ==> Load(a, w, a[t], t) <= Load(a, w, m, t)
  }

  // ---------------------------------------------------------------- counting

  lemma {:induction false} CountOverStep(a: seq<nat>, n: nat, t: nat)
    requires t < |a|
    ensures CountOver(a, n, t + 1) == CountOver(a, n, t) + if a[t] < n then 1 else 0
  {
    if n > 0 { CountOverStep(a, n - 1, t); }
  }

  lemma {:induction false} CountOverZero(a: seq<nat>, n: nat)
    ensures CountOver(a, n, 0) == 0
  {
    if n > 0 { CountOverZero(a, n - 1); }
  }

  lemma {:induction false} CountsTotal(a: seq<nat>, n: nat, t: nat)
    requires t <= |a| && Within(a, n)
    ensures CountOver(a, n, t) == t
  {
    if t == 0 {
      CountOverZero(a, n);
    } else {
      CountsTotal(a, n, t - 1);
      CountOverStep(a, n, t - 1);
    }
  }

  lemma {:induction false} LoadOverStep(a: seq<nat>, w: seq<nat>, n: nat, t: nat)
    requires t < |a| == |w|
    ensures LoadOver(a, w, n, t + 1) == LoadOver(a, w, n, t) + if a[t] < n then w[t] else 0
  {
    if n > 0 { LoadOverStep(a, w, n - 1, t); }
  }

  lemma {:induction false} LoadOverZero(a: seq<nat>, w: seq<nat>, n: nat)
    requires |a| == |w|
    ensures LoadOver(a, w, n, 0) == 0
  {
    if n > 0 { LoadOverZero(a, w, n - 1); }
  }

  /** Shard loads sum to the weight placed. */
  lemma {:induction false} LoadsTotal(a: seq<nat>, w: seq<nat>, n: nat, t: nat)
    requires t <= |a| == |w| && Within(a, n)
    ensures LoadOver(a, w, n, t) == PrefixSum(w, t)
  {
    if t == 0 {
      LoadOverZero(a, w, n);
    } else {
      LoadsTotal(a, w, n, t - 1);
      LoadOverStep(a, w, n, t - 1);
    }
  }

  /** If no shard counts more than `k` at `t` beyond what it held at `p`, neither do all together. */
  lemma {:induction false} CountsAtMost(a: seq<nat>, n: nat, t: nat, p: nat, k: nat)
    requires p <= |a| && t <= |a|
    requires forall m :: 0 <= m < n ==> Count(a, m, t) + Count(a, m, p) <= k
    ensures CountOver(a, n, t) + CountOver(a, n, p) <= k * n
  {
    if n > 0 {
      CountsAtMost(a, n - 1, t, p, k);
      assert k * n == k * (n - 1) + k;
    }
  }

  lemma {:induction false} LoadsAtLeast(a: seq<nat>, w: seq<nat>, n: nat, t: nat, l: nat)
    requires t <= |a| == |w|
    requires forall m :: 0 <= m < n ==> l <= Load(a, w, m, t)
    ensures n * l <= LoadOver(a, w, n, t)
  {
    if n > 0 {
      LoadsAtLeast(a, w, n - 1, t, l);
      assert n * l == (n - 1) * l + l;
    }
  }

  lemma {:induction false} LoadsAtMost(a: seq<nat>, w: seq<nat>, n: nat, t: nat, l: nat)
    requires t <= |a| == |w|
    requires forall m :: 0 <= m < n ==> Load(a, w, m, t) <= l
    ensures LoadOver(a, w, n, t) <= n * l
  {
    if n > 0 {
      LoadsAtMost(a, w, n - 1, t, l);
      assert n * l == (n - 1) * l + l;
    }
  }

  lemma {:induction false} CountGrows(a: seq<nat>, m: nat, s: nat, t: nat)
    requires s <= t <= |a|
    ensures Count(a, m, s) <= Count(a, m, t)
  {
    if s < t { CountGrows(a, m, s, t - 1); }
  }

  /** Between `s` and `t` every placement weighs between `w[t-1]` and `w[s]`. */
  lemma {:induction false} LoadBetween(a: seq<nat>, w: seq<nat>, m: nat, s: nat, t: nat, lo: nat, hi: nat)
    requires s <= t <= |a| == |w|
    requires forall i :: s <= i < t ==> lo <= w[i] <= hi
    ensures Count(a, m, s) <= Count(a, m, t)
    ensures Load(a, w, m, s) + lo * (Count(a, m, t) - Count(a, m, s)) <= Load(a, w, m, t)
    ensures Load(a, w, m, t) <= Load(a, w, m, s) + hi * (Count(a, m, t) - Count(a, m, s))
  {
    if s < t {
      LoadBetween(a, w, m, s, t - 1, lo, hi);
      var d := Count(a, m, t - 1) - Count(a, m, s);
      assert lo * (d + 1) == lo * d + lo;
      assert hi * (d + 1) == hi * d + hi;
    }
  }

  lemma {:induction false} LoadGrows(a: seq<nat>, w: seq<nat>, m: nat, s: nat, t: nat)
    requires s <= t <= |a| == |w|
    ensures Load(a, w, m, s) <= Load(a, w, m, t)
  {
    if s < t { LoadGrows(a, w, m, s, t - 1); }
  }

  lemma {:induction false} CountsAtLeastOne(a: seq<nat>, n: nat, t: nat)
    requires t <= |a|
    requires forall m :: 0 <= m < n ==> Count(a, m, t) >= 1
    ensures CountOver(a, n, t) >= n
  {
    if n > 0 { CountsAtLeastOne(a, n - 1, t); }
  }

  /** Some shard has no file while fewer files than shards are placed. */
  lemma SomeShardEmpty(a: seq<nat>, n: nat, t: nat) returns (m: nat)
    requires t <= |a| && t < n && Within(a, n)
    ensures m < n && Count(a, m, t) == 0
  {
    if forall m :: 0 <= m < n ==> Count(a, m, t) >= 1 {
      CountsTotal(a, n, t);
      CountsAtLeastOne(a, n, t);
    }
    m :| 0 <= m < n && Count(a, m, t) == 0;
  }

  lemma {:induction false} BelowPrefix(w: seq<nat>, i: nat, t: nat)
    requires i < t <= |w|
    ensures w[i] <= PrefixSum(w, t)
  {
    if i < t - 1 { BelowPrefix(w, i, t - 1); }
  }

  lemma {:induction false} BelowSum(w: seq<nat>)
    ensures forall i :: 0 <= i < |w| ==> w[i] <= PrefixSum(w, |w|)
  {
    forall i | 0 <= i < |w| ensures w[i] <= PrefixSum(w, |w|) { BelowPrefix(w, i, |w|); }
  }

  /** The greedy rule puts the first `n` files on distinct shards. */
  lemma {:induction false} FirstRound(a: seq<nat>, w: seq<nat>, n: nat, t: nat, m: nat)
    requires |a| == |w| && Positive(w) && Within(a, n) && Greedy(a, w, n)
    requires t <= |a| && t <= n
    ensures Count(a, m, t) <= 1
  {
    if t > 0 {
      FirstRound(a, w, n, t - 1, m);
      if a[t - 1] == m {
        var e := SomeShardEmpty(a, n, t - 1);
        var heaviest := PrefixSum(w, |w|);
        BelowSum(w);
        LoadBetween(a, w, e, 0, t - 1, 1, heaviest);
        LoadBetween(a, w, m, 0, t - 1, 1, heaviest);
      }
    }
  }

  lemma {:induction false} OneMissing(a: seq<nat>, n: nat, t: nat, m: nat)
    requires t <= |a|
    requires forall k :: 0 <= k < n ==> Count(a, k, t) <= 1
    ensures CountOver(a, n, t) <= n
    ensures m < n && Count(a, m, t) == 0 ==> CountOver(a, n, t) < n
  {
    if n > 0 { OneMissing(a, n - 1, t, m); }
  }

  /** Exactly one file each once `n` files are placed, and never fewer later. */
  lemma EveryShardUsed(a: seq<nat>, w: seq<nat>, n: nat, t: nat, m: nat)
    requires |a| == |w| && Positive(w) && Within(a, n) && Greedy(a, w, n)
    requires n <= t <= |a| && m < n
    ensures Count(a, m, n) == 1
    ensures Count(a, m, t) >= 1
  {
    if Count(a, m, n) == 0 {
      CountsTotal(a, n, n);
      forall k | 0 <= k < n ensures Count(a, k, n) <= 1 { FirstRound(a, w, n, n, k); }
      OneMissing(a, n, n, m);
    }
    FirstRound(a, w, n, n, m);
    CountGrows(a, m, n, t);
  }

  // ---------------------------------------------------------------- light last file

  lemma LightSpread(n: nat, load: nat, last: nat)
    ensures n * (load + last) == n * load + n * last
    ensures 3 * n * (load + last) == 3 * (n * (load + last))
  {
  }

  lemma Times(x: nat, k: nat, c: nat)
    ensures k <= c ==> x * k <= x * c
  {
    if k <= c { assert x * c == x * k + x * (c - k); }
  }

  lemma LightGap(n: nat, last: nat, most: nat)
    requires n >= 1 && 3 * last <= most
    ensures 3 * (n * last) - 3 * last <= n * most - most
  {
    Times(n - 1, 3 * last, most);
    assert (n - 1) * (3 * last) == 3 * (n * last) - 3 * last;
    assert (n - 1) * most == n * most - most;
  }

  lemma LightMost(n: nat, most: nat)
    requires n >= 1
    ensures (4 * n - 1) * most == 4 * (n * most) - most
  {
  }

  /** When the file that completes shard `m` weighs at most M/3, averaging is enough. */
  lemma LightCase(n: nat, load: nat, last: nat, before: nat, most: nat)
    requires n >= 1 && 3 * last <= most
    requires n * load <= before
    requires before + last <= n * most
    ensures 3 * n * (load + last) <= (4 * n - 1) * most
  {
    LightSpread(n, load, last);
    LightGap(n, last, most);
    LightMost(n, most);
    assert n * (load + last) <= n * most - last + n * last;
  }

  // ---------------------------------------------------------------- heavy last file

  /** A shard of any schedule that fits in `most` holds at most two files heavier than most/3. */
  lemma AtMostTwo(b: seq<nat>, w: seq<nat>, m: nat, t: nat, most: nat)
    requires 0 < t <= |b| == |w| && Descending(w)
    requires most < 3 * w[t - 1] && Load(b, w, m, t) <= most
    ensures Count(b, m, t) <= 2
  {
    LoadBetween(b, w, m, 0, t, w[t - 1], w[0]);
    Times(w[t - 1], 3, Count(b, m, t));
  }

  lemma PairTimes(x: nat, y: nat, cp: nat, ct: nat)
    requires y <= x && 1 <= cp <= ct && 2 <= ct
    ensures x + y <= x * cp + y * (ct - cp)
  {
    if cp >= 2 { Times(x, 2, cp); } else { Times(y, 1, ct - cp); }
  }

  lemma PairWeight(b: seq<nat>, w: seq<nat>, m: nat, p: nat, t: nat)
    requires 1 <= p <= t <= |b| == |w| && Descending(w)
    requires Count(b, m, p) >= 1 && Count(b, m, t) >= 2
    ensures w[p - 1] + w[t - 1] <= Load(b, w, m, t)
  {
    var cp, ct := Count(b, m, p), Count(b, m, t);
    var x, y := w[p - 1], w[t - 1];
    LoadBetween(b, w, m, 0, p, x, w[0]);
    LoadBetween(b, w, m, p, t, y, w[0]);
    PairTimes(x, y, cp, ct);
  }

  /** With at most two of the first `t` files per shard, one of the first
      `2n + 1 - t` files shares its shard, so that shard carries at least this much. */
  lemma SharedShard(b: seq<nat>, w: seq<nat>, n: nat, t: nat, most: nat)
    requires n < t <= |b| == |w| && Descending(w) && Within(b, n)
    requires forall m :: 0 <= m < n ==> Load(b, w, m, t) <= most
    requires most < 3 * w[t - 1]
    ensures t <= 2 * n
    ensures w[2 * n - t] + w[t - 1] <= most
  {
    forall m | 0 <= m < n ensures Count(b, m, t) <= 2 { AtMostTwo(b, w, m, t, most); }
    CountsTotal(b, n, t);
    CountsAtMost(b, n, t, 0, 2);
    var p := 2 * n + 1 - t;
    CountsTotal(b, n, p);
    if forall m :: 0 <= m < n ==> Count(b, m, p) == 0 || Count(b, m, t) <= 1 {
      forall m | 0 <= m < n ensures Count(b, m, t) + Count(b, m, p) <= 2 { CountGrows(b, m, p, t); }
      CountsAtMost(b, n, t, p, 2);
    }
    var m :| 0 <= m < n && Count(b, m, p) >= 1 && Count(b, m, t) >= 2;
    PairWeight(b, w, m, p, t);
  }

  lemma {:induction false} TwoMinus(a: seq<nat>, n: nat, t: nat, p: nat)
    requires t <= |a| && p <= |a|
    requires forall m :: 0 <= m < n ==> Count(a, m, t) >= 2 - Count(a, m, p)
    ensures CountOver(a, n, t) >= 2 * n - CountOver(a, n, p)
  {
    if n > 0 { TwoMinus(a, n - 1, t, p); }
  }

  /** In the greedy schedule the least loaded shard then carries at most one such file. */
  lemma LeastLoaded(a: seq<nat>, w: seq<nat>, n: nat, t: nat)
    requires |a| == |w| && Positive(w) && Descending(w) && Within(a, n) && Greedy(a, w, n)
    requires n <= t < |a| && t < 2 * n
    ensures Load(a, w, a[t], t) <= w[2 * n - t - 1]
  {
    var p := 2 * n - t - 1;
    forall m | 0 <= m < n
      ensures Count(a, m, n) == 1 && Count(a, m, t) >= 1
      ensures Count(a, m, p) <= 1
    {
      EveryShardUsed(a, w, n, t, m);
      CountGrows(a, m, p, n);
    }
    CountsTotal(a, n, t);
    CountsTotal(a, n, p);
    if forall m :: 0 <= m < n ==> Count(a, m, t) >= 2 || Count(a, m, p) == 1 {
      TwoMinus(a, n, t, p);
      assert false;
    }
    var m :| 0 <= m < n && Count(a, m, t) == 1 && Count(a, m, p) == 0;
    LoadBetween(a, w, m, 0, p, 0, w[0]);
    LoadBetween(a, w, m, p, t, 0, w[p]);
    assert w[p] * (Count(a, m, t) - Count(a, m, p)) == w[p];
    assert Load(a, w, m, p) == 0;
  }

  // ---------------------------------------------------------------- the bound

  /** The last file placed on shard `m`, if any. */
  lemma {:induction false} LastPlacement(a: seq<nat>, w: seq<nat>, m: nat, t: nat) returns (j: int)
    requires t <= |a| == |w|
    ensures j == -1 ==> Load(a, w, m, t) == 0
    ensures -1 <= j < t
    ensures j >= 0 ==> a[j] == m && Load(a, w, m, t) == Load(a, w, m, j) + w[j]
  {
    if t == 0 {
      j := -1;
    } else if a[t - 1] == m {
      j := t - 1;
    } else {
      j := LastPlacement(a, w, m, t - 1);
    }
  }

  lemma WithinCeiling(n: nat, load: nat, most: nat)
    requires n >= 1 && load <= most
    ensures 3 * n * load <= (4 * n - 1) * most
  {
    Times(3 * n, load, most);
    assert (4 * n - 1) * most == 3 * n * most + (n - 1) * most;
  }

  /** When every file so far is heavier than most/3, longest-first is no worse than any schedule. */
  lemma HeavyCase(a: seq<nat>, b: seq<nat>, w: seq<nat>, n: nat, most: nat, t: nat)
    requires 0 < t <= |a| == |b| == |w| && n >= 1
    requires Positive(w) && Descending(w)
    requires Within(a, n) && Greedy(a, w, n) && Within(b, n)
    requires forall k :: 0 <= k < n ==> Load(b, w, k, t) <= most
    requires most < 3 * w[t - 1]
    ensures Load(a, w, a[t - 1], t - 1) + w[t - 1] <= most
  {
    if t <= n {
      var e := SomeShardEmpty(a, n, t - 1);
      LoadBetween(a, w, e, 0, t - 1, 0, w[0]);
      assert Load(a, w, a[t - 1], t - 1) <= Load(a, w, e, t - 1) == 0;
      assert Load(b, w, b[t - 1], t) <= most;
    } else {
      SharedShard(b, w, n, t, most);
      LeastLoaded(a, w, n, t - 1);
    }
  }

  /** Graham's bound: no shard of a longest-first greedy schedule exceeds (4N-1)/(3N) times
      any ceiling that some schedule of the same files meets. */
  lemma Bound(a: seq<nat>, b: seq<nat>, w: seq<nat>, n: nat, most: nat, m: nat)
    requires |a| == |b| == |w| && n >= 1 && m < n
    requires Positive(w) && Descending(w)
    requires Within(a, n) && Greedy(a, w, n)
    requires Within(b, n) && forall k :: 0 <= k < n ==> Load(b, w, k, |w|) <= most
    ensures 3 * n * Load(a, w, m, |w|) <= (4 * n - 1) * most
  {
    var t := LastPlacement(a, w, m, |w|);
    if t >= 0 {
      var u := t + 1;
      forall k | 0 <= k < n ensures Load(b, w, k, u) <= most { LoadGrows(b, w, k, u, |w|); }
      if 3 * w[t] <= most {
        LoadsTotal(a, w, n, t);
        LoadsAtLeast(a, w, n, t, Load(a, w, m, t));
        LoadsTotal(b, w, n, u);
        LoadsAtMost(b, w, n, u, most);
        LightCase(n, Load(a, w, m, t), w[t], PrefixSum(w, t), most);
      } else {
        HeavyCase(a, b, w, n, most, u);
        WithinCeiling(n, Load(a, w, m, |w|), most);
      }
    } else {
      WithinCeiling(n, 0, most);
    }
  }

  /** Two shards never differ by more than one file's weight. */
  lemma {:induction false} Balanced(a: seq<nat>, w: seq<nat>, n: nat, t: nat, m: nat, k: nat, heaviest: nat)
    requires t <= |a| == |w| && Within(a, n) && Greedy(a, w, n)
    requires m < n && k < n
    requires forall i :: 0 <= i < |w| ==> w[i] <= heaviest
    ensures Load(a, w, m, t) <= Load(a, w, k, t) + heaviest
  {
    if t > 0 {
      Balanced(a, w, n, t - 1, m, k, heaviest);
    }
  }

  // ---------------------------------------------------------------- tightness

  /** The files 2N-1, 2N-1, ..., N+1, N+1, N, N, N. */
  function TightWeight(n: nat, i: nat): nat
    requires n >= 1 && i <= 2 * n
  {
    if i < 2 * n then 2 * n - 1 - i / 2 else n
  }

  /** Where longest-first may put them: the second N in reverse, on top of the first N. */
  function TightShard(n: nat, i: nat): nat
    requires n >= 1 && i <= 2 * n
  {
    if i < n then i else if i < 2 * n then 2 * n - 1 - i else 0
  }

  /** A better schedule: pairs of 3N, and the three last files together. */
  function BetterShard(n: nat, i: nat): nat
    requires n >= 1 && i <= 2 * n
  {
    if i >= 2 * n - 2 then n - 1 else if i < n - 1 then i else 2 * n - 3 - i
  }

  ghost function Listed(n: nat, f: (nat, nat) --> nat): (r: seq<nat>)
    requires n >= 1 && forall i :: 0 <= i <= 2 * n ==> f.requires(n, i)
    ensures |r| == 2 * n + 1 && forall i :: 0 <= i < |r| ==> r[i] == f(n, i)
  {
    seq(2 * n + 1, i requires 0 <= i < 2 * n + 1 => f(n, i))
  }

  /** What shard `m` carries after the first `t` of those files. */
  lemma {:induction false} TightLoad(n: nat, a: seq<nat>, w: seq<nat>, m: nat, t: nat)
    requires n >= 1 && m < n && t <= 2 * n
    requires a == Listed(n, TightShard) && w == Listed(n, TightWeight)
    ensures Load(a, w, m, t) == (if m < t then TightWeight(n, m) else 0) +
                                (if 2 * n - 1 - m < t then TightWeight(n, 2 * n - 1 - m) else 0)
  {
    if t > 0 {
      TightLoad(n, a, w, m, t - 1);
      assert a[t - 1] == TightShard(n, t - 1) && w[t - 1] == TightWeight(n, t - 1);
    }
  }

  lemma TightPair(n: nat, m: nat)
    requires n >= 1 && m < n
    ensures TightWeight(n, m) + TightWeight(n, 2 * n - 1 - m) == 3 * n - 1
  {
    assert m / 2 + (2 * n - 1 - m) / 2 == n - 1;
  }

  lemma TightIsGreedy(n: nat, a: seq<nat>, w: seq<nat>)
    requires n >= 1 && a == Listed(n, TightShard) && w == Listed(n, TightWeight)
    ensures Greedy(a, w, n)
  {
    forall t, m {:trigger Load(a, w, m, t)} | 0 <= t < |a| && 0 <= m < n
      ensures Load(a, w, a[t], t) <= Load(a, w, m, t) {
      assert a[t] == TightShard(n, t);
      TightLoad(n, a, w, a[t], t);
      TightLoad(n, a, w, m, t);
      TightPair(n, m);
      TightPair(n, a[t]);
    }
  }

  lemma {:induction false} BetterLoad(n: nat, b: seq<nat>, w: seq<nat>, m: nat, t: nat)
    requires n >= 1 && m < n - 1 && t <= 2 * n + 1
    requires b == Listed(n, BetterShard) && w == Listed(n, TightWeight)
    ensures Load(b, w, m, t) == (if m < t then TightWeight(n, m) else 0) +
                                (if 2 * n - 3 - m < t then TightWeight(n, 2 * n - 3 - m) else 0)
  {
    if t > 0 {
      BetterLoad(n, b, w, m, t - 1);
      assert b[t - 1] == BetterShard(n, t - 1) && w[t - 1] == TightWeight(n, t - 1);
    }
  }

  lemma LastThree(n: nat, t: nat)
    requires n >= 1 && 2 * n - 2 < t <= 2 * n + 1
    ensures TightWeight(n, t - 1) == n
    ensures (t - (2 * n - 2)) * n == (t - 1 - (2 * n - 2)) * n + n
  {
  }

  lemma {:induction false} BetterLast(n: nat, b: seq<nat>, w: seq<nat>, t: nat)
    requires n >= 1 && t <= 2 * n + 1
    requires b == Listed(n, BetterShard) && w == Listed(n, TightWeight)
    ensures Load(b, w, n - 1, t) == if t <= 2 * n - 2 then 0 else (t - (2 * n - 2)) * n
  {
    if t > 0 {
      BetterLast(n, b, w, t - 1);
      assert b[t - 1] == BetterShard(n, t - 1) && w[t - 1] == TightWeight(n, t - 1);
      if t > 2 * n - 2 { LastThree(n, t); }
    }
  }

  lemma BetterFits(n: nat, b: seq<nat>, w: seq<nat>, k: nat)
    requires n >= 1 && k < n && b == Listed(n, BetterShard) && w == Listed(n, TightWeight)
    ensures Load(b, w, k, 2 * n + 1) <= 3 * n
  {
    if k < n - 1 {
      BetterLoad(n, b, w, k, 2 * n + 1);
      assert k / 2 + (2 * n - 3 - k) / 2 == n - 2;
    } else {
      BetterLast(n, b, w, 2 * n + 1);
    }
  }

  lemma TightShape(n: nat, w: seq<nat>, a: seq<nat>, b: seq<nat>)
    requires n >= 1 && w == Listed(n, TightWeight) && a == Listed(n, TightShard) && b == Listed(n, BetterShard)
    ensures Positive(w) && Descending(w) && Within(a, n) && Within(b, n)
  {
  }

  lemma TightMost(n: nat, a: seq<nat>, w: seq<nat>)
    requires n >= 1 && a == Listed(n, TightShard) && w == Listed(n, TightWeight)
    ensures Load(a, w, 0, 2 * n + 1) == 4 * n - 1
  {
    TightLoad(n, a, w, 0, 2 * n);
    TightPair(n, 0);
    assert a[2 * n] == TightShard(n, 2 * n) && w[2 * n] == TightWeight(n, 2 * n);
  }

  /** For every number of shards some longest-first schedule meets the bound exactly, so it cannot be lowered. */
  lemma BoundIsTight(n: nat) returns (w: seq<nat>, a: seq<nat>, b: seq<nat>)
    requires n >= 1
    ensures |a| == |b| == |w| == 2 * n + 1 && Positive(w) && Descending(w)
    ensures Within(a, n) && Greedy(a, w, n)
    ensures Within(b, n) && forall k :: 0 <= k < n ==> Load(b, w, k, |w|) <= 3 * n
    ensures Load(a, w, 0, |w|) == 4 * n - 1
    ensures 3 * n * Load(a, w, 0, |w|) == (4 * n - 1) * (3 * n)
  {
    w, a, b := Listed(n, TightWeight), Listed(n, TightShard), Listed(n, BetterShard);
    TightShape(n, w, a, b);
    TightIsGreedy(n, a, w);
    forall k | 0 <= k < n ensures Load(b, w, k, |w|) <= 3 * n { BetterFits(n, b, w, k); }
    TightMost(n, a, w);
  }
}
