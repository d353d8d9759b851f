/** What a plan is, stated on the collection and the durations: the weights, the one assignment that the rule
    allows, and what else the plan records. */
module PlanRules {
  import opened Wrappers
  import opened Ordering
  import opened NodeIds
  import opened Planner
  import opened PlannerProperties
  import G = Graham

  // ---------------------------------------------------------------- what a file weighs

  /** The collected nodes of one file, and of the files in `s`. */
  ghost function NodesIn(ids: set<string>, s: set<string>): set<string> { set n | n in ids && NodeFile(n) in s }

  lemma OneMoreFile(ids: set<string>, s: set<string>, f: string)
    requires f in s
    ensures |NodesIn(ids, s)| == |NodesIn(ids, s - {f})| + |NodesOf(ids, f)|
  {
    assert NodesIn(ids, s) == NodesIn(ids, s - {f}) + NodesOf(ids, f);
    assert NodesIn(ids, s - {f}) !! NodesOf(ids, f);
  }

  lemma {:induction false} SumOfCounts(ids: set<string>, s: set<string>)
    requires s <= Files(ids)
    ensures Sum(s, Counts(ids)) == |NodesIn(ids, s)|
  {
    if s == {} {
      assert NodesIn(ids, s) == {};
    } else {
      var f :| f in s;
      SumTake(s, Counts(ids), f);
      SumOfCounts(ids, s - {f});
      OneMoreFile(ids, s, f);
    }
  }

  lemma FloorMean(total: int, nodes: int, p: int)
    requires total >= 0 && nodes > 0 && p == if total / nodes > 1 then total / nodes else 1
    ensures p >= 1 && (p * nodes <= total < (p + 1) * nodes || (p == 1 && total < nodes))
  {
    var q := total / nodes;
    assert total == q * nodes + total % nodes;
    assert (q + 1) * nodes == q * nodes + nodes;
    if p != q { assert q == 0; }
  }

  /** The milliseconds per node: of the recorded files that were collected, or 1000 when there are none. */
  ghost predicate IsMean(ids: set<string>, durations: map<string, int>, recorded: set<string>, p: int)
    requires recorded <= durations.Keys
  {
    var nodes := |set n | n in ids && NodeFile(n) in durations|;
    var total := Sum(recorded, durations);
    if nodes == 0 then p == 1000
    else p >= 1 && (p * nodes <= total < (p + 1) * nodes || (p == 1 && total < nodes))
  }

  lemma PerNodeIsMean(ids: set<string>, durations: map<string, int>)
    requires DurationsValid(ids, durations)
    ensures IsMean(ids, durations, Known(ids, durations), PerNode(ids, durations))
  {
    var recorded := Known(ids, durations);
    SumOfCounts(ids, recorded);
    assert NodesIn(ids, recorded) == set n | n in ids && NodeFile(n) in durations;
    SumAtLeast(recorded, durations, 0);
    var nodes := Sum(recorded, Counts(ids));
    if nodes > 0 { FloorMean(Sum(recorded, durations), nodes, PerNode(ids, durations)); }
  }

  /** A recorded file weighs its milliseconds. Every other file weighs the same number `p` for each of its collected
      nodes: 1000 when no recorded file is collected, else the recorded milliseconds per node, rounded down and at
      least 1. */
  lemma WeightRule(ids: set<string>, durations: map<string, int>, weights: map<string, int>) returns (p: int)
    requires DurationsValid(ids, durations) && weights == Weights(ids, durations)
    ensures weights.Keys == set n | n in ids :: NodeFile(n)
    ensures forall f :: f in weights ==> (weights[f] ==
      if f in durations then durations[f] else |NodesOf(ids, f)| * p)
    ensures IsMean(ids, durations, (set f | f in weights && f in durations), p)
  {
    p := PerNode(ids, durations);
    PerNodeIsMean(ids, durations);
    assert Files(ids) == set n | n in ids :: NodeFile(n);
    assert Known(ids, durations) == set f | f in weights && f in durations;
  }

  // ---------------------------------------------------------------- where a file goes

  /** The files of shard `k` that are taken before `f`: heavier ones, and equally heavy ones with a lesser path. */
  ghost function TakenBefore(weights: map<string, int>, shards: map<string, nat>, f: string, k: nat): (r: set<string>)
    requires f in weights
    ensures r <= weights.Keys
  {
    set g | g in weights && g in shards && shards[g] == k &&
      (weights[g] > weights[f] || (weights[g] == weights[f] && Less(g, f)))
  }

  /** Shard `k`, holding `a`, precedes shard `j`, holding `b`, in load, number of files and index. */
  ghost predicate HeldPrecedes(weights: map<string, int>, a: set<string>, b: set<string>, k: nat, j: nat)
    requires a <= weights.Keys && b <= weights.Keys
  {
    || Sum(a, weights) < Sum(b, weights)
    || (Sum(a, weights) == Sum(b, weights) && (|a| < |b| || (|a| == |b| && k < j)))
  }

  /** When `f` is taken, shard `k` precedes shard `j`. */
  ghost predicate Precedes(weights: map<string, int>, shards: map<string, nat>, f: string, k: nat, j: nat)
    requires f in weights
  {
    HeldPrecedes(weights, TakenBefore(weights, shards, f, k), TakenBefore(weights, shards, f, j), k, j)
  }

  /** Every file is on the shard that precedes all others when it is taken. */
  ghost predicate Follows(weights: map<string, int>, shards: map<string, nat>, n: nat) {
    && shards.Keys == weights.Keys
    && forall f, j :: f in weights && 1 <= j <= n && j != shards[f] ==> Precedes(weights, shards, f, shards[f], j)
  }

  lemma {:induction false} PlacePrefix(w: seq<nat>, n: nat, t: nat)
    requires n >= 1 && t <= |w|
    ensures Place(w, n)[..t] == Place(w[..t], n)
  {
    if t == |w| {
      assert w[..t] == w;
    } else {
      var v := w[..|w| - 1];
      PlacePrefix(v, n, t);
      assert v[..t] == w[..t];
    }
  }

  /** The shard that file `t` goes to is the best one after the files before it. */
  lemma PlacedBest(w: seq<nat>, n: nat, t: nat)
    requires n >= 1 && t < |w|
    ensures Best(Place(w, n)[..t], w[..t], n, Place(w, n)[t])
  {
    var u := w[..t + 1];
    PlacePrefix(w, n, t);
    PlacePrefix(w, n, t + 1);
    assert u[..|u| - 1] == w[..t];
    assert Place(w, n)[t] == Place(w, n)[..t + 1][t];
  }

  lemma PrefixLoads(a: seq<nat>, w: seq<nat>, t: nat, k: nat)
    requires t <= |a| == |w|
    ensures G.Load(a[..t], w[..t], k, t) == G.Load(a, w, k, t)
    ensures G.Count(a[..t], k, t) == G.Count(a, k, t)
  {
    LoadPrefix(a[..t], w[..t], a[t..], w[t..], k, t);
    assert a[..t] + a[t..] == a && w[..t] + w[t..] == w;
  }

  lemma HeldGrows(order: seq<string>, shards: map<string, nat>, k: nat, t: nat)
    requires 1 <= t <= |order| && Distinct(order) && forall f :: f in order ==> f in shards
    ensures |Held(order, shards, k, t)| == |Held(order, shards, k, t - 1)| + if shards[order[t - 1]] == k then 1 else 0
  {
    HeldMembers(order, shards, k, t - 1, order[t - 1]);
    assert Held(order, shards, k, t) ==
      Held(order, shards, k, t - 1) + if shards[order[t - 1]] == k then {order[t - 1]} else {};
  }

  lemma CountGrows(order: seq<string>, shards: map<string, nat>, m: nat, t: nat)
    requires 1 <= t <= |order| && forall f :: f in order ==> f in shards && shards[f] >= 1
    ensures order[t - 1] in shards
    ensures G.Count(Along(order, shards), m, t) ==
      G.Count(Along(order, shards), m, t - 1) + if shards[order[t - 1]] == m + 1 then 1 else 0
  {
    assert order[t - 1] in order && Along(order, shards)[t - 1] == shards[order[t - 1]] - 1;
  }

  lemma CountStep(order: seq<string>, shards: map<string, nat>, m: nat, t: nat)
    requires 1 <= t <= |order| && Distinct(order) && forall f :: f in order ==> f in shards && shards[f] >= 1
    requires G.Count(Along(order, shards), m, t - 1) == |Held(order, shards, m + 1, t - 1)|
    ensures G.Count(Along(order, shards), m, t) == |Held(order, shards, m + 1, t)|
  {
    HeldGrows(order, shards, m + 1, t);
    CountGrows(order, shards, m, t);
  }

  lemma {:induction false} CountIsSize(order: seq<string>, shards: map<string, nat>, m: nat, t: nat)
    requires t <= |order| && Distinct(order) && forall f :: f in order ==> f in shards && shards[f] >= 1
    ensures G.Count(Along(order, shards), m, t) == |Held(order, shards, m + 1, t)|
  {
    if t > 0 {
      CountIsSize(order, shards, m, t - 1);
      CountStep(order, shards, m, t);
    }
  }

  lemma BeforeMeansEarlier(order: seq<string>, weights: map<string, int>, i: nat, t: nat)
    requires order == SortedBy(weights.Keys, weights) && i < |order| && t < |order|
    ensures order[i] in weights && order[t] in weights
    ensures i < t <==> Before(order[i], order[t], weights)
  {
    assert order[i] in order && order[t] in order;
    if i < t { assert Before(order[i], order[t], weights); }
    if i > t {
      assert Before(order[t], order[i], weights);
      LessAsymmetric(order[t], order[i]);
    }
    if i == t { LessAsymmetric(order[i], order[i]); }
  }

  lemma HeldIsBefore(order: seq<string>, weights: map<string, int>, shards: map<string, nat>, k: nat, t: nat,
                     g: string)
    requires order == SortedBy(weights.Keys, weights) && t < |order|
    requires forall f :: f in order ==> f in shards
    requires g in Held(order, shards, k, t)
    ensures g in weights && order[t] in weights && shards[g] == k && Before(g, order[t], weights)
  {
    HeldMembers(order, shards, k, t, g);
    var i :| 0 <= i < t && order[i] == g && shards[g] == k;
    BeforeMeansEarlier(order, weights, i, t);
  }

  lemma BeforeIsHeld(order: seq<string>, weights: map<string, int>, shards: map<string, nat>, k: nat, t: nat,
                     g: string)
    requires order == SortedBy(weights.Keys, weights) && t < |order| && order[t] in weights
    requires forall f :: f in order ==> f in shards
    requires g in weights && g in shards && shards[g] == k && Before(g, order[t], weights)
    ensures g in Held(order, shards, k, t)
  {
    assert g in order;
    var i :| 0 <= i < |order| && order[i] == g;
    BeforeMeansEarlier(order, weights, i, t);
    HeldMembers(order, shards, k, t, g);
  }

  /** What is held before position `t` is what is taken before the file there. */
  lemma HeldIsTaken(order: seq<string>, weights: map<string, int>, shards: map<string, nat>, k: nat, t: nat)
    requires order == SortedBy(weights.Keys, weights) && t < |order| && order[t] in weights
    requires forall f :: f in order ==> f in shards
    ensures Held(order, shards, k, t) == TakenBefore(weights, shards, order[t], k)
  {
    forall g | g in Held(order, shards, k, t) ensures g in TakenBefore(weights, shards, order[t], k) {
      HeldIsBefore(order, weights, shards, k, t, g);
    }
    forall g | g in TakenBefore(weights, shards, order[t], k) ensures g in Held(order, shards, k, t) {
      BeforeIsHeld(order, weights, shards, k, t, g);
    }
  }

  lemma BestKey(a: seq<nat>, w: seq<nat>, n: nat, m: nat, j: nat)
    requires |a| == |w| && Best(a, w, n, m) && j < n && j != m
    ensures KeyLess(G.Load(a, w, m, |a|), G.Count(a, m, |a|), m, G.Load(a, w, j, |a|), G.Count(a, j, |a|), j)
  {
  }

  /** The chosen shard's key at the moment of the choice. */
  lemma ChosenKey(w: seq<nat>, n: nat, t: nat, j: nat)
    requires n >= 1 && t < |w| && j < n && j != Place(w, n)[t]
    ensures var a := Place(w, n); var m := a[t];
      KeyLess(G.Load(a, w, m, t), G.Count(a, m, t), m, G.Load(a, w, j, t), G.Count(a, j, t), j)
  {
    var a := Place(w, n);
    PlacedBest(w, n, t);
    BestKey(a[..t], w[..t], n, a[t], j);
    PrefixLoads(a, w, t, a[t]);
    PrefixLoads(a, w, t, j);
  }

  lemma HeldKey(order: seq<string>, weights: map<string, int>, shards: map<string, nat>, t: nat, m: nat)
    requires Ranked(order, weights) && t <= |order|
    requires forall f :: f in order ==> f in shards && shards[f] >= 1
    ensures Held(order, shards, m + 1, t) <= weights.Keys
    ensures G.Load(Along(order, shards), WeightSeq(order, weights), m, t) ==
      Sum(Held(order, shards, m + 1, t), weights)
    ensures G.Count(Along(order, shards), m, t) == |Held(order, shards, m + 1, t)|
  {
    LoadIsSum(order, shards, weights, m, t);
    CountIsSize(order, shards, m, t);
  }

  lemma HeldWhere(order: seq<string>, weights: map<string, int>, shards: map<string, nat>, t: nat, m: nat, i: nat)
    requires Ranked(order, weights) && t <= |order|
    requires forall f :: f in order ==> f in shards && shards[f] >= 1
    requires var a, w := Along(order, shards), WeightSeq(order, weights);
      KeyLess(G.Load(a, w, m, t), G.Count(a, m, t), m, G.Load(a, w, i, t), G.Count(a, i, t), i)
    ensures Held(order, shards, m + 1, t) <= weights.Keys && Held(order, shards, i + 1, t) <= weights.Keys
    ensures HeldPrecedes(weights, Held(order, shards, m + 1, t), Held(order, shards, i + 1, t), m + 1, i + 1)
  {
    HeldKey(order, weights, shards, t, m);
    HeldKey(order, weights, shards, t, i);
  }

  /** What a shard holds before position `t` is what it takes before the file there. */
  ghost predicate TakenInOrder(order: seq<string>, weights: map<string, int>, shards: map<string, nat>)
    requires forall f :: f in order ==> f in weights && f in shards
  {
    forall t, k :: 0 <= t < |order| && k >= 1 ==>
      Held(order, shards, k, t) == TakenBefore(weights, shards, order[t], k)
  }

  lemma PlacedFile(order: seq<string>, weights: map<string, int>, shards: map<string, nat>, t: nat, m: nat, i: nat)
    requires Ranked(order, weights) && t < |order|
    requires forall f :: f in order ==> f in weights && f in shards && shards[f] >= 1
    requires var a, w := Along(order, shards), WeightSeq(order, weights);
      KeyLess(G.Load(a, w, m, t), G.Count(a, m, t), m, G.Load(a, w, i, t), G.Count(a, i, t), i)
    requires TakenInOrder(order, weights, shards)
    ensures order[t] in weights && Precedes(weights, shards, order[t], m + 1, i + 1)
  {
    HeldWhere(order, weights, shards, t, m, i);
    assert Held(order, shards, m + 1, t) == TakenBefore(weights, shards, order[t], m + 1);
    assert Held(order, shards, i + 1, t) == TakenBefore(weights, shards, order[t], i + 1);
  }

  lemma TakenIsHeld(order: seq<string>, weights: map<string, int>, shards: map<string, nat>)
    requires order == SortedBy(weights.Keys, weights) && shards.Keys == weights.Keys
    ensures forall f :: f in order ==> f in weights && f in shards
    ensures TakenInOrder(order, weights, shards)
  {
    forall t: nat, k: nat | 0 <= t < |order| && k >= 1
      ensures Held(order, shards, k, t) == TakenBefore(weights, shards, order[t], k)
    {
      HeldIsTaken(order, weights, shards, k, t);
    }
  }

  lemma PlacedAt(order: seq<string>, weights: map<string, int>, shards: map<string, nat>, n: nat, t: nat, m: nat,
                 i: nat)
    requires Ranked(order, weights) && n >= 1 && t < |order|
    requires forall f :: f in order ==> f in weights && f in shards && shards[f] >= 1
    requires Along(order, shards) == Place(WeightSeq(order, weights), n)
    requires TakenInOrder(order, weights, shards)
    requires m == Along(order, shards)[t] && i < n && i != m
    ensures order[t] in weights && Precedes(weights, shards, order[t], m + 1, i + 1)
  {
    ChosenKey(WeightSeq(order, weights), n, t, i);
    PlacedFile(order, weights, shards, t, m, i);
  }

  lemma PlacedName(order: seq<string>, weights: map<string, int>, shards: map<string, nat>, n: nat, t: nat, m: nat,
                   i: nat, f: string, k: nat, j: nat)
    requires Ranked(order, weights) && n >= 1 && t < |order|
    requires forall f :: f in order ==> f in weights && f in shards && shards[f] >= 1
    requires Along(order, shards) == Place(WeightSeq(order, weights), n)
    requires TakenInOrder(order, weights, shards)
    requires m == Along(order, shards)[t] && i < n && i != m
    requires f == order[t] && k == m + 1 && j == i + 1
    ensures f in weights && Precedes(weights, shards, f, k, j)
  {
    PlacedAt(order, weights, shards, n, t, m, i);
  }

  lemma IndexOf(order: seq<string>, f: string) returns (t: nat)
    requires f in Elements(order)
    ensures t < |order| && order[t] == f
  {
    t :| 0 <= t < |order| && order[t] == f;
  }

  lemma AllPlaced(order: seq<string>, weights: map<string, int>, shards: map<string, nat>, n: nat)
    requires Ranked(order, weights) && n >= 1 && Elements(order) == weights.Keys == shards.Keys
    requires forall f :: f in order ==> f in weights && f in shards && shards[f] >= 1
    requires Along(order, shards) == Place(WeightSeq(order, weights), n)
    requires TakenInOrder(order, weights, shards)
    ensures Follows(weights, shards, n)
  {
    forall f, j | f in weights && 1 <= j <= n && j != shards[f] ensures Precedes(weights, shards, f, shards[f], j) {
      var t := IndexOf(order, f);
      var m := Along(order, shards)[t];
      PlacedName(order, weights, shards, n, t, m, j - 1, f, shards[f], j);
    }
  }

  lemma MadeFollows(order: seq<string>, weights: map<string, int>, n: nat, shards: map<string, nat>, ms: seq<nat>)
    requires Made(order, weights, n, shards, ms) && order == SortedBy(weights.Keys, weights)
    ensures Follows(weights, shards, n)
  {
    PlannedShards(order, weights, n, shards, ms);
    TakenIsHeld(order, weights, shards);
    AllPlaced(order, weights, shards, n);
  }

  /** The plan puts every file on the shard that, over the files taken before it, has the least load, then the
      fewest files, then the least index. */
  lemma PlanFollows(ids: seq<string>, durations: map<string, int>, n: nat, digests: Digests, plan: ShardPlan,
                    weights: map<string, int>)
    requires Planned(ids, durations, n, digests) == Success(plan)
    requires weights == Weights(Elements(ids), durations)
    ensures Follows(weights, plan.fileShards, n)
  {
    PlanMade(Elements(ids), durations, n, digests);
    MadeFollows(Order(Elements(ids), durations), weights, n, plan.fileShards, plan.shardMs);
  }

  /** Two assignments that agree on what is taken before `f` agree on `f`. */
  lemma SameChoice(weights: map<string, int>, a: map<string, nat>, b: map<string, nat>, n: nat, f: string)
    requires Follows(weights, a, n) && Follows(weights, b, n) && f in weights
    requires 1 <= a[f] <= n && 1 <= b[f] <= n
    requires forall k :: TakenBefore(weights, a, f, k) == TakenBefore(weights, b, f, k)
    ensures a[f] == b[f]
  {
    assert a[f] == b[f] || Precedes(weights, a, f, a[f], b[f]);
    assert a[f] == b[f] || Precedes(weights, b, f, b[f], a[f]);
  }

  lemma SameTaken(weights: map<string, int>, a: map<string, nat>, b: map<string, nat>, f: string)
    requires f in weights && a.Keys == b.Keys == weights.Keys
    requires forall g :: g in weights && Before(g, f, weights) ==> a[g] == b[g]
    ensures forall k :: TakenBefore(weights, a, f, k) == TakenBefore(weights, b, f, k)
  {
  }

  lemma {:induction false} SameUpTo(order: seq<string>, weights: map<string, int>, a: map<string, nat>,
                                    b: map<string, nat>, n: nat, t: nat)
    requires order == SortedBy(weights.Keys, weights) && t <= |order|
    requires Follows(weights, a, n) && Follows(weights, b, n)
    requires Splits(a, weights.Keys, n) && Splits(b, weights.Keys, n)
    ensures forall i :: 0 <= i < t ==> order[i] in weights && a[order[i]] == b[order[i]]
  {
    if t > 0 {
      SameUpTo(order, weights, a, b, n, t - 1);
      var f := order[t - 1];
      assert f in order;
      forall g | g in weights && Before(g, f, weights) ensures a[g] == b[g] {
        assert g in order;
        var i :| 0 <= i < |order| && order[i] == g;
        BeforeMeansEarlier(order, weights, i, t - 1);
      }
      SameTaken(weights, a, b, f);
      SameChoice(weights, a, b, n, f);
    }
  }

  lemma PlaceOf(weights: map<string, int>, f: string) returns (i: nat)
    requires f in weights
    ensures i < |weights| && SortedBy(weights.Keys, weights)[i] == f
  {
    var order := SortedBy(weights.Keys, weights);
    assert f in order;
    i :| 0 <= i < |order| && order[i] == f;
  }

  lemma SameOnAll(weights: map<string, int>, a: map<string, nat>, b: map<string, nat>, n: nat)
    requires Follows(weights, a, n) && Follows(weights, b, n)
    requires Splits(a, weights.Keys, n) && Splits(b, weights.Keys, n)
    ensures a == b
  {
    var order := SortedBy(weights.Keys, weights);
    SameUpTo(order, weights, a, b, n, |order|);
    forall f | f in weights ensures a[f] == b[f] { var i := PlaceOf(weights, f); }
  }

  /** And it is the only assignment to shards 1..N that does. */
  lemma OnePlan(ids: seq<string>, durations: map<string, int>, n: nat, digests: Digests, plan: ShardPlan,
                weights: map<string, int>, other: map<string, nat>)
    requires Planned(ids, durations, n, digests) == Success(plan)
    requires weights == Weights(Elements(ids), durations)
    requires Splits(other, weights.Keys, n) && Follows(weights, other, n)
    ensures other == plan.fileShards
  {
    PlanFollows(ids, durations, n, digests, plan, weights);
    PlanCovers(ids, durations, n, digests, plan, weights);
    SameOnAll(weights, other, plan.fileShards, n);
  }

  // ---------------------------------------------------------------- the rest of the plan

  lemma SortedPairs(shards: map<string, nat>)
    ensures |Pairs(shards)| == |shards|
    ensures forall i, j :: 0 <= i < j < |shards| ==> Less(Pairs(shards)[i].0, Pairs(shards)[j].0)
    ensures forall i :: 0 <= i < |shards| ==>
      Pairs(shards)[i].0 in shards && shards[Pairs(shards)[i].0] == Pairs(shards)[i].1
  {
    var keys := Sorted(shards.Keys);
    forall i | 0 <= i < |shards| ensures Pairs(shards)[i].0 in shards { assert keys[i] in keys; }
  }

  lemma UnknownListed(ids: set<string>, durations: map<string, int>, unknown: seq<string>)
    requires unknown == Sorted(Files(ids) - Known(ids, durations))
    ensures Canonical(unknown) && forall f :: f in unknown <==> f in Files(ids) && f !in durations
  {
  }

  lemma PlanParts(ids: seq<string>, durations: map<string, int>, n: nat, digests: Digests, plan: ShardPlan)
    requires Planned(ids, durations, n, digests) == Success(plan)
    ensures plan.unknownFiles == Sorted(Files(Elements(ids)) - Known(Elements(ids), durations))
    ensures plan.assignmentDigest == digests.pairs(Pairs(plan.fileShards))
  {
  }

  /** The unrecorded files are listed sorted, and the digest is over the files with their shards, sorted by file. */
  lemma PlanRecords(ids: seq<string>, durations: map<string, int>, n: nat, digests: Digests, plan: ShardPlan)
    returns (pairs: seq<(string, nat)>)
    requires Planned(ids, durations, n, digests) == Success(plan)
    ensures Canonical(plan.unknownFiles)
    ensures forall f :: f in plan.unknownFiles <==> f in Files(Elements(ids)) && f !in durations
    ensures plan.assignmentDigest == digests.pairs(pairs) && |pairs| == |plan.fileShards|
    ensures forall i, j :: 0 <= i < j < |pairs| ==> Less(pairs[i].0, pairs[j].0)
    ensures forall i :: 0 <= i < |pairs| ==>
      pairs[i].0 in plan.fileShards && plan.fileShards[pairs[i].0] == pairs[i].1
  {
    PlanParts(ids, durations, n, digests, plan);
    pairs := Pairs(plan.fileShards);
    SortedPairs(plan.fileShards);
    UnknownListed(Elements(ids), durations, plan.unknownFiles);
  }

  lemma UnusableMeans(ids: seq<string>, durations: map<string, int>, files: set<string>)
    requires files == set x | x in ids :: NodeFile(x)
    ensures files == Files(Elements(ids))
    ensures DurationsValid(Elements(ids), durations) <==>
      !exists f :: f in files && f in durations && durations[f] < 1
  {
    assert files == Files(Elements(ids));
    assert forall f :: f in Known(Elements(ids), durations) <==> f in files && f in durations;
  }

  /** Why there is no plan, in the order in which the planner looks. */
  lemma RefusedWhen(ids: seq<string>, durations: map<string, int>, n: int, digests: Digests, files: set<string>,
                    unusable: bool)
    requires files == set x | x in ids :: NodeFile(x)
    requires unusable <==> exists f :: f in files && f in durations && durations[f] < 1
    ensures match Planned(ids, durations, n, digests)
      case Failure(ShardCountInvalid) => n < 1
      case Failure(DuplicateNodes) => n >= 1 && !Distinct(ids)
      case Failure(DurationInvalid) => n >= 1 && Distinct(ids) && unusable
      case Failure(EmptyShard) => n >= 1 && Distinct(ids) && !unusable && |files| < n
      case Success(_) => n >= 1 && Distinct(ids) && !unusable && |files| >= n
  {
    UnusableMeans(ids, durations, files);
  }
}
