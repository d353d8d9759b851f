/** What the shard plan promises, for every collection, durations file and shard count. */
module PlannerProperties {
  import opened Wrappers
  import opened Ordering
  import opened NodeIds
  import opened Planner
  import G = Graham

  /** The files a (1-based) shard holds. */
  function FilesOn(shards: map<string, nat>, shard: nat): set<string> {
    set f | f in shards && shards[f] == shard
  }

  /** The collected nodes whose file the plan gives to `shard`, sorted. */
  ghost function AssignedNodeids(ids: set<string>, shards: map<string, nat>, shard: nat): seq<string> {
    Sorted(set n | n in ids && NodeFile(n) in shards && shards[NodeFile(n)] == shard)
  }

  // ---------------------------------------------------------------- order independence

  /** Any permutation of the node IDs gives the identical plan, or the identical refusal. */
  lemma PlanIgnoresOrder(ids: seq<string>, other: seq<string>, durations: map<string, int>, n: int, digests: Digests)
    requires multiset(ids) == multiset(other)
    ensures Planned(ids, durations, n, digests) == Planned(other, durations, n, digests)
  {
    forall x ensures x in ids <==> x in other {
      assert x in ids <==> x in multiset(ids);
      assert x in other <==> x in multiset(other);
    }
    assert Elements(ids) == Elements(other);
    assert |multiset(ids)| == |ids| && |multiset(other)| == |other|;
    DistinctSize(ids);
    DistinctSize(other);
  }

  // ---------------------------------------------------------------- sequences and maps

  /** `shards` read along an order, 0-based. */
  ghost function Along(order: seq<string>, shards: map<string, nat>): (a: seq<nat>)
    requires forall f :: f in order ==> f in shards && shards[f] >= 1
    ensures |a| == |order|
    ensures forall i :: 0 <= i < |order| ==> a[i] == shards[order[i]] - 1
  {
    seq(|order|, i requires 0 <= i < |order| => assert order[i] in order; shards[order[i]] - 1)
  }

  lemma {:induction false} ShardMapAt(order: seq<string>, a: seq<nat>, i: nat)
    requires |a| == |order| && Distinct(order) && i < |order|
    ensures order[i] in ShardMap(order, a) && ShardMap(order, a)[order[i]] == a[i] + 1
  {
    if i < |order| - 1 {
      var o := order[..|order| - 1];
      assert o[i] == order[i] && order[i] != order[|order| - 1];
      ShardMapAt(o, a[..|a| - 1], i);
    }
  }

  ghost predicate Ranked(order: seq<string>, weights: map<string, int>) {
    && Distinct(order)
    && (forall f :: f in order ==> f in weights && weights[f] >= 1)
    && forall i, j :: 0 <= i < j < |order| ==> weights[order[i]] >= weights[order[j]]
  }

  /** The files among the first `t` that `shards` gives to shard `k`. */
  ghost function Held(order: seq<string>, shards: map<string, nat>, k: nat, t: nat): set<string>
    requires t <= |order| && forall f :: f in order ==> f in shards
  {
    if t == 0 then {} else
      Held(order, shards, k, t - 1) + if shards[order[t - 1]] == k then {order[t - 1]} else {}
  }

  lemma {:induction false} HeldMembers(order: seq<string>, shards: map<string, nat>, k: nat, t: nat, f: string)
    requires t <= |order| && forall f :: f in order ==> f in shards
    ensures f in Held(order, shards, k, t) <==> exists i :: 0 <= i < t && order[i] == f && shards[f] == k
  {
    if t > 0 { HeldMembers(order, shards, k, t - 1, f); }
  }

  lemma HeldAll(order: seq<string>, shards: map<string, nat>, k: nat)
    requires Elements(order) == shards.Keys
    ensures forall f :: f in order ==> f in shards
    ensures Held(order, shards, k, |order|) == FilesOn(shards, k)
  {
    forall f | f in order ensures f in shards { assert f in Elements(order); }
    forall f ensures f in Held(order, shards, k, |order|) <==> f in FilesOn(shards, k) {
      HeldMembers(order, shards, k, |order|, f);
      if f in shards { assert f in Elements(order); }
    }
  }

  lemma HeldStep(order: seq<string>, shards: map<string, nat>, weights: map<string, int>, k: nat, t: nat)
    requires 1 <= t <= |order| && Distinct(order)
    requires forall f :: f in order ==> f in shards && f in weights
    requires Held(order, shards, k, t - 1) <= weights.Keys
    ensures Held(order, shards, k, t) <= weights.Keys
    ensures Sum(Held(order, shards, k, t), weights) ==
      Sum(Held(order, shards, k, t - 1), weights) + if shards[order[t - 1]] == k then weights[order[t - 1]] else 0
  {
    var f := order[t - 1];
    assert f in order;
    if shards[f] == k {
      HeldMembers(order, shards, k, t - 1, f);
      SumAdd(Held(order, shards, k, t - 1), weights, f);
    } else {
      assert Held(order, shards, k, t) == Held(order, shards, k, t - 1);
    }
  }

  lemma LoadStep(order: seq<string>, shards: map<string, nat>, weights: map<string, int>, m: nat, t: nat)
    requires 1 <= t <= |order| && Ranked(order, weights)
    requires forall f :: f in order ==> f in shards && shards[f] >= 1
    ensures order[t - 1] in shards && order[t - 1] in weights
    ensures G.Load(Along(order, shards), WeightSeq(order, weights), m, t) ==
      G.Load(Along(order, shards), WeightSeq(order, weights), m, t - 1) +
      if shards[order[t - 1]] == m + 1 then weights[order[t - 1]] else 0
  {
    assert order[t - 1] in order;
    assert WeightSeq(order, weights)[t - 1] == weights[order[t - 1]];
    assert Along(order, shards)[t - 1] == shards[order[t - 1]] - 1;
  }

  /** A shard's load along the order is the weight of the files it holds. */
  lemma {:induction false} LoadIsSum(order: seq<string>, shards: map<string, nat>, weights: map<string, int>, m: nat,
                                     t: nat)
    requires t <= |order| && Ranked(order, weights)
    requires forall f :: f in order ==> f in shards && shards[f] >= 1
    ensures Held(order, shards, m + 1, t) <= weights.Keys
    ensures G.Load(Along(order, shards), WeightSeq(order, weights), m, t) == Sum(Held(order, shards, m + 1, t), weights)
  {
    if t > 0 {
      LoadIsSum(order, shards, weights, m, t - 1);
      HeldStep(order, shards, weights, m + 1, t);
      LoadStep(order, shards, weights, m, t);
    }
  }

  lemma PrefixStep(order: seq<string>, t: nat)
    requires 1 <= t <= |order| && Distinct(order)
    ensures order[t - 1] !in Elements(order[..t - 1])
    ensures Elements(order[..t]) == Elements(order[..t - 1]) + {order[t - 1]}
  {
    assert order[..t] == order[..t - 1] + [order[t - 1]];
  }

  /** The whole weight is the sum over the order. */
  lemma {:induction false} PrefixIsSum(order: seq<string>, weights: map<string, int>, w: seq<nat>, t: nat)
    requires t <= |order| == |w| && Distinct(order)
    requires forall i :: 0 <= i < |order| ==> order[i] in weights && w[i] == weights[order[i]]
    ensures Elements(order[..t]) <= weights.Keys
    ensures G.PrefixSum(w, t) == Sum(Elements(order[..t]), weights)
  {
    if t > 0 {
      PrefixIsSum(order, weights, w, t - 1);
      PrefixStep(order, t);
      SumAdd(Elements(order[..t - 1]), weights, order[t - 1]);
    }
  }

  lemma SeqFacts(order: seq<string>, weights: map<string, int>)
    requires Ranked(order, weights)
    ensures G.Positive(WeightSeq(order, weights)) && G.Descending(WeightSeq(order, weights))
  {
    forall i | 0 <= i < |order| ensures WeightSeq(order, weights)[i] >= 1 { assert order[i] in order; }
  }

  // ---------------------------------------------------------------- the parts of a plan

  /** The order, weights and shards that a successful plan is made of. */
  ghost predicate Made(order: seq<string>, weights: map<string, int>, n: nat, shards: map<string, nat>, ms: seq<nat>)
  {
    && n >= 1 && Ranked(order, weights) && Elements(order) == weights.Keys
    && shards == ShardMap(order, Place(WeightSeq(order, weights), n))
    && ms == LoadSeq(Place(WeightSeq(order, weights), n), WeightSeq(order, weights), n)
  }

  lemma RankedOrder(files: set<string>, weights: map<string, int>, order: seq<string>)
    requires weights.Keys == files && order == SortedBy(files, weights)
    requires forall f :: f in files ==> weights[f] >= 1
    ensures Ranked(order, weights) && Elements(order) == weights.Keys
  {
    SortedByDistinct(files, weights);
    forall i, j | 0 <= i < j < |order| ensures weights[order[i]] >= weights[order[j]] {
      assert Before(order[i], order[j], weights);
    }
  }

  lemma PlanMade(ids: set<string>, durations: map<string, int>, n: nat, digests: Digests)
    requires n >= 1 && DurationsValid(ids, durations)
    ensures var plan := PlanOf(ids, durations, n, digests);
      Made(Order(ids, durations), Weights(ids, durations), n, plan.fileShards, plan.shardMs)
  {
    var weights := Weights(ids, durations);
    var order := Order(ids, durations);
    WeightsPositive(ids, durations);
    RankedOrder(Files(ids), weights, order);
  }

  /** `other` splits the same files over the same shards. */
  ghost predicate Splits(other: map<string, nat>, files: set<string>, n: nat) {
    other.Keys == files && forall f :: f in other ==> 1 <= other[f] <= n
  }

  lemma PlacedShards(order: seq<string>, files: set<string>, a: seq<nat>, n: nat, shards: map<string, nat>)
    requires Distinct(order) && Elements(order) == files && |a| == |order| && shards == ShardMap(order, a)
    requires forall i :: 0 <= i < |a| ==> a[i] < n
    ensures Splits(shards, files, n)
    ensures forall f :: f in order ==> f in shards && shards[f] >= 1
    ensures Along(order, shards) == a
  {
    forall f | f in order ensures f in shards && 1 <= shards[f] <= n {
      var i :| 0 <= i < |order| && order[i] == f;
      ShardMapAt(order, a, i);
    }
    forall f ensures f in shards <==> f in files { assert f in order <==> f in Elements(order); }
    forall i | 0 <= i < |order| ensures Along(order, shards)[i] == a[i] { ShardMapAt(order, a, i); }
  }

  lemma PlannedShards(order: seq<string>, weights: map<string, int>, n: nat, shards: map<string, nat>, ms: seq<nat>)
    requires Made(order, weights, n, shards, ms)
    ensures Splits(shards, weights.Keys, n)
    ensures forall f :: f in order ==> f in shards && shards[f] >= 1
    ensures Along(order, shards) == Place(WeightSeq(order, weights), n)
  {
    PlacedShards(order, weights.Keys, Place(WeightSeq(order, weights), n), n, shards);
  }

  lemma LoadOfSplit(order: seq<string>, weights: map<string, int>, n: nat, other: map<string, nat>, k: nat)
    requires Ranked(order, weights) && Elements(order) == weights.Keys
    requires Splits(other, weights.Keys, n)
    ensures forall f :: f in order ==> f in other && other[f] >= 1
    ensures FilesOn(other, k + 1) <= weights.Keys
    ensures G.Load(Along(order, other), WeightSeq(order, weights), k, |order|) == Sum(FilesOn(other, k + 1), weights)
  {
    HeldAll(order, other, k + 1);
    LoadIsSum(order, other, weights, k, |order|);
  }

  lemma WeightOfShard(order: seq<string>, weights: map<string, int>, n: nat, shards: map<string, nat>, a: seq<nat>,
                      k: nat)
    requires Ranked(order, weights) && Elements(order) == weights.Keys && Splits(shards, weights.Keys, n) && 1 <= k
    requires (forall f :: f in order ==> f in shards && shards[f] >= 1) && Along(order, shards) == a
    ensures FilesOn(shards, k) <= weights.Keys
    ensures G.Load(a, WeightSeq(order, weights), k - 1, |order|) == Sum(FilesOn(shards, k), weights)
  {
    LoadOfSplit(order, weights, n, shards, k - 1);
  }

  lemma EstimateIsLoad(order: seq<string>, weights: map<string, int>, n: nat, shards: map<string, nat>, ms: seq<nat>,
                       k: nat)
    requires Made(order, weights, n, shards, ms) && 1 <= k <= n
    ensures |ms| == n && ms[k - 1] ==
      G.Load(Place(WeightSeq(order, weights), n), WeightSeq(order, weights), k - 1, |order|)
  {
  }

  /** Shard `k`'s estimate is the weight of its files. */
  lemma ShardWeight(order: seq<string>, weights: map<string, int>, n: nat, shards: map<string, nat>, ms: seq<nat>,
                    k: nat)
    requires Made(order, weights, n, shards, ms) && 1 <= k <= n
    ensures FilesOn(shards, k) <= weights.Keys
    ensures ms[k - 1] == Sum(FilesOn(shards, k), weights)
  {
    PlannedShards(order, weights, n, shards, ms);
    WeightOfShard(order, weights, n, shards, Place(WeightSeq(order, weights), n), k);
    EstimateIsLoad(order, weights, n, shards, ms, k);
  }

  lemma {:induction false} Occupied(a: seq<nat>, m: nat, t: nat)
    requires t <= |a| && G.Count(a, m, t) >= 1
    ensures exists i :: 0 <= i < t && a[i] == m
  {
    if a[t - 1] != m { Occupied(a, m, t - 1); }
  }

  /** No shard is empty when there are at least as many files as shards. */
  lemma ShardFilled(order: seq<string>, weights: map<string, int>, n: nat, shards: map<string, nat>, ms: seq<nat>,
                    k: nat)
    requires Made(order, weights, n, shards, ms) && 1 <= k <= n <= |order|
    ensures FilesOn(shards, k) != {}
  {
    var w := WeightSeq(order, weights);
    var a := Place(w, n);
    SeqFacts(order, weights);
    NoShardEmpty(w, n, k - 1);
    Occupied(a, k - 1, |a|);
    var i :| 0 <= i < |a| && a[i] == k - 1;
    ShardMapAt(order, a, i);
    assert order[i] in FilesOn(shards, k);
  }

  ghost function SeqSum(s: seq<nat>): nat { if s == [] then 0 else SeqSum(s[..|s| - 1]) + s[|s| - 1] }

  lemma {:induction false} SeqSumIsLoads(a: seq<nat>, w: seq<nat>, n: nat, ms: seq<nat>, k: nat)
    requires |a| == |w| && ms == LoadSeq(a, w, n) && k <= n
    ensures SeqSum(ms[..k]) == G.LoadOver(a, w, k, |w|)
  {
    if k > 0 {
      SeqSumIsLoads(a, w, n, ms, k - 1);
      assert ms[..k][..k - 1] == ms[..k - 1];
    }
  }

  lemma TotalWeight(order: seq<string>, weights: map<string, int>, n: nat, shards: map<string, nat>, ms: seq<nat>)
    requires Made(order, weights, n, shards, ms)
    ensures SeqSum(ms) == Sum(weights.Keys, weights)
  {
    var w := WeightSeq(order, weights);
    var a := Place(w, n);
    G.LoadsTotal(a, w, n, |w|);
    SeqSumIsLoads(a, w, n, ms, n);
    assert ms[..n] == ms;
    PrefixIsSum(order, weights, WeightSeq(order, weights), |order|);
    assert order[..|order|] == order;
  }

  lemma MadeCovers(order: seq<string>, weights: map<string, int>, n: nat, shards: map<string, nat>, ms: seq<nat>)
    requires Made(order, weights, n, shards, ms)
    ensures Splits(shards, weights.Keys, n)
    ensures forall k :: 1 <= k <= n ==>
      FilesOn(shards, k) <= weights.Keys && ms[k - 1] == Sum(FilesOn(shards, k), weights)
    ensures n <= |order| ==> forall k :: 1 <= k <= n ==> FilesOn(shards, k) != {}
    ensures SeqSum(ms) == Sum(weights.Keys, weights)
  {
    PlannedShards(order, weights, n, shards, ms);
    forall k | 1 <= k <= n
      ensures FilesOn(shards, k) <= weights.Keys && ms[k - 1] == Sum(FilesOn(shards, k), weights)
      ensures n <= |order| ==> FilesOn(shards, k) != {}
    {
      ShardWeight(order, weights, n, shards, ms, k);
      if n <= |order| { ShardFilled(order, weights, n, shards, ms, k); }
    }
    TotalWeight(order, weights, n, shards, ms);
  }

  /** Every collected file has one shard in 1..N, no shard is empty, each shard's estimate is the
      weight of its files, and the estimates sum to the weight of the collection. */
  lemma PlanCovers(ids: seq<string>, durations: map<string, int>, n: nat, digests: Digests, plan: ShardPlan,
                   weights: map<string, int>)
    requires Planned(ids, durations, n, digests) == Success(plan)
    requires weights == Weights(Elements(ids), durations)
    ensures Splits(plan.fileShards, Files(Elements(ids)), n)
    ensures |plan.shardMs| == n
    ensures forall k :: 1 <= k <= n ==> FilesOn(plan.fileShards, k) != {}
    ensures forall k :: 1 <= k <= n ==> plan.shardMs[k - 1] == Sum(FilesOn(plan.fileShards, k), weights)
    ensures SeqSum(plan.shardMs) == Sum(weights.Keys, weights)
  {
    var order := Order(Elements(ids), durations);
    PlanMade(Elements(ids), durations, n, digests);
    MadeCovers(order, weights, n, plan.fileShards, plan.shardMs);
    assert |order| == |Files(Elements(ids))|;
  }

  // ---------------------------------------------------------------- the bound

  /** Another split as an assignment of positions, with none of its loads above `most`. */
  lemma SplitLoads(order: seq<string>, weights: map<string, int>, n: nat, other: map<string, nat>, most: nat)
    returns (b: seq<nat>)
    requires Ranked(order, weights) && Elements(order) == weights.Keys && Splits(other, weights.Keys, n)
    requires forall k :: 1 <= k <= n ==> Sum(FilesOn(other, k), weights) <= most
    ensures |b| == |order| && forall i :: 0 <= i < |b| ==> b[i] < n
    ensures forall k :: 0 <= k < n ==> G.Load(b, WeightSeq(order, weights), k, |order|) <= most
  {
    HeldAll(order, other, 1);
    b := Along(order, other);
    forall i | 0 <= i < |b| ensures b[i] < n { assert order[i] in order; }
    forall k | 0 <= k < n ensures G.Load(b, WeightSeq(order, weights), k, |order|) <= most {
      LoadOfSplit(order, weights, n, other, k);
      assert Sum(FilesOn(other, k + 1), weights) <= most;
    }
  }

  lemma MadeNearOptimal(order: seq<string>, weights: map<string, int>, n: nat, shards: map<string, nat>, ms: seq<nat>,
                        other: map<string, nat>, most: nat, shard: nat)
    requires Made(order, weights, n, shards, ms) && Splits(other, weights.Keys, n)
    requires forall k :: 1 <= k <= n ==> Sum(FilesOn(other, k), weights) <= most
    requires 1 <= shard <= n
    ensures 3 * n * ms[shard - 1] <= (4 * n - 1) * most
  {
    var w := WeightSeq(order, weights);
    SeqFacts(order, weights);
    PlaceGreedy(w, n);
    var b := SplitLoads(order, weights, n, other, most);
    G.Bound(Place(w, n), b, w, n, most, shard - 1);
    EstimateIsLoad(order, weights, n, shards, ms, shard);
  }

  /** No shard of the plan is estimated above (4N-1)/(3N) times the longest shard of any other split. */
  lemma NearOptimal(ids: seq<string>, durations: map<string, int>, n: nat, digests: Digests, plan: ShardPlan,
                    weights: map<string, int>, other: map<string, nat>, most: nat, shard: nat)
    requires Planned(ids, durations, n, digests) == Success(plan)
    requires weights == Weights(Elements(ids), durations)
    requires Splits(other, Files(Elements(ids)), n)
    requires forall k :: 1 <= k <= n ==> Sum(FilesOn(other, k), weights) <= most
    requires 1 <= shard <= n
    ensures |plan.shardMs| == n && 3 * n * plan.shardMs[shard - 1] <= (4 * n - 1) * most
  {
    PlanMade(Elements(ids), durations, n, digests);
    MadeNearOptimal(Order(Elements(ids), durations), weights, n, plan.fileShards, plan.shardMs, other, most, shard);
  }

  lemma MadeLevel(order: seq<string>, weights: map<string, int>, n: nat, shards: map<string, nat>, ms: seq<nat>,
                  heaviest: nat, i: nat, j: nat)
    requires Made(order, weights, n, shards, ms) && i < n && j < n
    requires forall f :: f in weights ==> weights[f] <= heaviest
    ensures ms[i] <= ms[j] + heaviest
  {
    var w := WeightSeq(order, weights);
    PlaceGreedy(w, n);
    forall k | 0 <= k < |w| ensures w[k] <= heaviest { assert order[k] in order; }
    G.Balanced(Place(w, n), w, n, |w|, i, j, heaviest);
  }

  /** The longest and the shortest shard differ by at most one file. */
  lemma NearlyLevel(ids: seq<string>, durations: map<string, int>, n: nat, digests: Digests, plan: ShardPlan,
                    weights: map<string, int>, heaviest: nat, i: nat, j: nat)
    requires Planned(ids, durations, n, digests) == Success(plan)
    requires weights == Weights(Elements(ids), durations)
    requires forall f :: f in weights ==> weights[f] <= heaviest
    requires i < n && j < n
    ensures |plan.shardMs| == n && plan.shardMs[i] <= plan.shardMs[j] + heaviest
  {
    var order := Order(Elements(ids), durations);
    PlanMade(Elements(ids), durations, n, digests);
    MadeLevel(order, weights, n, plan.fileShards, plan.shardMs, heaviest, i, j);
  }

  // ---------------------------------------------------------------- the nodes each shard runs

  ghost function AllAssigned(ids: set<string>, shards: map<string, nat>, n: nat): multiset<string> {
    if n == 0 then multiset{} else AllAssigned(ids, shards, n - 1) + multiset(AssignedNodeids(ids, shards, n))
  }

  lemma {:induction false} AssignedOnce(ids: set<string>, shards: map<string, nat>, n: nat, x: string)
    ensures AllAssigned(ids, shards, n)[x] ==
      if x in ids && NodeFile(x) in shards && 1 <= shards[NodeFile(x)] <= n then 1 else 0
  {
    if n > 0 {
      AssignedOnce(ids, shards, n - 1, x);
      CanonicalDistinct(AssignedNodeids(ids, shards, n));
      DistinctOnce(AssignedNodeids(ids, shards, n), x);
    }
  }

  lemma SplitPartition(ids: seq<string>, n: nat, shards: map<string, nat>)
    requires Distinct(ids) && Splits(shards, Files(Elements(ids)), n)
    ensures AllAssigned(Elements(ids), shards, n) == multiset(ids)
  {
    forall x ensures AllAssigned(Elements(ids), shards, n)[x] == multiset(ids)[x] {
      AssignedOnce(Elements(ids), shards, n, x);
      DistinctOnce(ids, x);
      if x in ids { assert x in Elements(ids) && NodeFile(x) in Files(Elements(ids)); }
    }
  }

  lemma ShardHasNode(nodes: set<string>, n: nat, shards: map<string, nat>, k: nat, f: string)
    requires Splits(shards, Files(nodes), n) && f in FilesOn(shards, k)
    ensures AssignedNodeids(nodes, shards, k) != []
  {
    assert f in Files(nodes);
    var x :| x in nodes && NodeFile(x) == f;
    assert x in AssignedNodeids(nodes, shards, k);
  }

  /** Each collected node is in exactly one shard's list, once. */
  lemma AssignedPartition(ids: seq<string>, durations: map<string, int>, n: nat, digests: Digests, plan: ShardPlan)
    requires Planned(ids, durations, n, digests) == Success(plan)
    ensures AllAssigned(Elements(ids), plan.fileShards, n) == multiset(ids)
    ensures forall k :: 1 <= k <= n ==> AssignedNodeids(Elements(ids), plan.fileShards, k) != []
  {
    PlanCovers(ids, durations, n, digests, plan, Weights(Elements(ids), durations));
    SplitPartition(ids, n, plan.fileShards);
    forall k | 1 <= k <= n ensures AssignedNodeids(Elements(ids), plan.fileShards, k) != [] {
      var f :| f in FilesOn(plan.fileShards, k);
      ShardHasNode(Elements(ids), n, plan.fileShards, k, f);
    }
  }
}
