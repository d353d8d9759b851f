/** The shard planner: every collected file goes to one shard, longest first. */
module Planner {
  import opened Wrappers
  import opened Ordering
  import opened NodeIds
  import G = Graham

  const FALLBACK_NODE_MS := 1000

  datatype PlanError = ShardCountInvalid | DuplicateNodes | DurationInvalid | EmptyShard

  datatype ShardPlan = ShardPlan(
    fileShards: map<string, nat>,
    shardMs: seq<nat>,
    unknownFiles: seq<string>,
    assignmentDigest: string)

  // ---------------------------------------------------------------- weights

  function Files(ids: set<string>): set<string> { set n | n in ids :: NodeFile(n) }

  function NodesOf(ids: set<string>, file: string): set<string> { set n | n in ids && NodeFile(n) == file }

  function Known(ids: set<string>, durations: map<string, int>): set<string> {
    set f | f in Files(ids) && f in durations
  }

  /** Nodes per file. */
  ghost function Counts(ids: set<string>): (r: map<string, int>)
    ensures r.Keys == Files(ids)
  {
    map f | f in Files(ids) :: |NodesOf(ids, f)|
  }

  ghost predicate DurationsValid(ids: set<string>, durations: map<string, int>) {
    forall f :: f in Known(ids, durations) ==> durations[f] >= 1
  }

  /** Mean milliseconds per node over the known files, at least 1; the fallback when none is known. */
  ghost function PerNode(ids: set<string>, durations: map<string, int>): int {
    var known := Known(ids, durations);
    var nodes := Sum(known, Counts(ids));
    if nodes == 0 then FALLBACK_NODE_MS else
      var mean := Sum(known, durations) / nodes;
      if mean > 1 then mean else 1
  }

  ghost function Weights(ids: set<string>, durations: map<string, int>): (r: map<string, int>)
    ensures r.Keys == Files(ids)
  {
    map f | f in Files(ids) ::
      if f in durations then durations[f] else |NodesOf(ids, f)| * PerNode(ids, durations)
  }

  lemma FileHasNode(ids: set<string>, file: string)
    requires file in Files(ids)
    ensures |NodesOf(ids, file)| >= 1
  {
    var n :| n in ids && NodeFile(n) == file;
    assert n in NodesOf(ids, file);
  }

  lemma WeightsPositive(ids: set<string>, durations: map<string, int>)
    requires DurationsValid(ids, durations)
    ensures forall f :: f in Files(ids) ==> Weights(ids, durations)[f] >= 1
  {
    forall f | f in Files(ids) ensures Weights(ids, durations)[f] >= 1 {
      FileHasNode(ids, f);
      if f in durations {
        assert f in Known(ids, durations);
      } else {
        G.Times(PerNode(ids, durations), 1, |NodesOf(ids, f)|);
      }
    }
  }

  // ---------------------------------------------------------------- the placement rule

  /** `min(..., key=lambda index: (loads[index], sizes[index], index))`. */
  predicate KeyLess(load1: nat, size1: nat, index1: nat, load2: nat, size2: nat, index2: nat) {
    load1 < load2 || (load1 == load2 && (size1 < size2 || (size1 == size2 && index1 < index2)))
  }

  /** Shard `m` has the least (load, size, index) after the placements `a`. */
  ghost predicate Best(a: seq<nat>, w: seq<nat>, n: nat, m: nat)
    requires |a| == |w|
  {
    m < n &&
    forall k :: 0 <= k < n && k != m ==>
      KeyLess(G.Load(a, w, m, |a|), G.Count(a, m, |a|), m, G.Load(a, w, k, |a|), G.Count(a, k, |a|), k)
  }

  ghost function BestShard(a: seq<nat>, w: seq<nat>, n: nat): (m: nat)
    requires |a| == |w| && n >= 1
    ensures Best(a, w, n, m)
  {
    if n == 1 then 0 else
      var m := BestShard(a, w, n - 1);
      if KeyLess(G.Load(a, w, n - 1, |a|), G.Count(a, n - 1, |a|), n - 1, G.Load(a, w, m, |a|), G.Count(a, m, |a|), m)
      then n - 1 else m
  }

  /** The shard of each file, in the order the files are taken. */
  ghost function Place(w: seq<nat>, n: nat): (a: seq<nat>)
    requires n >= 1
    ensures |a| == |w| && G.Within(a, n)
  {
    if w == [] then [] else
      var v := w[..|w| - 1];
      var a := Place(v, n);
      a + [BestShard(a, v, n)]
  }

  lemma {:induction false} LoadPrefix(a: seq<nat>, w: seq<nat>, b: seq<nat>, v: seq<nat>, m: nat, t: nat)
    requires t <= |a| == |w| && |b| == |v|
    ensures G.Load(a + b, w + v, m, t) == G.Load(a, w, m, t)
    ensures G.Count(a + b, m, t) == G.Count(a, m, t)
  {
    if t > 0 { LoadPrefix(a, w, b, v, m, t - 1); }
  }

  lemma {:induction false} PlaceGreedy(w: seq<nat>, n: nat)
    requires n >= 1
    ensures G.Greedy(Place(w, n), w, n)
  {
    if w != [] {
      var v := w[..|w| - 1];
      var a := Place(v, n);
      var x := BestShard(a, v, n);
      PlaceGreedy(v, n);
      assert w == v + [w[|w| - 1]];
      assert Place(w, n) == a + [x];
      forall t, m {:trigger G.Load(a + [x], w, m, t)} | 0 <= t < |w| && 0 <= m < n
        ensures G.Load(a + [x], w, (a + [x])[t], t) <= G.Load(a + [x], w, m, t)
      {
        LoadPrefix(a, v, [x], [w[|w| - 1]], m, t);
        LoadPrefix(a, v, [x], [w[|w| - 1]], (a + [x])[t], t);
        if t < |a| {
          assert G.Load(a, v, a[t], t) <= G.Load(a, v, m, t);
        }
      }
    }
  }

  // ---------------------------------------------------------------- the plan as a function of the node set

  ghost function Order(ids: set<string>, durations: map<string, int>): seq<string> {
    SortedBy(Files(ids), Weights(ids, durations))
  }

  ghost function WeightSeq(order: seq<string>, weights: map<string, int>): (w: seq<nat>)
    requires forall f :: f in order ==> f in weights && weights[f] >= 0
    ensures |w| == |order|
    ensures forall i :: 0 <= i < |order| ==> w[i] == weights[order[i]]
  {
    seq(|order|, i requires 0 <= i < |order| => assert order[i] in order; weights[order[i]])
  }

  /** Files mapped to 1-based shards by the placements of an order without repeats. */
  ghost function ShardMap(order: seq<string>, a: seq<nat>): (r: map<string, nat>)
    requires |a| == |order|
    ensures forall f :: f in r <==> f in order
  {
    if order == [] then map[] else
      ShardMap(order[..|order| - 1], a[..|a| - 1])[order[|order| - 1] := a[|a| - 1] + 1]
  }

  ghost function Pairs(shards: map<string, nat>): (r: seq<(string, nat)>)
    ensures |r| == |shards|
    ensures forall i :: 0 <= i < |r| ==> r[i] == (Sorted(shards.Keys)[i], shards[Sorted(shards.Keys)[i]])
  {
    var keys := Sorted(shards.Keys);
    seq(|keys|, i requires 0 <= i < |keys| => assert keys[i] in keys; (keys[i], shards[keys[i]]))
  }

  ghost function LoadSeq(a: seq<nat>, w: seq<nat>, n: nat): (r: seq<nat>)
    requires |a| == |w|
    ensures |r| == n
    ensures forall m :: 0 <= m < n ==> r[m] == G.Load(a, w, m, |w|)
  {
    seq(n, m requires 0 <= m < n => G.Load(a, w, m, |w|))
  }

  ghost function PlanOf(ids: set<string>, durations: map<string, int>, n: nat, digests: Digests): ShardPlan
    requires n >= 1 && DurationsValid(ids, durations)
  {
    WeightsPositive(ids, durations);
    var order := Order(ids, durations);
    var w := WeightSeq(order, Weights(ids, durations));
    var a := Place(w, n);
    var shards := ShardMap(order, a);
    ShardPlan(shards, LoadSeq(a, w, n), Sorted(Files(ids) - Known(ids, durations)), digests.pairs(Pairs(shards)))
  }

  /** What the planner answers, errors included. */
  ghost function Planned(ids: seq<string>, durations: map<string, int>, n: int, digests: Digests)
    : Result<ShardPlan, PlanError> {
    var nodes := Elements(ids);
    if n < 1 then Failure(ShardCountInvalid)
    else if !Distinct(ids) then Failure(DuplicateNodes)
    else if !DurationsValid(nodes, durations) then Failure(DurationInvalid)
    else if |Files(nodes)| < n then Failure(EmptyShard)
    else Success(PlanOf(nodes, durations, n, digests))
  }

  // ---------------------------------------------------------------- the planner's loops

  lemma AddNode(ids: seq<string>, i: nat)
    requires Distinct(ids) && i < |ids|
    ensures ids[i] !in Elements(ids[..i])
    ensures Elements(ids[..i + 1]) == Elements(ids[..i]) + {ids[i]}
  {
    assert ids[..i + 1] == ids[..i] + [ids[i]];
  }

  lemma FilesAdd(p: set<string>, x: string)
    ensures Files(p + {x}) == Files(p) + {NodeFile(x)}
  {
  }

  lemma NoNodes(p: set<string>, f: string)
    ensures f !in Files(p) ==> |NodesOf(p, f)| == 0
  {
    if f !in Files(p) { assert NodesOf(p, f) == {}; }
  }

  lemma OneMoreNode(p: set<string>, x: string, f: string)
    requires x !in p
    ensures |NodesOf(p + {x}, f)| == |NodesOf(p, f)| + if f == NodeFile(x) then 1 else 0
  {
    if f == NodeFile(x) {
      assert NodesOf(p + {x}, f) == NodesOf(p, f) + {x};
    } else {
      assert NodesOf(p + {x}, f) == NodesOf(p, f);
    }
  }

  lemma CountsAdd(p: set<string>, x: string, before: map<string, int>)
    requires x !in p && before == Counts(p)
    ensures Counts(p + {x}) == before[NodeFile(x) := (if NodeFile(x) in before then before[NodeFile(x)] else 0) + 1]
  {
    FilesAdd(p, x);
    forall f | f in Files(p + {x})
      ensures Counts(p + {x})[f] == (if f in before then before[f] else 0) + if f == NodeFile(x) then 1 else 0
    {
      OneMoreNode(p, x, f);
      NoNodes(p, f);
    }
  }

  method CountNodes(ids: seq<string>) returns (counts: map<string, int>)
    requires Distinct(ids)
    ensures counts == Counts(Elements(ids))
  {
    counts := map[];
    for i := 0 to |ids|
      invariant counts == Counts(Elements(ids[..i]))
    {
      var file := NodeFile(ids[i]);
      AddNode(ids, i);
      CountsAdd(Elements(ids[..i]), ids[i], counts);
      counts := counts[file := (if file in counts then counts[file] else 0) + 1];
    }
    assert ids[..|ids|] == ids;
  }

  /** `min(range(n), key=lambda index: (loads[index], sizes[index], index))`. */
  method LeastKey(loads: seq<nat>, sizes: seq<nat>) returns (m: nat)
    requires |loads| == |sizes| >= 1
    ensures m < |loads|
    ensures forall k :: 0 <= k < |loads| && k != m ==> KeyLess(loads[m], sizes[m], m, loads[k], sizes[k], k)
  {
    m := 0;
    for i := 1 to |loads|
      invariant m < i
      invariant forall k :: 0 <= k < i && k != m ==> KeyLess(loads[m], sizes[m], m, loads[k], sizes[k], k)
    {
      if KeyLess(loads[i], sizes[i], i, loads[m], sizes[m], m) { m := i; }
    }
  }

  /** Appending one placement: what the running tables become. */
  lemma PlaceStep(w: seq<nat>, n: nat, t: nat, m: nat)
    requires n >= 1 && t < |w|
    requires Best(Place(w[..t], n), w[..t], n, m)
    ensures Place(w[..t + 1], n) == Place(w[..t], n) + [m]
    ensures forall k ::
      G.Load(Place(w[..t + 1], n), w[..t + 1], k, t + 1) ==
      G.Load(Place(w[..t], n), w[..t], k, t) + if k == m then w[t] else 0
    ensures forall k ::
      G.Count(Place(w[..t + 1], n), k, t + 1) == G.Count(Place(w[..t], n), k, t) + if k == m then 1 else 0
  {
    var v, u := w[..t], w[..t + 1];
    var a := Place(v, n);
    assert u[..|u| - 1] == v;
    assert u == v + [w[t]];
    var b := BestShard(a, v, n);
    assert b == m;
    forall k: nat
      ensures G.Load(a + [m], u, k, t + 1) == G.Load(a, v, k, t) + if k == m then w[t] else 0
      ensures G.Count(a + [m], k, t + 1) == G.Count(a, k, t) + if k == m then 1 else 0
    {
      LoadPrefix(a, v, [m], [w[t]], k, t);
    }
  }

  lemma MapStep(order: seq<string>, a: seq<nat>, t: nat, m: nat)
    requires t < |order| && |a| == t
    ensures ShardMap(order[..t + 1], a + [m]) == ShardMap(order[..t], a)[order[t] := m + 1]
  {
    assert order[..t + 1][..t] == order[..t] && (a + [m])[..t] == a;
  }

  lemma ShardMapStep(order: seq<string>, w: seq<nat>, n: nat, t: nat, m: nat)
    requires n >= 1 && t < |order| == |w|
    requires Place(w[..t + 1], n) == Place(w[..t], n) + [m]
    ensures ShardMap(order[..t + 1], Place(w[..t + 1], n)) == ShardMap(order[..t], Place(w[..t], n))[order[t] := m + 1]
  {
    MapStep(order, Place(w[..t], n), t, m);
  }

  /** The greedy loop: shards per file, and the loads and file counts it ends with. */
  method PlaceFiles(order: seq<string>, weights: map<string, int>, n: nat)
    returns (fileShards: map<string, nat>, loads: seq<nat>, sizes: seq<nat>)
    requires n >= 1
    requires forall f :: f in order ==> f in weights && weights[f] >= 0
    ensures var w := WeightSeq(order, weights); var a := Place(w, n);
      fileShards == ShardMap(order, a) && loads == LoadSeq(a, w, n) && |sizes| == n &&
      forall m :: 0 <= m < n ==> sizes[m] == G.Count(a, m, |w|)
  {
    ghost var w := WeightSeq(order, weights);
    fileShards := map[];
    loads, sizes := seq(n, _ => 0), seq(n, _ => 0);
    for t := 0 to |order|
      invariant |loads| == |sizes| == n
      invariant fileShards == ShardMap(order[..t], Place(w[..t], n))
      invariant forall m :: 0 <= m < n ==> loads[m] == G.Load(Place(w[..t], n), w[..t], m, t)
      invariant forall m :: 0 <= m < n ==> sizes[m] == G.Count(Place(w[..t], n), m, t)
    {
      var path := order[t];
      var target := LeastKey(loads, sizes);
      PlaceStep(w, n, t, target);
      ShardMapStep(order, w, n, t, target);
      assert path in order;
      fileShards := fileShards[path := target + 1];
      loads := loads[target := loads[target] + weights[path]];
      sizes := sizes[target := sizes[target] + 1];
    }
    assert order[..|order|] == order && w[..|w|] == w;
  }

  /** With at least as many files as shards no shard ends empty; with fewer, one does. */
  lemma NoShardEmpty(w: seq<nat>, n: nat, m: nat)
    requires 1 <= n <= |w| && G.Positive(w) && m < n
    ensures G.Count(Place(w, n), m, |w|) >= 1
  {
    PlaceGreedy(w, n);
    G.EveryShardUsed(Place(w, n), w, n, |w|, m);
  }

  /** Mean milliseconds per node over the known files. */
  method MeanPerNode(ids: seq<string>, counts: map<string, int>, durations: map<string, int>) returns (perNode: int)
    requires counts == Counts(Elements(ids))
    ensures perNode == PerNode(Elements(ids), durations)
  {
    var known := set f | f in counts && f in durations;
    assert known == Known(Elements(ids), durations);
    var knownNodes := SumOf(known, counts);
    if knownNodes == 0 { return FALLBACK_NODE_MS; }
    var knownMs := SumOf(known, durations);
    var mean := knownMs / knownNodes;
    perNode := if mean > 1 then mean else 1;
  }

  lemma WeightsOfCounts(ids: set<string>, counts: map<string, int>, durations: map<string, int>, perNode: int,
                        weights: map<string, int>)
    requires counts == Counts(ids) && perNode == PerNode(ids, durations) && weights.Keys == counts.Keys
    requires forall f :: f in counts ==> weights[f] == if f in durations then durations[f] else counts[f] * perNode
    ensures weights == Weights(ids, durations)
  {
    forall f | f in counts ensures weights[f] == Weights(ids, durations)[f] { }
  }

  /** What each collected file weighs, from the recorded durations and the node counts. */
  method WeighFiles(ids: seq<string>, durations: map<string, int>) returns (weights: Option<map<string, int>>)
    requires Distinct(ids)
    ensures weights.None? <==> !DurationsValid(Elements(ids), durations)
    ensures weights.Some? ==> weights.value == Weights(Elements(ids), durations)
  {
    var counts := CountNodes(ids);
    if exists f :: f in counts && f in durations && durations[f] < 1 { return None; }
    var perNode := MeanPerNode(ids, counts, durations);
    weights := Some(map f | f in counts :: if f in durations then durations[f] else counts[f] * perNode);
    WeightsOfCounts(Elements(ids), counts, durations, perNode, weights.value);
  }

  /** The placed files and the loads, or nothing when some shard would get no file. */
  method FillShards(order: seq<string>, weights: map<string, int>, n: nat)
    returns (r: Option<(map<string, nat>, seq<nat>)>)
    requires n >= 1
    requires forall f :: f in order ==> f in weights && weights[f] >= 1
    ensures r.None? <==> |order| < n
    ensures r.Some? ==>
      var w := WeightSeq(order, weights);
      r.value == (ShardMap(order, Place(w, n)), LoadSeq(Place(w, n), w, n))
  {
    var fileShards, loads, sizes := PlaceFiles(order, weights, n);
    ghost var w := WeightSeq(order, weights);
    if m :| 0 <= m < |sizes| && sizes[m] == 0 {
      if n <= |w| { NoShardEmpty(w, n, m); }
      return None;
    }
    if |w| < n { var m := G.SomeShardEmpty(Place(w, n), n, |w|); }
    return Some((fileShards, loads));
  }

  method UnknownFiles(ids: seq<string>, weights: map<string, int>, durations: map<string, int>) returns (r: seq<string>)
    requires weights.Keys == Files(Elements(ids))
    ensures r == Sorted(Files(Elements(ids)) - Known(Elements(ids), durations))
  {
    var unknown := set f | f in weights && f !in durations;
    assert unknown == Files(Elements(ids)) - Known(Elements(ids), durations);
    r := Sort(unknown);
  }

  method DigestPairs(shards: map<string, nat>, digests: Digests) returns (digest: string)
    ensures digest == digests.pairs(Pairs(shards))
  {
    var keys := Sort(shards.Keys);
    var pairs := seq(|keys|, i requires 0 <= i < |keys| && keys[i] in shards => (keys[i], shards[keys[i]]));
    assert pairs == Pairs(shards);
    digest := digests.pairs(pairs);
  }

  method PlanWeighed(ids: seq<string>, weights: map<string, int>, durations: map<string, int>, n: nat, digests: Digests)
    returns (r: Result<ShardPlan, PlanError>)
    requires n >= 1 && DurationsValid(Elements(ids), durations)
    requires weights == Weights(Elements(ids), durations)
    ensures r == if |Files(Elements(ids))| < n then Failure(EmptyShard)
                 else Success(PlanOf(Elements(ids), durations, n, digests))
  {
    WeightsPositive(Elements(ids), durations);
    var order := SortBy(weights.Keys, weights);
    var placed := FillShards(order, weights, n);
    if placed.None? { return Failure(EmptyShard); }
    var digest := DigestPairs(placed.value.0, digests);
    var unknown := UnknownFiles(ids, weights, durations);
    return Success(ShardPlan(placed.value.0, placed.value.1, unknown, digest));
  }

  method AssignFiles(nodeids: seq<string>, durations: map<string, int>, shardCount: int, digests: Digests)
    returns (r: Result<ShardPlan, PlanError>)
    ensures r == Planned(nodeids, durations, shardCount, digests)
  {
    if shardCount < 1 { return Failure(ShardCountInvalid); }
    DistinctSize(nodeids);
    if |nodeids| != |Elements(nodeids)| { return Failure(DuplicateNodes); }
    var weighed := WeighFiles(nodeids, durations);
    if weighed.None? { return Failure(DurationInvalid); }
    r := PlanWeighed(nodeids, weighed.value, durations, shardCount, digests);
  }
}
