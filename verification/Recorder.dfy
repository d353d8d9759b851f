/** The pytest plugin: keeps one shard of the collection and records what it executes. */
module Recorder {
  import opened Wrappers
  import opened Ordering
  import opened NodeIds
  import opened Planner
  import opened PlannerProperties
  import opened ShardEvidence

  /** pytest's item list, which hooks change in place. */
  class ItemList {
    var ids: seq<string>

    constructor (ids: seq<string>)
      ensures this.ids == ids
    {
      this.ids := ids;
    }
  }

  datatype UsageError = DuplicateItems | ItemsChanged | CannotSplit(error: PlanError)

  datatype When = Setup | Call | Teardown

  /** xdist's description of a worker process; the lone process has none. */
  datatype WorkerInput = WorkerInput(worker: WorkerId, workerCount: int, testRunUid: string)

  /** Why the plugin refuses a collection: repeated items, items that other hooks changed, or no split. */
  ghost function CollectionError(before: seq<string>, after: seq<string>, durations: DurationsFile, count: nat,
                                 digests: Digests)
    : Option<UsageError> {
    if !Distinct(before) then Some(DuplicateItems)
    else if multiset(before) != multiset(after) then Some(ItemsChanged)
    else match Planned(Sorted(Elements(before)), durations.milliseconds, count, digests)
      case Success(_) => None
      case Failure(error) => Some(CannotSplit(error))
  }

  /** Checks that the other hooks only reordered the items, then plans the sorted collection. */
  method SplitCollection(before: seq<string>, after: seq<string>, durations: DurationsFile, count: nat,
                         digests: Digests)
    returns (sorted: seq<string>, r: Result<ShardPlan, UsageError>)
    ensures r.Failure? <==> CollectionError(before, after, durations, count, digests).Some?
    ensures r.Failure? ==> CollectionError(before, after, durations, count, digests) == Some(r.error)
    ensures r.Success? ==> multiset(before) == multiset(after) && sorted == Sorted(Elements(before))
    ensures r.Success? ==> Planned(sorted, durations.milliseconds, count, digests) == Success(r.value)
  {
    sorted := [];
    DistinctSize(before);
    if |Elements(before)| != |before| { return [], Failure(DuplicateItems); }
    if multiset(before) != multiset(after) { return [], Failure(ItemsChanged); }
    sorted := Sort(Elements(before));
    var planned := AssignFiles(sorted, durations.milliseconds, count, digests);
    match planned
    case Failure(error) => return sorted, Failure(CannotSplit(error));
    case Success(plan) => return sorted, Success(plan);
  }

  predicate Mine(item: string, shards: map<string, nat>, index: nat) {
    NodeFile(item) in shards && shards[NodeFile(item)] == index
  }

  /** The items of one shard, in collection order. */
  ghost function Kept(items: seq<string>, shards: map<string, nat>, index: nat): seq<string> {
    if items == [] then [] else
      var last := items[|items| - 1];
      Kept(items[..|items| - 1], shards, index) + if Mine(last, shards, index) then [last] else []
  }

  lemma Grown(kept: seq<string>, dropped: seq<string>, item: string)
    ensures multiset(kept + [item]) + multiset(dropped) == multiset(kept) + multiset(dropped) + multiset{item}
    ensures multiset(kept) + multiset(dropped + [item]) == multiset(kept) + multiset(dropped) + multiset{item}
  {
  }

  lemma KeptStep(items: seq<string>, i: nat, shards: map<string, nat>, index: nat)
    requires i < |items|
    ensures multiset(items[..i + 1]) == multiset(items[..i]) + multiset{items[i]}
    ensures Kept(items[..i + 1], shards, index) ==
      Kept(items[..i], shards, index) + if Mine(items[i], shards, index) then [items[i]] else []
  {
    assert items[..i + 1] == items[..i] + [items[i]];
  }

  method Divide(items: seq<string>, shards: map<string, nat>, index: nat)
    returns (kept: seq<string>, dropped: seq<string>)
    ensures kept == Kept(items, shards, index)
    ensures multiset(kept) + multiset(dropped) == multiset(items)
  {
    kept, dropped := [], [];
    for i := 0 to |items|
      invariant kept == Kept(items[..i], shards, index)
      invariant multiset(kept) + multiset(dropped) == multiset(items[..i])
    {
      KeptStep(items, i, shards, index);
      Grown(kept, dropped, items[i]);
      if Mine(items[i], shards, index) {
        kept := kept + [items[i]];
      } else {
        dropped := dropped + [items[i]];
      }
    }
    assert items[..|items|] == items;
  }

  class ShardRecorder {
    const index: nat
    const count: nat
    const runUid: string
    const durationsPath: string
    const durations: DurationsFile
    const digests: Digests
    var collection: Option<seq<string>>
    var plan: Option<ShardPlan>
    var setupReports: seq<string>

    constructor (index: nat, count: nat, runUid: string, durationsPath: string, durations: DurationsFile,
                 digests: Digests)
      ensures collection.None? && plan.None? && setupReports == []
      ensures this.index == index && this.count == count && this.runUid == runUid
      ensures this.durationsPath == durationsPath && this.durations == durations && this.digests == digests
    {
      this.index, this.count, this.runUid := index, count, runUid;
      this.durationsPath, this.durations, this.digests := durationsPath, durations, digests;
      collection, plan, setupReports := None, None, [];
    }

    /** The wrapper around `pytest_collection_modifyitems`: `before` is what was collected and
        `items` what the other hooks left. It refuses any change other than reordering, then keeps
        this shard's items in the order it found them. */
    method CollectionModifyItems(before: seq<string>, items: ItemList)
      returns (error: Option<UsageError>, dropped: seq<string>)
      requires items as object != this
      modifies this`collection, this`plan, items
      ensures error == CollectionError(before, old(items.ids), durations, count, digests)
      ensures error == Some(DuplicateItems) <==> exists i, j :: 0 <= i < j < |before| && before[i] == before[j]
      ensures error == Some(ItemsChanged) <==>
        error != Some(DuplicateItems) && multiset(before) != multiset(old(items.ids))
      ensures error.Some? ==>
        collection == old(collection) && plan == old(plan) && items.ids == old(items.ids) && dropped == []
      ensures error.None? ==>
        collection == Some(Sorted(Elements(before))) && plan.Some? &&
        Planned(collection.value, durations.milliseconds, count, digests) == Success(plan.value) &&
        items.ids == Kept(old(items.ids), plan.value.fileShards, index) &&
        multiset(items.ids) + multiset(dropped) == multiset(before)
    {
      dropped := [];
      var sorted, planned := SplitCollection(before, items.ids, durations, count, digests);
      if planned.Failure? { return Some(planned.error), []; }
      var kept;
      kept, dropped := Divide(items.ids, planned.value.fileShards, index);
      items.ids := kept;
      collection, plan := Some(sorted), Some(planned.value);
      error := None;
    }

    /** Only setup reports count, and only once this process has a plan. */
    method LogReport(when: When, nodeid: string)
      modifies this`setupReports
      ensures setupReports == old(setupReports) + if plan.Some? && when == Setup then [nodeid] else []
    {
      if plan.Some? && when == Setup { setupReports := setupReports + [nodeid]; }
    }

    /** The evidence this process writes when its session ends, if it ever collected. */
    method SessionFinish(workerInput: Option<WorkerInput>, exitStatus: int)
      returns (written: Option<(WorkerId, Payload)>)
      ensures written.None? <==> collection.None? || plan.None?
      ensures written.Some? ==>
        var p := match workerInput
          case Some(input) => Process(input.worker, input.workerCount, input.testRunUid, exitStatus, durationsPath)
          case None => Process(Main, 1, runUid, exitStatus, durationsPath);
        written.value == (p.worker,
          Encode(BuildEvidence(p, index, durations.sha256, collection.value, plan.value, setupReports, digests),
            p.worker, index, count))
      ensures written.Some? ==> var (w, p) := written.value;
        && w == (if workerInput.Some? then workerInput.value.worker else Main)
        && p.kind == Str("probos-ci-shard-evidence") && p.schemaVersion == Int(1)
        && p.shardIndex == Int(index) && p.shardCount == Int(count) && p.workerId == Str(WorkerName(w))
        && p.workerCount == Int(if workerInput.Some? then workerInput.value.workerCount else 1)
        && p.testRunUid == Str(if workerInput.Some? then workerInput.value.testRunUid else runUid)
        && p.exitStatus == Int(exitStatus) && p.durationsPath == Str(durationsPath)
        && p.durationsSha == Str(durations.sha256) && p.setupReports == StringList(setupReports)
      ensures written.Some? ==> var (w, p) := written.value;
        && p.collectionCount == Int(|collection.value|) && p.collectionSha == Str(digests.nodes(collection.value))
        && p.assignmentSha == Str(plan.value.assignmentDigest)
        && p.unknownFileCount == Int(|plan.value.unknownFiles|)
        && p.collectedNodeids == (if Primary(w) then StringList(collection.value) else Absent)
        && p.fileShards == (if Primary(w) then ShardObject(plan.value.fileShards) else Absent)
      ensures written.Some? ==> var p := written.value.1;
        var mine := AssignedNodeids(Elements(collection.value), plan.value.fileShards, index);
        p.assignedCount == Int(|mine|) && p.assignedSha == Str(digests.nodes(mine))
    {
      if collection.None? || plan.None? { return None; }
      var p := match workerInput
        case Some(input) => Process(input.worker, input.workerCount, input.testRunUid, exitStatus, durationsPath)
        case None => Process(Main, 1, runUid, exitStatus, durationsPath);
      var nodes := Elements(collection.value);
      var shards := plan.value.fileShards;
      var mine := Sort(set n | n in nodes && NodeFile(n) in shards && shards[NodeFile(n)] == index);
      var e := EvidenceOf(p, durations.sha256, collection.value, plan.value, mine, setupReports, digests);
      return Some((p.worker, Encode(e, p.worker, index, count)));
    }
  }

  lemma {:induction false} KeptContents(items: seq<string>, shards: map<string, nat>, index: nat, x: string)
    ensures multiset(Kept(items, shards, index))[x] ==
      if Mine(x, shards, index) then multiset(items)[x] else 0
  {
    if items != [] {
      KeptContents(items[..|items| - 1], shards, index, x);
      assert items == items[..|items| - 1] + [items[|items| - 1]];
    }
  }

  /** The items a process keeps are, in some order, exactly the nodes the verifier expects of its shard. */
  lemma KeptIsAssigned(items: seq<string>, shards: map<string, nat>, index: nat)
    requires Distinct(items)
    ensures multiset(Kept(items, shards, index)) == multiset(AssignedNodeids(Elements(items), shards, index))
  {
    forall x
      ensures multiset(Kept(items, shards, index))[x] == multiset(AssignedNodeids(Elements(items), shards, index))[x]
    {
      KeptContents(items, shards, index, x);
      DistinctOnce(items, x);
      CanonicalDistinct(AssignedNodeids(Elements(items), shards, index));
      DistinctOnce(AssignedNodeids(Elements(items), shards, index), x);
    }
  }
}
