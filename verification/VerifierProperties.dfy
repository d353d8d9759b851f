/** What an accepted verdict means, and that honest evidence is accepted. */
module VerifierProperties {
  import opened Wrappers
  import opened Ordering
  import opened NodeIds
  import opened Planner
  import opened PlannerProperties
  import opened ShardEvidence
  import opened Verifier

  // ---------------------------------------------------------------- executions

  /** In every shard the workers together ran exactly that shard's nodes, each once. */
  ghost predicate EachShardRan(shards: map<nat, Workers>, n: nat, nodes: set<string>, plan: ShardPlan) {
    forall k :: 1 <= k <= n ==>
      k in shards && Reports(shards[k]) == multiset(AssignedNodeids(nodes, plan.fileShards, k))
  }

  lemma {:induction false} UnrunEmpty(collection: seq<string>, ran: multiset<string>)
    ensures Unrun(collection, ran) == [] <==> forall x :: x in collection ==> x in ran
  {
    if collection != [] {
      var rest, last := collection[..|collection| - 1], collection[|collection| - 1];
      UnrunEmpty(rest, ran);
      assert collection == rest + [last];
    }
  }

  lemma {:induction false} ReportedBy(workers: Workers, ws: set<WorkerId>, x: string)
    requires ws <= workers.Keys
    ensures x in Pooled(ReportLists(workers), ws) <==> exists w :: w in ws && x in workers[w].setupReports
  {
    if ws != {} {
      var w :| w in ws;
      PooledTake(ReportLists(workers), ws, w);
      ReportedBy(workers, ws - {w}, x);
    }
  }

  /** What one shard's list holds. */
  lemma AssignedCount(nodes: set<string>, shards: map<string, nat>, k: nat, x: string)
    ensures multiset(AssignedNodeids(nodes, shards, k))[x] ==
      if x in nodes && NodeFile(x) in shards && shards[NodeFile(x)] == k then 1 else 0
  {
    var mine := AssignedNodeids(nodes, shards, k);
    CanonicalDistinct(mine);
    DistinctOnce(mine, x);
  }

  lemma {:induction false} AllReportsAt(shards: map<nat, Workers>, n: nat, x: string, owner: nat)
    requires forall k :: 1 <= k <= n && k in shards && k != owner ==> Reports(shards[k])[x] == 0
    ensures AllReports(shards, n)[x] == if 1 <= owner <= n && owner in shards then Reports(shards[owner])[x] else 0
  {
    if n > 0 { AllReportsAt(shards, n - 1, x, owner); }
  }

  lemma NoStray(shards: map<nat, Workers>, n: nat, collected: set<string>, plan: ShardPlan, k: nat, x: string)
    requires forall y, p :: !Strayed(shards, n, y, p, collected, Some(plan))
    requires 1 <= k <= n && k in shards && Outside(x, k, collected, Some(plan))
    ensures Reports(shards[k])[x] == 0
  {
    ReportedBy(shards[k], shards[k].Keys, x);
    if w :| w in shards[k] && x in shards[k][w].setupReports {
      assert Strayed(shards, n, x, Place(k, w), collected, Some(plan));
    }
  }

  lemma CleanRan(shards: map<nat, Workers>, n: nat, collection: seq<string>, plan: ShardPlan, k: nat, x: string)
    requires Splits(plan.fileShards, Files(Elements(collection)), n)
    requires forall j :: 1 <= j <= n ==> j in shards
    requires forall y :: y in collection ==> AllReports(shards, n)[y] == 1
    requires forall y, p :: !Strayed(shards, n, y, p, Elements(collection), Some(plan))
    requires 1 <= k <= n
    ensures Reports(shards[k])[x] == multiset(AssignedNodeids(Elements(collection), plan.fileShards, k))[x]
  {
    var nodes := Elements(collection);
    AssignedCount(nodes, plan.fileShards, k, x);
    if x in nodes {
      assert NodeFile(x) in Files(nodes);
      var owner := plan.fileShards[NodeFile(x)];
      forall j | 1 <= j <= n && j in shards && j != owner ensures Reports(shards[j])[x] == 0 {
        NoStray(shards, n, nodes, plan, j, x);
      }
      AllReportsAt(shards, n, x, owner);
    } else {
      NoStray(shards, n, nodes, plan, k, x);
    }
  }

  lemma CleanMeansRan(shards: map<nat, Workers>, n: nat, collection: seq<string>, plan: ShardPlan)
    requires Splits(plan.fileShards, Files(Elements(collection)), n)
    requires forall k :: 1 <= k <= n ==> k in shards
    requires ExecutionsClean(shards, n, collection, plan)
    ensures EachShardRan(shards, n, Elements(collection), plan)
  {
    UnrunEmpty(collection, AllReports(shards, n));
    forall k | 1 <= k <= n
      ensures Reports(shards[k]) == multiset(AssignedNodeids(Elements(collection), plan.fileShards, k))
    {
      forall x ensures Reports(shards[k])[x] == multiset(AssignedNodeids(Elements(collection), plan.fileShards, k))[x] {
        CleanRan(shards, n, collection, plan, k, x);
      }
    }
  }

  lemma ShardRan(shards: map<nat, Workers>, n: nat, nodes: set<string>, plan: ShardPlan, k: nat)
    requires EachShardRan(shards, n, nodes, plan) && 1 <= k <= n
    ensures k in shards && Reports(shards[k]) == multiset(AssignedNodeids(nodes, plan.fileShards, k))
  {
  }

  lemma RanInside(shards: map<nat, Workers>, n: nat, collection: seq<string>, plan: ShardPlan, x: string, p: Place)
    requires EachShardRan(shards, n, Elements(collection), plan) && x in ReportsAt(shards, n, p)
    ensures !Outside(x, p.shard, Elements(collection), Some(plan))
  {
    ShardRan(shards, n, Elements(collection), plan, p.shard);
    ReportedBy(shards[p.shard], shards[p.shard].Keys, x);
    AssignedCount(Elements(collection), plan.fileShards, p.shard, x);
  }

  lemma RanOnce(shards: map<nat, Workers>, n: nat, collection: seq<string>, plan: ShardPlan, x: string)
    requires Splits(plan.fileShards, Files(Elements(collection)), n)
    requires EachShardRan(shards, n, Elements(collection), plan)
    requires x in collection
    ensures AllReports(shards, n)[x] == 1
  {
    var nodes := Elements(collection);
    assert x in nodes && NodeFile(x) in Files(nodes);
    var owner := plan.fileShards[NodeFile(x)];
    forall k | 1 <= k <= n && k in shards ensures Reports(shards[k])[x] == if k == owner then 1 else 0 {
      AssignedCount(nodes, plan.fileShards, k, x);
    }
    AllReportsAt(shards, n, x, owner);
  }

  lemma RanMeansClean(shards: map<nat, Workers>, n: nat, collection: seq<string>, plan: ShardPlan)
    requires Splits(plan.fileShards, Files(Elements(collection)), n)
    requires EachShardRan(shards, n, Elements(collection), plan)
    ensures ExecutionsClean(shards, n, collection, plan)
  {
    UnrunEmpty(collection, AllReports(shards, n));
    forall x | x in collection ensures AllReports(shards, n)[x] == 1 { RanOnce(shards, n, collection, plan, x); }
    forall x, p ensures !Strayed(shards, n, x, p, Elements(collection), Some(plan)) {
      if x in ReportsAt(shards, n, p) { RanInside(shards, n, collection, plan, x, p); }
    }
  }

  /** Nothing missing, repeated or misplaced is the same as every shard running its own nodes once. */
  lemma ExecutionsMean(shards: map<nat, Workers>, n: nat, collection: seq<string>, plan: ShardPlan)
    requires Splits(plan.fileShards, Files(Elements(collection)), n)
    requires forall k :: 1 <= k <= n ==> k in shards
    ensures ExecutionsClean(shards, n, collection, plan) <==> EachShardRan(shards, n, Elements(collection), plan)
  {
    if ExecutionsClean(shards, n, collection, plan) { CleanMeansRan(shards, n, collection, plan); }
    if EachShardRan(shards, n, Elements(collection), plan) { RanMeansClean(shards, n, collection, plan); }
  }

  lemma {:induction false} ShardsRanAll(shards: map<nat, Workers>, n: nat, nodes: set<string>, plan: ShardPlan)
    requires EachShardRan(shards, n, nodes, plan)
    ensures AllReports(shards, n) == AllAssigned(nodes, plan.fileShards, n)
  {
    if n > 0 {
      ShardsRanAll(shards, n - 1, nodes, plan);
      ShardRan(shards, n, nodes, plan, n);
    }
  }

  // ---------------------------------------------------------------- soundness

  /** One shard's workers: a lone main, or gw0..gw(c-1); all exited 0 under one run ID. */
  ghost predicate CompleteWorkers(workers: Workers) {
    && workers != map[] && AllExitedZero(workers) && SameRunUid(workers)
    && ((workers.Keys == {Main} && workers[Main].workerCount == 1) ||
        exists count :: workers.Keys == GwSet(count) && forall w :: w in workers ==> workers[w].workerCount == count)
  }

  lemma CleanIsComplete(entry: DirEntry, k: nat, n: nat)
    requires ShardReadsClean(entry, k, n)
    ensures CompleteWorkers(WorkersOf(entry, k, n))
  {
    var workers := WorkersOf(entry, k, n);
    assert workers.Keys == PresentOf(entry);
    if Main !in workers {
      var v :| v in workers;
      assert workers.Keys == GwSet(workers[v].workerCount);
      forall w | w in workers ensures workers[w].workerCount == workers[v].workerCount { }
    }
  }

  lemma ReadCleanShard(root: Root, n: nat, k: nat)
    requires RootReadsClean(root, n)
    ensures k in ShardsOf(root, n) <==> 1 <= k <= n
    ensures 1 <= k <= n ==> CompleteWorkers(ShardsOf(root, n)[k])
  {
    ShardsUpToKeys(root, n, n, k);
    if 1 <= k <= n { CleanIsComplete(root.shards[k], k, n); }
  }

  lemma AcceptedKeys(root: Root, n: nat, shards: map<nat, Workers>)
    requires RootReadsClean(root, n) && shards == ShardsOf(root, n)
    ensures shards.Keys == ShardNumbersTo(n)
  {
    forall k: nat ensures k in shards <==> 1 <= k <= n { ReadCleanShard(root, n, k); }
  }

  lemma AcceptedShards(root: Root, n: nat, shards: map<nat, Workers>)
    requires RootReadsClean(root, n) && shards == ShardsOf(root, n)
    ensures shards.Keys == ShardNumbersTo(n)
    ensures forall k :: 1 <= k <= n ==> CompleteWorkers(shards[k])
  {
    AcceptedKeys(root, n, shards);
    forall k | 1 <= k <= n ensures CompleteWorkers(shards[k]) { ReadCleanShard(root, n, k); }
  }

  lemma PlanSplits(collection: seq<string>, milliseconds: map<string, int>, n: nat, digests: Digests, plan: ShardPlan)
    requires Planned(collection, milliseconds, n, digests) == Success(plan)
    ensures Splits(plan.fileShards, Files(Elements(collection)), n)
  {
    PlanCovers(collection, milliseconds, n, digests, plan, Weights(Elements(collection), milliseconds));
  }

  lemma CleanRunsAll(shards: map<nat, Workers>, n: nat, collection: seq<string>, milliseconds: map<string, int>,
                     digests: Digests, plan: ShardPlan)
    requires Planned(collection, milliseconds, n, digests) == Success(plan)
    requires forall k :: 1 <= k <= n ==> k in shards
    requires ExecutionsClean(shards, n, collection, plan)
    ensures EachShardRan(shards, n, Elements(collection), plan)
    ensures AllReports(shards, n) == multiset(collection)
  {
    PlanSplits(collection, milliseconds, n, digests, plan);
    ExecutionsMean(shards, n, collection, plan);
    ShardsRanAll(shards, n, Elements(collection), plan);
    AssignedPartition(collection, milliseconds, n, digests, plan);
  }

  /** An accepted verdict proves exactly-once execution, whatever the digest function: each shard
      holds a complete set of clean workers, and the workers of all shards together reported every
      collected node once, in its owning shard, and nothing else. */
  lemma AcceptedMeansExactlyOnce(root: Root, n: nat, durations: DurationsFile, digests: Digests,
                                 collection: seq<string>, plan: ShardPlan)
    requires Verified(root, n, durations, digests)
    requires collection == CollectionOf(root, n, digests)
    requires Planned(collection, durations.milliseconds, n, digests) == Success(plan)
    ensures n >= 1 && Distinct(collection)
    ensures ShardsOf(root, n).Keys == ShardNumbersTo(n)
    ensures forall k :: 1 <= k <= n ==> CompleteWorkers(ShardsOf(root, n)[k])
    ensures EachShardRan(ShardsOf(root, n), n, Elements(collection), plan)
    ensures AllReports(ShardsOf(root, n), n) == multiset(collection)
  {
    var shards := ShardsOf(root, n);
    AcceptedShards(root, n, shards);
    CleanRunsAll(shards, n, collection, durations.milliseconds, digests, plan);
  }

  /** With a collision-free digest every worker of an accepted run saw the same collection:
      each primary carries it, and every worker's claim is its size and digest. */
  lemma AcceptedCollectionsIdentical(root: Root, n: nat, durations: DurationsFile, digests: Digests, k: nat,
                                     w: WorkerId)
    requires Verified(root, n, durations, digests)
    requires forall a, b :: digests.nodes(a) == digests.nodes(b) ==> a == b
    requires k in ShardsOf(root, n) && w in ShardsOf(root, n)[k]
    ensures var e := ShardsOf(root, n)[k][w]; var c := CollectionOf(root, n, digests);
      e.collectionCount == |c| && e.collectionSha == digests.nodes(c) && (Primary(w) ==> e.collected == c) &&
      forall s :: digests.nodes(s) == e.collectionSha ==> s == c
  {
    var shards := ShardsOf(root, n);
    var j, v := ReferenceCarried(shards, digests, n);
    ShardsUpToKeys(root, n, n, k);
    assert shards[j][v].collectionSha == shards[k][w].collectionSha;
    if Primary(w) { PrimaryIsVerified(shards, digests, n, k, w); }
  }

  // ---------------------------------------------------------------- completeness

  /** One shard's run: what each of its workers reported, in order. */
  datatype Run = Run(uid: string, workerCount: int, workers: map<WorkerId, seq<string>>)

  /** A whole job: the collection, durations and plan every process worked from, and each shard's nodes. */
  datatype Job = Job(
    collection: seq<string>, n: nat, durations: DurationsFile, durationsPath: string,
    plan: ShardPlan, mine: map<nat, seq<string>>, digests: Digests)

  ghost predicate JobPlanned(job: Job) {
    && Canonical(job.collection)
    && Planned(job.collection, job.durations.milliseconds, job.n, job.digests) == Success(job.plan)
    && job.mine.Keys == ShardNumbersTo(job.n)
    && (forall k :: k in job.mine ==> job.mine[k] == AssignedNodeids(Elements(job.collection), job.plan.fileShards, k))
    && IsSha256(job.durations.sha256)
    && (forall xs :: IsSha256(job.digests.nodes(xs))) && (forall ps :: IsSha256(job.digests.pairs(ps)))
  }

  /** A clean run of shard `k`: a complete set of workers that together, in any distribution and
      order, ran the shard's nodes once each. */
  ghost predicate HonestRun(job: Job, k: nat, run: Run) {
    && k in job.mine
    && run.uid != "" && 1 <= run.workerCount <= MAX_WORKERS
    && ((run.workers.Keys == {Main} && run.workerCount == 1) || run.workers.Keys == GwSet(run.workerCount))
    && Pooled(run.workers, run.workers.Keys) == multiset(job.mine[k])
  }

  function HonestProcess(job: Job, run: Run, w: WorkerId): Process {
    Process(w, run.workerCount, run.uid, 0, job.durationsPath)
  }

  /** The evidence one worker of the job writes. */
  function HonestEvidence(job: Job, k: nat, run: Run, w: WorkerId): Evidence
    requires k in job.mine && w in run.workers
  {
    EvidenceOf(HonestProcess(job, run, w), job.durations.sha256, job.collection, job.plan, job.mine[k], run.workers[w],
               job.digests)
  }

  /** It is what the builder makes of that process. */
  lemma HonestEvidenceIsBuilt(job: Job, k: nat, run: Run, w: WorkerId)
    requires JobPlanned(job) && k in job.mine && w in run.workers
    ensures HonestEvidence(job, k, run, w) ==
      BuildEvidence(HonestProcess(job, run, w), k, job.durations.sha256, job.collection, job.plan, run.workers[w],
        job.digests)
  {
  }

  ghost function HonestEntry(job: Job, k: nat, run: Run): DirEntry
    requires k in job.mine
  {
    Directory(map w | w in run.workers :: Parsed(Object(Encode(HonestEvidence(job, k, run, w), w, k, job.n))), {})
  }

  /** What `write_evidence` leaves behind when every shard of the job ran. */
  ghost function HonestRoot(job: Job, runs: map<nat, Run>): Root
    requires runs.Keys == job.mine.Keys
  {
    Root(map k | k in runs :: HonestEntry(job, k, runs[k]), {})
  }

  /** What the reading rules need to know of a planned job. */
  ghost predicate JobWritable(job: Job) {
    && job.collection != [] && (forall k :: k in job.mine ==> job.mine[k] != [])
    && IsSha256(job.durations.sha256) && IsSha256(job.plan.assignmentDigest)
    && forall xs :: IsSha256(job.digests.nodes(xs))
  }

  lemma PlannedParts(collection: seq<string>, milliseconds: map<string, int>, n: nat, digests: Digests, plan: ShardPlan)
    requires Planned(collection, milliseconds, n, digests) == Success(plan)
    ensures n >= 1 && collection != []
    ensures forall k :: 1 <= k <= n ==> AssignedNodeids(Elements(collection), plan.fileShards, k) != []
    ensures plan.assignmentDigest == digests.pairs(Pairs(plan.fileShards))
  {
    AssignedPartition(collection, milliseconds, n, digests, plan);
    var mine := AssignedNodeids(Elements(collection), plan.fileShards, 1);
    assert mine[0] in mine;
  }

  lemma PlannedJobIsWritable(job: Job)
    requires JobPlanned(job)
    ensures JobWritable(job) && job.n >= 1
  {
    PlannedParts(job.collection, job.durations.milliseconds, job.n, job.digests, job.plan);
    forall k | k in job.mine ensures job.mine[k] != [] { assert k in ShardNumbersTo(job.n); }
  }

  lemma HonestPayload(job: Job, k: nat, run: Run, w: WorkerId)
    requires JobWritable(job) && HonestRun(job, k, run) && w in run.workers
    ensures var e := HonestEvidence(job, k, run, w);
      WellFormed(Encode(e, w, k, job.n), w, k, job.n) && Decode(Encode(e, w, k, job.n), w, k, job.n) == e
  {
    var e := HonestEvidence(job, k, run, w);
    assert job.mine[k] != [];
    assert Presentable(e);
    EncodeRoundTrip(e, w, k, job.n);
  }

  /** The workers a shard directory of the job holds, once read. */
  ghost predicate HonestWorkers(job: Job, k: nat, run: Run, workers: Workers) {
    && k in job.mine && workers.Keys == run.workers.Keys
    && forall w :: w in workers ==> workers[w] == HonestEvidence(job, k, run, w)
  }

  lemma WorkerRead(entry: DirEntry, k: nat, n: nat, w: WorkerId, e: Evidence)
    requires entry.Directory? && w in entry.files && entry.files[w] == Parsed(Object(Encode(e, w, k, n)))
    requires WellFormed(Encode(e, w, k, n), w, k, n) && Decode(Encode(e, w, k, n), w, k, n) == e
    ensures Usable(entry.files[w], w, k, n) && w in WorkersOf(entry, k, n) && WorkersOf(entry, k, n)[w] == e
  {
  }

  lemma HonestWorkerRead(job: Job, k: nat, run: Run, entry: DirEntry, w: WorkerId)
    requires JobWritable(job) && HonestRun(job, k, run) && entry == HonestEntry(job, k, run) && w in run.workers
    ensures Usable(entry.files[w], w, k, job.n)
    ensures w in WorkersOf(entry, k, job.n) && WorkersOf(entry, k, job.n)[w] == HonestEvidence(job, k, run, w)
  {
    HonestPayload(job, k, run, w);
    WorkerRead(entry, k, job.n, w, HonestEvidence(job, k, run, w));
  }

  lemma CleanDirectory(entry: DirEntry, k: nat, n: nat)
    requires entry.Directory? && entry.strays == {} && forall w :: w in entry.files ==> Usable(entry.files[w], w, k, n)
    ensures DirectoryClean(entry, k, n) && PresentOf(entry) == entry.files.Keys &&
      WorkersOf(entry, k, n).Keys == entry.files.Keys
  {
  }

  lemma HonestDirectory(job: Job, k: nat, run: Run, entry: DirEntry)
    requires JobWritable(job) && HonestRun(job, k, run) && entry == HonestEntry(job, k, run)
    ensures DirectoryClean(entry, k, job.n) && PresentOf(entry) == run.workers.Keys == WorkersOf(entry, k, job.n).Keys
  {
    forall w | w in entry.files ensures Usable(entry.files[w], w, k, job.n) { HonestWorkerRead(job, k, run, entry, w); }
    CleanDirectory(entry, k, job.n);
  }

  lemma HonestWorkersRead(job: Job, k: nat, run: Run, entry: DirEntry)
    requires JobWritable(job) && HonestRun(job, k, run) && entry == HonestEntry(job, k, run)
    ensures DirectoryClean(entry, k, job.n) && PresentOf(entry) == run.workers.Keys
    ensures HonestWorkers(job, k, run, WorkersOf(entry, k, job.n))
  {
    HonestDirectory(job, k, run, entry);
    var workers := WorkersOf(entry, k, job.n);
    forall w | w in workers ensures workers[w] == HonestEvidence(job, k, run, w) {
      HonestWorkerRead(job, k, run, entry, w);
    }
  }

  lemma HonestComplete(job: Job, k: nat, run: Run, workers: Workers)
    requires HonestRun(job, k, run) && HonestWorkers(job, k, run, workers)
    ensures WorkersComplete(run.workers.Keys, workers)
  {
    assert Gw(0, 0) in GwSet(run.workerCount);
    assert Main !in GwSet(run.workerCount);
  }

  lemma HonestEntryReadsClean(job: Job, k: nat, run: Run)
    requires JobWritable(job) && HonestRun(job, k, run)
    ensures ShardReadsClean(HonestEntry(job, k, run), k, job.n)
  {
    var entry := HonestEntry(job, k, run);
    HonestWorkersRead(job, k, run, entry);
    HonestComplete(job, k, run, WorkersOf(entry, k, job.n));
  }

  ghost predicate HonestRuns(job: Job, runs: map<nat, Run>) {
    && runs.Keys == job.mine.Keys == ShardNumbersTo(job.n)
    && forall k :: k in runs ==> HonestRun(job, k, runs[k])
  }

  lemma HonestReadsClean(job: Job, runs: map<nat, Run>)
    requires JobWritable(job) && HonestRuns(job, runs)
    ensures RootReadsClean(HonestRoot(job, runs), job.n)
  {
    var root := HonestRoot(job, runs);
    forall k | k in root.shards ensures ShardReadsClean(root.shards[k], k, job.n) {
      HonestEntryReadsClean(job, k, runs[k]);
    }
    AllCleanUpTo(root, job.n, job.n);
  }

  /** One worker's evidence speaks of the job's collection, plan and durations; a primary worker carries a collection
      that cannot be told from the job's by its size and digest. */
  ghost predicate Faithful(job: Job, k: nat, w: WorkerId, e: Evidence)
    requires k in job.mine
  {
    && e.collectionCount == |job.collection| && e.collectionSha == job.digests.nodes(job.collection)
    && (Primary(w) ==> CollectionVerified(e, job.digests))
    && EvidenceMatches(e, w, job.mine[k], job.plan, job.durations.sha256, job.digests)
  }

  ghost predicate HonestShardOf(job: Job, k: nat, workers: Workers)
    requires k in job.mine
  {
    && (forall w :: w in workers ==> Faithful(job, k, w, workers[w]))
    && (Main in workers || Gw(0, 0) in workers)
    && Reports(workers) == multiset(job.mine[k])
  }

  /** The primary worker carries the job's collection itself. */
  ghost predicate CarriesCollection(job: Job, workers: Workers) {
    forall w :: w in workers && Primary(w) ==> workers[w].collected == job.collection
  }

  /** What the verifier reads of an honest job: a primary in every shard, faithful evidence
      everywhere, and every shard's nodes run once. */
  ghost predicate HonestShards(job: Job, shards: map<nat, Workers>) {
    && shards.Keys == job.mine.Keys == ShardNumbersTo(job.n)
    && (forall k :: k in shards ==> HonestShardOf(job, k, shards[k]))
    && (1 in shards ==> CarriesCollection(job, shards[1]))
  }

  lemma HonestFaithful(job: Job, k: nat, run: Run, w: WorkerId)
    requires k in job.mine && w in run.workers && Canonical(job.collection)
    ensures Faithful(job, k, w, HonestEvidence(job, k, run, w))
  {
  }

  lemma HonestShard(job: Job, k: nat, run: Run, workers: Workers)
    requires HonestRun(job, k, run) && HonestWorkers(job, k, run, workers) && Canonical(job.collection)
    ensures HonestShardOf(job, k, workers) && CarriesCollection(job, workers)
  {
    assert ReportLists(workers) == run.workers;
    assert Gw(0, 0) in GwSet(run.workerCount);
    forall w | w in workers ensures Faithful(job, k, w, workers[w]) { HonestFaithful(job, k, run, w); }
  }

  lemma HonestEntryRead(job: Job, k: nat, run: Run, entry: DirEntry)
    requires JobWritable(job) && HonestRun(job, k, run) && entry == HonestEntry(job, k, run)
    requires Canonical(job.collection)
    ensures HonestShardOf(job, k, WorkersOf(entry, k, job.n)) && CarriesCollection(job, WorkersOf(entry, k, job.n))
  {
    HonestWorkersRead(job, k, run, entry);
    HonestShard(job, k, run, WorkersOf(entry, k, job.n));
  }

  lemma HonestShardRead(job: Job, root: Root, k: nat, run: Run, entry: DirEntry)
    requires JobWritable(job) && HonestRun(job, k, run) && 1 <= k <= job.n && entry == HonestEntry(job, k, run)
    requires root.Root? && k in root.shards && root.shards[k] == entry && Canonical(job.collection)
    ensures k in ShardsOf(root, job.n)
    ensures HonestShardOf(job, k, ShardsOf(root, job.n)[k]) && CarriesCollection(job, ShardsOf(root, job.n)[k])
  {
    HonestEntryRead(job, k, run, entry);
    ShardsUpToKeys(root, job.n, job.n, k);
  }

  lemma KeysRead(root: Root, n: nat)
    requires root.Root? && root.shards.Keys == ShardNumbersTo(n)
    requires forall k :: k in root.shards ==> root.shards[k].Directory?
    ensures ShardsOf(root, n).Keys == ShardNumbersTo(n)
  {
    forall k: nat ensures k in ShardsOf(root, n) <==> k in ShardNumbersTo(n) { ShardsUpToKeys(root, n, n, k); }
  }

  lemma HonestShardsRead(job: Job, runs: map<nat, Run>, root: Root, shards: map<nat, Workers>)
    requires JobWritable(job) && HonestRuns(job, runs) && root == HonestRoot(job, runs) &&
      shards == ShardsOf(root, job.n)
    requires Canonical(job.collection)
    ensures HonestShards(job, shards)
  {
    KeysRead(root, job.n);
    forall k | k in runs ensures HonestShardOf(job, k, shards[k]) && CarriesCollection(job, shards[k]) {
      HonestShardRead(job, root, k, runs[k], HonestEntry(job, k, runs[k]));
    }
  }

  lemma HonestPrimary(job: Job, k: nat, workers: Workers, w: WorkerId)
    requires k in job.mine && HonestShardOf(job, k, workers) && Primary(w)
    ensures PrimaryVerified(workers, w, job.digests)
  {
    if w in workers { assert Faithful(job, k, w, workers[w]); }
  }

  lemma {:induction false} HonestPrimaries(job: Job, shards: map<nat, Workers>, k: nat)
    requires HonestShards(job, shards)
    ensures PrimariesVerified(shards, job.digests, k)
  {
    if k > 0 {
      HonestPrimaries(job, shards, k - 1);
      if k in shards {
        HonestPrimary(job, k, shards[k], Main);
        HonestPrimary(job, k, shards[k], Gw(0, 0));
      }
    }
  }

  lemma HonestSameCollection(job: Job, shards: map<nat, Workers>)
    requires HonestShards(job, shards)
    ensures SameCollection(shards)
  {
    forall j, v, k, w | j in shards && v in shards[j] && k in shards && w in shards[k]
      ensures shards[j][v].collectionCount == shards[k][w].collectionCount
      ensures shards[j][v].collectionSha == shards[k][w].collectionSha
    {
      assert Faithful(job, j, v, shards[j][v]) && Faithful(job, k, w, shards[k][w]);
    }
  }

  lemma {:induction false} FirstReference(job: Job, shards: map<nat, Workers>, k: nat)
    requires 1 in shards && CarriesCollection(job, shards[1]) && (Main in shards[1] || Gw(0, 0) in shards[1])
    requires forall w :: w in shards[1] && Primary(w) ==> CollectionVerified(shards[1][w], job.digests)
    requires k >= 1
    ensures Reference(shards, job.digests, k) == Some(job.collection)
  {
    if k == 1 {
      assert Reference(shards, job.digests, 0) == None;
    } else {
      FirstReference(job, shards, k - 1);
    }
  }

  lemma HonestReference(job: Job, shards: map<nat, Workers>)
    requires HonestShards(job, shards) && job.n >= 1
    ensures Reference(shards, job.digests, job.n) == Some(job.collection) && HasEvidence(shards)
  {
    assert 1 in ShardNumbersTo(job.n) && HonestShardOf(job, 1, shards[1]);
    forall w | w in shards[1] && Primary(w) ensures CollectionVerified(shards[1][w], job.digests) {
      assert Faithful(job, 1, w, shards[1][w]);
    }
    FirstReference(job, shards, job.n);
  }

  lemma HonestAgreed(job: Job, shards: map<nat, Workers>)
    requires HonestShards(job, shards) && job.n >= 1
    ensures CollectionAgreed(shards, job.n, job.digests)
    ensures Reference(shards, job.digests, job.n) == Some(job.collection)
  {
    HonestPrimaries(job, shards, job.n);
    HonestReference(job, shards);
    HonestSameCollection(job, shards);
  }

  lemma HonestMatches(job: Job, k: nat, workers: Workers)
    requires k in job.mine && HonestShardOf(job, k, workers)
    ensures ShardMatches(workers, job.mine[k], job.plan, job.durations.sha256, job.digests)
  {
    forall w | w in workers
      ensures EvidenceMatches(workers[w], w, job.mine[k], job.plan, job.durations.sha256, job.digests) {
      assert Faithful(job, k, w, workers[w]);
    }
  }

  lemma {:induction false} HonestAssignment(job: Job, shards: map<nat, Workers>, nodes: set<string>, k: nat)
    requires HonestShards(job, shards)
    requires forall k :: k in job.mine ==> job.mine[k] == AssignedNodeids(nodes, job.plan.fileShards, k)
    ensures AssignmentMatches(shards, nodes, job.plan, job.durations.sha256, job.digests, k)
  {
    if k > 0 {
      HonestAssignment(job, shards, nodes, k - 1);
      if k in shards {
        HonestMatches(job, k, shards[k]);
        assert job.mine[k] == AssignedNodeids(nodes, job.plan.fileShards, k);
      }
    }
  }

  lemma HonestExecutions(job: Job, shards: map<nat, Workers>)
    requires HonestShards(job, shards)
    requires forall k :: k in job.mine ==>
      job.mine[k] == AssignedNodeids(Elements(job.collection), job.plan.fileShards, k)
    requires Splits(job.plan.fileShards, Files(Elements(job.collection)), job.n)
    ensures ExecutionsClean(shards, job.n, job.collection, job.plan)
  {
    forall k | 1 <= k <= job.n
      ensures k in shards &&
        Reports(shards[k]) == multiset(AssignedNodeids(Elements(job.collection), job.plan.fileShards, k))
    {
      assert k in ShardNumbersTo(job.n) && HonestShardOf(job, k, shards[k]);
    }
    RanMeansClean(shards, job.n, job.collection, job.plan);
  }

  /** Shards that read clean and speak of a job's plan are accepted. */
  lemma HonestShardsAccepted(job: Job, root: Root, shards: map<nat, Workers>)
    requires Planned(job.collection, job.durations.milliseconds, job.n, job.digests) == Success(job.plan)
    requires forall k :: k in job.mine ==>
      job.mine[k] == AssignedNodeids(Elements(job.collection), job.plan.fileShards, k)
    requires RootReadsClean(root, job.n) && shards == ShardsOf(root, job.n) && HonestShards(job, shards)
    ensures Verified(root, job.n, job.durations, job.digests)
    ensures CollectionOf(root, job.n, job.digests) == job.collection
  {
    HonestAgreed(job, shards);
    HonestAssignment(job, shards, Elements(job.collection), job.n);
    PlanSplits(job.collection, job.durations.milliseconds, job.n, job.digests, job.plan);
    HonestExecutions(job, shards);
  }

  /** Evidence of a clean run is always accepted, however each shard's nodes were spread over its workers. */
  lemma HonestRunIsAccepted(job: Job, runs: map<nat, Run>)
    requires JobPlanned(job) && HonestRuns(job, runs)
    ensures Verified(HonestRoot(job, runs), job.n, job.durations, job.digests)
  {
    var shards := ShardsOf(HonestRoot(job, runs), job.n);
    PlannedJobIsWritable(job);
    HonestReadsClean(job, runs);
    HonestShardsRead(job, runs, HonestRoot(job, runs), shards);
    HonestShardsAccepted(job, HonestRoot(job, runs), shards);
  }
}
