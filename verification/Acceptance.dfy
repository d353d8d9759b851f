/** What accepted evidence is, written out value by value, and what is therefore refused. */
module Acceptance {
  import opened Wrappers
  import opened Ordering
  import opened NodeIds
  import opened Planner
  import opened PlannerProperties
  import opened ShardEvidence
  import opened Verifier
  import opened VerifierProperties

  // ---------------------------------------------------------------- the values

  /** The names of a complete set of worker files, and the number of workers they stand for. */
  ghost predicate NamesFor(names: set<WorkerId>, count: int) {
    1 <= count <= 100_000 && ((names == {Main} && count == 1) || names == set i | 0 <= i < count :: Gw(0, i))
  }

  /** A list that the collection's size and digest do not tell from the collection. */
  ghost predicate PassesFor(xs: seq<string>, job: Job) {
    Canonical(xs) && |xs| == |job.collection| && job.digests.nodes(xs) == job.digests.nodes(job.collection)
  }

  /** The payload of worker `w` of shard `k`, value by value. */
  ghost predicate Attests(p: Payload, w: WorkerId, k: nat, job: Job, uid: string, count: int)
    requires k in job.mine
  {
    && p.kind == Str("probos-ci-shard-evidence") && p.schemaVersion == Int(1)
    && p.shardIndex == Int(k) && p.shardCount == Int(job.n) && p.workerId == Str(WorkerName(w))
    && p.workerCount == Int(count) && p.testRunUid == Str(uid) && p.exitStatus == Int(0) && p.durationsPath.Str?
    && p.durationsSha == Str(job.durations.sha256)
    && p.collectionCount == Int(|job.collection|) && p.collectionSha == Str(job.digests.nodes(job.collection))
    && p.assignmentSha == Str(job.plan.assignmentDigest) && p.assignedCount == Int(|job.mine[k]|)
    && p.assignedSha == Str(job.digests.nodes(job.mine[k])) && p.unknownFileCount == Int(|job.plan.unknownFiles|)
    && IsStringList(p.setupReports)
    && (Primary(w) ==>
          IsStringList(p.collectedNodeids) && PassesFor(Strings(p.collectedNodeids), job) &&
          p.fileShards == ShardObject(job.plan.fileShards))
  }

  /** The values of shard `k` can stand in a payload at all. */
  ghost predicate Shaped(job: Job, k: nat, uid: string, count: int)
    requires k in job.mine
  {
    && 1 <= count <= 100_000 && uid != "" && job.collection != [] && job.mine[k] != []
    && IsSha256(job.durations.sha256) && IsSha256(job.digests.nodes(job.collection))
    && IsSha256(job.plan.assignmentDigest) && IsSha256(job.digests.nodes(job.mine[k]))
  }

  /** The same of the typed evidence. */
  ghost predicate Says(e: Evidence, w: WorkerId, k: nat, job: Job, uid: string, count: int)
    requires k in job.mine
  {
    && e.workerCount == count && e.testRunUid == uid && e.exitStatus == 0
    && e.durationsSha == job.durations.sha256
    && e.collectionCount == |job.collection| && e.collectionSha == job.digests.nodes(job.collection)
    && e.assignmentSha == job.plan.assignmentDigest && e.assignedCount == |job.mine[k]|
    && e.assignedSha == job.digests.nodes(job.mine[k]) && e.unknownFileCount == |job.plan.unknownFiles|
    && (Primary(w) ==> PassesFor(e.collected, job) && e.fileShards == job.plan.fileShards)
  }

  lemma ShardObjectBack(j: Json, m: map<string, int>)
    requires IsShardMap(j)
    ensures ShardNumbers(j) == m <==> j == ShardObject(m)
  {
    if ShardNumbers(j) == m {
      assert j.entries.Keys == m.Keys;
      assert forall k :: k in m ==> j.entries[k] == Int(m[k]);
      assert j.entries == ShardObject(m).entries;
    }
    if j == ShardObject(m) {
      assert j.entries == ShardObject(m).entries;
      assert ShardNumbers(j) == m;
    }
  }

  lemma PayloadSays(p: Payload, w: WorkerId, k: nat, job: Job, uid: string, count: int)
    requires k in job.mine
    ensures (WellFormed(p, w, k, job.n) && Says(Decode(p, w, k, job.n), w, k, job, uid, count)) <==>
      (Shaped(job, k, uid, count) && Attests(p, w, k, job, uid, count))
  {
    if IsShardMap(p.fileShards) { ShardObjectBack(p.fileShards, job.plan.fileShards); }
  }

  // ---------------------------------------------------------------- one shard

  function ReportsIn(file: FileEntry): seq<string> {
    if file.Parsed? && file.document.Object? && IsStringList(file.document.payload.setupReports)
    then Strings(file.document.payload.setupReports) else []
  }

  /** The setup reports in each payload of a shard directory. */
  ghost function SetupReports(entry: DirEntry, k: nat, job: Job): (r: map<WorkerId, seq<string>>)
    requires entry.Directory? && k in job.mine
    ensures r.Keys == entry.files.Keys
  {
    map w | w in entry.files :: ReportsIn(entry.files[w])
  }

  /** A shard directory holding exactly the files of one complete set of workers, each with its values, that together
      report every node of the shard once. */
  ghost predicate AttestedBy(entry: DirEntry, k: nat, job: Job, uid: string, count: int)
    requires k in job.mine
  {
    && entry.Directory? && entry.strays == {} && NamesFor(entry.files.Keys, count) && Shaped(job, k, uid, count)
    && (forall w :: w in entry.files ==>
          entry.files[w].Parsed? && entry.files[w].document.Object? &&
          Attests(entry.files[w].document.payload, w, k, job, uid, count))
    && Pooled(SetupReports(entry, k, job), entry.files.Keys) == multiset(job.mine[k])
  }

  lemma ReadOne(file: FileEntry, w: WorkerId, k: nat, n: nat)
    requires Usable(file, w, k, n)
    ensures Decode(file.document.payload, w, k, n).setupReports == ReportsIn(file)
  {
  }

  /** The same of what was read. */
  ghost predicate SaidBy(workers: Workers, k: nat, job: Job, uid: string, count: int)
    requires k in job.mine
  {
    && NamesFor(workers.Keys, count)
    && (forall w :: w in workers ==> Says(workers[w], w, k, job, uid, count))
    && Reports(workers) == multiset(job.mine[k])
  }

  lemma SameMap(a: map<WorkerId, seq<string>>, b: map<WorkerId, seq<string>>)
    requires a.Keys == b.Keys && forall w :: w in a ==> a[w] == b[w]
    ensures a == b
  {
  }

  lemma ReadKeys(entry: DirEntry, k: nat, n: nat)
    requires entry.Directory? && forall w :: w in entry.files ==> Usable(entry.files[w], w, k, n)
    ensures WorkersOf(entry, k, n).Keys == entry.files.Keys
  {
  }

  lemma ReadReports(entry: DirEntry, k: nat, job: Job)
    requires entry.Directory? && k in job.mine
    requires forall w :: w in entry.files ==> Usable(entry.files[w], w, k, job.n)
    ensures WorkersOf(entry, k, job.n).Keys == entry.files.Keys
    ensures ReportLists(WorkersOf(entry, k, job.n)) == SetupReports(entry, k, job)
  {
    var workers := WorkersOf(entry, k, job.n);
    ReadKeys(entry, k, job.n);
    forall w | w in workers ensures workers[w].setupReports == SetupReports(entry, k, job)[w] {
      ReadOne(entry.files[w], w, k, job.n);
    }
    SameMap(ReportLists(workers), SetupReports(entry, k, job));
  }

  lemma WorkerSays(entry: DirEntry, w: WorkerId, k: nat, job: Job, uid: string, count: int)
    requires k in job.mine && entry.Directory? && w in entry.files
    ensures (Usable(entry.files[w], w, k, job.n) && Says(WorkersOf(entry, k, job.n)[w], w, k, job, uid, count)) <==>
      (Shaped(job, k, uid, count) && entry.files[w].Parsed? && entry.files[w].document.Object? &&
       Attests(entry.files[w].document.payload, w, k, job, uid, count))
  {
    if entry.files[w].Parsed? && entry.files[w].document.Object? {
      PayloadSays(entry.files[w].document.payload, w, k, job, uid, count);
    }
  }

  lemma NamesArePlain(names: set<WorkerId>, count: int)
    ensures NamesFor(names, count) <==>
      1 <= count <= MAX_WORKERS && ((names == {Main} && count == 1) || names == GwSet(count))
    ensures NamesFor(names, count) ==> Main in names || Gw(0, 0) in names
  {
    assert GwSet(count) == set i | 0 <= i < count :: Gw(0, i);
    if count >= 1 { assert Gw(0, 0) in GwSet(count); }
  }

  lemma AttestedReads(entry: DirEntry, k: nat, job: Job, uid: string, count: int)
    requires k in job.mine && AttestedBy(entry, k, job, uid, count)
    ensures DirectoryClean(entry, k, job.n) && PresentOf(entry) == entry.files.Keys
    ensures SaidBy(WorkersOf(entry, k, job.n), k, job, uid, count)
  {
    forall w | w in entry.files
      ensures Usable(entry.files[w], w, k, job.n) && Says(WorkersOf(entry, k, job.n)[w], w, k, job, uid, count)
    {
      WorkerSays(entry, w, k, job, uid, count);
    }
    ReadReports(entry, k, job);
  }

  lemma SaidIsComplete(workers: Workers, k: nat, job: Job, uid: string, count: int)
    requires k in job.mine && SaidBy(workers, k, job, uid, count)
    ensures WorkersComplete(workers.Keys, workers)
  {
    NamesArePlain(workers.Keys, count);
    assert Main !in GwSet(count);
  }

  lemma SaidIsHonest(workers: Workers, k: nat, job: Job, uid: string, count: int)
    requires k in job.mine && SaidBy(workers, k, job, uid, count)
    ensures HonestShardOf(job, k, workers)
  {
    NamesArePlain(workers.Keys, count);
    forall w | w in workers ensures Faithful(job, k, w, workers[w]) {
      assert Says(workers[w], w, k, job, uid, count);
    }
  }

  /** An attested shard reads clean and speaks of the job's plan. */
  lemma AttestedShard(entry: DirEntry, k: nat, job: Job, uid: string, count: int)
    requires k in job.mine && AttestedBy(entry, k, job, uid, count)
    ensures ShardReadsClean(entry, k, job.n) && HonestShardOf(job, k, WorkersOf(entry, k, job.n))
  {
    AttestedReads(entry, k, job, uid, count);
    SaidIsComplete(WorkersOf(entry, k, job.n), k, job, uid, count);
    SaidIsHonest(WorkersOf(entry, k, job.n), k, job, uid, count);
    assert WorkersOf(entry, k, job.n).Keys == entry.files.Keys;
  }

  lemma SaidIsAttested(entry: DirEntry, k: nat, job: Job, uid: string, count: int)
    requires k in job.mine && DirectoryClean(entry, k, job.n)
    requires SaidBy(WorkersOf(entry, k, job.n), k, job, uid, count)
    ensures AttestedBy(entry, k, job, uid, count)
  {
    ReadReports(entry, k, job);
    NamesArePlain(entry.files.Keys, count);
    forall w | w in entry.files
      ensures Shaped(job, k, uid, count) && Attests(entry.files[w].document.payload, w, k, job, uid, count)
    {
      assert Usable(entry.files[w], w, k, job.n);
      WorkerSays(entry, w, k, job, uid, count);
    }
  }

  // ---------------------------------------------------------------- the whole root

  /** The job's plan is what the planner makes of its collection. */
  ghost predicate JobOf(job: Job) {
    && Planned(job.collection, job.durations.milliseconds, job.n, job.digests) == Success(job.plan)
    && job.mine.Keys == ShardNumbersTo(job.n)
    && forall k :: k in job.mine ==> job.mine[k] == AssignedNodeids(Elements(job.collection), job.plan.fileShards, k)
  }

  /** The primary worker of this shard carries the job's collection itself. */
  ghost predicate Carries(entry: DirEntry, job: Job) {
    forall w :: entry.Directory? && w in entry.files && Primary(w) ==>
      entry.files[w].Parsed? && entry.files[w].document.Object? &&
      entry.files[w].document.payload.collectedNodeids == StringList(job.collection)
  }

  ghost predicate AttestedEntry(entry: DirEntry, k: nat, job: Job)
    requires k in job.mine
  {
    exists uid, count :: AttestedBy(entry, k, job, uid, count)
  }

  /** Exactly the directories of the job's shards, each attested, the first with the collection itself. */
  ghost predicate Attested(root: Root, job: Job) {
    && root.Root? && root.strays == {} && root.shards.Keys == job.mine.Keys
    && (forall k :: k in root.shards ==> AttestedEntry(root.shards[k], k, job))
    && (1 in root.shards ==> Carries(root.shards[1], job))
  }

  lemma StringsOf(j: Json, xs: seq<string>)
    requires IsStringList(j)
    ensures Strings(j) == xs <==> j == StringList(xs)
  {
    if Strings(j) == xs { assert j.items == StringList(xs).items; }
  }

  lemma CarriesMeans(entry: DirEntry, k: nat, job: Job)
    requires k in job.mine && DirectoryClean(entry, k, job.n)
    ensures Carries(entry, job) <==> CarriesCollection(job, WorkersOf(entry, k, job.n))
  {
    var workers := WorkersOf(entry, k, job.n);
    forall w | w in entry.files && Primary(w)
      ensures w in workers && (workers[w].collected == job.collection <==>
        entry.files[w].document.payload.collectedNodeids == StringList(job.collection))
    {
      assert Usable(entry.files[w], w, k, job.n);
      StringsOf(entry.files[w].document.payload.collectedNodeids, job.collection);
    }
  }

  lemma AttestedEntryReads(root: Root, k: nat, job: Job)
    requires Attested(root, job) && k in root.shards
    ensures root.shards[k].Directory?
    ensures ShardReadsClean(root.shards[k], k, job.n) && HonestShardOf(job, k, WorkersOf(root.shards[k], k, job.n))
    ensures k == 1 ==> CarriesCollection(job, WorkersOf(root.shards[k], k, job.n))
  {
    assert AttestedEntry(root.shards[k], k, job);
    var uid, count :| AttestedBy(root.shards[k], k, job, uid, count);
    AttestedShard(root.shards[k], k, job, uid, count);
    CarriesMeans(root.shards[k], k, job);
  }

  /** An attested root is accepted, with the job's collection. */
  lemma AttestedIsAccepted(root: Root, job: Job)
    requires JobOf(job) && Attested(root, job)
    ensures Verified(root, job.n, job.durations, job.digests)
    ensures CollectionOf(root, job.n, job.digests) == job.collection
  {
    var shards := ShardsOf(root, job.n);
    forall k | k in root.shards
      ensures ShardReadsClean(root.shards[k], k, job.n) && HonestShardOf(job, k, WorkersOf(root.shards[k], k, job.n))
    {
      AttestedEntryReads(root, k, job);
    }
    AllCleanUpTo(root, job.n, job.n);
    KeysRead(root, job.n);
    forall k | k in shards ensures HonestShardOf(job, k, shards[k]) && (k == 1 ==> CarriesCollection(job, shards[k])) {
      ShardsUpToKeys(root, job.n, job.n, k);
      AttestedEntryReads(root, k, job);
    }
    HonestShardsAccepted(job, root, shards);
  }

  lemma MatchedFields(e: Evidence, w: WorkerId, mine: seq<string>, plan: ShardPlan, durationsSha: string,
                      digests: Digests)
    requires EvidenceMatches(e, w, mine, plan, durationsSha, digests)
    ensures e.durationsSha == durationsSha && e.assignmentSha == plan.assignmentDigest
    ensures e.assignedSha == digests.nodes(mine) && e.assignedCount == |mine|
    ensures e.unknownFileCount == |plan.unknownFiles| && (Primary(w) ==> e.fileShards == plan.fileShards)
  {
    assert FieldMatches(e, w, mine, plan, durationsSha, digests, DurationsSha);
    assert FieldMatches(e, w, mine, plan, durationsSha, digests, AssignmentSha);
    assert FieldMatches(e, w, mine, plan, durationsSha, digests, AssignedSha);
    assert FieldMatches(e, w, mine, plan, durationsSha, digests, AssignedCount);
    assert FieldMatches(e, w, mine, plan, durationsSha, digests, UnknownFileCount);
    assert FieldMatches(e, w, mine, plan, durationsSha, digests, FileShards);
  }

  lemma AcceptedClaim(shards: map<nat, Workers>, digests: Digests, n: nat, k: nat, w: WorkerId)
    requires CollectionAgreed(shards, n, digests) && 1 <= k <= n && k in shards && w in shards[k]
    ensures var e, c := shards[k][w], Reference(shards, digests, n).value;
      e.collectionCount == |c| && e.collectionSha == digests.nodes(c) &&
      (Primary(w) ==> Canonical(e.collected) && |e.collected| == |c| && digests.nodes(e.collected) == digests.nodes(c))
  {
    var j, v := ReferenceCarried(shards, digests, n);
    assert shards[j][v].collectionSha == shards[k][w].collectionSha;
    if Primary(w) { PrimaryIsVerified(shards, digests, n, k, w); }
  }

  /** What every worker of an accepted root reports: the recomputed values and no others. */
  lemma AcceptedFields(root: Root, n: nat, durations: DurationsFile, digests: Digests, plan: ShardPlan, k: nat,
                       w: WorkerId)
    requires Verified(root, n, durations, digests)
    requires Planned(CollectionOf(root, n, digests), durations.milliseconds, n, digests) == Success(plan)
    requires k in ShardsOf(root, n) && w in ShardsOf(root, n)[k]
    ensures
      var e, collection := ShardsOf(root, n)[k][w], CollectionOf(root, n, digests);
      var mine := AssignedNodeids(Elements(collection), plan.fileShards, k);
      && e.exitStatus == 0 && e.durationsSha == durations.sha256
      && e.collectionCount == |collection| && e.collectionSha == digests.nodes(collection)
      && e.assignmentSha == plan.assignmentDigest && e.assignedCount == |mine|
      && e.assignedSha == digests.nodes(mine) && e.unknownFileCount == |plan.unknownFiles|
      && (Primary(w) ==> Canonical(e.collected) && |e.collected| == |collection| &&
                         digests.nodes(e.collected) == digests.nodes(collection) && e.fileShards == plan.fileShards)
  {
    var shards, collection := ShardsOf(root, n), CollectionOf(root, n, digests);
    var mine := AssignedNodeids(Elements(collection), plan.fileShards, k);
    AcceptedShards(root, n, shards);
    AcceptedClaim(shards, digests, n, k, w);
    ShardMatchesAt(shards, Elements(collection), plan, durations.sha256, digests, n, k);
    MatchedFields(shards[k][w], w, mine, plan, durations.sha256, digests);
  }

  lemma CleanNames(entry: DirEntry, k: nat, n: nat) returns (uid: string, count: int)
    requires ShardReadsClean(entry, k, n)
    ensures NamesFor(WorkersOf(entry, k, n).Keys, count)
    ensures forall w :: w in WorkersOf(entry, k, n) ==>
      WorkersOf(entry, k, n)[w].testRunUid == uid && WorkersOf(entry, k, n)[w].workerCount == count
  {
    var workers := WorkersOf(entry, k, n);
    assert workers.Keys == PresentOf(entry);
    var v :| v in workers;
    uid, count := workers[v].testRunUid, workers[v].workerCount;
    assert Usable(entry.files[v], v, k, n);
    NamesArePlain(workers.Keys, count);
  }

  lemma AcceptedShardSays(root: Root, job: Job, k: nat) returns (uid: string, count: int)
    requires JobOf(job) && Verified(root, job.n, job.durations, job.digests)
    requires CollectionOf(root, job.n, job.digests) == job.collection && 1 <= k <= job.n
    ensures k in job.mine && k in root.shards && ShardReadsClean(root.shards[k], k, job.n)
    ensures SaidBy(WorkersOf(root.shards[k], k, job.n), k, job, uid, count)
  {
    var shards := ShardsOf(root, job.n);
    assert k in job.mine && k in root.shards;
    ShardsUpToKeys(root, job.n, job.n, k);
    uid, count := CleanNames(root.shards[k], k, job.n);
    forall w | w in shards[k] ensures Says(shards[k][w], w, k, job, uid, count) {
      AcceptedFields(root, job.n, job.durations, job.digests, job.plan, k, w);
    }
    AcceptedMeansExactlyOnce(root, job.n, job.durations, job.digests, job.collection, job.plan);
    ShardRan(shards, job.n, Elements(job.collection), job.plan, k);
  }

  lemma OnePrimary(workers: Workers, count: int, v: WorkerId, w: WorkerId)
    requires NamesFor(workers.Keys, count) && v in workers && w in workers && Primary(v) && Primary(w)
    ensures v == w
  {
    NamesArePlain(workers.Keys, count);
    assert Main !in GwSet(count);
  }

  lemma FirstCarries(job: Job, shards: map<nat, Workers>, count: int)
    requires job.n >= 1 && CollectionAgreed(shards, job.n, job.digests)
    requires Reference(shards, job.digests, job.n) == Some(job.collection)
    requires 1 in shards && NamesFor(shards[1].Keys, count)
    ensures CarriesCollection(job, shards[1])
  {
    NamesArePlain(shards[1].Keys, count);
    forall w | w in shards[1] && Primary(w) ensures shards[1][w].collected == job.collection {
      var same := job.(collection := shards[1][w].collected);
      forall v | v in shards[1] && Primary(v) ensures v == w && CollectionVerified(shards[1][v], job.digests) {
        OnePrimary(shards[1], count, v, w);
        PrimaryIsVerified(shards, job.digests, job.n, 1, v);
      }
      FirstReference(same, shards, job.n);
    }
  }

  /** An accepted root is attested for the plan of its own collection. */
  lemma AcceptedIsAttested(root: Root, job: Job)
    requires JobOf(job) && Verified(root, job.n, job.durations, job.digests)
    requires CollectionOf(root, job.n, job.digests) == job.collection
    ensures Attested(root, job)
  {
    forall k | k in root.shards ensures k in job.mine && AttestedEntry(root.shards[k], k, job) {
      var uid, count := AcceptedShardSays(root, job, k);
      SaidIsAttested(root.shards[k], k, job, uid, count);
    }
    if 1 in root.shards {
      var uid, count := AcceptedShardSays(root, job, 1);
      ShardsUpToKeys(root, job.n, job.n, 1);
      FirstCarries(job, ShardsOf(root, job.n), count);
      CarriesMeans(root.shards[1], 1, job);
    }
  }

  /** The verdict, exactly: with the job's collection, a root is accepted if and only if it is attested. */
  lemma AcceptedExactly(root: Root, job: Job)
    requires JobOf(job)
    ensures Attested(root, job) <==>
      Verified(root, job.n, job.durations, job.digests) && CollectionOf(root, job.n, job.digests) == job.collection
  {
    if Attested(root, job) { AttestedIsAccepted(root, job); }
    if Verified(root, job.n, job.durations, job.digests) && CollectionOf(root, job.n, job.digests) == job.collection {
      AcceptedIsAttested(root, job);
    }
  }

  ghost function Parts(collection: seq<string>, plan: ShardPlan, n: nat): (mine: map<nat, seq<string>>)
    ensures mine.Keys == ShardNumbersTo(n)
    ensures forall k :: k in mine ==> mine[k] == AssignedNodeids(Elements(collection), plan.fileShards, k)
  {
    map k | k in ShardNumbersTo(n) :: AssignedNodeids(Elements(collection), plan.fileShards, k)
  }

  lemma PlanOfAccepted(root: Root, n: nat, durations: DurationsFile, digests: Digests) returns (plan: ShardPlan)
    requires Verified(root, n, durations, digests)
    ensures Planned(CollectionOf(root, n, digests), durations.milliseconds, n, digests) == Success(plan)
  {
    plan := Planned(CollectionOf(root, n, digests), durations.milliseconds, n, digests).value;
  }

  /** And every accepted root is accepted for such a job. */
  lemma AcceptedHasJob(root: Root, n: nat, durations: DurationsFile, digests: Digests) returns (job: Job)
    requires Verified(root, n, durations, digests)
    ensures JobOf(job) && job.n == n && job.durations == durations && job.digests == digests
    ensures CollectionOf(root, n, digests) == job.collection && Attested(root, job)
  {
    var collection := CollectionOf(root, n, digests);
    var plan := PlanOfAccepted(root, n, durations, digests);
    job := Job(collection, n, durations, "", plan, Parts(collection, plan, n), digests);
    AcceptedIsAttested(root, job);
  }

  // ---------------------------------------------------------------- what is refused

  /** Two worker names are written alike only when they are the same. */
  lemma {:induction false} DecimalStart(n: nat)
    ensures |Decimal(n)| >= 1 && (Decimal(n)[0] == '0' <==> n == 0) && (n == 0 ==> Decimal(n) == "0")
  {
    if n >= 10 { DecimalStart(n / 10); }
  }

  /** The number that decimal digits stand for. */
  function Value(digits: string): nat
    requires forall i :: 0 <= i < |digits| ==> '0' <= digits[i] <= '9'
  {
    if digits == "" then 0 else
      Value(digits[..|digits| - 1]) * 10 + (digits[|digits| - 1] as int - '0' as int)
  }

  lemma {:induction false} DecimalValue(n: nat)
    ensures forall i :: 0 <= i < |Decimal(n)| ==> '0' <= Decimal(n)[i] <= '9'
    ensures Value(Decimal(n)) == n
  {
    if n < 10 {
      assert Decimal(n)[..0] == "";
    } else {
      DecimalValue(n / 10);
      assert Decimal(n)[..|Decimal(n)| - 1] == Decimal(n / 10);
    }
  }

  /** What the names of worker files are. */
  lemma WorkerNamed(zeros: nat, number: nat)
    ensures WorkerName(Main) == "main" && WorkerName(Gw(zeros, number))[..2] == "gw"
    ensures var digits := WorkerName(Gw(zeros, number))[2..];
      && |digits| > zeros && (forall i :: 0 <= i < |digits| ==> '0' <= digits[i] <= '9')
      && (forall i :: 0 <= i < zeros ==> digits[i] == '0')
      && (digits[zeros] == '0' <==> number == 0) && Value(digits[zeros..]) == number
  {
    var digits := seq(zeros, _ => '0') + Decimal(number);
    assert WorkerName(Gw(zeros, number)) == "gw" + digits;
    assert WorkerName(Gw(zeros, number))[2..] == digits && digits[zeros..] == Decimal(number);
    DecimalStart(number);
    DecimalValue(number);
  }

  lemma HexMeans(s: string)
    ensures IsSha256(s) <==> |s| == 64 && forall i :: 0 <= i < |s| ==> s[i] in "0123456789abcdef"
  {
  }

  lemma {:induction false} DecimalUnique(m: nat, n: nat)
    requires Decimal(m) == Decimal(n)
    ensures m == n
  {
    var a, b := Decimal(m), Decimal(n);
    assert m < 10 ==> |a| == 1;
    assert n < 10 ==> |b| == 1;
    if m >= 10 { DecimalStart(m / 10); }
    if n >= 10 { DecimalStart(n / 10); }
    assert a[|a| - 1] == '0' + (m % 10) as char && b[|b| - 1] == '0' + (n % 10) as char;
    if m >= 10 && n >= 10 {
      assert a[..|a| - 1] == Decimal(m / 10) && b[..|b| - 1] == Decimal(n / 10);
      DecimalUnique(m / 10, n / 10);
    }
  }

  lemma ZerosDiffer(y: nat, m: nat, z: nat, n: nat)
    requires y < z
    ensures seq(y, _ => '0') + Decimal(m) != seq(z, _ => '0') + Decimal(n)
  {
    var a, b := seq(y, _ => '0') + Decimal(m), seq(z, _ => '0') + Decimal(n);
    DecimalStart(m);
    DecimalStart(n);
    assert a[y] == Decimal(m)[0] && b[y] == '0';
    assert m == 0 ==> |a| == y + 1;
    assert |b| >= z + 1;
  }

  lemma ZerosUnique(y: nat, m: nat, z: nat, n: nat)
    requires seq(y, _ => '0') + Decimal(m) == seq(z, _ => '0') + Decimal(n)
    ensures y == z && m == n
  {
    if y < z { ZerosDiffer(y, m, z, n); }
    if z < y { ZerosDiffer(z, n, y, m); }
    assert (seq(y, _ => '0') + Decimal(m))[y..] == Decimal(m);
    assert (seq(z, _ => '0') + Decimal(n))[z..] == Decimal(n);
    DecimalUnique(m, n);
  }

  lemma WorkerNameUnique(v: WorkerId, w: WorkerId)
    requires WorkerName(v) == WorkerName(w)
    ensures v == w
  {
    assert forall u: WorkerId :: WorkerName(u)[0] == if u == Main then 'm' else 'g';
    if v.Gw? && w.Gw? {
      var a, b := seq(v.zeros, _ => '0') + Decimal(v.number), seq(w.zeros, _ => '0') + Decimal(w.number);
      assert WorkerName(v) == "gw" + a && WorkerName(w) == "gw" + b;
      assert WorkerName(v)[2..] == a && WorkerName(w)[2..] == b;
      ZerosUnique(v.zeros, v.number, w.zeros, w.number);
    }
  }

  /** Written evidence is well-formed only as the worker, in the shard and for the shard count it was written for. */
  lemma OnlyAtItsPlace(e: Evidence, w: WorkerId, k: nat, n: nat, v: WorkerId, j: nat, m: nat)
    ensures WellFormed(Encode(e, w, k, n), v, j, m) <==> Presentable(e) && v == w && j == k && m == n
  {
    var p := Encode(e, w, k, n);
    EncodeRoundTrip(e, w, k, n);
    if WellFormed(p, v, j, m) {
      assert p.workerId == Str(WorkerName(v)) && p.workerId == Str(WorkerName(w));
      WorkerNameUnique(v, w);
      assert p.shardIndex == Int(j) && p.shardCount == Int(m);
    }
  }

  /** A worker file whose payload is not what its place asks for is refused. */
  lemma MalformedRefused(root: Root, n: nat, durations: DurationsFile, digests: Digests, k: nat, w: WorkerId)
    requires root.Root? && k in root.shards && root.shards[k].Directory? && w in root.shards[k].files
    requires Verified(root, n, durations, digests)
    ensures Usable(root.shards[k].files[w], w, k, n)
    ensures root.shards[k].files[w].document.payload.exitStatus == Int(0)
  {
    assert k in ShardNumbersTo(n);
    ShardsUpToKeys(root, n, n, k);
    assert w in WorkersOf(root.shards[k], k, n);
  }

  /** Evidence of a process that did not exit 0 is refused, whatever else is found. */
  lemma FailedRunRefused(root: Root, n: nat, durations: DurationsFile, digests: Digests, k: nat, w: WorkerId,
                         p: Process, index: nat, count: nat, sha: string, collection: seq<string>, plan: ShardPlan,
                         reports: seq<string>, written: Digests)
    requires root.Root? && k in root.shards && root.shards[k].Directory? && w in root.shards[k].files
    requires root.shards[k].files[w] ==
      Parsed(Object(Encode(BuildEvidence(p, index, sha, collection, plan, reports, written), p.worker, index, count)))
    requires p.exitStatus != 0
    ensures !Verified(root, n, durations, digests)
  {
    if Verified(root, n, durations, digests) { MalformedRefused(root, n, durations, digests, k, w); }
  }

  /** So is evidence found anywhere but where its process wrote it. */
  lemma MisplacedRefused(root: Root, n: nat, durations: DurationsFile, digests: Digests, k: nat, w: WorkerId,
                         e: Evidence, v: WorkerId, j: nat, m: nat)
    requires root.Root? && k in root.shards && root.shards[k].Directory? && w in root.shards[k].files
    requires root.shards[k].files[w] == Parsed(Object(Encode(e, v, j, m)))
    requires v != w || j != k || m != n
    ensures !Verified(root, n, durations, digests)
  {
    if Verified(root, n, durations, digests) {
      MalformedRefused(root, n, durations, digests, k, w);
      OnlyAtItsPlace(e, v, j, m, w, k, n);
    }
  }

  // ---------------------------------------------------------------- which differences are listed

  lemma {:induction false} ProblemAt(shards: map<nat, Workers>, nodes: set<string>, plan: ShardPlan, sha: string,
                                     digests: Digests, k: nat, p: Problem)
    requires p.AssignmentDiffers?
    ensures AssignmentProblem(shards, nodes, plan, sha, digests, k, p) <==>
      1 <= p.place.shard <= k && p.place.shard in shards && p.place.worker in shards[p.place.shard] &&
      !FieldMatches(shards[p.place.shard][p.place.worker], p.place.worker,
                    AssignedNodeids(nodes, plan.fileShards, p.place.shard), plan, sha, digests, p.field)
  {
    if k > 0 { ProblemAt(shards, nodes, plan, sha, digests, k - 1, p); }
  }

  lemma {:induction false} NoneOfPrimaries(shards: map<nat, Workers>, digests: Digests, k: nat, p: Problem)
    requires !p.CollectionNotCanonical? && !p.CollectionDigestWrong?
    ensures !PrimariesProblem(shards, digests, k, p)
  {
    if k > 0 { NoneOfPrimaries(shards, digests, k - 1, p); }
  }

  lemma {:induction false} NoneOfShards(root: Root, n: nat, k: nat, p: Problem)
    requires root.Root? && p.AssignmentDiffers?
    ensures !ShardsProblem(root, n, k, p)
  {
    if k > 0 { NoneOfShards(root, n, k - 1, p); }
  }

  lemma OnlyFromThePlan(root: Root, n: nat, digests: Digests, p: Problem)
    requires p.AssignmentDiffers?
    ensures !ReadProblem(root, n, p) && !AgreementProblem(ShardsOf(root, n), n, digests, p)
  {
    NoneOfPrimaries(ShardsOf(root, n), digests, n, p);
    if root.Root? { NoneOfShards(root, n, n, p); }
  }

  /** The verifier lists this difference. */
  ghost predicate Listed(root: Root, n: nat, durations: DurationsFile, digests: Digests, place: Place, field: Field) {
    Warranted(root, n, durations, digests, AssignmentDiffers(place, field))
  }

  lemma DifferenceListed(root: Root, n: nat, durations: DurationsFile, digests: Digests, collection: seq<string>,
                         plan: ShardPlan, place: Place, field: Field)
    requires Agreed(ShardsOf(root, n), digests, n) == Some(collection)
    requires Planned(collection, durations.milliseconds, n, digests) == Success(plan)
    requires 1 <= place.shard <= n && place.shard in ShardsOf(root, n) && place.worker in ShardsOf(root, n)[place.shard]
    ensures Listed(root, n, durations, digests, place, field) <==>
      !FieldMatches(ShardsOf(root, n)[place.shard][place.worker], place.worker,
                    AssignedNodeids(Elements(collection), plan.fileShards, place.shard), plan, durations.sha256,
                    digests, field)
  {
    var p := AssignmentDiffers(place, field);
    OnlyFromThePlan(root, n, digests, p);
    ProblemAt(ShardsOf(root, n), Elements(collection), plan, durations.sha256, digests, n, p);
  }

  lemma FieldsDiffer(e: Evidence, w: WorkerId, mine: seq<string>, plan: ShardPlan, sha: string, digests: Digests)
    ensures !FieldMatches(e, w, mine, plan, sha, digests, DurationsSha) <==> e.durationsSha != sha
    ensures !FieldMatches(e, w, mine, plan, sha, digests, AssignmentSha) <==> e.assignmentSha != plan.assignmentDigest
    ensures !FieldMatches(e, w, mine, plan, sha, digests, AssignedSha) <==> e.assignedSha != digests.nodes(mine)
    ensures !FieldMatches(e, w, mine, plan, sha, digests, AssignedCount) <==> e.assignedCount != |mine|
    ensures !FieldMatches(e, w, mine, plan, sha, digests, UnknownFileCount) <==>
      e.unknownFileCount != |plan.unknownFiles|
    ensures !FieldMatches(e, w, mine, plan, sha, digests, FileShards) <==>
      Primary(w) && e.fileShards != plan.fileShards
  {
  }

  /** The differences listed of one worker are those of the value each is named after. */
  lemma DifferencesListed(root: Root, n: nat, durations: DurationsFile, digests: Digests, collection: seq<string>,
                          plan: ShardPlan, place: Place)
    requires Agreed(ShardsOf(root, n), digests, n) == Some(collection)
    requires Planned(collection, durations.milliseconds, n, digests) == Success(plan)
    requires 1 <= place.shard <= n && place.shard in ShardsOf(root, n) && place.worker in ShardsOf(root, n)[place.shard]
    ensures var e := ShardsOf(root, n)[place.shard][place.worker];
      && (Listed(root, n, durations, digests, place, DurationsSha) <==> e.durationsSha != durations.sha256)
      && (Listed(root, n, durations, digests, place, AssignmentSha) <==> e.assignmentSha != plan.assignmentDigest)
      && (Listed(root, n, durations, digests, place, UnknownFileCount) <==>
          e.unknownFileCount != |plan.unknownFiles|)
      && (Listed(root, n, durations, digests, place, FileShards) <==>
          Primary(place.worker) && e.fileShards != plan.fileShards)
    ensures var e := ShardsOf(root, n)[place.shard][place.worker];
      var mine := AssignedNodeids(Elements(collection), plan.fileShards, place.shard);
      && (Listed(root, n, durations, digests, place, AssignedSha) <==> e.assignedSha != digests.nodes(mine))
      && (Listed(root, n, durations, digests, place, AssignedCount) <==> e.assignedCount != |mine|)
  {
    FieldsDiffer(ShardsOf(root, n)[place.shard][place.worker], place.worker,
                 AssignedNodeids(Elements(collection), plan.fileShards, place.shard), plan, durations.sha256, digests);
    DifferenceListed(root, n, durations, digests, collection, plan, place, DurationsSha);
    DifferenceListed(root, n, durations, digests, collection, plan, place, AssignmentSha);
    DifferenceListed(root, n, durations, digests, collection, plan, place, AssignedSha);
    DifferenceListed(root, n, durations, digests, collection, plan, place, AssignedCount);
    DifferenceListed(root, n, durations, digests, collection, plan, place, UnknownFileCount);
    DifferenceListed(root, n, durations, digests, collection, plan, place, FileShards);
  }

  /** The shard that a finding about one shard's directory is about. */
  function ShardNamed(p: Problem): Option<nat> {
    match p
    case ShardNotDirectory(k) => Some(k)
    case UnexpectedFile(k, _) => Some(k)
    case NotAWorkerFile(q) => Some(q.shard)
    case FileUnreadable(q) => Some(q.shard)
    case BadShape(q) => Some(q.shard)
    case NoEvidenceFiles(k) => Some(k)
    case NonZeroExit(q) => Some(q.shard)
    case WorkerCountsDiffer(k) => Some(k)
    case RunUidsDiffer(k) => Some(k)
    case MainMixed(k) => Some(k)
    case MainWorkerCount(k) => Some(k)
    case WorkerFileMissing(q) => Some(q.shard)
    case WorkerFileExtra(q) => Some(q.shard)
    case _ => None
  }

  /** What must be the case for a finding about the workers of a shard; `present` are the files that are there. */
  ghost predicate OccursAmong(present: set<WorkerId>, workers: Workers, p: Problem) {
    match p
    case NoEvidenceFiles(_) => present == {}
    case NonZeroExit(q) => q.worker in workers && workers[q.worker].exitStatus != 0
    case WorkerCountsDiffer(_) =>
      exists v, w :: v in workers && w in workers && workers[v].workerCount != workers[w].workerCount
    case RunUidsDiffer(_) =>
      exists v, w :: v in workers && w in workers && workers[v].testRunUid != workers[w].testRunUid
    case MainMixed(_) => Main in present && present != {Main}
    case MainWorkerCount(_) => Main in present && exists w :: w in workers && workers[w].workerCount != 1
    case WorkerFileMissing(q) =>
      Main !in present && workers != map[] && q.worker !in present && SameWorkerCount(workers) &&
      forall w :: w in workers ==> q.worker.Gw? && q.worker.zeros == 0 && q.worker.number < workers[w].workerCount
    case WorkerFileExtra(q) =>
      Main !in present && workers != map[] && q.worker in present && SameWorkerCount(workers) &&
      forall w :: w in workers ==>
        !(q.worker.Gw? && q.worker.zeros == 0 && q.worker.number < workers[w].workerCount)
    case _ => false
  }

  /** What must be the case for a finding about an entry `shard-k`. */
  ghost predicate Occurs(entry: DirEntry, k: nat, n: nat, p: Problem) {
    match entry
    case NotADirectory => p.ShardNotDirectory?
    case Directory(files, strays) =>
      match p
      case UnexpectedFile(_, name) => name in strays
      case NotAWorkerFile(q) => q.worker in files && files[q.worker].NotAFile?
      case FileUnreadable(q) => q.worker in files && files[q.worker].Unreadable?
      case BadShape(q) => q.worker in files && files[q.worker].Parsed? && q.worker !in WorkersOf(entry, k, n)
      case _ => OccursAmong((set w | w in files && !files[w].NotAFile?), WorkersOf(entry, k, n), p)
  }

  lemma OtherShard(entry: DirEntry, k: nat, n: nat, p: Problem)
    requires ShardNamed(p).Some? && ShardNamed(p) != Some(k)
    ensures !ShardProblem(entry, k, n, p)
  {
  }

  lemma {:induction false} ShardsProblemAt(root: Root, n: nat, k: nat, j: nat, p: Problem)
    requires root.Root? && ShardNamed(p) == Some(j)
    ensures ShardsProblem(root, n, k, p) <==> 1 <= j <= k && j in root.shards && ShardProblem(root.shards[j], j, n, p)
  {
    if k > 0 {
      ShardsProblemAt(root, n, k - 1, j, p);
      if k in root.shards && k != j { OtherShard(root.shards[k], k, n, p); }
    }
  }

  lemma {:induction false} NotFromPlan(shards: map<nat, Workers>, nodes: set<string>, plan: ShardPlan, sha: string,
                                       digests: Digests, k: nat, p: Problem)
    requires !p.AssignmentDiffers?
    ensures !AssignmentProblem(shards, nodes, plan, sha, digests, k, p)
  {
    if k > 0 { NotFromPlan(shards, nodes, plan, sha, digests, k - 1, p); }
  }

  lemma CountsAlike(workers: Workers, c: int)
    ensures AgreedCount(workers, c) <==> workers != map[] && forall w :: w in workers ==> workers[w].workerCount == c
  {
    if workers != map[] {
      var v :| v in workers;
      assert workers[v].workerCount in CountSet(workers);
    }
    if AgreedCount(workers, c) {
      assert c in CountSet(workers);
      forall w | w in workers ensures workers[w].workerCount == c {
        assert workers[w].workerCount in CountSet(workers);
      }
    }
  }

  lemma NamesOccur(k: nat, present: set<WorkerId>, workers: Workers, p: Problem)
    requires p.WorkerFileMissing? || p.WorkerFileExtra?
    ensures NamesProblem(k, present, workers, p) <==>
      p.place.shard == k && Main !in present && workers != map[] && SameWorkerCount(workers) &&
      (p.place.worker in present <==> p.WorkerFileExtra?) &&
      forall w :: w in workers ==> (p.WorkerFileMissing? <==>
        p.place.worker.Gw? && p.place.worker.zeros == 0 && p.place.worker.number < workers[w].workerCount)
  {
    if workers != map[] {
      var v :| v in workers;
      var c := workers[v].workerCount;
      CountsAlike(workers, c);
      forall d | AgreedCount(workers, d) ensures d == c { CountsAlike(workers, d); }
      assert p.place.worker in GwSet(c) <==>
        p.place.worker.Gw? && p.place.worker.zeros == 0 && p.place.worker.number < c;
    } else {
      forall d ensures !AgreedCount(workers, d) { CountsAlike(workers, d); }
    }
  }

  lemma WorkersOccur(k: nat, present: set<WorkerId>, workers: Workers, p: Problem)
    requires ShardNamed(p) == Some(k) && workers.Keys <= present
    requires !(p.UnexpectedFile? || p.NotAWorkerFile? || p.FileUnreadable? || p.BadShape?)
    ensures WorkersProblem(k, present, workers, p) <==> OccursAmong(present, workers, p)
  {
    if p.WorkerFileMissing? || p.WorkerFileExtra? { NamesOccur(k, present, workers, p); }
  }

  lemma EntriesOccur(entry: DirEntry, k: nat, n: nat, p: Problem)
    requires ShardNamed(p) == Some(k) && entry.Directory?
    requires p.UnexpectedFile? || p.NotAWorkerFile? || p.FileUnreadable? || p.BadShape?
    ensures EntriesProblem(entry, k, n, p) <==> Occurs(entry, k, n, p)
  {
  }

  lemma EntryOccurs(entry: DirEntry, k: nat, n: nat, p: Problem)
    requires ShardNamed(p) == Some(k)
    ensures ShardProblem(entry, k, n, p) <==> Occurs(entry, k, n, p)
  {
    if entry.Directory? {
      if p.UnexpectedFile? || p.NotAWorkerFile? || p.FileUnreadable? || p.BadShape? {
        EntriesOccur(entry, k, n, p);
      } else {
        assert PresentOf(entry) == set w | w in entry.files && !entry.files[w].NotAFile?;
        WorkersOccur(k, PresentOf(entry), WorkersOf(entry, k, n), p);
      }
    }
  }

  lemma NotAboutPlan(shards: map<nat, Workers>, collection: seq<string>, n: nat, durations: DurationsFile,
                     digests: Digests, plan: Option<ShardPlan>, p: Problem)
    requires !p.AssignmentDiffers? && p != AssignmentNotRecomputable
    requires plan == PlanFor(collection, n, durations, digests)
    ensures !PlanProblem(shards, collection, n, durations, digests, p)
  {
    if plan.Some? { NotFromPlan(shards, Elements(collection), plan.value, durations.sha256, digests, n, p); }
  }

  lemma NotAgreement(shards: map<nat, Workers>, n: nat, digests: Digests, p: Problem)
    requires ShardNamed(p).Some?
    ensures !AgreementProblem(shards, n, digests, p)
  {
    NoneOfPrimaries(shards, digests, n, p);
  }

  lemma OnlyReadingFinds(root: Root, n: nat, durations: DurationsFile, digests: Digests, p: Problem)
    requires ShardNamed(p).Some?
    ensures Warranted(root, n, durations, digests, p) <==> ReadProblem(root, n, p)
  {
    var shards := ShardsOf(root, n);
    NotAgreement(shards, n, digests, p);
    var agreed := Agreed(shards, digests, n);
    if agreed.Some? {
      NotAboutPlan(shards, agreed.value, n, durations, digests, PlanFor(agreed.value, n, durations, digests), p);
    }
  }

  /** A finding about an entry `shard-k` is listed exactly when it occurs there. */
  lemma ShardFindings(root: Root, n: nat, durations: DurationsFile, digests: Digests, k: nat, p: Problem)
    requires root.Root? && ShardNamed(p) == Some(k)
    ensures Warranted(root, n, durations, digests, p) <==>
      1 <= k <= n && k in root.shards && Occurs(root.shards[k], k, n, p)
  {
    OnlyReadingFinds(root, n, durations, digests, p);
    ShardsProblemAt(root, n, n, k, p);
    if k in root.shards { EntryOccurs(root.shards[k], k, n, p); }
  }

  lemma NoneOfDirectories(root: Root, n: nat, k: nat, p: Problem)
    requires root.Root? && ShardNamed(p).None? && !p.AssignmentDiffers?
    ensures !ShardsProblem(root, n, k, p)
  {
    if k > 0 { NoneOfDirectories(root, n, k - 1, p); }
  }

  lemma RootFinding(root: Root, n: nat, durations: DurationsFile, digests: Digests, p: Problem)
    requires p == RootNotDirectory || p.ShardMissing? || p.UnexpectedShard? || p.UnexpectedEntry?
    ensures Warranted(root, n, durations, digests, p) <==>
      if root.NoRoot? then p == RootNotDirectory else NameProblem(root, n, p)
  {
    var shards := ShardsOf(root, n);
    if root.Root? { NoneOfDirectories(root, n, n, p); }
    NoneOfPrimaries(shards, digests, n, p);
    var agreed := Agreed(shards, digests, n);
    if agreed.Some? {
      NotAboutPlan(shards, agreed.value, n, durations, digests, PlanFor(agreed.value, n, durations, digests), p);
    }
  }

  /** The findings about the root itself: missing, not a directory, or names that are too few or too many. */
  lemma RootFindings(root: Root, n: nat, durations: DurationsFile, digests: Digests, k: nat, name: string)
    ensures Warranted(root, n, durations, digests, RootNotDirectory) <==> root.NoRoot?
    ensures Warranted(root, n, durations, digests, ShardMissing(k)) <==> root.Root? && 1 <= k <= n && k !in root.shards
    ensures Warranted(root, n, durations, digests, UnexpectedShard(k)) <==>
      root.Root? && k in root.shards && (k < 1 || k > n)
    ensures Warranted(root, n, durations, digests, UnexpectedEntry(name)) <==> root.Root? && name in root.strays
  {
    RootFinding(root, n, durations, digests, RootNotDirectory);
    RootFinding(root, n, durations, digests, ShardMissing(k));
    RootFinding(root, n, durations, digests, UnexpectedShard(k));
    RootFinding(root, n, durations, digests, UnexpectedEntry(name));
  }

  // ---------------------------------------------------------------- which findings about the collection are listed

  /** Some worker was read, and all that were claim the same size and digest. */
  ghost predicate OneClaim(shards: map<nat, Workers>) {
    (exists k, w :: k in shards && w in shards[k]) &&
    forall j, v, k, w :: j in shards && v in shards[j] && k in shards && w in shards[k] ==>
      shards[j][v].collectionCount == shards[k][w].collectionCount &&
      shards[j][v].collectionSha == shards[k][w].collectionSha
  }

  /** The primary worker `w` of shard `k` carries a sorted collection of its claimed size and digest. */
  predicate CarriesClaim(shards: map<nat, Workers>, digests: Digests, k: nat, w: WorkerId) {
    && k in shards && w in shards[k] && Primary(w)
    && Canonical(shards[k][w].collected) && |shards[k][w].collected| == shards[k][w].collectionCount
    && digests.nodes(shards[k][w].collected) == shards[k][w].collectionSha
  }

  lemma {:induction false} PrimaryAt(shards: map<nat, Workers>, digests: Digests, k: nat, p: Problem)
    requires p.CollectionNotCanonical? || p.CollectionDigestWrong?
    ensures PrimariesProblem(shards, digests, k, p) <==>
      1 <= p.place.shard <= k && p.place.shard in shards && p.place.worker in shards[p.place.shard] &&
      Primary(p.place.worker) && !CarriesClaim(shards, digests, p.place.shard, p.place.worker) &&
      (p.CollectionDigestWrong? <==> Canonical(shards[p.place.shard][p.place.worker].collected))
  {
    if k > 0 { PrimaryAt(shards, digests, k - 1, p); }
  }

  lemma NoReference(shards: map<nat, Workers>, digests: Digests, n: nat)
    ensures Reference(shards, digests, n).None? <==>
      forall k, w :: 1 <= k <= n ==> !CarriesClaim(shards, digests, k, w)
  {
    if Reference(shards, digests, n).Some? {
      var k, w := ReferenceCarried(shards, digests, n);
      assert CarriesClaim(shards, digests, k, w);
    }
    if k, w :| 1 <= k <= n && CarriesClaim(shards, digests, k, w) { ReferenceFound(shards, digests, n, k, w); }
  }

  predicate AboutClaims(p: Problem) {
    || p.NoReadableEvidence? || p.CollectionsDiffer? || p.NoVerifiableCollection? || p.CollectionNotCanonical?
    || p.CollectionDigestWrong?
  }

  lemma NotRead(root: Root, n: nat, p: Problem)
    requires AboutClaims(p)
    ensures !ReadProblem(root, n, p)
  {
    if root.Root? { NoneOfDirectories(root, n, n, p); }
  }

  lemma OnlyAgreementFinds(root: Root, n: nat, durations: DurationsFile, digests: Digests, p: Problem)
    requires AboutClaims(p)
    ensures Warranted(root, n, durations, digests, p) <==> AgreementProblem(ShardsOf(root, n), n, digests, p)
  {
    NotRead(root, n, p);
    var shards, agreed := ShardsOf(root, n), Agreed(ShardsOf(root, n), digests, n);
    if agreed.Some? {
      NotAboutPlan(shards, agreed.value, n, durations, digests, PlanFor(agreed.value, n, durations, digests), p);
    }
  }

  lemma ReadAtAll(shards: map<nat, Workers>)
    ensures HasEvidence(shards) <==> exists k :: k in shards && shards[k] != map[]
    ensures HasEvidence(shards) && SameCollection(shards) <==> OneClaim(shards)
  {
    if k :| k in shards && shards[k] != map[] {
      var w :| w in shards[k];
    }
  }

  /** The findings about the claims: none was read, they differ, or no primary worker carries what is claimed. */
  lemma ClaimFindings(root: Root, n: nat, durations: DurationsFile, digests: Digests)
    ensures var shards := ShardsOf(root, n);
      && (Warranted(root, n, durations, digests, NoReadableEvidence) <==>
            forall k :: k in shards ==> shards[k] == map[])
      && (Warranted(root, n, durations, digests, CollectionsDiffer) <==>
            !OneClaim(shards) && exists k :: k in shards && shards[k] != map[])
      && (Warranted(root, n, durations, digests, NoVerifiableCollection) <==>
            OneClaim(shards) && forall k, w :: 1 <= k <= n ==> !CarriesClaim(shards, digests, k, w))
  {
    var shards := ShardsOf(root, n);
    OnlyAgreementFinds(root, n, durations, digests, NoReadableEvidence);
    OnlyAgreementFinds(root, n, durations, digests, CollectionsDiffer);
    OnlyAgreementFinds(root, n, durations, digests, NoVerifiableCollection);
    NoneOfPrimaries(shards, digests, n, NoReadableEvidence);
    NoneOfPrimaries(shards, digests, n, CollectionsDiffer);
    NoneOfPrimaries(shards, digests, n, NoVerifiableCollection);
    NoReference(shards, digests, n);
    ReadAtAll(shards);
  }

  /** A primary worker's collection is found wanting exactly when all claims are one and it does not carry the claim. */
  lemma PrimaryFindings(root: Root, n: nat, durations: DurationsFile, digests: Digests, place: Place)
    requires 1 <= place.shard <= n && place.shard in ShardsOf(root, n)
    requires place.worker in ShardsOf(root, n)[place.shard] && Primary(place.worker)
    ensures var shards := ShardsOf(root, n);
      var wanting := OneClaim(shards) && !CarriesClaim(shards, digests, place.shard, place.worker);
      var sorted := Canonical(shards[place.shard][place.worker].collected);
      && (Warranted(root, n, durations, digests, CollectionNotCanonical(place)) <==> wanting && !sorted)
      && (Warranted(root, n, durations, digests, CollectionDigestWrong(place)) <==> wanting && sorted)
  {
    var shards := ShardsOf(root, n);
    OnlyAgreementFinds(root, n, durations, digests, CollectionNotCanonical(place));
    OnlyAgreementFinds(root, n, durations, digests, CollectionDigestWrong(place));
    PrimaryAt(shards, digests, n, CollectionNotCanonical(place));
    PrimaryAt(shards, digests, n, CollectionDigestWrong(place));
    ReadAtAll(shards);
  }

  // ---------------------------------------------------------------- which executions are listed

  /** How often the worker at this place reported a node. */
  function ReportedAt(shards: map<nat, Workers>, n: nat, p: Place, node: string): nat {
    if 1 <= p.shard <= n && p.shard in shards && p.worker in shards[p.shard]
    then multiset(shards[p.shard][p.worker].setupReports)[node] else 0
  }

  /** A collected node is missing when no worker reported it, and duplicated, with the place of every report, when
      there are several; a report is unexpected when its node is not collected or belongs to another shard. */
  lemma ExecutionFindings(shards: map<nat, Workers>, n: nat, collection: seq<string>, plan: ShardPlan,
                          missing: seq<string>, duplicated: map<string, seq<Place>>,
                          unexpected: multiset<(string, Place)>, x: string, p: Place)
    requires Recorded(shards, n, collection, Some(plan), missing, duplicated, unexpected)
    ensures x in missing <==> x in collection && AllReports(shards, n)[x] == 0
    ensures Canonical(collection) ==> Canonical(missing)
    ensures x in duplicated <==> x in collection && AllReports(shards, n)[x] > 1
    ensures x in duplicated ==> multiset(duplicated[x])[p] == ReportedAt(shards, n, p, x)
    ensures unexpected[(x, p)] ==
      if x in collection && !(NodeFile(x) in plan.fileShards && plan.fileShards[NodeFile(x)] != p.shard) then 0
      else ReportedAt(shards, n, p, x)
  {
    UnrunMeans(collection, AllReports(shards, n));
    assert multiset(ReportsAt(shards, n, p))[x] == ReportedAt(shards, n, p, x);
  }
}
