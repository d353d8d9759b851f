/** One pytest process's evidence: its fields, the shape rules and the builder. */
module ShardEvidence {
  import opened Wrappers
  import opened Ordering
  import opened NodeIds
  import opened Planner
  import opened PlannerProperties

  const EVIDENCE_KIND := "probos-ci-shard-evidence"
  const EVIDENCE_SCHEMA_VERSION := 1
  const MAX_WORKERS := 100_000

  /** Parsed JSON, as far as the rules look at it. `Other` is null, a boolean or a float. */
  datatype Json =
    | Absent | Int(n: int) | Str(s: string) | Arr(items: seq<Json>) | Obj(entries: map<string, Json>)
    | Other

  /** A payload object: the value under each key the rules read, `Absent` when the key is missing.
      Any other key is ignored. */
  datatype Payload = Payload(
    kind: Json, schemaVersion: Json, shardIndex: Json, shardCount: Json, workerId: Json,
    workerCount: Json, testRunUid: Json, exitStatus: Json, durationsPath: Json, durationsSha: Json,
    collectionCount: Json, collectionSha: Json, assignmentSha: Json, assignedCount: Json,
    assignedSha: Json, unknownFileCount: Json, setupReports: Json,
    collectedNodeids: Json, fileShards: Json)

  /** The stem of `main.json` or of `gw<digits>.json`: a number written with `zeros` leading zeros. */
  datatype WorkerId = Main | Gw(zeros: nat, number: nat)

  predicate Primary(w: WorkerId) { w == Main || w == Gw(0, 0) }

  function Decimal(n: nat): string {
    if n < 10 then ['0' + n as char] else Decimal(n / 10) + ['0' + (n % 10) as char]
  }

  function WorkerName(w: WorkerId): string {
    match w
    case Main => "main"
    case Gw(zeros, number) => "gw" + seq(zeros, _ => '0') + Decimal(number)
  }

  predicate IsSha256(s: string) {
    |s| == 64 && forall i :: 0 <= i < 64 ==> '0' <= s[i] <= '9' || 'a' <= s[i] <= 'f'
  }

  predicate AllStrings(items: seq<Json>) { forall i :: 0 <= i < |items| ==> items[i].Str? }

  predicate IsStringList(j: Json) { j.Arr? && AllStrings(j.items) }

  predicate IsShardMap(j: Json) { j.Obj? && forall k :: k in j.entries ==> j.entries[k].Int? }

  function Strings(j: Json): (r: seq<string>)
    requires IsStringList(j)
    ensures |r| == |j.items|
  {
    seq(|j.items|, i requires 0 <= i < |j.items| => j.items[i].s)
  }

  function StringList(xs: seq<string>): Json { Arr(seq(|xs|, i requires 0 <= i < |xs| => Str(xs[i]))) }

  function ShardNumbers(j: Json): map<string, int>
    requires IsShardMap(j)
  {
    map k | k in j.entries :: j.entries[k].n
  }

  function ShardObject(m: map<string, int>): Json { Obj(map k | k in m :: Int(m[k])) }

  predicate IsCount(j: Json, least: int) { j.Int? && j.n >= least }

  predicate IsDigest(j: Json) { j.Str? && IsSha256(j.s) }

  /** The shape rules: this payload is evidence of `worker` in shard `index` of `count`. */
  predicate WellFormed(p: Payload, worker: WorkerId, index: nat, count: nat) {
    && p.kind == Str(EVIDENCE_KIND) && p.schemaVersion == Int(EVIDENCE_SCHEMA_VERSION)
    && p.shardIndex == Int(index) && p.shardCount == Int(count) && p.workerId == Str(WorkerName(worker))
    && IsCount(p.workerCount, 1) && p.workerCount.n <= MAX_WORKERS
    && p.testRunUid.Str? && p.testRunUid.s != "" && p.exitStatus.Int? && p.durationsPath.Str?
    && IsDigest(p.durationsSha) && IsCount(p.collectionCount, 1) && IsDigest(p.collectionSha)
    && IsDigest(p.assignmentSha) && IsCount(p.assignedCount, 1) && IsDigest(p.assignedSha)
    && IsCount(p.unknownFileCount, 0) && IsStringList(p.setupReports)
    && (Primary(worker) ==> IsStringList(p.collectedNodeids) && IsShardMap(p.fileShards))
  }

  /** The typed content of a well-formed payload. */
  datatype Evidence = Evidence(
    workerCount: int,
    testRunUid: string,
    exitStatus: int,
    durationsPath: string,
    durationsSha: string,
    collectionCount: int,
    collectionSha: string,
    assignmentSha: string,
    assignedCount: int,
    assignedSha: string,
    unknownFileCount: int,
    setupReports: seq<string>,
    collected: seq<string>,
    fileShards: map<string, int>)

  /** Reads a payload whose shape was accepted; the primary fields are empty elsewhere. */
  function Decode(p: Payload, worker: WorkerId, ghost index: nat, ghost count: nat): Evidence
    requires WellFormed(p, worker, index, count)
  {
    Evidence(
      p.workerCount.n, p.testRunUid.s, p.exitStatus.n, p.durationsPath.s, p.durationsSha.s,
      p.collectionCount.n, p.collectionSha.s, p.assignmentSha.s, p.assignedCount.n, p.assignedSha.s,
      p.unknownFileCount.n, Strings(p.setupReports),
      if Primary(worker) then Strings(p.collectedNodeids) else [],
      if Primary(worker) then ShardNumbers(p.fileShards) else map[])
  }

  /** The payload written for `e`; only a primary worker carries the collection and the assignment. */
  function Encode(e: Evidence, worker: WorkerId, index: nat, count: nat): Payload {
    Payload(
      Str(EVIDENCE_KIND), Int(EVIDENCE_SCHEMA_VERSION), Int(index), Int(count), Str(WorkerName(worker)),
      Int(e.workerCount), Str(e.testRunUid), Int(e.exitStatus), Str(e.durationsPath), Str(e.durationsSha),
      Int(e.collectionCount), Str(e.collectionSha), Str(e.assignmentSha), Int(e.assignedCount),
      Str(e.assignedSha), Int(e.unknownFileCount), StringList(e.setupReports),
      if Primary(worker) then StringList(e.collected) else Absent,
      if Primary(worker) then ShardObject(e.fileShards) else Absent)
  }

  /** The values a payload may carry: exactly what the shape rules let through. */
  predicate Presentable(e: Evidence) {
    && 1 <= e.workerCount <= MAX_WORKERS && e.testRunUid != ""
    && IsSha256(e.durationsSha) && IsSha256(e.collectionSha) && IsSha256(e.assignmentSha) && IsSha256(e.assignedSha)
    && e.collectionCount >= 1 && e.assignedCount >= 1 && e.unknownFileCount >= 0
  }

  lemma StringsBack(xs: seq<string>)
    ensures IsStringList(StringList(xs)) && Strings(StringList(xs)) == xs
  {
  }

  /** Writing evidence and reading it back: accepted exactly when presentable, and unchanged. */
  lemma EncodeRoundTrip(e: Evidence, worker: WorkerId, index: nat, count: nat)
    ensures WellFormed(Encode(e, worker, index, count), worker, index, count) <==> Presentable(e)
    ensures Presentable(e) && (Primary(worker) || (e.collected == [] && e.fileShards == map[])) ==>
      Decode(Encode(e, worker, index, count), worker, index, count) == e
  {
    StringsBack(e.setupReports);
    StringsBack(e.collected);
    assert ShardNumbers(ShardObject(e.fileShards)) == e.fileShards;
  }

  /** The durations file: milliseconds per file and the digest of its bytes. */
  datatype DurationsFile = DurationsFile(milliseconds: map<string, int>, sha256: string)

  /** What one process reports about itself and its run. */
  datatype Process = Process(worker: WorkerId, workerCount: int, testRunUid: string, exitStatus: int,
                             durationsPath: string)

  /** One process's evidence, its shard's nodes already listed. */
  function EvidenceOf(p: Process, durationsSha: string, collection: seq<string>, plan: ShardPlan, mine: seq<string>,
                      setupReports: seq<string>, digests: Digests): Evidence
  {
    Evidence(p.workerCount, p.testRunUid, p.exitStatus, p.durationsPath, durationsSha,
      |collection|, digests.nodes(collection), plan.assignmentDigest,
      |mine|, digests.nodes(mine), |plan.unknownFiles|, setupReports,
      if Primary(p.worker) then collection else [],
      if Primary(p.worker) then plan.fileShards else map[])
  }

  /** One process's evidence over the sorted full collection and its plan. */
  ghost function BuildEvidence(p: Process, index: nat, durationsSha: string, collection: seq<string>, plan: ShardPlan,
                               setupReports: seq<string>, digests: Digests): Evidence
  {
    EvidenceOf(p, durationsSha, collection, plan, AssignedNodeids(Elements(collection), plan.fileShards, index),
               setupReports, digests)
  }
}
