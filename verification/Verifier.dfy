/** The evidence verifier: reads every shard's evidence and lists everything wrong with it. */
module Verifier {
  import opened Wrappers
  import opened Ordering
  import opened NodeIds
  import opened Planner
  import opened PlannerProperties
  import opened ShardEvidence

  // ---------------------------------------------------------------- the evidence root, already listed

  datatype Document = NotObject | Object(payload: Payload)

  /** A worker-named entry of a shard directory. */
  datatype FileEntry = NotAFile | Unreadable | Parsed(document: Document)

  /** `strays` are the entries whose name is not a worker file's. */
  datatype DirEntry = NotADirectory | Directory(files: map<WorkerId, FileEntry>, strays: set<string>)

  /** `shards[k]` is the entry named `shard-k`; `strays` are the entries of any other name. */
  datatype Root = NoRoot | Root(shards: map<nat, DirEntry>, strays: set<string>)

  datatype Place = Place(shard: nat, worker: WorkerId)

  /** The recomputed values a payload is compared with. */
  datatype Field = DurationsSha | AssignmentSha | AssignedSha | AssignedCount | UnknownFileCount | FileShards

  datatype Problem =
    | RootNotDirectory | ShardMissing(shard: nat) | UnexpectedShard(shard: nat) | UnexpectedEntry(name: string)
    | ShardNotDirectory(shard: nat) | UnexpectedFile(shard: nat, name: string) | NotAWorkerFile(place: Place)
    | FileUnreadable(place: Place) | BadShape(place: Place) | NoEvidenceFiles(shard: nat) | NonZeroExit(place: Place)
    | WorkerCountsDiffer(shard: nat) | RunUidsDiffer(shard: nat) | MainMixed(shard: nat)
    | MainWorkerCount(shard: nat) | WorkerFileMissing(place: Place) | WorkerFileExtra(place: Place)
    | NoReadableEvidence | CollectionsDiffer | CollectionNotCanonical(place: Place)
    | CollectionDigestWrong(place: Place) | NoVerifiableCollection | AssignmentNotRecomputable
    | AssignmentDiffers(place: Place, field: Field)

  type Workers = map<WorkerId, Evidence>

  /** What the verifier found. Lists the original sorts at the end are kept as multisets and maps. */
  class VerifyResult {
    var totalNodes: nat
    var problems: seq<Problem>
    var missing: seq<string>
    var duplicated: map<string, seq<Place>>
    var unexpected: multiset<(string, Place)>

    constructor ()
      ensures problems == [] && missing == [] && duplicated == map[] && unexpected == multiset{} && totalNodes == 0
    {
      totalNodes, problems, missing, duplicated, unexpected := 0, [], [], map[], multiset{};
    }

    predicate Ok()
      reads this
    {
      problems == [] && missing == [] && duplicated == map[] && unexpected == multiset{}
    }

    method Add(problem: Problem)
      modifies this`problems
      ensures problems == old(problems) + [problem]
    {
      problems := problems + [problem];
    }
  }

  // ---------------------------------------------------------------- reading

  predicate Usable(entry: FileEntry, w: WorkerId, k: nat, n: nat) {
    entry.Parsed? && entry.document.Object? && WellFormed(entry.document.payload, w, k, n)
  }

  /** The evidence a shard directory yields: its well-formed payloads. */
  function WorkersOf(entry: DirEntry, k: nat, n: nat): Workers
    requires entry.Directory?
  {
    map w | w in entry.files && Usable(entry.files[w], w, k, n) :: Decode(entry.files[w].document.payload, w, k, n)
  }

  function PresentOf(entry: DirEntry): set<WorkerId>
    requires entry.Directory?
  {
    set w | w in entry.files && !entry.files[w].NotAFile?
  }

  predicate DirectoryClean(entry: DirEntry, k: nat, n: nat) {
    entry.Directory? && entry.strays == {} && forall w :: w in entry.files ==> Usable(entry.files[w], w, k, n)
  }

  predicate AllExitedZero(workers: Workers) { forall w :: w in workers ==> workers[w].exitStatus == 0 }

  predicate SameWorkerCount(workers: Workers) {
    forall v, w :: v in workers && w in workers ==> workers[v].workerCount == workers[w].workerCount
  }

  predicate SameRunUid(workers: Workers) {
    forall v, w :: v in workers && w in workers ==> workers[v].testRunUid == workers[w].testRunUid
  }

  function GwSet(count: int): set<WorkerId> { set i | 0 <= i < count :: Gw(0, i) }

  /** A lone `main` that counts one worker, or gw0 up to one less than the count reported.
      Workers that disagree on the count name no set of files, so nothing more is asked then. */
  predicate NamesComplete(present: set<WorkerId>, workers: Workers) {
    if Main in present then
      present == {Main} && forall w :: w in workers ==> workers[w].workerCount == 1
    else
      SameWorkerCount(workers) ==> forall w :: w in workers ==> present == GwSet(workers[w].workerCount)
  }

  predicate WorkersComplete(present: set<WorkerId>, workers: Workers) {
    && present != {}
    && AllExitedZero(workers) && SameWorkerCount(workers) && SameRunUid(workers)
    && NamesComplete(present, workers)
  }

  function CountSet(workers: Workers): set<int> { set w | w in workers :: workers[w].workerCount }

  function UidSet(workers: Workers): set<string> { set w | w in workers :: workers[w].testRunUid }

  predicate ExitProblem(k: nat, workers: Workers, p: Problem) {
    p.NonZeroExit? && p.place.shard == k && p.place.worker in workers && workers[p.place.worker].exitStatus != 0
  }

  /** The one worker count that all workers report. */
  predicate AgreedCount(workers: Workers, count: int) { CountSet(workers) == {count} }

  /** The findings about the names of the worker files. */
  ghost predicate NamesProblem(k: nat, present: set<WorkerId>, workers: Workers, p: Problem) {
    match p
    case MainMixed(j) => j == k && Main in present && present != {Main}
    case MainWorkerCount(j) => j == k && Main in present && exists w :: w in workers && workers[w].workerCount != 1
    case WorkerFileMissing(q) =>
      q.shard == k && Main !in present && exists c :: AgreedCount(workers, c) && q.worker in GwSet(c) - present
    case WorkerFileExtra(q) =>
      q.shard == k && Main !in present && exists c :: AgreedCount(workers, c) && q.worker in present - GwSet(c)
    case _ => false
  }

  /** The findings about a shard's workers. */
  ghost predicate WorkersProblem(k: nat, present: set<WorkerId>, workers: Workers, p: Problem) {
    if present == {} then p == NoEvidenceFiles(k) else
      || ExitProblem(k, workers, p)
      || (p == WorkerCountsDiffer(k) && !SameWorkerCount(workers))
      || (p == RunUidsDiffer(k) && !SameRunUid(workers))
      || NamesProblem(k, present, workers, p)
  }

  method CheckExits(k: nat, workers: Workers, result: VerifyResult)
    modifies result`problems
    ensures old(result.problems) <= result.problems
    ensures result.problems == old(result.problems) <==> AllExitedZero(workers)
    ensures forall p :: p in result.problems <==> p in old(result.problems) || ExitProblem(k, workers, p)
  {
    var rest := workers.Keys;
    ghost var start := result.problems;
    while rest != {}
      invariant rest <= workers.Keys
      invariant start <= result.problems
      invariant result.problems == start <==> forall w :: w in workers && w !in rest ==> workers[w].exitStatus == 0
      invariant forall p ::
        (p in result.problems <==> p in start || (ExitProblem(k, workers, p) && p.place.worker !in rest))
      decreases |rest|
    {
      var w :| w in rest;
      if workers[w].exitStatus != 0 { result.Add(NonZeroExit(Place(k, w))); }
      rest := rest - {w};
    }
  }

  lemma OnlyOne(workers: Workers)
    ensures CountSet(workers) - {1} == {} <==> forall w :: w in workers ==> workers[w].workerCount == 1
  {
    forall w | w in workers
      ensures workers[w].workerCount == 1 <==> workers[w].workerCount !in CountSet(workers) - {1} {
      assert workers[w].workerCount in CountSet(workers);
    }
  }

  method CheckMain(k: nat, present: set<WorkerId>, workers: Workers, result: VerifyResult)
    requires Main in present
    modifies result`problems
    ensures old(result.problems) <= result.problems
    ensures result.problems == old(result.problems) <==> NamesComplete(present, workers)
    ensures forall p :: p in result.problems <==> p in old(result.problems) || NamesProblem(k, present, workers, p)
  {
    if present != {Main} { result.Add(MainMixed(k)); }
    OnlyOne(workers);
    if CountSet(workers) - {1} != {} { result.Add(MainWorkerCount(k)); }
  }

  lemma NoneAgreed(workers: Workers)
    requires |CountSet(workers)| != 1
    ensures forall c :: !AgreedCount(workers, c)
  {
  }

  method AddMissing(k: nat, missing: set<WorkerId>, result: VerifyResult)
    modifies result`problems
    ensures old(result.problems) <= result.problems && (result.problems == old(result.problems) <==> missing == {})
    ensures forall p :: (p in result.problems <==>
      (p in old(result.problems) || (p.WorkerFileMissing? && p.place.shard == k && p.place.worker in missing)))
  {
    var rest := missing;
    ghost var start := result.problems;
    while rest != {}
      invariant rest <= missing
      invariant start <= result.problems && (result.problems == start <==> rest == missing)
      invariant forall p :: (p in result.problems <==>
        (p in start || (p.WorkerFileMissing? && p.place.shard == k && p.place.worker in missing - rest)))
      decreases |rest|
    {
      var w :| w in rest;
      result.Add(WorkerFileMissing(Place(k, w)));
      rest := rest - {w};
    }
  }

  method AddExtra(k: nat, extra: set<WorkerId>, result: VerifyResult)
    modifies result`problems
    ensures old(result.problems) <= result.problems && (result.problems == old(result.problems) <==> extra == {})
    ensures forall p :: (p in result.problems <==>
      (p in old(result.problems) || (p.WorkerFileExtra? && p.place.shard == k && p.place.worker in extra)))
  {
    var rest := extra;
    ghost var start := result.problems;
    while rest != {}
      invariant rest <= extra
      invariant start <= result.problems && (result.problems == start <==> rest == extra)
      invariant forall p :: (p in result.problems <==>
        (p in start || (p.WorkerFileExtra? && p.place.shard == k && p.place.worker in extra - rest)))
      decreases |rest|
    {
      var w :| w in rest;
      result.Add(WorkerFileExtra(Place(k, w)));
      rest := rest - {w};
    }
  }

  /** Missing and extra worker files. */
  method CheckFiles(k: nat, present: set<WorkerId>, expected: set<WorkerId>, result: VerifyResult)
    modifies result`problems
    ensures old(result.problems) <= result.problems
    ensures result.problems == old(result.problems) <==> present == expected
    ensures forall p :: (p in result.problems <==> (p in old(result.problems) ||
      (p.WorkerFileMissing? && p.place.shard == k && p.place.worker in expected - present) ||
      (p.WorkerFileExtra? && p.place.shard == k && p.place.worker in present - expected)))
  {
    AddMissing(k, expected - present, result);
    AddExtra(k, present - expected, result);
    assert present == expected <==> expected - present == {} && present - expected == {};
  }

  lemma CountOf(workers: Workers, count: int)
    requires CountSet(workers) == {count}
    ensures workers != map[] && forall w :: w in workers ==> workers[w].workerCount == count
  {
    forall w | w in workers ensures workers[w].workerCount == count {
      assert workers[w].workerCount in CountSet(workers);
    }
    assert count in CountSet(workers);
  }

  lemma NoWorkers(workers: Workers)
    ensures workers != map[] ==> |CountSet(workers)| > 0
  {
    if workers != map[] {
      var w :| w in workers;
      assert workers[w].workerCount in CountSet(workers);
    }
  }

  lemma OneElement<T>(s: set<T>, x: T)
    requires x in s && |s| == 1
    ensures s == {x}
  {
    assert |s - {x}| == 0;
  }

  lemma SmallSet<T>(s: set<T>)
    ensures |s| <= 1 <==> forall x, y :: x in s && y in s ==> x == y
  {
    if s != {} {
      var a :| a in s;
      if s != {a} {
        var b :| b in s && b != a;
        assert {a, b} <= s;
        SubsetSize({a, b}, s);
      }
    }
  }

  /** `len({...}) <= 1` says that all workers agree. */
  lemma CountsAgree(workers: Workers)
    ensures |CountSet(workers)| <= 1 <==> SameWorkerCount(workers)
  {
    SmallSet(CountSet(workers));
    forall w | w in workers ensures workers[w].workerCount in CountSet(workers) { }
  }

  method CheckNumbered(k: nat, present: set<WorkerId>, workers: Workers, result: VerifyResult)
    requires Main !in present
    modifies result`problems
    ensures old(result.problems) <= result.problems
    ensures result.problems == old(result.problems) <==> NamesComplete(present, workers)
    ensures forall p :: p in result.problems <==> p in old(result.problems) || NamesProblem(k, present, workers, p)
  {
    var counts := CountSet(workers);
    CountsAgree(workers);
    if |counts| == 1 {
      var count :| count in counts;
      OneElement(counts, count);
      CountOf(workers, count);
      assert forall c :: AgreedCount(workers, c) <==> c == count;
      CheckFiles(k, present, GwSet(count), result);
    } else {
      NoneAgreed(workers);
      if |counts| == 0 { NoWorkers(workers); }
    }
  }

  method CheckNames(k: nat, present: set<WorkerId>, workers: Workers, result: VerifyResult)
    requires present != {}
    modifies result`problems
    ensures old(result.problems) <= result.problems
    ensures result.problems == old(result.problems) <==> NamesComplete(present, workers)
    ensures forall p :: p in result.problems <==> p in old(result.problems) || NamesProblem(k, present, workers, p)
  {
    if Main in present {
      CheckMain(k, present, workers, result);
    } else {
      CheckNumbered(k, present, workers, result);
    }
  }

  lemma UidsAgree(workers: Workers)
    ensures |UidSet(workers)| <= 1 <==> SameRunUid(workers)
  {
    SmallSet(UidSet(workers));
    forall w | w in workers ensures workers[w].testRunUid in UidSet(workers) { }
  }

  method CheckShardWorkers(k: nat, present: set<WorkerId>, workers: Workers, result: VerifyResult)
    modifies result`problems
    ensures old(result.problems) <= result.problems
    ensures result.problems == old(result.problems) <==> WorkersComplete(present, workers)
    ensures forall p :: p in result.problems <==> p in old(result.problems) || WorkersProblem(k, present, workers, p)
  {
    if present == {} {
      result.Add(NoEvidenceFiles(k));
      return;
    }
    CheckExits(k, workers, result);
    CountsAgree(workers);
    UidsAgree(workers);
    if |CountSet(workers)| > 1 { result.Add(WorkerCountsDiffer(k)); }
    if |UidSet(workers)| > 1 { result.Add(RunUidsDiffer(k)); }
    CheckNames(k, present, workers, result);
  }

  // ---------------------------------------------------------------- the directory tree

  predicate ShardReadsClean(entry: DirEntry, k: nat, n: nat) {
    DirectoryClean(entry, k, n) && WorkersComplete(PresentOf(entry), WorkersOf(entry, k, n))
  }

  /** Which of the reading problems one unusable entry has. */
  function FileProblem(entry: FileEntry, place: Place): Problem {
    match entry
    case NotAFile => NotAWorkerFile(place)
    case Unreadable => FileUnreadable(place)
    case Parsed(_) => BadShape(place)
  }

  /** The findings about the entries of a shard directory. */
  predicate EntriesProblem(entry: DirEntry, k: nat, n: nat, p: Problem)
    requires entry.Directory?
  {
    || (p.UnexpectedFile? && p.shard == k && p.name in entry.strays)
    || ((p.NotAWorkerFile? || p.FileUnreadable? || p.BadShape?) && p.place.shard == k &&
        p.place.worker in entry.files && !Usable(entry.files[p.place.worker], p.place.worker, k, n) &&
        p == FileProblem(entry.files[p.place.worker], p.place))
  }

  /** The findings about one shard's directory. */
  ghost predicate ShardProblem(entry: DirEntry, k: nat, n: nat, p: Problem) {
    if entry.NotADirectory? then p == ShardNotDirectory(k) else
      EntriesProblem(entry, k, n, p) || WorkersProblem(k, PresentOf(entry), WorkersOf(entry, k, n), p)
  }

  method CheckStrays(k: nat, strays: set<string>, result: VerifyResult)
    modifies result`problems
    ensures old(result.problems) <= result.problems
    ensures result.problems == old(result.problems) <==> strays == {}
    ensures forall p :: (p in result.problems <==>
      p in old(result.problems) || (p.UnexpectedFile? && p.shard == k && p.name in strays))
  {
    var rest := strays;
    ghost var start := result.problems;
    while rest != {}
      invariant rest <= strays
      invariant start <= result.problems && (result.problems == start <==> rest == strays)
      invariant forall p :: (p in result.problems <==>
        p in start || (p.UnexpectedFile? && p.shard == k && p.name in strays - rest))
      decreases |rest|
    {
      var name :| name in rest;
      result.Add(UnexpectedFile(k, name));
      rest := rest - {name};
    }
  }

  method CheckEntries(entry: DirEntry, k: nat, n: nat, result: VerifyResult)
    requires entry.Directory?
    modifies result`problems
    ensures old(result.problems) <= result.problems
    ensures result.problems == old(result.problems) <==> DirectoryClean(entry, k, n)
    ensures forall p :: p in result.problems <==> p in old(result.problems) || EntriesProblem(entry, k, n, p)
  {
    CheckStrays(k, entry.strays, result);
    ghost var start := result.problems;
    var rest := entry.files.Keys;
    while rest != {}
      invariant rest <= entry.files.Keys
      invariant start <= result.problems
      invariant result.problems == start <==>
        forall w :: w in entry.files && w !in rest ==> Usable(entry.files[w], w, k, n)
      invariant forall p :: (p in result.problems <==> (p in start ||
        (EntriesProblem(entry, k, n, p) && !p.UnexpectedFile? && p.place.worker !in rest)))
      decreases |rest|
    {
      var w :| w in rest;
      if !Usable(entry.files[w], w, k, n) { result.Add(FileProblem(entry.files[w], Place(k, w))); }
      rest := rest - {w};
    }
  }

  method ReadShard(entry: DirEntry, k: nat, n: nat, result: VerifyResult) returns (workers: Option<Workers>)
    modifies result`problems
    ensures workers == if entry.Directory? then Some(WorkersOf(entry, k, n)) else None
    ensures old(result.problems) <= result.problems
    ensures result.problems == old(result.problems) <==> ShardReadsClean(entry, k, n)
    ensures forall p :: p in result.problems <==> p in old(result.problems) || ShardProblem(entry, k, n, p)
  {
    if entry.NotADirectory? {
      result.Add(ShardNotDirectory(k));
      return None;
    }
    CheckEntries(entry, k, n, result);
    var read := map w | w in entry.files && Usable(entry.files[w], w, k, n)
      :: Decode(entry.files[w].document.payload, w, k, n);
    CheckShardWorkers(k, PresentOf(entry), read, result);
    return Some(read);
  }

  /** The evidence of the readable shard directories up to `k`. */
  function ShardsUpTo(root: Root, n: nat, k: nat): map<nat, Workers>
    requires root.Root?
  {
    if k == 0 then map[]
    else if k in root.shards && root.shards[k].Directory? then
      ShardsUpTo(root, n, k - 1)[k := WorkersOf(root.shards[k], k, n)]
    else ShardsUpTo(root, n, k - 1)
  }

  function ShardsOf(root: Root, n: nat): map<nat, Workers> {
    if root.NoRoot? then map[] else ShardsUpTo(root, n, n)
  }

  predicate CleanUpTo(root: Root, n: nat, k: nat)
    requires root.Root?
  {
    k == 0 || (CleanUpTo(root, n, k - 1) && (k in root.shards ==> ShardReadsClean(root.shards[k], k, n)))
  }

  function ShardNumbersTo(n: nat): (r: set<nat>)
    ensures forall k :: k in r <==> 1 <= k <= n
  {
    if n == 0 then {} else ShardNumbersTo(n - 1) + {n}
  }

  /** The root holds shard-1..shard-n and nothing else, and each shard reads clean. */
  predicate RootReadsClean(root: Root, n: nat) {
    root.Root? && root.strays == {} && root.shards.Keys == ShardNumbersTo(n) && CleanUpTo(root, n, n)
  }

  /** The findings about the names under the evidence root. */
  predicate NameProblem(root: Root, n: nat, p: Problem)
    requires root.Root?
  {
    match p
    case ShardMissing(k) => 1 <= k <= n && k !in root.shards
    case UnexpectedShard(k) => k in root.shards && !(1 <= k <= n)
    case UnexpectedEntry(name) => name in root.strays
    case _ => false
  }

  /** The findings of reading shards 1..k. */
  ghost predicate ShardsProblem(root: Root, n: nat, k: nat, p: Problem)
    requires root.Root?
  {
    k > 0 && (ShardsProblem(root, n, k - 1, p) || (k in root.shards && ShardProblem(root.shards[k], k, n, p)))
  }

  ghost predicate ReadProblem(root: Root, n: nat, p: Problem) {
    if root.NoRoot? then p == RootNotDirectory else NameProblem(root, n, p) || ShardsProblem(root, n, n, p)
  }

  method ReadDirectories(root: Root, n: nat, result: VerifyResult) returns (shards: map<nat, Workers>)
    requires root.Root?
    modifies result`problems
    ensures shards == ShardsUpTo(root, n, n)
    ensures old(result.problems) <= result.problems
    ensures result.problems == old(result.problems) <==> CleanUpTo(root, n, n)
    ensures forall p :: p in result.problems <==> p in old(result.problems) || ShardsProblem(root, n, n, p)
  {
    shards := map[];
    ghost var start := result.problems;
    for k := 1 to n + 1
      invariant start <= result.problems
      invariant shards == ShardsUpTo(root, n, k - 1)
      invariant result.problems == start <==> CleanUpTo(root, n, k - 1)
      invariant forall p :: p in result.problems <==> p in start || ShardsProblem(root, n, k - 1, p)
    {
      if k in root.shards {
        var workers := ReadShard(root.shards[k], k, n, result);
        if workers.Some? { shards := shards[k := workers.value]; }
      }
    }
  }

  method AddShards(extra: set<nat>, result: VerifyResult)
    modifies result`problems
    ensures old(result.problems) <= result.problems && (result.problems == old(result.problems) <==> extra == {})
    ensures forall p :: p in result.problems <==> p in old(result.problems) || (p.UnexpectedShard? && p.shard in extra)
  {
    var rest := extra;
    ghost var start := result.problems;
    while rest != {}
      invariant rest <= extra
      invariant start <= result.problems && (result.problems == start <==> rest == extra)
      invariant forall p :: p in result.problems <==> p in start || (p.UnexpectedShard? && p.shard in extra - rest)
      decreases |rest|
    {
      var k :| k in rest;
      result.Add(UnexpectedShard(k));
      rest := rest - {k};
    }
  }

  method AddEntries(strays: set<string>, result: VerifyResult)
    modifies result`problems
    ensures old(result.problems) <= result.problems && (result.problems == old(result.problems) <==> strays == {})
    ensures forall p :: p in result.problems <==> p in old(result.problems) || (p.UnexpectedEntry? && p.name in strays)
  {
    var rest := strays;
    ghost var start := result.problems;
    while rest != {}
      invariant rest <= strays
      invariant start <= result.problems && (result.problems == start <==> rest == strays)
      invariant forall p :: p in result.problems <==> p in start || (p.UnexpectedEntry? && p.name in strays - rest)
      decreases |rest|
    {
      var name :| name in rest;
      result.Add(UnexpectedEntry(name));
      rest := rest - {name};
    }
  }

  method CheckUnexpected(root: Root, n: nat, result: VerifyResult)
    requires root.Root?
    modifies result`problems
    ensures old(result.problems) <= result.problems
    ensures result.problems == old(result.problems) <==>
      root.strays == {} && forall k :: k in root.shards ==> 1 <= k <= n
    ensures forall p :: (p in result.problems <==>
      (p in old(result.problems) || (p.UnexpectedShard? && p.shard in root.shards && !(1 <= p.shard <= n)) ||
       (p.UnexpectedEntry? && p.name in root.strays)))
  {
    var extra := set k | k in root.shards && !(1 <= k <= n);
    assert extra == {} <==> forall k :: k in root.shards ==> 1 <= k <= n by {
      forall k | k in root.shards && !(1 <= k <= n) ensures k in extra { }
    }
    AddShards(extra, result);
    AddEntries(root.strays, result);
  }

  method CheckNamesOfShards(root: Root, n: nat, result: VerifyResult)
    requires root.Root?
    modifies result`problems
    ensures old(result.problems) <= result.problems
    ensures result.problems == old(result.problems) <==> root.strays == {} && root.shards.Keys == ShardNumbersTo(n)
    ensures forall p :: p in result.problems <==> p in old(result.problems) || NameProblem(root, n, p)
  {
    ghost var start := result.problems;
    for k := 1 to n + 1
      invariant start <= result.problems
      invariant result.problems == start <==> forall j :: 1 <= j < k ==> j in root.shards
      invariant forall p :: (p in result.problems <==>
        p in start || (p.ShardMissing? && 1 <= p.shard < k && p.shard !in root.shards))
    {
      if k !in root.shards { result.Add(ShardMissing(k)); }
    }
    CheckUnexpected(root, n, result);
  }

  method ReadShards(root: Root, n: nat, result: VerifyResult) returns (shards: map<nat, Workers>)
    modifies result`problems
    ensures shards == ShardsOf(root, n)
    ensures old(result.problems) <= result.problems
    ensures result.problems == old(result.problems) <==> RootReadsClean(root, n)
    ensures forall p :: p in result.problems <==> p in old(result.problems) || ReadProblem(root, n, p)
  {
    shards := map[];
    if root.NoRoot? {
      result.Add(RootNotDirectory);
      return;
    }
    CheckNamesOfShards(root, n, result);
    shards := ReadDirectories(root, n, result);
  }

  lemma {:induction false} ShardsUpToKeys(root: Root, n: nat, k: nat, j: nat)
    requires root.Root?
    ensures j in ShardsUpTo(root, n, k) <==> 1 <= j <= k && j in root.shards && root.shards[j].Directory?
    ensures j in ShardsUpTo(root, n, k) ==> ShardsUpTo(root, n, k)[j] == WorkersOf(root.shards[j], j, n)
    ensures CleanUpTo(root, n, k) && 1 <= j <= k && j in root.shards ==> ShardReadsClean(root.shards[j], j, n)
  {
    if k > 0 { ShardsUpToKeys(root, n, k - 1, j); }
  }

  lemma {:induction false} AllCleanUpTo(root: Root, n: nat, k: nat)
    requires root.Root? && forall j :: j in root.shards ==> ShardReadsClean(root.shards[j], j, n)
    ensures CleanUpTo(root, n, k)
  {
    if k > 0 { AllCleanUpTo(root, n, k - 1); }
  }

  // ---------------------------------------------------------------- the agreed collection

  /** The collection a primary worker carries is sorted, without repeats and hashes to its claim. */
  predicate CollectionVerified(e: Evidence, digests: Digests) {
    Canonical(e.collected) && |e.collected| == e.collectionCount && digests.nodes(e.collected) == e.collectionSha
  }

  predicate SameCollection(shards: map<nat, Workers>) {
    forall j, v, k, w :: j in shards && v in shards[j] && k in shards && w in shards[k] ==>
      shards[j][v].collectionCount == shards[k][w].collectionCount &&
        shards[j][v].collectionSha == shards[k][w].collectionSha
  }

  predicate HasEvidence(shards: map<nat, Workers>) {
    exists k, w :: k in shards && w in shards[k]
  }

  predicate PrimaryVerified(workers: Workers, w: WorkerId, digests: Digests) {
    w in workers ==> CollectionVerified(workers[w], digests)
  }

  /** Every primary collection of shards 1..k verifies. */
  predicate PrimariesVerified(shards: map<nat, Workers>, digests: Digests, k: nat) {
    k == 0 || (PrimariesVerified(shards, digests, k - 1) && (k in shards ==>
      PrimaryVerified(shards[k], Main, digests) && PrimaryVerified(shards[k], Gw(0, 0), digests)))
  }

  function FirstVerified(r: Option<seq<string>>, workers: Workers, w: WorkerId, digests: Digests): Option<seq<string>> {
    if r.None? && w in workers && CollectionVerified(workers[w], digests) then Some(workers[w].collected) else r
  }

  /** The first verified primary collection of shards 1..k, in shard order. */
  function Reference(shards: map<nat, Workers>, digests: Digests, k: nat): Option<seq<string>> {
    if k == 0 then None else
      var r := Reference(shards, digests, k - 1);
      if k in shards then FirstVerified(FirstVerified(r, shards[k], Main, digests), shards[k], Gw(0, 0), digests) else r
  }

  predicate CollectionAgreed(shards: map<nat, Workers>, n: nat, digests: Digests) {
    HasEvidence(shards) && SameCollection(shards) && PrimariesVerified(shards, digests, n) &&
      Reference(shards, digests, n).Some?
  }

  /** The collection to check against, when all claims are one. */
  function Agreed(shards: map<nat, Workers>, digests: Digests, n: nat): Option<seq<string>> {
    if HasEvidence(shards) && SameCollection(shards) then Reference(shards, digests, n) else None
  }

  /** What is wrong with a primary worker's collection. */
  predicate PrimaryProblem(k: nat, w: WorkerId, workers: Workers, digests: Digests, p: Problem) {
    w in workers && !CollectionVerified(workers[w], digests) &&
    p == if Canonical(workers[w].collected) then CollectionDigestWrong(Place(k, w))
      else CollectionNotCanonical(Place(k, w))
  }

  /** The findings about the primary collections of shards 1..k. */
  predicate PrimariesProblem(shards: map<nat, Workers>, digests: Digests, k: nat, p: Problem) {
    k > 0 && (PrimariesProblem(shards, digests, k - 1, p) || (k in shards &&
      (PrimaryProblem(k, Main, shards[k], digests, p) || PrimaryProblem(k, Gw(0, 0), shards[k], digests, p))))
  }

  ghost predicate AgreementProblem(shards: map<nat, Workers>, n: nat, digests: Digests, p: Problem) {
    if !HasEvidence(shards) then p == NoReadableEvidence
    else if !SameCollection(shards) then p == CollectionsDiffer
    else PrimariesProblem(shards, digests, n, p) || (p == NoVerifiableCollection && Reference(shards, digests, n).None?)
  }

  method CheckPrimary(k: nat, w: WorkerId, workers: Workers, digests: Digests, reference: Option<seq<string>>,
                      result: VerifyResult)
    returns (r: Option<seq<string>>)
    modifies result`problems
    ensures old(result.problems) <= result.problems
    ensures result.problems == old(result.problems) <==> PrimaryVerified(workers, w, digests)
    ensures forall p :: p in result.problems <==> p in old(result.problems) || PrimaryProblem(k, w, workers, digests, p)
    ensures r == FirstVerified(reference, workers, w, digests)
  {
    r := reference;
    if w in workers {
      var e := workers[w];
      if !Canonical(e.collected) {
        result.Add(CollectionNotCanonical(Place(k, w)));
      } else if |e.collected| != e.collectionCount || digests.nodes(e.collected) != e.collectionSha {
        result.Add(CollectionDigestWrong(Place(k, w)));
      } else if reference.None? {
        r := Some(e.collected);
      }
    }
  }

  method ReferenceCollection(shards: map<nat, Workers>, n: nat, digests: Digests, result: VerifyResult)
    returns (r: Option<seq<string>>)
    modifies result`problems
    ensures old(result.problems) <= result.problems
    ensures result.problems == old(result.problems) <==> PrimariesVerified(shards, digests, n)
    ensures forall p :: p in result.problems <==> p in old(result.problems) || PrimariesProblem(shards, digests, n, p)
    ensures r == Reference(shards, digests, n)
  {
    ghost var start := result.problems;
    r := None;
    for k := 1 to n + 1
      invariant start <= result.problems
      invariant result.problems == start <==> PrimariesVerified(shards, digests, k - 1)
      invariant forall p :: p in result.problems <==> p in start || PrimariesProblem(shards, digests, k - 1, p)
      invariant r == Reference(shards, digests, k - 1)
    {
      if k in shards {
        r := CheckPrimary(k, Main, shards[k], digests, r, result);
        r := CheckPrimary(k, Gw(0, 0), shards[k], digests, r, result);
      }
    }
  }

  method AgreedCollection(shards: map<nat, Workers>, n: nat, digests: Digests, result: VerifyResult)
    returns (r: Option<seq<string>>)
    modifies result`problems
    ensures old(result.problems) <= result.problems
    ensures result.problems == old(result.problems) <==> CollectionAgreed(shards, n, digests)
    ensures forall p :: p in result.problems <==> p in old(result.problems) || AgreementProblem(shards, n, digests, p)
    ensures r == Agreed(shards, digests, n)
  {
    // The original groups the claims of all workers; there is one group when they are the same.
    if !HasEvidence(shards) {
      result.Add(NoReadableEvidence);
      return None;
    }
    if !SameCollection(shards) {
      result.Add(CollectionsDiffer);
      return None;
    }
    r := ReferenceCollection(shards, n, digests, result);
    if r.None? { result.Add(NoVerifiableCollection); }
  }

  /** A reference collection is some primary worker's, is sorted and has no repeats. */
  lemma {:induction false} ReferenceCarried(shards: map<nat, Workers>, digests: Digests, k: nat)
    returns (j: nat, w: WorkerId)
    requires Reference(shards, digests, k).Some?
    ensures 1 <= j <= k && j in shards && w in shards[j] && Primary(w)
    ensures shards[j][w].collected == Reference(shards, digests, k).value
    ensures CollectionVerified(shards[j][w], digests)
  {
    if Reference(shards, digests, k - 1).Some? {
      j, w := ReferenceCarried(shards, digests, k - 1);
    } else {
      j := k;
      w := if Main in shards[k] && CollectionVerified(shards[k][Main], digests) then Main else Gw(0, 0);
    }
  }

  /** Some primary worker whose collection verifies is enough for a reference. */
  lemma {:induction false} ReferenceFound(shards: map<nat, Workers>, digests: Digests, k: nat, j: nat, w: WorkerId)
    requires 1 <= j <= k && j in shards && w in shards[j] && Primary(w) && CollectionVerified(shards[j][w], digests)
    ensures Reference(shards, digests, k).Some?
  {
    if j < k { ReferenceFound(shards, digests, k - 1, j, w); }
  }

  lemma {:induction false} PrimaryIsVerified(shards: map<nat, Workers>, digests: Digests, k: nat, j: nat, w: WorkerId)
    requires PrimariesVerified(shards, digests, k) && 1 <= j <= k && j in shards && w in shards[j] && Primary(w)
    ensures CollectionVerified(shards[j][w], digests)
  {
    if j < k { PrimaryIsVerified(shards, digests, k - 1, j, w); }
  }

  // ---------------------------------------------------------------- the assignment

  /** One reported value is the one recomputed from the collection and the plan. */
  predicate FieldMatches(e: Evidence, w: WorkerId, mine: seq<string>, plan: ShardPlan, durationsSha: string,
                         digests: Digests, field: Field) {
    match field
    case DurationsSha => e.durationsSha == durationsSha
    case AssignmentSha => e.assignmentSha == plan.assignmentDigest
    case AssignedSha => e.assignedSha == digests.nodes(mine)
    case AssignedCount => e.assignedCount == |mine|
    case UnknownFileCount => e.unknownFileCount == |plan.unknownFiles|
    case FileShards => Primary(w) ==> e.fileShards == plan.fileShards
  }

  ghost predicate EvidenceMatches(e: Evidence, w: WorkerId, mine: seq<string>, plan: ShardPlan, durationsSha: string,
                                  digests: Digests) {
    forall field :: FieldMatches(e, w, mine, plan, durationsSha, digests, field)
  }

  ghost predicate ShardMatches(workers: Workers, mine: seq<string>, plan: ShardPlan, durationsSha: string,
                               digests: Digests) {
    forall w :: w in workers ==> EvidenceMatches(workers[w], w, mine, plan, durationsSha, digests)
  }

  ghost predicate AssignmentMatches(shards: map<nat, Workers>, nodes: set<string>, plan: ShardPlan,
                                    durationsSha: string, digests: Digests, k: nat) {
    k == 0 || (AssignmentMatches(shards, nodes, plan, durationsSha, digests, k - 1) && (k in shards ==>
      ShardMatches(shards[k], AssignedNodeids(nodes, plan.fileShards, k), plan, durationsSha, digests)))
  }

  /** The values of shard `k`'s workers that the recomputation does not reproduce. */
  ghost predicate ShardDiffers(k: nat, workers: Workers, mine: seq<string>, plan: ShardPlan, durationsSha: string,
                               digests: Digests, p: Problem) {
    p.AssignmentDiffers? && p.place.shard == k && p.place.worker in workers &&
    !FieldMatches(workers[p.place.worker], p.place.worker, mine, plan, durationsSha, digests, p.field)
  }

  ghost predicate AssignmentProblem(shards: map<nat, Workers>, nodes: set<string>, plan: ShardPlan,
                                    durationsSha: string, digests: Digests, k: nat, p: Problem) {
    k > 0 && (AssignmentProblem(shards, nodes, plan, durationsSha, digests, k - 1, p) || (k in shards &&
      ShardDiffers(k, shards[k], AssignedNodeids(nodes, plan.fileShards, k), plan, durationsSha, digests, p)))
  }

  method AssignedList(collection: seq<string>, shards: map<string, nat>, k: nat) returns (r: seq<string>)
    ensures r == AssignedNodeids(Elements(collection), shards, k)
  {
    var nodes := Elements(collection);
    r := Sort(set n | n in nodes && NodeFile(n) in shards && shards[NodeFile(n)] == k);
  }

  const FIELDS: seq<Field> := [DurationsSha, AssignmentSha, AssignedSha, AssignedCount, UnknownFileCount, FileShards]

  lemma AllFields(e: Evidence, w: WorkerId, mine: seq<string>, plan: ShardPlan, durationsSha: string, digests: Digests)
    ensures forall f: Field :: f in FIELDS[..|FIELDS|]
    ensures EvidenceMatches(e, w, mine, plan, durationsSha, digests) <==>
      forall j :: 0 <= j < |FIELDS| ==> FieldMatches(e, w, mine, plan, durationsSha, digests, FIELDS[j])
  {
    assert FIELDS[..|FIELDS|] == FIELDS;
    forall f: Field ensures f in FIELDS {
      match f {
        case DurationsSha => assert FIELDS[0] == f;
        case AssignmentSha => assert FIELDS[1] == f;
        case AssignedSha => assert FIELDS[2] == f;
        case AssignedCount => assert FIELDS[3] == f;
        case UnknownFileCount => assert FIELDS[4] == f;
        case FileShards => assert FIELDS[5] == f;
      }
    }
    if forall j :: 0 <= j < |FIELDS| ==> FieldMatches(e, w, mine, plan, durationsSha, digests, FIELDS[j]) {
      forall f: Field ensures FieldMatches(e, w, mine, plan, durationsSha, digests, f) { assert f in FIELDS; }
    }
  }

  /** Compares one payload's values in the order of the original. */
  method CheckFields(place: Place, e: Evidence, mine: seq<string>, plan: ShardPlan, durationsSha: string,
                     digests: Digests, result: VerifyResult)
    modifies result`problems
    ensures old(result.problems) <= result.problems
    ensures result.problems == old(result.problems) <==>
      EvidenceMatches(e, place.worker, mine, plan, durationsSha, digests)
    ensures forall p :: (p in result.problems <==>
      (p in old(result.problems) || (p.AssignmentDiffers? && p.place == place &&
      !FieldMatches(e, place.worker, mine, plan, durationsSha, digests, p.field))))
  {
    ghost var start := result.problems;
    for i := 0 to |FIELDS|
      invariant start <= result.problems
      invariant result.problems == start <==>
        forall j :: 0 <= j < i ==> FieldMatches(e, place.worker, mine, plan, durationsSha, digests, FIELDS[j])
      invariant forall p :: (p in result.problems <==> (p in start || (p.AssignmentDiffers? && p.place == place &&
        p.field in FIELDS[..i] && !FieldMatches(e, place.worker, mine, plan, durationsSha, digests, p.field))))
    {
      assert FIELDS[..i + 1] == FIELDS[..i] + [FIELDS[i]];
      if !FieldMatches(e, place.worker, mine, plan, durationsSha, digests, FIELDS[i]) {
        result.Add(AssignmentDiffers(place, FIELDS[i]));
      }
    }
    AllFields(e, place.worker, mine, plan, durationsSha, digests);
  }

  method CheckShardAssignment(k: nat, workers: Workers, mine: seq<string>, plan: ShardPlan, durationsSha: string,
                              digests: Digests, result: VerifyResult)
    modifies result`problems
    ensures old(result.problems) <= result.problems
    ensures result.problems == old(result.problems) <==> ShardMatches(workers, mine, plan, durationsSha, digests)
    ensures forall p :: (p in result.problems <==>
      p in old(result.problems) || ShardDiffers(k, workers, mine, plan, durationsSha, digests, p))
  {
    ghost var start := result.problems;
    var rest := workers.Keys;
    while rest != {}
      invariant rest <= workers.Keys
      invariant start <= result.problems
      invariant result.problems == start <==>
        forall w :: w in workers && w !in rest ==> EvidenceMatches(workers[w], w, mine, plan, durationsSha, digests)
      invariant forall p :: (p in result.problems <==>
        p in start || (ShardDiffers(k, workers, mine, plan, durationsSha, digests, p) && p.place.worker !in rest))
      decreases |rest|
    {
      var w :| w in rest;
      CheckFields(Place(k, w), workers[w], mine, plan, durationsSha, digests, result);
      rest := rest - {w};
    }
  }

  method CheckAssignment(shards: map<nat, Workers>, collection: seq<string>, plan: ShardPlan, durationsSha: string,
                         n: nat, digests: Digests, result: VerifyResult)
    modifies result`problems
    ensures old(result.problems) <= result.problems
    ensures result.problems == old(result.problems) <==>
      AssignmentMatches(shards, Elements(collection), plan, durationsSha, digests, n)
    ensures forall p :: (p in result.problems <==> (p in old(result.problems) ||
      AssignmentProblem(shards, Elements(collection), plan, durationsSha, digests, n, p)))
  {
    ghost var start := result.problems;
    for k := 1 to n + 1
      invariant start <= result.problems
      invariant result.problems == start <==>
        AssignmentMatches(shards, Elements(collection), plan, durationsSha, digests, k - 1)
      invariant forall p :: (p in result.problems <==> (p in start ||
        AssignmentProblem(shards, Elements(collection), plan, durationsSha, digests, k - 1, p)))
    {
      if k in shards {
        var mine := AssignedList(collection, plan.fileShards, k);
        CheckShardAssignment(k, shards[k], mine, plan, durationsSha, digests, result);
      }
    }
  }

  lemma {:induction false} ShardMatchesAt(shards: map<nat, Workers>, nodes: set<string>, plan: ShardPlan,
                                          durationsSha: string, digests: Digests, k: nat, j: nat)
    requires AssignmentMatches(shards, nodes, plan, durationsSha, digests, k) && 1 <= j <= k && j in shards
    ensures ShardMatches(shards[j], AssignedNodeids(nodes, plan.fileShards, j), plan, durationsSha, digests)
  {
    if j < k { ShardMatchesAt(shards, nodes, plan, durationsSha, digests, k - 1, j); }
  }

  // ---------------------------------------------------------------- executions

  /** The lists of a set of workers put together, with multiplicity. */
  ghost function Pooled(lists: map<WorkerId, seq<string>>, ws: set<WorkerId>): multiset<string>
    requires ws <= lists.Keys
  {
    if ws == {} then multiset{} else var w :| w in ws; multiset(lists[w]) + Pooled(lists, ws - {w})
  }

  lemma {:induction false} PooledTake(lists: map<WorkerId, seq<string>>, ws: set<WorkerId>, w: WorkerId)
    requires ws <= lists.Keys && w in ws
    ensures Pooled(lists, ws) == multiset(lists[w]) + Pooled(lists, ws - {w})
  {
    var v :| v in ws && Pooled(lists, ws) == multiset(lists[v]) + Pooled(lists, ws - {v});
    if v != w {
      PooledTake(lists, ws - {v}, w);
      PooledTake(lists, ws - {w}, v);
      assert ws - {v} - {w} == ws - {w} - {v};
    }
  }

  function ReportLists(workers: Workers): map<WorkerId, seq<string>> { map w | w in workers :: workers[w].setupReports }

  /** All setup reports of a shard's workers. */
  ghost function Reports(workers: Workers): multiset<string> { Pooled(ReportLists(workers), workers.Keys) }

  /** All setup reports of shards 1..k. */
  ghost function AllReports(shards: map<nat, Workers>, k: nat): multiset<string> {
    if k == 0 then multiset{} else
      AllReports(shards, k - 1) + if k in shards then Reports(shards[k]) else multiset{}
  }

  /** A node that shard `k` had no business running. */
  predicate Outside(node: string, k: nat, collected: set<string>, plan: Option<ShardPlan>) {
    node !in collected ||
    (plan.Some? && NodeFile(node) in plan.value.fileShards && plan.value.fileShards[NodeFile(node)] != k)
  }

  /** What the worker at a place reported, and nothing where there is no worker. */
  function ReportsAt(shards: map<nat, Workers>, n: nat, p: Place): seq<string> {
    if 1 <= p.shard <= n && p.shard in shards && p.worker in shards[p.shard] then shards[p.shard][p.worker].setupReports
    else []
  }

  /** `node` was reported at `p` although that shard had no business running it. */
  predicate Strayed(shards: map<nat, Workers>, n: nat, node: string, p: Place, collected: set<string>,
                    plan: Option<ShardPlan>) {
    node in ReportsAt(shards, n, p) && Outside(node, p.shard, collected, plan)
  }

  function RunCount(runs: map<string, seq<Place>>, node: string): nat {
    if node in runs then |runs[node]| else 0
  }

  /** How often a node is recorded as run at a place. */
  function RunsAt(runs: map<string, seq<Place>>, node: string, p: Place): nat {
    if node in runs then multiset(runs[node])[p] else 0
  }

  predicate NoEmptyRun(runs: map<string, seq<Place>>) { forall x :: x in runs ==> runs[x] != [] }

  /** `runs` is `before` with some reports of one place more. */
  ghost predicate RunsGrew(before: map<string, seq<Place>>, runs: map<string, seq<Place>>, place: Place,
                           more: multiset<string>) {
    && (forall x :: RunCount(runs, x) == RunCount(before, x) + more[x])
    && (forall x, p :: RunsAt(runs, x, p) == RunsAt(before, x, p) + (if p == place then more[x] else 0))
  }

  /** `found` is `before` with those of the reports more that are outside their shard. */
  ghost predicate StraysGrew(before: multiset<(string, Place)>, found: multiset<(string, Place)>, place: Place,
                             more: multiset<string>, collected: set<string>, plan: Option<ShardPlan>) {
    forall x, p :: (found[(x, p)] ==
      before[(x, p)] + (if p == place && Outside(x, place.shard, collected, plan) then more[x] else 0))
  }

  function WithRun(runs: map<string, seq<Place>>, node: string, place: Place): map<string, seq<Place>> {
    runs[node := (if node in runs then runs[node] else []) + [place]]
  }

  lemma RunAdded(runs: map<string, seq<Place>>, node: string, place: Place)
    ensures forall x :: RunCount(WithRun(runs, node, place), x) == RunCount(runs, x) + if x == node then 1 else 0
    ensures forall x, p :: (RunsAt(WithRun(runs, node, place), x, p) ==
      RunsAt(runs, x, p) + (if x == node && p == place then 1 else 0))
  {
  }

  lemma OneMoreRun(before: map<string, seq<Place>>, runs: map<string, seq<Place>>, place: Place, more: multiset<string>,
                   node: string)
    requires NoEmptyRun(runs) && RunsGrew(before, runs, place, more)
    ensures NoEmptyRun(WithRun(runs, node, place))
    ensures RunsGrew(before, WithRun(runs, node, place), place, more + multiset{node})
  {
    RunAdded(runs, node, place);
  }

  lemma OneMoreStray(before: multiset<(string, Place)>, found: multiset<(string, Place)>, place: Place,
                     more: multiset<string>, node: string, collected: set<string>, plan: Option<ShardPlan>)
    requires StraysGrew(before, found, place, more, collected, plan)
    ensures var next := if Outside(node, place.shard, collected, plan) then found + multiset{(node, place)} else found;
      StraysGrew(before, next, place, more + multiset{node}, collected, plan)
  {
  }

  method RecordWorker(reports: seq<string>, place: Place, collected: set<string>, plan: Option<ShardPlan>,
                      runs0: map<string, seq<Place>>, unexpected0: multiset<(string, Place)>)
    returns (runs: map<string, seq<Place>>, unexpected: multiset<(string, Place)>)
    requires NoEmptyRun(runs0)
    ensures NoEmptyRun(runs)
    ensures RunsGrew(runs0, runs, place, multiset(reports))
    ensures StraysGrew(unexpected0, unexpected, place, multiset(reports), collected, plan)
  {
    runs, unexpected := runs0, unexpected0;
    for i := 0 to |reports|
      invariant NoEmptyRun(runs)
      invariant RunsGrew(runs0, runs, place, multiset(reports[..i]))
      invariant StraysGrew(unexpected0, unexpected, place, multiset(reports[..i]), collected, plan)
    {
      var node := reports[i];
      assert reports[..i + 1] == reports[..i] + [node];
      OneMoreRun(runs0, runs, place, multiset(reports[..i]), node);
      OneMoreStray(unexpected0, unexpected, place, multiset(reports[..i]), node, collected, plan);
      runs := WithRun(runs, node, place);
      if Outside(node, place.shard, collected, plan) { unexpected := unexpected + multiset{(node, place)}; }
    }
    assert reports[..|reports|] == reports;
  }

  /** How often the worker at `p`, if it is one of these workers of shard `k`, reported a node. */
  function InShard(workers: Workers, ws: set<WorkerId>, k: nat, p: Place, node: string): nat {
    if p.shard == k && p.worker in ws && p.worker in workers then multiset(workers[p.worker].setupReports)[node] else 0
  }

  /** The runs and strays of these workers of shard `k` are recorded. */
  ghost predicate RunsIn(before: map<string, seq<Place>>, runs: map<string, seq<Place>>, workers: Workers,
                         ws: set<WorkerId>, k: nat)
    requires ws <= workers.Keys
  {
    && (forall x :: RunCount(runs, x) == RunCount(before, x) + Pooled(ReportLists(workers), ws)[x])
    && (forall x, p :: RunsAt(runs, x, p) == RunsAt(before, x, p) + InShard(workers, ws, k, p, x))
  }

  ghost predicate StraysIn(before: multiset<(string, Place)>, found: multiset<(string, Place)>, workers: Workers,
                           ws: set<WorkerId>, k: nat, collected: set<string>, plan: Option<ShardPlan>) {
    forall x, p :: (found[(x, p)] ==
      before[(x, p)] + (if Outside(x, k, collected, plan) then InShard(workers, ws, k, p, x) else 0))
  }

  lemma InShardStep(workers: Workers, ws: set<WorkerId>, k: nat, w: WorkerId, p: Place, x: string)
    requires w in workers && w !in ws
    ensures InShard(workers, ws + {w}, k, p, x) ==
      InShard(workers, ws, k, p, x) + if p == Place(k, w) then multiset(workers[w].setupReports)[x] else 0
  {
  }

  lemma RunsStep(before: map<string, seq<Place>>, mid: map<string, seq<Place>>, runs: map<string, seq<Place>>,
                 workers: Workers, ws: set<WorkerId>, k: nat, w: WorkerId)
    requires ws <= workers.Keys && w in workers && w !in ws && RunsIn(before, mid, workers, ws, k)
    requires RunsGrew(mid, runs, Place(k, w), multiset(workers[w].setupReports))
    ensures RunsIn(before, runs, workers, ws + {w}, k)
  {
    PooledTake(ReportLists(workers), ws + {w}, w);
    assert ws + {w} - {w} == ws;
    forall x, p ensures RunsAt(runs, x, p) == RunsAt(before, x, p) + InShard(workers, ws + {w}, k, p, x) {
      InShardStep(workers, ws, k, w, p, x);
    }
  }

  lemma StraysStep(before: multiset<(string, Place)>, mid: multiset<(string, Place)>, found: multiset<(string, Place)>,
                   workers: Workers, ws: set<WorkerId>, k: nat, w: WorkerId, collected: set<string>,
                   plan: Option<ShardPlan>)
    requires w in workers && w !in ws && StraysIn(before, mid, workers, ws, k, collected, plan)
    requires StraysGrew(mid, found, Place(k, w), multiset(workers[w].setupReports), collected, plan)
    ensures StraysIn(before, found, workers, ws + {w}, k, collected, plan)
  {
  }

  method RecordShard(k: nat, workers: Workers, collected: set<string>, plan: Option<ShardPlan>,
                     runs0: map<string, seq<Place>>, unexpected0: multiset<(string, Place)>)
    returns (runs: map<string, seq<Place>>, unexpected: multiset<(string, Place)>)
    requires NoEmptyRun(runs0)
    ensures NoEmptyRun(runs)
    ensures RunsIn(runs0, runs, workers, workers.Keys, k)
    ensures StraysIn(unexpected0, unexpected, workers, workers.Keys, k, collected, plan)
  {
    runs, unexpected := runs0, unexpected0;
    var rest, done := workers.Keys, {};
    while rest != {}
      invariant rest !! done && rest + done == workers.Keys
      invariant NoEmptyRun(runs)
      invariant RunsIn(runs0, runs, workers, done, k)
      invariant StraysIn(unexpected0, unexpected, workers, done, k, collected, plan)
      decreases |rest|
    {
      var w :| w in rest;
      ghost var mid, strays := runs, unexpected;
      runs, unexpected := RecordWorker(workers[w].setupReports, Place(k, w), collected, plan, runs, unexpected);
      RunsStep(runs0, mid, runs, workers, done, k, w);
      StraysStep(unexpected0, strays, unexpected, workers, done, k, w, collected, plan);
      rest, done := rest - {w}, done + {w};
    }
    assert done == workers.Keys;
  }

  /** The collected nodes that no worker ran, in collection order. */
  function Unrun(collection: seq<string>, ran: multiset<string>): seq<string> {
    if collection == [] then [] else
      var last := collection[|collection| - 1];
      Unrun(collection[..|collection| - 1], ran) + if last in ran then [] else [last]
  }

  /** The nodes of the collection that nothing reported, in its order. */
  lemma {:induction false} UnrunMeans(collection: seq<string>, ran: multiset<string>)
    ensures forall x :: x in Unrun(collection, ran) <==> x in collection && x !in ran
    ensures Canonical(collection) ==> Canonical(Unrun(collection, ran))
  {
    if collection != [] {
      var n := |collection| - 1;
      UnrunMeans(collection[..n], ran);
      assert collection == collection[..n] + [collection[n]];
      var unrun := Unrun(collection, ran);
      if Canonical(collection) {
        forall i, j | 0 <= i < j < |unrun| ensures Less(unrun[i], unrun[j]) {
          assert unrun[i] in Unrun(collection[..n], ran);
        }
      }
    }
  }

  ghost predicate AllStrays(found: multiset<(string, Place)>, shards: map<nat, Workers>, n: nat, collected: set<string>,
                            plan: Option<ShardPlan>) {
    forall x, p :: (found[(x, p)] ==
      (if Outside(x, p.shard, collected, plan) then multiset(ReportsAt(shards, n, p))[x] else 0))
  }

  /** What the execution findings must be, given every report of shards 1..n. */
  ghost predicate Recorded(shards: map<nat, Workers>, n: nat, collection: seq<string>, plan: Option<ShardPlan>,
                           missing: seq<string>, duplicated: map<string, seq<Place>>,
                           unexpected: multiset<(string, Place)>) {
    && missing == Unrun(collection, AllReports(shards, n))
    && (forall x :: x in duplicated <==> x in collection && AllReports(shards, n)[x] > 1)
    && (forall x, p :: x in duplicated ==> multiset(duplicated[x])[p] == multiset(ReportsAt(shards, n, p))[x])
    && AllStrays(unexpected, shards, n, Elements(collection), plan)
  }

  lemma Repeated(runs: map<string, seq<Place>>, collection: seq<string>, ran: multiset<string>)
    requires forall x :: RunCount(runs, x) == ran[x]
    ensures forall x :: x in runs && x in collection && |runs[x]| > 1 <==> x in collection && ran[x] > 1
  {
    forall x ensures x in runs && x in collection && |runs[x]| > 1 <==> x in collection && ran[x] > 1 {
      assert RunCount(runs, x) == ran[x];
    }
  }

  /** The runs and strays of shards 1..n are recorded. */
  ghost predicate AllRuns(runs: map<string, seq<Place>>, shards: map<nat, Workers>, n: nat) {
    && (forall x :: RunCount(runs, x) == AllReports(shards, n)[x])
    && (forall x, p :: RunsAt(runs, x, p) == multiset(ReportsAt(shards, n, p))[x])
  }

  lemma AllRunsStep(before: map<string, seq<Place>>, runs: map<string, seq<Place>>, shards: map<nat, Workers>, k: nat)
    requires k >= 1 && AllRuns(before, shards, k - 1)
    requires if k in shards then RunsIn(before, runs, shards[k], shards[k].Keys, k) else runs == before
    ensures AllRuns(runs, shards, k)
  {
  }

  lemma AllStraysStep(before: multiset<(string, Place)>, found: multiset<(string, Place)>, shards: map<nat, Workers>,
                      k: nat, collected: set<string>, plan: Option<ShardPlan>)
    requires k >= 1 && AllStrays(before, shards, k - 1, collected, plan)
    requires if k in shards then StraysIn(before, found, shards[k], shards[k].Keys, k, collected, plan)
      else found == before
    ensures AllStrays(found, shards, k, collected, plan)
  {
  }

  method RecordAll(shards: map<nat, Workers>, collected: set<string>, plan: Option<ShardPlan>, n: nat)
    returns (runs: map<string, seq<Place>>, unexpected: multiset<(string, Place)>)
    ensures NoEmptyRun(runs) && AllRuns(runs, shards, n)
    ensures AllStrays(unexpected, shards, n, collected, plan)
  {
    runs, unexpected := map[], multiset{};
    for k := 1 to n + 1
      invariant NoEmptyRun(runs) && AllRuns(runs, shards, k - 1)
      invariant AllStrays(unexpected, shards, k - 1, collected, plan)
    {
      ghost var before, strays := runs, unexpected;
      if k in shards {
        runs, unexpected := RecordShard(k, shards[k], collected, plan, runs, unexpected);
      }
      AllRunsStep(before, runs, shards, k);
      AllStraysStep(strays, unexpected, shards, k, collected, plan);
    }
  }

  /** Every node nobody ran, every run of a node run more than once, and every run outside its shard. */
  method CheckExecutions(shards: map<nat, Workers>, collection: seq<string>, plan: Option<ShardPlan>, n: nat,
                         result: VerifyResult)
    modifies result`missing, result`duplicated, result`unexpected
    ensures Recorded(shards, n, collection, plan, result.missing, result.duplicated, result.unexpected)
  {
    var runs, unexpected := RecordAll(shards, Elements(collection), plan, n);
    ghost var ran := AllReports(shards, n);
    var missing := [];
    for i := 0 to |collection|
      invariant missing == Unrun(collection[..i], ran)
    {
      assert collection[..i + 1][..i] == collection[..i];
      assert collection[i] in ran <==> RunCount(runs, collection[i]) > 0;
      if collection[i] !in runs { missing := missing + [collection[i]]; }
    }
    assert collection[..|collection|] == collection;
    result.missing := missing;
    result.duplicated := map x | x in runs && x in collection && |runs[x]| > 1 :: runs[x];
    Repeated(runs, collection, ran);
    forall x, p | x in result.duplicated
      ensures multiset(result.duplicated[x])[p] == multiset(ReportsAt(shards, n, p))[x]
    {
      assert RunsAt(runs, x, p) == multiset(ReportsAt(shards, n, p))[x];
    }
    result.unexpected := unexpected;
  }

  // ---------------------------------------------------------------- the verdict

  /** The collection the evidence under `root` agrees on. */
  function CollectionOf(root: Root, n: nat, digests: Digests): seq<string> {
    var r := Reference(ShardsOf(root, n), digests, n);
    if r.Some? then r.value else []
  }

  ghost predicate ExecutionsClean(shards: map<nat, Workers>, n: nat, collection: seq<string>, plan: ShardPlan) {
    && Unrun(collection, AllReports(shards, n)) == []
    && (forall x :: x in collection ==> AllReports(shards, n)[x] <= 1)
    && forall x, p :: !Strayed(shards, n, x, p, Elements(collection), Some(plan))
  }

  /** The execution findings are none. */
  ghost predicate NothingRecorded(missing: seq<string>, duplicated: map<string, seq<Place>>,
                                  unexpected: multiset<(string, Place)>) {
    missing == [] && duplicated == map[] && unexpected == multiset{}
  }

  lemma StraysMean(found: multiset<(string, Place)>, shards: map<nat, Workers>, n: nat, collected: set<string>,
                   plan: Option<ShardPlan>)
    requires AllStrays(found, shards, n, collected, plan)
    ensures found == multiset{} <==> forall x, p :: !Strayed(shards, n, x, p, collected, plan)
  {
    forall x, p ensures (x, p) in found <==> Strayed(shards, n, x, p, collected, plan) {
      assert found[(x, p)] == if Outside(x, p.shard, collected, plan) then multiset(ReportsAt(shards, n, p))[x] else 0;
    }
    if found != multiset{} {
      var pair :| pair in found;
      assert (pair.0, pair.1) in found;
    }
  }

  lemma Emptiness(missing: seq<string>, duplicated: map<string, seq<Place>>, unexpected: multiset<(string, Place)>,
                  shards: map<nat, Workers>, n: nat, collection: seq<string>, plan: ShardPlan)
    requires Recorded(shards, n, collection, Some(plan), missing, duplicated, unexpected)
    ensures NothingRecorded(missing, duplicated, unexpected) <==> ExecutionsClean(shards, n, collection, plan)
  {
    StraysMean(unexpected, shards, n, Elements(collection), Some(plan));
    if duplicated != map[] {
      var x :| x in duplicated;
    }
  }

  /** The collection can be planned and every worker reports its part of that plan. */
  ghost predicate PlanChecked(shards: map<nat, Workers>, collection: seq<string>, n: nat, durations: DurationsFile,
                              digests: Digests, plan: Option<ShardPlan>) {
    plan.Some? && AssignmentMatches(shards, Elements(collection), plan.value, durations.sha256, digests, n)
  }

  ghost function PlanFor(collection: seq<string>, n: nat, durations: DurationsFile, digests: Digests)
    : Option<ShardPlan> {
    var planned := Planned(collection, durations.milliseconds, n, digests);
    if planned.Success? then Some(planned.value) else None
  }

  ghost predicate PlanProblem(shards: map<nat, Workers>, collection: seq<string>, n: nat, durations: DurationsFile,
                              digests: Digests, p: Problem) {
    var plan := PlanFor(collection, n, durations, digests);
    if plan.None? then p == AssignmentNotRecomputable
    else AssignmentProblem(shards, Elements(collection), plan.value, durations.sha256, digests, n, p)
  }

  method CheckPlan(shards: map<nat, Workers>, collection: seq<string>, n: nat, durations: DurationsFile,
                   digests: Digests, result: VerifyResult) returns (plan: Option<ShardPlan>)
    modifies result`problems
    ensures old(result.problems) <= result.problems
    ensures plan == PlanFor(collection, n, durations, digests)
    ensures result.problems == old(result.problems) <==> PlanChecked(shards, collection, n, durations, digests, plan)
    ensures forall p :: (p in result.problems <==>
      p in old(result.problems) || PlanProblem(shards, collection, n, durations, digests, p))
  {
    var planned := AssignFiles(collection, durations.milliseconds, n, digests);
    plan := if planned.Success? then Some(planned.value) else None;
    if plan.None? {
      result.Add(AssignmentNotRecomputable);
    } else {
      CheckAssignment(shards, collection, plan.value, durations.sha256, n, digests, result);
    }
  }

  ghost predicate AgreedVerified(shards: map<nat, Workers>, collection: seq<string>, n: nat, durations: DurationsFile,
                                 digests: Digests) {
    var plan := PlanFor(collection, n, durations, digests);
    PlanChecked(shards, collection, n, durations, digests, plan) && ExecutionsClean(shards, n, collection, plan.value)
  }

  /** The execution findings, which are none exactly when they should be. */
  method CheckRuns(shards: map<nat, Workers>, collection: seq<string>, plan: Option<ShardPlan>, n: nat,
                   result: VerifyResult)
    modifies result`missing, result`duplicated, result`unexpected
    ensures Recorded(shards, n, collection, plan, result.missing, result.duplicated, result.unexpected)
    ensures plan.Some? ==> (NothingRecorded(result.missing, result.duplicated, result.unexpected) <==>
      ExecutionsClean(shards, n, collection, plan.value))
  {
    CheckExecutions(shards, collection, plan, n, result);
    if plan.Some? {
      Emptiness(result.missing, result.duplicated, result.unexpected, shards, n, collection, plan.value);
    }
  }

  /** The checks that need an agreed collection. */
  method CheckAgreed(shards: map<nat, Workers>, collection: seq<string>, n: nat, durations: DurationsFile,
                     digests: Digests, result: VerifyResult)
    modifies result
    ensures result.Ok() <==> |old(result.problems)| == 0 && AgreedVerified(shards, collection, n, durations, digests)
    ensures forall p :: (p in result.problems <==>
      p in old(result.problems) || PlanProblem(shards, collection, n, durations, digests, p))
    ensures result.totalNodes == |collection|
    ensures Recorded(shards, n, collection, PlanFor(collection, n, durations, digests),
                     result.missing, result.duplicated, result.unexpected)
  {
    result.totalNodes := |collection|;
    var plan := CheckPlan(shards, collection, n, durations, digests, result);
    CheckRuns(shards, collection, plan, n, result);
  }

  /** Everything the verifier checks, as one condition on the evidence. */
  ghost predicate Verified(root: Root, n: nat, durations: DurationsFile, digests: Digests) {
    var shards := ShardsOf(root, n);
    && RootReadsClean(root, n) && CollectionAgreed(shards, n, digests)
    && AgreedVerified(shards, CollectionOf(root, n, digests), n, durations, digests)
  }

  /** What the verifier counts and lists besides problems: nothing without an agreed collection. */
  ghost predicate Counted(result: VerifyResult, shards: map<nat, Workers>, n: nat, durations: DurationsFile,
                          digests: Digests)
    reads result
  {
    var collection := Agreed(shards, digests, n);
    if collection.None? then
      result.totalNodes == 0 && NothingRecorded(result.missing, result.duplicated, result.unexpected)
    else
      result.totalNodes == |collection.value| &&
      Recorded(shards, n, collection.value, PlanFor(collection.value, n, durations, digests),
               result.missing, result.duplicated, result.unexpected)
  }

  /** When a problem is among those the verifier lists. */
  ghost predicate Warranted(root: Root, n: nat, durations: DurationsFile, digests: Digests, p: Problem) {
    var shards := ShardsOf(root, n);
    var collection := Agreed(shards, digests, n);
    || ReadProblem(root, n, p)
    || AgreementProblem(shards, n, digests, p)
    || (collection.Some? && PlanProblem(shards, collection.value, n, durations, digests, p))
  }

  method VerifyEvidence(root: Root, n: nat, durations: DurationsFile, digests: Digests) returns (result: VerifyResult)
    ensures fresh(result)
    ensures result.Ok() <==> Verified(root, n, durations, digests)
    ensures Verified(root, n, durations, digests) <==>
      result.problems == [] && result.missing == [] && result.duplicated == map[] && |result.unexpected| == 0
    ensures Agreed(ShardsOf(root, n), digests, n).None? ==>
      result.totalNodes == 0 && result.missing == [] && result.duplicated == map[] && |result.unexpected| == 0
    ensures Counted(result, ShardsOf(root, n), n, durations, digests)
    ensures forall p :: p in result.problems <==> Warranted(root, n, durations, digests, p)
  {
    result := new VerifyResult();
    var shards := ReadShards(root, n, result);
    var collection := AgreedCollection(shards, n, digests, result);
    if collection.None? { return; }
    CheckAgreed(shards, collection.value, n, durations, digests, result);
  }
}
