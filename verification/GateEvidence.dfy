/** The gate's collection validation and the independent re-check of the same worker evidence. */
module GateEvidence {
  import opened Wrappers
  import opened Ordering
  import opened Text
  import opened Collections

  /** A JSON `exitstatus`: an integer, a value that Python calls equal to 0 without being an
      integer (`false`, `0.0`), or anything else. */
  datatype ExitStatus = IntExit(code: int) | ZeroLike | OtherExit

  predicate EqualsZero(e: ExitStatus) { e == IntExit(0) || e == ZeroLike }

  /** One worker's manifest: the fields are absent (`None`, or -1 for a count) when the JSON has no
      value of the expected type. */
  datatype Manifest = Manifest(
    identityOk: bool,
    exitStatus: ExitStatus,
    collected: Option<seq<string>>,
    collectedFiles: Option<seq<string>>,
    collectionCount: int,
    collectionSha: string,
    finalCount: int,
    finalSha: string,
    itemsChanged: bool,
    executed: Option<seq<string>>)

  datatype ManifestFile = Unreadable | BadSchema | Readable(manifest: Manifest)

  /** `gw*.json` in the evidence directory: `workers[i]` is gw<i>; `strays` are all other stems. */
  datatype Evidence = Evidence(workers: map<nat, ManifestFile>, strays: set<string>)

  datatype Artifact = Artifact(collected: seq<string>, collectedFiles: seq<string>, executed: seq<string>,
                               workerCounts: map<nat, nat>)

  datatype Invalid =
    | UnexpectedWorkers | UnreadableManifest | InvalidSchema | IdentityMismatch | NonZeroExit | PrimaryIncomplete
    | NotCanonical | DifferentCollection | ItemsChanged | FilesOmitted | ExecutionInvalid | ExecutedTwice
    | ExecutionMismatch | JUnitMismatch

  function GwNumbers(n: nat): (r: set<nat>)
    ensures forall k :: k in r <==> 0 <= k < n
  {
    if n == 0 then {} else GwNumbers(n - 1) + {n - 1}
  }

  // ---------------------------------------------------------------- validation

  predicate ReadsWell(file: ManifestFile) {
    file.Readable? && file.manifest.identityOk && EqualsZero(file.manifest.exitStatus)
  }

  predicate AgreesOn(m: Manifest, count: nat, sha: string) {
    m.collectionCount == count && m.collectionSha == sha && m.finalCount == count && m.finalSha == sha &&
      !m.itemsChanged
  }

  function ExecutedBy(file: ManifestFile): seq<string> {
    if file.Readable? && file.manifest.executed.Some? then file.manifest.executed.value else []
  }

  /** The lists the workers say they executed, in worker order. */
  ghost function Executed(e: Evidence, n: nat): (r: seq<seq<string>>)
    ensures |r| == n
    ensures forall i :: 0 <= i < n ==> r[i] == if i in e.workers then ExecutedBy(e.workers[i]) else []
  {
    seq(n, i requires 0 <= i < n => if i in e.workers then ExecutedBy(e.workers[i]) else [])
  }

  predicate HasExecuted(file: ManifestFile) { file.Readable? && file.manifest.executed.Some? }

  /** The workers' files are exactly gw0..gw(n-1), readable and with a clean exit. */
  predicate WorkersPresent(e: Evidence, n: nat) {
    e.strays == {} && e.workers.Keys == GwNumbers(n) && forall i :: i in e.workers ==> ReadsWell(e.workers[i])
  }

  predicate PrimaryComplete(m: Manifest) {
    m.collected.Some? && m.collectedFiles.Some? && Canonical(m.collected.value)
  }

  ghost predicate ExecutionsPresent(e: Evidence, n: nat) {
    forall i: nat :: i < n ==> i in e.workers && HasExecuted(e.workers[i])
  }

  ghost predicate FilesCollected(files: seq<string>, required: set<string>) {
    forall f :: f in required ==> exists j :: 0 <= j < |files| && Normalized(files[j]) == f
  }

  /** Everything the validation demands, with the executions stated as one partition of the collection. */
  ghost predicate Valid(e: Evidence, n: nat, required: set<string>, junitTests: int, digest: seq<string> -> string) {
    && WorkersPresent(e, n) && 0 in e.workers && PrimaryComplete(e.workers[0].manifest)
    && var primary := e.workers[0].manifest;
       var collected := primary.collected.value;
       && (forall i :: i in e.workers ==> AgreesOn(e.workers[i].manifest, |collected|, digest(collected)))
       && FilesCollected(primary.collectedFiles.value, required)
       && ExecutionsPresent(e, n) && AllOf(Executed(e, n)) == multiset(collected)
       && junitTests == |collected|
  }

  method CheckManifests(e: Evidence, n: nat) returns (error: Option<Invalid>)
    requires e.workers.Keys == GwNumbers(n)
    ensures error.None? <==> forall i :: i in e.workers ==> ReadsWell(e.workers[i])
  {
    for i := 0 to n
      invariant forall j :: 0 <= j < i ==> ReadsWell(e.workers[j])
    {
      match e.workers[i] {
        case Unreadable => return Some(UnreadableManifest);
        case BadSchema => return Some(InvalidSchema);
        case Readable(m) =>
          if !m.identityOk { return Some(IdentityMismatch); }
          if !EqualsZero(m.exitStatus) { return Some(NonZeroExit); }
      }
    }
    error := None;
  }

  method CheckAgreement(e: Evidence, n: nat, count: nat, sha: string) returns (error: Option<Invalid>)
    requires e.workers.Keys == GwNumbers(n) && forall i :: i in e.workers ==> e.workers[i].Readable?
    ensures error.None? <==> forall i :: i in e.workers ==> AgreesOn(e.workers[i].manifest, count, sha)
  {
    for i := 0 to n
      invariant forall j :: 0 <= j < i ==> AgreesOn(e.workers[j].manifest, count, sha)
    {
      var m := e.workers[i].manifest;
      if m.collectionCount != count || m.collectionSha != sha { return Some(DifferentCollection); }
      if m.finalCount != count || m.finalSha != sha || m.itemsChanged { return Some(ItemsChanged); }
    }
    error := None;
  }

  ghost function ListsIn(files: seq<ManifestFile>): (r: seq<seq<string>>)
    ensures |r| == |files| && forall i :: 0 <= i < |r| ==> r[i] == ExecutedBy(files[i])
  {
    seq(|files|, i requires 0 <= i < |files| => ExecutedBy(files[i]))
  }

  ghost function CountsOf(lists: seq<seq<string>>): (r: map<nat, nat>)
    ensures forall i :: i in r <==> 0 <= i < |lists|
    ensures forall i :: i in r ==> r[i] == |lists[i]|
  {
    if lists == [] then map[] else CountsOf(lists[..|lists| - 1])[|lists| - 1 := |lists[|lists| - 1]|]
  }

  /** What merging some files gives, when each has a list and nothing repeats. */
  ghost predicate Merged(files: seq<ManifestFile>, executed: set<string>, counts: map<nat, nat>) {
    && (forall file :: file in files ==> HasExecuted(file)) && OnceOnly(ListsIn(files))
    && executed == UnionOf(ListsIn(files)) && counts == CountsOf(ListsIn(files))
  }

  ghost predicate Mergeable(files: seq<ManifestFile>) {
    (forall file :: file in files ==> HasExecuted(file)) && OnceOnly(ListsIn(files))
  }

  lemma PrefixMergeable(files: seq<ManifestFile>, k: nat)
    requires k <= |files|
    ensures Mergeable(files) ==> Mergeable(files[..k])
  {
    assert ListsIn(files[..k]) == ListsIn(files)[..k];
    if OnceOnly(ListsIn(files)) { OncePrefix(ListsIn(files), k); }
  }

  lemma PrefixRefused(files: seq<ManifestFile>, done: seq<ManifestFile>, i: nat)
    requires i < |files| && done == files[..i] && !Mergeable(done + [files[i]])
    ensures !Mergeable(files)
  {
    assert files[..i + 1] == done + [files[i]];
    PrefixMergeable(files, i + 1);
  }

  method RepeatedNodes(nodes: seq<string>, executed: set<string>) returns (error: Option<Invalid>)
    ensures error.None? <==> Distinct(nodes) && executed * Elements(nodes) == {}
  {
    DistinctSize(nodes);
    if |Elements(nodes)| != |nodes| { return Some(ExecutionInvalid); }
    if executed * Elements(nodes) != {} { return Some(ExecutedTwice); }
    error := None;
  }

  lemma MergeStep(done: seq<ManifestFile>, file: ManifestFile)
    ensures var before, lists, nodes := ListsIn(done), ListsIn(done + [file]), ExecutedBy(file);
      && (OnceOnly(lists) <==> OnceOnly(before) && Distinct(nodes) && UnionOf(before) * Elements(nodes) == {})
      && UnionOf(lists) == UnionOf(before) + Elements(nodes)
      && CountsOf(lists) == CountsOf(before)[|done| := |nodes|]
  {
    assert ListsIn(done + [file]) == ListsIn(done) + [ExecutedBy(file)];
    assert (ListsIn(done) + [ExecutedBy(file)])[..|done|] == ListsIn(done);
  }

  method MergeWorker(file: ManifestFile, i: nat, before: set<string>, counted: map<nat, nat>,
                     ghost done: seq<ManifestFile>)
    returns (error: Option<Invalid>, executed: set<string>, counts: map<nat, nat>)
    requires |done| == i && Merged(done, before, counted)
    ensures error.Some? ==> !Mergeable(done + [file])
    ensures error.None? ==> Merged(done + [file], executed, counts)
  {
    if !HasExecuted(file) {
      assert file in done + [file];
      return Some(ExecutionInvalid), {}, map[];
    }
    MergeStep(done, file);
    error := RepeatedNodes(ExecutedBy(file), before);
    executed := before + Elements(ExecutedBy(file));
    counts := counted[i := |ExecutedBy(file)|];
  }

  method MergeFiles(files: seq<ManifestFile>)
    returns (error: Option<Invalid>, executed: set<string>, counts: map<nat, nat>)
    ensures error.None? <==> Mergeable(files)
    ensures error.None? ==> Merged(files, executed, counts)
  {
    executed, counts := {}, map[];
    ghost var done: seq<ManifestFile> := [];
    for i := 0 to |files|
      invariant done == files[..i] && Merged(done, executed, counts)
    {
      error, executed, counts := MergeWorker(files[i], i, executed, counts, done);
      if error.Some? {
        PrefixRefused(files, done, i);
        return error, {}, map[];
      }
      done := done + [files[i]];
    }
    assert done == files;
    error := None;
  }

  /** Merges the workers' executions, refusing a repeat inside one worker or across two. */
  method MergeExecutions(e: Evidence, n: nat)
    returns (error: Option<Invalid>, executed: set<string>, counts: map<nat, nat>)
    requires e.workers.Keys == GwNumbers(n)
    ensures error.None? <==> ExecutionsPresent(e, n) && OnceOnly(Executed(e, n))
    ensures error.None? ==> executed == UnionOf(Executed(e, n)) && counts == CountsOf(Executed(e, n))
  {
    var files := seq(n, i requires 0 <= i < n => e.workers[i]);
    assert ListsIn(files) == Executed(e, n);
    assert ExecutionsPresent(e, n) <==> forall file :: file in files ==> HasExecuted(file) by {
      if forall file :: file in files ==> HasExecuted(file) {
        forall i: nat | i < n ensures i in e.workers && HasExecuted(e.workers[i]) { assert files[i] in files; }
      }
    }
    error, executed, counts := MergeFiles(files);
  }

  method CheckFiles(files: seq<string>, required: set<string>) returns (error: Option<Invalid>)
    ensures error.None? <==> FilesCollected(files, required)
  {
    var seen := set i | 0 <= i < |files| :: Normalized(files[i]);
    if f :| f in required && f !in seen { return Some(FilesOmitted); }
    error := None;
  }

  method CheckExecutions(e: Evidence, n: nat, collected: seq<string>, files: seq<string>, junitTests: int)
    returns (r: Result<Artifact, Invalid>)
    requires e.workers.Keys == GwNumbers(n) && (forall i :: i in e.workers ==> e.workers[i].Readable?) &&
      Canonical(collected)
    ensures r.Success? <==>
      ExecutionsPresent(e, n) && AllOf(Executed(e, n)) == multiset(collected) && junitTests == |collected|
    ensures r.Success? ==> r.value == Artifact(collected, files, Sorted(Elements(collected)), CountsOf(Executed(e, n)))
  {
    var error, executed, counts := MergeExecutions(e, n);
    CanonicalDistinct(collected);
    PartitionIff(Executed(e, n), collected);
    OnceOnlyIff(Executed(e, n));
    CoversUnion(Executed(e, n), collected);
    if error.Some? { return Failure(error.value); }
    if executed != Elements(collected) { return Failure(ExecutionMismatch); }
    if junitTests != |collected| { return Failure(JUnitMismatch); }
    var sorted := Sort(executed);
    return Success(Artifact(collected, files, sorted, counts));
  }

  /** `_validate_collection_manifests`: the artifact it writes, or the first thing wrong. */
  method ValidateCollection(e: Evidence, n: nat, required: set<string>, junitTests: int, digest: seq<string> -> string)
    returns (r: Result<Artifact, Invalid>)
    requires n >= 1
    ensures r.Success? <==> Valid(e, n, required, junitTests, digest)
    ensures r.Success? ==> var primary := e.workers[0].manifest;
      r.value == Artifact(primary.collected.value, primary.collectedFiles.value,
                          Sorted(Elements(primary.collected.value)), CountsOf(Executed(e, n)))
  {
    if e.strays != {} || e.workers.Keys != GwNumbers(n) { return Failure(UnexpectedWorkers); }
    var error := CheckManifests(e, n);
    if error.Some? { return Failure(error.value); }
    var primary := e.workers[0].manifest;
    if primary.collected.None? || primary.collectedFiles.None? { return Failure(PrimaryIncomplete); }
    if !Canonical(primary.collected.value) { return Failure(NotCanonical); }
    error := CheckAgreement(e, n, |primary.collected.value|, digest(primary.collected.value));
    if error.Some? { return Failure(error.value); }
    error := CheckFiles(primary.collectedFiles.value, required);
    if error.Some? { return Failure(error.value); }
    r := CheckExecutions(e, n, primary.collected.value, primary.collectedFiles.value, junitTests);
  }

  // ---------------------------------------------------------------- the re-check

  /** One worker as the timing helper reads it; the status is absent unless it is an integer. */
  datatype WorkerEvidence = WorkerEvidence(worker: nat, exitStatus: Option<int>, executed: seq<string>)

  datatype EvidenceProblem =
    | WorkersDiffer | BadExit(worker: nat) | RepeatedNode(worker: nat) | CountDiffers(worker: nat) | SharedNode
    | CollectionDiffers

  ghost function ListsOf(workers: seq<WorkerEvidence>): (r: seq<seq<string>>)
    ensures |r| == |workers| && forall i :: 0 <= i < |r| ==> r[i] == workers[i].executed
  {
    seq(|workers|, i requires 0 <= i < |workers| => workers[i].executed)
  }

  predicate CountFits(w: WorkerEvidence, expected: map<nat, nat>) {
    w.worker in expected ==> expected[w.worker] == |w.executed|
  }

  predicate WorkerSound(w: WorkerEvidence, expected: map<nat, nat>) {
    w.exitStatus == Some(0) && Distinct(w.executed) && CountFits(w, expected)
  }

  ghost predicate SameWorkers(workers: seq<WorkerEvidence>, expected: map<nat, nat>) {
    forall k :: k in expected <==> exists i :: 0 <= i < |workers| && workers[i].worker == k
  }

  /** What an empty list of evidence problems means. */
  ghost predicate EvidenceSound(workers: seq<WorkerEvidence>, expected: map<nat, nat>, collected: seq<string>) {
    && SameWorkers(workers, expected)
    && (forall i :: 0 <= i < |workers| ==> WorkerSound(workers[i], expected))
    && Disjoint(ListsOf(workers)) && Covers(ListsOf(workers), collected)
  }

  /** One worker's own problems. */
  function OwnProblems(w: WorkerEvidence, expected: map<nat, nat>): seq<EvidenceProblem> {
    (if w.exitStatus == Some(0) then [] else [BadExit(w.worker)]) +
    (if Distinct(w.executed) then [] else [RepeatedNode(w.worker)]) +
    (if CountFits(w, expected) then [] else [CountDiffers(w.worker)])
  }

  function EachProblems(workers: seq<WorkerEvidence>, expected: map<nat, nat>): seq<EvidenceProblem> {
    if workers == [] then [] else
      EachProblems(workers[..|workers| - 1], expected) + OwnProblems(workers[|workers| - 1], expected)
  }

  /** The problems in the order they are reported. */
  ghost function ProblemList(workers: seq<WorkerEvidence>, expected: map<nat, nat>, collected: seq<string>)
    : seq<EvidenceProblem> {
    (if SameWorkers(workers, expected) then [] else [WorkersDiffer]) + EachProblems(workers, expected) +
    (if Disjoint(ListsOf(workers)) then [] else [SharedNode]) +
    (if Covers(ListsOf(workers), collected) then [] else [CollectionDiffers])
  }

  lemma {:induction false} EachSound(workers: seq<WorkerEvidence>, expected: map<nat, nat>)
    ensures EachProblems(workers, expected) == [] <==>
      forall i :: 0 <= i < |workers| ==> WorkerSound(workers[i], expected)
  {
    if workers != [] {
      var n := |workers| - 1;
      EachSound(workers[..n], expected);
      assert (forall i :: 0 <= i < |workers| ==> WorkerSound(workers[i], expected)) <==>
        WorkerSound(workers[n], expected) && forall i :: 0 <= i < n ==> WorkerSound(workers[..n][i], expected);
    }
  }

  lemma NoProblems(workers: seq<WorkerEvidence>, expected: map<nat, nat>, collected: seq<string>)
    ensures ProblemList(workers, expected, collected) == [] <==> EvidenceSound(workers, expected, collected)
  {
    EachSound(workers, expected);
  }

  lemma MeetsUnion(xs: seq<string>, lists: seq<seq<string>>)
    ensures UnionOf(lists) * Elements(xs) == {} <==> Avoids(xs, lists)
  {
    forall x ensures x in UnionOf(lists) <==> InSome(lists, x) { UnionIsSome(lists, x); }
    if UnionOf(lists) * Elements(xs) == {} {
      forall x | x in xs ensures !InSome(lists, x) { assert x in Elements(xs) && x !in UnionOf(lists) * Elements(xs); }
    }
  }

  /** What one worker more adds; it shares a node exactly when it meets what the others executed. */
  lemma OneMoreWorker(done: seq<WorkerEvidence>, w: WorkerEvidence, expected: map<nat, nat>)
    ensures EachProblems(done + [w], expected) == EachProblems(done, expected) + OwnProblems(w, expected)
    ensures UnionOf(ListsOf(done + [w])) == UnionOf(ListsOf(done)) + Elements(w.executed)
    ensures Disjoint(ListsOf(done + [w])) <==>
      Disjoint(ListsOf(done)) && UnionOf(ListsOf(done)) * Elements(w.executed) == {}
  {
    assert (done + [w])[..|done|] == done;
    assert ListsOf(done + [w]) == ListsOf(done) + [w.executed];
    assert (ListsOf(done) + [w.executed])[..|done|] == ListsOf(done);
    DisjointStep(ListsOf(done + [w]));
    MeetsUnion(w.executed, ListsOf(done));
  }

  method WorkerProblems(w: WorkerEvidence, expected: map<nat, nat>) returns (problems: seq<EvidenceProblem>)
    ensures problems == OwnProblems(w, expected)
  {
    problems := [];
    if w.exitStatus != Some(0) { problems := problems + [BadExit(w.worker)]; }
    DistinctSize(w.executed);
    if |Elements(w.executed)| != |w.executed| { problems := problems + [RepeatedNode(w.worker)]; }
    if w.worker in expected && expected[w.worker] != |w.executed| { problems := problems + [CountDiffers(w.worker)]; }
  }

  /** What reading some workers gives. */
  ghost predicate Owned(workers: seq<WorkerEvidence>, expected: map<nat, nat>, problems: seq<EvidenceProblem>,
                        owned: set<string>, shared: set<string>) {
    && problems == EachProblems(workers, expected) && owned == UnionOf(ListsOf(workers))
    && (shared == {} <==> Disjoint(ListsOf(workers)))
  }

  lemma OwnedStep(done: seq<WorkerEvidence>, w: WorkerEvidence, expected: map<nat, nat>, problems: seq<EvidenceProblem>,
                  owned: set<string>, shared: set<string>)
    requires Owned(done, expected, problems, owned, shared)
    ensures var nodes := Elements(w.executed);
      Owned(done + [w], expected, problems + OwnProblems(w, expected), owned + nodes, shared + owned * nodes)
  {
    OneMoreWorker(done, w, expected);
  }

  /** Each worker's own problems, every node some worker executed, and the nodes two workers did. */
  method OwnNodes(workers: seq<WorkerEvidence>, expected: map<nat, nat>)
    returns (problems: seq<EvidenceProblem>, owned: set<string>, shared: set<string>)
    ensures problems == EachProblems(workers, expected)
    ensures owned == UnionOf(ListsOf(workers))
    ensures shared == {} <==> Disjoint(ListsOf(workers))
  {
    problems, owned, shared := [], {}, {};
    ghost var done: seq<WorkerEvidence> := [];
    for i := 0 to |workers|
      invariant done == workers[..i] && Owned(done, expected, problems, owned, shared)
    {
      OwnedStep(done, workers[i], expected, problems, owned, shared);
      var own := WorkerProblems(workers[i], expected);
      problems := problems + own;
      var nodes := Elements(workers[i].executed);
      shared := shared + owned * nodes;
      owned := owned + nodes;
      done := done + [workers[i]];
    }
    assert done == workers;
  }

  method EvidenceProblems(workers: seq<WorkerEvidence>, expected: map<nat, nat>, collected: seq<string>)
    returns (problems: seq<EvidenceProblem>)
    ensures problems == ProblemList(workers, expected, collected)
    ensures problems == [] <==> EvidenceSound(workers, expected, collected)
  {
    var loaded := set i | 0 <= i < |workers| :: workers[i].worker;
    assert loaded == expected.Keys <==> SameWorkers(workers, expected);
    problems := if loaded != expected.Keys then [WorkersDiffer] else [];
    var each, owned, shared := OwnNodes(workers, expected);
    problems := problems + each;
    if shared != {} { problems := problems + [SharedNode]; }
    CoversUnion(ListsOf(workers), collected);
    if owned != Elements(collected) { problems := problems + [CollectionDiffers]; }
    NoProblems(workers, expected, collected);
  }

  // ---------------------------------------------------------------- the two agree

  /** The files of gw0..gw(n-1) as the timing helper loads them. */
  ghost function Loaded(e: Evidence, n: nat): (r: seq<WorkerEvidence>)
    requires forall i :: 0 <= i < n ==> i in e.workers && HasExecuted(e.workers[i])
    ensures |r| == n
  {
    seq(n, i requires 0 <= i < n =>
      assert HasExecuted(e.workers[i]);
      var m := e.workers[i].manifest;
      WorkerEvidence(i, if m.exitStatus.IntExit? then Some(m.exitStatus.code) else None, ExecutedBy(e.workers[i])))
  }

  /** Accepted evidence runs the collection exactly once, and the recorded counts add up to the JUnit total. */
  lemma ValidIsPartition(e: Evidence, n: nat, required: set<string>, junitTests: int, digest: seq<string> -> string,
                         collected: seq<string>)
    requires Valid(e, n, required, junitTests, digest) && collected == e.workers[0].manifest.collected.value
    ensures AllOf(Executed(e, n)) == multiset(collected)
    ensures NoRepeats(Executed(e, n)) && Disjoint(Executed(e, n)) && Covers(Executed(e, n), collected)
    ensures TotalLength(Executed(e, n)) == |collected| == junitTests
  {
    CanonicalDistinct(collected);
    PartitionIff(Executed(e, n), collected);
    LengthIsSize(Executed(e, n));
    assert |multiset(collected)| == |collected|;
  }

  lemma LoadedExit(e: Evidence, n: nat, i: nat)
    requires ExecutionsPresent(e, n) && i < n && ReadsWell(e.workers[i])
    ensures Loaded(e, n)[i].exitStatus == Some(0) <==> e.workers[i].manifest.exitStatus.IntExit?
  {
  }

  lemma ExitsAgree(e: Evidence, n: nat)
    requires WorkersPresent(e, n) && ExecutionsPresent(e, n)
    ensures (forall i :: 0 <= i < n ==> Loaded(e, n)[i].exitStatus == Some(0)) <==>
      (forall i :: i in e.workers ==> e.workers[i].manifest.exitStatus.IntExit?)
  {
    forall i | 0 <= i < n
      ensures Loaded(e, n)[i].exitStatus == Some(0) <==> e.workers[i].manifest.exitStatus.IntExit?
    {
      LoadedExit(e, n, i);
    }
  }

  /** Worker `i` is numbered `i` and executed list `i`. */
  ghost predicate NumberedLists(workers: seq<WorkerEvidence>, lists: seq<seq<string>>) {
    |workers| == |lists| &&
      forall i :: 0 <= i < |lists| ==> workers[i].worker == i && workers[i].executed == lists[i]
  }

  lemma LoadedLists(e: Evidence, n: nat)
    requires ExecutionsPresent(e, n)
    ensures NumberedLists(Loaded(e, n), Executed(e, n))
  {
  }

  lemma CountedSound(w: WorkerEvidence, i: nat, lists: seq<seq<string>>, counts: map<nat, nat>)
    requires i < |lists| && w.worker == i && w.executed == lists[i] && Distinct(lists[i]) && counts == CountsOf(lists)
    ensures WorkerSound(w, counts) <==> w.exitStatus == Some(0)
  {
  }

  lemma NumberedWorkers(workers: seq<WorkerEvidence>, counts: map<nat, nat>)
    requires forall i :: 0 <= i < |workers| ==> workers[i].worker == i
    requires forall k :: k in counts <==> 0 <= k < |workers|
    ensures SameWorkers(workers, counts)
  {
    forall k | k in counts ensures exists i :: 0 <= i < |workers| && workers[i].worker == k {
      assert workers[k].worker == k;
    }
  }

  /** Workers numbered in order with the given lists pass the re-check when all exited 0. */
  lemma LoadedSound(workers: seq<WorkerEvidence>, lists: seq<seq<string>>, counts: map<nat, nat>,
                    collected: seq<string>)
    requires NumberedLists(workers, lists)
    requires NoRepeats(lists) && Disjoint(lists) && Covers(lists, collected) && counts == CountsOf(lists)
    ensures EvidenceSound(workers, counts, collected) <==>
      forall i :: 0 <= i < |workers| ==> workers[i].exitStatus == Some(0)
  {
    assert ListsOf(workers) == lists;
    forall i | 0 <= i < |workers| ensures WorkerSound(workers[i], counts) <==> workers[i].exitStatus == Some(0) {
      CountedSound(workers[i], i, lists, counts);
    }
    NumberedWorkers(workers, counts);
  }

  lemma PartitionAgrees(e: Evidence, n: nat, collected: seq<string>)
    requires WorkersPresent(e, n) && ExecutionsPresent(e, n)
    requires NoRepeats(Executed(e, n)) && Disjoint(Executed(e, n)) && Covers(Executed(e, n), collected)
    ensures EvidenceSound(Loaded(e, n), CountsOf(Executed(e, n)), collected) <==>
      forall i :: i in e.workers ==> e.workers[i].manifest.exitStatus.IntExit?
  {
    LoadedLists(e, n);
    LoadedSound(Loaded(e, n), Executed(e, n), CountsOf(Executed(e, n)), collected);
    ExitsAgree(e, n);
  }

  /** On the workers and the artifact of an accepted validation the re-check finds nothing, exactly
      when every exit status is a real integer: the validation alone lets `false` and `0.0` pass for 0. */
  lemma ValidatorsAgree(e: Evidence, n: nat, required: set<string>, junitTests: int, digest: seq<string> -> string,
                        collected: seq<string>)
    requires Valid(e, n, required, junitTests, digest) && collected == e.workers[0].manifest.collected.value
    ensures ExecutionsPresent(e, n)
    ensures EvidenceSound(Loaded(e, n), CountsOf(Executed(e, n)), collected) <==>
      forall i :: i in e.workers ==> e.workers[i].manifest.exitStatus.IntExit?
  {
    ValidIsPartition(e, n, required, junitTests, digest, collected);
    PartitionAgrees(e, n, collected);
  }

  /** One worker that ran the one collected node and wrote `false` for its exit status. */
  function FalseExit(sha: string): Evidence {
    Evidence(map[0 := Readable(Manifest(true, ZeroLike, Some(["a"]), Some(["a"]), 1, sha, 1, sha, false, Some(["a"])))],
      {})
  }

  /** That evidence is accepted, and the re-check objects to it. */
  lemma ValidatorsCanDisagree(digest: seq<string> -> string) returns (e: Evidence)
    ensures Valid(e, 1, {}, 1, digest) && ExecutionsPresent(e, 1)
    ensures !EvidenceSound(Loaded(e, 1), CountsOf(Executed(e, 1)), ["a"])
  {
    e := FalseExit(digest(["a"]));
    assert e.workers.Keys == GwNumbers(1);
    assert Executed(e, 1) == [["a"]];
    assert [["a"]][..0] == [];
    assert AllOf([["a"]]) == multiset(["a"]);
    ValidatorsAgree(e, 1, {}, 1, digest, ["a"]);
    assert 0 in e.workers && !e.workers[0].manifest.exitStatus.IntExit?;
  }

  /** Conversely, evidence with no problem runs the collection exactly once, each worker in the recorded number. */
  lemma SoundIsPartition(workers: seq<WorkerEvidence>, expected: map<nat, nat>, collected: seq<string>)
    requires EvidenceSound(workers, expected, collected) && Distinct(collected)
    ensures AllOf(ListsOf(workers)) == multiset(collected)
    ensures forall i :: 0 <= i < |workers| ==>
      workers[i].worker in expected && expected[workers[i].worker] == |workers[i].executed|
  {
    forall i | 0 <= i < |workers| ensures Distinct(ListsOf(workers)[i]) { assert WorkerSound(workers[i], expected); }
    PartitionIff(ListsOf(workers), collected);
    forall i | 0 <= i < |workers|
      ensures workers[i].worker in expected && expected[workers[i].worker] == |workers[i].executed| {
      assert WorkerSound(workers[i], expected);
    }
  }

  // ---------------------------------------------------------------- the validation, value by value

  /** What the manifest of every worker has to say. */
  ghost predicate Agrees(file: ManifestFile, count: nat, sha: string) {
    match file
    case Readable(m) =>
      && m.identityOk && m.exitStatus in {IntExit(0), ZeroLike} && m.executed.Some?
      && m.collectionCount == count && m.collectionSha == sha
      && m.finalCount == count && m.finalSha == sha && !m.itemsChanged
    case _ => false
  }

  /** The validation succeeds exactly on gw0..gw(n-1) that agree with the sorted collection of gw0 before and after the
      run, over files that include the required ones, and that together executed each node once, as often as JUnit
      counts. */
  lemma ValidExactly(e: Evidence, n: nat, required: set<string>, junitTests: int, digest: seq<string> -> string)
    ensures Valid(e, n, required, junitTests, digest) <==>
      && e.strays == {} && n >= 1 && (forall i: nat :: i in e.workers <==> i < n)
      && e.workers[0].Readable? && e.workers[0].manifest.collected.Some? && e.workers[0].manifest.collectedFiles.Some?
      && var collected := e.workers[0].manifest.collected.value;
         && Canonical(collected) && junitTests == |collected|
         && (forall i :: i in e.workers ==> Agrees(e.workers[i], |collected|, digest(collected)))
         && (forall f :: f in required ==>
               exists j :: 0 <= j < |e.workers[0].manifest.collectedFiles.value| &&
                 Normalized(e.workers[0].manifest.collectedFiles.value[j]) == f)
         && AllOf(Executed(e, n)) == multiset(collected)
  {
    if forall i: nat :: i in e.workers <==> i < n { assert e.workers.Keys == GwNumbers(n); }
  }
}
