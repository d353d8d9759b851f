/** The canonical gate: nested try/except/finally over exit codes, tree snapshots, manifest and
    receipt. Every external step is an arbitrary outcome of the environment. */
module Gate {
  import opened JUnit
  import opened Wrappers

  datatype Exc = RuntimeExc | InterruptExc | OtherExc

  datatype Outcome<+T> = Value(value: T) | Raises(exc: Exc)

  /** A tree snapshot, compared only for equality. */
  type Snapshot = int

  datatype CollectionTotals = CollectionTotals(nodes: nat, workers: nat, sha256: string)

  datatype PhaseName = Preflight | PytestFull

  datatype Phase = Phase(name: PhaseName, exitCode: int)

  /** How writing the success receipt ends. The receipt is put in place by one atomic rename; what
      runs after the rename can still raise. */
  datatype ReceiptWrite = Written | RaisedBefore | RaisedAfter | Interrupted

  datatype Args = Args(preflightOnly: bool, receipt: bool, startable: bool)

  /** What each external step answers, in the order the gate reaches them. */
  datatype Env = Env(
    openAndLock: Outcome<()>,
    firstSnapshot: Outcome<Snapshot>,
    worktreeErrors: Outcome<nat>,
    committedTreeClean: Outcome<bool>,
    pytestRunning: Outcome<bool>,
    checkedSnapshot: Outcome<Snapshot>,
    materialize: Outcome<()>,
    gateSnapshot: Outcome<Snapshot>,
    subprocessEnv: Outcome<()>,
    preflightSpecs: Outcome<seq<Outcome<int>>>,
    postPreflightSnapshot: Outcome<Snapshot>,
    makeCollectionDir: Outcome<()>,
    pytestFull: Outcome<int>,
    junitExists: bool,
    junit: Outcome<JUnitTotals>,
    collection: Outcome<CollectionTotals>,
    finalGateSnapshot: Outcome<Snapshot>,
    gateStatus: Outcome<()>,
    removeMaterialized: Outcome<()>,
    sourceSnapshot: Outcome<Snapshot>,
    unlockAndClose: Outcome<()>,
    lastSourceSnapshot: Outcome<Snapshot>,
    durationBudget: Outcome<()>,
    writeManifest: Outcome<()>,
    collectionFileExists: bool,
    indexIsHead: Outcome<bool>,
    receiptWrite: ReceiptWrite,
    removeReceipt: Outcome<()>,
    rewriteManifest: Outcome<()>)

  /** What the gate records about a run; the manifest holds it and the receipt hashes the manifest. */
  datatype GateResult = GateResult(
    wrapper: int, preflight: Option<int>, pytest: Option<int>, preflightOnly: bool, interrupted: bool,
    error: bool, treeChanged: bool, junit: Option<JUnitTotals>, collection: Option<CollectionTotals>)

  datatype Receipt = Receipt(manifestDigest: string, result: GateResult)

  // ---------------------------------------------------------------- the conditions for a green run

  predicate AllZero(phases: seq<Outcome<int>>) {
    forall i :: 0 <= i < |phases| ==> phases[i] == Value(0)
  }

  /** Admission: one snapshot before and after the checks, and nothing to complain about. */
  predicate Admitted(args: Args, env: Env) {
    && env.openAndLock.Value? && env.firstSnapshot.Value?
    && env.worktreeErrors == Value(0) && (args.preflightOnly || env.committedTreeClean == Value(true))
    && env.pytestRunning == Value(false) && env.checkedSnapshot == env.firstSnapshot
  }

  /** Every preflight phase exited 0 and left the materialized tree alone. */
  predicate PreflightGreen(env: Env) {
    && env.preflightSpecs.Value? && AllZero(env.preflightSpecs.value)
    && env.postPreflightSnapshot == env.gateSnapshot
  }

  /** pytest exited 0 with a clean JUnit report and a validated collection. */
  predicate PytestGreen(env: Env) {
    && env.makeCollectionDir.Value? && env.pytestFull == Value(0)
    && env.junitExists && env.junit.Value? && env.junit.value.failures == 0 && env.junit.value.errors == 0
    && env.collection.Value?
  }

  predicate ValidationGreen(args: Args, env: Env) {
    PreflightGreen(env) && (args.preflightOnly || PytestGreen(env))
  }

  /** Both trees stood still: the materialized one through validation, the source one to the end. */
  predicate TreesUnchanged(env: Env) {
    && env.gateSnapshot.Value? && env.finalGateSnapshot == env.gateSnapshot
    && env.sourceSnapshot == env.checkedSnapshot && env.lastSourceSnapshot == env.checkedSnapshot
  }

  /** The materialized tree was set up and removed, and the lock released. */
  predicate Cleaned(env: Env) {
    env.materialize.Value? && env.subprocessEnv.Value? && env.removeMaterialized.Value? && env.unlockAndClose.Value?
  }

  predicate ReceiptGranted(env: Env) {
    env.collectionFileExists && env.indexIsHead == Value(true) && env.receiptWrite == Written
  }

  /** Exactly when the gate answers 0. */
  predicate Green(args: Args, env: Env) {
    && Admitted(args, env) && ValidationGreen(args, env) && TreesUnchanged(env) && Cleaned(env)
    && (args.receipt ==> ReceiptGranted(env))
  }

  // ---------------------------------------------------------------- how each part ends

  /** The code of the first preflight phase that does not exit 0, or what it raises. */
  function PreflightEnd(specs: seq<Outcome<int>>): Outcome<int> {
    if specs == [] then Value(0) else if specs[0] != Value(0) then specs[0] else PreflightEnd(specs[1..])
  }

  function PytestEnd(env: Env): Outcome<int> {
    if env.makeCollectionDir.Raises? then Raises(env.makeCollectionDir.exc)
    else if env.pytestFull.Raises? then env.pytestFull
    else if env.junitExists && env.junit.Raises? && env.junit.exc != RuntimeExc then Raises(env.junit.exc)
    else if env.pytestFull.value != 0 then env.pytestFull
    else if !env.junitExists || env.junit.Raises? then Value(5)
    else if env.collection.Raises? && env.collection.exc != RuntimeExc then Raises(env.collection.exc)
    else if env.junit.value.failures > 0 || env.junit.value.errors > 0 || env.collection.Raises? then Value(5)
    else Value(0)
  }

  function ValidationEnd(args: Args, env: Env): Outcome<int> {
    if env.preflightSpecs.Raises? then Raises(env.preflightSpecs.exc) else
      var preflight := PreflightEnd(env.preflightSpecs.value);
      if preflight.Raises? then preflight
      else if env.postPreflightSnapshot.Raises? then Raises(env.postPreflightSnapshot.exc)
      else if env.postPreflightSnapshot != env.gateSnapshot then Value(3)
      else if preflight.value == 0 && !args.preflightOnly then PytestEnd(env)
      else preflight
  }

  /** After the comparison of the materialized tree: a change gives 3, but a pending exception goes on. */
  function ComparedEnd(args: Args, env: Env): Outcome<int> {
    var inner := ValidationEnd(args, env);
    if env.finalGateSnapshot.Raises? then Raises(env.finalGateSnapshot.exc)
    else if env.finalGateSnapshot == env.gateSnapshot then inner
    else if env.gateStatus.Raises? then Raises(env.gateStatus.exc)
    else if inner.Raises? then inner else Value(3)
  }

  function MaterializedEnd(args: Args, env: Env): Outcome<int> {
    if env.materialize.Raises? then Raises(env.materialize.exc) else
      var inner :=
        if env.gateSnapshot.Raises? then Raises(env.gateSnapshot.exc)
        else if env.subprocessEnv.Raises? then Raises(env.subprocessEnv.exc)
        else ComparedEnd(args, env);
      if env.removeMaterialized.Raises? && (inner.Value? || env.removeMaterialized.exc != RuntimeExc)
      then Raises(env.removeMaterialized.exc) else inner
  }

  /** What an admission check raises, in the order of the checks. */
  function AdmissionRaise(args: Args, env: Env): Option<Exc> {
    if env.firstSnapshot.Raises? then Some(env.firstSnapshot.exc)
    else if env.worktreeErrors.Raises? then Some(env.worktreeErrors.exc)
    else if !args.preflightOnly && env.committedTreeClean.Raises? then Some(env.committedTreeClean.exc)
    else if env.pytestRunning.Raises? then Some(env.pytestRunning.exc)
    else if env.checkedSnapshot.Raises? then Some(env.checkedSnapshot.exc)
    else None
  }

  /** There is something to complain about at admission. */
  predicate Refused(args: Args, env: Env) {
    || env.worktreeErrors != Value(0) || (!args.preflightOnly && env.committedTreeClean != Value(true))
    || env.pytestRunning != Value(false) || env.checkedSnapshot != env.firstSnapshot
  }

  function AdmitEnd(args: Args, env: Env): Outcome<int> {
    var raised := AdmissionRaise(args, env);
    if raised.Some? then Raises(raised.value)
    else if Refused(args, env) then Value(if env.checkedSnapshot != env.firstSnapshot then 3 else 2)
    else
      var inner := MaterializedEnd(args, env);
      if inner.Raises? then inner
      else if env.sourceSnapshot.Raises? then Raises(env.sourceSnapshot.exc)
      else if env.sourceSnapshot != env.checkedSnapshot then Value(3) else inner
  }

  /** The source tree was recorded: admission let the run through. */
  predicate Entered(args: Args, env: Env) {
    env.openAndLock.Value? && AdmissionRaise(args, env).None? && !Refused(args, env)
  }

  /** The materialized tree was looked at a first time. */
  predicate Snapshotted(args: Args, env: Env) {
    Entered(args, env) && env.materialize.Value? && env.gateSnapshot.Value?
  }

  function MainEnd(args: Args, env: Env): Outcome<int> {
    if env.openAndLock.Raises? then Raises(env.openAndLock.exc)
    else if env.unlockAndClose.Raises? then Raises(env.unlockAndClose.exc)
    else AdmitEnd(args, env)
  }

  function HandledCode(exc: Exc, snapshotted: bool): int {
    match exc case RuntimeExc => (if snapshotted then 5 else 4) case InterruptExc => 130 case OtherExc => 5
  }

  /** The exit code after the handlers. */
  function CodeOf(args: Args, env: Env): int {
    match MainEnd(args, env)
    case Value(code) => code
    case Raises(exc) => HandledCode(exc, Snapshotted(args, env))
  }

  /** The exit code after the last look at the source tree, or the interrupt that escapes it. */
  function ComparedCode(args: Args, env: Env): Outcome<int> {
    var code := CodeOf(args, env);
    if !Entered(args, env) then Value(code)
    else if env.lastSourceSnapshot == Raises(InterruptExc) then Raises(InterruptExc)
    else if code != 0 || env.lastSourceSnapshot == env.checkedSnapshot then Value(code)
    else if env.lastSourceSnapshot.Raises? then Value(5) else Value(3)
  }

  /** What writing the receipt raises. */
  function ReceiptRaise(env: Env): Option<Exc> {
    if !env.collectionFileExists then Some(RuntimeExc)
    else if env.indexIsHead.Raises? then Some(env.indexIsHead.exc)
    else if !env.indexIsHead.value then Some(RuntimeExc)
    else match env.receiptWrite
      case Written => None
      case Interrupted => Some(InterruptExc)
      case _ => Some(OtherExc)
  }

  /** The answer of a whole run: an exit code, or what escapes. */
  function Answer(args: Args, env: Env): Outcome<int> {
    if !args.startable || (args.receipt && args.preflightOnly) then Raises(OtherExc) else
      var code := ComparedCode(args, env);
      if code.Raises? then code
      else if env.durationBudget.Raises? then Raises(env.durationBudget.exc)
      else if env.writeManifest.Raises? then Raises(env.writeManifest.exc)
      else if !args.receipt || code.value != 0 || ReceiptRaise(env).None? then code
      else if ReceiptRaise(env) == Some(InterruptExc) then Raises(InterruptExc)
      else if env.removeReceipt.Raises? then Raises(env.removeReceipt.exc)
      else if env.rewriteManifest.Raises? then Raises(env.rewriteManifest.exc)
      else Value(5)
  }

  // ---------------------------------------------------------------- the run

  class GateRun {
    const args: Args
    const env: Env
    const digest: GateResult -> string
    var wrapper: int
    var preflight: Option<int>
    var pytest: Option<int>
    var interrupted: bool
    var error: bool
    var treeChanged: bool
    var gateBefore: Option<Snapshot>
    var sourceBefore: Option<Snapshot>
    var phases: seq<Phase>
    var junit: Option<JUnitTotals>
    var collection: Option<CollectionTotals>
    var manifest: Option<GateResult>
    var receipt: Option<Receipt>

    constructor (args: Args, env: Env, digest: GateResult -> string)
      ensures this.args == args && this.env == env && this.digest == digest
      ensures Fresh() && manifest.None? && receipt.None?
    {
      this.args, this.env, this.digest := args, env, digest;
      wrapper, preflight, pytest := 5, None, None;
      interrupted, error, treeChanged := false, false, false;
      gateBefore, sourceBefore, phases := None, None, [];
      junit, collection := None, None;
      manifest, receipt := None, None;
    }

    predicate Fresh()
      reads this
    {
      && wrapper == 5 && preflight.None? && pytest.None? && !treeChanged && gateBefore.None? && sourceBefore.None?
      && junit.None? && collection.None? && phases == [] && !interrupted && !error
    }

    /** What holds of the recorded fields whenever the exit code stands at 0. */
    predicate Consistent()
      reads this
    {
      wrapper == 0 ==>
        && !treeChanged && preflight == Some(0) && sourceBefore.Some?
        && (args.preflightOnly || (pytest == Some(0) && CleanReport()))
    }

    predicate CleanReport()
      reads this
    {
      junit.Some? && collection.Some? && junit.value.failures == 0 && junit.value.errors == 0
    }

    /** A part of the run ended as `end` says: with this exit code standing, or with this exception. */
    predicate Ended(exc: Option<Exc>, end: Outcome<int>)
      reads this
    {
      match end
      case Value(code) => exc.None? && wrapper == code
      case Raises(e) => exc == Some(e)
    }

    /** One supervised command: its result is recorded even when it is interrupted or raises. */
    method ExecutePhase(name: PhaseName, outcome: Outcome<int>) returns (r: Outcome<int>)
      modifies this`phases
      ensures r == outcome
      ensures phases == old(phases) + [Phase(name,
        match outcome case Value(code) => code case Raises(e) => if e == InterruptExc then 130 else 5)]
    {
      match outcome {
        case Value(code) => phases := phases + [Phase(name, code)];
        case Raises(exc) => phases := phases + [Phase(name, if exc == InterruptExc then 130 else 5)];
      }
      r := outcome;
    }

    /** The preflight phases in order, stopping at the first that does not exit 0. */
    method RunPreflight(specs: seq<Outcome<int>>) returns (exc: Option<Exc>)
      modifies this`phases, this`preflight
      ensures exc.None? ==> preflight.Some?
      ensures exc.None? && preflight == Some(0) <==> AllZero(specs)
      ensures exc.Some? ==> preflight == old(preflight)
      ensures match PreflightEnd(specs)
        case Value(code) => exc.None? && preflight == Some(code)
        case Raises(e) => exc == Some(e)
    {
      assert specs[0..] == specs;
      for i := 0 to |specs|
        invariant AllZero(specs[..i]) && preflight == old(preflight)
        invariant PreflightEnd(specs[i..]) == PreflightEnd(specs)
      {
        assert specs[i..][1..] == specs[i + 1..];
        var r := ExecutePhase(Preflight, specs[i]);
        if r.Raises? {
          assert specs[i] != Value(0);
          return Some(r.exc);
        }
        if r.value != 0 {
          assert specs[i] != Value(0);
          preflight := Some(r.value);
          return None;
        }
      }
      preflight := Some(0);
      exc := None;
    }

    /** The full run: pytest, its JUnit report and the collection evidence. */
    method RunPytest() returns (exc: Option<Exc>)
      requires junit.None? && collection.None? && wrapper == 0 && !treeChanged
      modifies this`phases, this`pytest, this`wrapper, this`error, this`junit, this`collection
      ensures Ended(exc, PytestEnd(env))
      ensures exc.None? && wrapper == 0 <==> PytestGreen(env)
      ensures exc.None? && wrapper == 0 ==>
        pytest == Some(0) && junit == Some(env.junit.value) && collection == Some(env.collection.value)
    {
      if env.makeCollectionDir.Raises? { return Some(env.makeCollectionDir.exc); }
      var r := ExecutePhase(PytestFull, env.pytestFull);
      if r.Raises? { return Some(r.exc); }
      pytest := Some(r.value);
      wrapper := r.value;
      if env.junitExists {
        match env.junit {
          case Value(totals) => junit := Some(totals);
          case Raises(e) =>
            if e != RuntimeExc { return Some(e); }
            error := true;
            if pytest == Some(0) { wrapper := 5; }
        }
      } else if pytest == Some(0) {
        error := true;
        wrapper := 5;
      }
      if pytest == Some(0) && junit.Some? && (junit.value.failures > 0 || junit.value.errors > 0) {
        error := true;
        wrapper := 5;
      }
      if pytest == Some(0) && junit.Some? {
        match env.collection {
          case Value(totals) => collection := Some(totals);
          case Raises(e) =>
            if e != RuntimeExc { return Some(e); }
            error := true;
            wrapper := 5;
        }
      }
      exc := None;
    }

    /** The protected block: preflight, the tree check after it, and the full run. */
    method Validate(before: Snapshot) returns (exc: Option<Exc>)
      requires env.gateSnapshot == Value(before) && wrapper == 5 && preflight.None? && pytest.None? && !treeChanged
      requires junit.None? && collection.None? && sourceBefore.Some?
      modifies this
      ensures gateBefore == old(gateBefore) && sourceBefore == old(sourceBefore) && interrupted == old(interrupted)
      ensures manifest == old(manifest) && receipt == old(receipt)
      ensures Ended(exc, ValidationEnd(args, env))
      ensures exc.None? && wrapper == 0 <==> ValidationGreen(args, env)
      ensures exc.None? ==> Consistent()
    {
      if env.preflightSpecs.Raises? { return Some(env.preflightSpecs.exc); }
      exc := RunPreflight(env.preflightSpecs.value);
      if exc.Some? { return; }
      wrapper := preflight.value;
      if env.postPreflightSnapshot.Raises? { return Some(env.postPreflightSnapshot.exc); }
      if env.postPreflightSnapshot.value != before {
        treeChanged, wrapper := true, 3;
      } else if preflight == Some(0) && !args.preflightOnly {
        exc := RunPytest();
      }
    }

    /** The `finally` of the protected block: a changed materialized tree overrides whatever the block found. */
    method CompareGateTree(before: Snapshot, pending: Option<Exc>) returns (exc: Option<Exc>)
      modifies this`wrapper, this`treeChanged
      ensures env.finalGateSnapshot == Value(before) ==>
        exc == pending && wrapper == old(wrapper) && treeChanged == old(treeChanged)
      ensures env.finalGateSnapshot != Value(before) ==>
        match env.finalGateSnapshot
        case Raises(e) => exc == Some(e)
        case Value(_) =>
          if env.gateStatus.Raises? then exc == Some(env.gateStatus.exc) else exc == pending && wrapper == 3
    {
      if env.finalGateSnapshot.Raises? { return Some(env.finalGateSnapshot.exc); }
      if env.finalGateSnapshot.value != before {
        treeChanged := true;
        if env.gateStatus.Raises? { return Some(env.gateStatus.exc); }
        wrapper := 3;
      }
      exc := pending;
    }

    /** Everything inside the materialized tree, and its removal. */
    method Materialized() returns (exc: Option<Exc>)
      requires wrapper == 5 && preflight.None? && pytest.None? && !treeChanged && junit.None? && collection.None?
      requires sourceBefore.Some?
      modifies this
      ensures sourceBefore == old(sourceBefore) && interrupted == old(interrupted)
      ensures manifest == old(manifest) && receipt == old(receipt)
      ensures Ended(exc, MaterializedEnd(args, env))
      ensures gateBefore.Some? <==> old(gateBefore).Some? || (env.materialize.Value? && env.gateSnapshot.Value?)
      ensures exc.None? && wrapper == 0 <==>
        env.materialize.Value? && env.gateSnapshot.Value? && env.subprocessEnv.Value? && ValidationGreen(args, env) &&
        env.finalGateSnapshot == env.gateSnapshot && env.removeMaterialized.Value?
      ensures exc.None? ==> Consistent()
    {
      if env.materialize.Raises? { return Some(env.materialize.exc); }
      if env.gateSnapshot.Raises? {
        exc := Some(env.gateSnapshot.exc);
      } else {
        gateBefore := Some(env.gateSnapshot.value);
        if env.subprocessEnv.Raises? {
          exc := Some(env.subprocessEnv.exc);
        } else {
          exc := Validate(env.gateSnapshot.value);
          exc := CompareGateTree(env.gateSnapshot.value, exc);
        }
      }
      // A removal problem raises on its own, but is only noted on an exception already under way.
      if env.removeMaterialized.Raises? && (exc.None? || env.removeMaterialized.exc != RuntimeExc) {
        exc := Some(env.removeMaterialized.exc);
      }
    }

    /** Admission under the lock, then the materialized run and the source tree check after it. */
    method Admit() returns (exc: Option<Exc>)
      requires Fresh()
      modifies this
      ensures manifest == old(manifest) && receipt == old(receipt) && !interrupted
      ensures Ended(exc, AdmitEnd(args, env))
      ensures sourceBefore.Some? <==> AdmissionRaise(args, env).None? && !Refused(args, env)
      ensures gateBefore.Some? <==> sourceBefore.Some? && env.materialize.Value? && env.gateSnapshot.Value?
      ensures exc.None? && wrapper == 0 <==>
        env.firstSnapshot.Value? && env.worktreeErrors == Value(0) &&
        (args.preflightOnly || env.committedTreeClean == Value(true)) && env.pytestRunning == Value(false) &&
        env.checkedSnapshot == env.firstSnapshot &&
        env.materialize.Value? && env.gateSnapshot.Value? && env.subprocessEnv.Value? && ValidationGreen(args, env) &&
        env.finalGateSnapshot == env.gateSnapshot && env.removeMaterialized.Value? &&
        env.sourceSnapshot == env.checkedSnapshot
      ensures exc.None? ==> Consistent()
      ensures sourceBefore.Some? ==> env.checkedSnapshot == Value(sourceBefore.value)
    {
      if env.firstSnapshot.Raises? { return Some(env.firstSnapshot.exc); }
      if env.worktreeErrors.Raises? { return Some(env.worktreeErrors.exc); }
      var errors := env.worktreeErrors.value;
      if !args.preflightOnly {
        if env.committedTreeClean.Raises? { return Some(env.committedTreeClean.exc); }
        if !env.committedTreeClean.value { errors := errors + 1; }
      }
      if env.pytestRunning.Raises? { return Some(env.pytestRunning.exc); }
      if env.pytestRunning.value { errors := errors + 1; }
      if env.checkedSnapshot.Raises? { return Some(env.checkedSnapshot.exc); }
      if env.checkedSnapshot.value != env.firstSnapshot.value {
        treeChanged := true;
        errors := errors + 1;
      }
      if errors > 0 {
        error := true;
        wrapper := if treeChanged then 3 else 2;
        return None;
      }
      sourceBefore := Some(env.checkedSnapshot.value);
      exc := Materialized();
      if exc.Some? { return; }
      if env.sourceSnapshot.Raises? { return Some(env.sourceSnapshot.exc); }
      if Some(env.sourceSnapshot.value) != sourceBefore {
        treeChanged, wrapper := true, 3;
      }
    }

    predicate LastIsPytest()
      reads this
    {
      phases != [] && phases[|phases| - 1].name == PytestFull
    }

    /** The handlers: which exit code and which recorded phase an exception leaves behind. */
    method Handle(exc: Exc)
      modifies this`wrapper, this`preflight, this`pytest, this`interrupted, this`error
      ensures wrapper == HandledCode(exc, gateBefore.Some?)
      ensures interrupted <==> old(interrupted) || exc == InterruptExc
      ensures error
      ensures pytest == if (exc != RuntimeExc || gateBefore.Some?) && LastIsPytest()
                        then Some(phases[|phases| - 1].exitCode) else old(pytest)
      ensures preflight ==
        if old(preflight).Some? || LastIsPytest() || (exc == RuntimeExc && gateBefore.None?) then old(preflight)
        else if phases != [] then Some(phases[|phases| - 1].exitCode)
        else if exc == RuntimeExc then Some(5) else None
    {
      error := true;
      match exc {
        case RuntimeExc =>
          if gateBefore.Some? {
            if phases != [] && phases[|phases| - 1].name == PytestFull {
              pytest := Some(phases[|phases| - 1].exitCode);
            } else if preflight.None? {
              preflight := Some(if phases != [] then phases[|phases| - 1].exitCode else 5);
            }
            wrapper := 5;
          } else {
            wrapper := 4;
          }
        case InterruptExc =>
          RecordLastPhase();
          interrupted := true;
          wrapper := 130;
        case OtherExc =>
          RecordLastPhase();
          wrapper := 5;
      }
    }

    method RecordLastPhase()
      modifies this`preflight, this`pytest
      ensures preflight == if old(preflight).None? && phases != [] && phases[|phases| - 1].name != PytestFull
                           then Some(phases[|phases| - 1].exitCode) else old(preflight)
      ensures pytest == if phases != [] && phases[|phases| - 1].name == PytestFull
                        then Some(phases[|phases| - 1].exitCode) else old(pytest)
    {
      if phases != [] {
        if phases[|phases| - 1].name == PytestFull {
          pytest := Some(phases[|phases| - 1].exitCode);
        } else if preflight.None? {
          preflight := Some(phases[|phases| - 1].exitCode);
        }
      }
    }

    function Result(): GateResult
      reads this
    {
      GateResult(wrapper, preflight, pytest, args.preflightOnly, interrupted, error, treeChanged, junit, collection)
    }

    /** The last look at the source tree: it can only take a 0 away. Answers what escapes, if anything. */
    method CompareSourceTree() returns (escaped: Option<Exc>)
      requires Consistent()
      modifies this`wrapper, this`treeChanged, this`error
      ensures escaped.None? ==> Consistent()
      ensures escaped.None? && wrapper == 0 <==>
        old(wrapper) == 0 && sourceBefore.Some? && env.lastSourceSnapshot == Value(sourceBefore.value)
      ensures escaped.None? && old(wrapper) != 0 ==> wrapper == old(wrapper)
      ensures escaped ==
        if sourceBefore.Some? && env.lastSourceSnapshot == Raises(InterruptExc) then Some(InterruptExc) else None
      ensures escaped.None? && old(wrapper) == 0 && sourceBefore.Some? ==>
        wrapper == if env.lastSourceSnapshot == Value(sourceBefore.value) then 0
        else if env.lastSourceSnapshot.Raises? then 5 else 3
      ensures sourceBefore.None? ==> wrapper == old(wrapper)
    {
      escaped := None;
      if sourceBefore.Some? {
        match env.lastSourceSnapshot {
          case Value(snapshot) =>
            if Some(snapshot) != sourceBefore {
              treeChanged := true;
              if wrapper == 0 { wrapper := 3; }
            }
          case Raises(e) =>
            if e == InterruptExc { return Some(e); }
            error := true;
            if wrapper == 0 { wrapper := 5; }
        }
      }
    }

    /** Issues the receipt over the manifest just written. */
    method WriteReceipt(result: GateResult) returns (exc: Option<Exc>)
      requires result == Result() && manifest == Some(result) && result.wrapper == 0 && Consistent() &&
        !args.preflightOnly
      modifies this`receipt
      ensures exc == ReceiptRaise(env)
      ensures exc.None? <==> ReceiptGranted(env)
      ensures exc.None? ==> receipt == Some(Receipt(digest(result), result))
    {
      if !env.collectionFileExists { return Some(RuntimeExc); }
      if env.indexIsHead.Raises? { return Some(env.indexIsHead.exc); }
      if !env.indexIsHead.value { return Some(RuntimeExc); }
      match env.receiptWrite {
        case RaisedBefore => return Some(OtherExc);
        case Interrupted => return Some(InterruptExc);
        case Written =>
          receipt := Some(Receipt(digest(result), result));
          return None;
        case RaisedAfter =>
          receipt := Some(Receipt(digest(result), result));
          return Some(OtherExc);
      }
    }

    /** The outer `finally`: the last tree check, the manifest, and the receipt or its withdrawal. */
    method Finish() returns (r: Outcome<int>)
      requires Consistent() && manifest.None? && receipt.None? && !(args.receipt && args.preflightOnly) &&
        args.startable
      requires wrapper == CodeOf(args, env) && (sourceBefore.Some? <==> Entered(args, env))
      requires sourceBefore.Some? ==> env.checkedSnapshot == Value(sourceBefore.value)
      modifies this
      ensures r == Answer(args, env)
      ensures sourceBefore == old(sourceBefore) && interrupted == old(interrupted)
      ensures r.Value? ==> r.value == wrapper && manifest == Some(Result()) && Consistent()
      ensures r.Value? ==> (receipt.Some? <==> args.receipt && wrapper == 0)
      ensures r.Value? && receipt.Some? ==> receipt == Some(Receipt(digest(manifest.value), manifest.value))
      ensures r == Value(0) <==>
        old(wrapper) == 0 && sourceBefore.Some? && env.lastSourceSnapshot == Value(sourceBefore.value) &&
        env.durationBudget.Value? && env.writeManifest.Value? && (args.receipt ==> ReceiptGranted(env))
    {
      var escaped := CompareSourceTree();
      assert escaped.None? ==> ComparedCode(args, env) == Value(wrapper);
      if escaped.Some? { return Raises(escaped.value); }
      if env.durationBudget.Raises? { return Raises(env.durationBudget.exc); }
      if env.writeManifest.Raises? { return Raises(env.writeManifest.exc); }
      manifest := Some(Result());
      if args.receipt && wrapper == 0 {
        var exc := WriteReceipt(Result());
        if exc.Some? {
          if exc.value == InterruptExc { return Raises(InterruptExc); }
          if env.removeReceipt.Raises? { return Raises(env.removeReceipt.exc); }
          receipt := None;
          wrapper, error := 5, true;
          if env.rewriteManifest.Raises? { return Raises(env.rewriteManifest.exc); }
          manifest := Some(Result());
        }
      }
      r := Value(wrapper);
    }
  }

  /** A whole run of the gate. It answers 0 exactly when everything was green and could be recorded;
      whenever it answers at all, the manifest on disk carries that answer, and a receipt is on disk
      exactly when one was asked for and the answer is 0, bound to that manifest. */
  method RunGate(args: Args, env: Env, digest: GateResult -> string) returns (r: Outcome<int>, run: GateRun)
    ensures r == Answer(args, env)
    ensures r == Value(0) <==>
      args.startable && !(args.receipt && args.preflightOnly) && Green(args, env) &&
      env.durationBudget.Value? && env.writeManifest.Value?
    ensures r.Value? ==> run.manifest.Some? && run.manifest.value.wrapper == r.value
    ensures r.Value? ==> run.manifest.value.preflightOnly == args.preflightOnly
    ensures r.Value? ==> (run.manifest.value.interrupted <==> MainEnd(args, env) == Raises(InterruptExc))
    ensures r.Value? ==> (run.receipt.Some? <==> args.receipt && r.value == 0)
    ensures r.Value? && run.receipt.Some? ==>
      run.receipt.value.manifestDigest == digest(run.manifest.value) && run.receipt.value.result == run.manifest.value
    ensures r == Value(0) ==> var m := run.manifest.value;
      !m.treeChanged && m.preflight == Some(0) &&
      (args.preflightOnly ||
       (m.pytest == Some(0) && m.junit.Some? && m.junit.value.failures == 0 && m.junit.value.errors == 0 &&
         m.collection.Some?))
  {
    run := new GateRun(args, env, digest);
    if !args.startable || (args.receipt && args.preflightOnly) { return Raises(OtherExc), run; }
    var exc;
    if env.openAndLock.Raises? {
      exc := Some(env.openAndLock.exc);
    } else {
      exc := run.Admit();
      if env.unlockAndClose.Raises? { exc := Some(env.unlockAndClose.exc); }
    }
    if exc.Some? { run.Handle(exc.value); }
    r := run.Finish();
  }
}
