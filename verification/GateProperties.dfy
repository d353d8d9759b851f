/** What the answer of the canonical gate means. */
module GateProperties {
  import opened Collections
  import opened Gate
  import opened GateEvidence
  import opened JUnit
  import opened Ordering
  import opened Wrappers

  // ---------------------------------------------------------------- the exit codes

  /** The code is one that a preflight phase or pytest itself exited with. */
  predicate PhaseCode(env: Env, code: int) {
    (env.preflightSpecs.Value? && Outcome.Value(code) in env.preflightSpecs.value) ||
      env.pytestFull == Outcome.Value(code)
  }

  /** Some comparison of the source tree or of the materialized tree found a difference, or could not be made. */
  predicate TreeMoved(env: Env) {
    || env.checkedSnapshot != env.firstSnapshot || env.postPreflightSnapshot != env.gateSnapshot
    || env.finalGateSnapshot != env.gateSnapshot || env.sourceSnapshot != env.checkedSnapshot
    || env.lastSourceSnapshot != env.checkedSnapshot
  }

  lemma {:induction false} PreflightCode(specs: seq<Outcome<int>>)
    ensures PreflightEnd(specs) == Outcome.Value(0) <==> AllZero(specs)
    ensures PreflightEnd(specs) != Outcome.Value(0) ==> PreflightEnd(specs) in specs
  {
    if specs != [] {
      PreflightCode(specs[1..]);
      assert specs == [specs[0]] + specs[1..];
    }
  }

  lemma ValidationCode(args: Args, env: Env, code: int)
    requires ValidationEnd(args, env) == Outcome.Value(code)
    ensures code in {0, 5} || PhaseCode(env, code) || (code == 3 && env.postPreflightSnapshot != env.gateSnapshot)
  {
    PreflightCode(env.preflightSpecs.value);
  }

  /** An exit code is 0, 2, 3, 4, 5, 130 or a phase's own; 2 means that admission complained, 3 that a tree moved, 4
      that an error came before the materialized tree was looked at, and 130 an interrupt. */
  lemma CodesMean(args: Args, env: Env, code: int)
    requires Answer(args, env) == Outcome.Value(code)
    ensures code in {0, 2, 3, 4, 5, 130} || PhaseCode(env, code)
    ensures code == 2 && !PhaseCode(env, code) ==> Refused(args, env)
    ensures code == 3 && !PhaseCode(env, code) ==> TreeMoved(env)
    ensures code == 4 && !PhaseCode(env, code) ==> !Snapshotted(args, env) && MainEnd(args, env) == Raises(RuntimeExc)
    ensures code == 130 && !PhaseCode(env, code) ==> MainEnd(args, env) == Raises(InterruptExc)
  {
    var validated := ValidationEnd(args, env);
    if validated.Value? { ValidationCode(args, env, validated.value); }
  }

  lemma ValidationZero(args: Args, env: Env)
    requires env.preflightSpecs.Value? ==>
      (PreflightEnd(env.preflightSpecs.value) == Outcome.Value(0) <==> AllZero(env.preflightSpecs.value))
    ensures env.gateSnapshot.Value? ==> (ValidationEnd(args, env) == Outcome.Value(0) <==> ValidationGreen(args, env))
  {
  }

  lemma AdmitZero(args: Args, env: Env)
    requires env.gateSnapshot.Value? ==> (ValidationEnd(args, env) == Outcome.Value(0) <==> ValidationGreen(args, env))
    ensures env.openAndLock.Value? && env.unlockAndClose.Value? ==>
      (AdmitEnd(args, env) == Outcome.Value(0) <==>
        Admitted(args, env) && ValidationGreen(args, env) && Cleaned(env) && env.gateSnapshot.Value? &&
        env.finalGateSnapshot == env.gateSnapshot && env.sourceSnapshot == env.checkedSnapshot)
  {
  }

  /** The gate answers 0 exactly when every part was green and could be recorded. */
  lemma ZeroIsGreen(args: Args, env: Env)
    ensures Answer(args, env) == Outcome.Value(0) <==>
      args.startable && !(args.receipt && args.preflightOnly) && Green(args, env) &&
      env.durationBudget.Value? && env.writeManifest.Value?
  {
    if env.preflightSpecs.Value? { PreflightCode(env.preflightSpecs.value); }
    ValidationZero(args, env);
    AdmitZero(args, env);
  }

  // ---------------------------------------------------------------- one trouble, one code

  /** The steps of a run up to its last validation, in the order in which the gate takes them. */
  datatype Step =
    | Open | FirstLook | Worktree | Committed | Running | SecondLook | Materialize | GateLook | Environment | Specs
    | Preflight | AfterPreflight | MakeDirectory | Pytest | Junit | Collection

  function Number(step: Step): nat {
    match step
    case Open => 0
    case FirstLook => 1
    case Worktree => 2
    case Committed => 3
    case Running => 4
    case SecondLook => 5
    case Materialize => 6
    case GateLook => 7
    case Environment => 8
    case Specs => 9
    case Preflight => 10
    case AfterPreflight => 11
    case MakeDirectory => 12
    case Pytest => 13
    case Junit => 14
    case Collection => 15
  }

  function Done<T>(o: Outcome<T>): Outcome<bool> { if o.Raises? then Raises(o.exc) else Value(true) }

  function Judged<T(==)>(o: Outcome<T>, good: T): Outcome<bool> {
    if o.Raises? then Raises(o.exc) else Value(o.value == good)
  }

  /** How a step ends: it raises, or it is fine or not. `i` is the first preflight phase that does not exit 0, if
      any. */
  function Ends(args: Args, env: Env, i: nat, step: Step): Outcome<bool> {
    match step
    case Open => Done(env.openAndLock)
    case FirstLook => Done(env.firstSnapshot)
    case Worktree => Judged(env.worktreeErrors, 0)
    case Committed => if args.preflightOnly then Value(true) else Judged(env.committedTreeClean, true)
    case Running => Judged(env.pytestRunning, false)
    case SecondLook =>
      if env.checkedSnapshot.Raises? then Raises(env.checkedSnapshot.exc)
      else Value(env.checkedSnapshot == env.firstSnapshot)
    case Materialize => Done(env.materialize)
    case GateLook => Done(env.gateSnapshot)
    case Environment => Done(env.subprocessEnv)
    case Specs => Done(env.preflightSpecs)
    case Preflight =>
      if env.preflightSpecs.Raises? || i >= |env.preflightSpecs.value| then Value(true)
      else Judged(env.preflightSpecs.value[i], 0)
    case AfterPreflight =>
      if env.postPreflightSnapshot.Raises? then Raises(env.postPreflightSnapshot.exc)
      else Value(env.postPreflightSnapshot == env.gateSnapshot)
    case MakeDirectory => Done(env.makeCollectionDir)
    case Pytest => Judged(env.pytestFull, 0)
    case Junit =>
      if !env.junitExists then Value(false) else if env.junit.Raises? then Raises(env.junit.exc)
      else Value(env.junit.value.failures == 0 && env.junit.value.errors == 0)
    case Collection => Done(env.collection)
  }

  /** The first phase that does not exit 0 is number `i`, or there is none. */
  ghost predicate FirstFailing(env: Env, i: nat) {
    env.preflightSpecs.Value? ==>
      i <= |env.preflightSpecs.value| && (forall j :: 0 <= j < i ==> env.preflightSpecs.value[j] == Outcome.Value(0)) &&
      (i < |env.preflightSpecs.value| ==> env.preflightSpecs.value[i] != Outcome.Value(0))
  }

  lemma {:induction false} FirstPhase(specs: seq<Outcome<int>>, i: nat)
    requires i <= |specs| && forall j :: 0 <= j < i ==> specs[j] == Outcome.Value(0)
    requires i < |specs| ==> specs[i] != Outcome.Value(0)
    ensures PreflightEnd(specs) == if i < |specs| then specs[i] else Outcome.Value(0)
  {
    if i > 0 { FirstPhase(specs[1..], i - 1); }
  }

  /** Every look and every clean-up that is still made ends well. */
  ghost predicate EndsWell(env: Env, step: Step) {
    && env.unlockAndClose.Value? && env.durationBudget.Value? && env.writeManifest.Value?
    && (Number(step) > Number(SecondLook) ==> env.lastSourceSnapshot == env.checkedSnapshot)
    && (Number(step) > Number(SecondLook) ==> env.sourceSnapshot == env.checkedSnapshot)
    && (Number(step) > Number(Materialize) ==> env.removeMaterialized.Value?)
    && (Number(step) > Number(Environment) ==> env.finalGateSnapshot == env.gateSnapshot)
  }

  /** All steps before this one are fine, and this one is not. */
  ghost predicate FirstTrouble(args: Args, env: Env, i: nat, step: Step) {
    && args.startable && !(args.receipt && args.preflightOnly) && FirstFailing(env, i)
    && (Number(step) > Number(AfterPreflight) ==> !args.preflightOnly)
    && (forall s: Step :: Number(s) < Number(step) ==> Ends(args, env, i, s) == Outcome.Value(true))
    && Ends(args, env, i, step) != Outcome.Value(true) && EndsWell(env, step)
  }

  /** What the steps before one leave behind. */
  lemma EarlierAdmission(args: Args, env: Env, i: nat, step: Step)
    requires FirstTrouble(args, env, i, step)
    ensures Number(step) > 0 ==> env.openAndLock.Value?
    ensures Number(step) > 1 ==> env.firstSnapshot.Value?
    ensures Number(step) > 2 ==> env.worktreeErrors == Outcome.Value(0)
    ensures Number(step) > 3 ==> args.preflightOnly || env.committedTreeClean == Outcome.Value(true)
    ensures Number(step) > 4 ==> env.pytestRunning == Outcome.Value(false)
    ensures Number(step) > 5 ==> env.checkedSnapshot == env.firstSnapshot
  {
    var n := Number(step);
    assert n > 0 ==> Ends(args, env, i, Open) == Outcome.Value(true);
    assert n > 1 ==> Ends(args, env, i, FirstLook) == Outcome.Value(true);
    assert n > 2 ==> Ends(args, env, i, Worktree) == Outcome.Value(true);
    assert n > 3 ==> Ends(args, env, i, Committed) == Outcome.Value(true);
    assert n > 4 ==> Ends(args, env, i, Running) == Outcome.Value(true);
    assert n > 5 ==> Ends(args, env, i, SecondLook) == Outcome.Value(true);
  }

  lemma EarlierSetUp(args: Args, env: Env, i: nat, step: Step)
    requires FirstTrouble(args, env, i, step)
    ensures Number(step) > 6 ==> env.materialize.Value?
    ensures Number(step) > 7 ==> env.gateSnapshot.Value?
    ensures Number(step) > 8 ==> env.subprocessEnv.Value?
    ensures Number(step) > 9 ==> env.preflightSpecs.Value?
    ensures Number(step) > 10 ==> PreflightEnd(env.preflightSpecs.value) == Outcome.Value(0)
  {
    var n := Number(step);
    assert n > 6 ==> Ends(args, env, i, Materialize) == Outcome.Value(true);
    assert n > 7 ==> Ends(args, env, i, GateLook) == Outcome.Value(true);
    assert n > 8 ==> Ends(args, env, i, Environment) == Outcome.Value(true);
    assert n > 9 ==> Ends(args, env, i, Specs) == Outcome.Value(true);
    assert n > 10 ==> Ends(args, env, i, Step.Preflight) == Outcome.Value(true);
    if n > 10 { FirstPhase(env.preflightSpecs.value, i); }
  }

  lemma EarlierTests(args: Args, env: Env, i: nat, step: Step)
    requires FirstTrouble(args, env, i, step)
    ensures Number(step) > 11 ==> env.postPreflightSnapshot == env.gateSnapshot
    ensures Number(step) > 12 ==> env.makeCollectionDir.Value?
    ensures Number(step) > 13 ==> env.pytestFull == Outcome.Value(0)
    ensures Number(step) > 14 ==>
      env.junitExists && env.junit.Value? && env.junit.value.failures == 0 && env.junit.value.errors == 0
  {
    var n := Number(step);
    assert n > 11 ==> Ends(args, env, i, AfterPreflight) == Outcome.Value(true);
    assert n > 12 ==> Ends(args, env, i, MakeDirectory) == Outcome.Value(true);
    assert n > 13 ==> Ends(args, env, i, Pytest) == Outcome.Value(true);
    assert n > 14 ==> Ends(args, env, i, Junit) == Outcome.Value(true);
  }

  /** A code that stands is the answer, unless it is a 0 that still has a receipt to write. */
  lemma StandingCode(args: Args, env: Env, step: Step, code: int)
    requires args.startable && !(args.receipt && args.preflightOnly) && EndsWell(env, step) && code != 0
    requires CodeOf(args, env) == code && (Entered(args, env) ==> Number(step) > Number(SecondLook))
    ensures Answer(args, env) == Outcome.Value(code)
  {
  }

  /** How the main part ends when a step raises. */
  lemma RaisedEnd(args: Args, env: Env, i: nat, step: Step)
    requires FirstTrouble(args, env, i, step) && Ends(args, env, i, step).Raises?
    ensures var exc := Ends(args, env, i, step).exc;
      MainEnd(args, env) == Raises(exc) ||
      (exc == RuntimeExc && Number(step) > 13 && MainEnd(args, env) == Outcome.Value(5))
    ensures Snapshotted(args, env) <==> Number(step) > Number(GateLook)
    ensures Entered(args, env) <==> Number(step) > Number(SecondLook)
  {
    EarlierAdmission(args, env, i, step);
    EarlierSetUp(args, env, i, step);
    EarlierTests(args, env, i, step);
    if step == Step.Preflight { FirstPhase(env.preflightSpecs.value, i); }
  }

  /** A step that raises: an interrupt gives 130, a refusal before the first look at the materialized tree 4, anything
      else 5. */
  lemma RaisedCode(args: Args, env: Env, i: nat, step: Step)
    requires FirstTrouble(args, env, i, step) && Ends(args, env, i, step).Raises?
    ensures Answer(args, env) == Outcome.Value(match Ends(args, env, i, step).exc
      case InterruptExc => 130
      case RuntimeExc => if Number(step) <= Number(GateLook) then 4 else 5
      case OtherExc => 5)
  {
    RaisedEnd(args, env, i, step);
    StandingCode(args, env, step, CodeOf(args, env));
  }

  /** How the main part ends when a step ends and is not fine. */
  lemma TroubleEnd(args: Args, env: Env, i: nat, step: Step)
    requires FirstTrouble(args, env, i, step) && Ends(args, env, i, step) == Outcome.Value(false)
    requires step in {Worktree, Committed, Running} ==>
      (forall s :: s in {Committed, Running, SecondLook} ==> Ends(args, env, i, s).Value?)
    requires step == Step.Preflight ==> env.postPreflightSnapshot == env.gateSnapshot
    requires step == Pytest && env.junitExists ==> env.junit.Value?
    requires step == Junit && env.junit.Value? ==> env.collection.Value?
    ensures MainEnd(args, env) == Outcome.Value(match step
      case Preflight => env.preflightSpecs.value[i].value
      case Pytest => env.pytestFull.value
      case AfterPreflight => 3
      case Junit => 5
      case _ => if env.checkedSnapshot != env.firstSnapshot then 3 else 2)
    ensures MainEnd(args, env) != Outcome.Value(0)
    ensures Entered(args, env) <==> Number(step) > Number(SecondLook)
  {
    EarlierAdmission(args, env, i, step);
    EarlierSetUp(args, env, i, step);
    EarlierTests(args, env, i, step);
    if step in {Worktree, Committed, Running} {
      assert Ends(args, env, i, Committed).Value? && Ends(args, env, i, Running).Value?;
      assert Ends(args, env, i, SecondLook).Value?;
    }
    if step == Step.Preflight { FirstPhase(env.preflightSpecs.value, i); }
    if step == AfterPreflight { FirstPhase(env.preflightSpecs.value, i); }
  }

  /** A step that ends but is not fine: its own code for a phase, 3 for a tree that moved, 2 for a complaint at
      admission, 5 for a report that does not hold up. */
  lemma TroubleCode(args: Args, env: Env, i: nat, step: Step)
    requires FirstTrouble(args, env, i, step) && Ends(args, env, i, step) == Outcome.Value(false)
    requires step in {Worktree, Committed, Running} ==>
      (forall s :: s in {Committed, Running, SecondLook} ==> Ends(args, env, i, s).Value?)
    requires step == Step.Preflight ==> env.postPreflightSnapshot == env.gateSnapshot
    requires step == Pytest && env.junitExists ==> env.junit.Value?
    requires step == Junit && env.junit.Value? ==> env.collection.Value?
    ensures Answer(args, env) == Outcome.Value(match step
      case Preflight => env.preflightSpecs.value[i].value
      case Pytest => env.pytestFull.value
      case AfterPreflight => 3
      case Junit => 5
      case _ => if env.checkedSnapshot != env.firstSnapshot then 3 else 2)
  {
    TroubleEnd(args, env, i, step);
    StandingCode(args, env, step, CodeOf(args, env));
  }

  /** A green validation during which a tree moved answers 3. */
  lemma MovedTree(args: Args, env: Env)
    requires args.startable && !(args.receipt && args.preflightOnly) && Admitted(args, env) && Cleaned(env)
    requires env.gateSnapshot.Value? && ValidationGreen(args, env)
    requires env.finalGateSnapshot.Value? && env.sourceSnapshot.Value? && env.lastSourceSnapshot.Value?
    requires env.gateStatus.Value? && env.durationBudget.Value? && env.writeManifest.Value?
    requires env.finalGateSnapshot != env.gateSnapshot || env.sourceSnapshot != env.checkedSnapshot ||
      env.lastSourceSnapshot != env.checkedSnapshot
    ensures Answer(args, env) == Outcome.Value(3)
  {
    PreflightCode(env.preflightSpecs.value);
    ValidationZero(args, env);
  }

  /** A green run whose receipt cannot be written answers 5, unless writing it was interrupted. */
  lemma ReceiptRefused(args: Args, env: Env)
    requires args.startable && args.receipt && !args.preflightOnly && Green(args.(receipt := false), env)
    requires env.durationBudget.Value? && env.writeManifest.Value? && !ReceiptGranted(env)
    requires env.removeReceipt.Value? && env.rewriteManifest.Value?
    requires env.indexIsHead != Raises(InterruptExc) && env.receiptWrite != Interrupted
    ensures Answer(args, env) == Outcome.Value(5)
  {
    PreflightCode(env.preflightSpecs.value);
    ValidationZero(args, env);
    AdmitZero(args, env);
  }

  /** The looks and clean-ups after a validation. */
  datatype LateStep = FinalLook | Removal | SourceLook | Unlock | LastLook

  function LateEnds(env: Env, step: LateStep): Outcome<bool> {
    match step
    case FinalLook =>
      if env.finalGateSnapshot.Raises? then Raises(env.finalGateSnapshot.exc)
      else Value(env.finalGateSnapshot == env.gateSnapshot)
    case Removal => Done(env.removeMaterialized)
    case SourceLook =>
      if env.sourceSnapshot.Raises? then Raises(env.sourceSnapshot.exc)
      else Value(env.sourceSnapshot == env.checkedSnapshot)
    case Unlock => Done(env.unlockAndClose)
    case LastLook =>
      if env.lastSourceSnapshot.Raises? then Raises(env.lastSourceSnapshot.exc)
      else Value(env.lastSourceSnapshot == env.checkedSnapshot)
  }

  /** Admitted and set up, with a validation that ended in `code`, and everything recorded. */
  ghost predicate Validated(args: Args, env: Env, code: int) {
    && args.startable && !(args.receipt && args.preflightOnly) && Admitted(args, env)
    && env.materialize.Value? && env.gateSnapshot.Value? && env.subprocessEnv.Value?
    && ValidationEnd(args, env) == Outcome.Value(code) && env.durationBudget.Value? && env.writeManifest.Value?
  }

  /** A late step that raises takes the code of the validation away: 130 for an interrupt, else 5. Only the last look
      lets a code other than 0 stand, and an interrupt of it escapes. */
  lemma LateRaise(args: Args, env: Env, code: int, step: LateStep, exc: Exc)
    requires Validated(args, env, code) && LateEnds(env, step) == Raises(exc)
    requires forall s: LateStep :: s != step ==> LateEnds(env, s) == Outcome.Value(true)
    ensures Answer(args, env) ==
      if step != LastLook then Outcome.Value(if exc == InterruptExc then 130 else 5)
      else if exc == InterruptExc then Raises(InterruptExc) else Outcome.Value(if code != 0 then code else 5)
  {
    assert step == FinalLook || LateEnds(env, FinalLook) == Outcome.Value(true);
    assert step == Removal || LateEnds(env, Removal) == Outcome.Value(true);
    assert step == SourceLook || LateEnds(env, SourceLook) == Outcome.Value(true);
    assert step == Unlock || LateEnds(env, Unlock) == Outcome.Value(true);
    assert step == LastLook || LateEnds(env, LastLook) == Outcome.Value(true);
  }

  /** A code other than 0 outlives a source tree that moved at the very end. */
  lemma CodeOutlivesMove(args: Args, env: Env, code: int)
    requires Validated(args, env, code) && code != 0 && env.lastSourceSnapshot != Raises(InterruptExc)
    requires forall s: LateStep :: s != LastLook ==> LateEnds(env, s) == Outcome.Value(true)
    ensures Answer(args, env) == Outcome.Value(code)
  {
    assert LateEnds(env, FinalLook) == Outcome.Value(true) && LateEnds(env, Removal) == Outcome.Value(true);
    assert LateEnds(env, SourceLook) == Outcome.Value(true) && LateEnds(env, Unlock) == Outcome.Value(true);
  }

  /** An exception of the validation outlives a materialized tree that moved, and a removal that fails. */
  lemma RaiseOutlives(args: Args, env: Env, exc: Exc)
    requires args.startable && !(args.receipt && args.preflightOnly) && Admitted(args, env)
    requires env.materialize.Value? && env.gateSnapshot.Value? && env.subprocessEnv.Value?
    requires ValidationEnd(args, env) == Raises(exc) && env.finalGateSnapshot.Value? && env.gateStatus.Value?
    requires env.removeMaterialized.Value? || env.removeMaterialized == Raises(RuntimeExc)
    requires env.unlockAndClose.Value? && env.lastSourceSnapshot == env.checkedSnapshot
    requires env.durationBudget.Value? && env.writeManifest.Value?
    ensures Answer(args, env) == Outcome.Value(if exc == InterruptExc then 130 else 5)
  {
  }

  // ---------------------------------------------------------------- what 0 says of the tests

  /** The JUnit totals are those that reading this report gives. */
  ghost predicate JUnitRead(env: Env, report: Report, required: Option<set<string>>) {
    env.junit.Value? ==>
      var cases := CasesOf(SuitesOf(report));
      && Accepted(report, required) && env.junit.value.tests == |cases|
      && env.junit.value.failures == Tally(cases, FailureTag) && env.junit.value.errors == Tally(cases, ErrorTag)
  }

  /** The collection was validated on this worker evidence, against those totals. */
  ghost predicate CollectionRead(env: Env, e: Evidence, n: nat, required: set<string>, digest: seq<string> -> string) {
    env.junit.Value? && env.collection.Value? ==> Valid(e, n, required, env.junit.value.tests, digest)
  }

  /** A full run that answers 0: the workers executed the collection, each node exactly once; JUnit has a record for
      each of them, and no record is a failure or an error. */
  lemma ZeroMeansRanAndPassed(args: Args, env: Env, report: Report, census: Option<set<string>>, e: Evidence, n: nat,
                              required: set<string>, digest: seq<string> -> string, collected: seq<string>)
    requires Answer(args, env) == Outcome.Value(0) && !args.preflightOnly
    requires JUnitRead(env, report, census) && CollectionRead(env, e, n, required, digest)
    requires 0 in e.workers && e.workers[0].Readable? && e.workers[0].manifest.collected == Some(collected)
    ensures Distinct(collected) && AllOf(Executed(e, n)) == multiset(collected)
    ensures var cases := CasesOf(SuitesOf(report));
      |cases| == |collected| && forall i :: 0 <= i < |cases| ==> Harmless(cases[i])
  {
    ZeroIsGreen(args, env);
    assert PytestGreen(env);
    CanonicalDistinct(collected);
    ValidIsPartition(e, n, required, env.junit.value.tests, digest, collected);
    CleanTotalsMean(report, census, CasesOf(SuitesOf(report)));
  }
}
