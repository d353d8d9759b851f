/** The gate's reading of pytest's JUnit report: declared counters against the testcase records. */
module JUnit {
  import opened Wrappers
  import opened Text

  datatype Tag = FailureTag | ErrorTag | SkippedTag

  /** A testcase element: its terminal outcome children and the file it names. */
  datatype CaseRecord = CaseRecord(outcomes: seq<Tag>, file: Option<string>)

  /** A suite: a counter or the time is absent when its attribute is not a number, and 0 when there is no
      attribute. `cases` are all testcases below it. */
  datatype Suite = Suite(
    tests: Option<int>, failures: Option<int>, errors: Option<int>, skipped: Option<int>, time: Option<real>,
    cases: seq<CaseRecord>)

  datatype Report = Unreadable | OneSuite(suite: Suite) | Suites(suites: seq<Suite>) | OtherRoot

  datatype JUnitTotals = JUnitTotals(
    tests: nat, failures: nat, errors: nat, skipped: nat, time: real, extraReports: nat)

  datatype JUnitError =
    | ReportUnreadable | UnexpectedRoot | NoSuites | NotAnInteger | MoreRecordsThanDeclared | NotANumber | NegativeCount
    | CategoriesExceedTests | NothingExecuted | SeveralOutcomes | CountersDisagree | FilesOmitted

  predicate AllTimed(suites: seq<Suite>) { forall i :: 0 <= i < |suites| ==> suites[i].time.Some? }

  /** The suites' times added up. */
  ghost function TimeOf(suites: seq<Suite>): real {
    if suites == [] then 0.0 else
      var last := suites[|suites| - 1];
      TimeOf(suites[..|suites| - 1]) + if last.time.Some? then last.time.value else 0.0
  }

  function SuitesOf(report: Report): seq<Suite> {
    match report
    case OneSuite(s) => [s]
    case Suites(ss) => ss
    case _ => []
  }

  predicate Counted(s: Suite) { s.tests.Some? && s.failures.Some? && s.errors.Some? && s.skipped.Some? }

  predicate AllCounted(suites: seq<Suite>) { forall i :: 0 <= i < |suites| ==> Counted(suites[i]) }

  datatype Counter = Tests | Failures | Errors | Skips

  function Number(s: Suite, counter: Counter): int {
    var n := match counter
      case Tests => s.tests
      case Failures => s.failures
      case Errors => s.errors
      case Skips => s.skipped;
    if n.Some? then n.value else 0
  }

  /** A declared counter, added up over the suites. */
  ghost function Declared(suites: seq<Suite>, counter: Counter): int {
    if suites == [] then 0 else Declared(suites[..|suites| - 1], counter) + Number(suites[|suites| - 1], counter)
  }

  ghost function CasesOf(suites: seq<Suite>): seq<CaseRecord> {
    if suites == [] then [] else CasesOf(suites[..|suites| - 1]) + suites[|suites| - 1].cases
  }

  /** The testcases whose one outcome is `tag`. */
  ghost function Tally(cases: seq<CaseRecord>, tag: Tag): nat {
    if cases == [] then 0 else Tally(cases[..|cases| - 1], tag) + if cases[|cases| - 1].outcomes == [tag] then 1 else 0
  }

  predicate OneOutcome(cases: seq<CaseRecord>) { forall i :: 0 <= i < |cases| ==> |cases[i].outcomes| <= 1 }

  /** The files the testcases name, as the census writes paths. */
  function Observed(cases: seq<CaseRecord>): set<string> {
    set i | 0 <= i < |cases| && cases[i].file.Some? && cases[i].file.value != "" :: Normalized(cases[i].file.value)
  }

  ghost predicate CountersAgree(suites: seq<Suite>, cases: seq<CaseRecord>) {
    && Declared(suites, Failures) == Tally(cases, FailureTag)
    && Declared(suites, Errors) == Tally(cases, ErrorTag)
    && Declared(suites, Skips) == Tally(cases, SkippedTag)
  }

  /** Which reports the gate accepts: the declared counters are those of the records, something was not
      skipped, and every required file was seen. */
  ghost predicate Accepted(report: Report, required: Option<set<string>>) {
    var suites := SuitesOf(report);
    var cases := CasesOf(suites);
    && suites != [] && AllCounted(suites) && AllTimed(suites)
    && Declared(suites, Tests) >= |cases|
    && OneOutcome(cases) && CountersAgree(suites, cases)
    && Tally(cases, SkippedTag) < |cases|
    && (required.Some? ==> required.value <= Observed(cases))
  }

  // ---------------------------------------------------------------- the reader

  method SumCounters(suites: seq<Suite>) returns (r: Option<(int, int, int, int)>)
    ensures r.Some? <==> AllCounted(suites)
    ensures r.Some? ==> r.value == (Declared(suites, Tests), Declared(suites, Failures),
                                    Declared(suites, Errors), Declared(suites, Skips))
  {
    var tests, failures, errors, skipped := 0, 0, 0, 0;
    for i := 0 to |suites|
      invariant AllCounted(suites[..i])
      invariant (tests, failures, errors, skipped) ==
        (Declared(suites[..i], Tests), Declared(suites[..i], Failures),
         Declared(suites[..i], Errors), Declared(suites[..i], Skips))
    {
      var s := suites[i];
      assert suites[..i + 1][..i] == suites[..i];
      if !(s.tests.Some? && s.failures.Some? && s.errors.Some? && s.skipped.Some?) { return None; }
      tests, failures := tests + s.tests.value, failures + s.failures.value;
      errors, skipped := errors + s.errors.value, skipped + s.skipped.value;
    }
    assert suites[..|suites|] == suites;
    r := Some((tests, failures, errors, skipped));
  }

  method CollectCases(suites: seq<Suite>) returns (cases: seq<CaseRecord>)
    ensures cases == CasesOf(suites)
  {
    cases := [];
    for i := 0 to |suites|
      invariant cases == CasesOf(suites[..i])
    {
      assert suites[..i + 1][..i] == suites[..i];
      cases := cases + suites[i].cases;
    }
    assert suites[..|suites|] == suites;
  }

  lemma TallyStep(cases: seq<CaseRecord>, i: nat, tag: Tag)
    requires i < |cases|
    ensures Tally(cases[..i + 1], tag) == Tally(cases[..i], tag) + if cases[i].outcomes == [tag] then 1 else 0
  {
    assert cases[..i + 1][..i] == cases[..i];
  }

  method CountOne(outcomes: seq<Tag>, failures0: nat, errors0: nat, skipped0: nat)
    returns (failures: nat, errors: nat, skipped: nat)
    requires |outcomes| <= 1
    ensures failures == failures0 + if outcomes == [FailureTag] then 1 else 0
    ensures errors == errors0 + if outcomes == [ErrorTag] then 1 else 0
    ensures skipped == skipped0 + if outcomes == [SkippedTag] then 1 else 0
  {
    failures, errors, skipped := failures0, errors0, skipped0;
    if outcomes != [] {
      assert outcomes == [outcomes[0]];
      match outcomes[0]
      case FailureTag => failures := failures + 1;
      case ErrorTag => errors := errors + 1;
      case SkippedTag => skipped := skipped + 1;
    }
  }

  /** The outcomes as recorded, or nothing when a testcase has several. */
  method CountOutcomes(cases: seq<CaseRecord>) returns (r: Option<(nat, nat, nat)>)
    ensures r.Some? <==> OneOutcome(cases)
    ensures r.Some? ==> r.value == (Tally(cases, FailureTag), Tally(cases, ErrorTag), Tally(cases, SkippedTag))
  {
    var failures, errors, skipped := 0, 0, 0;
    for i := 0 to |cases|
      invariant forall j :: 0 <= j < i ==> |cases[j].outcomes| <= 1
      invariant failures == Tally(cases[..i], FailureTag)
      invariant errors == Tally(cases[..i], ErrorTag)
      invariant skipped == Tally(cases[..i], SkippedTag)
    {
      if |cases[i].outcomes| > 1 { return None; }
      TallyStep(cases, i, FailureTag);
      TallyStep(cases, i, ErrorTag);
      TallyStep(cases, i, SkippedTag);
      failures, errors, skipped := CountOne(cases[i].outcomes, failures, errors, skipped);
    }
    assert cases[..|cases|] == cases;
    r := Some((failures, errors, skipped));
  }

  /** The suites' times added up, or nothing when one is no number. */
  method SumTimes(suites: seq<Suite>) returns (r: Option<real>)
    ensures r.Some? <==> AllTimed(suites)
    ensures r.Some? ==> r.value == TimeOf(suites)
  {
    var time := 0.0;
    for i := 0 to |suites|
      invariant AllTimed(suites[..i]) && time == TimeOf(suites[..i])
    {
      assert suites[..i + 1][..i] == suites[..i];
      if suites[i].time.None? { return None; }
      time := time + suites[i].time.value;
    }
    assert suites[..|suites|] == suites;
    r := Some(time);
  }

  /** With one outcome at most per testcase the categories cannot exceed the testcases. */
  lemma {:induction false} TalliesFit(cases: seq<CaseRecord>)
    requires OneOutcome(cases)
    ensures Tally(cases, FailureTag) + Tally(cases, ErrorTag) + Tally(cases, SkippedTag) <= |cases|
  {
    if cases != [] { TalliesFit(cases[..|cases| - 1]); }
  }

  method CheckTotals(suites: seq<Suite>, sums: (int, int, int, int), cases: seq<CaseRecord>,
                     required: Option<set<string>>)
    returns (r: Result<JUnitTotals, JUnitError>)
    requires sums == (Declared(suites, Tests), Declared(suites, Failures),
                      Declared(suites, Errors), Declared(suites, Skips))
    ensures r.Success? <==>
      sums.0 >= |cases| && AllTimed(suites) && OneOutcome(cases) && CountersAgree(suites, cases) &&
      Tally(cases, SkippedTag) < |cases| &&
      (required.Some? ==> required.value <= Observed(cases))
    ensures r.Success? ==> r.value == JUnitTotals(|cases|, sums.1, sums.2, sums.3, TimeOf(suites), sums.0 - |cases|)
  {
    if OneOutcome(cases) { TalliesFit(cases); }
    if sums.0 < |cases| { return Failure(MoreRecordsThanDeclared); }
    var time := SumTimes(suites);
    if time.None? { return Failure(NotANumber); }
    if sums.1 < 0 || sums.2 < 0 || sums.3 < 0 { return Failure(NegativeCount); }
    if sums.1 + sums.2 + sums.3 > |cases| { return Failure(CategoriesExceedTests); }
    if |cases| - sums.3 <= 0 { return Failure(NothingExecuted); }
    var outcomes := CountOutcomes(cases);
    if outcomes.None? { return Failure(SeveralOutcomes); }
    if outcomes.value != (sums.1, sums.2, sums.3) { return Failure(CountersDisagree); }
    if required.Some? {
      if f :| f in required.value && f !in Observed(cases) { return Failure(FilesOmitted); }
    }
    r := Success(JUnitTotals(|cases|, sums.1, sums.2, sums.3, time.value, sums.0 - |cases|));
  }

  /** The validated totals, or the first reason to refuse the report. */
  method ParseJUnit(report: Report, required: Option<set<string>>) returns (r: Result<JUnitTotals, JUnitError>)
    ensures r.Success? <==> Accepted(report, required)
    ensures r.Success? ==> var cases := CasesOf(SuitesOf(report));
      r.value.tests == |cases| && r.value.failures == Tally(cases, FailureTag) &&
      r.value.errors == Tally(cases, ErrorTag) && r.value.skipped == Tally(cases, SkippedTag) &&
      r.value.time == TimeOf(SuitesOf(report)) && r.value.extraReports == Declared(SuitesOf(report), Tests) - |cases|
  {
    match report {
      case Unreadable => return Failure(ReportUnreadable);
      case OtherRoot => return Failure(UnexpectedRoot);
      case _ =>
    }
    var suites := SuitesOf(report);
    if suites == [] { return Failure(NoSuites); }
    var sums := SumCounters(suites);
    if sums.None? { return Failure(NotAnInteger); }
    var cases := CollectCases(suites);
    r := CheckTotals(suites, sums.value, cases, required);
  }

  // ---------------------------------------------------------------- what an accepted report means

  lemma {:induction false} SomeNotSkipped(cases: seq<CaseRecord>)
    requires Tally(cases, SkippedTag) < |cases|
    ensures exists i :: 0 <= i < |cases| && cases[i].outcomes != [SkippedTag]
  {
    var n := |cases| - 1;
    if cases[n].outcomes == [SkippedTag] {
      SomeNotSkipped(cases[..n]);
      var i :| 0 <= i < n && cases[..n][i].outcomes != [SkippedTag];
      assert cases[i].outcomes != [SkippedTag];
    }
  }

  predicate Kinds(c: CaseRecord) {
    c.outcomes == [] || c.outcomes == [FailureTag] || c.outcomes == [ErrorTag] || c.outcomes == [SkippedTag]
  }

  lemma OneKind(c: CaseRecord)
    requires |c.outcomes| <= 1
    ensures Kinds(c)
  {
    if c.outcomes != [] {
      assert c.outcomes == [c.outcomes[0]];
      match c.outcomes[0] {
        case FailureTag =>
        case ErrorTag =>
        case SkippedTag =>
      }
    }
  }

  /** The testcase passed or was skipped. */
  predicate Harmless(c: CaseRecord) { c.outcomes == [] || c.outcomes == [SkippedTag] }

  lemma {:induction false} NoneFailed(cases: seq<CaseRecord>)
    requires OneOutcome(cases)
    ensures Tally(cases, FailureTag) == 0 && Tally(cases, ErrorTag) == 0 <==>
      forall i :: 0 <= i < |cases| ==> Harmless(cases[i])
  {
    if cases != [] {
      var n := |cases| - 1;
      NoneFailed(cases[..n]);
      OneKind(cases[n]);
      assert (forall i :: 0 <= i < |cases| ==> Harmless(cases[i])) <==>
        Harmless(cases[n]) && forall i :: 0 <= i < n ==> Harmless(cases[..n][i]);
    }
  }

  /** Accepted totals have no failure and no error exactly when no testcase record failed or errored. */
  lemma CleanTotalsMean(report: Report, required: Option<set<string>>, cases: seq<CaseRecord>)
    requires Accepted(report, required) && cases == CasesOf(SuitesOf(report))
    ensures Tally(cases, FailureTag) == 0 && Tally(cases, ErrorTag) == 0 <==>
      forall i :: 0 <= i < |cases| ==> Harmless(cases[i])
  {
    NoneFailed(cases);
  }

  /** And then some testcase passed. */
  lemma SomePassed(report: Report, required: Option<set<string>>, cases: seq<CaseRecord>) returns (i: nat)
    requires Accepted(report, required) && cases == CasesOf(SuitesOf(report))
    requires Tally(cases, FailureTag) == 0 && Tally(cases, ErrorTag) == 0
    ensures i < |cases| && cases[i].outcomes == []
  {
    NoneFailed(cases);
    SomeNotSkipped(cases);
    i :| 0 <= i < |cases| && cases[i].outcomes != [SkippedTag];
    assert Harmless(cases[i]);
  }

  // ---------------------------------------------------------------- counters that cancel

  lemma {:induction false} NonNegativeSum(suites: seq<Suite>, counter: Counter)
    requires forall i :: 0 <= i < |suites| ==> Number(suites[i], counter) >= 0
    ensures Declared(suites, counter) >= 0
    ensures Declared(suites, counter) == 0 ==> forall i :: 0 <= i < |suites| ==> Number(suites[i], counter) == 0
  {
    if suites != [] {
      var n := |suites| - 1;
      NonNegativeSum(suites[..n], counter);
      if Declared(suites, counter) == 0 {
        forall i | 0 <= i < |suites| ensures Number(suites[i], counter) == 0 {
          if i < n { assert Number(suites[..n][i], counter) == 0; }
        }
      }
    }
  }

  /** When an accepted report has no failure, every suite declares none exactly when no suite declares a negative
      number; and the same for errors. */
  lemma NoneDeclaredIff(report: Report, required: Option<set<string>>, counter: Counter)
    requires Accepted(report, required) && counter in {Failures, Errors}
    requires Tally(CasesOf(SuitesOf(report)), if counter == Failures then FailureTag else ErrorTag) == 0
    ensures (forall i :: 0 <= i < |SuitesOf(report)| ==> Number(SuitesOf(report)[i], counter) == 0) <==>
      (forall i :: 0 <= i < |SuitesOf(report)| ==> Number(SuitesOf(report)[i], counter) >= 0)
  {
    var suites := SuitesOf(report);
    assert Declared(suites, counter) == 0;
    if forall i :: 0 <= i < |suites| ==> Number(suites[i], counter) >= 0 { NonNegativeSum(suites, counter); }
  }

  lemma DeclaredPair(a: Suite, b: Suite, counter: Counter)
    ensures Declared([a, b], counter) == Number(a, counter) + Number(b, counter)
  {
    assert [a, b][..1] == [a] && [a][..0] == [];
    assert Declared([a], counter) == Number(a, counter);
  }

  lemma CasesPair(a: Suite, b: Suite)
    ensures CasesOf([a, b]) == a.cases + b.cases
  {
    assert [a, b][..1] == [a] && [a][..0] == [];
    assert CasesOf([a]) == a.cases;
  }

  lemma TallyPassed(tag: Tag)
    ensures Tally([CaseRecord([], None)], tag) == 0
  {
    assert [CaseRecord([], None)][..0] == [];
  }

  lemma PairAgrees(a: Suite, b: Suite, cases: seq<CaseRecord>)
    requires cases == [CaseRecord([], None)]
    requires Number(a, Failures) + Number(b, Failures) == 0
    requires Number(a, Errors) + Number(b, Errors) == 0 && Number(a, Skips) + Number(b, Skips) == 0
    ensures CountersAgree([a, b], cases) && Tally(cases, FailureTag) == 0
  {
    DeclaredPair(a, b, Failures);
    DeclaredPair(a, b, Errors);
    DeclaredPair(a, b, Skips);
    TallyPassed(FailureTag);
    TallyPassed(ErrorTag);
    TallyPassed(SkippedTag);
  }

  /** Suites that declare one failure and minus one are accepted: only the records are believed. */
  lemma CountersMayCancel(a: Suite, b: Suite)
    requires a == Suite(Some(1), Some(1), Some(0), Some(0), Some(0.0), [CaseRecord([], None)])
    requires b == Suite(Some(0), Some(-1), Some(0), Some(0), Some(0.0), [])
    ensures Accepted(Suites([a, b]), None) && Tally(CasesOf([a, b]), FailureTag) == 0
  {
    CasesPair(a, b);
    var cases := [CaseRecord([], None)];
    assert a.cases + b.cases == cases;
    DeclaredPair(a, b, Tests);
    PairAgrees(a, b, cases);
    TallyPassed(SkippedTag);
  }

  // ---------------------------------------------------------------- acceptance, value by value

  /** Where the testcases with exactly this outcome stand. */
  function PlacesWith(cases: seq<CaseRecord>, tag: Tag): set<nat> {
    set i: nat | i < |cases| && cases[i].outcomes == [tag]
  }

  lemma {:induction false} TallyIsCount(cases: seq<CaseRecord>, tag: Tag)
    ensures Tally(cases, tag) == |PlacesWith(cases, tag)|
  {
    if cases == [] {
      assert PlacesWith(cases, tag) == {};
    } else {
      var n := |cases| - 1;
      TallyIsCount(cases[..n], tag);
      assert PlacesWith(cases, tag) == PlacesWith(cases[..n], tag) + if cases[n].outcomes == [tag] then {n} else {};
    }
  }

  lemma LastOfBoth(a: seq<Suite>, b: seq<Suite>)
    requires b != []
    ensures (a + b)[..|a + b| - 1] == a + b[..|b| - 1] && (a + b)[|a + b| - 1] == b[|b| - 1]
  {
  }

  /** Counters and times of suites taken together add up. */
  lemma {:induction false} SuitesTogether(a: seq<Suite>, b: seq<Suite>, counter: Counter)
    ensures Declared(a + b, counter) == Declared(a, counter) + Declared(b, counter)
    ensures TimeOf(a + b) == TimeOf(a) + TimeOf(b)
  {
    if b == [] {
      assert a + b == a;
    } else {
      SuitesTogether(a, b[..|b| - 1], counter);
      LastOfBoth(a, b);
    }
  }

  lemma CasesAssociate(a: seq<CaseRecord>, b: seq<CaseRecord>, c: seq<CaseRecord>)
    ensures a + b + c == a + (b + c)
  {
  }

  /** And their testcases follow each other. */
  lemma {:induction false} CasesTogether(a: seq<Suite>, b: seq<Suite>)
    ensures CasesOf(a + b) == CasesOf(a) + CasesOf(b)
  {
    if b == [] {
      assert a + b == a;
    } else {
      CasesTogether(a, b[..|b| - 1]);
      LastOfBoth(a, b);
      CasesAssociate(CasesOf(a), CasesOf(b[..|b| - 1]), b[|b| - 1].cases);
    }
  }

  /** What one suite adds. */
  lemma OneSuiteAdds(s: Suite)
    requires s.tests.Some? && s.failures.Some? && s.errors.Some? && s.skipped.Some? && s.time.Some?
    ensures Declared([s], Tests) == s.tests.value && Declared([s], Failures) == s.failures.value
    ensures Declared([s], Errors) == s.errors.value && Declared([s], Skips) == s.skipped.value
    ensures TimeOf([s]) == s.time.value && CasesOf([s]) == s.cases
  {
    assert [s][..0] == [];
    assert CasesOf([s][..0]) + s.cases == s.cases;
  }

  /** A report is accepted exactly when every counter and time is a number, no testcase has two outcomes, the suites
      declare at least the testcases and exactly their failures, errors and skips, some testcase is not skipped, and
      some testcase names each required file. */
  lemma AcceptedExactly(report: Report, required: Option<set<string>>, cases: seq<CaseRecord>)
    requires cases == CasesOf(SuitesOf(report))
    ensures var suites := SuitesOf(report);
      Accepted(report, required) <==>
      && (forall i :: 0 <= i < |suites| ==>
            suites[i].tests.Some? && suites[i].failures.Some? && suites[i].errors.Some? && suites[i].skipped.Some? &&
            suites[i].time.Some?)
      && (forall i :: 0 <= i < |cases| ==> |cases[i].outcomes| <= 1)
      && Declared(suites, Tests) >= |cases| > |PlacesWith(cases, SkippedTag)|
      && Declared(suites, Failures) == |PlacesWith(cases, FailureTag)|
      && Declared(suites, Errors) == |PlacesWith(cases, ErrorTag)|
      && Declared(suites, Skips) == |PlacesWith(cases, SkippedTag)|
      && (required.Some? ==> forall f :: f in required.value ==>
            exists i :: 0 <= i < |cases| && cases[i].file.Some? && cases[i].file.value != "" &&
              Normalized(cases[i].file.value) == f)
  {
    TallyIsCount(cases, FailureTag);
    TallyIsCount(cases, ErrorTag);
    TallyIsCount(cases, SkippedTag);
    forall f ensures f in Observed(cases) <==>
      exists i :: 0 <= i < |cases| && cases[i].file.Some? && cases[i].file.value != "" &&
        Normalized(cases[i].file.value) == f { }
  }
}
