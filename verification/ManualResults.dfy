/** What people report about a manual change: which step results are accepted with which outcome,
    and how reports accumulate. */
module ManualResults {

  import opened Basics

  datatype ReportStatus = Succeeded | Failed | Partial | RecoveryPending | RolledBack | RollbackFailed

  datatype StepOutcome = StepSucceeded | StepFailed | StepSkipped | StepRolledBack

  datatype StepResult = StepResult(stepId: string, outcome: StepOutcome)

  datatype Report = Report(status: ReportStatus, results: seq<StepResult>, notes: string)

  datatype Refusal =
    | Accepted | DuplicateSteps | UnapprovedSteps | PartialNotMixed | ResultsMissing | NotAllSucceeded
      | NotAllRolledBack

  // ------------------------------------------------------------------- step results

  function IdsOf(results: seq<StepResult>): set<string> { set i | 0 <= i < |results| :: results[i].stepId }

  predicate Distinct(results: seq<StepResult>) {
    forall i, j :: 0 <= i < j < |results| ==> results[i].stepId != results[j].stepId
  }

  predicate AllAre(results: seq<StepResult>, outcome: StepOutcome) {
    forall i :: 0 <= i < |results| ==> results[i].outcome == outcome
  }

  predicate SomeIs(results: seq<StepResult>, outcome: StepOutcome) {
    exists i :: 0 <= i < |results| && results[i].outcome == outcome
  }

  /** Every approved step has exactly one result, and every result is for an approved step. */
  predicate OnePerStep(expected: set<string>, results: seq<StepResult>) {
    && (forall i :: 0 <= i < |results| ==> results[i].stepId in expected)
    && (forall id :: id in expected ==> exists i :: 0 <= i < |results| && results[i].stepId == id)
    && Distinct(results)
  }

  /** What an acceptable report says about the approved steps. */
  predicate Acceptable(expected: set<string>, r: Report) {
    && Distinct(r.results) && IdsOf(r.results) <= expected
    && (r.status == Succeeded && expected != {} ==> OnePerStep(expected, r.results) && AllAre(r.results, StepSucceeded))
    && (r.status == RolledBack && expected != {} ==>
          OnePerStep(expected, r.results) && AllAre(r.results, StepRolledBack))
    && (r.status == Partial && |expected| > 1 ==>
          OnePerStep(expected, r.results) && SomeIs(r.results, StepSucceeded) && !AllAre(r.results, StepSucceeded))
  }

  lemma IdsSnoc(init: seq<StepResult>, x: StepResult)
    ensures IdsOf(init + [x]) == IdsOf(init) + {x.stepId}
  {
    var all := init + [x];
    forall id ensures id in IdsOf(all) <==> id in IdsOf(init) + {x.stepId} {
      if id in IdsOf(init) {
        var i :| 0 <= i < |init| && init[i].stepId == id;
        assert all[i].stepId == id;
      }
      assert all[|init|].stepId == x.stepId;
    }
  }

  lemma DistinctSnoc(init: seq<StepResult>, x: StepResult)
    ensures Distinct(init + [x]) <==> Distinct(init) && x.stepId !in IdsOf(init)
  {
    var all := init + [x];
    assert forall i :: 0 <= i < |init| ==> all[i] == init[i] && init[i].stepId in IdsOf(init);
    if x.stepId in IdsOf(init) {
      var i :| 0 <= i < |init| && init[i].stepId == x.stepId;
      assert all[i].stepId == all[|init|].stepId;
    }
  }

  /** Counting the identifiers finds the duplicates. */
  lemma {:induction false} CountsTell(results: seq<StepResult>)
    ensures |IdsOf(results)| <= |results|
    ensures |IdsOf(results)| == |results| <==> Distinct(results)
  {
    if results == [] {
      assert IdsOf(results) == {};
    } else {
      var init, x := results[..|results| - 1], results[|results| - 1];
      CountsTell(init);
      assert init + [x] == results;
      IdsSnoc(init, x);
      DistinctSnoc(init, x);
      if x.stepId in IdsOf(init) {
        assert IdsOf(results) == IdsOf(init);
      }
    }
  }

  lemma OnePerStepIff(expected: set<string>, results: seq<StepResult>)
    requires Distinct(results)
    ensures OnePerStep(expected, results) <==> IdsOf(results) == expected
  {
    forall i | 0 <= i < |results| ensures results[i].stepId in IdsOf(results) {
    }
  }

  /** The results are for different approved steps. */
  predicate Approved(expected: set<string>, results: seq<StepResult>) {
    Distinct(results) && IdsOf(results) <= expected
  }

  method ValidateManualStepResults(expected: set<string>, r: Report) returns (refusal: Refusal)
    ensures refusal == Accepted <==> Acceptable(expected, r)
    ensures refusal == DuplicateSteps <==> !Distinct(r.results)
    ensures refusal == UnapprovedSteps <==> Distinct(r.results) && !(IdsOf(r.results) <= expected)
    ensures refusal == PartialNotMixed <==>
              Approved(expected, r.results) && r.status == Partial && !Acceptable(expected, r)
    ensures refusal == ResultsMissing <==> r.status in {Succeeded, RolledBack} && |expected| == 1 && r.results == []
    ensures refusal == NotAllSucceeded <==>
              Approved(expected, r.results) && r.status == Succeeded && !Acceptable(expected, r)
              && !(|expected| == 1 && r.results == [])
    ensures refusal == NotAllRolledBack <==>
              Approved(expected, r.results) && r.status == RolledBack && !Acceptable(expected, r)
              && !(|expected| == 1 && r.results == [])
  {
    var actual := IdsOf(r.results);
    CountsTell(r.results);
    if |actual| != |r.results| {
      return DuplicateSteps;
    }
    OnePerStepIff(expected, r.results);
    if actual - expected != {} {
      return UnapprovedSteps;
    }
    assert forall id :: id in actual ==> id !in actual - expected;
    if r.status == Partial && |expected| > 1 {
      var outcomes := set i | 0 <= i < |r.results| :: r.results[i].outcome;
      OutcomeSet(r.results, outcomes);
      if actual != expected || StepSucceeded !in outcomes || outcomes == {StepSucceeded} {
        return PartialNotMixed;
      }
    }
    if r.status in {Succeeded, RolledBack} && |expected| == 1 && r.results == [] {
      assert actual == {};
      return ResultsMissing;
    }
    if r.status == Succeeded && expected != {} {
      if actual != expected || exists i :: 0 <= i < |r.results| && r.results[i].outcome != StepSucceeded {
        return NotAllSucceeded;
      }
    }
    if r.status == RolledBack && expected != {} {
      if actual != expected || exists i :: 0 <= i < |r.results| && r.results[i].outcome != StepRolledBack {
        return NotAllRolledBack;
      }
    }
    return Accepted;
  }

  lemma OutcomeSet(results: seq<StepResult>, outcomes: set<StepOutcome>)
    requires outcomes == set i | 0 <= i < |results| :: results[i].outcome
    ensures StepSucceeded in outcomes <==> SomeIs(results, StepSucceeded)
    ensures SomeIs(results, StepSucceeded) ==> (outcomes == {StepSucceeded} <==> AllAre(results, StepSucceeded))
  {
    forall i | 0 <= i < |results| ensures results[i].outcome in outcomes {
    }
  }

  // --------------------------------------------- results as the outcomes of the steps

  /** The results give exactly these steps an outcome, each once. */
  ghost predicate Lists(results: seq<StepResult>, m: map<string, StepOutcome>) {
    && |results| == |m|
    && (forall i :: 0 <= i < |results| ==> results[i].stepId in m && m[results[i].stepId] == results[i].outcome)
    && (forall id :: id in m ==> exists i :: 0 <= i < |results| && results[i].stepId == id)
  }

  /** What outcomes of the approved steps go with a report. */
  ghost predicate GoesWith(expected: set<string>, status: ReportStatus, m: map<string, StepOutcome>) {
    && m.Keys <= expected
    && match status
       case Succeeded => m.Keys == expected && m.Values <= {StepSucceeded}
       case RolledBack => m.Keys == expected && m.Values <= {StepRolledBack}
       case Partial =>
         |expected| < 2 || (m.Keys == expected && StepSucceeded in m.Values && m.Values != {StepSucceeded})
       case _ => true
  }

  lemma ListedSteps(results: seq<StepResult>, m: map<string, StepOutcome>)
    requires Lists(results, m)
    ensures Distinct(results) && IdsOf(results) == m.Keys
  {
    assert IdsOf(results) == m.Keys && |m| == |m.Keys|;
    CountsTell(results);
  }

  lemma ListedOutcome(results: seq<StepResult>, m: map<string, StepOutcome>, outcome: StepOutcome)
    requires Lists(results, m)
    ensures SomeIs(results, outcome) <==> outcome in m.Values
  {
    if outcome in m.Values {
      var id :| id in m && m[id] == outcome;
      assert exists i :: 0 <= i < |results| && results[i].stepId == id;
    }
    if SomeIs(results, outcome) {
      var i :| 0 <= i < |results| && results[i].outcome == outcome;
      assert m[results[i].stepId] == outcome;
    }
  }

  lemma ListedAlike(results: seq<StepResult>, m: map<string, StepOutcome>, outcome: StepOutcome)
    requires Lists(results, m)
    ensures AllAre(results, outcome) <==> m.Values <= {outcome}
  {
    forall i | 0 <= i < |results| ensures results[i].outcome in m.Values {
      assert results[i].stepId in m;
    }
    forall o | o in m.Values ensures SomeIs(results, o) {
      ListedOutcome(results, m, o);
    }
  }

  lemma ListsThem(results: seq<StepResult>) returns (m: map<string, StepOutcome>)
    requires Distinct(results)
    ensures Lists(results, m)
  {
    m := map i | 0 <= i < |results| :: results[i].stepId := results[i].outcome;
    assert |m| == |results| by {
      assert m.Keys == IdsOf(results) && |m| == |m.Keys|;
      CountsTell(results);
    }
  }

  lemma GoesWithIff(expected: set<string>, r: Report, m: map<string, StepOutcome>)
    requires Lists(r.results, m)
    ensures Acceptable(expected, r) <==> GoesWith(expected, r.status, m)
  {
    ListedSteps(r.results, m);
    ListedOutcome(r.results, m, StepSucceeded);
    ListedAlike(r.results, m, StepSucceeded);
    ListedAlike(r.results, m, StepRolledBack);
    OnePerStepIff(expected, r.results);
    if r.status == Partial && StepSucceeded in m.Values {
      assert m.Values == {StepSucceeded} <==> m.Values <= {StepSucceeded};
    }
  }

  /** A report is acceptable iff its results list outcomes, one a step, that go with it. */
  lemma AcceptableIff(expected: set<string>, r: Report)
    ensures Acceptable(expected, r) <==> exists m :: Lists(r.results, m) && GoesWith(expected, r.status, m)
  {
    if Acceptable(expected, r) {
      var m := ListsThem(r.results);
      GoesWithIff(expected, r, m);
    }
    forall m | Lists(r.results, m) && GoesWith(expected, r.status, m) ensures Acceptable(expected, r) {
      GoesWithIff(expected, r, m);
    }
  }

  predicate OnlyResult(results: seq<StepResult>, id: string, i: nat) {
    i < |results| && results[i].stepId == id && forall j :: 0 <= j < |results| && results[j].stepId == id ==> j == i
  }

  /** An accepted success or rollback on a plan with steps matches results and steps one to one. */
  lemma AcceptedIsBijection(expected: set<string>, r: Report)
    requires Acceptable(expected, r) && r.status in {Succeeded, RolledBack} && expected != {}
    ensures |r.results| == |expected|
    ensures forall id :: id in expected ==> exists i: nat :: OnlyResult(r.results, id, i)
  {
    CountsTell(r.results);
    OnePerStepIff(expected, r.results);
    forall id | id in expected ensures exists i: nat :: OnlyResult(r.results, id, i) {
      var i: nat :| i < |r.results| && r.results[i].stepId == id;
      assert OnlyResult(r.results, id, i);
    }
  }

  // ------------------------------------------------------ every outcome can be reported

  /** One result for each step of a set, all with the same outcome. */
  lemma {:induction false} ResultsFor(expected: set<string>, outcome: StepOutcome) returns (results: seq<StepResult>)
    ensures Distinct(results) && IdsOf(results) == expected && AllAre(results, outcome)
    decreases |expected|
  {
    results := [];
    if expected != {} {
      var id :| id in expected;
      var init := ResultsFor(expected - {id}, outcome);
      results := init + [StepResult(id, outcome)];
      IdsSnoc(init, StepResult(id, outcome));
      DistinctSnoc(init, StepResult(id, outcome));
    }
  }

  /** The same but for one step. */
  lemma MixedResultsFor(expected: set<string>) returns (results: seq<StepResult>)
    requires |expected| > 1
    ensures Distinct(results) && IdsOf(results) == expected
    ensures SomeIs(results, StepSucceeded) && !AllAre(results, StepSucceeded)
  {
    var id :| id in expected;
    assert |expected - {id}| == |expected| - 1;
    var init := ResultsFor(expected - {id}, StepSucceeded);
    results := init + [StepResult(id, StepFailed)];
    IdsSnoc(init, StepResult(id, StepFailed));
    DistinctSnoc(init, StepResult(id, StepFailed));
    CountsTell(init);
    assert results[0] == init[0] && results[|results| - 1].outcome == StepFailed;
  }

  /** Whatever the approved steps, every outcome has an acceptable report. */
  lemma AcceptableReport(expected: set<string>, status: ReportStatus) returns (r: Report)
    ensures r.status == status && Acceptable(expected, r)
  {
    var results: seq<StepResult>;
    if status == Partial && |expected| > 1 {
      results := MixedResultsFor(expected);
    } else {
      results := ResultsFor(expected, if status == RolledBack then StepRolledBack else StepSucceeded);
    }
    r := Report(status, results, "");
    OnePerStepIff(expected, results);
  }

  // ------------------------------------------------------------------------- history

  const HISTORY_LIMIT: nat := 20

  /** The stored manual result: the latest report and, oldest first, the ones before it. */
  datatype ManualRecord = NoReport | Latest(report: Report, history: seq<Report>)

  function Push(previous: ManualRecord, r: Report): ManualRecord {
    match previous
    case NoReport => Latest(r, [])
    case Latest(report, history) => Latest(r, Last(history + [report], HISTORY_LIMIT))
  }

  function PushAll(reports: seq<Report>): ManualRecord {
    if reports == [] then NoReport else Push(PushAll(reports[..|reports| - 1]), reports[|reports| - 1])
  }

  /** However many reports are recorded one after the other, the result is the latest and its history
      the last twenty before it, in order. */
  lemma {:induction false} HistoryIsLastTwenty(reports: seq<Report>)
    ensures PushAll(reports) ==
            if reports == [] then NoReport
            else Latest(reports[|reports| - 1], Last(reports[..|reports| - 1], HISTORY_LIMIT))
  {
    if reports != [] {
      var n := |reports| - 1;
      HistoryIsLastTwenty(reports[..n]);
      if n > 0 {
        LastStep(reports[..n - 1], reports[n - 1], HISTORY_LIMIT);
        assert reports[..n][..n - 1] == reports[..n - 1] && reports[..n - 1] + [reports[n - 1]] == reports[..n];
      }
    }
  }

  /** The same latest report, and the same ones before it as far as the next report keeps them. */
  predicate SamePast(a: ManualRecord, b: ManualRecord) {
    match (a, b)
    case (NoReport, NoReport) => true
    case (Latest(r, h), Latest(q, k)) => r == q && Last(h, HISTORY_LIMIT - 1) == Last(k, HISTORY_LIMIT - 1)
    case (_, _) => false
  }

  lemma PushSameIff(a: ManualRecord, b: ManualRecord, r: Report)
    ensures Push(a, r) == Push(b, r) <==> SamePast(a, b)
  {
    if a.Latest? {
      LastSnoc(a.history, a.report, HISTORY_LIMIT);
    }
    if b.Latest? {
      LastSnoc(b.history, b.report, HISTORY_LIMIT);
    }
    if a.Latest? && b.Latest? {
      var s, t := Last(a.history, HISTORY_LIMIT - 1), Last(b.history, HISTORY_LIMIT - 1);
      assert (s + [a.report])[..|s|] == s && (t + [b.report])[..|t|] == t;
      assert (s + [a.report])[|s|] == a.report && (t + [b.report])[|t|] == b.report;
      assert s + [a.report] == t + [b.report] ==> |s| == |t|;
    }
  }
}
