/**
 * SubmitAnswers and SaveResult once transport and persistence are taken
 * away: the test depth defaults to "simple", the answers are scored, the
 * scores are classified and broken down, the report is generated, and the
 * record is stored unless the insert fails.
 */
module Submission {
  import opened Wrappers
  import Scoring
  import Classifier
  import Report

  /** The stored result: id, type code, four-entry breakdown and report text. */
  datatype Record = Record(id: string, mbtiType: string, dimensions: seq<Classifier.Dimension>, report: string)

  /** An omitted test depth is taken as the shallowest one. */
  function EffectiveTestType(testType: string): (t: string)
    ensures testType == "" ==> t == "simple"
    ensures testType != "" ==> t == testType
  {
    if testType == "" then "simple" else testType
  }

  /**
   * The record SaveResult writes for the given scores; `inserted` is whether
   * the INSERT succeeded. Without it nothing is saved and the submission fails.
   */
  function SaveResult(id: string, scores: map<string, int>, env: Report.Env, attempt: Report.Request -> Report.Exchange, inserted: bool): (r: Option<Record>)
    ensures r.Some? <==> inserted
    ensures r.Some? ==> r.value.id == id && r.value.mbtiType == Classifier.DetermineType(scores)
    ensures r.Some? ==> r.value.dimensions == Classifier.Breakdown(scores)
    ensures r.Some? ==> r.value.report == Report.GenerateReport(r.value.mbtiType, r.value.dimensions, env, attempt)
  {
    var mbtiType := Classifier.DetermineType(scores);
    var dimensions := Classifier.Breakdown(scores);
    var report := Report.GenerateReport(mbtiType, dimensions, env, attempt);
    if inserted then Some(Record(id, mbtiType, dimensions, report)) else None
  }

  /**
   * SubmitAnswers: defaults the depth, runs CalculateScores and saves the result.
   */
  method SubmitAnswers(answers: seq<int>, testType: string, fetch: Scoring.Fetch, id: string,
                       env: Report.Env, attempt: Report.Request -> Report.Exchange, inserted: bool)
    returns (r: Option<Record>)
    ensures r == SaveResult(id, Scoring.ScoresOf(answers, EffectiveTestType(testType), fetch), env, attempt, inserted)
  {
    var depth := testType;
    if depth == "" {
      depth := "simple";
    }
    var scores := Scoring.CalculateScores(answers, depth, fetch);
    r := SaveResult(id, scores, env, attempt, inserted);
  }

  /** The type code a breakdown implies: the first pole wherever the value stored under the second is 50 or more. */
  function TypeOfBreakdown(dims: seq<Classifier.Dimension>): (code: string)
    requires |dims| == 4
    ensures |code| == 4
  {
    seq(4, j requires 0 <= j < 4 =>
      if dims[j].rightValue >= 50 then Classifier.Axes[j].first else Classifier.Axes[j].second)
  }

  /** What every stored record satisfies. */
  predicate WellFormed(rec: Record) {
    && Classifier.IsTypeCode(rec.mbtiType)
    && |rec.dimensions| == 4
    && (forall j :: 0 <= j < 4 ==> rec.dimensions[j].leftValue + rec.dimensions[j].rightValue == 100)
    && (forall j :: 0 <= j < 4 ==> 0 <= rec.dimensions[j].rightValue <= 100)
    && rec.mbtiType == TypeOfBreakdown(rec.dimensions)
  }

  /**
   * A submitted result is well formed: a valid type code, four breakdown
   * entries whose two values are percentages summing to 100, and a type code
   * that can be recomputed from the stored breakdown alone.
   */
  lemma SubmittedRecordWellFormed(answers: seq<int>, testType: string, fetch: Scoring.Fetch, id: string,
                                  env: Report.Env, attempt: Report.Request -> Report.Exchange)
    ensures var r := SaveResult(id, Scoring.ScoresOf(answers, EffectiveTestType(testType), fetch), env, attempt, true);
            r.Some? && WellFormed(r.value)
  {
    var scores := Scoring.ScoresOf(answers, EffectiveTestType(testType), fetch);
    Scoring.ScoresInRange(answers, EffectiveTestType(testType), fetch);
    var rec := SaveResult(id, scores, env, attempt, true).value;
    var code := Classifier.DetermineType(scores);
    var dims := Classifier.Breakdown(scores);
    forall j | 0 <= j < 4
      ensures 0 <= dims[j].rightValue <= 100
      ensures code[j] == TypeOfBreakdown(dims)[j]
    {
      var key := Classifier.Axes[j].key;
      assert key in scores ==> 0 <= scores[key] <= 100;
    }
  }

  /** Without an API key the stored report is the fallback text for the stored type code. */
  lemma NoKeyStoresFallback(answers: seq<int>, testType: string, fetch: Scoring.Fetch, id: string,
                            env: Report.Env, attempt: Report.Request -> Report.Exchange)
    requires env.apiKey == ""
    ensures var r := SaveResult(id, Scoring.ScoresOf(answers, EffectiveTestType(testType), fetch), env, attempt, true);
            r.Some? && r.value.report == Report.Fallback(r.value.mbtiType)
  {
  }

  /**
   * A single forward question on the E/I axis answered at the midpoint scores
   * exactly 50, and the tie picks E; extra answers are ignored and an empty
   * depth behaves as "simple".
   */
  lemma MidpointTieScenario()
    ensures Scoring.ScoresOf([4, 4, 4, 4, 4, 4, 4], EffectiveTestType(""), Scoring.Fetched([Scoring.Decoded("EI", 1)]))
            == map["EI" := 50]
    ensures Classifier.DetermineType(map["EI" := 50]) == "ENFP"
  {
    var answers := [4, 4, 4, 4, 4, 4, 4];
    var rows := [Scoring.Decoded("EI", 1)];
    var tallies := Scoring.TallyUpTo(answers, rows, 1);
    assert tallies == map["EI" := Scoring.Tally(3, 1)];
    assert Scoring.RoundedAverage(3, 1) == 50;
    assert Scoring.Averages(tallies) == map["EI" := 50];
    var code := Classifier.DetermineType(map["EI" := 50]);
    assert code[0] == 'E' && code[1] == 'N' && code[2] == 'F' && code[3] == 'P';
  }
}
