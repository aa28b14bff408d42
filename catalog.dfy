/**
 * Test-depth selection and the question listing: which question tiers a
 * depth name covers, and how the rows read from the catalog become the
 * questions sent to the client.
 */
module Catalog {
  import opened Wrappers

  /** The tier names in the catalog's `type` column, shallowest first. */
  const AllTiers: seq<string> := ["simple", "detailed", "full"]

  /** The seven labels of the response scale attached to every question. */
  const ScaleOptions: seq<string> :=
    ["非常不符合", "不符合", "有点不符合", "中立", "有点符合", "符合", "非常符合"]

  /**
   * The `switch` on the test-depth name: a known depth selects its own tier
   * and every shallower one, an unknown name selects nothing.
   */
  function TiersFor(testType: string): (r: Option<seq<string>>)
    ensures r.Some? <==> testType in AllTiers
    ensures r.Some? ==> 1 <= |r.value| <= |AllTiers| && r.value == AllTiers[..|r.value|]
    ensures r.Some? ==> r.value[|r.value| - 1] == testType
  {
    match testType
    case "simple" => Some(["simple"])
    case "detailed" => Some(["simple", "detailed"])
    case "full" => Some(["simple", "detailed", "full"])
    case _ => None
  }

  /** Deeper tests ask every question a shallower test asks. */
  lemma TiersNested(shallow: string, deep: string)
    requires TiersFor(shallow).Some? && TiersFor(deep).Some?
    requires |TiersFor(shallow).value| <= |TiersFor(deep).value|
    ensures TiersFor(shallow).value <= TiersFor(deep).value
  {
  }

  datatype QuestionsError = EmptyType | InvalidType | QueryFailed | ScanFailed

  /** One row of the question query, or a row `Scan` could not decode. */
  datatype QuestionRow = Scanned(id: int, text: string, dimension: string, direction: int) | Unscannable

  /** What the catalog query returned: the rows in the store's order, or a failure to run it. */
  datatype QuestionFetch = FetchFailed | FetchedRows(rows: seq<QuestionRow>)

  datatype Question = Question(id: int, text: string, options: seq<string>)

  /** The validation GetQuestions performs before it queries: an empty name and an unknown name are rejected. */
  function RequestedTiers(testType: string): (r: Result<seq<string>, QuestionsError>)
    ensures r.Failure? ==> (r.error == EmptyType <==> testType == "")
    ensures testType == "" ==> r == Failure(EmptyType)
    ensures testType != "" && testType !in AllTiers ==> r == Failure(InvalidType)
    ensures r.Failure? <==> testType !in AllTiers
    ensures r.Success? ==> TiersFor(testType) == Some(r.value)
  {
    if testType == "" then Failure(EmptyType)
    else match TiersFor(testType)
      case None => Failure(InvalidType)
      case Some(tiers) => Success(tiers)
  }

  /** Every row decoded: the listing succeeds only then. */
  predicate AllScanned(rows: seq<QuestionRow>) {
    forall i :: 0 <= i < |rows| ==> rows[i].Scanned?
  }

  /** The question sent to the client for a decoded row: its id and text with the seven-point scale. */
  function Present(row: QuestionRow): Question
    requires row.Scanned?
  {
    Question(row.id, row.text, ScaleOptions)
  }

  /**
   * GetQuestions after transport: validate the depth, take the rows fetched for
   * its tiers and turn them into questions, failing on the first row that does
   * not decode.
   */
  method ListQuestions(testType: string, fetch: QuestionFetch) returns (r: Result<seq<Question>, QuestionsError>)
    ensures testType == "" ==> r == Failure(EmptyType)
    ensures testType != "" && testType !in AllTiers ==> r == Failure(InvalidType)
    ensures testType in AllTiers && fetch.FetchFailed? ==> r == Failure(QueryFailed)
    ensures testType in AllTiers && fetch.FetchedRows? && !AllScanned(fetch.rows) ==> r == Failure(ScanFailed)
    ensures r.Success? <==> testType in AllTiers && fetch.FetchedRows? && AllScanned(fetch.rows)
    ensures r.Success? ==> |r.value| == |fetch.rows|
    ensures r.Success? ==> forall i :: 0 <= i < |r.value| ==> r.value[i] == Present(fetch.rows[i])
  {
    var tiers := RequestedTiers(testType);
    if tiers.Failure? {
      return Failure(tiers.error);
    }
    if fetch.FetchFailed? {
      return Failure(QueryFailed);
    }
    var rows := fetch.rows;
    var questions: seq<Question> := [];
    var i := 0;
    while i < |rows|
      invariant 0 <= i <= |rows|
      invariant AllScanned(rows[..i])
      invariant |questions| == i
      invariant forall k :: 0 <= k < i ==> questions[k] == Present(rows[k])
    {
      match rows[i] {
        case Unscannable =>
          return Failure(ScanFailed);
        case Scanned(id, text, _, _) =>
          questions := questions + [Question(id, text, ScaleOptions)];
      }
      i := i + 1;
    }
    assert rows[..i] == rows;
    return Success(questions);
  }
}
