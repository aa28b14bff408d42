/**
 * The type classifier (DetermineMBTIType) and the dimension breakdown that
 * SaveResult stores beside the type code.
 */
module Classifier {

  /** One bipolar axis: its key in the score map and the letters of its two poles. */
  datatype Axis = Axis(key: string, first: char, second: char)

  /** The four axes in type-code order. */
  const Axes: seq<Axis> := [Axis("EI", 'E', 'I'), Axis("SN", 'S', 'N'), Axis("TF", 'T', 'F'), Axis("JP", 'J', 'P')]

  /** A Go map read: a missing key reads as the zero value. */
  function ScoreOf(scores: map<string, int>, key: string): int {
    if key in scores then scores[key] else 0
  }

  /** The pole an axis picks: a score of 50 or more picks the first letter. */
  function Letter(scores: map<string, int>, axis: Axis): char {
    if ScoreOf(scores, axis.key) >= 50 then axis.first else axis.second
  }

  /** A four-letter code with one pole of each axis, in axis order: one of the 16 types. */
  predicate IsTypeCode(code: string) {
    && |code| == 4
    && (code[0] == 'E' || code[0] == 'I')
    && (code[1] == 'S' || code[1] == 'N')
    && (code[2] == 'T' || code[2] == 'F')
    && (code[3] == 'J' || code[3] == 'P')
  }

  /**
   * DetermineMBTIType: four independent per-axis decisions appended in
   * order. A tie at 50 picks the first letter; an absent axis reads as 0 and
   * picks the second.
   */
  function DetermineType(scores: map<string, int>): (code: string)
    ensures IsTypeCode(code)
    ensures forall j :: 0 <= j < 4 ==> (code[j] == Axes[j].first <==> ScoreOf(scores, Axes[j].key) >= 50)
    ensures forall j :: 0 <= j < 4 && Axes[j].key !in scores ==> code[j] == Axes[j].second
  {
    var code := "";
    var code := code + [Letter(scores, Axes[0])];
    var code := code + [Letter(scores, Axes[1])];
    var code := code + [Letter(scores, Axes[2])];
    var code := code + [Letter(scores, Axes[3])];
    code
  }

  /** The code depends on the four axis entries only: other tags in the score map are ignored. */
  lemma TypeIgnoresOtherTags(scores: map<string, int>, tag: string, value: int)
    requires forall j :: 0 <= j < 4 ==> tag != Axes[j].key
    ensures DetermineType(scores[tag := value]) == DetermineType(scores)
  {
    forall j | 0 <= j < 4
      ensures ScoreOf(scores[tag := value], Axes[j].key) == ScoreOf(scores, Axes[j].key)
    {
    }
  }

  /** One entry of the stored breakdown. */
  datatype Dimension = Dimension(left: string, right: string, leftValue: int, rightValue: int)

  /**
   * The breakdown SaveResult builds: four entries in axis order, the left
   * label the first pole, RightValue the axis score and LeftValue its
   * complement. The score is already whole, so the rounding there changes nothing.
   */
  function Breakdown(scores: map<string, int>): (dims: seq<Dimension>)
    ensures |dims| == 4
    ensures forall j :: 0 <= j < 4 ==>
              && dims[j].left == [Axes[j].first] && dims[j].right == [Axes[j].second]
              && dims[j].rightValue == ScoreOf(scores, Axes[j].key)
              && dims[j].leftValue + dims[j].rightValue == 100
    ensures forall j :: 0 <= j < 4 && Axes[j].key !in scores ==> dims[j].leftValue == 100 && dims[j].rightValue == 0
  {
    seq(4, j requires 0 <= j < 4 =>
      var s := ScoreOf(scores, Axes[j].key);
      Dimension([Axes[j].first], [Axes[j].second], 100 - s, s))
  }

  /**
   * The stored breakdown and the code disagree on orientation: the code takes
   * the first pole exactly when the value stored under the SECOND pole's
   * label is 50 or more.
   */
  lemma BreakdownLabelsOppositeToType(scores: map<string, int>, j: nat)
    requires j < 4
    ensures DetermineType(scores)[j] == Breakdown(scores)[j].left[0] <==> Breakdown(scores)[j].rightValue >= 50
  {
  }
}
