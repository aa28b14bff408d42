/**
 * The scoring engine (CalculateScores): answers and catalog rows are walked
 * together, each answer is clamped to the 1..7 scale and turned into a
 * polarity-aware contribution, contributions are summed and counted per
 * dimension tag, and each tag's average is rounded to a whole percentage.
 *
 * Arithmetic is exact. A contribution is kept as its step k in 0..6 on the
 * scale; its value in percent is 100 * k / 6. A dimension with step sum S over
 * n answers scores round(100 * S / (6 * n)), half rounded up.
 */
module Scoring {
  import opened Wrappers
  import Catalog

  /** One row of the `dimension, direction` query in id order, or a row `Scan` could not decode. */
  datatype Row = Decoded(dimension: string, direction: int) | Undecodable

  /** The query result: the rows, or a failure to build or run the query. */
  datatype Fetch = QueryFailed | Fetched(rows: seq<Row>)

  /** Per-dimension accumulator: the sum of steps and the number of answers. */
  datatype Tally = Tally(steps: nat, count: nat)

  const MinAnswer: int := 1
  const MaxAnswer: int := 7
  /** The number of steps between the lowest and highest answer; 100% is this many steps. */
  const ScaleSteps: int := MaxAnswer - MinAnswer

  /** An answer forced onto the scale. */
  function Clamp(answer: int): (a: int)
    ensures MinAnswer <= a <= MaxAnswer
    ensures MinAnswer <= answer <= MaxAnswer ==> a == answer
    ensures answer < MinAnswer ==> a == MinAnswer
    ensures answer > MaxAnswer ==> a == MaxAnswer
  {
    if answer < MinAnswer then MinAnswer else if answer > MaxAnswer then MaxAnswer else answer
  }

  /**
   * The contribution of one answer, in steps of 100/6 percent: a forward
   * question (direction 1) counts up from the lowest answer, any other
   * direction counts down from the highest.
   */
  function Step(answer: int, direction: int): (k: int)
    ensures 0 <= k <= ScaleSteps
  {
    if direction == 1 then Clamp(answer) - MinAnswer else MaxAnswer - Clamp(answer)
  }

  /** Out-of-scale answers score like the nearest end of the scale. */
  lemma ClampedAnswersScoreAlike(answer: int, direction: int)
    ensures answer < MinAnswer ==> Step(answer, direction) == Step(MinAnswer, direction)
    ensures answer > MaxAnswer ==> Step(answer, direction) == Step(MaxAnswer, direction)
  {
  }

  /**
   * Polarity: forward maps 1 to 0% and 7 to 100% linearly, reverse the other
   * way round, and for the same answer the two contributions add up to 100%.
   */
  lemma Polarity(answer: int, reverse: int)
    requires reverse != 1
    ensures Step(answer, 1) + Step(answer, reverse) == ScaleSteps
    ensures Step(MinAnswer, 1) == 0 && Step(MaxAnswer, 1) == ScaleSteps
    ensures Step(MinAnswer, reverse) == ScaleSteps && Step(MaxAnswer, reverse) == 0
    ensures MinAnswer <= answer < MaxAnswer ==> Step(answer + 1, 1) == Step(answer, 1) + 1
  {
  }

  /** The Go zero value for a dimension not seen yet. */
  function TallyOf(tallies: map<string, Tally>, dimension: string): Tally {
    if dimension in tallies then tallies[dimension] else Tally(0, 0)
  }

  /** One iteration of the first loop: a decoded row adds the answer's step to its dimension. */
  function Record(tallies: map<string, Tally>, answer: int, row: Row): map<string, Tally> {
    match row
    case Undecodable => tallies
    case Decoded(dimension, direction) =>
      var t := TallyOf(tallies, dimension);
      tallies[dimension := Tally(t.steps + Step(answer, direction), t.count + 1)]
  }

  /** The accumulator after the first `n` answer/row pairs. */
  function TallyUpTo(answers: seq<int>, rows: seq<Row>, n: nat): map<string, Tally>
    requires n <= |answers| && n <= |rows|
  {
    if n == 0 then map[] else Record(TallyUpTo(answers, rows, n - 1), answers[n - 1], rows[n - 1])
  }

  function Min(a: int, b: int): int {
    if a < b then a else b
  }

  /**
   * round(100 * steps / (6 * count)), half rounded up: the nearest whole
   * percentage to the average contribution.
   */
  function RoundedAverage(steps: nat, count: nat): (r: int)
    requires count > 0
    ensures 6 * count * (2 * r - 1) <= 200 * steps < 6 * count * (2 * r + 1)
    ensures steps <= ScaleSteps * count ==> 0 <= r <= 100
  {
    var q := (100 * steps + 3 * count) / (6 * count);
    RoundingBounds(100 * steps + 3 * count, 6 * count, q);
    assert 6 * count * (2 * q - 1) == 2 * (6 * count * q) - 6 * count;
    assert 6 * count * (2 * q + 1) == 2 * (6 * count * q) + 6 * count;
    assert 6 * count * 101 == 606 * count;
    q
  }

  /** Euclidean division facts for a quotient, kept apart so that the products stay opaque elsewhere. */
  lemma RoundingBounds(x: int, m: int, q: int)
    requires m > 0 && q == x / m
    ensures x - m < m * q <= x
    ensures x >= 0 ==> q >= 0
    ensures x < m * 101 ==> q <= 100
  {
    assert x == m * q + x % m;
  }

  /** No dimension's step sum exceeds a full scale per answer. */
  predicate Bounded(tallies: map<string, Tally>) {
    forall d :: d in tallies ==> tallies[d].steps <= ScaleSteps * tallies[d].count
  }

  lemma {:induction false} TallyBounded(answers: seq<int>, rows: seq<Row>, n: nat)
    requires n <= |answers| && n <= |rows|
    ensures Bounded(TallyUpTo(answers, rows, n))
  {
    if n > 0 {
      TallyBounded(answers, rows, n - 1);
    }
  }

  /** The second loop: every dimension with answers gets its rounded average. */
  function Averages(tallies: map<string, Tally>): map<string, int> {
    map d | d in tallies && tallies[d].count > 0 :: RoundedAverage(tallies[d].steps, tallies[d].count)
  }

  /** CalculateScores as a function of its inputs and of what the query returned. */
  function ScoresOf(answers: seq<int>, testType: string, fetch: Fetch): map<string, int> {
    if Catalog.TiersFor(testType).None? || fetch.QueryFailed? then map[]
    else
      var n := Min(|answers|, |fetch.rows|);
      Averages(TallyUpTo(answers, fetch.rows, n))
  }

  /**
   * CalculateScores: walks answers and rows together up to the shorter of the
   * two (a row that fails to decode still uses up its answer), accumulates
   * per-dimension totals in a map, then averages and rounds each one.
   */
  method CalculateScores(answers: seq<int>, testType: string, fetch: Fetch) returns (scores: map<string, int>)
    ensures scores == ScoresOf(answers, testType, fetch)
  {
    scores := map[];
    if Catalog.TiersFor(testType).None? {
      return;
    }
    if fetch.QueryFailed? {
      return;
    }
    var rows := fetch.rows;
    var tallies: map<string, Tally> := map[];
    var i := 0;
    while i < |answers| && i < |rows|
      invariant 0 <= i <= |answers| && i <= |rows|
      invariant tallies == TallyUpTo(answers, rows, i)
    {
      if rows[i].Decoded? {
        var dimension, direction := rows[i].dimension, rows[i].direction;
        var answer := answers[i];
        if answer < 1 {
          answer := 1;
        } else if answer > 7 {
          answer := 7;
        }
        var step := if direction == 1 then answer - 1 else 7 - answer;
        if step < 0 {
          step := 0;
        } else if step > 6 {
          step := 6;
        }
        var info := if dimension in tallies then tallies[dimension] else Tally(0, 0);
        tallies := tallies[dimension := Tally(info.steps + step, info.count + 1)];
      }
      i := i + 1;
    }
    assert i == Min(|answers|, |rows|);
    TallyBounded(answers, rows, i);
    var pending := tallies.Keys;
    while pending != {}
      invariant pending <= tallies.Keys
      invariant Bounded(tallies)
      invariant scores == map d | d in tallies && d !in pending && tallies[d].count > 0 ::
                            RoundedAverage(tallies[d].steps, tallies[d].count)
      decreases pending
    {
      var d :| d in pending;
      var info := tallies[d];
      if info.count > 0 {
        var avg := RoundedAverage(info.steps, info.count);
        if avg < 0 {
          avg := 0;
        } else if avg > 100 {
          avg := 100;
        }
        scores := scores[d := avg];
      }
      pending := pending - {d};
    }
  }

  /** The steps contributed to `dimension` by the first `n` pairs, in answer order. */
  function Contributions(answers: seq<int>, rows: seq<Row>, dimension: string, n: nat): seq<nat>
    requires n <= |answers| && n <= |rows|
  {
    if n == 0 then []
    else
      var row := rows[n - 1];
      Contributions(answers, rows, dimension, n - 1)
        + (if row.Decoded? && row.dimension == dimension then [Step(answers[n - 1], row.direction)] else [])
  }

  function Sum(s: seq<nat>): nat {
    if s == [] then 0 else Sum(s[..|s| - 1]) + s[|s| - 1]
  }

  /** A dimension has contributions exactly when one of the first `n` rows decodes to it. */
  lemma {:induction false} ContributionsPresent(answers: seq<int>, rows: seq<Row>, dimension: string, n: nat)
    requires n <= |answers| && n <= |rows|
    ensures |Contributions(answers, rows, dimension, n)| > 0 <==>
            exists i :: 0 <= i < n && rows[i].Decoded? && rows[i].dimension == dimension
  {
    if n > 0 {
      ContributionsPresent(answers, rows, dimension, n - 1);
    }
  }

  /** The map accumulation agrees with summing and counting each dimension's contributions. */
  lemma {:induction false} TallyIsSumAndCount(answers: seq<int>, rows: seq<Row>, dimension: string, n: nat)
    requires n <= |answers| && n <= |rows|
    ensures var c := Contributions(answers, rows, dimension, n);
            && (dimension in TallyUpTo(answers, rows, n) <==> |c| > 0)
            && (dimension in TallyUpTo(answers, rows, n) ==> TallyUpTo(answers, rows, n)[dimension] == Tally(Sum(c), |c|))
  {
    if n > 0 {
      TallyIsSumAndCount(answers, rows, dimension, n - 1);
      var prev := TallyUpTo(answers, rows, n - 1);
      var cur := TallyUpTo(answers, rows, n);
      var c := Contributions(answers, rows, dimension, n);
      var c' := Contributions(answers, rows, dimension, n - 1);
      var row := rows[n - 1];
      if row.Decoded? && row.dimension == dimension {
        var k := Step(answers[n - 1], row.direction);
        assert c == c' + [k];
        assert c[..|c| - 1] == c';
        assert Sum(c) == Sum(c') + k;
        assert cur[dimension] == Tally(TallyOf(prev, dimension).steps + k, TallyOf(prev, dimension).count + 1);
      } else {
        assert c == c';
        assert cur.Keys == prev.Keys + (if row.Decoded? then {row.dimension} else {});
        assert dimension in cur ==> cur[dimension] == prev[dimension];
      }
    }
  }

  /** An unknown test depth or a failed query gives an empty score map. */
  lemma NoScoresWithoutRows(answers: seq<int>, testType: string, fetch: Fetch)
    requires Catalog.TiersFor(testType).None? || fetch.QueryFailed?
    ensures ScoresOf(answers, testType, fetch) == map[]
  {
  }

  /**
   * A dimension appears in the scores exactly when some scored pair (one of
   * the first min(|answers|, |rows|)) has a row decoding to it; nothing else is added.
   */
  lemma ScoresPresence(answers: seq<int>, testType: string, rows: seq<Row>, dimension: string)
    requires Catalog.TiersFor(testType).Some?
    ensures dimension in ScoresOf(answers, testType, Fetched(rows)) <==>
            exists i :: 0 <= i < |answers| && i < |rows| && rows[i].Decoded? && rows[i].dimension == dimension
  {
    var n := Min(|answers|, |rows|);
    TallyIsSumAndCount(answers, rows, dimension, n);
    ContributionsPresent(answers, rows, dimension, n);
  }

  /**
   * Each present dimension scores the average of its contributions in
   * percent, rounded to the nearest whole number with halves rounded up.
   */
  lemma ScoreIsRoundedAverage(answers: seq<int>, testType: string, rows: seq<Row>, dimension: string)
    requires Catalog.TiersFor(testType).Some?
    requires dimension in ScoresOf(answers, testType, Fetched(rows))
    ensures var c := Contributions(answers, rows, dimension, Min(|answers|, |rows|));
            var r := ScoresOf(answers, testType, Fetched(rows))[dimension];
            && |c| > 0
            && 6 * |c| * (2 * r - 1) <= 200 * Sum(c) < 6 * |c| * (2 * r + 1)
  {
    TallyIsSumAndCount(answers, rows, dimension, Min(|answers|, |rows|));
  }

  /** Every score is a percentage. */
  lemma ScoresInRange(answers: seq<int>, testType: string, fetch: Fetch)
    ensures forall d :: d in ScoresOf(answers, testType, fetch) ==> 0 <= ScoresOf(answers, testType, fetch)[d] <= 100
  {
    if fetch.Fetched? {
      TallyBounded(answers, fetch.rows, Min(|answers|, |fetch.rows|));
    }
  }

  /** Two walks that see the same rows and the same steps build the same tallies. */
  lemma {:induction false} TallyAgree(a1: seq<int>, r1: seq<Row>, a2: seq<int>, r2: seq<Row>, n: nat)
    requires n <= |a1| && n <= |r1| && n <= |a2| && n <= |r2|
    requires forall i :: 0 <= i < n ==> r1[i] == r2[i]
    requires forall i :: 0 <= i < n && r1[i].Decoded? ==> Step(a1[i], r1[i].direction) == Step(a2[i], r1[i].direction)
    ensures TallyUpTo(a1, r1, n) == TallyUpTo(a2, r2, n)
  {
    if n > 0 {
      TallyAgree(a1, r1, a2, r2, n - 1);
    }
  }

  /** Extra answers and extra questions beyond the shorter of the two are ignored. */
  lemma ScoresUseOnlyPairedPrefix(answers: seq<int>, testType: string, rows: seq<Row>)
    ensures var m := Min(|answers|, |rows|);
            ScoresOf(answers, testType, Fetched(rows)) == ScoresOf(answers[..m], testType, Fetched(rows[..m]))
  {
    var m := Min(|answers|, |rows|);
    TallyAgree(answers, rows, answers[..m], rows[..m], m);
  }

  function ClampAll(answers: seq<int>): (r: seq<int>)
    ensures |r| == |answers|
    ensures forall i :: 0 <= i < |r| ==> r[i] == Clamp(answers[i])
  {
    seq(|answers|, i requires 0 <= i < |answers| => Clamp(answers[i]))
  }

  /** Clamping every answer beforehand changes no score. */
  lemma ScoresIgnoreClamping(answers: seq<int>, testType: string, fetch: Fetch)
    ensures ScoresOf(ClampAll(answers), testType, fetch) == ScoresOf(answers, testType, fetch)
  {
    if fetch.Fetched? {
      TallyAgree(answers, fetch.rows, ClampAll(answers), fetch.rows, Min(|answers|, |fetch.rows|));
    }
  }

  /**
   * A row that fails to decode still consumes its answer: that answer has no
   * effect, and the next answer is paired with the next row.
   */
  lemma UndecodableRowConsumesAnswer(answers: seq<int>, testType: string, rows: seq<Row>, i: nat, other: int)
    requires i < |answers| && i < |rows| && rows[i].Undecodable?
    ensures ScoresOf(answers[i := other], testType, Fetched(rows)) == ScoresOf(answers, testType, Fetched(rows))
  {
    TallyAgree(answers[i := other], rows, answers, rows, Min(|answers|, |rows|));
  }
}
