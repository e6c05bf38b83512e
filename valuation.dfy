/** The valuation aggregate of the rating page: the percentage score and the top
    dimension(s), with and without weights, the record handed to the store, the
    zero-score tag rule and the star strings of the summary.

    Stars are the integers the star widgets report, one per value dimension in
    declaration order. Weights are integer tenths (the slider runs from 0.0 to 1.0
    in steps of 0.1), so every score below is exact; rounding to two decimals is not
    modelled. */
module Valuation {

  /** The six value dimensions, in declaration order. */
  const ValueDimensions: seq<string> :=
    ["Economic", "Social", "Environmental", "Cultural", "Policy Alignment", "Data Quality"]

  /** The highest star rating a widget offers. */
  const MaxStars: int := 5

  /** A weight of 1.0, in tenths. */
  const FullWeight: int := 10

  /** The weight a slider reports before it is moved: 0.5, in tenths. */
  const DefaultWeight: int := 5

  predicate StarsInRange(stars: seq<int>) {
    forall i :: 0 <= i < |stars| ==> 0 <= stars[i] <= MaxStars
  }

  predicate WeightsInRange(weights: seq<int>) {
    forall i :: 0 <= i < |weights| ==> 0 <= weights[i] <= FullWeight
  }

  /** The same value for every dimension. */
  function Uniform(c: int): (vs: seq<int>)
    ensures |vs| == |ValueDimensions|
    ensures forall i :: 0 <= i < |vs| ==> vs[i] == c
  {
    seq(|ValueDimensions|, _ => c)
  }

  lemma DimensionNamesDistinct()
    ensures forall i, j :: 0 <= i < j < |ValueDimensions| ==> ValueDimensions[i] != ValueDimensions[j]
  {
    assert ValueDimensions[0][0] != ValueDimensions[3][0];
  }

  // ---------------------------------------------------------------------------
  // Sums and maxima
  // ---------------------------------------------------------------------------

  function Sum(xs: seq<int>): int {
    if |xs| == 0 then 0 else Sum(xs[..|xs| - 1]) + xs[|xs| - 1]
  }

  /** Pointwise bounds carry over to the sums. */
  lemma {:induction false} SumMonotone(xs: seq<int>, ys: seq<int>)
    requires |xs| == |ys|
    requires forall i :: 0 <= i < |xs| ==> 0 <= xs[i] <= ys[i]
    ensures 0 <= Sum(xs) <= Sum(ys)
  {
    if |xs| > 0 {
      SumMonotone(xs[..|xs| - 1], ys[..|ys| - 1]);
    }
  }

  /** A sum of non-negative terms is zero exactly when every term is. */
  lemma {:induction false} SumZeroIffAllZero(xs: seq<int>)
    requires forall i :: 0 <= i < |xs| ==> 0 <= xs[i]
    ensures Sum(xs) == 0 <==> forall i :: 0 <= i < |xs| ==> xs[i] == 0
  {
    if |xs| > 0 {
      var p := xs[..|xs| - 1];
      SumZeroIffAllZero(p);
      SumMonotone(p, p);
      if Sum(xs) == 0 {
        forall i | 0 <= i < |xs| ensures xs[i] == 0 {
          if i < |xs| - 1 {
            assert xs[i] == p[i];
          }
        }
      }
    }
  }

  /** Python's `max` over the values. */
  function MaxOf(xs: seq<int>): (m: int)
    requires |xs| > 0
    ensures m in xs
    ensures forall i :: 0 <= i < |xs| ==> xs[i] <= m
  {
    if |xs| == 1 then xs[0]
    else
      var m := MaxOf(xs[..|xs| - 1]);
      if xs[|xs| - 1] > m then xs[|xs| - 1] else m
  }

  /** The positions among the first n at which the value is m, in increasing order. */
  function Positions(xs: seq<int>, m: int, n: nat): (ps: seq<nat>)
    requires n <= |xs|
    ensures forall k :: 0 <= k < |ps| ==> ps[k] < n && xs[ps[k]] == m
    ensures forall k, l :: 0 <= k < l < |ps| ==> ps[k] < ps[l]
  {
    if n == 0 then []
    else Positions(xs, m, n - 1) + (if xs[n - 1] == m then [n - 1] else [])
  }

  /** Every position holding the value is listed. */
  lemma {:induction false} PositionsComplete(xs: seq<int>, m: int, n: nat, i: nat)
    requires n <= |xs| && i < n && xs[i] == m
    ensures i in Positions(xs, m, n)
  {
    if i < n - 1 {
      PositionsComplete(xs, m, n - 1, i);
    }
  }

  /** Positions that do not hold the value add nothing. */
  lemma {:induction false} PositionsSkip(xs: seq<int>, m: int, lo: nat, n: nat)
    requires lo <= n <= |xs|
    requires forall i :: lo <= i < n ==> xs[i] != m
    ensures Positions(xs, m, n) == Positions(xs, m, lo)
  {
    if n > lo {
      PositionsSkip(xs, m, lo, n - 1);
    }
  }

  // ---------------------------------------------------------------------------
  // Top dimensions
  // ---------------------------------------------------------------------------

  /** The positions holding the maximum value, in increasing order. */
  function TopPositions(values: seq<int>): (ps: seq<nat>)
    requires |values| > 0
    ensures |ps| > 0
    ensures forall k :: 0 <= k < |ps| ==> ps[k] < |values| && values[ps[k]] == MaxOf(values)
    ensures forall k, l :: 0 <= k < l < |ps| ==> ps[k] < ps[l]
  {
    var ps := Positions(values, MaxOf(values), |values|);
    assert ps != [] by {
      var i :| 0 <= i < |values| && values[i] == MaxOf(values);
      PositionsComplete(values, MaxOf(values), |values|, i);
    }
    ps
  }

  /** Every position holding the maximum is among the top positions. */
  lemma TopPositionsComplete(values: seq<int>, i: nat)
    requires i < |values| && values[i] == MaxOf(values)
    ensures i in TopPositions(values)
  {
    PositionsComplete(values, MaxOf(values), |values|, i);
  }

  /** Every dimension whose value equals the maximum, in declaration order: the
      comprehension over the score dictionary, whose order is the order in which the
      rating loop filled it. */
  function TopDimensions(values: seq<int>): (top: seq<string>)
    requires |values| == |ValueDimensions|
    ensures |top| == |TopPositions(values)| > 0
    ensures forall k :: 0 <= k < |top| ==> top[k] == ValueDimensions[TopPositions(values)[k]]
  {
    var ps := TopPositions(values);
    seq(|ps|, k requires 0 <= k < |ps| => ValueDimensions[ps[k]])
  }

  /** A dimension is among the top dimensions exactly when its value is the maximum. */
  lemma TopDimensionsAreTheMaxima(values: seq<int>, i: nat)
    requires |values| == |ValueDimensions| && i < |values|
    ensures ValueDimensions[i] in TopDimensions(values) <==> values[i] == MaxOf(values)
  {
    var ps, top := TopPositions(values), TopDimensions(values);
    if values[i] == MaxOf(values) {
      TopPositionsComplete(values, i);
      var k :| 0 <= k < |ps| && ps[k] == i;
      assert top[k] == ValueDimensions[i];
    }
    if ValueDimensions[i] in top {
      var k :| 0 <= k < |top| && top[k] == ValueDimensions[i];
      DimensionNamesDistinct();
      assert ps[k] == i;
    }
  }

  /** When every value is the same, the positions of the maximum are all positions. */
  lemma {:induction false} PositionsAllTied(xs: seq<int>, m: int, n: nat)
    requires n <= |xs| && forall i :: 0 <= i < n ==> xs[i] == m
    ensures |Positions(xs, m, n)| == n
    ensures forall k :: 0 <= k < n ==> Positions(xs, m, n)[k] == k
  {
    if n > 0 {
      PositionsAllTied(xs, m, n - 1);
    }
  }

  /** When every dimension has the same value, all six are top dimensions. */
  lemma TopIsAllWhenAllTied(values: seq<int>)
    requires |values| == |ValueDimensions|
    requires forall i :: 0 <= i < |values| ==> values[i] == values[0]
    ensures TopDimensions(values) == ValueDimensions
  {
    var m := MaxOf(values);
    assert m == values[0];
    PositionsAllTied(values, m, |values|);
  }

  // ---------------------------------------------------------------------------
  // Scores
  // ---------------------------------------------------------------------------

  /** The score and top dimension(s) shown on the results page. */
  datatype Valuation = Valuation(scorePercent: real, top: seq<string>)

  /** The result of the weighted calculation: a valuation, or the exception raised
      when the total weight is zero. */
  datatype WeightedOutcome = Valued(valuation: Valuation) | ZeroDivisionError

  /** `part / whole * 100`, the shape of both score formulas. */
  function Percent(part: int, whole: int): (p: real)
    requires whole != 0
    ensures p * whole as real == part as real * 100.0
    ensures 0 <= part <= whole ==> 0.0 <= p <= 100.0
  {
    var q := part as real / whole as real;
    assert q * whole as real == part as real;
    assert 0 <= part <= whole ==> 0.0 <= q <= 1.0;
    q * 100.0
  }

  /** Star-only valuation: the star total as a percentage of six times five stars. */
  function StarValuation(stars: seq<int>): (v: Valuation)
    requires |stars| == |ValueDimensions|
    ensures v.scorePercent == Percent(Sum(stars), |ValueDimensions| * MaxStars)
    ensures StarsInRange(stars) ==> 0.0 <= v.scorePercent <= 100.0
    ensures v.top == TopDimensions(stars)
  {
    var totalStars := Sum(stars);
    var maxPossible := |ValueDimensions| * MaxStars;
    StarTotalBounds(stars);
    Valuation(Percent(totalStars, maxPossible), TopDimensions(stars))
  }

  /** Summing n copies of c gives n * c. */
  lemma {:induction false} SumConstant(xs: seq<int>, c: int)
    requires forall i :: 0 <= i < |xs| ==> xs[i] == c
    ensures Sum(xs) == |xs| * c
  {
    if |xs| > 0 {
      SumConstant(xs[..|xs| - 1], c);
    }
  }

  lemma StarTotalBounds(stars: seq<int>)
    requires |stars| == |ValueDimensions|
    ensures StarsInRange(stars) ==> 0 <= Sum(stars) <= |ValueDimensions| * MaxStars
  {
    if StarsInRange(stars) {
      var fives := Uniform(MaxStars);
      SumMonotone(stars, fives);
      SumConstant(fives, MaxStars);
    }
  }

  /** Each dimension's weighted value, `stars * weight` (in tenths of a star). */
  function WeightedValues(stars: seq<int>, weights: seq<int>): (ws: seq<int>)
    requires |stars| == |weights|
    ensures |ws| == |stars|
  {
    seq(|stars|, i requires 0 <= i < |stars| => stars[i] * weights[i])
  }

  /** The most each dimension can contribute, `5 * weight` (in tenths of a star). */
  function WeightedMaxima(weights: seq<int>): (ms: seq<int>)
    ensures |ms| == |weights|
  {
    seq(|weights|, i requires 0 <= i < |weights| => MaxStars * weights[i])
  }

  /** Weighted valuation: the weighted total as a percentage of the weighted maximum,
      and the dimensions with the highest weighted value. The total weight is not
      checked first, so a zero total raises. */
  function WeightedValuation(stars: seq<int>, weights: seq<int>): (o: WeightedOutcome)
    requires |stars| == |ValueDimensions| && |weights| == |ValueDimensions|
    ensures o.ZeroDivisionError? <==> Sum(WeightedMaxima(weights)) == 0
    ensures o.Valued? ==>
      o.valuation.scorePercent == Percent(Sum(WeightedValues(stars, weights)), Sum(WeightedMaxima(weights)))
    ensures o.Valued? && StarsInRange(stars) && WeightsInRange(weights) ==>
      0.0 <= o.valuation.scorePercent <= 100.0
    ensures o.Valued? ==> o.valuation.top == TopDimensions(WeightedValues(stars, weights))
  {
    var weighted := WeightedValues(stars, weights);
    var totalScore := Sum(weighted);
    var maxPossible := Sum(WeightedMaxima(weights));
    if maxPossible == 0 then ZeroDivisionError
    else
      WeightedTotalBounds(stars, weights);
      Valued(Valuation(Percent(totalScore, maxPossible), TopDimensions(weighted)))
  }

  lemma WeightedTotalBounds(stars: seq<int>, weights: seq<int>)
    requires |stars| == |weights|
    ensures StarsInRange(stars) && WeightsInRange(weights) ==>
      0 <= Sum(WeightedValues(stars, weights)) <= Sum(WeightedMaxima(weights))
  {
    if StarsInRange(stars) && WeightsInRange(weights) {
      var ws, ms := WeightedValues(stars, weights), WeightedMaxima(weights);
      forall i | 0 <= i < |ws| ensures 0 <= ws[i] <= ms[i] {
        assert ws[i] == stars[i] * weights[i] && ms[i] == MaxStars * weights[i];
      }
      SumMonotone(ws, ms);
    }
  }

  /** With slider weights, the calculation raises exactly when every weight is 0.0. */
  lemma {:induction false} ZeroDivisionIffAllWeightsZero(stars: seq<int>, weights: seq<int>)
    requires |stars| == |ValueDimensions| && |weights| == |ValueDimensions|
    requires WeightsInRange(weights)
    ensures WeightedValuation(stars, weights).ZeroDivisionError? <==>
      forall i :: 0 <= i < |weights| ==> weights[i] == 0
  {
    var ms := WeightedMaxima(weights);
    SumZeroIffAllZero(ms);
    assert forall i :: 0 <= i < |weights| ==> (ms[i] == 0 <==> weights[i] == 0);
  }

  /** With every weight equal and above zero (1.0 when weights are off, 0.5 for
      untouched sliders) the weighted score is the star-only score, and the top
      dimensions agree. */
  lemma EqualWeightsMatchStarValuation(stars: seq<int>, c: int)
    requires |stars| == |ValueDimensions| && 0 < c
    ensures var o := WeightedValuation(stars, Uniform(c));
      o.Valued? && o.valuation.top == StarValuation(stars).top &&
      o.valuation.scorePercent == StarValuation(stars).scorePercent
  {
    EqualWeightsScore(stars, c);
    EqualWeightTotals(stars, c);
    TopOfScaled(stars, WeightedValues(stars, Uniform(c)), c);
  }

  lemma EqualWeightsScore(stars: seq<int>, c: int)
    requires |stars| == |ValueDimensions| && 0 < c
    ensures var o := WeightedValuation(stars, Uniform(c));
      o.Valued? && o.valuation.scorePercent == StarValuation(stars).scorePercent
  {
    EqualWeightTotals(stars, c);
    PercentScaled(Sum(stars), |ValueDimensions| * MaxStars, c);
  }

  lemma EqualWeightTotals(stars: seq<int>, c: int)
    requires |stars| == |ValueDimensions|
    ensures var weights := Uniform(c);
      Sum(WeightedValues(stars, weights)) == c * Sum(stars) &&
      Sum(WeightedMaxima(weights)) == c * (|ValueDimensions| * MaxStars) &&
      forall i :: 0 <= i < |stars| ==> WeightedValues(stars, weights)[i] == c * stars[i]
  {
    var weights := Uniform(c);
    var ws := WeightedValues(stars, weights);
    var ms := WeightedMaxima(weights);
    forall i | 0 <= i < |stars| ensures ws[i] == c * stars[i] {
      assert ws[i] == stars[i] * weights[i];
    }
    SumScaled(stars, ws, c);
    assert forall i :: 0 <= i < |ms| ==> ms[i] == 5 * c;
    SumConstant(ms, 5 * c);
  }

  /** Scaling the part and the whole by the same positive factor keeps the
      percentage. */
  lemma PercentScaled(part: int, whole: int, c: int)
    requires whole != 0 && c > 0
    ensures c * whole != 0
    ensures Percent(c * part, c * whole) == Percent(part, whole)
  {
    var k, w, x := c as real, whole as real, part as real;
    assert (c * whole) as real == k * w;
    assert (c * part) as real == k * x;
    CancelFactor(Percent(c * part, c * whole), Percent(part, whole), k, w, x);
  }

  lemma CancelFactor(p: real, q: real, k: real, w: real, x: real)
    requires k != 0.0 && w != 0.0
    requires p * (k * w) == (k * x) * 100.0 && q * w == x * 100.0
    ensures p == q
  {
    assert k * (p * w) == k * (q * w);
  }

  /** Scaling every term by c scales the sum by c. */
  lemma {:induction false} SumScaled(xs: seq<int>, ys: seq<int>, c: int)
    requires |xs| == |ys| && forall i :: 0 <= i < |xs| ==> ys[i] == c * xs[i]
    ensures Sum(ys) == c * Sum(xs)
  {
    if |xs| > 0 {
      SumScaled(xs[..|xs| - 1], ys[..|ys| - 1], c);
    }
  }

  /** Scaling every value by the same positive factor keeps the same top dimensions. */
  lemma TopOfScaled(xs: seq<int>, ys: seq<int>, c: int)
    requires |xs| == |ValueDimensions| && |ys| == |xs| && c > 0
    requires forall i :: 0 <= i < |xs| ==> ys[i] == c * xs[i]
    ensures TopDimensions(ys) == TopDimensions(xs)
  {
    var m := MaxOf(xs);
    forall k | 0 <= k < |xs| ensures ys[k] <= c * m && (ys[k] == c * m <==> xs[k] == m) {
      ScaleMonotone(c, xs[k], m);
    }
    var i :| 0 <= i < |xs| && xs[i] == m;
    assert ys[i] == c * m;
    assert MaxOf(ys) == c * m;
    PositionsAgree(xs, ys, m, c * m, |xs|);
  }

  lemma ScaleMonotone(c: int, a: int, b: int)
    requires c > 0 && a <= b
    ensures c * a <= c * b
    ensures c * a == c * b <==> a == b
  {
    assert c * b - c * a == c * (b - a);
  }

  lemma {:induction false} PositionsAgree(xs: seq<int>, ys: seq<int>, m: int, m': int, n: nat)
    requires n <= |xs| && |ys| == |xs|
    requires forall k :: 0 <= k < |xs| ==> (ys[k] == m' <==> xs[k] == m)
    ensures Positions(ys, m', n) == Positions(xs, m, n)
  {
    if n > 0 {
      PositionsAgree(xs, ys, m, m', n - 1);
    }
  }

  // ---------------------------------------------------------------------------
  // The stored record
  // ---------------------------------------------------------------------------

  /** One stored valuation. Stars and weights are listed per dimension in
      declaration order; weights are in tenths. */
  datatype Payload = Payload(
    submitId: string,
    createdAt: string,
    datasetSig: string,
    useCase: string,
    applyWeights: bool,
    stars: seq<int>,
    weights: seq<int>,
    finalScorePercent: real)

  /** The results of one calculation: what the page shows and what it saves. */
  datatype Results = Results(valuation: Valuation, payload: Payload)

  /** Star-only results. The submission id and timestamp come from the caller. */
  function StarResults(submitId: string, createdAt: string, datasetSig: string, useCase: string,
                       stars: seq<int>): (r: Results)
    requires |stars| == |ValueDimensions|
    ensures r.valuation == StarValuation(stars)
    ensures r.payload.submitId == submitId && r.payload.createdAt == createdAt
    ensures r.payload.datasetSig == datasetSig && r.payload.useCase == useCase
    ensures !r.payload.applyWeights
    ensures r.payload.stars == stars
    ensures |r.payload.weights| == |ValueDimensions|
    ensures forall i :: 0 <= i < |r.payload.weights| ==> r.payload.weights[i] == FullWeight
    ensures r.payload.finalScorePercent == r.valuation.scorePercent
  {
    var v := StarValuation(stars);
    Results(v, Payload(submitId, createdAt, datasetSig, useCase, false, stars,
                       Uniform(FullWeight), v.scorePercent))
  }

  /** Weighted results, or the exception when the total weight is zero (raised before
      any record is built). */
  datatype WeightedResultsOutcome = Computed(results: Results) | NotComputed

  function WeightedResults(submitId: string, createdAt: string, datasetSig: string, useCase: string,
                           stars: seq<int>, weights: seq<int>): (r: WeightedResultsOutcome)
    requires |stars| == |ValueDimensions| && |weights| == |ValueDimensions|
    ensures r.NotComputed? <==> WeightedValuation(stars, weights).ZeroDivisionError?
    ensures r.Computed? ==> r.results.valuation == WeightedValuation(stars, weights).valuation
    ensures r.Computed? ==>
      var p := r.results.payload;
      p.submitId == submitId && p.createdAt == createdAt &&
      p.datasetSig == datasetSig && p.useCase == useCase &&
      p.applyWeights && p.stars == stars && p.weights == weights &&
      p.finalScorePercent == r.results.valuation.scorePercent
  {
    match WeightedValuation(stars, weights)
    case ZeroDivisionError => NotComputed
    case Valued(v) =>
      Computed(Results(v, Payload(submitId, createdAt, datasetSig, useCase, true, stars, weights,
                                  v.scorePercent)))
  }

  // ---------------------------------------------------------------------------
  // Tags
  // ---------------------------------------------------------------------------

  /** The values the summary table ranks: the stars, or `stars * weight` when
      weights are applied. */
  function TagValues(applyWeights: bool, stars: seq<int>, weights: seq<int>): (vs: seq<int>)
    requires |stars| == |ValueDimensions| && |weights| == |ValueDimensions|
    ensures |vs| == |ValueDimensions|
  {
    if applyWeights then WeightedValues(stars, weights) else stars
  }

  /** The tags shown under the summary: none when the top score is 0, otherwise every
      dimension holding the top score. The display sort does not fix their order, so
      the tags are a set. */
  function Tags(values: seq<int>): (tags: set<string>)
    requires |values| == |ValueDimensions|
    ensures MaxOf(values) <= 0 ==> tags == {}
    ensures MaxOf(values) > 0 ==> forall i :: 0 <= i < |values| ==>
      (ValueDimensions[i] in tags <==> values[i] == MaxOf(values))
    ensures forall d :: d in tags ==> d in ValueDimensions
  {
    DimensionNamesDistinct();
    var topScore := MaxOf(values);
    if topScore > 0 then
      set i | 0 <= i < |values| && values[i] == topScore :: ValueDimensions[i]
    else {}
  }

  /** Above zero, the tags are exactly the top dimensions of the aggregate. */
  lemma TagsAreTopDimensions(values: seq<int>)
    requires |values| == |ValueDimensions|
    ensures MaxOf(values) > 0 ==> Tags(values) == set d | d in TopDimensions(values)
    ensures MaxOf(values) <= 0 ==> Tags(values) == {}
  {
    if MaxOf(values) > 0 {
      var top := TopDimensions(values);
      forall d | d in Tags(values) ensures d in top {
        var i :| 0 <= i < |values| && values[i] == MaxOf(values) && ValueDimensions[i] == d;
        TopDimensionsAreTheMaxima(values, i);
      }
      forall d | d in top ensures d in Tags(values) {
        var k :| 0 <= k < |top| && top[k] == d;
        var i := TopPositions(values)[k];
        TopDimensionsAreTheMaxima(values, i);
      }
    }
  }

  /** All ratings at zero: the aggregate still ties every dimension, but no tag is shown. */
  lemma AllZeroTiesEverythingButShowsNoTags()
    ensures TopDimensions([0, 0, 0, 0, 0, 0]) == ValueDimensions
    ensures Tags([0, 0, 0, 0, 0, 0]) == {}
  {
    TopIsAllWhenAllTied([0, 0, 0, 0, 0, 0]);
  }

  // ---------------------------------------------------------------------------
  // Star strings
  // ---------------------------------------------------------------------------

  const FilledStar: char := '\U{2B50}'
  const HollowStar: char := '\U{2606}'

  /** Python's `c * n`: n copies of c, none when n is not positive. */
  function Repeat(c: char, n: int): (s: string)
    ensures |s| == if n > 0 then n else 0
    ensures forall k :: 0 <= k < |s| ==> s[k] == c
  {
    if n <= 0 then [] else [c] + Repeat(c, n - 1)
  }

  /** The rating forced into [0, maxStars] (just 0 when maxStars is negative). */
  function Clamp(score: int, maxStars: int): (s: int)
    ensures s >= 0
    ensures maxStars >= 0 ==> s <= maxStars
    ensures 0 <= score && score <= maxStars ==> s == score
    ensures 0 <= maxStars < score ==> s == maxStars
    ensures score < 0 || maxStars < 0 ==> s == 0
  {
    var m := if maxStars < score then maxStars else score;
    if m < 0 then 0 else m
  }

  /** `s` filled stars followed by `maxStars - s` hollow ones, s the clamped rating. */
  function StarString(score: int, maxStars: int): (r: string)
    ensures |r| == if maxStars > 0 then maxStars else 0
    ensures forall k :: 0 <= k < |r| ==> (r[k] == FilledStar <==> k < Clamp(score, maxStars))
    ensures forall k :: 0 <= k < |r| ==> r[k] == FilledStar || r[k] == HollowStar
  {
    var s := Clamp(score, maxStars);
    Repeat(FilledStar, s) + Repeat(HollowStar, maxStars - s)
  }

  function CountFilled(r: string): (n: nat)
    ensures n <= |r|
  {
    if |r| == 0 then 0 else (if r[0] == FilledStar then 1 else 0) + CountFilled(r[1..])
  }

  /** Counting the filled stars of a five-star string gives back the clamped rating. */
  lemma StarStringCountsBack(score: int)
    ensures |StarString(score, MaxStars)| == MaxStars
    ensures CountFilled(StarString(score, MaxStars)) == Clamp(score, MaxStars)
  {
    FilledPrefixCount(StarString(score, MaxStars), Clamp(score, MaxStars));
  }

  lemma {:induction false} FilledPrefixCount(r: string, s: nat)
    requires s <= |r|
    requires forall k :: 0 <= k < |r| ==> (r[k] == FilledStar <==> k < s)
    ensures CountFilled(r) == s
  {
    if |r| > 0 {
      FilledPrefixCount(r[1..], if s > 0 then s - 1 else 0);
    }
  }

  // ---------------------------------------------------------------------------
  // Worked examples
  // ---------------------------------------------------------------------------

  /** Five stars on Economic only: 5/30 of the maximum, and Economic alone on top. */
  lemma EconomicOnlyExample()
    ensures StarValuation([5, 0, 0, 0, 0, 0]).scorePercent == 50.0 / 3.0
    ensures StarValuation([5, 0, 0, 0, 0, 0]).top == ["Economic"]
  {
    var s := [5, 0, 0, 0, 0, 0];
    SumOfSix(s);
    EconomicOnlyTop();
  }

  lemma EconomicOnlyTop()
    ensures TopPositions([5, 0, 0, 0, 0, 0]) == [0]
  {
    var s := [5, 0, 0, 0, 0, 0];
    var m := MaxOf(s);
    assert s[0] <= m;
    assert m == 5;
    assert Positions(s, 5, 1) == [0];
    assert Positions(s, 5, 2) == [0];
    assert Positions(s, 5, 3) == [0];
    assert Positions(s, 5, 4) == [0];
    assert Positions(s, 5, 5) == [0];
  }

  /** Every weight 0.5 and every rating four stars: 80 percent, all six tied on top. */
  lemma HalfWeightsFourStarsExample()
    ensures var o := WeightedValuation([4, 4, 4, 4, 4, 4], [5, 5, 5, 5, 5, 5]);
      o.Valued? && o.valuation.scorePercent == 80.0 && o.valuation.top == ValueDimensions
  {
    var s, w := [4, 4, 4, 4, 4, 4], [5, 5, 5, 5, 5, 5];
    HalfWeightsFourStarsTotals();
    var ws := WeightedValues(s, w);
    TopIsAllWhenAllTied(ws);
    var o := WeightedValuation(s, w);
    assert o.valuation.scorePercent * 150.0 == 12000.0;
  }

  lemma HalfWeightsFourStarsTotals()
    ensures var ws := WeightedValues([4, 4, 4, 4, 4, 4], [5, 5, 5, 5, 5, 5]);
      Sum(ws) == 120 && forall i :: 0 <= i < |ws| ==> ws[i] == 20
    ensures Sum(WeightedMaxima([5, 5, 5, 5, 5, 5])) == 150
  {
    var s, w := [4, 4, 4, 4, 4, 4], [5, 5, 5, 5, 5, 5];
    var ws, ms := WeightedValues(s, w), WeightedMaxima(w);
    assert forall i :: 0 <= i < |ws| ==> ws[i] == s[i] * w[i] == 20;
    assert forall i :: 0 <= i < |ms| ==> ms[i] == MaxStars * w[i] == 25;
    SumConstant(ws, 20);
    SumConstant(ms, 25);
  }

  /** Three stars on Economic and Social, fewer elsewhere: the two tie on top, in
      declaration order. */
  lemma TieExample()
    ensures StarValuation([3, 3, 1, 0, 0, 0]).top == ["Economic", "Social"]
  {
    TiePositions([3, 3, 1, 0, 0, 0]);
  }

  lemma TiePositions(s: seq<int>)
    requires |s| == 6 && s[0] == 3 && s[1] == 3 && s[2] == 1
    requires s[3] == 0 && s[4] == 0 && s[5] == 0
    ensures TopPositions(s) == [0, 1]
  {
    TieMax(s);
    TieFirstTwo(s);
    PositionsSkip(s, 3, 2, 6);
  }

  lemma TieMax(s: seq<int>)
    requires |s| == 6 && s[0] == 3 && s[1] == 3 && s[2] == 1
    requires s[3] == 0 && s[4] == 0 && s[5] == 0
    ensures MaxOf(s) == 3
  {
    assert s[0] <= MaxOf(s);
  }

  lemma TieFirstTwo(s: seq<int>)
    requires |s| == 6 && s[0] == 3 && s[1] == 3
    ensures Positions(s, 3, 2) == [0, 1]
  {
    assert Positions(s, 3, 1) == [0];
  }

  lemma SumOfSix(s: seq<int>)
    requires |s| == 6
    ensures Sum(s) == s[0] + s[1] + s[2] + s[3] + s[4] + s[5]
  {
    assert s[..1][..0] == [];
    assert Sum(s[..1]) == s[0];
    assert s[..2][..1] == s[..1];
    assert Sum(s[..2]) == s[0] + s[1];
    assert s[..3][..2] == s[..2];
    assert Sum(s[..3]) == s[0] + s[1] + s[2];
    assert s[..4][..3] == s[..3];
    assert Sum(s[..4]) == s[0] + s[1] + s[2] + s[3];
    assert s[..5][..4] == s[..4];
    assert Sum(s[..5]) == s[0] + s[1] + s[2] + s[3] + s[4];
    assert s[..6] == s;
  }
}
