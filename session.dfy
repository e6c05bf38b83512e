/** The page's session state and the callbacks that change it: resetting on a new
    upload, resetting all ratings or one dimension, confirming, requesting a
    calculation and saving its results once.

    The fixed-name entries of the session are fields; the entries keyed by widget
    (the star widgets' `rating_...` keys, the sliders' `weight_...` keys and any other
    widget key) are the map `widgets`, holding the integer each widget reports
    (weights in tenths). */
module SessionState {
  import opened Valuation
  import opened SessionKeys
  import opened SaveGuard

  /** The last three letters of each dimension's name, all lower-case. */
  const DimensionEndings: seq<string> := ["mic", "ial", "tal", "ral", "ent", "ity"]

  lemma DimensionEnding(i: nat)
    requires i < |ValueDimensions|
    ensures |ValueDimensions[i]| >= 3
    ensures ValueDimensions[i][|ValueDimensions[i]| - 3..] == DimensionEndings[i]
  {
    assert forall n :: 0 <= n < |ValueDimensions| ==>
      ValueDimensions[n][|ValueDimensions[n]| - 3..] == DimensionEndings[n];
  }

  /** The endings differ, and key normalisation keeps them as they are. */
  lemma DimensionEndingsDistinct(i: nat, j: nat)
    requires i < |ValueDimensions| && j < |ValueDimensions|
    ensures |ValueDimensions[i]| >= 3
    ensures forall k :: |ValueDimensions[i]| - 3 <= k < |ValueDimensions[i]| ==>
      ValueDimensions[i][k] != ' ' && !IsUpper(ValueDimensions[i][k])
    ensures ValueDimensions[i][|ValueDimensions[i]| - 3..] == ValueDimensions[j][|ValueDimensions[j]| - 3..] ==> i == j
  {
    DimensionEnding(i);
    DimensionEnding(j);
    var d, e := ValueDimensions[i], DimensionEndings[i];
    forall k | |d| - 3 <= k < |d| ensures d[k] != ' ' && !IsUpper(d[k]) {
      assert d[k] == e[k - (|d| - 3)];
    }
  }

  /** A star-widget key ends with the last three letters of its dimension. */
  lemma RatingKeyEnding(a: nat, b: nat, sig: string, use: string, i: nat)
    requires i < |ValueDimensions|
    ensures var key := RatingKey(a, b, sig, use, ValueDimensions[i]);
      |key| >= 3 && key[|key| - 3..] == ValueDimensions[i][|ValueDimensions[i]| - 3..]
  {
    var dim := ValueDimensions[i];
    DimensionEndingsDistinct(i, i);
    var pre := sig + "_" + use + "_";
    var fixedPart := RatingPrefix + Decimal(a) + "_" + Decimal(b) + "_";
    assert sig + "_" + use + "_" + dim == pre + dim;
    NormalizeConcat(pre, dim);
    var key := RatingKey(a, b, sig, use, dim);
    assert key == (fixedPart + Normalize(pre)) + Normalize(dim);
    SuffixOfConcat(fixedPart + Normalize(pre), Normalize(dim), 3);
    assert Normalize(dim)[|dim| - 3..] == dim[|dim| - 3..];
  }

  lemma SuffixOfConcat<T>(x: seq<T>, y: seq<T>, t: nat)
    requires t <= |y|
    ensures (x + y)[|x + y| - t..] == y[|y| - t..]
  {
  }

  /** Equal star-widget keys belong to the same dimension. */
  lemma RatingKeyDeterminesDimension(a: nat, b: nat, sig: string, use: string, i: nat,
                                     a': nat, b': nat, sig': string, use': string, j: nat)
    requires i < |ValueDimensions| && j < |ValueDimensions|
    requires RatingKey(a, b, sig, use, ValueDimensions[i]) == RatingKey(a', b', sig', use', ValueDimensions[j])
    ensures i == j
  {
    RatingKeyEnding(a, b, sig, use, i);
    RatingKeyEnding(a', b', sig', use', j);
    DimensionEndingsDistinct(i, j);
  }

  // ---------------------------------------------------------------------------
  // What the widgets read, as functions of the widget map and the counters
  // ---------------------------------------------------------------------------

  /** A dimension's reset counter, 0 when it has none. */
  function NonceOf(dimNonce: map<string, nat>, dim: string): nat {
    if dim in dimNonce then dimNonce[dim] else 0
  }

  /** The key under which a dimension's star widget keeps its rating. */
  function KeyFor(ratingsNonce: nat, dimNonce: map<string, nat>, sig: string, use: string,
                  dim: string): string
  {
    RatingKey(ratingsNonce, NonceOf(dimNonce, dim), sig, use, dim)
  }

  /** What each star widget reports: the rating stored under its key, or the
      widget's default of 0 when that key holds nothing yet. */
  function StarsIn(widgets: map<string, int>, ratingsNonce: nat, dimNonce: map<string, nat>,
                   sig: string, use: string): (stars: seq<int>)
    ensures |stars| == |ValueDimensions|
  {
    seq(|ValueDimensions|, i requires 0 <= i < |ValueDimensions| =>
      var key := KeyFor(ratingsNonce, dimNonce, sig, use, ValueDimensions[i]);
      if key in widgets then widgets[key] else 0)
  }

  /** The weights the weighted calculation reads back, one per dimension in
      declaration order: each slider's value, or 0.5 when its key is absent. */
  function WeightsIn(widgets: map<string, int>, sig: string): (ws: seq<int>)
    ensures |ws| == |ValueDimensions|
    ensures forall i :: 0 <= i < |ws| ==>
      ws[i] == (if WeightKey(sig, ValueDimensions[i]) in widgets
                then widgets[WeightKey(sig, ValueDimensions[i])] else DefaultWeight)
  {
    seq(|ValueDimensions|, i requires 0 <= i < |ValueDimensions| =>
      var key := WeightKey(sig, ValueDimensions[i]);
      if key in widgets then widgets[key] else DefaultWeight)
  }

  /** No star-widget key ahead of the counters is in use: every stored rating sits
      under a key whose shared counter is behind, or equal with a dimension counter
      not ahead. So raising a counter always lands on a key that holds nothing. */
  ghost predicate KeysBehind(widgets: map<string, int>, ratingsNonce: nat, dimNonce: map<string, nat>) {
    forall a: nat, b: nat, sig, use, i: nat ::
      i < |ValueDimensions| && RatingKey(a, b, sig, use, ValueDimensions[i]) in widgets ==>
        a < ratingsNonce || (a == ratingsNonce && b <= NonceOf(dimNonce, ValueDimensions[i]))
  }

  /** Storing a rating under a dimension's current key keeps the keys behind. */
  lemma RatingKeepsKeysBehind(widgets: map<string, int>, ratingsNonce: nat, dimNonce: map<string, nat>,
                              sig: string, use: string, j: nat, stars: int)
    requires KeysBehind(widgets, ratingsNonce, dimNonce) && j < |ValueDimensions|
    ensures KeysBehind(widgets[KeyFor(ratingsNonce, dimNonce, sig, use, ValueDimensions[j]) := stars],
                       ratingsNonce, dimNonce)
  {
    var dim := ValueDimensions[j];
    var w := widgets[KeyFor(ratingsNonce, dimNonce, sig, use, dim) := stars];
    forall a: nat, b: nat, sig', use', i: nat |
      i < |ValueDimensions| && RatingKey(a, b, sig', use', ValueDimensions[i]) in w
      ensures a < ratingsNonce || (a == ratingsNonce && b <= NonceOf(dimNonce, ValueDimensions[i]))
    {
      if RatingKey(a, b, sig', use', ValueDimensions[i]) == KeyFor(ratingsNonce, dimNonce, sig, use, dim) {
        RatingKeyDeterminesNonces(a, b, sig', use', ValueDimensions[i],
                                  ratingsNonce, NonceOf(dimNonce, dim), sig, use, dim);
        RatingKeyDeterminesDimension(a, b, sig', use', i, ratingsNonce, NonceOf(dimNonce, dim), sig, use, j);
      }
    }
  }

  /** A value stored under a key that is not a star-widget key keeps the keys behind. */
  lemma OtherWidgetKeepsKeysBehind(widgets: map<string, int>, ratingsNonce: nat, dimNonce: map<string, nat>,
                                   key: string, value: int)
    requires KeysBehind(widgets, ratingsNonce, dimNonce) && !StartsWith(key, RatingPrefix)
    ensures KeysBehind(widgets[key := value], ratingsNonce, dimNonce)
  {
  }

  /** With no star-widget or slider key left, every star widget reads 0, every
      slider reads its default, and the keys are behind whatever the counters. */
  lemma ClearedWidgetsReadDefaults(widgets: map<string, int>, ratingsNonce: nat, dimNonce: map<string, nat>)
    requires forall k :: k in widgets ==> !IsDependentKey(k)
    ensures forall sig, use, d :: KeyFor(ratingsNonce, dimNonce, sig, use, d) !in widgets
    ensures forall sig :: WeightsIn(widgets, sig) == Uniform(DefaultWeight)
    ensures forall sig, use :: StarsIn(widgets, ratingsNonce, dimNonce, sig, use) == Uniform(0)
    ensures KeysBehind(widgets, ratingsNonce, dimNonce)
  {
  }

  /** Raising the shared counter to any larger value: the keys stay behind, every key
      is new and every star widget reads 0. */
  lemma RaisedCounterReadsZero(widgets: map<string, int>, ratingsNonce: nat, dimNonce: map<string, nat>,
                               raised: nat)
    requires KeysBehind(widgets, ratingsNonce, dimNonce) && ratingsNonce < raised
    ensures KeysBehind(widgets, raised, dimNonce)
    ensures forall sig, use :: StarsIn(widgets, raised, dimNonce, sig, use) == Uniform(0)
    ensures forall sig, use, d :: KeyFor(raised, dimNonce, sig, use, d) != KeyFor(ratingsNonce, dimNonce, sig, use, d)
  {
    forall sig, use, d
      ensures KeyFor(raised, dimNonce, sig, use, d) != KeyFor(ratingsNonce, dimNonce, sig, use, d)
    {
      if KeyFor(raised, dimNonce, sig, use, d) == KeyFor(ratingsNonce, dimNonce, sig, use, d) {
        RatingKeyDeterminesNonces(raised, NonceOf(dimNonce, d), sig, use, d,
                                  ratingsNonce, NonceOf(dimNonce, d), sig, use, d);
      }
    }
  }

  /** Raising one dimension's counter to any larger value: the keys stay behind, only
      that dimension's key changes, its star widget reads 0 and the others read what
      they read before. */
  lemma RaisedDimensionReadsZero(widgets: map<string, int>, ratingsNonce: nat, dimNonce: map<string, nat>,
                                 dim: string, raised: nat)
    requires KeysBehind(widgets, ratingsNonce, dimNonce) && NonceOf(dimNonce, dim) < raised
    ensures KeysBehind(widgets, ratingsNonce, dimNonce[dim := raised])
    ensures forall sig, use, i :: 0 <= i < |ValueDimensions| ==>
      StarsIn(widgets, ratingsNonce, dimNonce[dim := raised], sig, use)[i] ==
      if ValueDimensions[i] == dim then 0 else StarsIn(widgets, ratingsNonce, dimNonce, sig, use)[i]
    ensures forall sig, use ::
      KeyFor(ratingsNonce, dimNonce[dim := raised], sig, use, dim) != KeyFor(ratingsNonce, dimNonce, sig, use, dim)
    ensures forall sig, use, d :: d != dim ==>
      KeyFor(ratingsNonce, dimNonce[dim := raised], sig, use, d) == KeyFor(ratingsNonce, dimNonce, sig, use, d)
  {
    var b := NonceOf(dimNonce, dim);
    forall sig, use
      ensures KeyFor(ratingsNonce, dimNonce[dim := raised], sig, use, dim) != KeyFor(ratingsNonce, dimNonce, sig, use, dim)
    {
      if KeyFor(ratingsNonce, dimNonce[dim := raised], sig, use, dim) == KeyFor(ratingsNonce, dimNonce, sig, use, dim) {
        RatingKeyDeterminesNonces(ratingsNonce, raised, sig, use, dim, ratingsNonce, b, sig, use, dim);
      }
    }
    forall sig, use, i | 0 <= i < |ValueDimensions|
      ensures StarsIn(widgets, ratingsNonce, dimNonce[dim := raised], sig, use)[i] ==
        if ValueDimensions[i] == dim then 0 else StarsIn(widgets, ratingsNonce, dimNonce, sig, use)[i]
    {
      if ValueDimensions[i] == dim {
        assert RatingKey(ratingsNonce, raised, sig, use, ValueDimensions[i]) !in widgets;
      } else {
        assert NonceOf(dimNonce[dim := raised], ValueDimensions[i]) == NonceOf(dimNonce, ValueDimensions[i]);
      }
    }
  }

  class ValuationStore {
    var rows: map<string, Payload>

    constructor ()
      ensures rows == map[]
    {
      rows := map[];
    }

    /** One insert; a row with the same submission id already present wins. */
    method Save(p: Payload)
      modifies this
      ensures rows == InsertIfAbsent(old(rows), p)
    {
      if p.submitId !in rows {
        rows := rows[p.submitId := p];
      }
    }
  }

  /** The page's session state. `DimNonce`, `CurrentRatingKey`, `SliderWeights`,
      `StarValues` and `Valid` are the views of `NonceOf`, `KeyFor`, `WeightsIn`,
      `StarsIn` and `KeysBehind` on this session's fields; the properties are proved
      once, about those functions. */
  class Session {
    var scoresConfirmed: bool
    var calculateScores: bool
    var selectedUseCase: Option<string>
    var applyWeights: bool
    var ratingsNonce: nat
    var dimNonce: map<string, nat>
    var submitId: Option<string>
    var savedSubmitId: Option<string>
    var widgets: map<string, int>

    /** The state after the page's first run sets its defaults. */
    constructor ()
      ensures !scoresConfirmed && !calculateScores && !applyWeights
      ensures selectedUseCase == None && submitId == None && savedSubmitId == None
      ensures ratingsNonce == 0
      ensures dimNonce.Keys == set d | d in ValueDimensions
      ensures forall d :: d in dimNonce ==> dimNonce[d] == 0
      ensures widgets == map[]
      ensures Valid()
    {
      scoresConfirmed, calculateScores, applyWeights := false, false, false;
      selectedUseCase, submitId, savedSubmitId := None, None, None;
      ratingsNonce := 0;
      dimNonce := map d | d in ValueDimensions :: 0;
      widgets := map[];
    }

    function DimNonce(dim: string): nat
      reads this
    {
      NonceOf(dimNonce, dim)
    }

    /** The key under which a dimension's star widget keeps its rating now. */
    function CurrentRatingKey(datasetSig: string, useCase: string, dim: string): string
      reads this
    {
      KeyFor(ratingsNonce, dimNonce, datasetSig, useCase, dim)
    }

    function SliderWeights(datasetSig: string): (ws: seq<int>)
      reads this
      ensures |ws| == |ValueDimensions|
    {
      WeightsIn(widgets, datasetSig)
    }

    function StarValues(datasetSig: string, useCase: string): (stars: seq<int>)
      reads this
      ensures |stars| == |ValueDimensions|
    {
      StarsIn(widgets, ratingsNonce, dimNonce, datasetSig, useCase)
    }

    ghost predicate Valid()
      reads this
    {
      KeysBehind(widgets, ratingsNonce, dimNonce)
    }

    /** A star widget reports a rating: it is stored under the widget's current key. */
    method RateDimension(datasetSig: string, useCase: string, dim: string, stars: int)
      requires Valid() && dim in ValueDimensions
      modifies this`widgets
      ensures Valid()
      ensures widgets == old(widgets)[CurrentRatingKey(datasetSig, useCase, dim) := stars]
    {
      ghost var j :| 0 <= j < |ValueDimensions| && ValueDimensions[j] == dim;
      RatingKeepsKeysBehind(widgets, ratingsNonce, dimNonce, datasetSig, useCase, j, stars);
      widgets := widgets[CurrentRatingKey(datasetSig, useCase, dim) := stars];
    }

    /** A slider, or any other widget keyed into the widget map, reports a value. */
    method SetWidget(key: string, value: int)
      requires Valid() && !StartsWith(key, RatingPrefix)
      modifies this`widgets
      ensures Valid()
      ensures widgets == old(widgets)[key := value]
    {
      OtherWidgetKeepsKeysBehind(widgets, ratingsNonce, dimNonce, key, value);
      widgets := widgets[key := value];
    }

    /** Called when a different file is uploaded: flags and choices go back to their
        defaults, every star widget gets a new key, and every stored rating and weight
        is dropped. */
    method ResetDependentState()
      modifies this
      ensures !scoresConfirmed && !calculateScores
      ensures selectedUseCase == None && !applyWeights
      ensures ratingsNonce == old(ratingsNonce) + 1
      ensures widgets == map k | k in old(widgets) && !IsDependentKey(k) :: old(widgets)[k]
      ensures dimNonce == old(dimNonce) && submitId == old(submitId)
      ensures savedSubmitId == old(savedSubmitId)
      ensures forall sig, use, d :: CurrentRatingKey(sig, use, d) !in widgets
      ensures forall sig :: SliderWeights(sig) == Uniform(DefaultWeight)
      ensures forall sig, use :: StarValues(sig, use) == Uniform(0)
      ensures Valid()
    {
      scoresConfirmed := false;
      calculateScores := false;
      selectedUseCase := None;
      applyWeights := false;
      ratingsNonce := ratingsNonce + 1;
      DropDependentKeys();
      ClearedWidgetsReadDefaults(widgets, ratingsNonce, dimNonce);
    }

    /** Deletes every star-widget and slider key, one key at a time over a snapshot
        of the keys. */
    method DropDependentKeys()
      modifies this`widgets
      ensures widgets == map k | k in old(widgets) && !IsDependentKey(k) :: old(widgets)[k]
    {
      var keys := widgets.Keys;
      ghost var before := widgets;
      while keys != {}
        invariant keys <= before.Keys
        invariant widgets == map k | k in before && (k in keys || !IsDependentKey(k)) :: before[k]
        decreases |keys|
      {
        var k :| k in keys;
        if StartsWith(k, RatingPrefix) || StartsWith(k, WeightPrefix) {
          widgets := widgets - {k};
        }
        keys := keys - {k};
      }
    }

    /** The per-dimension Reset button: only that dimension's counter moves, so only
        its star widget gets a new key. */
    method ResetOneDimension(dim: string)
      requires Valid()
      modifies this`scoresConfirmed, this`calculateScores, this`dimNonce
      ensures Valid()
      ensures forall sig, use, i :: 0 <= i < |ValueDimensions| ==>
        StarValues(sig, use)[i] == if ValueDimensions[i] == dim then 0 else old(StarValues(sig, use)[i])
      ensures !scoresConfirmed && !calculateScores
      ensures DimNonce(dim) == old(DimNonce(dim)) + 1
      ensures forall d :: d != dim ==> DimNonce(d) == old(DimNonce(d))
      ensures dimNonce.Keys == old(dimNonce.Keys) + {dim}
      ensures forall sig, use :: CurrentRatingKey(sig, use, dim) != old(CurrentRatingKey(sig, use, dim))
      ensures forall sig, use, d :: d != dim ==> CurrentRatingKey(sig, use, d) == old(CurrentRatingKey(sig, use, d))
    {
      ghost var before := dimNonce;
      scoresConfirmed := false;
      calculateScores := false;
      dimNonce := dimNonce[dim := DimNonce(dim) + 1];
      RaisedDimensionReadsZero(widgets, ratingsNonce, before, dim, dimNonce[dim]);
    }

    /** The Update Scores button: the shared counter moves, so every star widget gets
        a new key and starts again from zero. */
    method ResetRatingsOnly()
      requires Valid()
      modifies this`scoresConfirmed, this`calculateScores, this`ratingsNonce
      ensures Valid()
      ensures forall sig, use :: StarValues(sig, use) == Uniform(0)
      ensures !scoresConfirmed && !calculateScores
      ensures ratingsNonce == old(ratingsNonce) + 1
      ensures forall sig, use, d :: CurrentRatingKey(sig, use, d) != old(CurrentRatingKey(sig, use, d))
    {
      ghost var before := ratingsNonce;
      scoresConfirmed := false;
      calculateScores := false;
      ratingsNonce := ratingsNonce + 1;
      RaisedCounterReadsZero(widgets, before, dimNonce, ratingsNonce);
    }

    /** The use-case select box, whose widget key is `selected_use_case`. */
    method SelectUseCase(useCase: Option<string>)
      requires Valid()
      modifies this`selectedUseCase
      ensures Valid()
      ensures selectedUseCase == useCase
    {
      selectedUseCase := useCase;
    }

    /** The "Apply custom weights?" checkbox, whose widget key is `apply_weights`. */
    method SetApplyWeights(apply: bool)
      requires Valid()
      modifies this`applyWeights
      ensures Valid()
      ensures applyWeights == apply
    {
      applyWeights := apply;
    }

    /** The Confirm Scores button. */
    method ConfirmScores()
      modifies this`scoresConfirmed
      ensures scoresConfirmed
    {
      scoresConfirmed := true;
    }

    /** The Calculate Scores button: a fresh submission id (an input here) is
        minted once per press, not per rerun. */
    method RequestCalculation(freshId: string)
      modifies this`calculateScores, this`submitId
      ensures calculateScores && submitId == Some(freshId)
    {
      calculateScores := true;
      submitId := Some(freshId);
    }

    /** The id the results section puts in its record; an unset id is falsy, as
        the empty string is. */
    function CurrentSubmitId(): (id: string)
      reads this
      ensures submitId == None ==> id == ""
      ensures submitId.Some? ==> Some(id) == submitId
    {
      if submitId.Some? then submitId.value else ""
    }

    /** The save step of the results section, which runs only while a calculation is
        requested, on a record carrying the session's submission id. The store's answer is an input: on
        success the id is remembered, on failure the error is shown and nothing is
        remembered, so a later rerun tries again. */
    method SaveResults(p: Payload, store: ValuationStore, saveSucceeds: bool) returns (attempted: bool)
      requires calculateScores && p.submitId == CurrentSubmitId()
      modifies this`savedSubmitId, store
      ensures attempted == ShouldSave(p.submitId, old(savedSubmitId))
      ensures savedSubmitId == SavedAfter(old(savedSubmitId), p.submitId, saveSucceeds)
      ensures store.rows == if attempted && saveSucceeds then InsertIfAbsent(old(store.rows), p) else old(store.rows)
    {
      attempted := CurrentSubmitId() != "" && Some(CurrentSubmitId()) != savedSubmitId;
      if attempted {
        if saveSucceeds {
          store.Save(p);
          savedSubmitId := Some(p.submitId);
        }
      }
    }
  }

  /** One press of Calculate Scores followed by two reruns of the results section,
      the first save succeeding: the record is stored on the first run and the second
      run does not call the store, whatever record it builds. The fresh id is one the
      page has not saved before. */
  method CalculateThenRerun(session: Session, store: ValuationStore, freshId: string,
                            p: Payload, p': Payload) returns (first: bool, second: bool)
    requires freshId != "" && session.savedSubmitId != Some(freshId)
    requires p.submitId == freshId && p'.submitId == freshId
    modifies session, store
    ensures first && !second
    ensures session.savedSubmitId == Some(freshId)
    ensures store.rows == InsertIfAbsent(old(store.rows), p)
  {
    session.RequestCalculation(freshId);
    first := session.SaveResults(p, store, true);
    second := session.SaveResults(p', store, true);
  }

  /** The same with a first save that fails: the next rerun calls the store again and
      stores its own record. */
  method FailThenRetry(session: Session, store: ValuationStore, freshId: string,
                       p: Payload, p': Payload) returns (first: bool, second: bool)
    requires freshId != "" && session.savedSubmitId != Some(freshId)
    requires p.submitId == freshId && p'.submitId == freshId
    modifies session, store
    ensures first && second
    ensures session.savedSubmitId == Some(freshId)
    ensures store.rows == InsertIfAbsent(old(store.rows), p')
  {
    session.RequestCalculation(freshId);
    first := session.SaveResults(p, store, false);
    second := session.SaveResults(p', store, true);
  }
}
