/** The guard that keeps page reruns from saving a calculation twice, and the
    store's own insert-if-absent rule, as functions over the remembered id.

    The page remembers the last id it saved. A run of the results section saves
    only when the current submission id is set and differs from it; a successful
    save records the id, a failed one leaves it as it was. */
module SaveGuard {
  import opened Valuation

  datatype Option<T> = None | Some(value: T)

  /** The check in front of the save: the id is set and not the one last saved. */
  predicate ShouldSave(submitId: string, savedSubmitId: Option<string>)
    ensures savedSubmitId == Some(submitId) ==> !ShouldSave(submitId, savedSubmitId)
    ensures submitId != "" && savedSubmitId == None ==> ShouldSave(submitId, savedSubmitId)
  {
    submitId != "" && savedSubmitId != Some(submitId)
  }

  /** The id remembered after one run, given whether the store accepted the record. */
  function SavedAfter(savedSubmitId: Option<string>, submitId: string, saveSucceeds: bool): (s: Option<string>)
    ensures ShouldSave(submitId, savedSubmitId) && saveSucceeds ==> s == Some(submitId)
    ensures !saveSucceeds ==> s == savedSubmitId
    ensures !ShouldSave(submitId, savedSubmitId) ==> s == savedSubmitId
  {
    if ShouldSave(submitId, savedSubmitId) && saveSucceeds then Some(submitId) else savedSubmitId
  }

  /** Once a save has gone through, the same id is never saved again. */
  lemma NoSecondSaveAfterSuccess(savedSubmitId: Option<string>, submitId: string)
    requires ShouldSave(submitId, savedSubmitId)
    ensures !ShouldSave(submitId, SavedAfter(savedSubmitId, submitId, true))
  {
  }

  /** After a failed save the same id is tried again on the next run. */
  lemma RetryAfterFailure(savedSubmitId: Option<string>, submitId: string)
    requires ShouldSave(submitId, savedSubmitId)
    ensures ShouldSave(submitId, SavedAfter(savedSubmitId, submitId, false))
  {
  }

  // ---------------------------------------------------------------------------
  // Reruns with one submission id
  // ---------------------------------------------------------------------------

  /** How many times the page calls the store over a series of reruns with the same
      id; `outcomes[i]` says whether the i-th call would succeed. */
  function Attempts(savedSubmitId: Option<string>, submitId: string, outcomes: seq<bool>): (n: nat)
    ensures n <= |outcomes|
    decreases |outcomes|
  {
    if |outcomes| == 0 then 0
    else (if ShouldSave(submitId, savedSubmitId) then 1 else 0) +
         Attempts(SavedAfter(savedSubmitId, submitId, outcomes[0]), submitId, outcomes[1..])
  }

  /** How many of those calls store a record. */
  function Saves(savedSubmitId: Option<string>, submitId: string, outcomes: seq<bool>): (n: nat)
    ensures n <= Attempts(savedSubmitId, submitId, outcomes)
    decreases |outcomes|
  {
    if |outcomes| == 0 then 0
    else (if ShouldSave(submitId, savedSubmitId) && outcomes[0] then 1 else 0) +
         Saves(SavedAfter(savedSubmitId, submitId, outcomes[0]), submitId, outcomes[1..])
  }

  /** The position of the first success. */
  function FirstSuccess(outcomes: seq<bool>): (i: nat)
    requires true in outcomes
    ensures i < |outcomes| && outcomes[i]
    ensures forall j :: 0 <= j < i ==> !outcomes[j]
  {
    if outcomes[0] then 0 else 1 + FirstSuccess(outcomes[1..])
  }

  /** Over any number of reruns, a submission is stored once if the guard lets it
      through and some call succeeds, and never otherwise. */
  lemma {:induction false} AtMostOneSave(savedSubmitId: Option<string>, submitId: string, outcomes: seq<bool>)
    ensures Saves(savedSubmitId, submitId, outcomes) ==
      if ShouldSave(submitId, savedSubmitId) && true in outcomes then 1 else 0
    decreases |outcomes|
  {
    if |outcomes| > 0 {
      var next := SavedAfter(savedSubmitId, submitId, outcomes[0]);
      AtMostOneSave(next, submitId, outcomes[1..]);
      if !outcomes[0] {
        assert true in outcomes <==> true in outcomes[1..] by {
          if true in outcomes {
            var i :| 0 <= i < |outcomes| && outcomes[i];
            assert outcomes[1..][i - 1] == outcomes[i];
          }
        }
      }
    }
  }

  /** The store is called on every rerun up to and including the first success, and
      on none after it. */
  lemma {:induction false} AttemptsUntilFirstSuccess(savedSubmitId: Option<string>, submitId: string,
                                                     outcomes: seq<bool>)
    ensures Attempts(savedSubmitId, submitId, outcomes) ==
      if !ShouldSave(submitId, savedSubmitId) then 0
      else if true in outcomes then FirstSuccess(outcomes) + 1
      else |outcomes|
    decreases |outcomes|
  {
    if |outcomes| > 0 {
      var next := SavedAfter(savedSubmitId, submitId, outcomes[0]);
      AttemptsUntilFirstSuccess(next, submitId, outcomes[1..]);
      if ShouldSave(submitId, savedSubmitId) && !outcomes[0] {
        if true in outcomes {
          var i :| 0 <= i < |outcomes| && outcomes[i];
          assert outcomes[1..][i - 1] == outcomes[i];
          assert true in outcomes[1..];
        }
      }
    }
  }

  // ---------------------------------------------------------------------------
  // The store: one row per submission id, later inserts ignored
  // ---------------------------------------------------------------------------

  /** An insert that does nothing when a row with the same submission id exists. */
  function InsertIfAbsent(table: map<string, Payload>, p: Payload): (t: map<string, Payload>)
    ensures t.Keys == table.Keys + {p.submitId}
    ensures forall id :: id in table ==> t[id] == table[id]
    ensures p.submitId !in table ==> t[p.submitId] == p
  {
    if p.submitId in table then table else table[p.submitId := p]
  }

  /** Sending a record with an id that is already stored changes nothing, whatever the
      record holds: the first stored record is kept. */
  lemma InsertIfAbsentKeepsFirst(table: map<string, Payload>, p: Payload, p': Payload)
    requires p'.submitId == p.submitId
    ensures InsertIfAbsent(InsertIfAbsent(table, p), p') == InsertIfAbsent(table, p)
    ensures |InsertIfAbsent(InsertIfAbsent(table, p), p').Keys| <= |table.Keys| + 1
  {
    var t := InsertIfAbsent(table, p);
    assert p.submitId in t;
    assert |table.Keys + {p.submitId}| <= |table.Keys| + 1;
  }
}
