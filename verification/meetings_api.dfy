/**
 * The handlers `meetings/meetingsApi.ts` adds to the ones it shares with
 * `meetings/meetings.ts`: update and delete of the caller's meeting at a given
 * date and start time. Create, the caller's listing and the date-range query
 * are the same handlers as in `Meetings`; the lemmas at the end state what
 * this file promises about them.
 */
module MeetingsApi {
  import opened Wrappers
  import opened Pagination
  import opened MeetingStore
  import opened Meetings
  import opened Backend

  /** The meeting `findOne…({ owner, date, startTime })` acts on: the caller's first meeting in that slot, or -1. */
  function SlotTarget(store: seq<Doc>, caller: string, date: string, startTime: string): int {
    FirstMatch(store, BySlot(caller, date, startTime))
  }

  /**
   * `updateMeetingByDate`: 400 when the date or start time is missing,
   * checked before the caller; 401 without a caller; 400 when the patch's
   * fields fail validation (update validators run before the query); 500
   * when the store throws; 404 when the caller has no meeting in that slot;
   * otherwise that meeting is patched and returned with 200.
   */
  function UpdateByDate(store: seq<Doc>, caller: Option<string>, date: Option<string>, startTime: Option<string>, patch: Fields, fault: Fault): (o: Outcome)
    ensures o.status in {200, 400, 401, 404, 500}
    ensures o.status == 400 <==> !Given(date) || !Given(startTime) || (Authenticated(caller) && !Conforms(patch, false))
    ensures o.status == 401 <==> Given(date) && Given(startTime) && !Authenticated(caller)
    ensures o.status == 500 <==> Given(date) && Given(startTime) && Authenticated(caller) && Conforms(patch, false) && fault != Healthy
    ensures o.status == 404 <==>
              Given(date) && Given(startTime) && Authenticated(caller) && Conforms(patch, false) && fault == Healthy
              && SlotTarget(store, caller.value, date.value, startTime.value) < 0
    ensures o.status != 200 ==> o.store == store
    ensures o.status == 200 ==>
              var k := SlotTarget(store, caller.value, date.value, startTime.value);
              && 0 <= k < |store|
              && store[k].owner == caller.value && store[k].date == date.value && store[k].startTime == startTime.value
              && o.payload == One(Apply(store[k], patch))
              && o.store == ReplaceAt(store, k, Apply(store[k], patch))
  {
    if !Given(date) || !Given(startTime) then Outcome(400, Message("Date and start time are required"), store)
    else if !Authenticated(caller) then Outcome(401, Message(AuthRequired), store)
    else if !Conforms(patch, false) then Outcome(400, Invalid(Problems(patch, false)), store)
    else if fault != Healthy then Outcome(500, Message("Failed to update meeting"), store)
    else
      var k := SlotTarget(store, caller.value, date.value, startTime.value);
      if k < 0 then Outcome(404, Message(NotFound), store)
      else
        var d := Apply(store[k], patch);
        Outcome(200, One(d), ReplaceAt(store, k, d))
  }

  /**
   * `deleteMeetingByDate`: 400 when the date or start time is missing, then
   * 401, 500 when the store throws, 404 when the caller has no meeting in
   * that slot, otherwise that one meeting is removed and 204 returned.
   */
  function DeleteByDate(store: seq<Doc>, caller: Option<string>, date: Option<string>, startTime: Option<string>, fault: Fault): (o: Outcome)
    ensures o.status in {204, 400, 401, 404, 500}
    ensures o.status == 400 <==> !Given(date) || !Given(startTime)
    ensures o.status == 401 <==> Given(date) && Given(startTime) && !Authenticated(caller)
    ensures o.status == 500 <==> Given(date) && Given(startTime) && Authenticated(caller) && fault != Healthy
    ensures o.status == 404 <==>
              Given(date) && Given(startTime) && Authenticated(caller) && fault == Healthy
              && SlotTarget(store, caller.value, date.value, startTime.value) < 0
    ensures o.status != 204 ==> o.store == store
    ensures o.status == 204 ==>
              var k := SlotTarget(store, caller.value, date.value, startTime.value);
              && 0 <= k < |store|
              && store[k].owner == caller.value && store[k].date == date.value && store[k].startTime == startTime.value
              && o.payload == NoContent && o.store == RemoveAt(store, k)
  {
    if !Given(date) || !Given(startTime) then Outcome(400, Message("Date and start time are required"), store)
    else if !Authenticated(caller) then Outcome(401, Message(AuthRequired), store)
    else if fault != Healthy then Outcome(500, Message("Failed to delete meeting"), store)
    else
      var k := SlotTarget(store, caller.value, date.value, startTime.value);
      if k < 0 then Outcome(404, Message(NotFound), store)
      else Outcome(204, NoContent, RemoveAt(store, k))
  }

  /**
   * Updating or deleting by date never touches another user's meeting:
   * every meeting the caller does not own is still in the store, unchanged.
   */
  lemma ByDateLeavesOthersAlone(store: seq<Doc>, caller: Option<string>, date: Option<string>, startTime: Option<string>, patch: Fields, fault: Fault)
    ensures forall d | d in store && !(Authenticated(caller) && d.owner == caller.value) ::
              d in UpdateByDate(store, caller, date, startTime, patch, fault).store
    ensures forall d | d in store && !(Authenticated(caller) && d.owner == caller.value) ::
              multiset(DeleteByDate(store, caller, date, startTime, fault).store)[d] == multiset(store)[d]
  {
    forall d | d in store && !(Authenticated(caller) && d.owner == caller.value)
      ensures d in UpdateByDate(store, caller, date, startTime, patch, fault).store
      ensures multiset(DeleteByDate(store, caller, date, startTime, fault).store)[d] == multiset(store)[d]
    {
      UpdateKeepsOthers(store, caller, date, startTime, patch, fault, d);
      DeleteKeepsOthers(store, caller, date, startTime, fault, d);
    }
  }

  lemma UpdateKeepsOthers(store: seq<Doc>, caller: Option<string>, date: Option<string>, startTime: Option<string>, patch: Fields, fault: Fault, d: Doc)
    requires d in store && !(Authenticated(caller) && d.owner == caller.value)
    ensures d in UpdateByDate(store, caller, date, startTime, patch, fault).store
  {
    var u := UpdateByDate(store, caller, date, startTime, patch, fault);
    if u.status == 200 {
      var i :| 0 <= i < |store| && store[i] == d;
      assert u.store[i] == d;
    }
  }

  lemma DeleteKeepsOthers(store: seq<Doc>, caller: Option<string>, date: Option<string>, startTime: Option<string>, fault: Fault, d: Doc)
    requires d in store && !(Authenticated(caller) && d.owner == caller.value)
    ensures multiset(DeleteByDate(store, caller, date, startTime, fault).store)[d] == multiset(store)[d]
  {
    var o := DeleteByDate(store, caller, date, startTime, fault);
    if o.status == 204 {
      var k := SlotTarget(store, caller.value, date.value, startTime.value);
      assert store[k] != d;
    }
  }

  /** A delete by date succeeds exactly when the caller has a meeting in that slot, and then removes exactly one meeting. */
  lemma DeleteByDateRemovesOne(store: seq<Doc>, owner: string, date: string, startTime: string)
    requires owner != [] && date != [] && startTime != []
    ensures var o := DeleteByDate(store, Some(owner), Some(date), Some(startTime), Healthy);
            o.status == 204 <==> exists i | 0 <= i < |store| :: Matches(store[i], BySlot(owner, date, startTime))
    ensures var o := DeleteByDate(store, Some(owner), Some(date), Some(startTime), Healthy);
            o.status == 204 ==> |o.store| == |store| - 1
  {
  }

  /** The date-range listing of `meetingsApi.ts` always filters by the caller: nothing of another user is returned. */
  lemma RangeOnlyCallers(store: seq<Doc>, caller: Option<string>, startDate: Option<string>, endDate: Option<string>, fault: Fault)
    ensures var o := ByDateRange(store, caller, startDate, endDate, fault);
            o.status == 200 ==> forall i | 0 <= i < |o.payload.docs| :: o.payload.docs[i].owner == caller.value
  {
    var o := ByDateRange(store, caller, startDate, endDate, fault);
    if o.status == 200 {
      assert forall i | 0 <= i < |o.payload.docs| :: o.payload.docs[i] in o.payload.docs;
    }
  }

  /** Creating through `meetingsApi.ts` stores the meeting under the caller, whatever owner the body claimed. */
  lemma CreateForcesOwner(store: seq<Doc>, caller: Option<string>, body: Fields, newId: string)
    requires Authenticated(caller) && Conforms(body.(owner := caller), true)
    ensures var o := Create(store, caller, body, newId, Healthy);
            o.status == 201 && o.store[|store|].owner == caller.value
            && o.store[|store|] == NewDoc(newId, body.(owner := caller))
  {
  }
}
