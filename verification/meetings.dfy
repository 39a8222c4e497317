/**
 * The meeting controller of `meetings/meetings.ts`: create, read, update and
 * delete by id, the caller's paginated listing, the unrestricted listing and
 * the date-range query. Each handler is a function from the store and the
 * request to the response status, its payload and the new store. Store
 * failures are a parameter saying which store call throws.
 */
module Meetings {
  import opened Wrappers
  import opened Numbers
  import opened Pagination
  import opened MeetingStore
  import opened Backend

  /** `req.user?._id`: a caller is authenticated when the verified token carried a non-empty id. */
  predicate Authenticated(caller: Option<string>) {
    caller.Some? && caller.value != []
  }

  /** The JSON body of a response. */
  datatype Payload =
    | Message(text: string)
    | Invalid(paths: seq<string>)
    | One(doc: Doc)
    | Many(docs: seq<Doc>)
    | Page(docs: seq<Doc>, total: nat, page: int, pages: int)
    | NoContent

  datatype Outcome = Outcome(status: int, payload: Payload, store: seq<Doc>)

  const AuthRequired := "Authentication required"
  const NotFound := "Meeting not found"

  // ----------------------------------------------------------------- create

  /**
   * `createMeeting`: 401 without a caller; otherwise the body's owner is
   * replaced by the caller and the document validated (400), saved (500 when
   * the store throws) and returned with 201.
   */
  function Create(store: seq<Doc>, caller: Option<string>, body: Fields, newId: string, fault: Fault): (o: Outcome)
    ensures o.status in {201, 400, 401, 500}
    ensures o.status == 401 <==> !Authenticated(caller)
    ensures o.status == 400 <==> Authenticated(caller) && !Conforms(body.(owner := caller), true)
    ensures o.status == 500 <==> Authenticated(caller) && Conforms(body.(owner := caller), true) && fault == WriteFails
    ensures o.status == 201 <==> Authenticated(caller) && Conforms(body.(owner := caller), true) && fault != WriteFails
    ensures o.status == 400 ==> o.payload == Invalid(Problems(body.(owner := caller), true))
    ensures o.status != 201 ==> o.store == store
    ensures o.status == 201 ==> o.payload.One? && o.store == store + [o.payload.doc]
    ensures o.status == 201 ==> o.payload.doc.owner == caller.value && o.payload.doc.id == newId
  {
    if !Authenticated(caller) then Outcome(401, Message(AuthRequired), store)
    else
      var f := body.(owner := caller);
      if !Conforms(f, true) then Outcome(400, Invalid(Problems(f, true)), store)
      else if fault == WriteFails then Outcome(500, Message("Failed to create meeting"), store)
      else
        var d := NewDoc(newId, f);
        Outcome(201, One(d), store + [d])
  }

  /** Whatever owner the body names, the created meeting is the caller's: the outcome does not depend on it. */
  lemma CreateIgnoresBodyOwner(store: seq<Doc>, caller: Option<string>, body: Fields, claimed: Option<string>, newId: string, fault: Fault)
    ensures Create(store, caller, body.(owner := claimed), newId, fault) == Create(store, caller, body, newId, fault)
  {
  }

  // ------------------------------------------------------------------ by id

  /** The position of the meeting `findById(id)` returns, or -1. */
  function Target(store: seq<Doc>, id: string): int {
    FirstMatch(store, ById(id))
  }

  /** The caller is authenticated and owns the meeting with that id. */
  predicate IsOwner(store: seq<Doc>, caller: Option<string>, id: string) {
    var k := Target(store, id);
    Authenticated(caller) && k >= 0 && store[k].owner == caller.value
  }

  /**
   * The checks shared by get, update and delete by id, in order: 401 without
   * a caller, 500 when the lookup throws, 404 when no meeting has the id, 403
   * when the caller does not own it. `None` lets the operation go ahead.
   */
  function ByIdGuard(store: seq<Doc>, caller: Option<string>, id: string, verb: string, failure: string, fault: Fault): (g: Option<Outcome>)
    ensures g.None? <==> fault != ReadFails && IsOwner(store, caller, id)
    ensures g.Some? ==> g.value.store == store
    ensures g.Some? && g.value.status == 401 <==> !Authenticated(caller)
    ensures g.Some? && g.value.status == 500 <==> Authenticated(caller) && fault == ReadFails
    ensures g.Some? && g.value.status == 404 <==> Authenticated(caller) && fault != ReadFails && Target(store, id) < 0
    ensures g.Some? && g.value.status == 403 <==>
              Authenticated(caller) && fault != ReadFails && Target(store, id) >= 0 && !IsOwner(store, caller, id)
  {
    var k := Target(store, id);
    if !Authenticated(caller) then Some(Outcome(401, Message(AuthRequired), store))
    else if fault == ReadFails then Some(Outcome(500, Message(failure), store))
    else if k < 0 then Some(Outcome(404, Message(NotFound), store))
    else if store[k].owner != caller.value then Some(Outcome(403, Message("Not authorized to " + verb + " this meeting"), store))
    else None
  }

  /** `getMeetingById`: the guard, then 200 with the meeting; the store is never changed. */
  function GetById(store: seq<Doc>, caller: Option<string>, id: string, fault: Fault): (o: Outcome)
    ensures o.store == store
    ensures o.status in {200, 401, 403, 404, 500}
    ensures o.status == 200 <==> fault != ReadFails && IsOwner(store, caller, id)
    ensures o.status == 200 ==> o.payload == One(store[Target(store, id)])
    ensures o.status != 200 ==> ByIdGuard(store, caller, id, "access", "Failed to fetch meeting", fault) == Some(o)
  {
    match ByIdGuard(store, caller, id, "access", "Failed to fetch meeting", fault)
    case Some(refusal) => refusal
    case None => Outcome(200, One(store[Target(store, id)]), store)
  }

  /**
   * `updateMeeting`: the guard, then the patch's present fields are validated
   * (400) and written (500 when the write throws); on success only the
   * meeting with that id changes and the updated meeting is returned.
   */
  function UpdateById(store: seq<Doc>, caller: Option<string>, id: string, patch: Fields, fault: Fault): (o: Outcome)
    ensures o.status in {200, 400, 401, 403, 404, 500}
    ensures o.status == 200 <==> fault == Healthy && IsOwner(store, caller, id) && Conforms(patch, false)
    ensures o.status != 200 ==> o.store == store
    ensures IsOwner(store, caller, id) && fault != ReadFails && !Conforms(patch, false) ==>
              o.status == 400 && o.payload == Invalid(Problems(patch, false))
    ensures IsOwner(store, caller, id) && fault == WriteFails && Conforms(patch, false) ==> o.status == 500
    ensures !(fault != ReadFails && IsOwner(store, caller, id)) ==>
              Some(o) == ByIdGuard(store, caller, id, "update", "Failed to update meeting", fault)
    ensures o.status == 200 ==>
              var k := Target(store, id);
              o.payload == One(Apply(store[k], patch)) && o.store == ReplaceAt(store, k, Apply(store[k], patch))
  {
    match ByIdGuard(store, caller, id, "update", "Failed to update meeting", fault)
    case Some(refusal) => refusal
    case None =>
      var k := Target(store, id);
      if !Conforms(patch, false) then Outcome(400, Invalid(Problems(patch, false)), store)
      else if fault == WriteFails then Outcome(500, Message("Failed to update meeting"), store)
      else
        var d := Apply(store[k], patch);
        Outcome(200, One(d), ReplaceAt(store, k, d))
  }

  /** `deleteMeeting`: the guard, then the meeting is removed (500 when the write throws) and 204 is returned. */
  function DeleteById(store: seq<Doc>, caller: Option<string>, id: string, fault: Fault): (o: Outcome)
    ensures o.status in {204, 401, 403, 404, 500}
    ensures o.status == 204 <==> fault == Healthy && IsOwner(store, caller, id)
    ensures o.status != 204 ==> o.store == store
    ensures o.status == 204 ==> o.payload == NoContent && o.store == RemoveAt(store, Target(store, id))
    ensures IsOwner(store, caller, id) && fault == WriteFails ==> o.status == 500
    ensures !(fault != ReadFails && IsOwner(store, caller, id)) ==>
              Some(o) == ByIdGuard(store, caller, id, "delete", "Failed to delete meeting", fault)
  {
    match ByIdGuard(store, caller, id, "delete", "Failed to delete meeting", fault)
    case Some(refusal) => refusal
    case None =>
      if fault == WriteFails then Outcome(500, Message("Failed to delete meeting"), store)
      else Outcome(204, NoContent, RemoveAt(store, Target(store, id)))
  }

  /** A caller who does not own the meeting can neither update nor delete it: the store stays as it was. */
  lemma NonOwnerCannotChange(store: seq<Doc>, caller: Option<string>, id: string, patch: Fields, fault: Fault)
    requires !IsOwner(store, caller, id)
    ensures UpdateById(store, caller, id, patch, fault).store == store
    ensures DeleteById(store, caller, id, fault).store == store
    ensures Authenticated(caller) && fault != ReadFails && Target(store, id) >= 0 ==>
              UpdateById(store, caller, id, patch, fault).status == 403 && DeleteById(store, caller, id, fault).status == 403
  {
  }

  /** After a successful update that leaves the owner alone, reading the meeting back returns the updated meeting. */
  lemma UpdateThenGet(store: seq<Doc>, caller: Option<string>, id: string, patch: Fields)
    requires patch.owner.None?
    requires UpdateById(store, caller, id, patch, Healthy).status == 200
    ensures var u := UpdateById(store, caller, id, patch, Healthy);
            GetById(u.store, caller, id, Healthy) == Outcome(200, u.payload, u.store)
  {
    var k := Target(store, id);
    var s := UpdateById(store, caller, id, patch, Healthy).store;
    assert forall i | 0 <= i < k :: s[i] == store[i];
    FirstMatchAt(s, ById(id), k);
  }

  lemma FirstMatchAt(store: seq<Doc>, m: Match, k: nat)
    requires k < |store| && Matches(store[k], m)
    requires forall i | 0 <= i < k :: !Matches(store[i], m)
    ensures FirstMatch(store, m) == k
  {
    var j := FirstMatch(store, m);
    assert j != -1 by { assert Matches(store[k], m); }
  }

  /** Ids are unique, as the store's primary key guarantees. */
  predicate UniqueIds(store: seq<Doc>) {
    forall i, j | 0 <= i < j < |store| :: store[i].id != store[j].id
  }

  /** With unique ids, once a meeting is deleted, reading it gives 404. */
  lemma DeleteThenGet(store: seq<Doc>, caller: Option<string>, id: string)
    requires UniqueIds(store)
    requires DeleteById(store, caller, id, Healthy).status == 204
    ensures GetById(DeleteById(store, caller, id, Healthy).store, caller, id, Healthy).status == 404
  {
    var k := Target(store, id);
    var s := DeleteById(store, caller, id, Healthy).store;
    assert store[k].id == id;
    forall i | 0 <= i < |s|
      ensures s[i].id != id
    {
      if i < k {
        assert s[i] == store[i];
      } else {
        assert s[i] == store[i + 1];
      }
    }
  }

  // --------------------------------------------------------------- listings

  /**
   * `find(filter).skip(skip).limit(limit).sort(…)`: the store sorts before it
   * skips, rejects a negative skip, and treats a negative limit as its
   * absolute value (one batch).
   */
  function Fetch(store: seq<Doc>, sel: Selector, skip: int, limit: int): (r: Option<seq<Doc>>)
    ensures r.None? <==> skip < 0
    ensures r.Some? ==> r.value == Window(Query(store, sel), skip, Abs(limit))
  {
    if skip < 0 then None else Some(Window(Query(store, sel), skip, Abs(limit)))
  }

  /** One page of a listing: the requested page, the total count and the page count. */
  function ListPage(store: seq<Doc>, sel: Selector, limit: int, page: int, fault: Fault): (o: Outcome)
    requires limit != 0
    ensures o.store == store
    ensures o.status == 200 <==> fault != ReadFails && Skip(page, limit) >= 0
    ensures o.status != 200 ==> o == Outcome(500, Message("Failed to fetch meetings"), store)
    ensures o.status == 200 ==>
              && o.payload.Page?
              && o.payload.docs == Window(Query(store, sel), Skip(page, limit), Abs(limit))
              && o.payload.total == Count(store, sel) && o.payload.page == page
              && o.payload.pages == Pages(Count(store, sel), limit)
  {
    var fetched := Fetch(store, sel, Skip(page, limit), limit);
    if fault == ReadFails || fetched.None? then Outcome(500, Message("Failed to fetch meetings"), store)
    else
      var total := Count(store, sel);
      Outcome(200, Page(fetched.value, total, page, Pages(total, limit)), store)
  }

  /**
   * `getUserMeetings`: `limit` and `page` are read with their defaults, then
   * 401 without a caller, otherwise one page of the caller's meetings.
   */
  function ListOwn(store: seq<Doc>, caller: Option<string>, limitQuery: Option<string>, pageQuery: Option<string>, fault: Fault): (o: Outcome)
    ensures o.store == store
    ensures o.status in {200, 401, 500}
    ensures o.status == 401 <==> !Authenticated(caller)
    ensures Authenticated(caller) ==>
              o == ListPage(store, OwnedBy(caller.value), QueryNumber(limitQuery, DefaultLimit), QueryNumber(pageQuery, DefaultPage), fault)
    ensures o.status == 200 ==> forall i | 0 <= i < |o.payload.docs| :: o.payload.docs[i].owner == caller.value
    ensures o.status == 200 ==> Sorted(o.payload.docs)
  {
    var limit := QueryNumber(limitQuery, DefaultLimit);
    var page := QueryNumber(pageQuery, DefaultPage);
    if !Authenticated(caller) then Outcome(401, Message(AuthRequired), store)
    else
      OwnPage(store, caller.value, limit, page, fault);
      ListPage(store, OwnedBy(caller.value), limit, page, fault)
  }

  /** A page of one owner's meetings holds only that owner's meetings, in date order. */
  lemma OwnPage(store: seq<Doc>, owner: string, limit: int, page: int, fault: Fault)
    requires limit != 0
    ensures var o := ListPage(store, OwnedBy(owner), limit, page, fault);
            o.status == 200 ==>
              && (forall i | 0 <= i < |o.payload.docs| :: o.payload.docs[i].owner == owner)
              && Sorted(o.payload.docs)
  {
    var o := ListPage(store, OwnedBy(owner), limit, page, fault);
    QueryMembers(store, OwnedBy(owner));
    assert o.status == 200 ==> forall i | 0 <= i < |o.payload.docs| :: o.payload.docs[i] in Query(store, OwnedBy(owner));
  }

  /**
   * With a positive limit, each of the caller's meetings (position `i` in
   * date order) is on the page `i / limit + 1` that the client asks for by
   * printing those numbers.
   */
  lemma EveryOwnMeetingOnItsPage(store: seq<Doc>, owner: string, limit: int, i: nat)
    requires owner != [] && limit > 0 && i < |Query(store, OwnedBy(owner))|
    ensures var o := ListOwn(store, Some(owner), Some(IntToString(limit)), Some(IntToString(i / limit + 1)), Healthy);
            o.status == 200 && Query(store, OwnedBy(owner))[i] in o.payload.docs
  {
    var p := i / limit + 1;
    ItemOnExactlyOnePage(|Query(store, OwnedBy(owner))|, limit, i);
    QueryNumberReadsPrinted(limit, DefaultLimit);
    QueryNumberReadsPrinted(p, DefaultPage);
    PageHoldsItem(store, OwnedBy(owner), limit, p, i);
    assert ListOwn(store, Some(owner), Some(IntToString(limit)), Some(IntToString(p)), Healthy)
           == ListPage(store, OwnedBy(owner), limit, p, Healthy);
  }

  /** Item `i` of a query's result is on every page whose range covers it. */
  lemma PageHoldsItem(store: seq<Doc>, sel: Selector, limit: int, p: int, i: nat)
    requires limit > 0 && p >= 1 && i < |Query(store, sel)|
    requires Skip(p, limit) <= i < Skip(p, limit) + limit
    ensures var o := ListPage(store, sel, limit, p, Healthy);
            o.status == 200 && Query(store, sel)[i] in o.payload.docs
  {
    var q := Query(store, sel);
    SkipNonNegative(p, limit);
    var w := Window(q, Skip(p, limit), limit);
    assert w[i - Skip(p, limit)] == q[i];
  }

  /** `getAllMeetings`: one page of every meeting; there is no caller check. */
  function ListAll(store: seq<Doc>, limitQuery: Option<string>, pageQuery: Option<string>, fault: Fault): (o: Outcome)
    ensures o.store == store
    ensures o.status == 200 || o.status == 500
    ensures o == ListPage(store, Everyone, QueryNumber(limitQuery, DefaultLimit), QueryNumber(pageQuery, DefaultPage), fault)
    ensures o.status == 200 ==> o.payload.total == |store|
  {
    var o := ListPage(store, Everyone, QueryNumber(limitQuery, DefaultLimit), QueryNumber(pageQuery, DefaultPage), fault);
    SelectEveryone(store);
    o
  }

  /**
   * With a positive limit every stored meeting is listed: date order holds
   * each stored meeting as often as it is stored, and the one at position `i`
   * is on page `i / limit + 1`.
   */
  lemma EveryMeetingListed(store: seq<Doc>, limit: int, i: nat)
    requires limit > 0 && i < |store|
    ensures multiset(Query(store, Everyone)) == multiset(store)
    ensures var o := ListAll(store, Some(IntToString(limit)), Some(IntToString(i / limit + 1)), Healthy);
            o.status == 200 && Query(store, Everyone)[i] in o.payload.docs
  {
    SelectEveryone(store);
    var q := Query(store, Everyone);
    assert |q| == |store| by {
      assert |multiset(q)| == |multiset(store)|;
    }
    var p := i / limit + 1;
    ItemOnExactlyOnePage(|q|, limit, i);
    QueryNumberReadsPrinted(limit, DefaultLimit);
    QueryNumberReadsPrinted(p, DefaultPage);
    PageHoldsItem(store, Everyone, limit, p, i);
  }

  // ------------------------------------------------------------- date range

  /**
   * `getMeetingsByDateRange`: 400 when either bound is missing, checked
   * before the caller; 401 without a caller; otherwise the caller's meetings
   * whose date lies between the bounds inclusive, in date order.
   */
  function ByDateRange(store: seq<Doc>, caller: Option<string>, startDate: Option<string>, endDate: Option<string>, fault: Fault): (o: Outcome)
    ensures o.store == store
    ensures o.status in {200, 400, 401, 500}
    ensures o.status == 400 <==> !Given(startDate) || !Given(endDate)
    ensures o.status == 401 <==> Given(startDate) && Given(endDate) && !Authenticated(caller)
    ensures o.status == 500 <==> Given(startDate) && Given(endDate) && Authenticated(caller) && fault == ReadFails
    ensures o.status == 200 ==>
              o.payload == Many(Query(store, DateRange(startDate.value, endDate.value, Some(caller.value))))
    ensures o.status == 200 ==> forall d :: d in o.payload.docs <==>
              d in store && d.owner == caller.value && StrLe(startDate.value, d.date) && StrLe(d.date, endDate.value)
  {
    if !Given(startDate) || !Given(endDate) then Outcome(400, Message("Start date and end date are required"), store)
    else if !Authenticated(caller) then Outcome(401, Message(AuthRequired), store)
    else if fault == ReadFails then Outcome(500, Message("Failed to fetch meetings"), store)
    else
      QueryMembers(store, DateRange(startDate.value, endDate.value, Some(caller.value)));
      Outcome(200, Many(Query(store, DateRange(startDate.value, endDate.value, Some(caller.value)))), store)
  }

  /** `findByDateRange` without an owner returns every user's meetings in the range; with one, only that owner's. */
  lemma RangeOwnerFilter(store: seq<Doc>, start: string, end: string, owner: string)
    ensures forall d :: d in Query(store, DateRange(start, end, None)) <==> d in store && StrLe(start, d.date) && StrLe(d.date, end)
    ensures forall d :: d in Query(store, DateRange(start, end, Some(owner))) <==>
              d in Query(store, DateRange(start, end, None)) && d.owner == owner
  {
    QueryMembers(store, DateRange(start, end, None));
    QueryMembers(store, DateRange(start, end, Some(owner)));
  }

  /** A range whose bounds are the same date returns exactly that day's meetings. */
  lemma SingleDayRange(store: seq<Doc>, day: string, owner: string)
    ensures forall d :: d in Query(store, DateRange(day, day, Some(owner))) <==> d in store && d.owner == owner && d.date == day
  {
    QueryMembers(store, DateRange(day, day, Some(owner)));
    forall d | d in store && d.owner == owner && StrLe(day, d.date) && StrLe(d.date, day)
      ensures d.date == day
    {
      StrLeAntisymmetric(day, d.date);
    }
    StrLeReflexive(day);
  }
}
