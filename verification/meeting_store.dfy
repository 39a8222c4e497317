/**
 * The meeting collection as the backend's data-access layer sees it: stored
 * documents, the schema's validation rules, lookups by id and by
 * (owner, date, start time), the owner and date-range filters, and the
 * `{ date: 1, startTime: 1 }` sort order. The database itself is a sequence
 * of documents in insertion order.
 */
module MeetingStore {
  import opened Wrappers
  import opened Strings

  /** A stored meeting. `owner` is the id of the user it belongs to. */
  datatype Doc = Doc(id: string, title: string, date: string, startTime: string, duration: int, owner: string)

  /** A request body or `$set` patch: every field may be absent. */
  datatype Fields = Fields(title: Option<string>, date: Option<string>, startTime: Option<string>, duration: Option<int>, owner: Option<string>)

  const NoFields := Fields(None, None, None, None, None)

  // ---------------------------------------------------------------- schema

  /**
   * The schema's rule for the title: it is stored trimmed and is required,
   * so a present title must be non-blank, and an absent one is an error only
   * when a whole document is being validated (an update checks only the
   * paths it sets).
   */
  predicate TitleOk(f: Fields, whole: bool) {
    if f.title.Some? then Trim(f.title.value) != [] else !whole
  }

  /** `date`, `startTime` and `owner` are required strings: a present one must not be empty. */
  predicate TextOk(v: Option<string>, whole: bool) {
    if v.Some? then v.value != [] else !whole
  }

  /** `duration` is a required number with minimum 1. */
  predicate DurationOk(f: Fields, whole: bool) {
    if f.duration.Some? then f.duration.value >= 1 else !whole
  }

  predicate Conforms(f: Fields, whole: bool) {
    && TitleOk(f, whole) && TextOk(f.date, whole) && TextOk(f.startTime, whole)
    && DurationOk(f, whole) && TextOk(f.owner, whole)
  }

  /** The paths a `ValidationError` reports, in schema order. */
  function Problems(f: Fields, whole: bool): (ps: seq<string>)
    ensures ps == [] <==> Conforms(f, whole)
    ensures "title" in ps <==> !TitleOk(f, whole)
    ensures "date" in ps <==> !TextOk(f.date, whole)
    ensures "startTime" in ps <==> !TextOk(f.startTime, whole)
    ensures "duration" in ps <==> !DurationOk(f, whole)
    ensures "owner" in ps <==> !TextOk(f.owner, whole)
  {
    Flag(TitleOk(f, whole), "title")
    + Flag(TextOk(f.date, whole), "date")
    + Flag(TextOk(f.startTime, whole), "startTime")
    + Flag(DurationOk(f, whole), "duration")
    + Flag(TextOk(f.owner, whole), "owner")
  }

  /** The path reported for one field: nothing when the field passes. */
  function Flag(ok: bool, path: string): (ps: seq<string>)
    ensures ps == [] <==> ok
    ensures forall p :: p in ps <==> !ok && p == path
  {
    if ok then [] else [path]
  }

  /** The document `new Meeting(f).save()` stores under the generated id `id`. */
  function NewDoc(id: string, f: Fields): (d: Doc)
    requires Conforms(f, true)
    ensures d.id == id && d.title == Trim(f.title.value) && d.owner == f.owner.value
    ensures d.date == f.date.value && d.startTime == f.startTime.value && d.duration == f.duration.value
    ensures d.title != [] && d.date != [] && d.startTime != [] && d.duration >= 1 && d.owner != []
  {
    Doc(id, Trim(f.title.value), f.date.value, f.startTime.value, f.duration.value, f.owner.value)
  }

  /** `$set: f`: every present field replaces the stored one (the title trimmed); absent fields are kept. */
  function Apply(d: Doc, f: Fields): (e: Doc)
    ensures e.id == d.id
    ensures e.title == if f.title.Some? then Trim(f.title.value) else d.title
    ensures e.date == f.date.GetOr(d.date) && e.startTime == f.startTime.GetOr(d.startTime)
    ensures e.duration == f.duration.GetOr(d.duration) && e.owner == f.owner.GetOr(d.owner)
  {
    Doc(d.id,
        if f.title.Some? then Trim(f.title.value) else d.title,
        f.date.GetOr(d.date), f.startTime.GetOr(d.startTime),
        f.duration.GetOr(d.duration), f.owner.GetOr(d.owner))
  }

  /** Applying the empty patch changes nothing, and a patch that sets exactly the stored values changes nothing either. */
  lemma ApplyKeeps(d: Doc)
    ensures Apply(d, NoFields) == d
    ensures Trim(d.title) == d.title ==>
              Apply(d, Fields(Some(d.title), Some(d.date), Some(d.startTime), Some(d.duration), Some(d.owner))) == d
  {
  }

  // --------------------------------------------------------------- lookups

  /** The filters the data-access layer looks documents up by. */
  datatype Match = ById(id: string) | BySlot(owner: string, date: string, startTime: string)

  predicate Matches(d: Doc, m: Match) {
    match m
    case ById(id) => d.id == id
    case BySlot(o, date, t) => d.owner == o && d.date == date && d.startTime == t
  }

  /** The position of the first document the filter matches, or -1 (what `findById` and `findOne…` act on). */
  function FirstMatch(store: seq<Doc>, m: Match): (k: int)
    ensures -1 <= k < |store|
    ensures k == -1 <==> forall i | 0 <= i < |store| :: !Matches(store[i], m)
    ensures k >= 0 ==> Matches(store[k], m) && forall i | 0 <= i < k :: !Matches(store[i], m)
  {
    if |store| == 0 then -1
    else if Matches(store[0], m) then 0
    else
      var k := FirstMatch(store[1..], m);
      if k == -1 then -1 else k + 1
  }

  /** The store with the document at `k` replaced. */
  function ReplaceAt(store: seq<Doc>, k: nat, d: Doc): (s: seq<Doc>)
    requires k < |store|
    ensures |s| == |store| && s[k] == d
    ensures forall i | 0 <= i < |store| && i != k :: s[i] == store[i]
  {
    store[k := d]
  }

  /** The store with the document at `k` removed. */
  function RemoveAt(store: seq<Doc>, k: nat): (s: seq<Doc>)
    requires k < |store|
    ensures |s| == |store| - 1
    ensures forall i | 0 <= i < k :: s[i] == store[i]
    ensures forall i | k <= i < |s| :: s[i] == store[i + 1]
    ensures multiset(s) == multiset(store) - multiset{store[k]}
  {
    assert store == store[..k] + [store[k]] + store[k + 1..];
    store[..k] + store[k + 1..]
  }

  // ------------------------------------------------------------- selection

  /** The query filters of the listings: everything, one owner's meetings, or a date range optionally for one owner. */
  datatype Selector = Everyone | OwnedBy(owner: string) | DateRange(start: string, end: string, rangeOwner: Option<string>)

  /** `date: { $gte: start, $lte: end }` compares strings; the range is inclusive at both ends. */
  predicate Selects(sel: Selector, d: Doc) {
    match sel
    case Everyone => true
    case OwnedBy(o) => d.owner == o
    case DateRange(start, end, o) =>
      StrLe(start, d.date) && StrLe(d.date, end) && (o.Some? ==> d.owner == o.value)
  }

  /** The documents a filter selects, in store order. */
  function Select(store: seq<Doc>, sel: Selector): (r: seq<Doc>)
    ensures |r| <= |store|
  {
    if |store| == 0 then []
    else (if Selects(sel, store[0]) then [store[0]] else []) + Select(store[1..], sel)
  }

  /** Selection keeps exactly the selected documents, each as often as it is stored, and nothing else. */
  lemma {:induction false} SelectMembers(store: seq<Doc>, sel: Selector)
    ensures forall d :: multiset(Select(store, sel))[d] == if Selects(sel, d) then multiset(store)[d] else 0
  {
    if |store| > 0 {
      SelectMembers(store[1..], sel);
      assert store == [store[0]] + store[1..];
    }
  }

  /** Selecting everything keeps the whole store. */
  lemma {:induction false} SelectEveryone(store: seq<Doc>)
    ensures Select(store, Everyone) == store
  {
    if |store| > 0 {
      SelectEveryone(store[1..]);
      assert store == [store[0]] + store[1..];
    }
  }

  /** `countDocuments(filter)`. */
  function Count(store: seq<Doc>, sel: Selector): nat {
    |Select(store, sel)|
  }

  // ----------------------------------------------------------------- order

  /** Lexicographic order on strings by code point, the order a string sort and `$gte`/`$lte` use. */
  predicate StrLe(a: string, b: string) {
    |a| == 0 || (|b| > 0 && (a[0] < b[0] || (a[0] == b[0] && StrLe(a[1..], b[1..]))))
  }

  lemma StrLeReflexive(a: string)
    ensures StrLe(a, a)
  {
  }

  lemma StrLeTotal(a: string, b: string)
    ensures StrLe(a, b) || StrLe(b, a)
  {
  }

  lemma StrLeAntisymmetric(a: string, b: string)
    requires StrLe(a, b) && StrLe(b, a)
    ensures a == b
  {
    if |a| > 0 && |b| > 0 {
      StrLeAntisymmetric(a[1..], b[1..]);
      assert a == [a[0]] + a[1..] && b == [b[0]] + b[1..];
    }
  }

  lemma StrLeTransitive(a: string, b: string, c: string)
    requires StrLe(a, b) && StrLe(b, c)
    ensures StrLe(a, c)
  {
  }

  /** `sort({ date: 1, startTime: 1 })`: by date, and by start time within a date. */
  predicate KeyLe(x: Doc, y: Doc) {
    (StrLe(x.date, y.date) && x.date != y.date) || (x.date == y.date && StrLe(x.startTime, y.startTime))
  }

  lemma KeyLeTotal(x: Doc, y: Doc)
    ensures KeyLe(x, y) || KeyLe(y, x)
  {
    StrLeTotal(x.date, y.date);
    StrLeTotal(x.startTime, y.startTime);
  }

  lemma KeyLeTransitive(x: Doc, y: Doc, z: Doc)
    requires KeyLe(x, y) && KeyLe(y, z)
    ensures KeyLe(x, z)
  {
    if x.date == y.date && y.date == z.date {
      StrLeTransitive(x.startTime, y.startTime, z.startTime);
    } else {
      StrLeReflexive(x.date);
      StrLeReflexive(y.date);
      StrLeTransitive(x.date, y.date, z.date);
      if x.date == z.date {
        StrLeAntisymmetric(x.date, y.date);
      }
    }
  }

  predicate Sorted(s: seq<Doc>) {
    forall i, j | 0 <= i < j < |s| :: KeyLe(s[i], s[j])
  }

  lemma InsertFront(d: Doc, s: seq<Doc>)
    requires Sorted(s) && |s| > 0 && KeyLe(d, s[0])
    ensures Sorted([d] + s)
  {
    forall j | 0 <= j < |s|
      ensures KeyLe(d, s[j])
    {
      if j > 0 {
        KeyLeTransitive(d, s[0], s[j]);
      }
    }
  }

  lemma InsertBehind(d: Doc, s: seq<Doc>, t: seq<Doc>)
    requires Sorted(s) && |s| > 0 && !KeyLe(d, s[0])
    requires Sorted(t) && multiset(t) == multiset(s[1..]) + multiset{d}
    ensures Sorted([s[0]] + t)
    ensures multiset([s[0]] + t) == multiset(s) + multiset{d}
  {
    KeyLeTotal(d, s[0]);
    forall j | 0 <= j < |t|
      ensures KeyLe(s[0], t[j])
    {
      assert t[j] in multiset(t);
      if t[j] != d {
        assert t[j] in multiset(s[1..]);
        var i :| 0 <= i < |s[1..]| && s[1..][i] == t[j];
        assert s[i + 1] == t[j];
      }
    }
    assert s == [s[0]] + s[1..];
  }

  /** One insertion step: `d` placed into a sorted sequence keeps it sorted. */
  function Insert(d: Doc, s: seq<Doc>): (r: seq<Doc>)
    requires Sorted(s)
    ensures Sorted(r)
    ensures multiset(r) == multiset(s) + multiset{d}
  {
    if |s| == 0 then [d]
    else if KeyLe(d, s[0]) then
      InsertFront(d, s);
      [d] + s
    else
      var t := Insert(d, s[1..]);
      InsertBehind(d, s, t);
      [s[0]] + t
  }

  /** The store's ordering of a result: the same documents, sorted by (date, start time). */
  function Sort(s: seq<Doc>): (r: seq<Doc>)
    ensures Sorted(r)
    ensures multiset(r) == multiset(s)
  {
    if |s| == 0 then []
    else
      assert s == [s[0]] + s[1..];
      Insert(s[0], Sort(s[1..]))
  }

  /** `find(filter).sort({ date: 1, startTime: 1 })`: the selected documents, sorted. */
  function Query(store: seq<Doc>, sel: Selector): (r: seq<Doc>)
    ensures Sorted(r)
    ensures multiset(r) == multiset(Select(store, sel))
  {
    Sort(Select(store, sel))
  }

  /** A query returns exactly the stored documents the filter selects, each as often as it is stored. */
  lemma QueryMembers(store: seq<Doc>, sel: Selector)
    ensures forall d :: multiset(Query(store, sel))[d] == if Selects(sel, d) then multiset(store)[d] else 0
    ensures forall d :: d in Query(store, sel) <==> d in store && Selects(sel, d)
  {
    var r := Query(store, sel);
    SelectMembers(store, sel);
    assert forall d :: d in r <==> d in multiset(r);
    assert forall d :: d in store <==> d in multiset(store);
  }

  /** A query returns as many documents as `countDocuments` counts. */
  lemma QueryCounts(store: seq<Doc>, sel: Selector)
    ensures |Query(store, sel)| == Count(store, sel)
  {
    assert |multiset(Query(store, sel))| == |multiset(Select(store, sel))|;
  }
}
