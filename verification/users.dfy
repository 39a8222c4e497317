/**
 * The user collection and controller of `users/usersApi.ts`. Emails are the
 * users' keys: the schema stores them trimmed and lower-cased and keeps them
 * unique, and every lookup filters on the lower-cased email it is given,
 * which the same setters trim and lower-case again before the query runs.
 * The store is a sequence of users in creation order.
 */
module Users {
  import opened Wrappers
  import opened Strings
  import opened Numbers
  import opened Pagination
  import opened Backend

  datatype User = User(email: string, name: Option<string>, picture: Option<string>, googleId: Option<string>)

  /** A request body or `$set` patch: every field may be absent. */
  datatype UserFields = UserFields(email: Option<string>, name: Option<string>, picture: Option<string>, googleId: Option<string>)

  // ------------------------------------------------------------------ keys

  /** An email as the schema stores it: no surrounding whitespace and no upper-case ASCII letter. */
  predicate Normalized(e: string) {
    && (e == [] || (!IsWhitespace(e[0]) && !IsWhitespace(e[|e| - 1])))
    && forall i | 0 <= i < |e| :: !IsAsciiUpper(e[i])
  }

  /** A normalised email is left alone by the setters. */
  lemma NormalizeFixed(e: string)
    requires Normalized(e)
    ensures Normalize(e) == e
  {
    calc {
      Normalize(e);
      == { TrimUnpadded(e); }
      ToLower(e);
      == { NoUpperIsLower(e); }
      e;
    }
  }

  lemma NoUpperIsLower(e: string)
    requires forall i | 0 <= i < |e| :: !IsAsciiUpper(e[i])
    ensures ToLower(e) == e
  {
    var l := ToLower(e);
    assert forall i | 0 <= i < |e| :: l[i] == e[i];
  }

  /** The schema's `trim` and `lowercase` setters. */
  function Normalize(e: string): (n: string)
    ensures Normalized(n)
    ensures |n| == |Trim(e)|
  {
    var t := Trim(e);
    LowerNormalized(t);
    ToLower(t)
  }

  /** Lower-casing text that neither starts nor ends with whitespace gives a normalised email. */
  lemma LowerNormalized(t: string)
    requires t == [] || (!IsWhitespace(t[0]) && !IsWhitespace(t[|t| - 1]))
    ensures Normalized(ToLower(t))
  {
    if t != [] {
      LowerKeepsWhitespace(t[0]);
      LowerKeepsWhitespace(t[|t| - 1]);
    }
  }

  /**
   * The value every lookup filters on: `email.toLowerCase()`, cast through
   * the schema's setters, which Mongoose applies to query filters too. It is
   * exactly the form the email would be stored in.
   */
  function Key(e: string): (k: string)
    ensures k == Normalize(e)
  {
    TrimLower(e);
    ToLowerKeys(Trim(e), Trim(e));
    Normalize(ToLower(e))
  }

  /** Two emails reach the same user exactly when they agree, up to ASCII case, once trimmed. */
  lemma SameKey(a: string, b: string)
    ensures Key(a) == Key(b) <==> EqualIgnoringCase(Trim(a), Trim(b))
  {
    ToLowerKeys(Trim(a), Trim(b));
  }

  /** The position of the first user with exactly this email, or -1 (what `findOne({ email })` acts on). */
  function FindEmail(store: seq<User>, email: string): (k: int)
    ensures -1 <= k < |store|
    ensures k == -1 <==> forall i | 0 <= i < |store| :: store[i].email != email
    ensures k >= 0 ==> store[k].email == email && forall i | 0 <= i < k :: store[i].email != email
  {
    if |store| == 0 then -1
    else if store[0].email == email then 0
    else
      var k := FindEmail(store[1..], email);
      if k == -1 then -1 else k + 1
  }

  /** Every stored email is normalised and no two users share one (the schema's unique index). */
  predicate WellFormed(store: seq<User>) {
    && (forall i | 0 <= i < |store| :: Normalized(store[i].email))
    && (forall i, j | 0 <= i < j < |store| :: store[i].email != store[j].email)
  }

  /** Adding a user whose email is normalised and new keeps the store well-formed. */
  lemma AppendKeepsWellFormed(store: seq<User>, u: User)
    ensures WellFormed(store) && Normalized(u.email) && FindEmail(store, u.email) < 0 ==> WellFormed(store + [u])
  {
  }

  /** Replacing a user by one with the same email keeps the store well-formed. */
  lemma ReplaceKeepsWellFormed(store: seq<User>, k: nat, u: User)
    requires k < |store|
    ensures WellFormed(store) && (u.email == store[k].email || (Normalized(u.email) && !Taken(store, u.email, k)))
            ==> WellFormed(store[k := u])
  {
    var s := store[k := u];
    if WellFormed(store) && (u.email == store[k].email || (Normalized(u.email) && !Taken(store, u.email, k))) {
      forall i, j | 0 <= i < j < |s|
        ensures s[i].email != s[j].email
      {
        if i != k && j != k {
          assert s[i] == store[i] && s[j] == store[j];
        } else if u.email != store[k].email {
          assert i == k ==> s[j] == store[j];
          assert j == k ==> s[i] == store[i];
        }
      }
    }
  }

  /** Removing a user keeps the store well-formed. */
  lemma RemoveKeepsWellFormed(store: seq<User>, k: nat)
    requires k < |store|
    ensures WellFormed(store) ==> WellFormed(store[..k] + store[k + 1..])
  {
    var s := store[..k] + store[k + 1..];
    assert forall i | 0 <= i < |s| :: s[i] == if i < k then store[i] else store[i + 1];
  }

  /** Lookups ignore ASCII case: two emails equal up to case find the same user. */
  lemma LookupIgnoresCase(store: seq<User>, a: string, b: string)
    requires EqualIgnoringCase(a, b)
    ensures FindEmail(store, Key(a)) == FindEmail(store, Key(b))
  {
    ToLowerKeys(a, b);
    TrimLower(a);
    TrimLower(b);
    SameKey(a, b);
  }

  // ------------------------------------------------------------ validation

  /** `email` is required, and a present one must not normalise to the empty string. */
  predicate EmailOk(f: UserFields, whole: bool) {
    if f.email.Some? then Trim(f.email.value) != [] else !whole
  }

  /** `name` is required and trimmed, so a present one must not be blank. */
  predicate NameOk(f: UserFields, whole: bool) {
    if f.name.Some? then Trim(f.name.value) != [] else !whole
  }

  predicate Valid(f: UserFields, whole: bool) {
    EmailOk(f, whole) && NameOk(f, whole)
  }

  /** The paths a `ValidationError` reports. */
  function Problems(f: UserFields, whole: bool): (ps: seq<string>)
    ensures ps == [] <==> Valid(f, whole)
    ensures "email" in ps <==> !EmailOk(f, whole)
    ensures "name" in ps <==> !NameOk(f, whole)
  {
    (if EmailOk(f, whole) then [] else ["email"]) + (if NameOk(f, whole) then [] else ["name"])
  }

  function TrimField(v: Option<string>): Option<string> {
    if v.Some? then Some(Trim(v.value)) else None
  }

  /** The user a body creates: the email normalised, the name and picture trimmed. */
  function NewUser(f: UserFields): (u: User)
    requires f.email.Some?
    ensures u.email == Normalize(f.email.value)
    ensures u.name == TrimField(f.name) && u.picture == TrimField(f.picture) && u.googleId == f.googleId
  {
    User(Normalize(f.email.value), TrimField(f.name), TrimField(f.picture), f.googleId)
  }

  /** `$set: f`: every present field replaces the stored one, through the same setters; absent fields are kept. */
  function Apply(u: User, f: UserFields): (v: User)
    ensures v.email == if f.email.Some? then Normalize(f.email.value) else u.email
    ensures v.name == (if f.name.Some? then TrimField(f.name) else u.name)
    ensures v.picture == (if f.picture.Some? then TrimField(f.picture) else u.picture)
    ensures v.googleId == (if f.googleId.Some? then f.googleId else u.googleId)
  {
    User(if f.email.Some? then Normalize(f.email.value) else u.email,
         if f.name.Some? then TrimField(f.name) else u.name,
         if f.picture.Some? then TrimField(f.picture) else u.picture,
         if f.googleId.Some? then f.googleId else u.googleId)
  }

  /** Applying the same patch twice is the same as applying it once. */
  lemma ApplyIdempotent(u: User, f: UserFields)
    ensures Apply(Apply(u, f), f) == Apply(u, f)
  {
    if f.email.Some? {
      NormalizeFixed(Normalize(f.email.value));
    }
    if f.name.Some? { TrimIdempotent(f.name.value); }
    if f.picture.Some? { TrimIdempotent(f.picture.value); }
  }

  /** `update` first deletes a truthy email from the patch; an empty email stays (and then fails validation). */
  function StripEmail(f: UserFields): (g: UserFields)
    ensures g.email.None? || g.email == Some([])
    ensures g == f.(email := g.email)
  {
    if Given(f.email) then f.(email := None) else f
  }

  // ---------------------------------------------------------------- replies

  /** The JSON body of a response. */
  datatype Body =
    | Message(text: string)
    | Invalid(paths: seq<string>)
    | One(user: User)
    | Page(users: seq<User>, total: nat, page: int, pages: int)
    | NoContent

  datatype Outcome = Outcome(status: int, body: Body, store: seq<User>)

  const NotFound := "User not found"

  /**
   * `createUser`: a body without an email makes the lookup throw (500); an
   * existing email, up to case and surrounding whitespace, gives 409 and
   * creates nothing; then the schema validates (400) and the user is added
   * (201), or 500 when the write throws. The unique index never fires: the
   * lookup already searched for the stored form.
   */
  function CreateUser(store: seq<User>, body: UserFields, fault: Fault): (o: Outcome)
    ensures o.status in {201, 400, 409, 500}
    ensures o.status == 409 <==> body.email.Some? && fault != ReadFails && FindEmail(store, Key(body.email.value)) >= 0
    ensures o.status == 409 ==> o.body == Message("User with this email already exists")
    ensures o.status == 400 <==>
              body.email.Some? && fault != ReadFails && FindEmail(store, Key(body.email.value)) < 0 && !Valid(body, true)
    ensures o.status == 201 <==>
              body.email.Some? && fault == Healthy && Valid(body, true) && FindEmail(store, Key(body.email.value)) < 0
    ensures o.status != 201 ==> o.store == store
    ensures o.status == 201 ==> o.body == One(NewUser(body)) && o.store == store + [NewUser(body)]
    ensures WellFormed(store) ==> WellFormed(o.store)
  {
    if body.email.None? || fault == ReadFails then Outcome(500, Message("Failed to create user"), store)
    else if FindEmail(store, Key(body.email.value)) >= 0 then Outcome(409, Message("User with this email already exists"), store)
    else if !Valid(body, true) then Outcome(400, Invalid(Problems(body, true)), store)
    else if fault != Healthy then Outcome(500, Message("Failed to create user"), store)
    else
      AppendKeepsWellFormed(store, NewUser(body));
      Outcome(201, One(NewUser(body)), store + [NewUser(body)])
  }

  /** `getUserByEmail`: 404 for an unknown email, otherwise 200 with the user; the store never changes. */
  function GetUser(store: seq<User>, email: string, fault: Fault): (o: Outcome)
    ensures o.store == store
    ensures o.status == 500 <==> fault == ReadFails
    ensures o.status == 404 <==> fault != ReadFails && FindEmail(store, Key(email)) < 0
    ensures o.status == 200 <==> fault != ReadFails && FindEmail(store, Key(email)) >= 0
    ensures o.status == 200 ==> o.body == One(store[FindEmail(store, Key(email))])
  {
    var k := FindEmail(store, Key(email));
    if fault == ReadFails then Outcome(500, Message("Failed to fetch user"), store)
    else if k < 0 then Outcome(404, Message(NotFound), store)
    else Outcome(200, One(store[k]), store)
  }

  /** A user just created can be read back under its email written in any case and with any padding. */
  lemma CreateThenGet(store: seq<User>, body: UserFields, asked: string)
    requires CreateUser(store, body, Healthy).status == 201
    requires EqualIgnoringCase(Trim(asked), Trim(body.email.value))
    ensures var o := CreateUser(store, body, Healthy);
            GetUser(o.store, asked, Healthy) == Outcome(200, One(NewUser(body)), o.store)
  {
    AppendedIsFound(store, NewUser(body));
    SameKey(asked, body.email.value);
  }

  /** Creating the same email twice, in any case and with any padding, gives 409 the second time and leaves the store alone. */
  lemma CreateTwiceConflicts(store: seq<User>, body: UserFields, again: UserFields)
    requires CreateUser(store, body, Healthy).status == 201
    requires again.email.Some? && EqualIgnoringCase(Trim(again.email.value), Trim(body.email.value))
    ensures var s := CreateUser(store, body, Healthy).store;
            CreateUser(s, again, Healthy) == Outcome(409, Message("User with this email already exists"), s)
  {
    var s := CreateUser(store, body, Healthy).store;
    AppendedIsFound(store, NewUser(body));
    SameKey(again.email.value, body.email.value);
    KnownEmailConflicts(s, again);
  }

  /** A body whose email is already known, up to case, is refused with 409. */
  lemma KnownEmailConflicts(store: seq<User>, body: UserFields)
    requires body.email.Some? && FindEmail(store, Key(body.email.value)) >= 0
    ensures CreateUser(store, body, Healthy) == Outcome(409, Message("User with this email already exists"), store)
  {
    var o := CreateUser(store, body, Healthy);
    assert o.status == 409;
  }

  /** A user appended to a store with no user under its email is found at the end. */
  lemma AppendedIsFound(store: seq<User>, u: User)
    requires FindEmail(store, u.email) < 0
    ensures FindEmail(store + [u], u.email) == |store|
  {
    var s := store + [u];
    assert s[|store|] == u;
    assert forall i | 0 <= i < |store| :: s[i] == store[i];
  }

  /**
   * `updateUser`: 404 for an unknown email; otherwise a truthy email is
   * removed from the patch, the rest validated (400) and written (500 when
   * the write throws), and the updated user returned with 200.
   */
  function UpdateUser(store: seq<User>, email: string, patch: UserFields, fault: Fault): (o: Outcome)
    ensures o.status in {200, 400, 404, 500}
    ensures o.status == 404 <==> fault != ReadFails && FindEmail(store, Key(email)) < 0
    ensures o.status == 200 <==> fault == Healthy && FindEmail(store, Key(email)) >= 0 && Valid(StripEmail(patch), false)
    ensures o.status != 200 ==> o.store == store
    ensures o.status == 200 ==>
              var k := FindEmail(store, Key(email));
              && |o.store| == |store|
              && o.store[k] == Apply(store[k], StripEmail(patch)) && o.body == One(o.store[k])
              && (forall i | 0 <= i < |store| && i != k :: o.store[i] == store[i])
    ensures forall i | 0 <= i < |o.store| :: i < |store| && o.store[i].email == store[i].email
    ensures WellFormed(store) ==> WellFormed(o.store)
  {
    var k := FindEmail(store, Key(email));
    var p := StripEmail(patch);
    if fault == ReadFails then Outcome(500, Message("Failed to update user"), store)
    else if k < 0 then Outcome(404, Message(NotFound), store)
    else if !Valid(p, false) then Outcome(400, Invalid(Problems(p, false)), store)
    else if fault != Healthy then Outcome(500, Message("Failed to update user"), store)
    else
      var u := Apply(store[k], p);
      PatchAt(store, k, p);
      Outcome(200, One(u), store[k := u])
  }

  /**
   * Writing a valid stripped patch onto the user at `k`: the patch carries no
   * email, only that user changes, and no user's email does.
   */
  lemma PatchAt(store: seq<User>, k: nat, p: UserFields)
    requires k < |store| && (p.email.None? || p.email == Some([])) && Valid(p, false)
    ensures p.email.None?
    ensures var s := store[k := Apply(store[k], p)];
            && |s| == |store| && s[k] == Apply(store[k], p)
            && (forall i | 0 <= i < |store| && i != k :: s[i] == store[i])
            && (forall i | 0 <= i < |s| :: s[i].email == store[i].email)
            && (WellFormed(store) ==> WellFormed(s))
  {
    assert Trim([]) == [];
    ReplaceKeepsWellFormed(store, k, Apply(store[k], p));
  }

  /** Whatever the patch holds, an update never changes any user's email. */
  lemma UpdateNeverChangesEmail(store: seq<User>, email: string, patch: UserFields, fault: Fault)
    ensures var o := UpdateUser(store, email, patch, fault);
            |o.store| == |store| && forall i | 0 <= i < |store| :: o.store[i].email == store[i].email
  {
  }

  /** `deleteUser`: 404 for an unknown email; otherwise that user is removed (500 when the write throws) and 204 returned. */
  function DeleteUser(store: seq<User>, email: string, fault: Fault): (o: Outcome)
    ensures o.status in {204, 404, 500}
    ensures o.status == 404 <==> fault != ReadFails && FindEmail(store, Key(email)) < 0
    ensures o.status == 204 <==> fault == Healthy && FindEmail(store, Key(email)) >= 0
    ensures o.status != 204 ==> o.store == store
    ensures o.status == 204 ==>
              var k := FindEmail(store, Key(email));
              o.body == NoContent && o.store == store[..k] + store[k + 1..]
    ensures WellFormed(store) ==> WellFormed(o.store)
  {
    var k := FindEmail(store, Key(email));
    if fault == ReadFails then Outcome(500, Message("Failed to delete user"), store)
    else if k < 0 then Outcome(404, Message(NotFound), store)
    else if fault != Healthy then Outcome(500, Message("Failed to delete user"), store)
    else
      RemoveKeepsWellFormed(store, k);
      Outcome(204, NoContent, store[..k] + store[k + 1..])
  }

  /** In a well-formed store, once a user is deleted its email is unknown. */
  lemma DeleteThenGet(store: seq<User>, email: string)
    requires WellFormed(store)
    requires DeleteUser(store, email, Healthy).status == 204
    ensures GetUser(DeleteUser(store, email, Healthy).store, email, Healthy).status == 404
  {
    var k := FindEmail(store, Key(email));
    var s := DeleteUser(store, email, Healthy).store;
    forall i | 0 <= i < |s|
      ensures s[i].email != Key(email)
    {
      if i < k {
        assert s[i] == store[i];
      } else {
        assert s[i] == store[i + 1];
      }
    }
  }

  // --------------------------------------------------------------- listing

  /** The store newest first (`sort({ createdAt: -1 })`, creation order reversed). */
  function NewestFirst(store: seq<User>): (r: seq<User>)
    ensures |r| == |store|
    ensures forall i | 0 <= i < |store| :: r[i] == store[|store| - 1 - i]
  {
    seq(|store|, i requires 0 <= i < |store| => store[|store| - 1 - i])
  }

  /** `getAllUsers`: `limit` and `page` with their defaults, then one page of users, newest first. */
  function ListUsers(store: seq<User>, limitQuery: Option<string>, pageQuery: Option<string>, fault: Fault): (o: Outcome)
    ensures o.store == store
    ensures var limit := QueryNumber(limitQuery, DefaultLimit);
            var page := QueryNumber(pageQuery, DefaultPage);
            && (o.status == 200 <==> fault != ReadFails && Skip(page, limit) >= 0)
            && (o.status != 200 ==> o == Outcome(500, Message("Failed to fetch users"), store))
            && (o.status == 200 ==>
                  o.body == Page(Window(NewestFirst(store), Skip(page, limit), Abs(limit)), |store|, page, Pages(|store|, limit)))
  {
    var limit := QueryNumber(limitQuery, DefaultLimit);
    var page := QueryNumber(pageQuery, DefaultPage);
    var skip := Skip(page, limit);
    if fault == ReadFails || skip < 0 then Outcome(500, Message("Failed to fetch users"), store)
    else Outcome(200, Page(Window(NewestFirst(store), skip, Abs(limit)), |store|, page, Pages(|store|, limit)), store)
  }

  /** With a positive limit, the first page lists the most recently created users, newest first. */
  lemma FirstPageIsNewest(store: seq<User>, limit: int, j: nat)
    requires limit > 0 && j < limit && j < |store|
    ensures var o := ListUsers(store, Some(IntToString(limit)), None, Healthy);
            o.status == 200 && |o.body.users| > j && o.body.users[j] == store[|store| - 1 - j]
  {
    FirstPageListed(store, limit);
    var newest := NewestFirst(store);
    var w := Window(newest, 0, limit);
    assert |w| > j && w[j] == newest[j];
  }

  lemma FirstPageListed(store: seq<User>, limit: int)
    requires limit > 0
    ensures var o := ListUsers(store, Some(IntToString(limit)), None, Healthy);
            o.status == 200 && o.body.users == Window(NewestFirst(store), 0, limit)
  {
    QueryNumberReadsPrinted(limit, DefaultLimit);
    assert Skip(QueryNumber(None, DefaultPage), limit) == 0;
    assert Abs(limit) == limit;
  }

  // ---------------------------------------------------------------- upsert

  datatype UpsertError = EmailRequired | ValidationFailed(paths: seq<string>) | DuplicateKey | StoreFailed

  datatype Upserted = Upserted(store: seq<User>, user: User)

  /** Another user than the one at `except` already has this email. */
  predicate Taken(store: seq<User>, email: string, except: int) {
    exists j | 0 <= j < |store| :: j != except && store[j].email == email
  }

  /**
   * `upsert`: throws without a truthy email; otherwise the patch is
   * validated and applied to the user found under the email's key, or
   * inserted as a new user when there is none. The unique index rejects a
   * result whose email another user already has.
   */
  function Upsert(store: seq<User>, f: UserFields, fault: Fault): (r: Result<Upserted, UpsertError>)
    ensures r == Err(EmailRequired) <==> !Given(f.email)
    ensures r.Ok? ==> Given(f.email) && Valid(f, false) && fault == Healthy
    ensures r.Ok? ==> r.value.user.email == Normalize(f.email.value)
    ensures r.Ok? && FindEmail(store, Key(f.email.value)) >= 0 ==>
              var k := FindEmail(store, Key(f.email.value));
              r.value.user == Apply(store[k], f) && r.value.store == store[k := r.value.user]
    ensures r.Ok? && FindEmail(store, Key(f.email.value)) < 0 ==>
              r.value.user == NewUser(f) && r.value.store == store + [r.value.user]
    ensures r.Ok? && WellFormed(store) ==> WellFormed(r.value.store)
  {
    if !Given(f.email) then Err(EmailRequired)
    else if !Valid(f, false) then Err(ValidationFailed(Problems(f, false)))
    else if fault != Healthy then Err(StoreFailed)
    else
      var k := FindEmail(store, Key(f.email.value));
      var u := if k >= 0 then Apply(store[k], f) else NewUser(f);
      if Taken(store, u.email, k) then Err(DuplicateKey)
      else if k >= 0 then
        ReplaceKeepsWellFormed(store, k, u);
        Ok(Upserted(store[k := u], u))
      else
        AppendKeepsWellFormed(store, u);
        Ok(Upserted(store + [u], u))
  }

  /** In a well-formed store, an upsert of a valid patch never hits the unique index. */
  lemma UpsertNeverDuplicates(store: seq<User>, f: UserFields)
    requires WellFormed(store) && Given(f.email) && Valid(f, false)
    ensures Upsert(store, f, Healthy).Ok?
  {
    var e := f.email.value;
    var k := FindEmail(store, Key(e));
    var u := if k >= 0 then Apply(store[k], f) else NewUser(f);
    assert u.email == Key(e);
    if k >= 0 {
      UniqueNotTaken(store, k);
    }
    assert !Taken(store, u.email, k);
  }

  /** Upserting the same fields twice leaves the store as one upsert left it. */
  lemma UpsertIdempotent(store: seq<User>, f: UserFields)
    requires Upsert(store, f, Healthy).Ok? && WellFormed(store)
    ensures var once := Upsert(store, f, Healthy).value;
            Upsert(once.store, f, Healthy) == Ok(once)
  {
    var once := Upsert(store, f, Healthy).value;
    var k := FindEmail(store, Key(f.email.value));
    var at := UpsertPosition(store, f);
    assert Apply(once.store[at], f) == once.store[at] by {
      if k >= 0 {
        ApplyIdempotent(store[k], f);
      } else {
        ApplyToNew(f);
      }
    }
    assert WellFormed(once.store);
    UpsertFound(once.store, f, at);
    assert once == Upserted(once.store, once.store[at]);
  }

  /** Applying a patch to the user it created changes nothing. */
  lemma ApplyToNew(f: UserFields)
    requires f.email.Some?
    ensures Apply(NewUser(f), f) == NewUser(f)
  {
  }

  /** After an upsert, the upserted user is the first one under its key. */
  lemma UpsertPosition(store: seq<User>, f: UserFields) returns (at: nat)
    requires Upsert(store, f, Healthy).Ok?
    ensures var once := Upsert(store, f, Healthy).value;
            var k := FindEmail(store, Key(f.email.value));
            && at == (if k >= 0 then k else |store|)
            && FindEmail(once.store, Key(f.email.value)) == at && at < |once.store|
            && once.store[at] == once.user
  {
    var e := f.email.value;
    var once := Upsert(store, f, Healthy).value;
    var k := FindEmail(store, Key(e));
    if k >= 0 {
      at := k;
      ReplacedIsFound(store, k, once.user);
    } else {
      at := |store|;
      AppendedIsFound(store, once.user);
    }
  }

  /** A user put in place of the first one under its email is found where it was put. */
  lemma ReplacedIsFound(store: seq<User>, k: nat, u: User)
    requires FindEmail(store, u.email) == k
    ensures FindEmail(store[k := u], u.email) == k
  {
    var s := store[k := u];
    assert s[k] == u;
    assert forall i | 0 <= i < k :: s[i] == store[i];
  }

  /**
   * Upserting into a well-formed store a patch that leaves the user under its
   * key as it is changes nothing.
   */
  lemma UpsertFound(store: seq<User>, f: UserFields, k: nat)
    requires WellFormed(store) && Given(f.email) && Valid(f, false)
    requires FindEmail(store, Key(f.email.value)) == k && Apply(store[k], f) == store[k]
    ensures Upsert(store, f, Healthy) == Ok(Upserted(store, store[k]))
  {
    UniqueNotTaken(store, k);
    UpsertAt(store, f, k);
    UpdateSame(store, k);
  }

  /** In a well-formed store nobody else has a stored user's email. */
  lemma UniqueNotTaken(store: seq<User>, k: nat)
    requires WellFormed(store) && k < |store|
    ensures !Taken(store, store[k].email, k)
  {
  }

  lemma UpdateSame<T>(s: seq<T>, k: nat)
    requires k < |s|
    ensures s[k := s[k]] == s
  {
  }

  /** An upsert that finds a user and whose result collides with nobody else replaces that user. */
  lemma UpsertAt(store: seq<User>, f: UserFields, k: nat)
    requires Given(f.email) && Valid(f, false) && FindEmail(store, Key(f.email.value)) == k
    requires !Taken(store, Apply(store[k], f).email, k)
    ensures Upsert(store, f, Healthy) == Ok(Upserted(store[k := Apply(store[k], f)], Apply(store[k], f)))
  {
  }
}
