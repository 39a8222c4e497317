/**
 * The payload of the tokens the backend signs, and the caller the meeting
 * handlers take from it. The sign-in routes of `auth/auth.ts` and `index.ts`
 * sign `{ email, name, picture, googleId }`. The authentication middleware
 * makes that payload the request's user, and every meeting handler reads the
 * caller as `req.user?._id`. The payload has no `_id`, so a token the backend
 * signed never names a caller. `SignedWithId` is the payload with the stored
 * user's id signed in as well.
 */
module TokenClaims {
  import opened Wrappers
  import opened MeetingStore
  import opened Backend
  import opened Meetings
  import opened MeetingsApi

  /** A decoded payload: the profile fields, and `_id` when the token carries one. */
  datatype Claims = Claims(email: string, name: string, picture: string, googleId: string, id: Option<string>)

  /** `jwt.sign({ email, name, picture, googleId: sub }, ...)`, decoded: the profile and no `_id`. */
  function Signed(email: string, name: string, picture: string, googleId: string): (c: Claims)
    ensures c.id.None?
    ensures c.email == email && c.name == name && c.picture == picture && c.googleId == googleId
  {
    Claims(email, name, picture, googleId, None)
  }

  /** The same profile with the stored user's `_id` signed in as well. */
  function SignedWithId(email: string, name: string, picture: string, googleId: string, userId: string): (c: Claims)
    ensures c.id == Some(userId)
    ensures c.(id := None) == Signed(email, name, picture, googleId)
  {
    Claims(email, name, picture, googleId, Some(userId))
  }

  /** `req.user?._id` of a request whose user is the decoded payload. */
  function CallerOf(c: Claims): Option<string> {
    c.id
  }

  /**
   * With a token the sign-in routes signed, every meeting handler answers 401
   * once its required query parameters are present, and none changes the store.
   */
  lemma SignedTokenLocksOut(email: string, name: string, picture: string, googleId: string,
                            store: seq<Doc>, body: Fields, patch: Fields, newId: string, id: string,
                            limitQuery: Option<string>, pageQuery: Option<string>,
                            date: Option<string>, startTime: Option<string>,
                            startDate: Option<string>, endDate: Option<string>, fault: Fault)
    ensures var caller := CallerOf(Signed(email, name, picture, googleId));
            && Create(store, caller, body, newId, fault) == Outcome(401, Message(AuthRequired), store)
            && GetById(store, caller, id, fault) == Outcome(401, Message(AuthRequired), store)
            && UpdateById(store, caller, id, patch, fault) == Outcome(401, Message(AuthRequired), store)
            && DeleteById(store, caller, id, fault) == Outcome(401, Message(AuthRequired), store)
            && ListOwn(store, caller, limitQuery, pageQuery, fault) == Outcome(401, Message(AuthRequired), store)
            && (Given(startDate) && Given(endDate) ==> ByDateRange(store, caller, startDate, endDate, fault).status == 401)
            && (Given(date) && Given(startTime) ==> UpdateByDate(store, caller, date, startTime, patch, fault).status == 401)
            && (Given(date) && Given(startTime) ==> DeleteByDate(store, caller, date, startTime, fault).status == 401)
  {
  }

  /**
   * With the user's id in the token, the handlers go past the 401: a valid
   * meeting is created under that id, and the user reads back a meeting
   * they own.
   */
  lemma SignedWithIdReachesHandlers(email: string, name: string, picture: string, googleId: string, userId: string,
                                    store: seq<Doc>, body: Fields, newId: string, id: string)
    requires userId != []
    ensures var caller := CallerOf(SignedWithId(email, name, picture, googleId, userId));
            && Authenticated(caller)
            && (Conforms(body.(owner := Some(userId)), true) ==>
                  var o := Create(store, caller, body, newId, Healthy);
                  o.status == 201 && o.payload.doc.owner == userId && o.payload.doc.id == newId)
            && (Target(store, id) >= 0 && store[Target(store, id)].owner == userId ==>
                  GetById(store, caller, id, Healthy) == Outcome(200, One(store[Target(store, id)]), store))
  {
  }
}
