/**
 * `checkAuthStatus` of `auth/auth.ts`: the desktop app polls it to collect
 * the sign-in that the OAuth callback left behind, in the `pendingAuth`
 * cookie or in the session. Collecting it consumes it.
 *
 * The callback stores the cookie as the text `JSON.stringify({ type, jwt,
 * user })`, and nothing turns that text back into an object, so the handler
 * as written reads `jwt` and `user` of a string. `CheckAuthStatusParsed` is
 * the handler with the cookie parsed; the JSON parser is an oracle `parse`.
 */
module AuthStatus {
  import opened Wrappers

  /** The sign-in the callback left: its token and its user. */
  datatype PendingAuth = PendingAuth(jwt: Option<string>, user: Option<string>)

  /** What a request carries: the text of the `pendingAuth` cookie and the session's `pendingAuth` object. */
  datatype Carrier = Carrier(cookie: Option<string>, session: Option<PendingAuth>)

  /** `{ authenticated: false }`, or `{ authenticated: true, jwt, user }`. */
  datatype StatusReply = NotAuthenticated | Authenticated(jwt: Option<string>, user: Option<string>)

  datatype StatusOutcome = StatusOutcome(reply: StatusReply, after: Carrier)

  /** Where `cookies.pendingAuth || session.pendingAuth` found its value. */
  datatype Source = CookieText(text: string) | SessionAuth(auth: PendingAuth)

  /** `cookies.pendingAuth || session.pendingAuth`: a non-empty cookie wins, whatever the session holds. */
  function Pending(c: Carrier): (p: Option<Source>)
    ensures Given(c.cookie) ==> p == Some(CookieText(c.cookie.value))
    ensures !Given(c.cookie) && c.session.Some? ==> p == Some(SessionAuth(c.session.value))
    ensures p.None? <==> !Given(c.cookie) && c.session.None?
  {
    if Given(c.cookie) then Some(CookieText(c.cookie.value))
    else if c.session.Some? then Some(SessionAuth(c.session.value))
    else None
  }

  /** Both carriers after a pickup: a truthy cookie is cleared and the session's value set to null. */
  function Cleared(c: Carrier): (d: Carrier)
    ensures !Given(d.cookie) && d.session.None?
    ensures !Given(c.cookie) ==> d.cookie == c.cookie
  {
    Carrier(if Given(c.cookie) then None else c.cookie, None)
  }

  /**
   * `checkAuthStatus` as written: with a pending sign-in, answers
   * `authenticated: true` and clears the carriers; the token and user are
   * read off the pending value, and a string has neither. Without one,
   * answers exactly `{ authenticated: false }` and changes nothing.
   */
  function CheckAuthStatus(c: Carrier): (o: StatusOutcome)
    ensures o.reply == NotAuthenticated <==> !Given(c.cookie) && c.session.None?
    ensures Given(c.cookie) ==> o.reply == Authenticated(None, None)
    ensures !Given(c.cookie) && c.session.Some? ==> o.reply == Authenticated(c.session.value.jwt, c.session.value.user)
    ensures !Given(o.after.cookie) && o.after.session.None?
    ensures o.reply == NotAuthenticated ==> o.after == c
  {
    match Pending(c)
    case None => StatusOutcome(NotAuthenticated, c)
    case Some(CookieText(_)) => StatusOutcome(Authenticated(None, None), Cleared(c))
    case Some(SessionAuth(p)) => StatusOutcome(Authenticated(p.jwt, p.user), Cleared(c))
  }

  /** A pending sign-in is handed out once: asking again right after reports not authenticated. */
  lemma PickupIsOneShot(c: Carrier)
    ensures CheckAuthStatus(CheckAuthStatus(c).after).reply == NotAuthenticated
    ensures CheckAuthStatus(CheckAuthStatus(c).after).after == CheckAuthStatus(c).after
  {
  }

  /**
   * The sign-in the callback leaves in the cookie is collected, but the
   * reply carries neither its token nor its user, whatever the session holds.
   */
  lemma CookieCarriesNoToken(text: string, session: Option<PendingAuth>)
    requires text != []
    ensures var o := CheckAuthStatus(Carrier(Some(text), session));
            o.reply.Authenticated? && o.reply.jwt.None? && o.reply.user.None? && o.after == Carrier(None, None)
  {
  }

  /**
   * `checkAuthStatus` with the cookie parsed first: a cookie that parses
   * hands out its token and user; one that does not counts as absent, and
   * the session is consulted. Both carriers are cleared as before.
   */
  function CheckAuthStatusParsed(c: Carrier, parse: string -> Option<PendingAuth>): (o: StatusOutcome)
    ensures var fromCookie := if Given(c.cookie) then parse(c.cookie.value) else None;
            && (o.reply == NotAuthenticated <==> fromCookie.None? && c.session.None?)
            && (fromCookie.Some? ==> o.reply == Authenticated(fromCookie.value.jwt, fromCookie.value.user))
            && (fromCookie.None? && c.session.Some? ==> o.reply == Authenticated(c.session.value.jwt, c.session.value.user))
    ensures !Given(o.after.cookie) && o.after.session.None?
    ensures o.reply == NotAuthenticated ==> o.after == Cleared(c)
  {
    var fromCookie := if Given(c.cookie) then parse(c.cookie.value) else None;
    var pending := if fromCookie.Some? then fromCookie else c.session;
    match pending
    case None => StatusOutcome(NotAuthenticated, Cleared(c))
    case Some(p) => StatusOutcome(Authenticated(p.jwt, p.user), Cleared(c))
  }

  /** Parsing changes nothing when there is no cookie: the session path is the same as written. */
  lemma ParsedAgreesWithoutCookie(c: Carrier, parse: string -> Option<PendingAuth>)
    requires !Given(c.cookie)
    ensures CheckAuthStatusParsed(c, parse) == CheckAuthStatus(c)
  {
  }

  /** With the cookie parsed, a sign-in left in the cookie is collected with its token and user. */
  lemma CookieCollected(p: PendingAuth, text: string, session: Option<PendingAuth>, parse: string -> Option<PendingAuth>)
    requires text != [] && parse(text) == Some(p)
    ensures CheckAuthStatusParsed(Carrier(Some(text), session), parse) == StatusOutcome(Authenticated(p.jwt, p.user), Carrier(None, None))
  {
  }

  /** With the cookie parsed, a pickup is still one-shot. */
  lemma ParsedPickupIsOneShot(c: Carrier, parse: string -> Option<PendingAuth>)
    ensures var after := CheckAuthStatusParsed(c, parse).after;
            CheckAuthStatusParsed(after, parse) == StatusOutcome(NotAuthenticated, after)
  {
  }
}
