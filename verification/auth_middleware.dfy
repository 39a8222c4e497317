/**
 * `authenticateJWT` of `auth/middleware.ts`: the bearer token is read from the
 * Authorization header, checked by `jwt.verify`, and either the request is
 * answered with 403 or its user is set and the next handler runs. The
 * signature check is an oracle `verify` from token to decoded payload.
 */
module AuthMiddleware {
  import opened Wrappers
  import opened Strings

  /** `header?.split(" ")[1]`: the second space-separated word of the header, when it has one. */
  function BearerToken(header: Option<string>): (t: Option<string>)
    ensures header.None? ==> t.None?
    ensures header.Some? ==> (t.Some? <==> ' ' in header.value)
    ensures t.Some? ==> ' ' !in t.value
  {
    if header.None? then None
    else
      var parts := Split(header.value, ' ');
      SplitCount(header.value, ' ');
      if |parts| >= 2 then Some(parts[1]) else None
  }

  /** Whatever the first word is, the word after the first space is the token. */
  lemma BearerTokenReadsSecondWord(scheme: string, token: string)
    requires ' ' !in scheme && ' ' !in token
    ensures BearerToken(Some(scheme + " " + token)) == Some(token)
  {
    var parts := [scheme, token];
    assert Join(parts, [' ']) == scheme + " " + token by {
      assert Join(parts[1..], [' ']) == token;
    }
    SplitJoin(parts, ' ');
  }

  /** What the middleware does to the request, in order. */
  datatype Effect<C> = Respond(status: int, error: string) | SetUser(user: C) | CallNext

  predicate Responded<C>(effects: seq<Effect<C>>) {
    exists i | 0 <= i < |effects| :: effects[i].Respond?
  }

  /** Answering 403 with `error`, without running `next`. */
  function Refuse<C>(error: string): (effects: seq<Effect<C>>)
    ensures Responded(effects) && effects == [Respond(403, error)]
  {
    var effects := [Respond(403, error)];
    assert effects[0].Respond?;
    effects
  }

  /**
   * A falsy token is refused with 403 "No token provided" and a token that
   * fails verification with 403 "Invalid token"; otherwise the decoded
   * payload becomes the request's user before `next` runs, once.
   */
  function Authenticate<C>(header: Option<string>, verify: string -> Option<C>): (effects: seq<Effect<C>>)
    ensures var t := BearerToken(header);
            && (CallNext in effects <==> Given(t) && verify(t.value).Some?)
            && (Responded(effects) <==> CallNext !in effects)
            && (forall i | 0 <= i < |effects| && effects[i].Respond? :: effects[i].status == 403)
            && (Respond(403, "No token provided") in effects <==> !Given(t))
            && (Respond(403, "Invalid token") in effects <==> Given(t) && verify(t.value).None?)
            && (CallNext in effects ==> effects[0] == SetUser(verify(t.value).value))
  {
    var t := BearerToken(header);
    if !Given(t) then Refuse("No token provided")
    else match verify(t.value)
      case None => Refuse("Invalid token")
      case Some(user) => [SetUser(user), CallNext]
  }

  /** `next` runs at most once, and exactly once when the token verifies. */
  lemma NextRunsAtMostOnce<C>(header: Option<string>, verify: string -> Option<C>)
    ensures var effects := Authenticate(header, verify);
            multiset(effects)[CallNext] == if CallNext in effects then 1 else 0
  {
  }

  /** `Bearer <token>` with a token the oracle accepts lets the request through with the decoded user. */
  lemma BearerHeaderAdmits<C>(token: string, verify: string -> Option<C>)
    requires token != [] && ' ' !in token && verify(token).Some?
    ensures Authenticate(Some("Bearer " + token), verify) == [SetUser(verify(token).value), CallNext]
  {
    BearerTokenReadsSecondWord("Bearer", token);
  }

  /** A header with nothing after the space, or no space at all, carries no token. */
  lemma NoTokenRefused<C>(scheme: string, verify: string -> Option<C>)
    requires ' ' !in scheme
    ensures Authenticate(Some(scheme), verify) == [Respond(403, "No token provided")]
    ensures Authenticate(Some(scheme + " "), verify) == [Respond(403, "No token provided")]
  {
    BearerTokenReadsSecondWord(scheme, "");
    assert scheme + " " + "" == scheme + " ";
  }
}
