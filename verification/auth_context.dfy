/**
 * The sign-in state of the desktop client (`src/auth-context.tsx`): the token
 * kept in local storage under "jwt", the token in React state and the user
 * decoded from it. Messages from the OAuth window, the decode effect that
 * runs whenever the token changes, and `logout` are its transitions. The JWT
 * decoder is an oracle `decode` from token to payload, `None` when it throws.
 */
module AuthContext {
  import opened Wrappers

  datatype AuthState<C> = AuthState(stored: Option<string>, jwt: Option<string>, user: Option<C>)

  /** The provider mounts with the stored token and no user yet. */
  function Mount<C>(stored: Option<string>): (s: AuthState<C>)
    ensures s.stored == stored && s.jwt == stored && s.user.None?
  {
    AuthState(stored, stored, None)
  }

  const DevServerOrigin := "http://localhost:5173"
  const BackendOrigin := "http://localhost:3000"
  const AuthSuccess := "AUTH_SUCCESS"

  predicate AllowedOrigin(origin: string) {
    origin == DevServerOrigin || origin == BackendOrigin
  }

  /** A `message` event: its origin, `data.type` and `data.jwt`. */
  datatype Message = Message(origin: string, kind: string, jwt: Option<string>)

  /** `localStorage.setItem` stores the text of its value, and a missing value as "undefined". */
  function StorageText(v: Option<string>): (t: string)
    ensures v.Some? ==> t == v.value
  {
    if v.Some? then v.value else "undefined"
  }

  /**
   * `handleMessage`: only the dev server and the backend are listened to, and
   * only `AUTH_SUCCESS` changes anything: its token is stored and becomes the
   * state's token. `AUTH_ERROR` and every other type are logged and dropped.
   */
  function HandleMessage<C>(s: AuthState<C>, m: Message): (t: AuthState<C>)
    ensures t != s ==> AllowedOrigin(m.origin) && m.kind == AuthSuccess
    ensures AllowedOrigin(m.origin) && m.kind == AuthSuccess ==>
              t.jwt == m.jwt && t.stored == Some(StorageText(m.jwt)) && t.user == s.user
  {
    if !AllowedOrigin(m.origin) then s
    else if m.kind == AuthSuccess then s.(stored := Some(StorageText(m.jwt)), jwt := m.jwt)
    else s
  }

  /** Exactly two origins can change the state. */
  lemma OnlyTwoOrigins<C>(s: AuthState<C>, origin: string, jwt: string)
    ensures HandleMessage(s, Message(origin, AuthSuccess, Some(jwt))) == s.(stored := Some(jwt), jwt := Some(jwt))
            <==> origin in {DevServerOrigin, BackendOrigin} || (s.stored == Some(jwt) && s.jwt == Some(jwt))
  {
  }

  /**
   * The effect on a new token: a truthy token is decoded into the user; one
   * that fails to decode is removed from storage and from state, and the
   * user is left as it was.
   */
  function DecodeEffect<C>(s: AuthState<C>, decode: string -> Option<C>): (t: AuthState<C>)
    ensures !Given(s.jwt) ==> t == s
    ensures Given(s.jwt) && decode(s.jwt.value).Some? ==> t.jwt == s.jwt && t.stored == s.stored && t.user == decode(s.jwt.value)
    ensures Given(s.jwt) && decode(s.jwt.value).None? ==> t.stored.None? && t.jwt.None? && t.user == s.user
  {
    if !Given(s.jwt) then s
    else match decode(s.jwt.value)
      case Some(c) => s.(user := Some(c))
      case None => s.(stored := None, jwt := None)
  }

  /** Running the effect again changes nothing: a decoded token stays, a rejected one is gone. */
  lemma DecodeSettles<C>(s: AuthState<C>, decode: string -> Option<C>)
    ensures DecodeEffect(DecodeEffect(s, decode), decode) == DecodeEffect(s, decode)
  {
  }

  /** `logout` forgets the stored token, the token and the user. */
  function Logout<C>(s: AuthState<C>): (t: AuthState<C>)
    ensures t.stored.None? && t.jwt.None? && t.user.None?
  {
    AuthState(None, None, None)
  }

  /**
   * A successful sign-in message followed by the decode effect signs the user
   * in, and a reload (a fresh mount from storage) restores the same sign-in.
   */
  lemma SignInSurvivesReload<C>(s: AuthState<C>, origin: string, token: string, decode: string -> Option<C>)
    requires AllowedOrigin(origin) && token != [] && decode(token).Some?
    ensures var t := DecodeEffect(HandleMessage(s, Message(origin, AuthSuccess, Some(token))), decode);
            && t == AuthState(Some(token), Some(token), decode(token))
            && DecodeEffect(Mount<C>(t.stored), decode) == t
  {
  }

  /** A token that does not decode is not there after a reload. */
  lemma RejectedTokenForgotten<C>(s: AuthState<C>, decode: string -> Option<C>)
    requires Given(s.jwt) && decode(s.jwt.value).None?
    ensures DecodeEffect(Mount<C>(DecodeEffect(s, decode).stored), decode) == AuthState(None, None, None)
  {
  }

  /** After `logout`, a reload finds nobody signed in, and foreign messages do not sign anyone in. */
  lemma LogoutSticks<C>(s: AuthState<C>, m: Message, decode: string -> Option<C>)
    requires !AllowedOrigin(m.origin)
    ensures DecodeEffect(Mount<C>(Logout(s).stored), decode) == Logout(s)
    ensures HandleMessage(Logout(s), m) == Logout(s)
  {
  }

  /** The provider's value `{ user, jwt, handleGoogleSignIn, logout }`, without the two functions. */
  datatype ContextValue<C> = ContextValue(user: Option<C>, jwt: Option<string>)

  function ProvidedValue<C>(s: AuthState<C>): ContextValue<C> {
    ContextValue(s.user, s.jwt)
  }

  /** `useAuth`: the provider's value, or the error thrown outside a provider. */
  function UseAuth<T>(context: Option<T>): (r: Result<T, string>)
    ensures r.Ok? <==> context.Some?
    ensures r.Ok? ==> r.value == context.value
    ensures r.Err? ==> r.error == "useAuth must be used within an AuthProvider"
  {
    match context
    case Some(v) => Ok(v)
    case None => Err("useAuth must be used within an AuthProvider")
  }

  /**
   * A component inside the provider reads the provider's current user and
   * token: after a sign-in and the decode effect it sees both, and after
   * `logout` it sees neither. Outside a provider it gets the error.
   */
  lemma ConsumerSeesProvider<C>(s: AuthState<C>, origin: string, token: string, decode: string -> Option<C>)
    requires AllowedOrigin(origin) && token != [] && decode(token).Some?
    ensures var signedIn := DecodeEffect(HandleMessage(s, Message(origin, AuthSuccess, Some(token))), decode);
            UseAuth(Some(ProvidedValue(signedIn))) == Ok(ContextValue(decode(token), Some(token)))
    ensures UseAuth(Some(ProvidedValue(Logout(s)))) == Ok(ContextValue(None, None))
    ensures UseAuth<ContextValue<C>>(None).Err?
  {
    SignInSurvivesReload(s, origin, token, decode);
  }
}
