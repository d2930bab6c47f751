/** The client's authentication state: the reducer over
    `{ isAuthenticated, user, token, loading, error }`, the three sign-in
    flows as the state changes and results they produce, and the start-up
    load. The HTTP calls, axios headers and local storage are inputs. */
module AuthContext {
  import opened Common
  import opened Models

  /** A user object as the server sent it (`toJSON` output). */
  type Profile = map<string, JsonValue>

  datatype AuthState = AuthState(isAuthenticated: bool, user: Option<Profile>, token: Option<string>,
                                 loading: bool, error: Option<string>)

  /** `{ user, token }` of a successful sign-in reply. */
  datatype Session = Session(user: Profile, token: string)

  datatype Action =
    | LoginStart | RegisterStart
    | LoginSuccess(session: Session) | RegisterSuccess(session: Session)
    | LoginFailure(message: string) | RegisterFailure(message: string)
    | Logout
    | LoadUser(profile: Profile)
    | UpdateUser(profile: Profile)
    | Unknown(name: string)

  /** `authReducer` */
  function Reduce(s: AuthState, a: Action): AuthState {
    match a
    case LoginStart => s.(loading := true, error := None)
    case RegisterStart => s.(loading := true, error := None)
    case LoginSuccess(p) => s.(loading := false, isAuthenticated := true, user := Some(p.user), token := Some(p.token), error := None)
    case RegisterSuccess(p) => s.(loading := false, isAuthenticated := true, user := Some(p.user), token := Some(p.token), error := None)
    case LoginFailure(m) => s.(loading := false, isAuthenticated := false, user := None, token := None, error := Some(m))
    case RegisterFailure(m) => s.(loading := false, isAuthenticated := false, user := None, token := None, error := Some(m))
    case Logout => s.(isAuthenticated := false, user := None, token := None, error := None)
    case LoadUser(u) => s.(isAuthenticated := true, user := Some(u), loading := false)
    case UpdateUser(u) => s.(user := Some(u))
    case Unknown(_) => s
  }

  /** The fields an action writes; every other field keeps its value. */
  lemma ReduceFrames(s: AuthState, a: Action)
    ensures (a.LoginStart? || a.RegisterStart?) ==>
              Reduce(s, a).loading && Reduce(s, a).error.None?
              && Reduce(s, a).(loading := s.loading, error := s.error) == s
    ensures a.Logout? ==>
              (Reduce(s, a).loading == s.loading && !Reduce(s, a).isAuthenticated
               && Reduce(s, a).user.None? && Reduce(s, a).token.None? && Reduce(s, a).error.None?)
    ensures a.LoadUser? ==>
              (Reduce(s, a).token == s.token && Reduce(s, a).error == s.error
               && Reduce(s, a).isAuthenticated && !Reduce(s, a).loading && Reduce(s, a).user == Some(a.profile))
    ensures a.UpdateUser? ==> Reduce(s, a) == s.(user := Some(a.profile))
    ensures a.Unknown? ==> Reduce(s, a) == s
  {
  }

  /** A success or a failure overwrites every field, so the state after it
      does not depend on the state before it. */
  lemma OutcomesForget(s: AuthState, t: AuthState, a: Action)
    requires a.LoginSuccess? || a.RegisterSuccess? || a.LoginFailure? || a.RegisterFailure?
    ensures Reduce(s, a) == Reduce(t, a)
  {
  }

  /** The state invariant every dispatch keeps: a signed-in state holds a user. */
  predicate SignedInHasUser(s: AuthState) {
    s.isAuthenticated ==> s.user.Some?
  }

  lemma ReducePreserves(s: AuthState, a: Action)
    requires SignedInHasUser(s)
    ensures SignedInHasUser(Reduce(s, a))
  {
  }

  /** The state after dispatching `actions` in order. */
  function Run(s: AuthState, actions: seq<Action>): AuthState
    decreases |actions|
  {
    if actions == [] then s else Run(Reduce(s, actions[0]), actions[1..])
  }

  lemma {:induction false} RunPreserves(s: AuthState, actions: seq<Action>)
    requires SignedInHasUser(s)
    ensures SignedInHasUser(Run(s, actions))
    decreases |actions|
  {
    if actions != [] {
      ReducePreserves(s, actions[0]);
      RunPreserves(Reduce(s, actions[0]), actions[1..]);
    }
  }

  /** `initialState`, with the token read from local storage. */
  function Initial(storedToken: Option<string>): (s: AuthState)
    ensures SignedInHasUser(s)
  {
    AuthState(false, None, storedToken, false, None)
  }

  // ---------------------------------------------------------------- the flows

  /** Which of `register`, `login` and `adminLogin` runs. */
  datatype Flow = Registering | LoggingIn | AdminLoggingIn

  /** The server's reply: a session and its message, or an error whose body
      may carry a message. */
  datatype Reply = Succeeded(session: Session, message: string) | Failed(serverMessage: Option<string>)

  /** `{ success, message }` as the flows return it. */
  datatype Result = Result(success: bool, message: string)

  function Fallback(f: Flow): string {
    match f
    case Registering => "Registration failed"
    case LoggingIn => "Login failed"
    case AdminLoggingIn => "Admin login failed"
  }

  /** `error.response?.data?.message || fallback`: an absent or empty message is replaced. */
  function FailureMessage(f: Flow, serverMessage: Option<string>): (m: string)
    ensures m != []
    ensures serverMessage.Some? && serverMessage.value != [] ==> m == serverMessage.value
    ensures serverMessage.None? || serverMessage.value == [] ==> m == Fallback(f)
  {
    if serverMessage.Some? && serverMessage.value != [] then serverMessage.value else Fallback(f)
  }

  /** One run of a flow: the start action, then the success or failure
      action; the new state and the flow's result. */
  function Attempt(s: AuthState, f: Flow, reply: Reply): (AuthState, Result) {
    var started := Reduce(s, if f == Registering then RegisterStart else LoginStart);
    match reply
    case Succeeded(session, message) =>
      (Reduce(started, if f == Registering then RegisterSuccess(session) else LoginSuccess(session)),
       Result(true, message))
    case Failed(serverMessage) =>
      var m := FailureMessage(f, serverMessage);
      (Reduce(started, if f == Registering then RegisterFailure(m) else LoginFailure(m)), Result(false, m))
  }

  /** The result a flow returns agrees with the state it leaves: success
      means signed in with the reply's user and token; failure means signed
      out, with the returned message as the error. Either way nothing is
      loading any more. */
  lemma AttemptMeaning(s: AuthState, f: Flow, reply: Reply)
    ensures Attempt(s, f, reply).1.success <==> Attempt(s, f, reply).0.isAuthenticated
    ensures !Attempt(s, f, reply).0.loading
    ensures reply.Succeeded? ==>
              Attempt(s, f, reply).0 == AuthState(true, Some(reply.session.user), Some(reply.session.token), false, None)
    ensures reply.Failed? ==>
              Attempt(s, f, reply).0 == AuthState(false, None, None, false, Some(Attempt(s, f, reply).1.message))
              && Attempt(s, f, reply).1.message == FailureMessage(f, reply.serverMessage)
  {
  }

  // ---------------------------------------------------------------- start-up

  /** The outcome of `GET /api/auth/me` at start-up: the user, or an error. */
  datatype LoadReply = Loaded(profile: Profile) | LoadFailed

  /** Whether `if (state.token)` takes its branch: a stored token that is
      present and not empty. */
  predicate HasToken(storedToken: Option<string>) {
    storedToken.Some? && storedToken.value != []
  }

  /** The provider after its mount effect: with a stored non-empty token,
      `loadUser` dispatches `LOAD_USER` or, on error, `LOGOUT`; then
      `isAuthLoading` is false. */
  function Mounted(storedToken: Option<string>, load: LoadReply): (s: AuthState)
    ensures SignedInHasUser(s)
  {
    var s0 := Initial(storedToken);
    if !HasToken(storedToken) then s0
    else match load
      case Loaded(p) => Reduce(s0, LoadUser(p))
      case LoadFailed => Reduce(s0, Logout)
  }

  /** Once mounted, the state is signed in exactly when a stored non-empty
      token loaded a user, and then it keeps that token. Otherwise there is
      no user; the token is gone, except that a stored empty token is never
      sent to the server and stays as it was read. */
  lemma MountedMeaning(storedToken: Option<string>, load: LoadReply)
    ensures Mounted(storedToken, load).isAuthenticated <==> HasToken(storedToken) && load.Loaded?
    ensures Mounted(storedToken, load).isAuthenticated ==> Mounted(storedToken, load).token == storedToken
    ensures !HasToken(storedToken) ==> Mounted(storedToken, load) == Initial(storedToken)
    ensures !Mounted(storedToken, load).isAuthenticated ==>
              Mounted(storedToken, load).user.None?
              && (storedToken == Some([]) ==> Mounted(storedToken, load).token == Some([]))
              && (storedToken != Some([]) ==> Mounted(storedToken, load).token.None?)
    ensures !Mounted(storedToken, load).loading
  {
  }
}
