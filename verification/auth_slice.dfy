/** The `auth` slice of `client/src/store/slices/authSlice.js`: the signed-in
    user as the server described it, the bearer token, and the flags the
    pages read. The initial state is derived from the browser's stored
    `token` and `user` entries; the JSON parser is a parameter. */
module AuthSlice {

  import opened Common
  import opened UserModel
  import opened Responses
  import Validators

  datatype AuthState = AuthState(
    user: Option<UserView>, token: Option<string>, loading: bool,
    error: Option<string>, isAuthenticated: bool, isAdmin: bool)

  /** `isAdmin` is exactly "the held user's role is admin". */
  predicate AdminFlagAgrees(s: AuthState) {
    s.isAdmin <==> s.user.Some? && s.user.value.role == Admin
  }

  /** `payload?.role === 'admin'` */
  predicate RoleIsAdmin(user: Option<UserView>) {
    user.Some? && user.value.role == Admin
  }

  /** What `JSON.parse` makes of the stored user entry: a syntax error, or a
      value that is a user record or `null`. */
  datatype Parsed = SyntaxError | Parsed(user: Option<UserView>)

  /** The state the slice starts from. The token is kept when the stored one
      is non-empty. A non-empty stored user that parses replaces `user`, and
      then `isAuthenticated` records whether a token is held; one that fails
      to parse leaves the signed-out defaults (the token already read stays
      in the state). */
  function InitialState(storedToken: Option<string>, storedUser: Option<string>,
                        parse: string -> Parsed): (s: AuthState)
    ensures s.token == (if Truthy(storedToken) then storedToken else None)
    ensures !s.loading && s.error.None?
    ensures AdminFlagAgrees(s)
    ensures s.isAuthenticated <==> Truthy(storedUser) && parse(storedUser.value).Parsed? && Truthy(storedToken)
    ensures s.user.Some? ==> Truthy(storedUser) && parse(storedUser.value) == Parsed(s.user)
    ensures Truthy(storedUser) && parse(storedUser.value).Parsed? ==> s.user == parse(storedUser.value).user
  {
    var token := if Truthy(storedToken) then storedToken else None;
    var signedOut := AuthState(None, token, false, None, false, false);
    if !Truthy(storedUser) then signedOut
    else match parse(storedUser.value)
      case SyntaxError => signedOut
      case Parsed(u) => signedOut.(user := u, isAuthenticated := token.Some?, isAdmin := RoleIsAdmin(u))
  }

  /** A stored `null` user with a stored token starts the session as
      authenticated while holding no user. */
  lemma NullUserStillAuthenticated(token: string, storedUser: string, parse: string -> Parsed)
    requires |token| > 0 && |storedUser| > 0 && parse(storedUser) == Parsed(None)
    ensures InitialState(Some(token), Some(storedUser), parse).isAuthenticated
    ensures InitialState(Some(token), Some(storedUser), parse).user.None?
  {
  }

  datatype AuthAction =
    | Logout
    | ClearError
    | UpdateUser(newUser: Option<UserView>)
    | LoginPending | LoginFulfilled(signedIn: Option<UserView>, newToken: string) | LoginRejected(message: string)
    | RegisterPending | RegisterFulfilled(signedIn: Option<UserView>, newToken: string) | RegisterRejected(message: string)
    | CurrentPending | CurrentFulfilled(current: Option<UserView>) | CurrentRejected

  /** The slice reducer. */
  function Reduce(s: AuthState, a: AuthAction): (r: AuthState)
    ensures AdminFlagAgrees(s) ==> AdminFlagAgrees(r)
    ensures a.Logout? ==>
      && r.user.None? && r.token.None? && !r.isAuthenticated && !r.isAdmin && r.error.None?
      && r.loading == s.loading
    ensures a.ClearError? ==> r == s.(error := None)
    ensures a.UpdateUser? ==>
      && r.user == a.newUser && (r.isAdmin <==> RoleIsAdmin(a.newUser))
      && r.token == s.token && r.isAuthenticated == s.isAuthenticated && r.error == s.error && r.loading == s.loading
    ensures a.LoginFulfilled? || a.RegisterFulfilled? ==>
      && r.user == a.signedIn && r.token == Some(a.newToken)
      && r.isAuthenticated && (r.isAdmin <==> RoleIsAdmin(a.signedIn))
      && !r.loading && r.error.None?
    ensures a.LoginRejected? || a.RegisterRejected? ==>
      && !r.loading && r.error == Some(a.message) && !r.isAuthenticated
      && r.user == s.user && r.token == s.token && r.isAdmin == s.isAdmin
    ensures a.LoginPending? || a.RegisterPending? ==> r == s.(loading := true, error := None)
    ensures a.CurrentPending? ==> r == s.(loading := true)
    ensures a.CurrentFulfilled? ==>
      r == s.(loading := false, user := a.current, isAuthenticated := true, isAdmin := RoleIsAdmin(a.current))
    ensures a.CurrentRejected? ==> r == s.(loading := false, isAuthenticated := false)
  {
    match a
    case Logout => s.(user := None, token := None, isAuthenticated := false, isAdmin := false, error := None)
    case ClearError => s.(error := None)
    case UpdateUser(u) => s.(user := u, isAdmin := RoleIsAdmin(u))
    case LoginPending => s.(loading := true, error := None)
    case LoginFulfilled(u, t) =>
      s.(loading := false, user := u, token := Some(t), isAuthenticated := true, isAdmin := RoleIsAdmin(u), error := None)
    case LoginRejected(m) => s.(loading := false, error := Some(m), isAuthenticated := false)
    case RegisterPending => s.(loading := true, error := None)
    case RegisterFulfilled(u, t) =>
      s.(loading := false, user := u, token := Some(t), isAuthenticated := true, isAdmin := RoleIsAdmin(u), error := None)
    case RegisterRejected(m) => s.(loading := false, error := Some(m), isAuthenticated := false)
    case CurrentPending => s.(loading := true)
    case CurrentFulfilled(u) => s.(loading := false, user := u, isAuthenticated := true, isAdmin := RoleIsAdmin(u))
    case CurrentRejected => s.(loading := false, isAuthenticated := false)
  }

  /** Running any sequence of actions from the initial state keeps the admin
      flag in agreement with the held user. */
  function Run(s: AuthState, actions: seq<AuthAction>): (r: AuthState)
    ensures AdminFlagAgrees(s) ==> AdminFlagAgrees(r)
    decreases |actions|
  {
    if actions == [] then s else Run(Reduce(s, actions[0]), actions[1..])
  }

  lemma AdminFlagAlwaysAgrees(storedToken: Option<string>, storedUser: Option<string>,
                              parse: string -> Parsed, actions: seq<AuthAction>)
    ensures AdminFlagAgrees(Run(InitialState(storedToken, storedUser, parse), actions))
  {
  }

  /** A rejected login, register or current-user check leaves the held user
      in place while dropping `isAuthenticated`: the flags can disagree with
      the held user. */
  lemma RejectionKeepsUser(s: AuthState, m: string)
    requires s.user.Some?
    ensures Reduce(s, LoginRejected(m)).user == s.user && !Reduce(s, LoginRejected(m)).isAuthenticated
    ensures Reduce(s, CurrentRejected).user == s.user && !Reduce(s, CurrentRejected).isAuthenticated
  {
  }

  /** Logging out twice is logging out once. */
  lemma LogoutIdempotent(s: AuthState)
    ensures Reduce(Reduce(s, Logout), Logout) == Reduce(s, Logout)
  {
  }

  // ---------------------------------------------------------------- thunks

  const LoginFailed: string := "Login failed"
  const RegistrationFailed: string := "Registration failed"

  /** The success body of login and register: the user record and token. */
  datatype SignedIn = SignedIn(user: Option<UserView>, token: string)

  /** `loginUser` settling: a failure reads the answer's `error` field. */
  function LoginSettled(response: Response<SignedIn>): (a: AuthAction)
    ensures response.Success? ==> a == LoginFulfilled(response.data.user, response.data.token)
    ensures response.Failure? ==> a == LoginRejected(TextOr(response.body.error, LoginFailed))
  {
    match response
    case Success(d) => LoginFulfilled(d.user, d.token)
    case Failure(body) => LoginRejected(TextOr(body.error, LoginFailed))
  }

  /** `registerUser` settling. */
  function RegisterSettled(response: Response<SignedIn>): (a: AuthAction)
    ensures response.Success? ==> a == RegisterFulfilled(response.data.user, response.data.token)
    ensures response.Failure? ==> a == RegisterRejected(TextOr(response.body.error, RegistrationFailed))
  {
    match response
    case Success(d) => RegisterFulfilled(d.user, d.token)
    case Failure(body) => RegisterRejected(TextOr(body.error, RegistrationFailed))
  }

  /** `getCurrentUser` settling: without a stored token it is rejected
      without a request. The rejection's text is dropped by the reducer. */
  function CurrentSettled(storedToken: Option<string>, response: Response<Option<UserView>>): (a: AuthAction)
    ensures !Truthy(storedToken) ==> a == CurrentRejected
    ensures Truthy(storedToken) ==> (a == CurrentRejected <==> response.Failure?)
    ensures Truthy(storedToken) && response.Success? ==> a == CurrentFulfilled(response.data)
  {
    if !Truthy(storedToken) then CurrentRejected
    else match response
      case Success(u) => CurrentFulfilled(u)
      case Failure(_) => CurrentRejected
  }

  /** The validators refuse with `error: 'Validation failed'` and put the
      per-field messages in a separate list: a login or register refused by
      validation shows that summary, never a field's message, and an answer
      whose text is only under `message` shows the thunk's own fallback. */
  lemma ValidationRefusalShowsSummary(fieldMessage: string)
    ensures LoginSettled(Failure(ErrorBody(None, Some(Validators.ValidationFailed))))
         == LoginRejected(Validators.ValidationFailed)
    ensures RegisterSettled(Failure(ErrorBody(None, Some(Validators.ValidationFailed))))
         == RegisterRejected(Validators.ValidationFailed)
    ensures LoginSettled(Failure(ErrorBody(Some(fieldMessage), None))) == LoginRejected(LoginFailed)
    ensures RegisterSettled(Failure(ErrorBody(Some(fieldMessage), None))) == RegisterRejected(RegistrationFailed)
  {
  }
}
