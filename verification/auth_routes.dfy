/** The account routes of `server/routes/auth.js` as transitions on the
    users collection: one-time admin creation, registration, login with the
    built-in admin credentials, the current-user and user-list reads, and user
    deletion. Fresh document ids come from the store and are parameters;
    password hashing and comparison belong to the user schema, which is not
    part of this model, and comparison is taken as a parameter. */
module AuthRoutes {

  import opened Common
  import opened Strings
  import opened Sorting
  import opened UserModel
  import opened Tokens
  import opened AuthMiddleware
  import opened Validators

  /** The built-in admin credentials. */
  const AdminEmail: string := "admin@gmail.com"
  const AdminPassword: string := "admin123"

  const AdminExistsMessage: string := "Admin already exists"
  const UserExistsMessage: string := "User already exists"
  const InvalidCredentials: string := "Invalid credentials"
  const AdminOnlyMessage: string := "Access denied. Admin only."

  /** What an account route answers and what the users collection holds
      afterwards; `token` is the claim set signed into the returned token and
      `user` the `{ id, name, email, role }` object of the body. */
  datatype AccountAnswer = AccountAnswer(
    reply: Reply, users: seq<User>, token: Option<Claims>, user: Option<UserView>)

  function Refuse(status: Status, message: string, users: seq<User>): (a: AccountAnswer)
    ensures a.users == users && a.token.None? && a.user.None? && a.reply == Reply(status, message)
  {
    AccountAnswer(Reply(status, message), users, None, None)
  }

  /** Appending an account whose email and id are unused keeps both unique. */
  lemma AppendKeepsUnique(users: seq<User>, u: User)
    requires !EmailInUse(users, u.email) && !IdInUse(users, u.id)
    ensures EmailsUnique(users) && IdsUnique(users) ==> EmailsUnique(users + [u]) && IdsUnique(users + [u])
  {
  }

  // ------------------------------------------------------------ create-admin

  /** `POST /create-admin`: creates the built-in admin account unless an
      account with the admin email already exists. */
  function CreateAdmin(users: seq<User>, newId: Id, now: Time): (a: AccountAnswer)
    requires !IdInUse(users, newId)
    ensures EmailInUse(users, AdminEmail) ==> a == Refuse(BadRequest, AdminExistsMessage, users)
    ensures !EmailInUse(users, AdminEmail) ==>
      && a.reply == Reply(Created, "Admin created successfully")
      && a.users == users + [User(newId, "Admin", AdminEmail, AdminPassword, Admin, now)]
    ensures EmailInUse(a.users, AdminEmail)
    ensures EmailsUnique(users) && IdsUnique(users) ==> EmailsUnique(a.users) && IdsUnique(a.users)
  {
    if EmailInUse(users, AdminEmail) then Refuse(BadRequest, AdminExistsMessage, users)
    else
      var admin := User(newId, "Admin", AdminEmail, AdminPassword, Admin, now);
      assert (users + [admin])[|users|] == admin;
      AccountAnswer(Reply(Created, "Admin created successfully"), users + [admin], None, None)
  }

  /** The admin account can be created once: a second request, whenever it
      comes, is refused with 400 and changes nothing. */
  lemma CreateAdminOnce(users: seq<User>, id1: Id, t1: Time, id2: Id, t2: Time)
    requires !IdInUse(users, id1)
    requires !IdInUse(CreateAdmin(users, id1, t1).users, id2)
    ensures var second := CreateAdmin(CreateAdmin(users, id1, t1).users, id2, t2);
      second.reply == Reply(BadRequest, AdminExistsMessage)
      && second.users == CreateAdmin(users, id1, t1).users
  {
  }

  // ---------------------------------------------------------------- register

  /** The `register` handler, on a body the validators accepted: a taken
      email is refused; otherwise a student account is stored and a token
      valid for one day is issued. */
  function Register(input: RegisterInput, users: seq<User>, newId: Id, now: Time): (a: AccountAnswer)
    requires !IdInUse(users, newId)
    ensures EmailInUse(users, input.email) ==> a == Refuse(BadRequest, UserExistsMessage, users)
    ensures !EmailInUse(users, input.email) ==>
      && a.reply.status == Created
      && a.users == users + [User(newId, input.name, input.email, input.password, Student, now)]
      && a.token == Some(Sign(newId, now, Some(OneDay)))
      && a.user == Some(UserView(newId, input.name, input.email, Student))
    ensures a.user.Some? ==> a.user.value.role == Student
    ensures EmailsUnique(users) && IdsUnique(users) ==> EmailsUnique(a.users) && IdsUnique(a.users)
  {
    if EmailInUse(users, input.email) then Refuse(BadRequest, UserExistsMessage, users)
    else
      var u := User(newId, input.name, input.email, input.password, Student, now);
      AppendKeepsUnique(users, u);
      AccountAnswer(Reply(Created, ""), users + [u], Some(Sign(newId, now, Some(OneDay))), Some(View(u)))
  }

  /** `POST /register`: the validators, then the handler. */
  function RegisterEndpoint(lib: Library, body: RegisterBody, users: seq<User>, newId: Id, now: Time): (a: AccountAnswer)
    requires !IdInUse(users, newId)
    ensures !(NameAccepted(body.name) && EmailAccepted(lib, body.email) && PasswordAccepted(body.password)) ==>
      a == Refuse(BadRequest, ValidationFailed, users)
    ensures NameAccepted(body.name) && EmailAccepted(lib, body.email) && PasswordAccepted(body.password) ==>
      a == Register(RegisterInput(Trim(Given(body.name)), SanitizedEmail(lib, body.email), Given(body.password)),
                    users, newId, now)
  {
    var checked := ValidateRegister(lib, body);
    if checked.Rejected? then Refuse(BadRequest, ValidationFailed, users)
    else Register(checked.value, users, newId, now)
  }

  /** Registering the same email twice: the first request stores a student,
      the second is refused and stores nothing. */
  lemma RegisterTwice(a: RegisterInput, b: RegisterInput, users: seq<User>, id1: Id, id2: Id, t1: Time, t2: Time)
    requires !EmailInUse(users, a.email) && a.email == b.email
    requires !IdInUse(users, id1) && !IdInUse(Register(a, users, id1, t1).users, id2)
    ensures Register(a, users, id1, t1).reply.status == Created
    ensures var second := Register(b, Register(a, users, id1, t1).users, id2, t2);
      second.reply == Reply(BadRequest, UserExistsMessage) && second.users == Register(a, users, id1, t1).users
  {
    var first := Register(a, users, id1, t1);
    assert first.users[|users|].email == a.email;
  }

  // ------------------------------------------------------------------- login

  /** The built-in credentials match: the email equals the admin email
      ignoring case, the password equals the admin password exactly. */
  predicate IsAdminLogin(input: LoginInput) {
    ToLower(input.email) == AdminEmail && input.password == AdminPassword
  }

  /** The `login` handler, on a body the validators accepted.
      `passwordMatches(stored, candidate)` is the schema's password check. */
  function Login(input: LoginInput, users: seq<User>, newId: Id, now: Time,
                 passwordMatches: (string, string) -> bool): (a: AccountAnswer)
    requires !IdInUse(users, newId)
    // the admin bypass
    ensures IsAdminLogin(input) ==>
      && a.reply.status == OK
      && a.token.Some? && a.token.value.expiresAt.None?
      && a.user.Some? && a.user.value.role == Admin && a.user.value.email == AdminEmail
    ensures IsAdminLogin(input) && EmailInUse(users, AdminEmail) ==> a.users == users
    ensures IsAdminLogin(input) && !EmailInUse(users, AdminEmail) ==>
      a.users == users + [User(newId, "Admin", AdminEmail, input.password, Admin, now)]
    // the bypass token names the stored admin-email account, or the new one
    ensures IsAdminLogin(input) ==>
      var adminId := if EmailInUse(users, AdminEmail) then users[IndexOfEmail(users, AdminEmail).value].id else newId;
      && a.token.value.userId == adminId && a.user.value.id == adminId
    // the regular path
    ensures !IsAdminLogin(input) ==> a.users == users
    ensures !IsAdminLogin(input) && !EmailInUse(users, input.email) ==> a == Refuse(BadRequest, InvalidCredentials, users)
    ensures !IsAdminLogin(input) && a.reply.status == OK ==>
      && var u := users[IndexOfEmail(users, input.email).value];
      && passwordMatches(u.password, input.password)
      && a.token == Some(Sign(u.id, now, Some(OneDay)))
      && a.user == Some(View(u))
    ensures !IsAdminLogin(input) && EmailInUse(users, input.email) ==>
      var u := users[IndexOfEmail(users, input.email).value];
      if passwordMatches(u.password, input.password) then
        && a.reply.status == OK
        && a.token == Some(Sign(u.id, now, Some(OneDay)))
        && a.user == Some(View(u))
      else a == Refuse(BadRequest, InvalidCredentials, users)
    ensures !IsAdminLogin(input) ==> a.reply.status in {OK, BadRequest}
    ensures EmailsUnique(users) && IdsUnique(users) ==> EmailsUnique(a.users) && IdsUnique(a.users)
  {
    if IsAdminLogin(input) then
      var email := ToLower(input.email);
      match IndexOfEmail(users, email)
      case Some(i) =>
        var u := users[i];
        AccountAnswer(Reply(OK, ""), users, Some(Sign(u.id, now, None)),
                      Some(UserView(u.id, u.name, u.email, Admin)))
      case None =>
        var u := User(newId, "Admin", email, input.password, Admin, now);
        AppendKeepsUnique(users, u);
        AccountAnswer(Reply(OK, ""), users + [u], Some(Sign(u.id, now, None)),
                      Some(UserView(u.id, u.name, u.email, Admin)))
    else
      match IndexOfEmail(users, input.email)
      case None => Refuse(BadRequest, InvalidCredentials, users)
      case Some(i) =>
        var u := users[i];
        if !passwordMatches(u.password, input.password) then Refuse(BadRequest, InvalidCredentials, users)
        else AccountAnswer(Reply(OK, ""), users, Some(Sign(u.id, now, Some(OneDay))), Some(View(u)))
  }

  /** `POST /login`: the validators, then the handler. */
  function LoginEndpoint(lib: Library, body: LoginBody, users: seq<User>, newId: Id, now: Time,
                         passwordMatches: (string, string) -> bool): (a: AccountAnswer)
    requires !IdInUse(users, newId)
    ensures !(EmailAccepted(lib, body.email) && |Given(body.password)| > 0) ==>
      a == Refuse(BadRequest, ValidationFailed, users)
    ensures EmailAccepted(lib, body.email) && |Given(body.password)| > 0 ==>
      a == Login(LoginInput(SanitizedEmail(lib, body.email), Given(body.password)), users, newId, now, passwordMatches)
  {
    var checked := ValidateLogin(lib, body);
    if checked.Rejected? then Refuse(BadRequest, ValidationFailed, users)
    else Login(checked.value, users, newId, now, passwordMatches)
  }

  /** The bypass takes any capitalisation of the admin email, but only the
      exact admin password. */
  lemma AdminBypassCondition(email: string, password: string)
    ensures IsAdminLogin(LoginInput(email, password)) <==>
      (|email| == |AdminEmail| && (forall k :: 0 <= k < |email| ==> LowerChar(email[k]) == AdminEmail[k])
       && password == AdminPassword)
  {
    var lower := ToLower(email);
    if |email| == |AdminEmail| && (forall k :: 0 <= k < |email| ==> LowerChar(email[k]) == AdminEmail[k]) {
      assert lower == AdminEmail;
    }
  }

  /** The bypass answers with role `admin` even when the account it finds
      under the admin email is a student's, and it leaves that account as it
      is: the token it issues then authenticates a student. */
  lemma BypassRoleIsOnlyInTheAnswer(input: LoginInput, users: seq<User>, newId: Id, now: Time,
                                    passwordMatches: (string, string) -> bool, i: nat)
    requires !IdInUse(users, newId) && IsAdminLogin(input)
    requires i < |users| && users[i].email == AdminEmail && users[i].role == Student
    requires EmailsUnique(users) && IdsUnique(users)
    ensures var a := Login(input, users, newId, now, passwordMatches);
      && a.user.value.role == Admin && a.users == users && a.token.value.userId == users[i].id
      && a.users[IndexOfId(a.users, a.token.value.userId).value].role == Student
  {
    assert EmailInUse(users, AdminEmail);
    var j := IndexOfEmail(users, AdminEmail).value;
    assert j == i;
  }

  /** A wrong password and an unknown email get the same answer. */
  lemma RegularLoginFailuresAlike(input: LoginInput, users: seq<User>, newId: Id, now: Time,
                                  passwordMatches: (string, string) -> bool)
    requires !IdInUse(users, newId) && !IsAdminLogin(input)
    requires EmailInUse(users, input.email) ==>
      !passwordMatches(users[IndexOfEmail(users, input.email).value].password, input.password)
    ensures Login(input, users, newId, now, passwordMatches) == Refuse(BadRequest, InvalidCredentials, users)
  {
  }

  /** Admin-bypass tokens never expire; tokens from registration and regular
      login lapse after one day. */
  lemma TokenLifetimes(input: LoginInput, reg: RegisterInput, users: seq<User>, newId: Id, now: Time, later: Time,
                       passwordMatches: (string, string) -> bool)
    requires !IdInUse(users, newId)
    ensures IsAdminLogin(input) ==> !ExpiredAt(Login(input, users, newId, now, passwordMatches).token.value, later)
    ensures var a := Login(input, users, newId, now, passwordMatches);
      !IsAdminLogin(input) && a.token.Some? ==>
        (ExpiredAt(a.token.value, later) <==> Seconds(later) >= Seconds(now) + OneDay)
    ensures var r := Register(reg, users, newId, now);
      r.token.Some? ==> (ExpiredAt(r.token.value, later) <==> Seconds(later) >= Seconds(now) + OneDay)
  {
  }

  // --------------------------------------------------------------------- me

  /** `GET /me`: the caller's stored account, as `auth` loaded it. */
  function Me(session: Session): (r: (Reply, Option<UserView>))
    ensures session.Rejected? ==> r == (Reply(Unauthorized, session.message), None)
    ensures session.Authenticated? ==> r.0.status == OK && r.1 == Some(View(session.user))
  {
    match session
    case Rejected(m) => (Reply(Unauthorized, m), None)
    case Authenticated(u, _) => (Reply(OK, ""), Some(View(u)))
  }

  // ------------------------------------------------------------------ users

  /** One entry of the user list: the account without its password, with
      `lastLogin` standing in as the creation time and `active` always true. */
  datatype UserRow = UserRow(id: Id, name: string, email: string, role: Role,
                             createdAt: Time, lastLogin: Time, active: bool)

  function Row(u: User): (r: UserRow)
    ensures r.id == u.id && r.name == u.name && r.email == u.email && r.role == u.role
    ensures r.createdAt == u.createdAt && r.lastLogin == u.createdAt && r.active
  {
    UserRow(u.id, u.name, u.email, u.role, u.createdAt, u.createdAt, true)
  }

  function Rows(users: seq<User>): (rs: seq<UserRow>)
    ensures |rs| == |users| && forall k :: 0 <= k < |users| ==> rs[k] == Row(users[k])
  {
    if users == [] then [] else [Row(users[0])] + Rows(users[1..])
  }

  function RowCreated(r: UserRow): int { r.createdAt }

  /** `GET /users`: for admins only, every account, newest first. */
  function ListUsers(session: Session, users: seq<User>): (r: (Reply, seq<UserRow>))
    ensures session.Rejected? ==> r == (Reply(Unauthorized, session.message), [])
    ensures session.Authenticated? && session.user.role != Admin ==> r == (Reply(Forbidden, AdminOnlyMessage), [])
    ensures session.Authenticated? && session.user.role == Admin ==>
      && r.0.status == OK
      && SortedDesc(r.1, RowCreated)
      && multiset(r.1) == multiset(Rows(users))
  {
    match session
    case Rejected(m) => (Reply(Unauthorized, m), [])
    case Authenticated(caller, _) =>
      if caller.role != Admin then (Reply(Forbidden, AdminOnlyMessage), [])
      else (Reply(OK, ""), SortDesc(Rows(users), RowCreated))
  }

  // ------------------------------------------------------------ delete user

  /** `DELETE /users/:id`. The checks run in this order: the caller must be
      an admin (403), may not name themself (400), and the account must exist
      (404); then exactly the first account with that id is removed. */
  function DeleteUser(session: Session, target: Id, users: seq<User>): (a: (Reply, seq<User>))
    ensures session.Rejected? ==> a == (Reply(Unauthorized, session.message), users)
    ensures session.Authenticated? && session.user.role != Admin ==> a == (Reply(Forbidden, AdminOnlyMessage), users)
    ensures session.Authenticated? && session.user.role == Admin && target == session.user.id ==>
      a == (Reply(BadRequest, "Cannot delete your own account"), users)
    ensures (session.Authenticated? && session.user.role == Admin && target != session.user.id
             && !IdInUse(users, target)) ==> a == (Reply(NotFound, "User not found"), users)
    ensures a.0.status == OK ==>
      && IdInUse(users, target)
      && var i := IndexOfId(users, target).value;
      && a.1 == users[..i] + users[i + 1..]
    ensures a.0.status == OK <==>
      session.Authenticated? && session.user.role == Admin && target != session.user.id && IdInUse(users, target)
  {
    match session
    case Rejected(m) => (Reply(Unauthorized, m), users)
    case Authenticated(caller, _) =>
      if caller.role != Admin then (Reply(Forbidden, AdminOnlyMessage), users)
      else if target == caller.id then (Reply(BadRequest, "Cannot delete your own account"), users)
      else match IndexOfId(users, target)
        case None => (Reply(NotFound, "User not found"), users)
        case Some(i) => (Reply(OK, "User deleted successfully"), users[..i] + users[i + 1..])
  }

  /** The positions of `users` without position `i`. */
  lemma RemoveAtIndexing(users: seq<User>, i: nat)
    requires i < |users|
    ensures var rest := users[..i] + users[i + 1..];
      |rest| == |users| - 1 && forall k :: 0 <= k < |rest| ==> rest[k] == users[if k < i then k else k + 1]
  {
  }

  /** Removing position `i` from a collection with unique ids drops exactly
      the account with that position's id. */
  lemma {:induction false} RemoveAtMembers(users: seq<User>, i: nat)
    requires IdsUnique(users) && i < |users|
    ensures forall u :: u in users[..i] + users[i + 1..] <==> u in users && u.id != users[i].id
  {
    var rest := users[..i] + users[i + 1..];
    RemoveAtIndexing(users, i);
    forall u | u in users && u.id != users[i].id ensures u in rest {
      var k :| 0 <= k < |users| && users[k] == u;
      if k < i { assert rest[k] == u; } else { assert rest[k - 1] == u; }
    }
    forall u | u in rest ensures u in users && u.id != users[i].id {
      var k :| 0 <= k < |rest| && rest[k] == u;
      var k' := if k < i then k else k + 1;
      assert u == users[k'] && k' != i;
    }
  }

  /** Removing a position keeps ids and emails unique. */
  lemma {:induction false} RemoveAtUnique(users: seq<User>, i: nat)
    requires IdsUnique(users) && EmailsUnique(users) && i < |users|
    ensures IdsUnique(users[..i] + users[i + 1..]) && EmailsUnique(users[..i] + users[i + 1..])
  {
    var rest := users[..i] + users[i + 1..];
    RemoveAtIndexing(users, i);
    forall a, b | 0 <= a < b < |rest| ensures rest[a].id != rest[b].id && rest[a].email != rest[b].email {
      var a' := if a < i then a else a + 1;
      var b' := if b < i then b else b + 1;
      assert a' < b' && rest[a] == users[a'] && rest[b] == users[b'];
    }
  }

  /** With unique ids, a successful deletion removes the named account and
      keeps every other one, and the collection stays free of duplicates. */
  lemma DeleteUserRemovesExactly(session: Session, target: Id, users: seq<User>)
    requires IdsUnique(users) && EmailsUnique(users)
    requires DeleteUser(session, target, users).0.status == OK
    ensures var rest := DeleteUser(session, target, users).1;
      && |rest| == |users| - 1
      && (forall u :: u in rest <==> u in users && u.id != target)
      && IdsUnique(rest) && EmailsUnique(rest)
  {
    var i := IndexOfId(users, target).value;
    RemoveAtIndexing(users, i);
    RemoveAtMembers(users, i);
    RemoveAtUnique(users, i);
  }
}
