/** The request guards of `server/middleware/auth.js`: `auth` reads the
    bearer header, verifies the token and loads the caller from the users
    collection; `isAdmin` and `isStudent` gate on the loaded caller's role. */
module AuthMiddleware {

  import opened Common
  import opened Strings
  import opened UserModel
  import opened Tokens

  const BearerPrefix: string := "Bearer "

  const NoTokenMessage: string := "Please authenticate. No token provided."
  const BadFormatMessage: string := "Please authenticate. Invalid token format."
  const UnknownUserMessage: string := "Please authenticate. User not found."
  const InvalidTokenMessage: string := "Please authenticate. Invalid token."
  const ExpiredTokenMessage: string := "Please authenticate. Token expired."
  const GenericAuthMessage: string := "Please authenticate."

  /** What the token library makes of a presented token: the claims it
      carries when the signature checks out, a `JsonWebTokenError` when the
      token is malformed or forged, or some other failure. Signature checking
      is the library's and is taken as given. */
  datatype Decoded = Genuine(claims: Claims) | Malformed | Broken

  /** The outcome of `auth`: either the request proceeds with the caller's
      stored record attached, or it is answered 401 with the text `message`
      (sent as the body's `error` field). */
  datatype Session = Authenticated(user: User, token: string) | Rejected(message: string)

  /** The token carried by a bearer header: the header with its first
      `"Bearer "` replaced by nothing. */
  function BearerToken(header: string): (t: string)
    requires StartsWith(header, BearerPrefix)
    ensures t == header[|BearerPrefix|..]
    ensures |t| == |header| - 7
  {
    ReplaceLeadingPrefix(header, BearerPrefix);
    ReplaceFirst(header, BearerPrefix, "")
  }

  /** The `auth` middleware. */
  function Authenticate(header: Option<string>, decode: string -> Decoded, now: Time, users: seq<User>): (s: Session)
    ensures (header.None? || !StartsWith(header.value, BearerPrefix)) ==> s == Rejected(NoTokenMessage)
    ensures header.Some? && header.value == BearerPrefix ==> s == Rejected(BadFormatMessage)
    ensures s.Authenticated? <==>
      && header.Some? && StartsWith(header.value, BearerPrefix) && |header.value| > 7
      && decode(header.value[7..]).Genuine?
      && !ExpiredAt(decode(header.value[7..]).claims, now)
      && IdInUse(users, decode(header.value[7..]).claims.userId)
    // once a token is present, each failure has its own text
    ensures header.Some? && StartsWith(header.value, BearerPrefix) && |header.value| > 7 ==>
      var d := decode(header.value[7..]);
      && (d.Malformed? ==> s == Rejected(InvalidTokenMessage))
      && (d.Broken? ==> s == Rejected(GenericAuthMessage))
      && (d.Genuine? && ExpiredAt(d.claims, now) ==> s == Rejected(ExpiredTokenMessage))
      && (d.Genuine? && !ExpiredAt(d.claims, now) && !IdInUse(users, d.claims.userId) ==>
            s == Rejected(UnknownUserMessage))
    ensures s.Rejected? ==> s.message in {NoTokenMessage, BadFormatMessage, InvalidTokenMessage,
                                          ExpiredTokenMessage, GenericAuthMessage, UnknownUserMessage}
    ensures s.Authenticated? ==>
      && s.token == header.value[7..]
      && s.user.id == decode(s.token).claims.userId
      && s.user in users
      && s.user == users[IndexOfId(users, s.user.id).value]
  {
    if header.None? || |header.value| == 0 || !StartsWith(header.value, BearerPrefix) then
      Rejected(NoTokenMessage)
    else
      var token := BearerToken(header.value);
      if token == "" then Rejected(BadFormatMessage)
      else match decode(token)
        case Malformed => Rejected(InvalidTokenMessage)
        case Broken => Rejected(GenericAuthMessage)
        case Genuine(claims) =>
          if ExpiredAt(claims, now) then Rejected(ExpiredTokenMessage)
          else match IndexOfId(users, claims.userId)
            case None => Rejected(UnknownUserMessage)
            case Some(i) => Authenticated(users[i], token)
  }

  /** The caller `auth` attaches is the stored record, not anything the
      token says: when an account's role changes in the store, a token issued
      before the change authenticates with the new role. */
  lemma RoleChangeTakesEffect(header: Option<string>, decode: string -> Decoded, now: Time,
                              users: seq<User>, i: nat, role: Role)
    requires IdsUnique(users) && i < |users|
    requires Authenticate(header, decode, now, users).Authenticated?
    requires Authenticate(header, decode, now, users).user.id == users[i].id
    ensures Authenticate(header, decode, now, users[i := users[i].(role := role)]).Authenticated?
    ensures Authenticate(header, decode, now, users[i := users[i].(role := role)]).user == users[i].(role := role)
  {
    var changed := users[i := users[i].(role := role)];
    var s := Authenticate(header, decode, now, users);
    assert changed[i].id == users[i].id;
    assert IdInUse(changed, s.user.id);
    var k := IndexOfId(changed, s.user.id).value;
    assert users[k].id == changed[k].id;
  }

  /** Answer of a role guard: proceed to the handler, or stop with a status. */
  datatype Gate = Proceed | Deny(status: Status, message: string)

  /** `isAdmin`: 401 without a caller, 403 for a caller who is not an admin. */
  function RequireAdmin(user: Option<User>): (g: Gate)
    ensures user.None? ==> g == Deny(Unauthorized, "Please authenticate first.")
    ensures user.Some? && user.value.role != Admin ==> g == Deny(Forbidden, "Access denied. Admin only.")
    ensures g.Proceed? <==> user.Some? && user.value.role == Admin
  {
    match user
    case None => Deny(Unauthorized, "Please authenticate first.")
    case Some(u) => if u.role != Admin then Deny(Forbidden, "Access denied. Admin only.") else Proceed
  }

  /** `isStudent`: 401 without a caller, 403 for a caller who is not a student. */
  function RequireStudent(user: Option<User>): (g: Gate)
    ensures user.None? ==> g == Deny(Unauthorized, "Please authenticate first.")
    ensures user.Some? && user.value.role != Student ==> g == Deny(Forbidden, "Access denied. Student only.")
    ensures g.Proceed? <==> user.Some? && user.value.role == Student
  {
    match user
    case None => Deny(Unauthorized, "Please authenticate first.")
    case Some(u) => if u.role != Student then Deny(Forbidden, "Access denied. Student only.") else Proceed
  }

  /** No caller passes both guards, and every caller passes one of them. */
  lemma GuardsPartitionCallers(u: User)
    ensures RequireAdmin(Some(u)).Proceed? != RequireStudent(Some(u)).Proceed?
  {
  }
}
