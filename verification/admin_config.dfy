/** The admin credential list of `client/src/config/adminConfig.js` and its
    two helpers. Emails compare after lowercasing both sides; passwords
    compare exactly. */
module AdminConfig {

  import opened Common
  import opened Strings

  datatype Credential = Credential(email: string, password: string)

  const AdminCredentials: seq<Credential> := [Credential("admin@gmail.com", "admin123")]

  predicate SameEmail(a: string, b: string) {
    ToLower(a) == ToLower(b)
  }

  /** The first listed credential whose email matches, as `find` meets it. */
  function FindAdmin(list: seq<Credential>, email: string): (r: Option<nat>)
    ensures r.None? <==> forall k :: 0 <= k < |list| ==> !SameEmail(list[k].email, email)
    ensures r.Some? ==>
      && r.value < |list| && SameEmail(list[r.value].email, email)
      && forall k :: 0 <= k < r.value ==> !SameEmail(list[k].email, email)
  {
    if list == [] then None
    else if SameEmail(list[0].email, email) then Some(0)
    else match FindAdmin(list[1..], email)
      case None => None
      case Some(i) => Some(i + 1)
  }

  /** `isAdminEmail`: some listed email matches. */
  function IsAdminEmail(email: string): (b: bool)
    ensures b <==> exists k :: 0 <= k < |AdminCredentials| && SameEmail(AdminCredentials[k].email, email)
  {
    FindAdmin(AdminCredentials, email).Some?
  }

  /** `verifyAdminPassword`: the first matching credential's password equals
      the given one exactly; no matching credential is falsy. */
  function VerifyAdminPassword(email: string, password: string): (b: bool)
    ensures b ==> IsAdminEmail(email)
    ensures !IsAdminEmail(email) ==> !b
    ensures b <==> exists k :: 0 <= k < |AdminCredentials| && SameEmail(AdminCredentials[k].email, email)
                              && AdminCredentials[k].password == password
  {
    match FindAdmin(AdminCredentials, email)
    case None => false
    case Some(i) => AdminCredentials[i].password == password
  }

  /** With the one listed credential, the check is "the email lowercases to
      the admin address and the password is the admin password". */
  lemma VerifyIsTheAdminPair(email: string, password: string)
    ensures VerifyAdminPassword(email, password) <==>
      ToLower(email) == ToLower("admin@gmail.com") && password == "admin123"
  {
  }
}
