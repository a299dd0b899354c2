/** The user account record and the two lookups the server performs on the
    users collection. The user schema itself is not part of this model; its
    fields are the ones the routes read and write. */
module UserModel {

  import opened Common

  datatype Role = Student | Admin
  {
    function Name(): (s: string)
      ensures s == "student" || s == "admin"
    {
      match this
      case Student => "student"
      case Admin => "admin"
    }
  }

  /** A stored account. `password` is the secret as handed to the store;
      hashing it is the schema's business and is not modelled. */
  datatype User = User(id: Id, name: string, email: string, password: string, role: Role, createdAt: Time)

  /** The public projection `{ id, name, email, role }` the routes answer with. */
  datatype UserView = UserView(id: Id, name: string, email: string, role: Role)

  function View(u: User): (v: UserView)
    ensures v.id == u.id && v.name == u.name && v.email == u.email && v.role == u.role
  {
    UserView(u.id, u.name, u.email, u.role)
  }

  /** `findOne({ email })`: the first account, in store order, whose email is
      exactly `email`. */
  function IndexOfEmail(users: seq<User>, email: string): (r: Option<nat>)
    ensures r.Some? ==> r.value < |users| && users[r.value].email == email
    ensures r.Some? ==> forall j :: 0 <= j < r.value ==> users[j].email != email
    ensures r.None? <==> forall j :: 0 <= j < |users| ==> users[j].email != email
  {
    if users == [] then None
    else if users[0].email == email then Some(0)
    else match IndexOfEmail(users[1..], email)
      case None => None
      case Some(i) => Some(i + 1)
  }

  /** `findOne({ _id })` / `findById`: the first account, in store order,
      with that id. */
  function IndexOfId(users: seq<User>, id: string): (r: Option<nat>)
    ensures r.Some? ==> r.value < |users| && users[r.value].id == id
    ensures r.Some? ==> forall j :: 0 <= j < r.value ==> users[j].id != id
    ensures r.None? <==> forall j :: 0 <= j < |users| ==> users[j].id != id
  {
    if users == [] then None
    else if users[0].id == id then Some(0)
    else match IndexOfId(users[1..], id)
      case None => None
      case Some(i) => Some(i + 1)
  }

  predicate EmailInUse(users: seq<User>, email: string) {
    exists j :: 0 <= j < |users| && users[j].email == email
  }

  predicate IdInUse(users: seq<User>, id: string) {
    exists j :: 0 <= j < |users| && users[j].id == id
  }

  /** No two accounts share an email address. */
  predicate EmailsUnique(users: seq<User>) {
    forall i, j :: 0 <= i < j < |users| ==> users[i].email != users[j].email
  }

  /** No two accounts share an id. */
  predicate IdsUnique(users: seq<User>) {
    forall i, j :: 0 <= i < j < |users| ==> users[i].id != users[j].id
  }
}
