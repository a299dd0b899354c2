/** Shared vocabulary of the Lost & Found model: optional values, identifiers,
    timestamps and the HTTP statuses the server's handlers answer with. */
module Common {

  datatype Option<+T> = None | Some(value: T)

  /** A document identifier (a MongoDB `_id` rendered as a string). Route
      parameters and stored ids are never empty. */
  type Id = s: string | |s| > 0 witness "0"

  /** Milliseconds since the epoch, as `new Date()` yields them. */
  type Time = int

  /** The statuses the modelled handlers can answer with. */
  datatype Status = OK | Created | BadRequest | Unauthorized | Forbidden | NotFound
  {
    function Code(): (c: int)
      ensures 200 <= c < 500
      ensures Ok2xx() <==> c < 300
    {
      match this
      case OK => 200
      case Created => 201
      case BadRequest => 400
      case Unauthorized => 401
      case Forbidden => 403
      case NotFound => 404
    }

    predicate Ok2xx() {
      OK? || Created?
    }
  }

  /** A JSON answer: its status and the `message`/`error` text it carries
      (empty when the success body carries none). */
  datatype Reply = Reply(status: Status, message: string)

  /** JavaScript truthiness of an optional string: absent and `''` are falsy. */
  predicate Truthy(s: Option<string>) {
    s.Some? && |s.value| > 0
  }

  /** `a || b` for an optional string and a fallback id. */
  function OrElse(s: Option<string>, fallback: Id): (r: Id)
    ensures Truthy(s) ==> r == s.value
    ensures !Truthy(s) ==> r == fallback
  {
    if Truthy(s) then s.value else fallback
  }
}
