/** The report routes of `server/routes/lostFound.js` as transitions on the
    item collection, a map from document id to report. Each protected route
    first runs `auth` (its outcome is the `session` parameter), and the
    create route then runs the item validators. The save time `now` and the
    fresh id of a new document come from the store and are parameters. */
module ItemRoutes {

  import opened Common
  import opened Sorting
  import opened ItemModel
  import opened UserModel
  import opened AuthMiddleware
  import opened Validators

  type Store = map<Id, Item>

  const ItemNotFound: string := "Item not found"
  const AdminOnlyMessage: string := "Access denied. Admin only."
  const NotAllowedToClaim: string := "Not authorized to mark this item as claimed"

  /** Every document is filed under its own id. */
  predicate KeysMatch(store: Store) {
    forall k :: k in store ==> store[k].id == k
  }

  /** What the routes keep true of every stored report: it is filed under
      its id, has its required fields, and its claim pair agrees. */
  predicate StoreValid(store: Store) {
    forall k :: k in store ==> store[k].id == k && HasRequiredFields(store[k]) && ClaimConsistent(store[k])
  }

  /** A route's answer, the collection afterwards, and the document the
      answer carries (the created or updated report), if any. */
  datatype ItemAnswer = ItemAnswer(reply: Reply, store: Store, item: Option<Item>)

  function Refuse(status: Status, message: string, store: Store): (a: ItemAnswer)
    ensures a.store == store && a.item.None? && a.reply == Reply(status, message)
  {
    ItemAnswer(Reply(status, message), store, None)
  }

  // -------------------------------------------------------------------- list

  function CreatedAt(item: Item): int { item.createdAt }

  /** `s` holds each report filed under an id of `done` exactly once, and
      nothing else. */
  ghost predicate ExactlyOnce(s: seq<Item>, store: Store, done: set<Id>) {
    forall x :: multiset(s)[x] == (if x.id in done && x.id in store && store[x.id] == x then 1 else 0)
  }

  lemma CollectStep(collected: seq<Item>, store: Store, done: set<Id>, k: Id)
    requires KeysMatch(store) && k in store && k !in done && ExactlyOnce(collected, store, done)
    ensures ExactlyOnce(collected + [store[k]], store, done + {k})
  {
    var v := store[k];
    forall x ensures multiset(collected + [v])[x] ==
      (if x.id in done + {k} && x.id in store && store[x.id] == x then 1 else 0)
    {
      assert multiset(collected + [v])[x] == multiset(collected)[x] + (if x == v then 1 else 0);
    }
  }

  /** The reports of the collection, in no particular order. */
  method Collect(store: Store) returns (collected: seq<Item>)
    requires KeysMatch(store)
    ensures |collected| == |store|
    ensures ExactlyOnce(collected, store, store.Keys)
  {
    collected := [];
    var done: set<Id> := {};
    while done != store.Keys
      invariant done <= store.Keys
      invariant |collected| == |done|
      invariant ExactlyOnce(collected, store, done)
      decreases store.Keys - done
    {
      var k :| k in store.Keys && k !in done;
      CollectStep(collected, store, done, k);
      collected := collected + [store[k]];
      done := done + {k};
    }
    assert |store.Keys| == |store|;
  }

  /** `GET /`: every stored report exactly once, newest first. */
  method ListItems(store: Store) returns (items: seq<Item>)
    requires KeysMatch(store)
    ensures SortedDesc(items, CreatedAt)
    ensures |items| == |store|
    ensures ExactlyOnce(items, store, store.Keys)
    ensures forall x :: x in items <==> x in store.Values
  {
    var collected := Collect(store);
    items := SortDesc(collected, CreatedAt);
    assert |items| == |multiset(items)| == |multiset(collected)| == |collected|;
    forall x ensures x in items <==> x in store.Values {
      assert x in items <==> multiset(items)[x] > 0;
    }
  }

  // ------------------------------------------------------------------ create

  /** The create handler, on a body the validators accepted: a new unclaimed
      report filed under `newId`. The reporter is the body's `reportedBy` when
      it is given and the caller otherwise. */
  function Create(caller: User, input: ItemInput, newId: Id, now: Time, store: Store): (a: ItemAnswer)
    requires newId !in store
    ensures a.reply.status == Created && a.item.Some?
    ensures a.store == store[newId := a.item.value]
    ensures var item := a.item.value;
      && item.id == newId && item.createdAt == now
      && item.title == input.title && item.description == input.description
      && item.itemType == input.itemType && item.location == input.location
      && item.date == input.date && item.contact == input.contact
      && !item.claimed && item.claimedAt.None?
      && item.imageUrl == (if Truthy(input.imageUrl) then input.imageUrl.value else "")
      && item.reportedBy == OrElse(input.reportedBy, caller.id)
  {
    var item := NewDocument(newId, input.title, input.description, input.itemType,
                            input.location, input.date, input.contact,
                            Some(if Truthy(input.imageUrl) then input.imageUrl.value else ""),
                            OrElse(input.reportedBy, caller.id), Some(false), now);
    ItemAnswer(Reply(Created, ""), store[newId := item], Some(item))
  }

  /** `POST /`: `auth`, then the validators, then the handler. */
  function CreateItem(session: Session, lib: Library, body: ItemBody, newId: Id, now: Time, store: Store): (a: ItemAnswer)
    requires newId !in store
    ensures session.Rejected? ==> a == Refuse(Unauthorized, session.message, store)
    ensures session.Authenticated? && !ItemAccepted(lib, body) ==> a == Refuse(BadRequest, ValidationFailed, store)
    ensures session.Authenticated? && ItemAccepted(lib, body) ==>
      a == Create(session.user, SanitizeItem(body), newId, now, store)
  {
    match session
    case Rejected(m) => Refuse(Unauthorized, m, store)
    case Authenticated(caller, _) =>
      match ValidateItem(lib, body)
      case Rejected(_) => Refuse(BadRequest, ValidationFailed, store)
      case Accepted(input) => Create(caller, input, newId, now, store)
  }

  /** The required text fields of a handler input are present. */
  predicate InputComplete(input: ItemInput) {
    |input.title| > 0 && |input.description| > 0 && |input.location| > 0
    && |input.date| > 0 && |input.contact| > 0
  }

  /** Every body the validators accept yields a complete input. */
  lemma AcceptedInputComplete(lib: Library, body: ItemBody)
    requires ItemAccepted(lib, body)
    ensures InputComplete(SanitizeItem(body))
  {
  }

  /** Filing a complete input keeps the collection valid. */
  lemma CreateKeepsValid(caller: User, input: ItemInput, newId: Id, now: Time, store: Store)
    requires newId !in store && StoreValid(store) && InputComplete(input)
    ensures StoreValid(Create(caller, input, newId, now, store).store)
  {
    var a := Create(caller, input, newId, now, store);
    assert HasRequiredFields(a.item.value);
  }

  /** A report created through the route is stored trimmed, unclaimed, with
      its required fields present; the collection stays valid. */
  lemma CreateKeepsStoreValid(session: Session, lib: Library, body: ItemBody, newId: Id, now: Time, store: Store)
    requires newId !in store && StoreValid(store)
    ensures var a := CreateItem(session, lib, body, newId, now, store);
      StoreValid(a.store)
      && (a.reply.status == Created ==>
            && a.item.value.title == Strings.Trim(Given(body.title))
            && !a.item.value.claimed && a.item.value.claimedAt.None?
            && (body.imageUrl.None? ==> a.item.value.imageUrl == "")
            && (!Truthy(body.reportedBy) ==> a.item.value.reportedBy == session.user.id))
  {
    if session.Authenticated? && ItemAccepted(lib, body) {
      AcceptedInputComplete(lib, body);
      CreateKeepsValid(session.user, SanitizeItem(body), newId, now, store);
    }
  }

  /** The body's `reportedBy` is taken as sent: any signed-in caller can file
      a report under some other reporter id, existing or not. */
  lemma ReporterIsTakenFromBody(caller: User, input: ItemInput, newId: Id, now: Time, store: Store, other: Id)
    requires newId !in store && input.reportedBy == Some(other) && other != caller.id
    ensures Create(caller, input, newId, now, store).item.value.reportedBy == other
  {
  }

  // ------------------------------------------------------------ mark-claimed

  /** The mark-claimed permission: admins always; anyone else when the
      report's reporter equals the `userId` the body names, or the caller's
      own id when the body names none. */
  predicate MayMarkClaimed(caller: User, item: Item, bodyUserId: Option<string>) {
    caller.role == Admin || item.reportedBy == OrElse(bodyUserId, caller.id)
  }

  /** `POST /:id/mark-claimed`. Existence is checked before permission. */
  function MarkClaimed(session: Session, itemId: Id, bodyUserId: Option<string>, now: Time, store: Store): (a: ItemAnswer)
    ensures session.Rejected? ==> a == Refuse(Unauthorized, session.message, store)
    ensures session.Authenticated? && itemId !in store ==> a == Refuse(NotFound, ItemNotFound, store)
    ensures session.Authenticated? && itemId in store && !MayMarkClaimed(session.user, store[itemId], bodyUserId) ==>
      a == Refuse(Forbidden, NotAllowedToClaim, store)
    ensures a.reply.status == OK <==>
      session.Authenticated? && itemId in store && MayMarkClaimed(session.user, store[itemId], bodyUserId)
    ensures a.reply.status == OK ==>
      && a.store.Keys == store.Keys
      && a.item == Some(a.store[itemId])
      && a.store[itemId].claimed && a.store[itemId].claimedAt == Some(now)
      && a.store[itemId] == store[itemId].(claimed := true, claimedAt := Some(now))
      && forall k :: k in store && k != itemId ==> a.store[k] == store[k]
  {
    match session
    case Rejected(m) => Refuse(Unauthorized, m, store)
    case Authenticated(caller, _) =>
      if itemId !in store then Refuse(NotFound, ItemNotFound, store)
      else
        var userId := OrElse(bodyUserId, caller.id);
        var item := store[itemId];
        if !(caller.role == Admin || item.reportedBy == userId) then Refuse(Forbidden, NotAllowedToClaim, store)
        else
          var saved := item.(claimed := true, claimedAt := Some(now));
          ItemAnswer(Reply(OK, "Item marked as claimed successfully"), store[itemId := saved], Some(saved))
  }

  /** A missing report is 404 for every signed-in caller, admin or not,
      whatever the body says. */
  lemma MarkMissingIsNotFound(session: Session, itemId: Id, bodyUserId: Option<string>, now: Time, store: Store)
    requires session.Authenticated? && itemId !in store
    ensures MarkClaimed(session, itemId, bodyUserId, now, store).reply.status == NotFound
  {
  }

  /** Marking an already claimed report again succeeds and moves its claim
      time to the later request's time. */
  lemma MarkTwiceRefreshes(session: Session, itemId: Id, bodyUserId: Option<string>, t1: Time, t2: Time, store: Store)
    requires MarkClaimed(session, itemId, bodyUserId, t1, store).reply.status == OK
    ensures var once := MarkClaimed(session, itemId, bodyUserId, t1, store).store;
      var twice := MarkClaimed(session, itemId, bodyUserId, t2, once);
      twice.reply.status == OK && twice.store[itemId].claimed && twice.store[itemId].claimedAt == Some(t2)
  {
    var once := MarkClaimed(session, itemId, bodyUserId, t1, store).store;
    assert once[itemId].reportedBy == store[itemId].reportedBy;
  }

  /** The permission trusts the body: a student who is not the reporter is
      refused when the body names nobody, yet allowed as soon as the body
      names the reporter. */
  lemma BodyUserIdDecides(session: Session, itemId: Id, now: Time, store: Store)
    requires session.Authenticated? && session.user.role == Student
    requires itemId in store && store[itemId].reportedBy != session.user.id && |store[itemId].reportedBy| > 0
    ensures MarkClaimed(session, itemId, None, now, store).reply.status == Forbidden
    ensures MarkClaimed(session, itemId, Some(store[itemId].reportedBy), now, store).reply.status == OK
  {
  }

  // ---------------------------------------------------------- unmark-claimed

  /** `POST /:id/unmark-claimed`. The role is checked before the lookup. */
  function UnmarkClaimed(session: Session, itemId: Id, store: Store): (a: ItemAnswer)
    ensures session.Rejected? ==> a == Refuse(Unauthorized, session.message, store)
    ensures session.Authenticated? && session.user.role != Admin ==> a == Refuse(Forbidden, AdminOnlyMessage, store)
    ensures session.Authenticated? && session.user.role == Admin && itemId !in store ==>
      a == Refuse(NotFound, ItemNotFound, store)
    ensures a.reply.status == OK <==> session.Authenticated? && session.user.role == Admin && itemId in store
    ensures a.reply.status == OK ==>
      && a.store.Keys == store.Keys
      && !a.store[itemId].claimed && a.store[itemId].claimedAt.None?
      && a.store[itemId] == store[itemId].(claimed := false, claimedAt := None)
      && forall k :: k in store && k != itemId ==> a.store[k] == store[k]
  {
    match session
    case Rejected(m) => Refuse(Unauthorized, m, store)
    case Authenticated(caller, _) =>
      if caller.role != Admin then Refuse(Forbidden, AdminOnlyMessage, store)
      else if itemId !in store then Refuse(NotFound, ItemNotFound, store)
      else
        var saved := store[itemId].(claimed := false, claimedAt := None);
        ItemAnswer(Reply(OK, "Item unmarked as claimed successfully"), store[itemId := saved], Some(saved))
  }

  /** Unmarking twice leaves the collection as unmarking once. */
  lemma UnmarkIdempotent(session: Session, itemId: Id, store: Store)
    ensures var once := UnmarkClaimed(session, itemId, store).store;
      UnmarkClaimed(session, itemId, once).store == once
  {
    var once := UnmarkClaimed(session, itemId, store).store;
    if UnmarkClaimed(session, itemId, store).reply.status == OK {
      assert once[itemId].(claimed := false, claimedAt := None) == once[itemId];
      assert once[itemId := once[itemId]] == once;
    }
  }

  // ------------------------------------------------------------------ delete

  /** `DELETE /:id`. The role is checked before the lookup; then exactly the
      named report is removed. */
  function DeleteItem(session: Session, itemId: Id, store: Store): (a: ItemAnswer)
    ensures session.Rejected? ==> a == Refuse(Unauthorized, session.message, store)
    ensures session.Authenticated? && session.user.role != Admin ==> a == Refuse(Forbidden, AdminOnlyMessage, store)
    ensures session.Authenticated? && session.user.role == Admin && itemId !in store ==>
      a == Refuse(NotFound, ItemNotFound, store)
    ensures a.reply.status == OK <==> session.Authenticated? && session.user.role == Admin && itemId in store
    ensures a.reply.status == OK ==>
      && a.store.Keys == store.Keys - {itemId}
      && forall k :: k in a.store ==> a.store[k] == store[k]
  {
    match session
    case Rejected(m) => Refuse(Unauthorized, m, store)
    case Authenticated(caller, _) =>
      if caller.role != Admin then Refuse(Forbidden, AdminOnlyMessage, store)
      else if itemId !in store then Refuse(NotFound, ItemNotFound, store)
      else ItemAnswer(Reply(OK, "Item deleted successfully"), store - {itemId}, None)
  }

  /** For a non-admin the id is never looked up: a missing report is 403,
      not 404, on both admin-only routes. */
  lemma NonAdminNeverSeesNotFound(session: Session, itemId: Id, store: Store)
    requires session.Authenticated? && session.user.role == Student && itemId !in store
    ensures UnmarkClaimed(session, itemId, store).reply.status == Forbidden
    ensures DeleteItem(session, itemId, store).reply.status == Forbidden
  {
  }

  /** Mark, unmark and delete keep the collection valid. */
  lemma MarkKeepsStoreValid(session: Session, itemId: Id, bodyUserId: Option<string>, now: Time, store: Store)
    requires StoreValid(store)
    ensures StoreValid(MarkClaimed(session, itemId, bodyUserId, now, store).store)
  {
  }

  lemma UnmarkKeepsStoreValid(session: Session, itemId: Id, store: Store)
    requires StoreValid(store)
    ensures StoreValid(UnmarkClaimed(session, itemId, store).store)
  {
  }

  lemma DeleteKeepsStoreValid(session: Session, itemId: Id, store: Store)
    requires StoreValid(store)
    ensures StoreValid(DeleteItem(session, itemId, store).store)
  {
  }

  /** The report lifecycle end to end: a student files a report, marks it
      claimed, an admin unmarks it and then deletes it; each step succeeds and
      the report is gone at the end. */
  lemma Lifecycle(student: Session, admin: Session, lib: Library, body: ItemBody,
                  id: Id, t0: Time, t1: Time, store: Store)
    requires student.Authenticated? && student.user.role == Student && !Truthy(body.reportedBy)
    requires admin.Authenticated? && admin.user.role == Admin
    requires id !in store && ItemAccepted(lib, body)
    ensures var s1 := CreateItem(student, lib, body, id, t0, store);
      var s2 := MarkClaimed(student, id, None, t1, s1.store);
      var s3 := UnmarkClaimed(admin, id, s2.store);
      var s4 := DeleteItem(admin, id, s3.store);
      && s1.reply.status == Created && !s1.store[id].claimed
      && s2.reply.status == OK && s2.store[id].claimed && s2.store[id].claimedAt == Some(t1)
      && s3.reply.status == OK && !s3.store[id].claimed && s3.store[id].claimedAt.None?
      && s4.reply.status == OK && id !in s4.store
  {
    var s1 := CreateItem(student, lib, body, id, t0, store);
    assert s1.store[id].reportedBy == student.user.id;
  }
}
