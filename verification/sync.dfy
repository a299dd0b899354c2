/** How the browser's state follows the server. The report list the slice
    holds "mirrors" the server's collection when it holds every stored report
    exactly once and nothing else — what the listing route answers. Each
    successful route answer, fed through the thunk that made the request and
    then the slice reducer, keeps a mirror a mirror; the hook's own list
    follows the same way. The page's claim button, the admin credential check
    and the route guard are compared with the server's decisions. */
module Sync {

  import opened Common
  import opened ItemModel
  import opened UserModel
  import opened Responses
  import opened ItemLists
  import opened AuthMiddleware
  import opened Validators
  import ItemRoutes
  import AuthRoutes
  import LostFoundSlice
  import UseLostFound
  import AuthSlice
  import LostFoundPage
  import AdminConfig
  import ProtectedRoute
  import Strings
  import Sorting

  /** `items` holds each report of `store` exactly once, and nothing else. */
  ghost predicate Mirrors(items: seq<Item>, store: ItemRoutes.Store) {
    ItemRoutes.KeysMatch(store) && ItemRoutes.ExactlyOnce(items, store, store.Keys)
  }

  /** An element found at two positions is counted twice. */
  lemma RepeatCountsTwice(s: seq<Item>, i: nat, j: nat)
    requires i < |s| && j < |s| && s[i] == s[j]
    ensures i != j ==> multiset(s)[s[i]] >= 2
  {
    if i != j {
      var a := if i < j then i else j;
      var b := if i < j then j else i;
      assert s == s[..b] + [s[b]] + s[b+1..];
      assert s[..b][a] == s[a];
      assert multiset(s)[s[b]] == multiset(s[..b])[s[b]] + 1 + multiset(s[b+1..])[s[b]];
    }
  }

  /** A mirror holds each id at most once. */
  lemma MirrorIdsUnique(items: seq<Item>, store: ItemRoutes.Store, id: string)
    requires Mirrors(items, store)
    ensures AtMostOnce(items, id)
  {
    forall i, j | 0 <= i < |items| && 0 <= j < |items| && items[i].id == id && items[j].id == id
      ensures i == j
    {
      assert multiset(items)[items[i]] > 0 && multiset(items)[items[j]] > 0;
      assert items[i] == store[id] == items[j];
      RepeatCountsTwice(items, i, j);
    }
  }

  /** A mirror's report with a stored id is the stored report. */
  lemma MirrorEntry(items: seq<Item>, store: ItemRoutes.Store, k: nat)
    requires Mirrors(items, store) && k < |items|
    ensures items[k].id in store && store[items[k].id] == items[k]
  {
    assert multiset(items)[items[k]] > 0;
  }

  /** The listing route's answer, fed through `fetchItems` and the reducer,
      makes the slice's list a mirror of the store, ordered newest first by
      the thunk's key `when` (not by the route's `createdAt` order), and ends
      the loading state without an error. */
  method SliceFollowsList(s: LostFoundSlice.ItemsState, store: ItemRoutes.Store, when: Item -> int)
      returns (r: LostFoundSlice.ItemsState)
    requires ItemRoutes.KeysMatch(store)
    ensures Mirrors(r.items, store)
    ensures Sorting.SortedDesc(r.items, when)
    ensures |r.items| == |store| && !r.loading && r.error.None? && r.filter == s.filter
  {
    var listed := ItemRoutes.ListItems(store);
    r := LostFoundSlice.Reduce(s, LostFoundSlice.FetchSettled(Success(listed), when));
    assert |r.items| == |multiset(r.items)| == |multiset(listed)| == |listed|;
  }

  // ------------------------------------------------ mirror-preserving edits

  lemma MirrorInsert(items: seq<Item>, store: ItemRoutes.Store, item: Item)
    requires Mirrors(items, store) && item.id !in store
    ensures Mirrors([item] + items, store[item.id := item])
  {
    var store' := store[item.id := item];
    forall x: Item ensures multiset([item] + items)[x] ==
      (if x.id in store'.Keys && x.id in store' && store'[x.id] == x then 1 else 0)
    {
      assert multiset([item] + items)[x] == (if x == item then 1 else 0) + multiset(items)[x];
    }
  }

  lemma MirrorSwap(items: seq<Item>, store: ItemRoutes.Store, i: nat, v: Item)
    requires Mirrors(items, store) && i < |items| && v.id == items[i].id
    ensures Mirrors(items[i := v], store[v.id := v])
  {
    MirrorEntry(items, store, i);
    var store' := store[v.id := v];
    forall x: Item ensures multiset(items[i := v])[x] ==
      (if x.id in store'.Keys && x.id in store' && store'[x.id] == x then 1 else 0)
    {
      assert multiset(items[i := v])[x] == multiset(items)[x] - (if x == items[i] then 1 else 0) + (if x == v then 1 else 0);
    }
  }

  lemma MirrorReplace(items: seq<Item>, store: ItemRoutes.Store, id: Id, f: Item -> Item)
    requires Mirrors(items, store) && id in store && f(store[id]).id == id
    ensures Mirrors(UpdateFirst(items, id, f), store[id := f(store[id])])
  {
    assert multiset(items)[store[id]] == 1;
    assert store[id] in items;
    var i := FirstWithId(items, id).value;
    MirrorEntry(items, store, i);
    UpdateFirstAt(items, id, f, i);
    MirrorSwap(items, store, i, f(store[id]));
  }

  lemma MirrorRemove(items: seq<Item>, store: ItemRoutes.Store, id: Id)
    requires Mirrors(items, store)
    ensures Mirrors(WithoutId(items, id), store - {id})
  {
  }

  // ----------------------------------------------------- the slice follows

  /** A created report, answered 201 and dispatched through `addItem`, is
      prepended to a mirror of the old collection: the list mirrors the new
      collection. */
  lemma SliceFollowsCreate(s: LostFoundSlice.ItemsState, session: Session, lib: Library, body: ItemBody,
                           newId: Id, now: Time, store: ItemRoutes.Store)
    requires newId !in store && Mirrors(s.items, store)
    requires ItemRoutes.CreateItem(session, lib, body, newId, now, store).reply.status == Created
    ensures var a := ItemRoutes.CreateItem(session, lib, body, newId, now, store);
      Mirrors(LostFoundSlice.Reduce(s, LostFoundSlice.AddSettled(Success(a.item.value))).items, a.store)
  {
    var a := ItemRoutes.CreateItem(session, lib, body, newId, now, store);
    var action := LostFoundSlice.AddSettled(Success(a.item.value));
    assert LostFoundSlice.Reduce(s, action).items == [a.item.value] + s.items;
    assert a.store == store[a.item.value.id := a.item.value];
    MirrorInsert(s.items, store, a.item.value);
  }

  /** A mark answered 200 replaces the stored report by its claimed copy and
      answers with that copy. */
  lemma MarkAnswerClaims(session: Session, itemId: Id, bodyUserId: Option<string>, now: Time, store: ItemRoutes.Store)
    requires ItemRoutes.MarkClaimed(session, itemId, bodyUserId, now, store).reply.status == OK
    ensures var a := ItemRoutes.MarkClaimed(session, itemId, bodyUserId, now, store);
      var claimed := LostFoundSlice.MarkedAt(Some(now))(store[itemId]);
      && itemId in store && a.item == Some(claimed) && a.store == store[itemId := claimed]
  {
  }

  /** A mark answered 200 and dispatched through `markAsClaimed` claims the
      mirrored report at the answer's time. */
  lemma SliceFollowsMark(s: LostFoundSlice.ItemsState, session: Session, itemId: Id,
                         bodyUserId: Option<string>, now: Time, store: ItemRoutes.Store)
    requires Mirrors(s.items, store)
    requires ItemRoutes.MarkClaimed(session, itemId, bodyUserId, now, store).reply.status == OK
    ensures var a := ItemRoutes.MarkClaimed(session, itemId, bodyUserId, now, store);
      Mirrors(LostFoundSlice.Reduce(s, LostFoundSlice.MarkSettled(itemId, Success(a.item.value.claimedAt))).items,
              a.store)
  {
    MarkAnswerClaims(session, itemId, bodyUserId, now, store);
    var a := ItemRoutes.MarkClaimed(session, itemId, bodyUserId, now, store);
    var f := LostFoundSlice.MarkedAt(Some(now));
    var action := LostFoundSlice.MarkSettled(itemId, Success(a.item.value.claimedAt));
    assert action == LostFoundSlice.MarkFulfilled(itemId, Some(now));
    assert LostFoundSlice.Reduce(s, action).items == UpdateFirst(s.items, itemId, f);
    MirrorReplace(s.items, store, itemId, f);
  }

  /** An unmark answered 200 and dispatched through `unmarkClaimed` keeps the
      mirror. */
  lemma SliceFollowsUnmark(s: LostFoundSlice.ItemsState, session: Session, itemId: Id, store: ItemRoutes.Store)
    requires Mirrors(s.items, store)
    requires ItemRoutes.UnmarkClaimed(session, itemId, store).reply.status == OK
    ensures var a := ItemRoutes.UnmarkClaimed(session, itemId, store);
      Mirrors(LostFoundSlice.Reduce(s, LostFoundSlice.UnmarkSettled(itemId, Success(()))).items, a.store)
  {
    var a := ItemRoutes.UnmarkClaimed(session, itemId, store);
    var f := LostFoundSlice.Unmarked();
    var action := LostFoundSlice.UnmarkSettled(itemId, Success(()));
    assert action == LostFoundSlice.UnmarkFulfilled(itemId);
    assert LostFoundSlice.Reduce(s, action).items == UpdateFirst(s.items, itemId, f);
    assert f(store[itemId]) == store[itemId].(claimed := false, claimedAt := None);
    MirrorReplace(s.items, store, itemId, f);
    assert a.store == store[itemId := f(store[itemId])];
  }

  /** A delete answered 200 and dispatched through `deleteItem` keeps the
      mirror. */
  lemma SliceFollowsDelete(s: LostFoundSlice.ItemsState, session: Session, itemId: Id, store: ItemRoutes.Store)
    requires Mirrors(s.items, store)
    requires ItemRoutes.DeleteItem(session, itemId, store).reply.status == OK
    ensures var a := ItemRoutes.DeleteItem(session, itemId, store);
      Mirrors(LostFoundSlice.Reduce(s, LostFoundSlice.DeleteSettled(itemId, Success(()))).items, a.store)
  {
    var a := ItemRoutes.DeleteItem(session, itemId, store);
    MirrorRemove(s.items, store, itemId);
    assert a.store == store - {itemId};
  }

  /** The hook's mark updates every report with the id where the slice
      updates the first; on a mirror the two coincide, so the hook's list
      stays a mirror too. */
  lemma HookFollowsMark(items: seq<Item>, token: string, user: UserView, session: Session, itemId: Id,
                        bodyUserId: Option<string>, now: Time, store: ItemRoutes.Store)
    requires |token| > 0 && Mirrors(items, store)
    requires ItemRoutes.MarkClaimed(session, itemId, bodyUserId, now, store).reply.status == OK
    ensures var a := ItemRoutes.MarkClaimed(session, itemId, bodyUserId, now, store);
      var answer := UseLostFound.ClaimAnswer(true, a.item.value.claimedAt);
      var o := UseLostFound.MarkAsClaimed(items, Some(token), Some(user), itemId, Success(answer));
      o.result.Succeeded? && Mirrors(o.items, a.store)
  {
    var a := ItemRoutes.MarkClaimed(session, itemId, bodyUserId, now, store);
    var answer := UseLostFound.ClaimAnswer(true, a.item.value.claimedAt);
    var o := UseLostFound.MarkAsClaimed(items, Some(token), Some(user), itemId, Success(answer));
    var f := LostFoundSlice.MarkedAt(Some(now));
    MirrorIdsUnique(items, store, itemId);
    FirstAgreesWithAll(items, itemId, f);
    assert o.items == UpdateAll(items, itemId, f);
    MirrorReplace(items, store, itemId, f);
    assert a.store == store[itemId := f(store[itemId])];
  }

  // -------------------------------------------------- the claim button

  /** The button is never shown where the server would refuse: a card that
      offers it to the signed-in user leads, with the `userId` both clients
      send (the user's own id), to a 200 from the mark route. */
  lemma ButtonMeansServerAllows(item: Item, u: UserView, session: Session, now: Time, store: ItemRoutes.Store)
    requires LostFoundPage.Foot(item, Some(u)) == LostFoundPage.MarkButton
    requires session.Authenticated? && session.user.id == u.id
    requires item.id in store && store[item.id].reportedBy == item.reportedBy
    ensures ItemRoutes.MarkClaimed(session, item.id, Some(u.id), now, store).reply.status == OK
    ensures ItemRoutes.MarkClaimed(session, item.id, None, now, store).reply.status == OK
  {
  }

  /** The server allows more than the button offers: a reporter may mark
      their own lost report, and an admin any report, though neither card
      shows the button. */
  lemma ServerAllowsBeyondButton(item: Item, u: UserView, session: Session, now: Time, store: ItemRoutes.Store)
    requires session.Authenticated? && session.user.id == u.id
    requires item.id in store && store[item.id] == item
    requires (item.itemType == Lost && item.reportedBy == u.id) || (session.user.role == Admin && item.reportedBy != u.id)
    ensures ItemRoutes.MarkClaimed(session, item.id, Some(u.id), now, store).reply.status == OK
    ensures LostFoundPage.Foot(item, Some(u)) != LostFoundPage.MarkButton
  {
  }

  // ------------------------------------------------------ the admin login

  lemma AdminEmailIsLowercase()
    ensures Strings.ToLower(AuthRoutes.AdminEmail) == AuthRoutes.AdminEmail
  {
    var e := AuthRoutes.AdminEmail;
    assert forall k :: 0 <= k < |e| ==> Strings.LowerChar(e[k]) == e[k];
  }

  /** The client's credential check and the server's bypass accept the same
      pairs. */
  lemma AdminChecksAgree(email: string, password: string)
    ensures AdminConfig.VerifyAdminPassword(email, password) <==> AuthRoutes.IsAdminLogin(LoginInput(email, password))
  {
    AdminEmailIsLowercase();
    AdminConfig.VerifyIsTheAdminPair(email, password);
  }

  /** A bypass login, dispatched through `loginUser`, leaves the slice holding
      an admin session that passes the guard of an admin-only page — whatever
      role the account has in the store. */
  lemma BypassOpensAdminPages(input: LoginInput, users: seq<User>, newId: Id, now: Time,
                              passwordMatches: (string, string) -> bool, s: AuthSlice.AuthState,
                              token: string, context: ProtectedRoute.SessionView)
    requires !IdInUse(users, newId) && AuthRoutes.IsAdminLogin(input) && !context.loading
    ensures var a := AuthRoutes.Login(input, users, newId, now, passwordMatches);
      var c := AuthSlice.Reduce(s, AuthSlice.LoginSettled(Success(AuthSlice.SignedIn(a.user, token))));
      && c.isAdmin && c.isAuthenticated
      && ProtectedRoute.Guard(ProtectedRoute.SessionView(c.user, c.isAuthenticated, c.loading), context, ["admin"])
         == ProtectedRoute.RenderChildren
  {
  }
}
