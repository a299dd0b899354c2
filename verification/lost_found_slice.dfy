/** The `lostFound` slice of `client/src/store/slices/lostFoundSlice.js`: the
    browser's copy of the report list, its loading and error flags and the
    filter tab, with the reducer run on every dispatched action. The async
    thunks become functions from the server's response to the action they
    dispatch. */
module LostFoundSlice {

  import opened Common
  import opened ItemModel
  import opened Responses
  import opened ItemLists
  import opened Sorting

  datatype ItemsState = ItemsState(items: seq<Item>, loading: bool, error: Option<string>, filter: string)

  const Initial: ItemsState := ItemsState([], false, None, "all")

  /** The actions the slice handles, plus the pending actions of the mark,
      unmark and delete thunks, which have no reducer case. */
  datatype ItemsAction =
    | SetFilter(filter: string)
    | ClearError
    | FetchPending | FetchFulfilled(fetched: seq<Item>) | FetchRejected(message: string)
    | AddPending | AddFulfilled(added: Item) | AddRejected(message: string)
    | MarkPending | MarkFulfilled(itemId: string, claimedAt: Option<Time>) | MarkRejected(message: string)
    | UnmarkPending | UnmarkFulfilled(itemId: string) | UnmarkRejected(message: string)
    | DeletePending | DeleteFulfilled(itemId: string) | DeleteRejected(message: string)
  {
    predicate IsRejection() {
      FetchRejected? || AddRejected? || MarkRejected? || UnmarkRejected? || DeleteRejected?
    }

    predicate ChangesItems() {
      FetchFulfilled? || AddFulfilled? || MarkFulfilled? || UnmarkFulfilled? || DeleteFulfilled?
    }

    /** The fetch and add thunks, the only ones whose life cycle the
        `loading` flag follows. */
    predicate Tracked() {
      FetchPending? || FetchFulfilled? || FetchRejected? || AddPending? || AddFulfilled? || AddRejected?
    }
  }

  function MarkedAt(claimedAt: Option<Time>): Item -> Item {
    (it: Item) => it.(claimed := true, claimedAt := claimedAt)
  }

  function Unmarked(): Item -> Item {
    (it: Item) => it.(claimed := false, claimedAt := None)
  }

  /** The slice reducer. */
  function Reduce(s: ItemsState, a: ItemsAction): (r: ItemsState)
    // only setFilter moves the filter tab
    ensures r.filter == if a.SetFilter? then a.filter else s.filter
    // the list changes only on a fulfilled fetch, add, mark, unmark or delete
    ensures !a.ChangesItems() ==> r.items == s.items
    ensures a.FetchFulfilled? ==> r.items == a.fetched
    ensures a.AddFulfilled? ==> r.items == [a.added] + s.items
    // loading follows the fetch and add thunks only
    ensures a.Tracked() ==> r.loading == (a.FetchPending? || a.AddPending?)
    ensures !a.Tracked() ==> r.loading == s.loading
    // a rejection records its message; starting or finishing a fetch or add,
    // and clearError, clear it; nothing else touches it
    ensures a.IsRejection() ==> r.error == Some(a.message)
    ensures a.ClearError? || (a.Tracked() && !a.IsRejection()) ==> r.error.None?
    ensures !a.IsRejection() && !a.ClearError? && !a.Tracked() ==> r.error == s.error
  {
    match a
    case SetFilter(f) => s.(filter := f)
    case ClearError => s.(error := None)
    case FetchPending => s.(loading := true, error := None)
    case FetchFulfilled(fetched) => s.(loading := false, items := fetched, error := None)
    case FetchRejected(m) => s.(loading := false, error := Some(m))
    case AddPending => s.(loading := true, error := None)
    case AddFulfilled(added) => s.(loading := false, items := [added] + s.items, error := None)
    case AddRejected(m) => s.(loading := false, error := Some(m))
    case MarkPending => s
    case MarkFulfilled(id, at) => s.(items := UpdateFirst(s.items, id, MarkedAt(at)))
    case MarkRejected(m) => s.(error := Some(m))
    case UnmarkPending => s
    case UnmarkFulfilled(id) => s.(items := UpdateFirst(s.items, id, Unmarked()))
    case UnmarkRejected(m) => s.(error := Some(m))
    case DeletePending => s
    case DeleteFulfilled(id) => s.(items := WithoutId(s.items, id))
    case DeleteRejected(m) => s.(error := Some(m))
  }

  /** Marking a report that is not in the list changes nothing at all. */
  lemma MarkUnknownIdIsNoOp(s: ItemsState, id: string, at: Option<Time>)
    requires forall k :: 0 <= k < |s.items| ==> s.items[k].id != id
    ensures Reduce(s, MarkFulfilled(id, at)) == s
  {
  }

  /** After a fulfilled mark the first report with the id is claimed at the
      payload's time, and every other position is as before. */
  lemma MarkClaimsFirstOnly(s: ItemsState, id: string, at: Option<Time>, i: nat)
    requires FirstWithId(s.items, id) == Some(i)
    ensures var r := Reduce(s, MarkFulfilled(id, at)).items;
      && r[i] == s.items[i].(claimed := true, claimedAt := at)
      && forall k :: 0 <= k < |r| && k != i ==> r[k] == s.items[k]
  {
  }

  /** A delete leaves no report with the id, and keeps the others in order:
      deleting from a concatenation deletes from each part. */
  lemma DeleteRemovesAll(s: ItemsState, t: ItemsState, id: string)
    ensures forall x :: x in Reduce(s, DeleteFulfilled(id)).items ==> x.id != id
    ensures Reduce(ItemsState(s.items + t.items, s.loading, s.error, s.filter), DeleteFulfilled(id)).items
         == Reduce(s, DeleteFulfilled(id)).items + Reduce(t, DeleteFulfilled(id)).items
  {
    FilterAppend(s.items, t.items, (it: Item) => it.id != id);
  }

  // ---------------------------------------------------------------- thunks

  const FetchFailed: string := "Failed to load items"
  const AddFailed: string := "Failed to add item"
  const MarkFailed: string := "Failed to mark item as claimed"
  const UnmarkFailed: string := "Failed to unmark item"
  const DeleteFailed: string := "Failed to delete item"

  /** `fetchItems` settling. The thunk orders the answer newest first by
      `when`, the time of `date || createdAt`, before dispatching it. */
  function FetchSettled(response: Response<seq<Item>>, when: Item -> int): (a: ItemsAction)
    ensures response.Success? ==>
      && a.FetchFulfilled?
      && SortedDesc(a.fetched, when)
      && multiset(a.fetched) == multiset(response.data)
    ensures response.Failure? ==> a == FetchRejected(TextOr(response.body.message, FetchFailed))
  {
    match response
    case Success(items) => FetchFulfilled(SortDesc(items, when))
    case Failure(body) => FetchRejected(TextOr(body.message, FetchFailed))
  }

  /** `addItem` settling: the created report, or the answer's `message`. */
  function AddSettled(response: Response<Item>): (a: ItemsAction)
    ensures response.Success? ==> a == AddFulfilled(response.data)
    ensures response.Failure? ==> a == AddRejected(TextOr(response.body.message, AddFailed))
  {
    match response
    case Success(item) => AddFulfilled(item)
    case Failure(body) => AddRejected(TextOr(body.message, AddFailed))
  }

  /** `markAsClaimed` settling: the request's id with the answer's
      `claimedAt`, or the answer's `message`. */
  function MarkSettled(itemId: string, response: Response<Option<Time>>): (a: ItemsAction)
    ensures response.Success? ==> a == MarkFulfilled(itemId, response.data)
    ensures response.Failure? ==> a == MarkRejected(TextOr(response.body.message, MarkFailed))
  {
    match response
    case Success(at) => MarkFulfilled(itemId, at)
    case Failure(body) => MarkRejected(TextOr(body.message, MarkFailed))
  }

  function UnmarkSettled(itemId: string, response: Response<()>): (a: ItemsAction)
    ensures response.Success? ==> a == UnmarkFulfilled(itemId)
    ensures response.Failure? ==> a == UnmarkRejected(TextOr(response.body.message, UnmarkFailed))
  {
    match response
    case Success(_) => UnmarkFulfilled(itemId)
    case Failure(body) => UnmarkRejected(TextOr(body.message, UnmarkFailed))
  }

  function DeleteSettled(itemId: string, response: Response<()>): (a: ItemsAction)
    ensures response.Success? ==> a == DeleteFulfilled(itemId)
    ensures response.Failure? ==> a == DeleteRejected(TextOr(response.body.message, DeleteFailed))
  {
    match response
    case Success(_) => DeleteFulfilled(itemId)
    case Failure(body) => DeleteRejected(TextOr(body.message, DeleteFailed))
  }

  /** Whatever the server answers, a failed request leaves a non-empty error
      and an unchanged list: the thunks read only `message`, so a failure
      whose body carries its text under `error` (the `auth` guard's 401, the
      validators' 400) shows the thunk's own fallback. */
  lemma FailureKeepsListAndSetsError(s: ItemsState, itemId: string, body: ErrorBody)
    ensures var acts := [AddSettled(Failure(body)), MarkSettled(itemId, Failure(body)),
                         UnmarkSettled(itemId, Failure(body)), DeleteSettled(itemId, Failure(body))];
      forall k :: 0 <= k < |acts| ==>
        && Reduce(s, acts[k]).items == s.items
        && Reduce(s, acts[k]).error.Some? && |Reduce(s, acts[k]).error.value| > 0
    ensures body.message.None? ==> Reduce(s, AddSettled(Failure(body))).error == Some(AddFailed)
  {
  }

  // ------------------------------------------------------------- selectors

  /** `selectFilteredItems`: the list under the current tab. */
  function SelectFilteredItems(s: ItemsState): (r: seq<Item>)
    ensures s.filter == "all" ==> r == s.items
    ensures s.filter != "all" ==> forall x :: x in r <==> x in s.items && x.itemType.Name() == s.filter
    ensures s.filter != "all" ==>
      forall x :: multiset(r)[x] == if x.itemType.Name() == s.filter then multiset(s.items)[x] else 0
    // on a type tab the selection is the type's reports in list order
    ensures s.filter != "all" ==> r == OfType(s.items, s.filter)
  {
    ByFilter(s.items, s.filter)
  }

  /** `selectLostItems` and `selectFoundItems`. */
  function SelectOfType(s: ItemsState, t: ItemType): (r: seq<Item>)
    ensures forall x :: x in r <==> x in s.items && x.itemType == t
    ensures |r| == CountOf(s.items, t)
  {
    OfType(s.items, t.Name())
  }

  /** The lost and found selections split the list between them, and the
      filtered selection on a type tab is that type's selection. */
  lemma SelectionsPartition(s: ItemsState, t: ItemType)
    ensures |SelectOfType(s, Lost)| + |SelectOfType(s, Found)| == |s.items|
    ensures s.filter == t.Name() ==> SelectFilteredItems(s) == SelectOfType(s, t)
  {
    CountsAddUp(s.items);
  }

  /** A newly added report heads the tab's list when it has the tab's type,
      and the rest of the tab keeps its order. */
  lemma AddedLeadsItsTab(s: ItemsState, item: Item)
    requires s.filter != "all"
    ensures SelectFilteredItems(Reduce(s, AddFulfilled(item))) ==
      (if item.itemType.Name() == s.filter then [item] else []) + SelectFilteredItems(s)
  {
    OfTypeAppend([item], s.items, s.filter);
    assert [item][1..] == [];
  }

  /** `setFilter` then `clearError` in either order give the same state. */
  lemma FilterAndClearCommute(s: ItemsState, f: string)
    ensures Reduce(Reduce(s, SetFilter(f)), ClearError) == Reduce(Reduce(s, ClearError), SetFilter(f))
  {
  }
}
