/** The `useLostFound` hook of `client/src/hooks/useLostFound.js`: a second,
    component-local copy of the report list with its own add, mark, unmark
    and delete actions. Each action takes the stored token, the context's
    user and the server's response, and yields the new list and the result
    object it returns. */
module UseLostFound {

  import opened Common
  import opened ItemModel
  import opened UserModel
  import opened Responses
  import opened ItemLists

  /** `{ success: true, data? }`, `{ success: false, error }`, or nothing at
      all (`undefined`) when a 2xx answer says `success: false`. */
  datatype HookResult = Succeeded(data: Option<Item>) | FailedWith(error: string) | Undefined

  /** A hook call's outcome: the list afterwards and the returned result. */
  datatype Step = Step(items: seq<Item>, result: HookResult)

  const AddFailed: string := "Failed to add item. Please try again."
  const MarkFailed: string := "Failed to mark item as claimed. Please try again."
  const UnmarkFailed: string := "Failed to unmark item. Please try again."
  const DeleteFailed: string := "Failed to delete item. Please try again."

  /** The answer body of mark and unmark: its `success` flag and, for mark,
      its `claimedAt`. */
  datatype ClaimAnswer = ClaimAnswer(success: bool, claimedAt: Option<Time>)

  /** `addItem`. Without a token the thrown error has no response, so the
      generic text is returned and no request is made. */
  function AddItem(items: seq<Item>, token: Option<string>, response: Response<Item>): (o: Step)
    ensures !Truthy(token) ==> o == Step(items, FailedWith(AddFailed))
    ensures o.result.Succeeded? <==> Truthy(token) && response.Success?
    ensures o.result.Succeeded? ==> o.items == [response.data] + items && o.result.data == Some(response.data)
    ensures !o.result.Succeeded? ==> o.items == items && o.result.FailedWith? && |o.result.error| > 0
  {
    if !Truthy(token) then Step(items, FailedWith(AddFailed))
    else match response
      case Success(item) => Step([item] + items, Succeeded(Some(item)))
      case Failure(body) => Step(items, FailedWith(TextOr(body.message, AddFailed)))
  }

  /** The mark/unmark shape: refused without a token or a user; on a 2xx
      answer with `success` every report with the id is updated by `f`; on a
      2xx answer without it the list stays and nothing is returned. */
  function ClaimStep(items: seq<Item>, token: Option<string>, user: Option<UserView>, itemId: string,
                     response: Response<ClaimAnswer>, f: Item -> Item, fallback: string): (o: Step)
    requires |fallback| > 0
    ensures !Truthy(token) || user.None? ==> o == Step(items, FailedWith(fallback))
    ensures o.result.Succeeded? <==> Truthy(token) && user.Some? && response.Success? && response.data.success
    ensures o.result.Succeeded? ==> o.items == UpdateAll(items, itemId, f) && o.result.data.None?
    ensures !o.result.Succeeded? ==> o.items == items
    ensures o.result.Undefined? <==> Truthy(token) && user.Some? && response.Success? && !response.data.success
    ensures o.result.FailedWith? ==> |o.result.error| > 0
  {
    if !Truthy(token) || user.None? then Step(items, FailedWith(fallback))
    else match response
      case Success(answer) =>
        if answer.success then Step(UpdateAll(items, itemId, f), Succeeded(None)) else Step(items, Undefined)
      case Failure(body) => Step(items, FailedWith(TextOr(body.message, fallback)))
  }

  /** `markAsClaimed`. */
  function MarkAsClaimed(items: seq<Item>, token: Option<string>, user: Option<UserView>, itemId: string,
                         response: Response<ClaimAnswer>): (o: Step)
    ensures o.result.Succeeded? <==> Truthy(token) && user.Some? && response.Success? && response.data.success
    ensures o.result.Succeeded? ==>
      && |o.items| == |items|
      && forall k :: 0 <= k < |items| ==>
           o.items[k] == if items[k].id == itemId
                         then items[k].(claimed := true, claimedAt := response.data.claimedAt)
                         else items[k]
    ensures !o.result.Succeeded? ==> o.items == items
  {
    var at := if response.Success? then response.data.claimedAt else None;
    ClaimStep(items, token, user, itemId, response, (it: Item) => it.(claimed := true, claimedAt := at), MarkFailed)
  }

  /** `unmarkClaimed`. */
  function UnmarkClaimed(items: seq<Item>, token: Option<string>, user: Option<UserView>, itemId: string,
                         response: Response<ClaimAnswer>): (o: Step)
    ensures o.result.Succeeded? <==> Truthy(token) && user.Some? && response.Success? && response.data.success
    ensures o.result.Succeeded? ==>
      && |o.items| == |items|
      && forall k :: 0 <= k < |items| ==>
           o.items[k] == if items[k].id == itemId then items[k].(claimed := false, claimedAt := None) else items[k]
    ensures !o.result.Succeeded? ==> o.items == items
  {
    ClaimStep(items, token, user, itemId, response, (it: Item) => it.(claimed := false, claimedAt := None), UnmarkFailed)
  }

  /** `deleteItem`. There is no token guard: the request goes out with
      whatever is stored, and the list changes only on a 2xx answer. */
  function DeleteItem(items: seq<Item>, itemId: string, response: Response<()>): (o: Step)
    ensures response.Success? ==> o.result == Succeeded(None) && o.items == WithoutId(items, itemId)
    ensures response.Failure? ==> o == Step(items, FailedWith(TextOr(response.body.message, DeleteFailed)))
  {
    match response
    case Success(_) => Step(WithoutId(items, itemId), Succeeded(None))
    case Failure(body) => Step(items, FailedWith(TextOr(body.message, DeleteFailed)))
  }

  /** Unmarking through the hook twice leaves the list as unmarking once. */
  lemma UnmarkTwiceIsOnce(items: seq<Item>, token: Option<string>, user: Option<UserView>, itemId: string,
                          response: Response<ClaimAnswer>)
    ensures var once := UnmarkClaimed(items, token, user, itemId, response).items;
      UnmarkClaimed(once, token, user, itemId, response).items == once
  {
    var once := UnmarkClaimed(items, token, user, itemId, response).items;
    var twice := UnmarkClaimed(once, token, user, itemId, response).items;
    if UnmarkClaimed(items, token, user, itemId, response).result.Succeeded? {
      assert |twice| == |once|;
      forall k | 0 <= k < |once| ensures twice[k] == once[k] {
      }
    }
  }

  /** A delete without a stored token is refused by the server's guard, whose
      answer carries its text under `error`: the hook returns its own generic
      text and keeps the list. */
  lemma DeleteWithoutTokenIsGeneric(items: seq<Item>, itemId: string, guardText: string)
    ensures DeleteItem(items, itemId, Failure(ErrorBody(None, Some(guardText))))
         == Step(items, FailedWith(DeleteFailed))
  {
  }
}
