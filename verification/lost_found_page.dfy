/** The decisions of `client/src/components/features/lost-found/LostFoundPage.js`:
    which reports are shown under the current tab, the counts on the Lost and
    Found tabs, and what each report card offers below its details. */
module LostFoundPage {

  import opened Common
  import opened ItemModel
  import opened UserModel
  import opened ItemLists

  /** The foot of a report card: the claimed badge (with the claim date when
      there is one), the "Mark as Claimed" button, or nothing. */
  datatype CardFoot = ClaimedBadge(claimedAt: Option<Time>) | MarkButton | Nothing

  /** The card foot of `item` for the signed-in `user`. A claimed report
      shows the badge; an unclaimed one shows the button only to its
      reporter, and only when it was reported as found. */
  function Foot(item: Item, user: Option<UserView>): (f: CardFoot)
    ensures item.claimed <==> f.ClaimedBadge?
    ensures f.ClaimedBadge? ==> f.claimedAt == item.claimedAt
    ensures f == MarkButton <==>
      && !item.claimed && user.Some? && |item.reportedBy| > 0
      && item.reportedBy == user.value.id && item.itemType == Found
  {
    if item.claimed then ClaimedBadge(item.claimedAt)
    else if user.Some? && |item.reportedBy| > 0 && item.reportedBy == user.value.id && item.itemType.Name() == "found"
    then MarkButton
    else Nothing
  }

  /** A lost report never offers the button, even to its reporter. */
  lemma LostNeverOffersButton(item: Item, user: Option<UserView>)
    requires item.itemType == Lost
    ensures Foot(item, user) != MarkButton
  {
  }

  /** The page as rendered: the cards under the current tab, with their
      feet, and the two tab counts over the whole list. */
  datatype PageView = PageView(cards: seq<(Item, CardFoot)>, lostCount: nat, foundCount: nat)

  /** One card per report, in list order. */
  function Cards(shown: seq<Item>, user: Option<UserView>): (cards: seq<(Item, CardFoot)>)
    ensures |cards| == |shown|
    ensures forall k :: 0 <= k < |cards| ==> cards[k].0 == shown[k] && cards[k].1 == Foot(shown[k], user)
  {
    seq(|shown|, k requires 0 <= k < |shown| => (shown[k], Foot(shown[k], user)))
  }

  /** Every shown report comes from the list, and under a type tab has
      that type. */
  lemma ShownComeFromList(items: seq<Item>, filter: string)
    ensures var shown := ByFilter(items, filter);
      forall k :: 0 <= k < |shown| ==> shown[k] in items && (filter != "all" ==> shown[k].itemType.Name() == filter)
  {
    var shown := ByFilter(items, filter);
    assert forall k :: 0 <= k < |shown| ==> shown[k] in shown;
  }

  function Render(items: seq<Item>, filter: string, user: Option<UserView>): (v: PageView)
    ensures filter == "all" ==> |v.cards| == |items|
    ensures forall k :: 0 <= k < |v.cards| ==> v.cards[k].1 == Foot(v.cards[k].0, user)
    ensures forall k :: 0 <= k < |v.cards| ==> v.cards[k].0 in items
    ensures filter != "all" ==> forall k :: 0 <= k < |v.cards| ==> v.cards[k].0.itemType.Name() == filter
    ensures v.lostCount + v.foundCount == |items|
    // each tab's badge counts the reports of its type
    ensures v.lostCount == CountOf(items, Lost) && v.foundCount == CountOf(items, Found)
    // one card per report of the tab, in list order
    ensures |v.cards| == |ByFilter(items, filter)|
    ensures forall k :: 0 <= k < |v.cards| ==> v.cards[k].0 == ByFilter(items, filter)[k]
  {
    CountsAddUp(items);
    ShownComeFromList(items, filter);
    PageView(Cards(ByFilter(items, filter), user), CountOf(items, Lost), CountOf(items, Found))
  }

  /** Every report of the tab's type, and under `all` every report, has a
      card. */
  lemma EveryReportOfTabShown(items: seq<Item>, filter: string, user: Option<UserView>, x: Item)
    requires x in items && (filter == "all" || x.itemType.Name() == filter)
    ensures var v := Render(items, filter, user);
      exists k :: 0 <= k < |v.cards| && v.cards[k].0 == x
  {
    var v := Render(items, filter, user);
    var shown := ByFilter(items, filter);
    assert x in shown;
    var k :| 0 <= k < |shown| && shown[k] == x;
    assert v.cards[k].0 == x;
  }

  /** The count on a type's tab is the number of cards that tab shows. */
  lemma TabCountsMatchCards(items: seq<Item>, user: Option<UserView>)
    ensures |Render(items, "lost", user).cards| == Render(items, "lost", user).lostCount
    ensures |Render(items, "found", user).cards| == Render(items, "found", user).foundCount
    ensures |Render(items, "all", user).cards| == Render(items, "all", user).lostCount + Render(items, "all", user).foundCount
  {
  }
}
