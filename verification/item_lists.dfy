/** The list transformations the browser applies to its copy of the report
    list: `Array.prototype.filter`, the slice's "update the first report with
    this id" (`find` then mutate) and the hook's "update every report with
    this id" (`map`), and the type filter shared by the selector, the hook
    and the page. */
module ItemLists {

  import opened Common
  import opened ItemModel

  /** `s.filter(p)`: the elements satisfying `p`, in their original order. */
  function Filter<T(==,!new)>(s: seq<T>, p: T -> bool): (r: seq<T>)
    ensures |r| <= |s|
    ensures forall x :: x in r <==> x in s && p(x)
    ensures forall x :: multiset(r)[x] == if p(x) then multiset(s)[x] else 0
  {
    if s == [] then []
    else
      assert s == [s[0]] + s[1..];
      if p(s[0]) then [s[0]] + Filter(s[1..], p) else Filter(s[1..], p)
  }

  /** Filtering a concatenation filters each part in place: the kept
      elements keep their relative order. */
  lemma {:induction false} FilterAppend<T(!new)>(a: seq<T>, b: seq<T>, p: T -> bool)
    ensures Filter(a + b, p) == Filter(a, p) + Filter(b, p)
  {
    if a == [] {
      assert a + b == b;
    } else {
      assert (a + b)[0] == a[0];
      assert (a + b)[1..] == a[1..] + b;
      FilterAppend(a[1..], b, p);
    }
  }

  /** Position of the first report with id `id`, as `Array.prototype.find`
      would meet it. */
  function FirstWithId(items: seq<Item>, id: string): (r: Option<nat>)
    ensures r.None? <==> forall k :: 0 <= k < |items| ==> items[k].id != id
    ensures r.Some? ==>
      && r.value < |items| && items[r.value].id == id
      && forall k :: 0 <= k < r.value ==> items[k].id != id
  {
    if items == [] then None
    else if items[0].id == id then Some(0)
    else match FirstWithId(items[1..], id)
      case None => None
      case Some(i) => Some(i + 1)
  }

  /** The slice's update: `f` applied to the first report with id `id`,
      every other position untouched; no match leaves the list as it is. */
  function UpdateFirst(items: seq<Item>, id: string, f: Item -> Item): (r: seq<Item>)
    ensures |r| == |items|
    ensures forall k :: 0 <= k < |items| ==>
      r[k] == if FirstWithId(items, id) == Some(k) then f(items[k]) else items[k]
    ensures FirstWithId(items, id).None? ==> r == items
  {
    if items == [] then []
    else if items[0].id == id then [f(items[0])] + items[1..]
    else [items[0]] + UpdateFirst(items[1..], id, f)
  }

  /** The slice's update replaces exactly the first match. */
  lemma UpdateFirstAt(items: seq<Item>, id: string, f: Item -> Item, i: nat)
    requires FirstWithId(items, id) == Some(i)
    ensures UpdateFirst(items, id, f) == items[i := f(items[i])]
  {
    var r := UpdateFirst(items, id, f);
    assert forall k :: 0 <= k < |items| ==> r[k] == items[i := f(items[i])][k];
  }

  /** The hook's update: `f` applied to every report with id `id`. */
  function UpdateAll(items: seq<Item>, id: string, f: Item -> Item): (r: seq<Item>)
    ensures |r| == |items|
    ensures forall k :: 0 <= k < |items| ==> r[k] == if items[k].id == id then f(items[k]) else items[k]
  {
    if items == [] then []
    else [if items[0].id == id then f(items[0]) else items[0]] + UpdateAll(items[1..], id, f)
  }

  /** At most one report in the list carries `id`. */
  predicate AtMostOnce(items: seq<Item>, id: string) {
    forall i, j :: 0 <= i < |items| && 0 <= j < |items| && items[i].id == id && items[j].id == id ==> i == j
  }

  /** Where the id occurs at most once, the two updates agree. */
  lemma FirstAgreesWithAll(items: seq<Item>, id: string, f: Item -> Item)
    requires AtMostOnce(items, id)
    ensures UpdateFirst(items, id, f) == UpdateAll(items, id, f)
  {
    var a := UpdateFirst(items, id, f);
    var b := UpdateAll(items, id, f);
    forall k | 0 <= k < |items| ensures a[k] == b[k] {
      if items[k].id == id {
        var i := FirstWithId(items, id).value;
        assert i == k;
      }
    }
  }

  /** Where the id occurs twice, they disagree: marking the list that holds
      the same unclaimed report twice claims only the first copy under the
      slice's update and both under the hook's. */
  lemma FirstDiffersOnDuplicates(item: Item, at: Time)
    requires !item.claimed
    ensures var f := (it: Item) => it.(claimed := true, claimedAt := Some(at));
      && UpdateFirst([item, item], item.id, f) == [f(item), item]
      && UpdateAll([item, item], item.id, f) == [f(item), f(item)]
      && UpdateFirst([item, item], item.id, f) != UpdateAll([item, item], item.id, f)
  {
    var f := (it: Item) => it.(claimed := true, claimedAt := Some(at));
    assert UpdateFirst([item, item], item.id, f)[1] == item;
    assert UpdateAll([item, item], item.id, f)[1] == f(item);
  }

  /** Every report other than those with id `id`, in order. */
  function WithoutId(items: seq<Item>, id: string): (r: seq<Item>)
    ensures forall x :: x in r <==> x in items && x.id != id
    ensures forall x :: multiset(r)[x] == if x.id != id then multiset(items)[x] else 0
    ensures forall k :: 0 <= k < |r| ==> r[k].id != id
  {
    Filter(items, (it: Item) => it.id != id)
  }

  /** Filtering keeps nothing when no element qualifies. */
  lemma {:induction false} FilterNone<T(!new)>(s: seq<T>, p: T -> bool)
    requires forall k :: 0 <= k < |s| ==> !p(s[k])
    ensures Filter(s, p) == []
  {
    if s != [] {
      FilterNone(s[1..], p);
    }
  }

  /** The reports whose `type` is the text `name`, in order. */
  function OfType(items: seq<Item>, name: string): (r: seq<Item>)
    ensures forall x :: x in r <==> x in items && x.itemType.Name() == name
    ensures forall x :: multiset(r)[x] == if x.itemType.Name() == name then multiset(items)[x] else 0
    ensures name != "lost" && name != "found" ==> r == []
  {
    var p := (it: Item) => it.itemType.Name() == name;
    if name != "lost" && name != "found" then
      FilterNone(items, p);
      Filter(items, p)
    else Filter(items, p)
  }

  /** Selecting a type from a concatenation selects from each part in place,
      so the selection keeps the list's order. */
  lemma OfTypeAppend(a: seq<Item>, b: seq<Item>, name: string)
    ensures OfType(a + b, name) == OfType(a, name) + OfType(b, name)
  {
    FilterAppend(a, b, (it: Item) => it.itemType.Name() == name);
  }

  /** The shown list for a filter value: everything for `"all"`, otherwise the
      reports of that type, in order (so nothing for an unknown value). */
  function ByFilter(items: seq<Item>, filter: string): (r: seq<Item>)
    ensures filter == "all" ==> r == items
    ensures filter != "all" ==> forall x :: x in r <==> x in items && x.itemType.Name() == filter
    ensures filter != "all" ==> forall x :: multiset(r)[x] == if x.itemType.Name() == filter then multiset(items)[x] else 0
    ensures filter != "all" && filter != "lost" && filter != "found" ==> r == []
    ensures |r| <= |items|
  {
    if filter == "all" then items else OfType(items, filter)
  }

  /** How many reports of the list have type `t`. */
  function CountOf(items: seq<Item>, t: ItemType): (n: nat)
    ensures n <= |items|
  {
    |OfType(items, t.Name())|
  }

  /** A list with no report of type `t` counts zero of it. */
  lemma NoneCountsZero(items: seq<Item>, t: ItemType)
    requires forall k :: 0 <= k < |items| ==> items[k].itemType != t
    ensures CountOf(items, t) == 0
  {
    FilterNone(items, (it: Item) => it.itemType.Name() == t.Name());
  }

  /** A single report is counted under exactly one of the two types. */
  lemma OneCountsOnce(x: Item)
    ensures CountOf([x], Lost) + CountOf([x], Found) == 1
  {
    var pl := (it: Item) => it.itemType.Name() == "lost";
    var pf := (it: Item) => it.itemType.Name() == "found";
    assert [x][1..] == [];
    assert Filter([x], pl) == if pl(x) then [x] else [];
    assert Filter([x], pf) == if pf(x) then [x] else [];
  }

  /** Every report is lost or found, so the two counts add up to the list. */
  lemma {:induction false} CountsAddUp(items: seq<Item>)
    ensures CountOf(items, Lost) + CountOf(items, Found) == |items|
  {
    if items != [] {
      var x := items[0];
      CountsAddUp(items[1..]);
      OneCountsOnce(x);
      assert items == [x] + items[1..];
      FilterAppend([x], items[1..], (it: Item) => it.itemType.Name() == "lost");
      FilterAppend([x], items[1..], (it: Item) => it.itemType.Name() == "found");
    }
  }
}
