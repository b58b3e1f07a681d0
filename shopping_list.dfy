/** The shopping-list screen: the list of items, the comparator sort that
    orders it for display, and the three list transforms behind the
    submit, delete and toggle-complete handlers. */
module ShoppingList {
  import opened JsValues

  /** One entry of the list. `id` comes from a time-of-day string and is
      not assumed unique. */
  datatype Item = Item(
    id: string,
    name: string,
    completedAtTimestamp: Option<int>,
    lastUpdatedTimestamp: int)

  /** `Boolean(item.completedAtTimestamp)`: the item shows as completed.
      A stamp of 0 is falsy, so such an item counts as not completed. */
  predicate IsCompleted(x: Item)
    ensures IsCompleted(x) ==> x.completedAtTimestamp.Some?
    ensures x.completedAtTimestamp == Some(0) ==> !IsCompleted(x)
    ensures x.completedAtTimestamp.Some? && x.completedAtTimestamp.value != 0 ==> IsCompleted(x)
  {
    TruthyNumber(x.completedAtTimestamp)
  }

  // ---------------------------------------------------------------------
  // Ordering

  /** The comparator passed to `sort`: a negative result puts `x` first.
      The four cases cover every pair, so the trailing `return 0` of the
      source is dead code. */
  function Compare(x: Item, y: Item): (r: int)
    ensures r == 0 ==>
      (IsCompleted(x) && IsCompleted(y) && x.completedAtTimestamp == y.completedAtTimestamp) ||
      (!IsCompleted(x) && !IsCompleted(y) && x.lastUpdatedTimestamp == y.lastUpdatedTimestamp)
  {
    if IsCompleted(x) && IsCompleted(y) then
      y.completedAtTimestamp.value - x.completedAtTimestamp.value
    else if IsCompleted(x) && !IsCompleted(y) then
      1
    else if !IsCompleted(x) && IsCompleted(y) then
      -1
    else if !IsCompleted(x) && !IsCompleted(y) then
      y.lastUpdatedTimestamp - x.lastUpdatedTimestamp
    else
      assert false; 0
  }

  /** The display rule stated on its own: incomplete items come before
      completed ones; among incomplete items the most recently updated
      comes first; among completed items the most recently completed. */
  predicate MayPrecede(x: Item, y: Item) {
    if IsCompleted(x) != IsCompleted(y) then
      !IsCompleted(x)
    else if IsCompleted(x) then
      x.completedAtTimestamp.value >= y.completedAtTimestamp.value
    else
      x.lastUpdatedTimestamp >= y.lastUpdatedTimestamp
  }

  lemma CompareAgreesWithRule(x: Item, y: Item)
    ensures Compare(x, y) <= 0 <==> MayPrecede(x, y)
    ensures Compare(x, y) < 0 <==> MayPrecede(x, y) && !MayPrecede(y, x)
  {
  }

  /** The comparator is antisymmetric and total, and its "not after"
      relation is transitive: a consistent comparator in the sense the
      sort needs. */
  lemma CompareIsConsistent(x: Item, y: Item, z: Item)
    ensures Compare(x, y) == -Compare(y, x)
    ensures Compare(x, y) <= 0 || Compare(y, x) <= 0
    ensures Compare(x, y) <= 0 && Compare(y, z) <= 0 ==> Compare(x, z) <= 0
  {
  }

  /** What the sort guarantees: no pair is left in an order the comparator
      rejects. */
  predicate Sorted(s: seq<Item>) {
    forall i, j :: 0 <= i < j < |s| ==> Compare(s[i], s[j]) <= 0
  }

  /** A sorted list shows every incomplete item above every completed one,
      the completed block newest completion first and the incomplete block
      newest update first. */
  lemma SortedLayout(s: seq<Item>)
    requires Sorted(s)
    ensures forall i, j :: 0 <= i < j < |s| ==> !(IsCompleted(s[i]) && !IsCompleted(s[j]))
    ensures forall i, j :: 0 <= i < j < |s| && IsCompleted(s[i]) && IsCompleted(s[j]) ==>
      s[i].completedAtTimestamp.value >= s[j].completedAtTimestamp.value
    ensures forall i, j :: 0 <= i < j < |s| && !IsCompleted(s[i]) && !IsCompleted(s[j]) ==>
      s[i].lastUpdatedTimestamp >= s[j].lastUpdatedTimestamp
  {
    forall i, j | 0 <= i < j < |s| ensures MayPrecede(s[i], s[j]) {
      CompareAgreesWithRule(s[i], s[j]);
    }
  }

  /** `orderShoppingList`: `Array.prototype.sort` with `Compare`, in place.
      Modelled as a stable insertion sort; a stable sort leaves an already
      sorted array as it is, so ordering twice equals ordering once. */
  method OrderShoppingList(a: array<Item>)
    modifies a
    ensures Sorted(a[..])
    ensures multiset(a[..]) == multiset(old(a[..]))
    ensures Sorted(old(a[..])) ==> a[..] == old(a[..])
  {
    var i := 0;
    while i < a.Length
      invariant 0 <= i <= a.Length
      invariant Sorted(a[..i])
      invariant multiset(a[..]) == multiset(old(a[..]))
      invariant Sorted(old(a[..])) ==> a[..] == old(a[..])
    {
      InsertLast(a, i);
      i := i + 1;
    }
    assert a[..a.Length] == a[..];
  }

  /** While `a[i]` is being moved left to position `j`: every pair within
      `s[..hi+1]` not involving position `j` is in order. */
  predicate SortedExcept(s: seq<Item>, hi: int, j: int)
    requires 0 <= j <= hi < |s|
  {
    forall k, l :: 0 <= k < l <= hi && k != j && l != j ==> Compare(s[k], s[l]) <= 0
  }

  /** The element being moved is in order with everything it has passed. */
  predicate InOrderWithRest(s: seq<Item>, hi: int, j: int)
    requires 0 <= j <= hi < |s|
  {
    forall l :: j < l <= hi ==> Compare(s[j], s[l]) <= 0
  }

  lemma SwapStep(s: seq<Item>, hi: int, j: int)
    requires 0 < j <= hi < |s|
    requires SortedExcept(s, hi, j) && InOrderWithRest(s, hi, j)
    requires Compare(s[j - 1], s[j]) > 0
    ensures SortedExcept(s[j - 1 := s[j]][j := s[j - 1]], hi, j - 1)
    ensures InOrderWithRest(s[j - 1 := s[j]][j := s[j - 1]], hi, j - 1)
  {
    CompareIsConsistent(s[j - 1], s[j], s[j]);
  }

  lemma InsertDone(s: seq<Item>, hi: int, j: int)
    requires 0 <= j <= hi < |s|
    requires SortedExcept(s, hi, j) && InOrderWithRest(s, hi, j)
    requires j == 0 || Compare(s[j - 1], s[j]) <= 0
    ensures Sorted(s[..hi + 1])
  {
    forall k, l | 0 <= k < l <= hi ensures Compare(s[k], s[l]) <= 0 {
      if l == j && k < j - 1 {
        CompareIsConsistent(s[k], s[j - 1], s[j]);
      }
    }
  }

  method SwapAdjacent(a: array<Item>, j: int)
    requires 0 < j < a.Length
    modifies a
    ensures a[..] == old(a[..])[j - 1 := old(a[j])][j := old(a[j - 1])]
    ensures multiset(a[..]) == multiset(old(a[..]))
  {
    a[j - 1], a[j] := a[j], a[j - 1];
  }

  /** Moves `a[i]` left past every element the comparator puts after it,
      so that `a[..i+1]` becomes sorted. */
  method InsertLast(a: array<Item>, i: int)
    requires 0 <= i < a.Length
    requires Sorted(a[..i])
    modifies a
    ensures Sorted(a[..i + 1])
    ensures a[i + 1..] == old(a[i + 1..])
    ensures multiset(a[..]) == multiset(old(a[..]))
    ensures Sorted(old(a[..i + 1])) ==> a[..] == old(a[..])
  {
    ghost var orig := a[..];
    ghost var wasSorted := Sorted(orig[..i + 1]);
    if wasSorted && i > 0 {
      assert orig[..i + 1][i - 1] == a[i - 1] && orig[..i + 1][i] == a[i];
    }
    var j := i;
    assert SortedExcept(a[..], i, j);
    while j > 0 && Compare(a[j - 1], a[j]) > 0
      invariant 0 <= j <= i
      invariant SortedExcept(a[..], i, j) && InOrderWithRest(a[..], i, j)
      invariant a[i + 1..] == orig[i + 1..]
      invariant multiset(a[..]) == multiset(orig)
      invariant wasSorted ==> j == i && a[..] == orig && (i == 0 || Compare(a[i - 1], a[i]) <= 0)
    {
      SwapStep(a[..], i, j);
      SwapAdjacent(a, j);
      j := j - 1;
    }
    InsertDone(a[..], i, j);
    assert a[..][..i + 1] == a[..i + 1];
  }

  // ---------------------------------------------------------------------
  // List transforms

  /** `handleSubmit`: an empty input leaves the list alone; otherwise a new
      incomplete item named after the input, stamped `now`, goes in front
      of the old list. */
  function Submit(list: seq<Item>, input: string, id: string, now: int): (r: seq<Item>)
    ensures input == "" ==> r == list
    ensures input != "" ==>
      && |r| == |list| + 1
      && r[1..] == list
      && r[0].id == id && r[0].name == input
      && r[0].completedAtTimestamp == None && !IsCompleted(r[0])
      && r[0].lastUpdatedTimestamp == now
  {
    if input != "" then [Item(id, input, None, now)] + list else list
  }

  /** `handleDelete`: `filter` on `item.id !== id`. No survivor carries
      the id, and a list without the id is returned as it was. */
  function Delete(list: seq<Item>, id: string): (r: seq<Item>)
    ensures |r| <= |list|
    ensures forall k :: 0 <= k < |r| ==> r[k].id != id
    ensures (forall k :: 0 <= k < |list| ==> list[k].id != id) ==> r == list
  {
    if list == [] then
      []
    else
      var rest := Delete(list[1..], id);
      assert (forall k :: 0 <= k < |list| ==> list[k].id != id) ==>
        forall k :: 0 <= k < |list[1..]| ==> list[1..][k] == list[k + 1];
      if list[0].id != id then [list[0]] + rest else rest
  }

  /** Every item carrying the id goes, and every other item stays exactly
      as often as it was there. */
  lemma {:induction false} DeleteCounts(list: seq<Item>, id: string)
    ensures forall x :: multiset(Delete(list, id))[x] == if x.id == id then 0 else multiset(list)[x]
  {
    if list != [] {
      DeleteCounts(list[1..], id);
      assert list == [list[0]] + list[1..];
    }
  }

  /** Filtering distributes over concatenation, so the survivors keep
      their original relative order. */
  lemma {:induction false} DeleteAppend(a: seq<Item>, b: seq<Item>, id: string)
    ensures Delete(a + b, id) == Delete(a, id) + Delete(b, id)
  {
    if a == [] {
      assert a + b == b;
    } else {
      assert (a + b)[1..] == a[1..] + b;
      DeleteAppend(a[1..], b, id);
    }
  }

  lemma {:induction false} DeleteIdempotent(list: seq<Item>, id: string)
    ensures Delete(Delete(list, id), id) == Delete(list, id)
  {
    if list != [] {
      DeleteIdempotent(list[1..], id);
    }
  }

  /** Ids are not unique: deleting the id of a freshly submitted item also
      removes every older item that happens to carry the same id. */
  lemma DeleteAfterSubmit(list: seq<Item>, input: string, id: string, now: int)
    ensures Delete(Submit(list, input, id, now), id) == Delete(list, id)
  {
    if input != "" {
      assert Submit(list, input, id, now)[1..] == list;
    }
  }

  /** The item after `handleToggleComplete` touched it: a completed item
      becomes incomplete, any other item is completed at `now`, and the
      last-updated stamp is refreshed either way. */
  function ToggleItem(x: Item, now: int): (y: Item)
    ensures y.id == x.id && y.name == x.name && y.lastUpdatedTimestamp == now
    ensures IsCompleted(x) ==> y.completedAtTimestamp == None
    ensures !IsCompleted(x) ==> y.completedAtTimestamp == Some(now)
    ensures now != 0 ==> (IsCompleted(y) <==> !IsCompleted(x))
  {
    x.(completedAtTimestamp := if IsCompleted(x) then None else Some(now),
       lastUpdatedTimestamp := now)
  }

  /** `handleToggleComplete`: `map` that toggles every item carrying the id
      and passes every other item through unchanged, in place. */
  function Toggle(list: seq<Item>, id: string, now: int): (r: seq<Item>)
    ensures |r| == |list|
    ensures forall k :: 0 <= k < |list| ==>
      r[k] == if list[k].id == id then ToggleItem(list[k], now) else list[k]
  {
    if list == [] then
      []
    else
      var head := if list[0].id == id then ToggleItem(list[0], now) else list[0];
      [head] + Toggle(list[1..], id, now)
  }

  /** Toggling twice with non-zero clock readings restores each matching
      item's completion state; one that started incomplete is left with no
      completion stamp at all. Names, ids and other items are untouched. */
  lemma ToggleTwice(list: seq<Item>, id: string, t1: int, t2: int)
    requires t1 != 0 && t2 != 0
    ensures var r := Toggle(Toggle(list, id, t1), id, t2);
      && |r| == |list|
      && forall k :: 0 <= k < |list| ==>
        && r[k].id == list[k].id && r[k].name == list[k].name
        && (list[k].id == id ==>
              && (IsCompleted(r[k]) <==> IsCompleted(list[k]))
              && (!IsCompleted(list[k]) ==> r[k].completedAtTimestamp == None)
              && r[k].lastUpdatedTimestamp == t2)
        && (list[k].id != id ==> r[k] == list[k])
  {
  }

  /** Toggling never changes an id, so it never changes what a delete of
      the same id removes. */
  lemma {:induction false} DeleteAfterToggle(list: seq<Item>, id: string, now: int)
    ensures Delete(Toggle(list, id, now), id) == Delete(list, id)
  {
    if list != [] {
      var r := Toggle(list, id, now);
      assert r[1..] == Toggle(list[1..], id, now);
      DeleteAfterToggle(list[1..], id, now);
    }
  }

  /** A newly submitted item is shown at the top once the list is ordered,
      provided its stamp is later than every other stamp. */
  lemma NewItemShownFirst(list: seq<Item>, input: string, id: string, now: int, shown: seq<Item>)
    requires input != ""
    requires forall k :: 0 <= k < |list| ==> list[k].lastUpdatedTimestamp < now
    requires Sorted(shown) && multiset(shown) == multiset(Submit(list, input, id, now))
    ensures shown != [] && shown[0] == Item(id, input, None, now)
  {
    var added := Item(id, input, None, now);
    var submitted := Submit(list, input, id, now);
    assert added == submitted[0] && added in multiset(submitted);
    assert added in multiset(shown);
    var p :| 0 <= p < |shown| && shown[p] == added;
    assert submitted == [added] + list;
    assert shown[0] in multiset(submitted);
  }

  // ---------------------------------------------------------------------
  // Screen state

  /** The screen component: the text input and the list held in state. */
  class ShoppingListScreen {
    var item: string
    var shoppingList: seq<Item>

    constructor ()
      ensures item == "" && shoppingList == []
    {
      item := "";
      shoppingList := [];
    }

    /** The stored list read at mount: `None` when storage holds nothing,
        in which case the empty list stays. */
    method FetchInitial(data: Option<seq<Item>>)
      modifies this
      ensures shoppingList == (if data.Some? then data.value else old(shoppingList))
      ensures item == old(item)
    {
      if data.Some? {
        shoppingList := data.value;
      }
    }

    /** `onChangeText={setItem}`. */
    method SetItem(text: string)
      modifies this
      ensures item == text && shoppingList == old(shoppingList)
    {
      item := text;
    }

    /** `handleSubmit`; `saved` is what goes to storage, if anything. */
    method HandleSubmit(id: string, now: int) returns (saved: Option<seq<Item>>)
      modifies this
      ensures old(item) == "" ==> saved == None && item == old(item) && shoppingList == old(shoppingList)
      ensures old(item) != "" ==>
        && shoppingList == Submit(old(shoppingList), old(item), id, now)
        && saved == Some(shoppingList)
        && item == ""
    {
      saved := None;
      if item != "" {
        var newShoppingList := Submit(shoppingList, item, id, now);
        saved := Some(newShoppingList);
        shoppingList := newShoppingList;
        item := "";
      }
    }

    /** `handleDelete`. */
    method HandleDelete(id: string) returns (saved: seq<Item>)
      modifies this
      ensures shoppingList == Delete(old(shoppingList), id) && saved == shoppingList
      ensures item == old(item)
    {
      saved := Delete(shoppingList, id);
      shoppingList := saved;
    }

    /** `handleToggleComplete`. */
    method HandleToggleComplete(id: string, now: int) returns (saved: seq<Item>)
      modifies this
      ensures shoppingList == Toggle(old(shoppingList), id, now) && saved == shoppingList
      ensures item == old(item)
    {
      saved := Toggle(shoppingList, id, now);
      shoppingList := saved;
    }

    /** The render: `orderShoppingList(shoppingList)` sorts the state array
        itself, so the list held in state is reordered, and the displayed
        list is that same array. */
    method Render() returns (shown: seq<Item>)
      modifies this
      ensures shown == shoppingList && item == old(item)
      ensures Sorted(shown) && multiset(shown) == multiset(old(shoppingList))
      ensures Sorted(old(shoppingList)) ==> shown == old(shoppingList)
    {
      var s := shoppingList;
      var a := new Item[|s|](k requires 0 <= k < |s| => s[k]);
      assert a[..] == s;
      OrderShoppingList(a);
      shoppingList := a[..];
      shown := shoppingList;
    }
  }
}
