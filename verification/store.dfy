/**
 The in-memory item store: an ordered sequence of items and the counter that
 supplies the next id. Every operation is a pure function from the store before
 the call to the store after it, together with what the call answers.
 */
module ItemStore {
  import opened Wrappers
  import opened Items

  /** The whole state: the items in insertion order and the next id to hand out. */
  datatype Store = Store(items: seq<Item>, counter: int)

  /** What a by-id operation answers: the item it found (or removed), or that no item has the id. */
  datatype Lookup = Found(item: Item) | NotFound

  /** The store after a call, paired with the call's answer. */
  datatype Outcome<+R> = Outcome(store: Store, result: R)

  // ----- Invariants -------------------------------------------------------

  /** Every stored id is positive and strictly below the counter, so the counter never names a stored item. */
  ghost predicate IdsBelowCounter(s: Store) {
    forall i :: 0 <= i < |s.items| ==> 1 <= s.items[i].id < s.counter
  }

  /** Ids grow along the sequence: the position order is the creation order. */
  ghost predicate IdsIncreasing(items: seq<Item>) {
    forall i, j :: 0 <= i < j < |items| ==> items[i].id < items[j].id
  }

  /** No two positions hold the same id. */
  ghost predicate IdsUnique(items: seq<Item>) {
    forall i, j :: 0 <= i < |items| && 0 <= j < |items| && i != j ==> items[i].id != items[j].id
  }

  /** Every stored total agrees with its own price and tax. */
  ghost predicate TotalsHold(items: seq<Item>) {
    forall i :: 0 <= i < |items| ==> TotalHolds(items[i])
  }

  /** The invariant every reachable store satisfies. */
  ghost predicate Valid(s: Store) {
    && s.counter >= 1
    && IdsBelowCounter(s)
    && IdsIncreasing(s.items)
    && TotalsHold(s.items)
  }

  /** Position `k` is where a front-to-back scan for `id` stops: the first item carrying it. */
  ghost predicate FirstAt(items: seq<Item>, id: int, k: int) {
    && 0 <= k < |items|
    && items[k].id == id
    && forall j :: 0 <= j < k ==> items[j].id != id
  }

  /** No stored item carries `id`. */
  ghost predicate Absent(items: seq<Item>, id: int) {
    forall j :: 0 <= j < |items| ==> items[j].id != id
  }

  /** Increasing ids are unique ids. */
  lemma ValidIdsUnique(s: Store)
    requires Valid(s)
    ensures IdsUnique(s.items)
  {
  }

  // ----- The scan shared by get, update and delete ------------------------

  /**
   A front-to-back scan of the items: the index of the first item whose id
   equals `id`, or None when no item has it.
   */
  function FindIndex(items: seq<Item>, id: int): (r: Option<nat>)
    ensures r.None? <==> Absent(items, id)
    ensures r.Some? ==> FirstAt(items, id, r.value)
  {
    if |items| == 0 then None
    else if items[0].id == id then Some(0)
    else
      match FindIndex(items[1..], id)
      case None => None
      case Some(k) => Some(k + 1)
  }

  /** In a store whose ids are unique, any position holding `id` is the one the scan finds. */
  lemma FindIndexUnique(items: seq<Item>, id: int, k: int)
    requires IdsUnique(items)
    requires 0 <= k < |items| && items[k].id == id
    ensures FindIndex(items, id) == Some(k)
  {
  }

  // ----- Operations -------------------------------------------------------

  /** The state at process start: no items, and the first id handed out will be 1. */
  function Init(): (s: Store)
    ensures s.items == [] && s.counter == 1
    ensures Valid(s)
  {
    Store([], 1)
  }

  /** Every stored item, in insertion order. */
  function List(s: Store): seq<Item> {
    s.items
  }

  /** The first item with the given id, or NotFound when none has it. */
  function Get(s: Store, id: int): (r: Lookup)
    ensures r.NotFound? <==> Absent(s.items, id)
    ensures r.Found? ==> exists k :: FirstAt(s.items, id, k) && r.item == s.items[k]
  {
    match FindIndex(s.items, id)
    case None => NotFound
    case Some(k) => Found(s.items[k])
  }

  /**
   Creates an item from the payload under the counter's id, appends it after
   every existing item and advances the counter by one.
   */
  function Create(s: Store, p: Payload): (o: Outcome<Item>)
    ensures o.result.id == s.counter
    ensures ToPayload(o.result) == p
    ensures o.result.total == p.price + p.tax.GetOr(0)
    ensures |o.store.items| == |s.items| + 1
    ensures o.store.items[..|s.items|] == s.items
    ensures o.store.items[|s.items|] == o.result
    ensures o.store.counter == s.counter + 1
  {
    var it := MakeItem(s.counter, p);
    Outcome(Store(s.items + [it], s.counter + 1), it)
  }

  /**
   Replaces the fields of the first item with the given id by the payload's,
   recomputing the total and keeping the id and the position. When no item has
   the id, the store is left exactly as it was.
   */
  function Update(s: Store, id: int, p: Payload): (o: Outcome<Lookup>)
    ensures o.store.counter == s.counter
    ensures |o.store.items| == |s.items|
    ensures o.result.NotFound? <==> Absent(s.items, id)
    ensures o.result.NotFound? ==> o.store == s
    ensures o.result.Found? ==>
      && o.result.item.id == id
      && ToPayload(o.result.item) == p
      && o.result.item.total == p.price + p.tax.GetOr(0)
    ensures o.result.Found? ==>
      exists k :: FirstAt(s.items, id, k)
        && o.store.items[k] == o.result.item
        && forall j :: 0 <= j < |s.items| && j != k ==> o.store.items[j] == s.items[j]
  {
    match FindIndex(s.items, id)
    case None => Outcome(s, NotFound)
    case Some(k) =>
      var it := MakeItem(id, p);
      Outcome(Store(s.items[k := it], s.counter), Found(it))
  }

  /**
   Removes the first item with the given id and answers the removed item; the
   items after it move one place toward the front and keep their ids. When no
   item has the id, the store is left exactly as it was.
   */
  function Delete(s: Store, id: int): (o: Outcome<Lookup>)
    ensures o.store.counter == s.counter
    ensures o.result.NotFound? <==> Absent(s.items, id)
    ensures o.result.NotFound? ==> o.store == s
    ensures o.result.Found? ==>
      && |o.store.items| == |s.items| - 1
      && multiset(o.store.items) + multiset{o.result.item} == multiset(s.items)
    ensures o.result.Found? ==>
      exists k :: FirstAt(s.items, id, k)
        && o.result.item == s.items[k]
        && (forall j :: 0 <= j < k ==> o.store.items[j] == s.items[j])
        && (forall j :: k < j < |s.items| ==> o.store.items[j - 1] == s.items[j])
  {
    match FindIndex(s.items, id)
    case None => Outcome(s, NotFound)
    case Some(k) =>
      assert s.items == s.items[..k] + [s.items[k]] + s.items[k + 1..];
      Outcome(Store(s.items[..k] + s.items[k + 1..], s.counter), Found(s.items[k]))
  }

  // ----- Properties -------------------------------------------------------

  /** Create keeps the invariant: the new id is above every stored id and becomes the counter's old value. */
  lemma CreatePreservesValid(s: Store, p: Payload)
    requires Valid(s)
    ensures Valid(Create(s, p).store)
  {
  }

  /** Update keeps the invariant: ids do not move and the replaced total is recomputed. */
  lemma UpdatePreservesValid(s: Store, id: int, p: Payload)
    requires Valid(s)
    ensures Valid(Update(s, id, p).store)
  {
  }

  /** Delete keeps the invariant: removing an element keeps the others in order and below the counter. */
  lemma DeletePreservesValid(s: Store, id: int)
    requires Valid(s)
    ensures Valid(Delete(s, id).store)
  {
  }

  /** Getting the id create just handed out answers the created item. */
  lemma GetAfterCreate(s: Store, p: Payload)
    requires Valid(s)
    ensures var o := Create(s, p); Get(o.store, o.result.id) == Found(o.result)
  {
  }

  /** Create leaves what every other id answers unchanged. */
  lemma CreateLeavesOtherIds(s: Store, p: Payload, other: int)
    requires Valid(s)
    requires other != s.counter
    ensures Get(Create(s, p).store, other) == Get(s, other)
  {
  }

  /** After a successful update, getting its id answers the updated item. */
  lemma GetAfterUpdate(s: Store, id: int, p: Payload)
    requires Valid(s)
    ensures var o := Update(s, id, p); o.result.Found? ==> Get(o.store, id) == o.result
  {
  }

  /** Update leaves what every other id answers unchanged. */
  lemma UpdateLeavesOtherIds(s: Store, id: int, p: Payload, other: int)
    requires Valid(s)
    requires other != id
    ensures Get(Update(s, id, p).store, other) == Get(s, other)
  {
  }

  /** After a delete, getting the same id answers NotFound, whether or not the delete found it. */
  lemma GetAfterDelete(s: Store, id: int)
    requires Valid(s)
    ensures Get(Delete(s, id).store, id) == NotFound
  {
  }

  /** Delete leaves what every other id answers unchanged. */
  lemma DeleteLeavesOtherIds(s: Store, id: int, other: int)
    requires Valid(s)
    requires other != id
    ensures Get(Delete(s, id).store, other) == Get(s, other)
  {
  }

  /**
   List and get agree: every listed item is what getting its id answers, and
   whatever get finds is in the list.
   */
  lemma ListAgreesWithGet(s: Store)
    requires Valid(s)
    ensures forall i :: 0 <= i < |List(s)| ==> Get(s, List(s)[i].id) == Found(List(s)[i])
    ensures forall id :: Get(s, id).Found? ==> Get(s, id).item in List(s)
  {
  }
}
