/**
 The item endpoints as a sequential state machine: each request is dispatched
 to one store operation, and a run applies a sequence of requests in order,
 starting from a given store.
 */
module Service {
  import opened Wrappers
  import opened Items
  import opened ItemStore

  /** One call of the item endpoints, after its body has been validated. */
  datatype Request =
    | ListItems
    | GetItem(id: int)
    | CreateItem(payload: Payload)
    | UpdateItem(id: int, payload: Payload)
    | DeleteItem(id: int)

  /** What a call answers, in place of the endpoints' JSON shapes. */
  datatype Response =
    | Listed(items: seq<Item>)
    | Created(item: Item)
    | Answered(lookup: Lookup)

  /** Dispatches one request to the store operation its endpoint runs. */
  function Handle(s: Store, req: Request): (o: Outcome<Response>)
    ensures !req.CreateItem? ==> o.store.counter == s.counter
    ensures req.CreateItem? ==>
      && o.result.Created?
      && o.result.item.id == s.counter
      && o.store.counter == s.counter + 1
    ensures req.ListItems? || req.GetItem? ==> o.store == s
  {
    match req
    case ListItems => Outcome(s, Listed(List(s)))
    case GetItem(id) => Outcome(s, Answered(Get(s, id)))
    case CreateItem(p) =>
      var c := Create(s, p);
      Outcome(c.store, Created(c.result))
    case UpdateItem(id, p) =>
      var u := Update(s, id, p);
      Outcome(u.store, Answered(u.result))
    case DeleteItem(id) =>
      var d := Delete(s, id);
      Outcome(d.store, Answered(d.result))
  }

  /** Applies the requests in order and collects their responses. */
  function Run(s: Store, reqs: seq<Request>): Outcome<seq<Response>>
    decreases |reqs|
  {
    if |reqs| == 0 then Outcome(s, [])
    else
      var first := Handle(s, reqs[0]);
      var rest := Run(first.store, reqs[1..]);
      Outcome(rest.store, [first.result] + rest.result)
  }

  /** The ids create handed out, in the order of the responses. */
  function CreatedIds(rs: seq<Response>): seq<int> {
    if |rs| == 0 then []
    else if rs[0].Created? then [rs[0].item.id] + CreatedIds(rs[1..])
    else CreatedIds(rs[1..])
  }

  /** One request keeps the store invariant. */
  lemma HandlePreservesValid(s: Store, req: Request)
    requires Valid(s)
    ensures Valid(Handle(s, req).store)
  {
    match req
    case ListItems =>
    case GetItem(id) =>
    case CreateItem(p) => CreatePreservesValid(s, p);
    case UpdateItem(id, p) => UpdatePreservesValid(s, id, p);
    case DeleteItem(id) => DeletePreservesValid(s, id);
  }

  /** Every run from a valid store ends in a valid store: ids stay unique, ordered and below the counter. */
  lemma {:induction false} RunPreservesValid(s: Store, reqs: seq<Request>)
    requires Valid(s)
    ensures Valid(Run(s, reqs).store)
    decreases |reqs|
  {
    if |reqs| > 0 {
      HandlePreservesValid(s, reqs[0]);
      RunPreservesValid(Handle(s, reqs[0]).store, reqs[1..]);
    }
  }

  /**
   Creates hand out consecutive ids starting at the counter, whatever gets,
   updates and deletes come in between, and the counter ends one past the last
   id handed out: no id is ever handed out twice.
   */
  lemma {:induction false} CreatedIdsConsecutive(s: Store, reqs: seq<Request>)
    ensures var o := Run(s, reqs);
      && o.store.counter == s.counter + |CreatedIds(o.result)|
      && forall i :: 0 <= i < |CreatedIds(o.result)| ==> CreatedIds(o.result)[i] == s.counter + i
    decreases |reqs|
  {
    if |reqs| > 0 {
      var first := Handle(s, reqs[0]);
      var rest := Run(first.store, reqs[1..]);
      CreatedIdsConsecutive(first.store, reqs[1..]);
      assert ([first.result] + rest.result)[1..] == rest.result;
    }
  }

  /** From a fresh store the n-th create (counting from 0) answers id n + 1. */
  lemma CreatedIdsFromInit(reqs: seq<Request>)
    ensures var ids := CreatedIds(Run(Init(), reqs).result);
      forall i :: 0 <= i < |ids| ==> ids[i] == i + 1
  {
    CreatedIdsConsecutive(Init(), reqs);
  }

  /**
   Every store reachable from process start keeps the invariant; in particular
   no two stored items share an id.
   */
  lemma ReachableStoresValid(reqs: seq<Request>)
    ensures Valid(Run(Init(), reqs).store)
    ensures IdsUnique(Run(Init(), reqs).store.items)
  {
    RunPreservesValid(Init(), reqs);
    ValidIdsUnique(Run(Init(), reqs).store);
  }

  // ----- Scenarios --------------------------------------------------------

  /** The widget used by the scenarios below, priced 10.00 with 1.00 tax, in cents. */
  function Widget(): Payload {
    Payload("Widget", None, 1000, Some(100))
  }

  /** Creating the widget in a fresh store answers id 1 and total 11.00. */
  lemma CreateWidgetScenario()
    ensures Create(Init(), Widget()).result == Item(1, "Widget", None, 1000, Some(100), 1100)
  {
  }

  /** Getting id 999 in a fresh store answers NotFound. */
  lemma GetMissScenario()
    ensures Get(Init(), 999) == NotFound
  {
  }

  /** Updating id 1 without a tax keeps the id and makes the total the new price. */
  lemma UpdateWidgetScenario()
    ensures var s := Create(Init(), Widget()).store;
      Update(s, 1, Payload("Widget2", None, 2000, None)).result
        == Found(Item(1, "Widget2", None, 2000, None, 2000))
  {
  }

  /** Create A, create B, delete A, create C leaves exactly B and C, in that order, with ids 2 and 3. */
  lemma ListOrderScenario(a: Payload, b: Payload, c: Payload)
    ensures var s1 := Create(Init(), a).store;
      var s2 := Create(s1, b).store;
      var s3 := Delete(s2, 1).store;
      var s4 := Create(s3, c).store;
      List(s4) == [MakeItem(2, b), MakeItem(3, c)]
  {
    var s1 := Create(Init(), a).store;
    var s2 := Create(s1, b).store;
    assert s2.items == [MakeItem(1, a), MakeItem(2, b)];
    assert FindIndex(s2.items, 1) == Some(0);
  }
}
