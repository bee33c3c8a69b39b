/**
 The item record of the store and the rule that derives its total.
 Prices and taxes are whole numbers of the smallest currency unit (cents)
 rather than binary floating point.
 */
module Items {
  import opened Wrappers

  /** The body of a create or update request: what the client supplies. */
  datatype Payload = Payload(
    name: string,
    description: Option<string>,
    price: int,
    tax: Option<int>)

  /** A stored item: the payload's fields, the id the store assigned and the derived total. */
  datatype Item = Item(
    id: int,
    name: string,
    description: Option<string>,
    price: int,
    tax: Option<int>,
    total: int)

  /** Python truthiness of the optional tax: an absent tax and a zero tax are both falsy. */
  predicate TaxIsTruthy(tax: Option<int>) {
    tax.Some? && tax.value != 0
  }

  /**
   The total rule of create and update: start from the price and add the tax
   only when it is truthy. On whole numbers skipping a zero tax changes nothing,
   so the total is always the price plus the tax, an absent tax counting as zero.
   */
  function Total(p: Payload): (t: int)
    ensures t == p.price + p.tax.GetOr(0)
    ensures p.tax == None || p.tax == Some(0) ==> t == p.price
  {
    if TaxIsTruthy(p.tax) then p.price + p.tax.value else p.price
  }

  /** The client-supplied part of a stored item. */
  function ToPayload(it: Item): Payload {
    Payload(it.name, it.description, it.price, it.tax)
  }

  /** A stored item whose total is the one its own price and tax determine. */
  predicate TotalHolds(it: Item) {
    it.total == Total(ToPayload(it))
  }

  /**
   The record create and update store under `id`: every client field is taken
   from the payload and the total is recomputed, so it is never stale.
   */
  function MakeItem(id: int, p: Payload): (it: Item)
    ensures it.id == id
    ensures ToPayload(it) == p
    ensures it.total == p.price + p.tax.GetOr(0)
    ensures TotalHolds(it)
  {
    Item(id, p.name, p.description, p.price, p.tax, Total(p))
  }
}
