# Item store

A Dafny model of the in-memory item store behind a small FastAPI CRUD service.
The service keeps an ordered list of item records and a counter that supplies
the next id. Five endpoints act on that state: list, get by id, create, update
by id and delete by id. The model treats the store as an immutable value
`Store(items, counter)`. Each operation is a pure function that returns the new
store together with its answer. A by-id answer is `Found(item)` or `NotFound`,
in place of the endpoints' `{"error": "Item not found"}` body.

- `wrappers.dfy`: `Option`, which stands for Python's `None`.
- `items.dfy` (module `Items`): the request body (`Payload`), the stored
  record (`Item`) and the total rule.
- `store.dfy` (module `ItemStore`): the store, its invariant `Valid`, the
  linear scan, the five operations and their properties.
- `service.dfy` (module `Service`): requests dispatched to operations, runs of
  request sequences, the id-allocation property over whole runs, and the
  worked examples.

Money is an integer number of cents. The total rule keeps the source's
"add the tax only if it is truthy" branch, and `Items.Total` proves that on
integers this always equals price plus tax, with an absent tax counting as
zero. So a zero tax and an absent tax give the same total, but the item still
stores the tax exactly as it was given (`Some(0)` or `None`).

`Valid` is the invariant of every reachable store:
- the counter is at least 1;
- every stored id lies in `1 .. counter-1`;
- ids strictly increase along the list, so list order is creation order and
  ids are unique;
- every stored total matches its own price and tax.

Get, update and delete stop at the FIRST item with the id, as the source's
early-returning `for` loops do. Under `Valid` the first such item is the only one.

The source declares `name` as a plain `str`, which accepts the empty string,
and the model puts no restriction on it.

## Model

| member | source | states |
|---|---|---|
| `ItemStore.Init` | src/main.py:24-25 | A fresh store has no items and its counter is 1. It satisfies the store invariant. |
| `Items.Total` | src/main.py:50-52 | The total is the price plus the tax, with an absent tax counting as zero. When the tax is absent or zero, the total is the price. |
| `Items.MakeItem` | src/main.py:54-61 | The stored record has the given id. Its name, description, price and tax are the payload's. Its total is recomputed from the payload. |
| `ItemStore.FindIndex` | src/main.py:41-42 | The scan answers None exactly when no item has the id. Otherwise it answers the index of the first item with that id. |
| `ItemStore.FindIndexUnique` | src/main.py:41-43 | When ids are unique, the scan finds the position that holds the id. |
| `ItemStore.Get` | src/main.py:39-44 | Get answers NotFound exactly when no item has the id. Otherwise it answers the first item with that id. |
| `ItemStore.Create` | src/main.py:47-66 | The new item's id is the counter before the call. Its fields come from the payload and its total is price plus tax. It is appended after an unchanged prefix, and the counter goes up by exactly 1. |
| `ItemStore.Update` | src/main.py:69-87 | On a hit, the first matching item is replaced at the same index. The replacement keeps the id, takes its fields from the payload and gets a recomputed total. All other elements and the counter are unchanged. On a miss (no item has the id), the answer is NotFound and the store is unchanged. |
| `ItemStore.Delete` | src/main.py:90-96 | On a hit, the first matching item is removed and returned. Items before it keep their positions. Items after it move one place toward the front. The multiset of items loses exactly the removed one, and the counter is unchanged. On a miss (no item has the id), the answer is NotFound and the store is unchanged. |
| `ItemStore.ValidIdsUnique` | src/main.py:55-64 | In a valid store no two positions hold the same id. |
| `ItemStore.CreatePreservesValid` | src/main.py:55-64 | Create keeps the invariant. Ids stay in `1 .. counter-1`, increasing and unique, and totals stay consistent. |
| `ItemStore.UpdatePreservesValid` | src/main.py:70-85 | Update keeps the invariant. |
| `ItemStore.DeletePreservesValid` | src/main.py:91-94 | Delete keeps the invariant. The remaining items keep their relative order. |
| `ItemStore.GetAfterCreate` | src/main.py:54-64 | In a valid store, getting the id that create just assigned answers the created item. |
| `ItemStore.CreateLeavesOtherIds` | src/main.py:63-64 | Create does not change what get answers for any id other than the new one. |
| `ItemStore.GetAfterUpdate` | src/main.py:76-85 | In a valid store, after a successful update, getting the id answers the updated item. |
| `ItemStore.UpdateLeavesOtherIds` | src/main.py:70-85 | Update does not change what get answers for any other id. |
| `ItemStore.GetAfterDelete` | src/main.py:91-96 | In a valid store, after deleting an id, getting that id answers NotFound. |
| `ItemStore.DeleteLeavesOtherIds` | src/main.py:91-94 | Delete does not change what get answers for any other id. |
| `ItemStore.ListAgreesWithGet` | src/main.py:35-44 | In a valid store, every listed item is what get answers for its id. Whatever get finds is in the list. |
| `Service.Handle` | src/main.py:35-96 | Only create moves the counter. It moves it by exactly 1 and answers the old counter as the new id. List and get never change the store. |
| `Service.HandlePreservesValid` | src/main.py:35-96 | Any single request keeps the store invariant. |
| `Service.RunPreservesValid` | src/main.py:35-96 | Any sequence of requests applied to a valid store ends in a valid store. |
| `Service.CreatedIdsConsecutive` | src/main.py:55-64 | Over any run, creates hand out consecutive ids starting at the counter, whatever deletes come between them. The counter ends one past the last id handed out, so no id is reused. |
| `Service.CreatedIdsFromInit` | src/main.py:24-25 | From a fresh store, the n-th create (counting from 0) answers id n + 1. |
| `Service.ReachableStoresValid` | src/main.py:24-96 | Every store reachable from process start is valid and has unique ids. |
| `Service.CreateWidgetScenario` | src/main.py:47-66 | Creating "Widget" at 10.00 with 1.00 tax in a fresh store answers id 1 and total 11.00. |
| `Service.GetMissScenario` | src/main.py:39-44 | Getting id 999 in a fresh store answers NotFound. |
| `Service.UpdateWidgetScenario` | src/main.py:69-85 | Updating id 1 to "Widget2" at 20.00 with no tax answers id 1, no tax and total 20.00. |
| `Service.ListOrderScenario` | src/main.py:35-96 | Create A, create B, delete id 1 and create C leave the list as B then C, with ids 2 and 3. |

## Left out

- FastAPI application setup, the route decorators, the `root` and `health_check` endpoints and `uvicorn.run`. These are framework plumbing and do no store work.
- Pydantic validation of request bodies. A `Payload` is assumed to be well-typed already: `name` is a string and `price` is present.
- JSON response shapes. `{"items": ...}`, `{"error": "Item not found"}` and `{"message": ..., "deleted_item": ...}` are represented by the `Response` and `Lookup` datatypes. The source answers a not-found with the same status code as a hit. The model distinguishes them only by constructor.
- Floating-point prices and taxes. Money is modelled as integer cents, so float rounding in `price + tax` is not modelled. Neither is the fact that a NaN tax is truthy in Python.
- Concurrency, because there is none to model within one process. Every handler is an `async def` whose body never awaits (src/main.py:36-96). On the single event loop that uvicorn runs, each request therefore finishes before the next one starts, and the list and the counter are never interleaved. `Service.Run` is thus the program's actual behaviour for one process. Separate worker processes would each keep their own independent store, and a restart resets it; neither is modelled.
- `ItemStore.List` has no contract of its own, because it returns the stored sequence as is. Its meaning is stated by `ItemStore.ListAgreesWithGet` and `Service.ListOrderScenario`.
