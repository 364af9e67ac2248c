# Order creation: a verified model

This project models the order-creation use case of an e-commerce backend:
`CreateOrderService.execute`. It receives a customer id and a list of
`{ id, quantity }` product requests. It checks four things in a fixed order:
- the customer exists;
- the batch product lookup found something;
- every requested id was found;
- every requested quantity fits the stock.

It then builds the order's line items with the catalog price at that moment
and stores the order. It computes each ordered product's new stock from the
snapshot the lookup returned and overwrites the stock with those absolute
values. Finally it returns the stored order.

The model has three modules:

- `Lists` holds the array `filter` the service is written with. `Filter` takes
  a predicate that may be partial, so each `filter(...)[0].field` in the
  service must be shown to be defined. `FilterEmpty` and `FilterHead` say what
  an empty filter and element `[0]` mean: no element matched, and the first
  element in input order that matched.
- `CreateOrder` holds the pure logic between the repository calls. `Decide`
  is the validation chain and the line-item serialisation. `StockUpdates` is
  the new-stock computation. `FirstWithId` is the `filter(p => p.id === id)[0]`
  lookup used three times. Errors are a tagged `Error` datatype (one variant
  per check, carrying the id and quantity the message names) inside a
  `Result`.
- `Repositories` holds the state behind the three repositories: a `Store`
  class with a customer set, a catalog `map` from id to price and stock, and
  the sequence of stored orders. `Store.Execute` runs the service: the
  customer lookup, `Decide`, `Create` (which appends the order), then
  `UpdateQuantity` (which overwrites stock). The lemmas beside it relate the
  outcome to the catalog itself.

The batch product lookup's result is a parameter of `Store.Execute`. Its
implementation is not part of this model. What the service relies on is
written as the precondition `FoundBy`: the lookup returns only catalog
entries, as the catalog holds them, for requested ids, and it returns every
requested id the catalog has. The order store's `create` is assumed to return
`order_products` equal to the line items it was given, in order.

One would expect a product's stock to fall by the total quantity ordered for
it. The code does not do that when one request names a product twice:
- each line is checked on its own against the same snapshot stock;
- each new stock value is that snapshot minus the line's own quantity;
- both values go to the bulk stock update. This model assumes the later one
  stays, as listed under "## Left out".

`DuplicateLinesEachFromSnapshot` shows this on a concrete input. Two lines of
4 for a product with 5 in stock are accepted, although 8 units are ordered.
Both new stock values are 1, so the stock ends at 1 whichever write stays;
that result does not rest on the last-write assumption. With distinct ids,
`StockAfterOrder` proves that the stock does fall by exactly the quantity
ordered.

## Model

| member | source | states |
|---|---|---|
| `Lists.Filter` | src/modules/orders/services/CreateOrderService.ts:44-46 | the filter's result is no longer than its input, and every element it keeps comes from the input and satisfies the predicate |
| `Lists.FilterEmpty` | src/modules/orders/services/CreateOrderService.ts:48 | a filter's `length` is zero exactly when no input element satisfies the predicate (used by the tests at lines 48 and 60) |
| `Lists.FilterHead` | src/modules/orders/services/CreateOrderService.ts:50 | element `[0]` of a non-empty filter is the first input element, in input order, that satisfies the predicate (the offender the messages at lines 50 and 62-63 name) |
| `CreateOrder.FirstWithId` | src/modules/orders/services/CreateOrderService.ts:56 | `findProducts.filter(p => p.id === id)[0]` is defined only when the id was found, and it is then the first found product with that id |
| `CreateOrder.UnknownFilter` | src/modules/orders/services/CreateOrderService.ts:42-52 | the unfound-ids filter is empty exactly when every requested id is among the found ids. Otherwise its element `[0]` is the first request item, in request order, whose id was not found |
| `CreateOrder.InsufficientFilter` | src/modules/orders/services/CreateOrderService.ts:54-65 | once every id was found, the stock filter is empty exactly when no requested quantity exceeds its product's stock. Otherwise its element `[0]` is the first such request item |
| `CreateOrder.Serialize` | src/modules/orders/services/CreateOrderService.ts:67-71 | one line item per request item, in request order, copying its id and quantity, priced from a found product with that id. That the price is the first match's is stated by the last `ensures` of `CreateOrder.Decide` |
| `CreateOrder.Decide` | src/modules/orders/services/CreateOrderService.ts:32-71 | a missing customer gives CustomerNotFound whatever else holds. An empty lookup gives NoProductsFound. Otherwise an unfound id gives ProductNotFound naming the first unfound request id. Otherwise a requested quantity strictly above the stock gives InsufficientStock with the requested quantity and id of the first such item; an equal quantity passes. Otherwise the result is one line item per request item, in order, copying id and quantity, priced from the first found product with that id. The five cases cover every input, and the stock check's `[0]` is always defined when it is reached |
| `CreateOrder.StockUpdates` | src/modules/orders/services/CreateOrderService.ts:80-85 | one stock update per stored line, in order, for the line's product. Its value is a found product's snapshot quantity minus the line's quantity. That it is the first match's snapshot and never negative is stated by `CreateOrder.NewStockNonNegative`. The exact decrement against the catalog is stated by `Repositories.StockAfterOrder` |
| `CreateOrder.NewStockNonNegative` | src/modules/orders/services/CreateOrderService.ts:80-85 | after a successful decision there is one stock update per line item, for the same product. Its value is the lookup snapshot's quantity minus the line's quantity, so duplicates start from the same snapshot, and it is never negative |
| `Repositories.Overwrite` | src/modules/orders/services/CreateOrderService.ts:87 | overwriting stock keeps the set of products and every price, and leaves every product that no update names unchanged |
| `Repositories.OverwriteLastWins` | src/modules/orders/services/CreateOrderService.ts:87 | a product's new stock is the value of the last update that names it |
| `Repositories.OverwriteKeepsStockNonNegative` | src/modules/orders/services/CreateOrderService.ts:80-87 | updates with non-negative values keep every stock in the catalog non-negative |
| `Repositories.FoundMatchesCatalog` | src/modules/orders/services/CreateOrderService.ts:36 | under the lookup's contract, a found id is a catalog id, and for request ids the converse also holds. The snapshot the service reads is the catalog entry. The lookup is empty exactly when no requested id is in the catalog |
| `Repositories.DecideOnCatalog` | src/modules/orders/services/CreateOrderService.ts:36-71 | for an existing customer, under the lookup's contract, each outcome is stated against the catalog. No requested id in the catalog gives NoProductsFound. Otherwise the first requested id the catalog lacks is named. Otherwise the first item asking for more than the catalog's stock is named with its requested quantity. Otherwise each line item is priced at the catalog's price |
| `Repositories.OrderWritesFit` | src/modules/orders/services/CreateOrderService.ts:73-87 | after a successful decision, every stored line names a found product and every stock update names a catalog product, so applying the updates keeps non-negative stock non-negative |
| `Repositories.StockAfterOrder` | src/modules/orders/services/CreateOrderService.ts:80-87 | with distinct requested ids, a successful order lowers each ordered product's stock by exactly the ordered quantity, never below zero. Prices are kept and every other product is unchanged |
| `Repositories.DuplicateLinesEachFromSnapshot` | src/modules/orders/services/CreateOrderService.ts:54-87 | two lines of 4 for a product with 5 in stock are accepted as two lines at the snapshot price, and the stock ends at 1, not at the 5 - 8 the total ordered would give |
| `Repositories.SingleItemAccepted` | src/modules/orders/services/CreateOrderService.ts:54-85 | a single request item within the stock of its one found product becomes one line at the snapshot price, and its new stock is the snapshot minus the quantity |
| `Repositories.SingleItemRejected` | src/modules/orders/services/CreateOrderService.ts:54-65 | a single request item above the stock fails with InsufficientStock carrying the requested quantity (not the available one) and the id |
| `Repositories.Store.FindCustomer` | src/modules/orders/services/CreateOrderService.ts:32 | the assumed contract of `customersRepository.findById`, reduced to found or not: it finds a customer exactly when the id is registered. `Store.Execute` relies on this for the customer check at line 34 |
| `Repositories.Store.Create` | src/modules/orders/services/CreateOrderService.ts:73-76 | creating an order appends exactly that order and returns it, its `order_products` being the given line items in order |
| `Repositories.Store.UpdateQuantity` | src/modules/orders/services/CreateOrderService.ts:87 | the catalog becomes the old catalog overwritten by the updates in list order |
| `Repositories.Store.Execute` | src/modules/orders/services/CreateOrderService.ts:31-90 | on any validation failure the error is the decision's, and the orders and the catalog are unchanged. On success exactly one order is appended and it is the order returned. The catalog becomes the pre-order catalog overwritten with the stock updates computed from the stored order's lines, and non-negative stock stays non-negative. Customers never change |
| `Repositories.RepeatOrder` | src/modules/orders/services/CreateOrderService.ts:31-90 | running the same request twice is not a no-op: it stores two equal orders and the stock falls twice, from 5 to 1 |
| `Repositories.SingleProductScenario` | src/modules/orders/services/CreateOrderService.ts:31-90 | with "p1" at 1000 cents and 5 in stock, asking for 10 fails naming 10 and "p1" and writes nothing. Asking for 3 then stores one line at 1000 cents and leaves a stock of 2 |

## Left out

- Dependency injection (the `tsyringe` decorators and constructor wiring) has no behaviour and is not modelled.
- `async`/`await`: the repository calls are modelled as sequential steps.
- Concurrent requests racing on the same stock are not modelled. There is no locking in the source, and the model runs one request at a time.
- The `create` and `updateQuantity` writes are not atomic in the source, and nothing rolls back. The model has no failure of either write, so it cannot show an order stored without its stock update.
- The repository implementations and the database are not part of this model. The batch lookup is a parameter constrained by `FoundBy`, and the order in which it returns products is left open.
- `Repositories.Store.UpdateQuantity` assumes the bulk update applies its list in order, with the last write for a product winning. That implementation is not part of this model.
- The `AppError` HTTP status and the exact message text are not modelled, including the line break inside the insufficient-stock message. Each error is a variant carrying the id and quantity that the message names.
- Prices are floating-point numbers in the source. Here they are integer cents, since the service only copies them.
- Quantities are JavaScript numbers, which may be fractional. Here they are integers. Like the source, the model does not check that they are positive.
- The stored `Order` entity keeps only the customer id and its line items. Generated ids, timestamps and the customer entity are not modelled.
- The customer lookup returns an entity in the source. Here it returns only whether the customer was found.
