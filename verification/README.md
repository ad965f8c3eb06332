# Cart bookkeeping of the product order page

The repository is a single React page, `ProductOrderPage`. It lists products
from a remote catalog. The user can add products to a cart, submit each cart
line as an order-detail record on the server, and remove a line again. This
project models the page's cart bookkeeping as pure state transitions and
proves its invariants.

The state (`OrderSession.Session`) has three parts:

- `orders`: the quantity map, from product id to quantity.
- `orderList`: the ordered line items `{productId, name, price, quantity}`.
- `detailIds`: for each product, the order-detail id returned by its last
  successful submit. The page stores this as `order_id` on the product object.
  The model keeps it as a map from product id to id.

The handlers become functions:

- `Add` models `createOrder`.
- `Submit` models the state-changing part of `submitOrder`.
- `Remove` models `removeOrderItem`.
- `Total` models the `reduce` that computes the order summary's total.

The HTTP calls are replaced by their outcomes, given as parameters:

- `Submit` receives a `Response`: either `Rejected`, or `Responded(status, id)`.
- `Remove` receives a flag saying whether the delete request resolved. It
  returns the order-detail id it deleted, together with the new state. If the
  delete rejected, it returns that outcome instead and the state is unchanged.

Modules:

- `Catalog`: products and `find` by id.
- `Cart`: line items, `findIndex` and `filter` by product id.
- `Totals`: the total as a left fold, and a reference sum.
- `OrderSession`: the state, the three handlers and the invariant lemmas.
- `Lifecycle`: the properties that relate several calls. These are sequences
  of clicks, the invariant of every reachable state, the delete target, and
  one worked example.

The central invariant is `OrderSession.Consistent`. It says four things:

- There is at most one line per product.
- The map has a key exactly for the products that have a line.
- Each line's quantity equals the map's quantity for that product.
- Every quantity is at least 1.

`Lifecycle.Invariant` adds two more facts:

- Every line carries the catalog's name and price for its product.
- Ids are recorded only for catalog products.

Every action the model admits preserves this invariant.

A removal changes nothing when the delete request rejects. The handler
awaits the delete (src/App.jsx:100) and throws before either setter runs, so
`Remove` returns `DeleteRejected` and `After` returns the old state.

The page shows the trash button on every cart line, submitted or not
(src/App.jsx:169, 184-189). For a line that was never submitted, it asks the
server to delete the id `undefined` (src/App.jsx:101). The model admits a
removal only for a product with a recorded order-detail id. A recorded id
does mean the product was submitted: `Lifecycle.RunWithoutSubmitRecordsNothing`
proves that no run records an id without a 201 submit for that product.

## Model

| member | source | states |
|---|---|---|
| Catalog.FindProduct | src/App.jsx:34 | The lookup returns the first product with the id. It returns nothing exactly when no catalog product has that id. |
| Cart.EntryIndex | src/App.jsx:42-44 | `findIndex` returns the index of the first line for the product. It returns -1 exactly when no line has that product id. |
| Cart.Without | src/App.jsx:109 | The filter keeps exactly the lines whose product id differs. No line for the removed product is left. |
| Cart.WithoutAppend | src/App.jsx:109 | The filter distributes over concatenation, so the remaining lines keep their relative order. |
| Cart.WithoutAbsent | src/App.jsx:109 | Filtering out a product that has no line leaves the list as it is. |
| Cart.WithoutUnique | src/App.jsx:109 | When there is one line per product, the filter removes exactly the line at the product's index. Everything before and after it stays in place. |
| Cart.AppendKeepsUnique | src/App.jsx:50-59 | Appending a line for a product that has none keeps one line per product, and the product then has a line. |
| Cart.WithoutKeepsUnique | src/App.jsx:109 | The filter keeps the one-line-per-product property. |
| Totals.ReduceIsSum | src/App.jsx:202-206 | A left fold starting from an accumulator adds the sum of price × quantity over the list to that accumulator. |
| Totals.Total | src/App.jsx:202-206 | The fold from 0 equals the reference sum of price × quantity over the current list. The fold yields 0 for an empty list. |
| Totals.SumWithout | src/App.jsx:109 | When there is one line per product, filtering a product out lowers the sum by exactly that line's amount. |
| OrderSession.Add | src/App.jsx:33-60 | The product's map quantity becomes its previous value (0 if absent) plus one. Other keys are unchanged. With an existing line, only that line's quantity changes, in place, and the other lines keep their positions. With no line, the old list is kept and exactly one new line is appended, built from the catalog record. Recorded ids are untouched. |
| OrderSession.Submit | src/App.jsx:68-95 | The map and the list never change. On status 201 for a catalog product, the returned id replaces the recorded one. On a rejected request, any other status, or an unknown product, the recorded ids are unchanged. |
| OrderSession.Remove | src/App.jsx:97-109 | The delete targets the product's recorded order-detail id. The result is `Removed` exactly when the delete resolved. A resolved removal drops the product's key and every line for it. Other keys, quantities and lines are kept, and the recorded ids are unchanged. |
| OrderSession.AddKeepsConsistent | src/App.jsx:35-59 | If the map and the list agree before an add, they agree after it. |
| OrderSession.AddExistingKeepsConsistent | src/App.jsx:46-49 | The in-place update of an existing line keeps the map and the list in agreement. |
| OrderSession.AddNewKeepsConsistent | src/App.jsx:50-59 | Appending a new line for a product that had none keeps the map and the list in agreement. |
| OrderSession.AppendKeepsConsistent | src/App.jsx:35-59 | Setting a new key's quantity and appending a line with the same quantity, for a product that had neither, keeps the map and the list in agreement. |
| OrderSession.AddKeepsPriced | src/App.jsx:51-59 | Every line still carries its product's catalog name and price after an add. |
| OrderSession.AddTotal | src/App.jsx:33-59 | On a consistent cart whose lines are priced from the catalog, one add raises the total by exactly the product's price. |
| OrderSession.SubmitKeepsInvariants | src/App.jsx:81-84 | A submit keeps agreement and catalog prices, and leaves the total unchanged. |
| OrderSession.RemoveKeepsConsistent | src/App.jsx:103-109 | A removal keeps the map and the list in agreement, whether or not the delete resolved. |
| OrderSession.RemoveKeepsOrder | src/App.jsx:109 | On a consistent cart, a resolved removal takes out exactly the product's one line. Every other line keeps its relative order. A product with no line leaves the list as it was. |
| OrderSession.RemoveKeepsPriced | src/App.jsx:109 | The remaining lines still carry their catalog name and price. |
| OrderSession.RemoveTotal | src/App.jsx:103-109 | On a consistent cart, a resolved removal lowers the total by the removed line's price × its quantity. The total is unchanged if the product had no line. |
| Lifecycle.AddTimes | src/App.jsx:35-59 | n adds of one product raise its map quantity by exactly n from any starting state. From the empty cart, n ≥ 1 adds give quantity n in the map. They also give exactly one line, with the catalog's name and price and quantity n. |
| Lifecycle.AddToEmpty | src/App.jsx:50-59 | The first add on the empty cart creates one key with quantity 1 and one line built from the catalog record. |
| Lifecycle.AddToSingle | src/App.jsx:46-49 | On a cart that holds only the product, one more add keeps a single line and raises both quantities by one. |
| Lifecycle.EmptyInvariant | src/App.jsx:8-9 | The initial empty state satisfies the invariant. |
| Lifecycle.StepKeepsInvariant | src/App.jsx:33-114 | Every action the model admits in the current state preserves the invariant. Admitted means: an add of a catalog product, any submit, or a removal of a product with a recorded id. |
| Lifecycle.RunKeepsInvariant | src/App.jsx:33-114 | Every state reached by a sequence of admitted actions satisfies the invariant. |
| Lifecycle.RunKeepsDetailId | src/App.jsx:81-84 | Only a 201 submit for a product changes the id recorded for it. Adds, failed submits, actions on other products and removals all leave it. |
| Lifecycle.RunWithoutSubmitRecordsNothing | src/App.jsx:81-84 | A product with no recorded id gets none over a run that has no 201 submit for it. So a recorded id means the product was submitted. |
| Lifecycle.RemoveTargetsLastSubmit | src/App.jsx:100-102 | A removal deletes the order detail returned by the product's last successful submit. |
| Lifecycle.WidgetScenario | src/App.jsx:33-109 | The worked example uses a one-product catalog at price 10. Two adds give one line with quantity 2 and total 20. A submit answered 201 with id 99 records 99. A resolved removal deletes 99 and leaves an empty map and an empty list, on which the fold yields 0. |

## Left out

- HTTP calls (src/App.jsx:16-22, 71-78, 100-102) talk to an external server. They appear only as their outcomes: a `Response`, and the delete-resolved flag. The create-order-detail request body (product id, session order id, quantity) is not modelled, because nothing in the local state depends on it.
- The startup effect, the loading flag and the session order id (src/App.jsx:10-31) only sequence I/O. They contain no cart logic. The catalog is a parameter of `Add` and `Submit` instead.
- Toasts, console logging and all JSX rendering (src/App.jsx:62-65, 82, 87-93, 99, 111-214) are presentation.
- Prices are integers, for example in cents. JavaScript's floating-point multiplication and the two-decimal `toFixed` formatting (src/App.jsx:182, 207) are not modelled.
- Overlapping asynchronous handlers are not modelled. These are two submits racing, or handlers that read a stale `orderList` captured before an earlier update landed. Each handler is modelled as running to completion before the next one starts.
- OrderSession.Add requires the product to be in the catalog. The page only calls `createOrder` with ids it renders from the catalog (src/App.jsx:149). For an unknown id, `product.name` would throw midway through the handler (src/App.jsx:55, 62).
- OrderSession.Remove requires a recorded order-detail id. The page also offers removal on lines never submitted (src/App.jsx:184-189), and then sends a delete for the URL segment `undefined` (src/App.jsx:101). The model does not invent an outcome for that request, so removal of an unsubmitted line is not modelled.
- The in-place mutation of the shared line object (src/App.jsx:48) is modelled as a sequence update. In a sequential run, aliasing between the old and new list cannot be observed.
