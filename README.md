# Shop orders: placement, status updates, admin filtering and the add-to-cart rule

A Dafny model of the order core of a small web shop, made of an Express/Mongoose
API and a React client:

- **Order placement** (`POST /api/orders`). The route walks the submitted cart items in
  list order. It rejects an item whose product does not exist, then an item whose
  product's stock is below the requested quantity. For each item that passes, it
  records a snapshot line item, adds `price * qty` to the total and decrements that
  product's stock in place. The order is created only after every item has passed, with
  status `pending`. A rejection at item *k* leaves the decrements of items before *k*
  applied. The model keeps this partial decrement, and it keeps the absence of any
  check that `qty` is positive.
- **Status update** (`PATCH /api/orders/:id/status`). The order is looked up first
  (404). The requested status is then checked against the five names pending, paid,
  shipped, completed and cancelled (400). Finally the status is overwritten, from any
  current status.
- **Admin order view**. The client keeps the orders that match a user text (trimmed,
  case-insensitive substring of the user's name or email), a status (`"all"` or exact),
  and an inclusive day range. It then buckets the kept orders by status, in the fixed
  order of the five names, into `{status, count, total}` rows, dropping empty buckets.
- **Add to cart** on the product page and in the product quick-view modal. From a
  product's category, sizes, colours and stock, and from the shopper's picks, the rule
  decides:
  - which pickers are shown;
  - which quantities are offered;
  - whether the add button is enabled;
  - whether pressing it is refused for a missing size or shoe number, or dispatches a
    cart line (and which size, colour and number that line carries).

  The modal repeats the page's rule and renders nothing when it is closed or has no
  product.

Layout:

| file | module | contents |
|---|---|---|
| `common.dfy` | `Common` | `Option`, `Result`, subsequences |
| `order_status.dfy` | `OrderStatus` | the five statuses and their names |
| `order_placement.dfy` | `OrderPlacement` | placement as a function of catalogue and items, with independent descriptions of its outcome and the lemmas that connect them |
| `order_routes.dfy` | `OrderRoutes` | the two routes as methods of a class holding the product and order collections |
| `text.dfy` | `Text` | `trim`, `toLowerCase` and `includes` |
| `admin_orders.dfy` | `AdminOrders` | the order filter and the status chart |
| `product_page.dfy` | `ProductPage` | the product page's variant rule |
| `product_modal.dfy` | `ProductModal` | the modal's copy of the rule, proved equal to the page's |

Prices and totals are integers (cents), so sums are exact. Creation times are integer
milliseconds on the local clock, and the admin date bounds are day numbers on that
clock. A JSON field that is missing, `null`, or (for arrays) not an array is `None`.

## Model

The step functions themselves carry no contract of their own; their behaviour is stated by
the lemmas about them. `OrderPlacement.Run` (the loop) and `OrderPlacement.Place` (the
handler up to `Order.create`, server/src/routes/order.routes.js:21-59) are described by
`PlaceOutcome`, `RunSucceeds`, `RunStops`, `RunPlacedIff` and `RunStoppedSomewhere`.
`AdminOrders.Keep` and `AdminOrders.MatchesUser` (client/src/pages/AdminOrders.jsx:49-75)
are described by `UserFilterSpec`, `StatusFilterSpec`, `DateBoundsSpec` and `FilteredOrders`.
`Text.Includes` (client/src/pages/AdminOrders.jsx:57) is described by `IncludesIff`.

| member | source | states |
|---|---|---|
| OrderStatus.Parse | server/src/routes/order.routes.js:176-183 | a string is accepted exactly when it is one of the five allowed names, and then it maps to the status with that name |
| OrderStatus.ParseName | server/src/routes/order.routes.js:177 | every status is accepted under its own name; the allowed list is the five names in declaration order |
| OrderStatus.AllowedDistinct | server/src/routes/order.routes.js:177 | the five allowed names are pairwise distinct |
| OrderPlacement.Message | server/src/routes/order.routes.js:24-41 | the "product not found" message ends with the missing id, and the "not enough stock" message ends with the product's name |
| OrderPlacement.ItemCheck | server/src/routes/order.routes.js:31-42 | an item passes exactly when its product exists and its stock is at least the requested quantity; a missing product fails with "product not found" for its id, checked before stock, and a short stock fails with "not enough stock" for the product's name |
| OrderPlacement.Snapshots | server/src/routes/order.routes.js:47-55 | one line item per request, in order; each copies the product id, the product's name, image and price, and the item's qty, size and colour, with no shoe number |
| OrderPlacement.DecrementedAppend | server/src/routes/order.routes.js:57-58 | decrementing the stock for one list of items and then for another is the same as decrementing for both lists together |
| OrderPlacement.DecrementedOne | server/src/routes/order.routes.js:57-58 | one loop iteration's in-place decrement is the decrement for that single item |
| OrderPlacement.ShiftPasses | server/src/routes/order.routes.js:30-42 | a list passes its checks exactly when its first item passes and the rest pass against the stock the first item leaves |
| OrderPlacement.RunSucceeds | server/src/routes/order.routes.js:28-59 | when every item passes against the stock the earlier items left, the loop ends with each product's stock lowered by the sum of the quantities requested of it, one snapshot per item, and the total increased by the sum of price times qty |
| OrderPlacement.RunStops | server/src/routes/order.routes.js:30-42 | when the items before k pass and item k fails, the loop stops with the items before k decremented, the later items untouched, and item k's error (missing product first, then stock) |
| OrderPlacement.RunPlacedIff | server/src/routes/order.routes.js:30-59 | the loop runs to the end exactly when every item passes in list order |
| OrderPlacement.RunStoppedSomewhere | server/src/routes/order.routes.js:30-42 | a loop that stops does so at some item k whose check fails while every earlier item passed |
| OrderPlacement.RunKeepsStockNonNegative | server/src/routes/order.routes.js:38-58 | starting from non-negative stock counts, no stock count is ever negative afterwards, whatever the quantities (negative ones included) |
| OrderPlacement.RunKeepsListing | server/src/routes/order.routes.js:44-58 | placement adds and removes no product, and changes no name, image or price; only stock counts move |
| OrderPlacement.PlaceOutcome | server/src/routes/order.routes.js:21-66 | a missing, non-array or empty list is rejected with "No order items" and nothing changed. Otherwise the order is placed exactly when every item passes; if so, the stock drops by the summed quantities, there is one snapshot per item, and the total is the sum of price times qty. A rejection carries the error of the first failing item, with only the earlier items decremented |
| OrderPlacement.DecrementedUnreferenced | server/src/routes/order.routes.js:57-58 | a product no item names keeps its record, stock included |
| OrderPlacement.NegativeQuantityRestocks | server/src/routes/order.routes.js:38-58 | quantity -2 against stock 0 passes the stock check, raises the stock to 2 and gives a negative total |
| OrderRoutes.Requested | server/src/routes/order.routes.js:176-179 | a missing status field is never accepted; a present one is accepted exactly when it is one of the five names |
| OrderRoutes.OrderApi.PlaceOrder | server/src/routes/order.routes.js:17-66 | the loop leaves the product collection as placement describes, including the partial decrements of a rejection. A rejection returns the error and stores no order. Success stores and returns a new pending order under a fresh id, carrying the user, the snapshot lines, the total, the shipping address and the creation time; other orders are untouched and stock counts stay non-negative |
| OrderRoutes.OrderApi.UpdateStatus | server/src/routes/order.routes.js:166-187 | a missing order fails with "not found" (code 404) whatever status was sent; with the order present, an invalid or missing status fails (code 400) and changes nothing; a valid one replaces only that order's status, from any current status |
| Text.TrimStart | client/src/pages/AdminOrders.jsx:53-54 | the result is a suffix of the input that does not start with white space, and everything removed is white space |
| Text.TrimEnd | client/src/pages/AdminOrders.jsx:53-54 | the result is a prefix of the input that does not end with white space, and everything removed is white space |
| Text.Trim | client/src/pages/AdminOrders.jsx:53-54 | the result is a slice of the input that neither starts nor ends with white space, and everything cut off on either side is white space |
| Text.TrimBlank | client/src/pages/AdminOrders.jsx:53 | a string trims to the empty string exactly when it is all white space |
| Text.LowerChar | client/src/pages/AdminOrders.jsx:54-56 | the result is never an upper-case letter, and a character that is not one is unchanged |
| Text.Lower | client/src/pages/AdminOrders.jsx:54-56 | the result has the same length, contains no capital, and keeps every character that is not a capital |
| Text.LowerCharTable | client/src/pages/AdminOrders.jsx:54-56 | each capital range maps onto its own small letters (A to a, Z to z, and the ends of the Latin-1 and Cyrillic ranges); the multiplication sign is kept |
| Text.LowerIdempotent | client/src/pages/AdminOrders.jsx:54-56 | lower-casing twice is the same as lower-casing once |
| Text.IncludesIff | client/src/pages/AdminOrders.jsx:57 | `includes` holds exactly when the needle occurs at some position of the string |
| AdminOrders.FilteredOrders | client/src/pages/AdminOrders.jsx:49-78 | the result is a subsequence of the orders (original order kept); an order is in it exactly when it is in the input and passes all four filters, and it occurs as often as in the input |
| AdminOrders.UserFilterSpec | client/src/pages/AdminOrders.jsx:53-58 | an empty or blank user text accepts every order; otherwise an order passes exactly when the trimmed, lower-cased text occurs in its lower-cased name or email, a missing one counting as "" |
| AdminOrders.StatusFilterSpec | client/src/pages/AdminOrders.jsx:61-63 | "all" accepts every order; any other value accepts exactly the orders with that status |
| AdminOrders.DateBoundsSpec | client/src/pages/AdminOrders.jsx:65-75 | the from bound is inclusive from 00:00:00.000 of its day; the to bound is inclusive up to 23:59:59.000 of its day. An order at 23:59 of the to day is kept, and excluded when the to bound is the day before |
| AdminOrders.NoFiltersKeepAll | client/src/pages/AdminOrders.jsx:49-78 | with a blank user text, status "all" and no dates, the list is kept unchanged |
| AdminOrders.WithStatus | client/src/pages/AdminOrders.jsx:84 | the result holds exactly the orders with the given status, and is no longer than the input |
| AdminOrders.WithStatusExact | client/src/pages/AdminOrders.jsx:84 | the result is a subsequence of the input (original order kept), and each order with the given status occurs in it exactly as often as in the input, any other order not at all |
| AdminOrders.Chart | client/src/pages/AdminOrders.jsx:82-92 | every row has a status from the list, a positive count, and the count and summed total of the orders with that status. The rows' statuses follow the list's order, and a status has a row exactly when some order has it |
| AdminOrders.StatusChartData | client/src/pages/AdminOrders.jsx:81-92 | rows appear in the order pending, paid, shipped, completed, cancelled. A row is present exactly when its count is positive, and its count and total are the number and summed totals of the filtered orders with that status |
| AdminOrders.ChartSums | client/src/pages/AdminOrders.jsx:82-92 | over distinct statuses, the rows' counts sum to the number of orders with a listed status, and their totals to those orders' summed totals |
| AdminOrders.StatusChartSums | client/src/pages/AdminOrders.jsx:81-92 | the bucket counts sum to the number of filtered orders whose status is one of the five, and the bucket totals to their summed totals |
| ProductPage.ShoeNumbersRange | client/src/pages/Product.jsx:47 | the shoe numbers offered are exactly 35 to 45, ascending |
| ProductPage.QtyOptions | client/src/pages/Product.jsx:158-164 | the quantity choices are 1, 2, … in order, at most ten. A missing or zero stock offers ten; a positive stock offers min(10, stock); a negative stock offers none |
| ProductPage.SelectedQty | client/src/pages/Product.jsx:156 | the chosen quantity is never 0: a zero or non-numeric value becomes 1, and any other value is kept |
| ProductPage.QtyChoiceKept | client/src/pages/Product.jsx:156-164 | choosing the i-th quantity option sets the quantity to i + 1, between 1 and 10 |
| ProductPage.HandleAddToCart | client/src/pages/Product.jsx:50-71 | a product with sizes and no size picked is refused with "choose a size"; otherwise sneakers with no number picked are refused with "choose a number"; otherwise a line is dispatched. The line carries the product and the picked qty, a size exactly when the product has sizes, a number exactly for sneakers, and a colour exactly when one was picked |
| ProductPage.SneakersRule | client/src/pages/Product.jsx:40-59 | sneakers never have sizes and always show the number picker: they are never refused for a size and always refused when no number is picked. Other products are never refused for a number, and no dispatched line carries both a size and a number |
| ProductPage.Render | client/src/pages/Product.jsx:40-48 | size chips appear exactly when the product has sizes (sneakers never do); the shoe numbers exactly for sneakers; colour chips exactly when colours exist; the quantity choices as above; the add button is enabled exactly when the stock is present and positive |
| ProductPage.ClickAdd | client/src/pages/Product.jsx:170-176 | pressing the add button does nothing exactly when the stock (missing counting as 0) is not positive, and otherwise runs the add-to-cart rule |
| ProductModal.SameRuleAsPage | client/src/components/ProductModal.jsx:17-53 | the modal's flags, shoe numbers, quantity choices and add-to-cart outcome equal the product page's, for every product and every set of picks |
| ProductModal.Render | client/src/components/ProductModal.jsx:15-31 | nothing is rendered exactly when the modal is closed or has no product; otherwise it offers what the product page offers |
| ProductModal.ClickAdd | client/src/components/ProductModal.jsx:160-163 | pressing add does nothing when the modal is not rendered or the stock is not positive, and otherwise gives the page's add-to-cart outcome |

## Left out

- The two notification mails sent after an order is created (server/src/routes/order.routes.js:68-125) are not modelled: they are HTML formatting plus a foreign mail call, and their failures are caught, so a created order is always answered with 201 and the order.
- The HTTP status codes of placement are not a separate member: every rejection answers 400 with `Message`, and success answers 201 with the created order.
- `GET /api/orders/my` and the admin `GET /api/orders` are database queries with sorting and population, with no logic of their own.
- The `protect` and `admin` middleware are not part of this model; the caller is taken to be authenticated, and an admin for the status update.
- Mongoose persistence is replaced by the fields of `OrderApi`. Cast errors of malformed ids, and a failing `save` in the middle of the loop, are not modelled; both are passed to the app's error handler, which is not part of this model.
- A failing `Order.create` after the loop (server/src/routes/order.routes.js:61-66) is not modelled. It would leave every decrement of the request applied and create no order; `PlaceOrder` always stores the order once every item has passed.
- Items that are not objects, or whose `qty` is not a number, are not modelled: `qty` is an integer.
- The concurrent-placement oversell race needs interleaved requests; the model is sequential.
- The pending default status and the creation time come from the Order schema, which is not part of this model: the status is set to `Pending` explicitly, and the time is the `now` parameter.
- Order ids are a counter `nextId` instead of database object ids.
- The shoe number a cart item may carry is never copied into the order's line items. The model follows the code here, although the cart line the product page and the modal dispatch carries one (client/src/pages/Product.jsx:67, client/src/components/ProductModal.jsx:49).
- AdminOrders.DateBoundsSpec: date strings, time zones and daylight-saving changes are not modelled. A day is 86 400 000 ms of the local clock, and the bounds are day numbers.
- Text.LowerChar: covers the basic Latin, Latin-1 and basic Cyrillic capitals only, not every Unicode case mapping of `toLowerCase`.
- ProductPage.SelectedQty: fractional numbers and the string-to-number conversion are not modelled; a value is an integer, or `None` for `NaN`.
- ProductPage.QtyOptions: fractional stock counts are not modelled.
- Display formatting is not modelled: prices with `toFixed`, labels, the success modal, and the Recharts chart.
- The component state hooks and effects (loading, fetching the product or orders, opening and closing the success dialog) are not modelled.
- The remaining client and server files are not part of this model: routing, contact form, seeding and app configuration.
