# E-commerce backend core in Dafny

This project models the core of a small online shop: an Express/Mongoose backend and a React Native client.

The centre of the model is the order lifecycle over an inventory ledger:

- `createOrder` checks the request and walks the requested lines in order. For each line it looks the product up, checks its stock, takes a priced snapshot, decrements the stock, relabels the product and saves it. It then derives the order's figures and asks `Order.create` for the record.
- `cancelOrder` checks ownership and status, puts every line's quantity back into its product and marks the order cancelled.
- `updateOrderStatus` is the admin's unguarded status change.
- `getOrderById`, `getOrderStatus` and `getMyOrders` are the reads.

Around the lifecycle sit smaller rule engines, each modelled in the form its source takes:

- the Product and Order schemas: defaults, bounds, enums, pre-save hooks;
- the client cart;
- the fixed-window rate limiter and its cleanup pass;
- the paging arithmetic and the `sortBy` parser of the product controller, plus its search and brand handlers;
- the error-to-status middleware;
- the profile-merge and password-change rules of the user controller.

Layout, one module per file:

| file | module | what it holds |
|---|---|---|
| `wrappers.dfy` | `Wrappers` | `Option` and `Result` |
| `http.dfy` | `Http` | `Failure(status, message)` and the status codes |
| `js.dfy` | `Js` | The few JavaScript semantics the handlers lean on: string truthiness, `||`, `String(n)`, `split`/`join`, `replace` with a string pattern (first occurrence only), `trim`, array-index property names, `Math.ceil(a / b)` |
| `product_model.dfy` | `ProductModel` | The Product document, its validators, defaults and pre-save hook |
| `order_model.dfy` | `OrderModel` | The Order document, its enums, `Order.create` and the pre-save hook |
| `inventory.dfy` | `Inventory` | The product table and the two stock movements (take, put back) with their labelling rules |
| `pricing.dfy` | `Pricing` | The discount snapshot, the running sums, shipping, tax and grand total |
| `order_lifecycle.dfy` | `OrderLifecycle` | Every order handler as a function from the stored state (product table, order list) to the new state and the response, with the lifecycle lemmas |
| `order_controller.dfy` | `OrderController` | Class `Shop`, whose `products` and `orders` fields the three writing handlers update step by step. Each method is proved to end in the state `OrderLifecycle` specifies |
| `pagination.dfy` | `Pagination` | `page`/`limit`/`skip`, the `pagination` block, and the window a `skip`/`limit` cursor returns |
| `product_controller.dfy` | `ProductController` | The `sortBy` parser (a loop method and its specification), `getProductById`, `searchProducts`, `getBrands` |
| `cart.dfy` | `Cart` | The cart's list transformations and total |
| `rate_limiter.dfy` | `RateLimiter` | The per-request closure as a function, and class `Limiter` holding the live `requests` map, with the handler and cleanup methods |
| `error_handler.dfy` | `ErrorHandler` | The handler's sequence of overriding checks as a method, proved equal to a priority list |
| `user_controller.dfy` | `UserController` | `updateProfile` and `updatePassword` as functions, and class `UserStore` whose methods update the stored users |

Modelling choices:

- **Money is `real`.** Prices, totals and tax are exact, so the grand-total equations hold with no rounding.
- **Ids are positions.** Product ids are `nat` keys of the product map. An order's id is its position in the order list, which stands in for a fresh ObjectId.
- **The caller is explicit.** `req.user` is an explicit `Requester(id, role)`. The admin-only route guard on status updates (`routes/orderRoutes.js:33`) becomes a `requires`.
- **Time and the password check are parameters.** Time is a parameter `now`. The password check `matchPassword` is a parameter of type `(string, string) -> bool`.
- **Saves are in-memory writes.** Every save is an update of an in-memory map or sequence. Saves of documents the model proves valid cannot fail.
- **`Order.create` failures are modelled.** An `Order.create` that rejects its draft is modelled: it is a 500 that keeps every stock decrement already saved.
- **Two gaps are modelled as written.** The partial-failure gap and the acceptance of non-positive quantities are both kept, not fixed:
  - a line failing part-way leaves the earlier lines decremented and creates no order;
  - a request quantity of 0 or less passes the stock check and does not lower stock (a negative one raises it), and only then fails `Order.create`.

Three behaviours of the code that are easy to assume otherwise:

- **Reserving stock never resets a label to 'In Stock'.** The code sets 'Out of Stock' at 0 and 'Low Stock' below 10, and otherwise leaves the label as it was. So a negative quantity can leave a stale label (`Inventory.NegativeTakeLeavesStaleLabel`).
- **Status updates have no transition guard.** An admin can set any valid status from any status, a cancelled order back to pending included (`OrderLifecycle.AdminCanReopenCancelled`).
- **The admin check on status updates is not in the handler.** The route middleware refuses non-admins (`routes/orderRoutes.js:33`), so the model takes it as a precondition of `OrderLifecycle.UpdateOrderStatus`.

Other behaviour of the code worth knowing:

- **`getOrderStatus` has no ownership check.**
- **`field.replace('-', '')` removes the first '-' anywhere in the field**, not only a leading one.
- **The sort object is a JavaScript object.** Array-index names (`0`, `17`) are enumerated before the others, in numeric order, whatever order the fields came in. Assigning `__proto__` a number creates no property. The model's sort object follows both rules (`ProductController.PriceThenZero`, `ProductController.ProtoFieldIgnored`).
- **Product titles, categories, tags and brands are trimmed before validation**, so a blank title is rejected and a padded one is measured without its padding.
- **A duplicate-key error can name "undefined".** With no `keyValue` keys it reads "Duplicate field value: undefined".

## Model

| member | source | states |
|---|---|---|
| Js.NatToStringRoundTrip | backend/ecommerce-backend/controllers/orderController.js:48 | The decimal rendering used in the "Product not found: <id>" message reads back as the id, so the message identifies the product exactly |
| Js.IntToString | backend/ecommerce-backend/controllers/orderController.js:55 | The rendering of the available count: non-empty, and a minus sign followed by the digits exactly for negative numbers |
| Js.SplitJoin | backend/ecommerce-backend/controllers/productController.js:48 | Splitting `sortBy` on ',' loses nothing: joining the parts back gives the original string |
| Js.Split | backend/ecommerce-backend/controllers/productController.js:48 | `split(',')` always yields at least one part, and no part contains the separator |
| Js.FirstIndex | backend/ecommerce-backend/controllers/productController.js:51 | The position `replace` acts on holds the character, and no earlier position does |
| Js.CeilDiv | backend/ecommerce-backend/controllers/productController.js:75 | `Math.ceil(a / b)` for a positive divisor is the least k whose multiple reaches a, and the mirrored bound for a negative divisor |
| Js.CanonicalDigits | backend/ecommerce-backend/controllers/productController.js:52 | A digit string without a leading zero (or "0" itself) is the decimal rendering of its own value |
| Js.ArrayIndexIsRendering | backend/ecommerce-backend/controllers/productController.js:52 | A property name JavaScript treats as an array index is exactly the decimal rendering of its index |
| Js.ArrayIndexOfRendering | backend/ecommerce-backend/controllers/productController.js:52 | Every integer below 2^32 - 1, rendered in decimal, is an array-index name with that value |
| Js.ArrayIndexInjective | backend/ecommerce-backend/controllers/productController.js:52 | Two names with the same array index are the same name |
| Js.Trim | backend/ecommerce-backend/model/Product.js:32 | `trim` leaves a string that neither starts nor ends with white space |
| Js.TrimCutsOnlySpace | backend/ecommerce-backend/model/Product.js:32 | What `trim` keeps is a contiguous part of the string, and everything it cuts off on either side is white space |
| Js.TrimIdempotent | backend/ecommerce-backend/model/Product.js:32 | Trimming twice is trimming once |
| ProductModel.ParseAvailability | backend/ecommerce-backend/model/Product.js:98-102 | The enum validator accepts exactly the three labels, and what it accepts names the label it was given |
| ProductModel.AvailabilityRoundTrip | backend/ecommerce-backend/model/Product.js:98-102 | Every label passes the validator and reads back as itself |
| ProductModel.ReviewViolations | backend/ecommerce-backend/model/Product.js:3-21 | No review path is reported exactly when every review has a rating in [1, 5] and its three required text fields |
| ProductModel.ViolationsExactlyWhenInvalid | backend/ecommerce-backend/model/Product.js:28-126 | Validation of a document (whose `trim: true` paths are already trimmed) reports no path exactly when every bound and required field of the schema holds |
| ProductModel.TrimTags | backend/ecommerce-backend/model/Product.js:68-71 | Each tag is stored as its own trim, one for one and in order, so no stored tag starts or ends with white space |
| ProductModel.NewDocument | backend/ecommerce-backend/model/Product.js:28-126 | The document the validators see carries the new id and the creation time in both stamps. Its title, category, every tag and a given brand are trimmed, so none starts or ends with white space. A brand is present exactly when one was given |
| ProductModel.CreateProduct | backend/ecommerce-backend/model/Product.js:28-126 | A created document is valid and stamped. Its title, category, tags and brand are the given ones trimmed. An absent discount, rating or stock defaults to 0. An absent label defaults to 'In Stock' and an absent minimum order quantity to 1. A missing price or a label outside the enum is rejected, and a rejection names at least one path |
| ProductModel.TitleReportedFirst | backend/ecommerce-backend/model/Product.js:29-34 | A document whose title is empty or over 200 characters reports `title` as its first violation |
| ProductModel.BlankOrLongTitleRejected | backend/ecommerce-backend/model/Product.js:29-34 | The title is checked after trimming. One that is blank, or still over 200 characters once trimmed, is refused with `title` among the errors |
| ProductModel.BlankCategoryRejected | backend/ecommerce-backend/model/Product.js:40-44 | A category that is blank once trimmed is refused |
| ProductModel.PaddedTitleStoredTrimmed | backend/ecommerce-backend/model/Product.js:29-34 | A created product stores its title trimmed. Trimming it again changes nothing, and its trimmed length is between 1 and 200 |
| ProductModel.Touch | backend/ecommerce-backend/model/Product.js:129-131 | A save stamps `meta.updatedAt` and changes no other field |
| OrderModel.ParseStatus | backend/ecommerce-backend/model/Order.js:74-78 | Exactly the six status names are accepted, each naming its status |
| OrderModel.StatusRoundTrip | backend/ecommerce-backend/model/Order.js:74-78 | Every status passes the enum and reads back as itself |
| OrderModel.ParsePaymentMethod | backend/ecommerce-backend/model/Order.js:79-83 | Exactly the four payment-method names are accepted, each naming its method |
| OrderModel.DraftViolations | backend/ecommerce-backend/model/Order.js:17-21 | A draft is rejected exactly when a line has a quantity below 1 or no title, the payment method is outside the enum, a shipping-address field is missing, or the notes exceed 500 characters |
| OrderModel.CreateOrderRecord | backend/ecommerce-backend/model/Order.js:39-130 | `Order.create` succeeds exactly when no validator rejects the draft. Its record is valid, carries the draft's user, lines and payment method, is pending and unpaid, and has no tracking, delivery or cancellation data. Both timestamps are the creation time |
| OrderModel.TouchOrder | backend/ecommerce-backend/model/Order.js:133-135 | A save stamps `updatedAt` and changes no other field |
| Inventory.Take | backend/ecommerce-backend/controllers/orderController.js:79-85 | Reserving q units lowers stock by exactly q. The label becomes 'Out of Stock' at 0 and 'Low Stock' below 10, and is otherwise kept. No other field but the save stamp changes |
| Inventory.PutBack | backend/ecommerce-backend/controllers/orderController.js:291-295 | Putting q units back raises stock by exactly q. A positive result gets the threshold label, otherwise the label is kept. No other field but the save stamp changes |
| Inventory.TakeKeepsValid | backend/ecommerce-backend/controllers/orderController.js:52-85 | A reservation the stock check let through never makes stock negative: the saved document stays valid under its id |
| Inventory.PutBackKeepsValid | backend/ecommerce-backend/controllers/orderController.js:291-295 | Putting back a positive quantity keeps the document valid |
| Inventory.TakeKeepsLabelConsistent | backend/ecommerce-backend/controllers/orderController.js:79-84 | For a non-negative quantity, a label that matched the thresholds still matches them after the reservation |
| Inventory.NegativeTakeLeavesStaleLabel | backend/ecommerce-backend/controllers/orderController.js:52-84 | A negative quantity passes the stock check, raises stock from 5 to 15, and leaves the stale 'Low Stock' label |
| Inventory.RestockStock | backend/ecommerce-backend/controllers/orderController.js:288-297 | After the cancellation loop every product holds its old stock plus the total quantity the lines put back into it |
| Inventory.RestockUntouched | backend/ecommerce-backend/controllers/orderController.js:288-297 | A product no line names comes out of the loop unchanged |
| Inventory.RestockKeepsValid | backend/ecommerce-backend/controllers/orderController.js:288-297 | Putting back positive quantities keeps every stored product valid |
| Inventory.RestockLabelsConsistent | backend/ecommerce-backend/controllers/orderController.js:292-294 | Every product a line reaches ends with the label its thresholds prescribe |
| Inventory.Restock | backend/ecommerce-backend/controllers/orderController.js:288-297 | The put-back loop over the order's lines never adds or drops a product from the table |
| Pricing.DiscountedPrice | backend/ecommerce-backend/controllers/orderController.js:60 | For a valid price and discount the discounted price lies between 0 and the price. It equals the price at 0% and is 0 at 100% |
| Pricing.ShippingCost | backend/ecommerce-backend/controllers/orderController.js:89 | Shipping is free exactly when the discounted total is strictly above 100, and is otherwise 10 |
| Pricing.ShippingBoundary | backend/ecommerce-backend/controllers/orderController.js:89 | The threshold is strict: exactly 100 pays 10 |
| Pricing.SumsAppend | backend/ecommerce-backend/controllers/orderController.js:74-76 | Each running sum grows by exactly the new line's own contribution |
| Pricing.OrderTotals | backend/ecommerce-backend/controllers/orderController.js:89-107 | An order's figures are: the number of lines; the three line sums; free shipping exactly above 100; tax at 8% of the discounted total; and a grand total equal to the discounted total plus shipping plus tax |
| Pricing.DiscountedTotalBounds | backend/ecommerce-backend/controllers/orderController.js:59-76 | For lines priced from valid products, the discounted total lies between 0 and the subtotal, and there are at least as many units as lines |
| Pricing.GrandTotalBounds | backend/ecommerce-backend/controllers/orderController.js:89-91 | An order with consistent figures has a non-negative grand total of at least its discounted total, which is at most its subtotal |
| Pricing.WorkedExample | backend/ecommerce-backend/controllers/orderController.js:59-91 | Two units at 100 with a 10% discount give 90 a unit and 180 in all, with free shipping, tax 14.4 and a grand total of 194.4 |
| OrderLifecycle.CheckRequest | backend/ecommerce-backend/controllers/orderController.js:12-34 | The request passes exactly when products is a non-empty list, all five shipping-address fields are present and non-empty, and a payment method is given. Each refusal is a 400 with its own message |
| OrderLifecycle.Snapshot | backend/ecommerce-backend/controllers/orderController.js:59-72 | A line snapshots the product's id, title, price, discount and thumbnail with the requested quantity, and is priced by the discount formula |
| OrderLifecycle.ReserveLine | backend/ecommerce-backend/controllers/orderController.js:43-85 | A line fails exactly when its product is missing (a 404 naming the id) or its stock is below the quantity. Otherwise the product is replaced by its decremented copy and the line is its snapshot |
| OrderLifecycle.ReserveAll | backend/ecommerce-backend/controllers/orderController.js:42-86 | The loop keeps the set of products. When every line reserves, it yields one priced line per request line, carrying that line's product and quantity in order |
| OrderLifecycle.ReserveStep | backend/ecommerce-backend/controllers/orderController.js:42-86 | One more pass either stops at that line's failure with the table as it was, or extends the reserved lines by its snapshot |
| OrderLifecycle.StopIsFinal | backend/ecommerce-backend/controllers/orderController.js:45-57 | Once a line fails, later lines are never looked at: the outcome of the whole loop is fixed |
| OrderLifecycle.StoppedAtPrefix | backend/ecommerce-backend/controllers/orderController.js:42-86 | A stopped loop stopped at some line k: lines before k all reserved, and line k failed on the table they left |
| OrderLifecycle.ReservedItemsMatch | backend/ecommerce-backend/controllers/orderController.js:63-72 | The lines of a completed reservation carry exactly the requested products and quantities, all priced |
| OrderLifecycle.ReservedStock | backend/ecommerce-backend/controllers/orderController.js:79 | After a completed reservation each product's stock has dropped by exactly the total quantity requested of it |
| OrderLifecycle.PlaceOrder | backend/ecommerce-backend/controllers/orderController.js:7-127 | A request failing the shape checks changes nothing. A failed request never stores an order. A successful one appends exactly the created order |
| OrderLifecycle.PlaceOrderSucceeds | backend/ecommerce-backend/controllers/orderController.js:98-119 | A created order passed the checks and reserved every line, and the table is the one the loop left. The order sits under the next id, belongs to the caller, and is pending and unpaid. It passes the schema, carries exactly the requested lines and the figures they determine, and takes its billing address from the shipping address when none is given |
| OrderLifecycle.PlaceOrderCreates | backend/ecommerce-backend/controllers/orderController.js:88-126 | When every line reserves, the result is `Order.create`'s verdict on the priced draft. A rejection is a 500 that keeps the decremented table |
| OrderLifecycle.PlaceOrderStops | backend/ecommerce-backend/controllers/orderController.js:42-57 | A loop stopped part-way answers with its failure over the table it left, storing no order |
| OrderLifecycle.PartialFailureKeepsEarlierDecrements | backend/ecommerce-backend/controllers/orderController.js:42-86 | When line k fails: no order is created, the response is that line's failure, and every product keeps exactly the decrements of lines 0..k-1 |
| OrderLifecycle.InsufficientStockReported | backend/ecommerce-backend/controllers/orderController.js:52-57 | A line asking for more than the stock fails with a 400 naming the title and the available count. That product keeps the stock it had when its line was reached |
| OrderLifecycle.UnknownProductReported | backend/ecommerce-backend/controllers/orderController.js:45-50 | A line whose product does not exist fails with a 404 naming the id |
| OrderLifecycle.RejectedDraftKeepsReservations | backend/ecommerce-backend/controllers/orderController.js:98-126 | A draft `Order.create` rejects is answered with a 500 and creates no order. Every stock decrement stays saved: such a draft has a payment method outside the enum, notes over 500 characters, or a quantity below 1 |
| OrderLifecycle.NonPositiveQuantityDoesNotLowerStock | backend/ecommerce-backend/controllers/orderController.js:52-79 | A quantity of 0 or less passes the stock check. A quantity of 0 leaves stock as it was, and a negative one raises it |
| OrderLifecycle.ReserveAllKeepsValid | backend/ecommerce-backend/controllers/orderController.js:42-86 | The reservation loop never makes stock negative: every stored product stays valid |
| OrderLifecycle.ReserveAllKeepsLabels | backend/ecommerce-backend/controllers/orderController.js:79-84 | With non-negative quantities, labels that matched the thresholds still match them after the loop |
| OrderLifecycle.PlaceOrderKeepsValid | backend/ecommerce-backend/controllers/orderController.js:7-127 | Placing an order keeps every product valid. Every stored order then passes its schema, sits at its id and carries the figures its lines determine |
| OrderLifecycle.CancelReason | backend/ecommerce-backend/controllers/orderController.js:302 | A given non-empty reason is recorded, otherwise 'Cancelled by user' |
| OrderLifecycle.CancelOrder | backend/ecommerce-backend/controllers/orderController.js:258-328 | A missing order is a 404. A caller who is neither owner nor admin gets a 403. An order shipped, delivered or cancelled gets a 400 naming its status. Each refusal changes nothing, and the cancellation succeeds exactly in the remaining case |
| OrderLifecycle.CancelOrderSucceeds | backend/ecommerce-backend/controllers/orderController.js:287-308 | A cancellation marks the order cancelled at `now` with the given or default reason. A paid order becomes refunded, any other payment status is kept, and no other field of the order changes. Every product gets back exactly the quantity the order's lines hold of it |
| OrderLifecycle.RestockStockEverywhere | backend/ecommerce-backend/controllers/orderController.js:288-297 | The cancellation loop adds to every product exactly the total quantity the lines name for it |
| OrderLifecycle.CancelKeepsValid | backend/ecommerce-backend/controllers/orderController.js:258-328 | Cancelling keeps every product and every order valid |
| OrderLifecycle.CancelPutsBack | backend/ecommerce-backend/controllers/orderController.js:272-297 | An owner's cancellation of a pending order whose lines were taken from a table succeeds and gives that table's stock back |
| OrderLifecycle.CancelRestoresPlacedStock | backend/ecommerce-backend/controllers/orderController.js:288-297 | Cancel undoes placement: an order placed and then cancelled by its owner succeeds, and every product ends with the stock it had before the order |
| OrderLifecycle.UpdateOrderStatus | backend/ecommerce-backend/controllers/orderController.js:333-382 | A missing order is a 404 and an unknown status a 400, each changing nothing. Otherwise the order takes a given status, a given tracking number, and `deliveredAt` when delivered. It is stamped, and no other field changes |
| OrderLifecycle.UpdateStatusKeepsValid | backend/ecommerce-backend/controllers/orderController.js:333-362 | Status updates keep every stored order valid with its figures untouched |
| OrderLifecycle.AdminCanReopenCancelled | backend/ecommerce-backend/controllers/orderController.js:347-355 | No transition rule guards the update: an admin can move a cancelled order back to pending |
| OrderLifecycle.GetOrderById | backend/ecommerce-backend/controllers/orderController.js:178-214 | The order is returned exactly when it exists, its owner's account still exists and the caller owns it or is an admin. A missing order is a 404. An order whose owner was deleted is a 500 (the populated owner is null), even for an admin. Otherwise a non-owner gets a 403 |
| OrderLifecycle.GetOrderStatus | backend/ecommerce-backend/controllers/orderController.js:219-253 | Any caller gets the status, payment status, tracking number and delivery time of any existing order, and a 404 otherwise |
| OrderLifecycle.NewestFirst | backend/ecommerce-backend/controllers/orderController.js:138-148 | The listed orders are exactly the caller's orders that match the status filter, later-placed orders first |
| OrderLifecycle.NewestFirstByCreation | backend/ecommerce-backend/controllers/orderController.js:145-148 | If creation times never decrease along the collection, the listed orders run from the newest creation time to the oldest, as `sort({ createdAt: -1 })` asks |
| OrderLifecycle.NewestFirstByIdDescending | backend/ecommerce-backend/controllers/orderController.js:145-148 | If ids increase along the collection, the listed orders have strictly decreasing ids |
| OrderLifecycle.ValidOrdersListNewestFirst | backend/ecommerce-backend/controllers/orderController.js:145-148 | In a valid order collection the caller's list is in strictly decreasing id order, newest first |
| OrderLifecycle.MyOrders | backend/ecommerce-backend/controllers/orderController.js:132-173 | It answers 500 exactly when the skip is negative. Otherwise the page is exactly the `skip`/`limit` window of the caller's matching orders newest first, and the pagination block is computed from all of them |
| OrderController.Shop.ReserveOne | backend/ecommerce-backend/controllers/orderController.js:43-85 | One pass of the loop: it fails exactly as the line specification does, changing nothing then. Otherwise it saves the decremented product and returns the snapshot |
| OrderController.Shop.ReserveLines | backend/ecommerce-backend/controllers/orderController.js:37-86 | The loop ends in the reservation the specification gives. Its running subtotal, discounted total and quantity are the sums over the reserved lines |
| OrderController.Shop.RecordOrder | backend/ecommerce-backend/controllers/orderController.js:88-126 | Shipping, tax and grand total from the running sums, then `Order.create`: the order is appended or a 500 returned, and the products are not touched |
| OrderController.Shop.CreateOrder | backend/ecommerce-backend/controllers/orderController.js:7-127 | `createOrder` ends in exactly the product table, order list and response `OrderLifecycle.PlaceOrder` specifies, and keeps the stored state valid |
| OrderController.Shop.RestockLines | backend/ecommerce-backend/controllers/orderController.js:288-297 | The put-back loop leaves the table the specification's restock gives and does not touch the orders |
| OrderController.Shop.CancelOrder | backend/ecommerce-backend/controllers/orderController.js:258-328 | `cancelOrder` ends in exactly the state and response `OrderLifecycle.CancelOrder` specifies, and keeps the stored state valid |
| OrderController.Shop.UpdateOrderStatus | backend/ecommerce-backend/controllers/orderController.js:333-382 | The admin's update ends in exactly the orders and response the specification gives, leaves the products alone and keeps the state valid |
| Pagination.IntOr | backend/ecommerce-backend/controllers/productController.js:8-9 | `parseInt(x) \|\| d` keeps a parsed non-zero value and falls back to the default for an absent, unparseable or zero one |
| Pagination.ParsePaging | backend/ecommerce-backend/controllers/productController.js:8-10 | Page defaults to 1 and limit to 10, a given non-zero value is kept, and skip is `(page - 1) * limit`, non-negative for positive page and limit |
| Pagination.Meta | backend/ecommerce-backend/controllers/productController.js:72-79 | `totalPages` is the least page count covering the total. A next page is announced exactly when the page is below it, and a previous page exactly when the page is above 1 |
| Pagination.NextPageExactlyWhenMoreItems | backend/ecommerce-backend/controllers/productController.js:76 | With a positive page and limit, a next page is announced exactly when items lie beyond this page |
| Pagination.NoPagesExactlyWhenEmpty | backend/ecommerce-backend/controllers/productController.js:75 | With a positive limit there are zero pages exactly when there are no items |
| Pagination.Window | backend/ecommerce-backend/controllers/productController.js:59-63 | The cursor returns the items after skip in order, as many as the limit allows and no more than remain |
| ProductController.FieldOrder | backend/ecommerce-backend/controllers/productController.js:50 | A field sorts descending exactly when it starts with '-', ascending otherwise |
| ProductController.FieldName | backend/ecommerce-backend/controllers/productController.js:51 | Exactly one '-' is dropped when there is one, the leading one when the field starts with '-'. A field without '-' is unchanged |
| ProductController.Assign | backend/ecommerce-backend/controllers/productController.js:52 | Assigning a property keeps the object well formed: distinct names, no `__proto__` property, array-index names first in ascending order |
| ProductController.AssignLookup | backend/ecommerce-backend/controllers/productController.js:52 | After `obj[field] = order` the property holds the new value, except that `__proto__` changes nothing. Every other property reads as before |
| ProductController.AssignPlaces | backend/ecommerce-backend/controllers/productController.js:52 | `__proto__` changes nothing. An existing name moves nothing. A new name is inserted exactly once, and at the end when it is an ordinary name (not an array index) |
| ProductController.AssignNew | backend/ecommerce-backend/controllers/productController.js:52 | An ordinary name the object lacks is appended with its value |
| ProductController.AssignKeepsBefore | backend/ecommerce-backend/controllers/productController.js:52 | An assignment never swaps two properties already in the object |
| ProductController.SortFromFields | backend/ecommerce-backend/controllers/productController.js:48-53 | The sort object built from the fields is a well-formed JavaScript object: no name twice, no `__proto__`, array-index names first in ascending order |
| ProductController.LaterFieldWins | backend/ecommerce-backend/controllers/productController.js:48-53 | The sort object has a property for exactly the names the fields carry, except `__proto__`. Each holds the order of the last field with that name |
| ProductController.EarlierFieldsKeepTheirOrder | backend/ecommerce-backend/controllers/productController.js:48-53 | Later fields never swap two properties that earlier fields created |
| ProductController.NewOrdinaryNameGoesLast | backend/ecommerce-backend/controllers/productController.js:48-53 | A field with an ordinary name no earlier field has adds its property at the end and leaves the rest as it was |
| ProductController.IndexFieldComesFirst | backend/ecommerce-backend/controllers/productController.js:48-53 | An array-index field given after an ordinary one still comes first in the sort object |
| ProductController.PriceThenZero | backend/ecommerce-backend/controllers/productController.js:48-53 | `sortBy=price,0` gives `{ 0: 1, price: 1 }` |
| ProductController.ProtoFieldIgnored | backend/ecommerce-backend/controllers/productController.js:48-53 | A field named `__proto__`, with or without a leading '-', leaves the sort object as it was |
| ProductController.BuildSortOption | backend/ecommerce-backend/controllers/productController.js:45-56 | The `forEach` loop builds exactly the specified sort object, which is well formed. Its properties read as the last order given for each name, and `__proto__` as nothing. Without `sortBy` the sort is newest first, `{ 'meta.createdAt': -1 }` |
| ProductController.SortOption | backend/ecommerce-backend/controllers/productController.js:45-56 | The sort object is always well formed: distinct names, no `__proto__`, array-index names first in numeric order. Without a truthy `sortBy` it is the single property `meta.createdAt: -1`. Its contents with `sortBy` are stated by LaterFieldWins |
| ProductController.SortOne | backend/ecommerce-backend/controllers/productController.js:48-53 | One field gives one property with its name and order, or none when the name is `__proto__` |
| ProductController.SortTwo | backend/ecommerce-backend/controllers/productController.js:48-53 | Two fields with different ordinary names give two properties in the order given |
| ProductController.DescendingThenAscending | backend/ecommerce-backend/controllers/productController.js:48-53 | `-price,rating` gives `{ price: -1, rating: 1 }`, for any two different ordinary names |
| ProductController.DoubleDashExample | backend/ecommerce-backend/controllers/productController.js:50-51 | Only the first '-' is removed: `--price` sorts descending on `-price` |
| ProductController.DashInsideField | backend/ecommerce-backend/controllers/productController.js:50-51 | A '-' inside a field is removed from the name, and the field still sorts ascending |
| ProductController.GetProductById | backend/ecommerce-backend/controllers/productController.js:93-121 | The product is returned exactly when it exists, otherwise a 404 'Product not found' |
| ProductController.SearchProducts | backend/ecommerce-backend/controllers/productController.js:170-229 | Without a non-empty `q` the answer is a 400 before anything else. Otherwise it is a 500 exactly when the pattern is not a valid regular expression or the skip is negative. Otherwise the page is exactly the `skip`/`limit` window of the matches, with the pagination block for all matches |
| ProductController.GetBrands | backend/ecommerce-backend/controllers/productController.js:254-269 | The list holds exactly the non-empty brand values, so nothing falsy survives and nothing truthy is lost. It is never longer than the distinct values |
| ProductController.BrandsKeepOrder | backend/ecommerce-backend/controllers/productController.js:260 | Filtering keeps the values' order: the brands of a concatenation are the brands of each part in turn |
| Cart.GetId | ReactNativeTest/src/context/CartContext.js:8 | An entry's id is the product's `_id` when that is truthy, otherwise its `id` |
| Cart.CartKey | ReactNativeTest/src/context/CartContext.js:11 | The cart key is truthy exactly when one of `_id`, `id`, `sku`, `title` is. It agrees with `getId` whenever `_id` or `id` is truthy |
| Cart.Find | ReactNativeTest/src/context/CartContext.js:19 | The lookup finds an entry filed under the key, or reports that none is |
| Cart.BumpByKey | ReactNativeTest/src/context/CartContext.js:22-26 | Every entry filed under the key gains one unit, the others stay, the length is kept |
| Cart.AddToCart | ReactNativeTest/src/context/CartContext.js:10-37 | A product with nothing to key on leaves the cart as it was. Otherwise it is in the cart afterwards under its key. The entries already there keep their products, keys and places and never lose quantity, and at most one entry is added. AddExistingBumps and AddNewAppends give each case exactly |
| Cart.AddWithoutKeyDoesNothing | ReactNativeTest/src/context/CartContext.js:11-16 | A product with no `_id`, `id`, `sku` or `title` leaves the cart unchanged |
| Cart.AddExistingBumps | ReactNativeTest/src/context/CartContext.js:19-27 | Adding under an existing key raises that entry by one and leaves every other entry and the length as they were |
| Cart.AddNewAppends | ReactNativeTest/src/context/CartContext.js:29-36 | Adding under a new key appends one entry of quantity 1 after the earlier ones |
| Cart.AddKeepsKeysUnique | ReactNativeTest/src/context/CartContext.js:18-37 | Adding keeps cart keys unique |
| Cart.IncreaseQty | ReactNativeTest/src/context/CartContext.js:41-47 | Every entry whose `getId` matches gains one unit, and every other entry, the length and the order stay |
| Cart.Lower | ReactNativeTest/src/context/CartContext.js:52-54 | Every matching entry loses one unit, the others stay, the length is kept |
| Cart.Positive | ReactNativeTest/src/context/CartContext.js:55 | The filter keeps exactly the entries with a positive quantity |
| Cart.DecreaseQty | ReactNativeTest/src/context/CartContext.js:49-57 | No entry at 0 or below survives a decrease |
| Cart.DecreaseKeepsExactly | ReactNativeTest/src/context/CartContext.js:49-57 | A decrease keeps exactly: the lowered copy of each matching entry still positive; and each other positive entry |
| Cart.PositiveKeepsOrder | ReactNativeTest/src/context/CartContext.js:55 | The filter keeps the order: filtering two carts end to end is filtering each and joining the results |
| Cart.DecreaseKeepsOrder | ReactNativeTest/src/context/CartContext.js:49-57 | A decrease keeps the order of what survives: decreasing two carts end to end is decreasing each and joining the results |
| Cart.DecreaseFromOneRemoves | ReactNativeTest/src/context/CartContext.js:49-57 | A matching entry at quantity 1 disappears |
| Cart.RemoveFromCart | ReactNativeTest/src/context/CartContext.js:59-61 | Removing never lengthens the cart |
| Cart.RemoveDropsExactlyMatching | ReactNativeTest/src/context/CartContext.js:59-61 | Removing drops exactly the entries whose `getId` matches and keeps every other one |
| Cart.RemoveKeepsOrder | ReactNativeTest/src/context/CartContext.js:59-61 | Removing keeps the order of the rest: removing from a concatenation removes from each part |
| Cart.TotalPrice | ReactNativeTest/src/context/CartContext.js:63-66 | An empty cart totals 0, and a cart with no negative price or quantity never totals below 0. TotalOfConcat and TotalOfAppend give the sum exactly |
| Cart.TotalOfConcat | ReactNativeTest/src/context/CartContext.js:63-66 | The total of two carts end to end is the sum of their totals |
| Cart.TotalOfAppend | ReactNativeTest/src/context/CartContext.js:63-66 | Appending an entry adds its price times its quantity to the total |
| Cart.AddRaisesTotalByPrice | ReactNativeTest/src/context/CartContext.js:29-36 | Adding a product under a new key raises the total by its price |
| Cart.IncreaseRaisesTotal | ReactNativeTest/src/context/CartContext.js:41-47 | Increasing raises the total by the summed prices of the entries it bumps |
| Cart.FallbackKeyedEntriesUntouched | ReactNativeTest/src/context/CartContext.js:8 | Called with a real id, increase, decrease and remove never touch an entry whose product has neither `_id` nor `id` |
| Cart.UndefinedIdMatchesAllFallbackEntries | ReactNativeTest/src/context/CartContext.js:8 | Called with `undefined`, they act on every entry whose product has no `_id` and an undefined `id` |
| RateLimiter.DefaultKey | backend/ecommerce-backend/middleware/rateLimiter.js:8 | The key is the IP when given, else the forwarded-for header when given, else 'unknown' |
| RateLimiter.Admit | backend/ecommerce-backend/middleware/rateLimiter.js:23-68 | All four branches are stated. An unseen key starts a window of 1 and passes. An expired window restarts at 1 and passes. A full window is refused with the configured status and the retry time, and changes nothing. Otherwise the count rises by one and the remaining count is reported. No other key changes |
| RateLimiter.AdmitKeepsBounded | backend/ecommerce-backend/middleware/rateLimiter.js:47-64 | No counter ever exceeds the limit: every request keeps every counter between 1 and the limit |
| RateLimiter.RetryAfterWithinWindow | backend/ecommerce-backend/middleware/rateLimiter.js:48 | A refused request is told to wait a non-negative number of seconds, and no more than one window |
| RateLimiter.RefusedUntilWindowEnds | backend/ecommerce-backend/middleware/rateLimiter.js:47-59 | Once a key has used its window, every further request inside it is refused with the configured status and leaves the state as it was |
| RateLimiter.Sweep | backend/ecommerce-backend/middleware/rateLimiter.js:14-21 | Cleanup keeps exactly the entries whose window has not passed, unchanged |
| RateLimiter.SweepIsInvisible | backend/ecommerce-backend/middleware/rateLimiter.js:14-44 | A request after an earlier cleanup gets the verdict it would have got without it, and leaves the same entry |
| RateLimiter.Limiter.Handle | backend/ecommerce-backend/middleware/rateLimiter.js:23-68 | The middleware closure leaves the map and returns the verdict the admission function gives |
| RateLimiter.Limiter.Cleanup | backend/ecommerce-backend/middleware/rateLimiter.js:16-20 | The deleting loop leaves exactly the swept map |
| ErrorHandler.StatusOr500 | backend/ecommerce-backend/middleware/errorHandler.js:18 | A non-zero status is kept; an absent or zero one becomes 500 |
| ErrorHandler.HandleError | backend/ecommerce-backend/middleware/errorHandler.js:17-57 | The sequence of overriding checks answers exactly as the priority list: token errors, validation, duplicate key, cast error, then the error's own fields |
| ErrorHandler.Classify | backend/ecommerce-backend/middleware/errorHandler.js:17-57 | Every answer has a real status. A 500 comes only from an error none of the checks recognises, and a 404 only from a cast error or an error carrying status 404. The lemmas below state each branch |
| ErrorHandler.UnrecognisedKeepsOwnFields | backend/ecommerce-backend/middleware/errorHandler.js:18-19 | An error no check recognises keeps its own status (else 500) and message (else 'Internal Server Error') |
| ErrorHandler.CastErrorIsNotFound | backend/ecommerce-backend/middleware/errorHandler.js:22-25 | A cast error without the duplicate-key code is a 404 'Resource not found' |
| ErrorHandler.DuplicateKeyIsBadRequest | backend/ecommerce-backend/middleware/errorHandler.js:28-32 | A duplicate key is a 400 naming the first field, whatever the error's own status, unless a later check matches |
| ErrorHandler.ValidationListsEveryMessage | backend/ecommerce-backend/middleware/errorHandler.js:35-39 | A validation error is a 400 listing every field message joined by ', ' (a single message alone) |
| ErrorHandler.TokenErrorsAreUnauthorized | backend/ecommerce-backend/middleware/errorHandler.js:42-50 | Both token errors are 401s with their own messages, overriding every earlier check |
| ErrorHandler.StatusIsOneOfKnown | backend/ecommerce-backend/middleware/errorHandler.js:17-57 | Every status sent is 400, 401, 404, 500 or the error's own non-zero status |
| ErrorHandler.NotFound | backend/ecommerce-backend/middleware/errorHandler.js:2-14 | An unmatched route raises an `ApiError` carrying status 404 |
| ErrorHandler.NotFoundAnswers404 | backend/ecommerce-backend/middleware/errorHandler.js:11-14 | An unmatched route is always answered 404 with the URL in the message |
| UserController.ProfileRules | backend/ecommerce-backend/controllers/userController.js:58-61 | A name is replaced exactly when the new value is truthy, and kept when it is missing, null or empty. Phone and image are replaced whenever the body carries them, an empty string or null included, and kept when it does not. Email, role and password never change |
| UserController.ApplyProfile | backend/ecommerce-backend/controllers/userController.js:58-67 | Email, role and password are never touched, and no stored address key is lost. ProfileRules and AddressMergeRules state every field |
| UserController.AddressMergeRules | backend/ecommerce-backend/controllers/userController.js:62-67 | The address merge keeps every stored and supplied key. Supplied values win, and unsupplied keys keep their stored values |
| UserController.ProfileIdempotent | backend/ecommerce-backend/controllers/userController.js:58-67 | Sending the same update twice has the effect of sending it once |
| UserController.EmptyUpdateChangesNothing | backend/ecommerce-backend/controllers/userController.js:58-59 | A body with no usable field leaves the user as stored |
| UserController.UpdateProfileOutcome | backend/ecommerce-backend/controllers/userController.js:44-94 | A missing user is a 404 changing nothing. Otherwise the merged user is stored under its id and returned |
| UserController.UpdatePasswordOutcome | backend/ecommerce-backend/controllers/userController.js:99-142 | The change succeeds exactly when both passwords are given, the new one has at least six characters, the user exists and the current one matches. Every refusal changes nothing |
| UserController.MissingPasswordRefused | backend/ecommerce-backend/controllers/userController.js:103-108 | A missing or empty password of either kind is refused with the 400 before anything else is looked at |
| UserController.ShortPasswordRefused | backend/ecommerce-backend/controllers/userController.js:110-115 | A new password under six characters is refused with the second 400, whether or not the user exists |
| UserController.WrongPasswordKeepsStored | backend/ecommerce-backend/controllers/userController.js:127-134 | A wrong current password gives a 401 and the stored password is unchanged |
| UserController.PasswordChangeIsolated | backend/ecommerce-backend/controllers/userController.js:136-137 | A successful change stores the new password (at least six characters) for that user only and touches no other field or user |
| UserController.UserStore.UpdateProfile | backend/ecommerce-backend/controllers/userController.js:44-69 | The field-by-field assignments leave the users and response the profile specification gives |
| UserController.UserStore.UpdatePassword | backend/ecommerce-backend/controllers/userController.js:99-137 | The early-return sequence leaves the users and response the password specification gives |

## Left out

- Persistence: MongoDB and Mongoose (`findById`, `save`, `create`, `countDocuments`, `populate`) are in-memory maps and sequences. Saves are assumed to succeed. `populate`'s embedding of the user's name and email is not modelled; whether the populated owner still exists is the parameter `users` of `OrderLifecycle.GetOrderById`.
- Database matching: the regular-expression filters of `getProducts`, `getProductsByCategory` and `searchProducts`, and `distinct`, are library behaviour. `searchProducts` and `getBrands` take the matched documents or distinct values as a parameter. Whether `q` is a well-formed regular expression (`new RegExp(q, 'i')` throws otherwise) is the parameter `patternValid`.
- getProducts: the filter document (category, brand, price range, in-stock, search) and executing the sort object are not modelled, for the same reason. Only the sort object and the paging are.
- getProductsByCategory, getCategories: a regular-expression query and a `distinct` call around the same paging arithmetic, so nothing of theirs is left once the database is removed.
- The `select('-reviews')` and `select(...)` projections: responses carry whole documents, and `getOrderStatus` its fields without the estimated delivery date.
- The estimated delivery date: `Math.random` and `Date` are not modelled, so orders carry no estimated delivery date.
- Time: every `Date.now()` is a parameter `now`, and the creation-time sort of `getMyOrders` is insertion order newest first. That is the same order when the clock never runs backwards (`OrderLifecycle.NewestFirstByCreation`). Ties between equal creation times, which the database may order either way, are listed later-placed first.
- Concurrency between simultaneous requests: every handler runs atomically on the stored state.
- Floating point: money is exact `real`, so no rounding in the totals is modelled.
- Malformed ObjectIds: ids here are natural numbers, so a malformed id cannot be written. In the source, a malformed `:id` raises a CastError, which `getOrderById`, `getOrderStatus`, `cancelOrder` and `updateOrderStatus` turn into a 404. `createOrder`'s catch has no CastError branch: a malformed `productId` on a later line is a 500 that keeps the earlier lines' stock decrements, like the modelled `Order.create` failure.
- Quantities are whole numbers: `Movement.quantity` and `OrderItem.quantity` are `int`, and the model covers zero and negative values. In the source a quantity is whatever the request body carries. A fractional 1.5 passes the stock check and leaves a fractional stock (10 becomes 8.5, labelled 'Low Stock'). A missing quantity makes the stock NaN, the save fails, and the catch-all 500 keeps the earlier lines' decrements. A string quantity is concatenated into `totalQuantity`. None of these is modelled.
- String length: JavaScript counts UTF-16 code units; the model counts characters (`|s|`).
- The `error` field of the 500 responses: it carries a driver message that cannot be seen here.
- The `stack` field in development mode, and the constant `success: false` of every error body.
- Rate limiter timer and headers: the `setInterval` timer that runs the cleanup is not modelled, though the pass itself is; nor are the response headers set with `res.set`.
- ErrorHandler.FirstField: an `err.keyValue` that is undefined throws inside the handler. The model assumes the key list exists, possibly empty.
- User.js is not part of this model: the password hashing pre-save hook and the user schema's validators are not modelled, and `matchPassword` is a parameter.
- getProfile, deleteAccount and the auth controller: each is a lookup or create around foreign calls (JWT signing, bcrypt).
- The client's AuthContext, API wrappers, secure storage and UI screens: device and network code.
- The seed script, server wiring and routes: configuration. Only the admin guard on status updates is kept, as a precondition.
- Non-positive request quantities are accepted by `createOrder` as written. The model keeps this and proves its effect (`OrderLifecycle.NonPositiveQuantityDoesNotLowerStock`), rather than rejecting such requests.
- Cart.DecreaseQty: its own contract states only that no non-positive entry survives. What it keeps is stated by `Cart.DecreaseKeepsExactly`, and that it keeps their order by `Cart.DecreaseKeepsOrder`.
- Cart.RemoveFromCart: its own contract states only the length bound. Contents and order are stated by `Cart.RemoveDropsExactlyMatching` and `Cart.RemoveKeepsOrder`.
