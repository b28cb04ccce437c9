/**
 * The order controller's operations as functions of the stored state: the
 * product table and the order collection before a request, and the two after
 * it together with the response. These are the specifications the imperative
 * `OrderController.Shop` is proved against, and the lemmas here are the
 * properties of the order lifecycle.
 */
module OrderLifecycle {
  import opened Wrappers
  import opened Http
  import Js
  import opened ProductModel
  import opened OrderModel
  import opened Inventory
  import opened Pricing
  import Pagination

  /** `req.user`: the authenticated caller. */
  datatype Requester = Requester(id: UserId, role: string)

  predicate IsAdmin(who: Requester) {
    who.role == "admin"
  }

  /** Only the owner or an admin may read or cancel an order. */
  predicate MayAccess(who: Requester, o: Order) {
    o.user == who.id || IsAdmin(who)
  }

  /** The body of `POST /api/orders`; `None` is an absent (or, for `products`, non-array) field. */
  datatype OrderRequest = OrderRequest(
    products: Option<seq<Movement>>,
    shippingAddress: Option<Address>,
    billingAddress: Option<Address>,
    paymentMethod: Option<string>,
    notes: Option<string>)

  /** The three shape checks, in order, before anything is read or written. */
  function CheckRequest(req: OrderRequest): (r: Option<Failure>)
    ensures r.None? <==> && req.products.Some? && req.products.value != []
                         && req.shippingAddress.Some? && CompleteAddress(req.shippingAddress.value)
                         && Js.Truthy(req.paymentMethod)
    ensures (req.products.None? || req.products.value == []) ==> r == Some(Failure(BadRequest, "Please provide products to order"))
    ensures r.Some? ==> r.value.status == BadRequest
  {
    if req.products.None? || req.products.value == [] then
      Some(Failure(BadRequest, "Please provide products to order"))
    else if req.shippingAddress.None? || !CompleteAddress(req.shippingAddress.value) then
      Some(Failure(BadRequest, "Please provide complete shipping address"))
    else if !Js.Truthy(req.paymentMethod) then
      Some(Failure(BadRequest, "Please provide payment method"))
    else None
  }

  /** The line snapshot taken from the product found under `id` as it stands when its line is reached. */
  function Snapshot(id: ProductId, p: Product, q: int): (i: OrderItem)
    ensures PricedItem(i)
    ensures i.product == id && i.title == p.title && i.price == p.price && i.quantity == q
    ensures i.discountPercentage == p.discountPercentage && i.thumbnail == Some(p.thumbnail)
    ensures ValidProduct(p) && q >= 1 ==> SaneItem(i) && ValidItem(i)
  {
    var discounted := DiscountedPrice(p.price, p.discountPercentage);
    OrderItem(id, p.title, p.price, q, Some(p.thumbnail), p.discountPercentage,
              discounted, LineTotal(discounted, q))
  }

  function NotFoundMessage(id: ProductId): string {
    "Product not found: " + Js.NatToString(id)
  }

  function InsufficientStockMessage(p: Product): string {
    "Insufficient stock for product: " + p.title + ". Available: " + Js.IntToString(p.stock)
  }

  /** One pass of the reservation loop: look the product up, check its stock, decrement and save. */
  function ReserveLine(t: Table, m: Movement, now: int): (r: Result<(Table, OrderItem), Failure>)
    ensures r.Err? <==> m.product !in t || t[m.product].stock < m.quantity
    ensures m.product !in t ==> r.error == Failure(NotFound, "Product not found: " + Js.NatToString(m.product))
    ensures r.Ok? ==> && r.value.0 == t[m.product := Take(t[m.product], m.quantity, now)]
                      && r.value.1 == Snapshot(m.product, t[m.product], m.quantity)
  {
    if m.product !in t then Err(Failure(NotFound, NotFoundMessage(m.product)))
    else
      var p := t[m.product];
      if p.stock < m.quantity then Err(Failure(BadRequest, InsufficientStockMessage(p)))
      else Ok((t[m.product := Take(p, m.quantity, now)], Snapshot(m.product, p, m.quantity)))
  }

  /** Where the reservation loop ends: every line reserved, or stopped at the first failing one. */
  datatype Reservation = Reserved(table: Table, items: seq<OrderItem>) | Stopped(table: Table, failure: Failure)

  /**
   * The reservation loop over all lines in order. Each line's decrement is
   * saved before the next line is looked at, so a failure keeps the table
   * as the earlier lines left it.
   */
  function ReserveAll(t: Table, ms: seq<Movement>, now: int): (r: Reservation)
    ensures r.table.Keys == t.Keys
    ensures r.Reserved? ==> |r.items| == |ms|
    ensures r.Reserved? ==> forall k :: 0 <= k < |ms| ==>
              r.items[k].product == ms[k].product && r.items[k].quantity == ms[k].quantity && PricedItem(r.items[k])
    decreases |ms|
  {
    if ms == [] then Reserved(t, [])
    else
      match ReserveAll(t, ms[..|ms| - 1], now)
      case Stopped(t', f) => Stopped(t', f)
      case Reserved(t', items) =>
        var line := ReserveLine(t', ms[|ms| - 1], now);
        if line.Err? then Stopped(t', line.error)
        else
          var item := line.value.1;
          assert item.product == ms[|ms| - 1].product && item.quantity == ms[|ms| - 1].quantity && PricedItem(item);
          assert forall k :: 0 <= k < |items| ==> (items + [item])[k] == items[k] && ms[..|ms| - 1][k] == ms[k];
          Reserved(line.value.0, items + [item])
  }

  /** The loop's table after the last line: the earlier lines' table, updated by the last line when it reserves. */
  lemma ReserveLast(t: Table, ms: seq<Movement>, now: int)
    requires ms != []
    ensures var prev := ReserveAll(t, ms[..|ms| - 1], now);
      var line := ReserveLine(prev.table, ms[|ms| - 1], now);
      ReserveAll(t, ms, now).table == if prev.Reserved? && line.Ok? then line.value.0 else prev.table
  {
  }

  /** The (product, quantity) pairs an order's lines carry. */
  function ItemMovements(items: seq<OrderItem>): (ms: seq<Movement>)
    ensures |ms| == |items|
    ensures forall k :: 0 <= k < |items| ==> ms[k] == Movement(items[k].product, items[k].quantity)
  {
    seq(|items|, k requires 0 <= k < |items| => Movement(items[k].product, items[k].quantity))
  }

  /** The state after a request and the response it produced. */
  datatype Step<T> = Step(products: Table, orders: seq<Order>, outcome: Result<T, Failure>)

  /** Every stored order passes its schema, sits at its own id and carries the figures its lines determine. */
  predicate ValidOrders(orders: seq<Order>) {
    forall k :: 0 <= k < |orders| ==> orders[k].id == k && ValidOrder(orders[k]) && ConsistentTotals(orders[k])
  }

  /** The draft `Order.create` receives once every line is reserved. */
  function Draft(user: UserId, req: OrderRequest, items: seq<OrderItem>): OrderDraft
    requires req.shippingAddress.Some? && req.paymentMethod.Some?
  {
    var totals := OrderTotals(items);
    OrderDraft(user, items, totals.totalProducts, totals.totalQuantity, totals.subtotal,
               totals.discountedTotal, totals.shippingCost, totals.tax, totals.grandTotal,
               req.shippingAddress.value, req.billingAddress.GetOr(req.shippingAddress.value),
               req.paymentMethod.value, req.notes)
  }

  /**
   * `createOrder`: shape checks, the reservation loop, pricing, then
   * `Order.create`, whose validation failure is a 500 that keeps every
   * reservation already saved.
   */
  function PlaceOrder(t: Table, orders: seq<Order>, user: UserId, req: OrderRequest, now: int): (r: Step<Order>)
    ensures CheckRequest(req).Some? ==> r == Step(t, orders, Err(CheckRequest(req).value))
    ensures r.outcome.Err? ==> r.orders == orders
    ensures r.outcome.Ok? ==> r.orders == orders + [r.outcome.value]
  {
    if CheckRequest(req).Some? then Step(t, orders, Err(CheckRequest(req).value))
    else
      match ReserveAll(t, req.products.value, now)
      case Stopped(t', f) => Step(t', orders, Err(f))
      case Reserved(t', items) =>
        match CreateOrderRecord(Draft(user, req, items), |orders|, now)
        case Err(_) => Step(t', orders, Err(ServerErrorFailure))
        case Ok(o) => Step(t', orders + [o], Ok(o))
  }

  /**
   * A created order is appended under the next id, pending and unpaid, passes
   * the schema, carries the figures its lines determine and exactly the
   * requested lines, and takes the billing address from the shipping
   * address when none is given.
   */
  lemma PlaceOrderSucceeds(t: Table, orders: seq<Order>, user: UserId, req: OrderRequest, now: int)
    requires PlaceOrder(t, orders, user, req, now).outcome.Ok?
    ensures var r := PlaceOrder(t, orders, user, req, now);
      && CheckRequest(req).None? && ReserveAll(t, req.products.value, now).Reserved?
      && r.products == ReserveAll(t, req.products.value, now).table
      && r.orders == orders + [r.outcome.value]
      && var o := r.outcome.value;
      && o.id == |orders| && o.user == user
      && o.status == Pending && o.paymentStatus == PaymentPending
      && ValidOrder(o) && ConsistentTotals(o)
      && ItemMovements(o.products) == req.products.value
      && req.shippingAddress == Some(o.shippingAddress)
      && o.billingAddress == req.billingAddress.GetOr(o.shippingAddress)
      && o.createdAt == now && o.updatedAt == now
  {
    ReservedItemsMatch(t, req.products.value, now);
  }

  /** The lines of a completed reservation are priced snapshots of exactly the requested movements. */
  lemma ReservedItemsMatch(t: Table, ms: seq<Movement>, now: int)
    ensures ReserveAll(t, ms, now).Reserved? ==>
              ItemMovements(ReserveAll(t, ms, now).items) == ms && AllPriced(ReserveAll(t, ms, now).items)
  {
    var r := ReserveAll(t, ms, now);
    if r.Reserved? {
      assert ItemMovements(r.items) == ms;
    }
  }

  /** When every line is reserved, each product's stock has dropped by exactly the quantity requested for it. */
  lemma {:induction false} ReservedStock(t: Table, ms: seq<Movement>, now: int, id: ProductId)
    requires ReserveAll(t, ms, now).Reserved? && id in t
    ensures ReserveAll(t, ms, now).table.Keys == t.Keys
    ensures ReserveAll(t, ms, now).table[id].stock == t[id].stock - QuantityOf(ms, id)
    decreases |ms|
  {
    if ms != [] {
      ReservedStock(t, ms[..|ms| - 1], now, id);
    }
  }

  /** A stopped loop's table is the table some prefix of the lines left behind. */
  lemma {:induction false} StoppedAtPrefix(t: Table, ms: seq<Movement>, now: int)
    requires ReserveAll(t, ms, now).Stopped?
    ensures exists k :: 0 <= k < |ms| && ReserveAll(t, ms[..k], now).Reserved?
                        && ReserveAll(t, ms[..k], now).table == ReserveAll(t, ms, now).table
                        && ReserveLine(ReserveAll(t, ms, now).table, ms[k], now) == Err(ReserveAll(t, ms, now).failure)
    decreases |ms|
  {
    var init := ms[..|ms| - 1];
    assert init[..|init|] == init;
    if ReserveAll(t, init, now).Stopped? {
      StoppedAtPrefix(t, init, now);
      var k :| 0 <= k < |init| && ReserveAll(t, init[..k], now).Reserved?
                && ReserveAll(t, init[..k], now).table == ReserveAll(t, init, now).table
                && ReserveLine(ReserveAll(t, init, now).table, init[k], now) == Err(ReserveAll(t, init, now).failure);
      assert init[..k] == ms[..k] && init[k] == ms[k];
    } else {
      assert ms[..|ms| - 1] == init;
    }
  }

  /** One more pass of the reservation loop, from a prefix that reserved every line. */
  lemma ReserveStep(t: Table, ms: seq<Movement>, i: nat, now: int)
    requires i < |ms| && ReserveAll(t, ms[..i], now).Reserved?
    ensures var prev := ReserveAll(t, ms[..i], now);
      var line := ReserveLine(prev.table, ms[i], now);
      ReserveAll(t, ms[..i + 1], now) == if line.Err? then Stopped(prev.table, line.error)
                                         else Reserved(line.value.0, prev.items + [line.value.1])
  {
    assert ms[..i + 1][..i] == ms[..i];
  }

  /** A request whose lines all reserve ends in `Order.create`'s verdict on the priced draft. */
  lemma PlaceOrderCreates(t: Table, orders: seq<Order>, user: UserId, req: OrderRequest, now: int)
    requires CheckRequest(req).None? && ReserveAll(t, req.products.value, now).Reserved?
    ensures var res := ReserveAll(t, req.products.value, now);
      var created := CreateOrderRecord(Draft(user, req, res.items), |orders|, now);
      PlaceOrder(t, orders, user, req, now) == if created.Err? then Step(res.table, orders, Err(ServerErrorFailure))
                                               else Step(res.table, orders + [created.value], Ok(created.value))
  {
  }

  /** A request that stops part-way through its lines ends with the table the loop left and the failure it stopped at. */
  lemma PlaceOrderStops(t: Table, orders: seq<Order>, user: UserId, req: OrderRequest, now: int, k: nat)
    requires CheckRequest(req).None? && k <= |req.products.value|
    requires ReserveAll(t, req.products.value[..k], now).Stopped?
    ensures var res := ReserveAll(t, req.products.value[..k], now);
      PlaceOrder(t, orders, user, req, now) == Step(res.table, orders, Err(res.failure))
  {
    StopIsFinal(t, req.products.value, k, now);
  }

  /** Once a line fails, the later lines are never looked at: the loop's outcome is fixed. */
  lemma {:induction false} StopIsFinal(t: Table, ms: seq<Movement>, k: nat, now: int)
    requires k <= |ms| && ReserveAll(t, ms[..k], now).Stopped?
    ensures ReserveAll(t, ms, now) == ReserveAll(t, ms[..k], now)
    decreases |ms| - k
  {
    if k < |ms| {
      var next := ms[..k + 1];
      assert next[..k] == ms[..k];
      assert next[..|next| - 1] == ms[..k];
      StopIsFinal(t, ms, k + 1, now);
    } else {
      assert ms[..k] == ms;
    }
  }

  /**
   * The partial-failure gap: when line k fails (unknown product or too
   * little stock), lines 0..k-1 stay decremented, the failing product is as
   * they left it, and no order is created.
   */
  lemma PartialFailureKeepsEarlierDecrements(t: Table, orders: seq<Order>, user: UserId, req: OrderRequest, now: int, k: nat)
    requires CheckRequest(req).None?
    requires k < |req.products.value|
    requires ReserveAll(t, req.products.value[..k], now).Reserved?
    requires ReserveLine(ReserveAll(t, req.products.value[..k], now).table, req.products.value[k], now).Err?
    ensures var r := PlaceOrder(t, orders, user, req, now);
      && r.orders == orders
      && r.products == ReserveAll(t, req.products.value[..k], now).table
      && r.outcome == Err(ReserveLine(r.products, req.products.value[k], now).error)
      && forall id :: id in t ==> r.products[id].stock == t[id].stock - QuantityOf(req.products.value[..k], id)
  {
    var ms := req.products.value;
    var prefix := ms[..k];
    var next := ms[..k + 1];
    assert next[..|next| - 1] == prefix;
    assert next[|next| - 1] == ms[k];
    StopIsFinal(t, ms, k + 1, now);
    forall id | id in t
      ensures ReserveAll(t, prefix, now).table[id].stock == t[id].stock - QuantityOf(prefix, id)
    {
      ReservedStock(t, prefix, now, id);
    }
  }

  /**
   * A line asking for more than the stock fails with a 400 naming the
   * product's title and the available count, and that product keeps the
   * stock it had when its line was reached.
   */
  lemma InsufficientStockReported(t: Table, orders: seq<Order>, user: UserId, req: OrderRequest, now: int, k: nat)
    requires CheckRequest(req).None?
    requires k < |req.products.value|
    requires ReserveAll(t, req.products.value[..k], now).Reserved?
    requires var before := ReserveAll(t, req.products.value[..k], now).table;
      req.products.value[k].product in before && before[req.products.value[k].product].stock < req.products.value[k].quantity
    ensures var before := ReserveAll(t, req.products.value[..k], now).table;
      var p := before[req.products.value[k].product];
      var r := PlaceOrder(t, orders, user, req, now);
      && r.outcome == Err(Failure(400, "Insufficient stock for product: " + p.title + ". Available: " + Js.IntToString(p.stock)))
      && r.products[req.products.value[k].product] == p && r.orders == orders
  {
    PartialFailureKeepsEarlierDecrements(t, orders, user, req, now, k);
  }

  /** A product id that resolves to nothing fails with a 404 naming the id. */
  lemma UnknownProductReported(t: Table, orders: seq<Order>, user: UserId, req: OrderRequest, now: int, k: nat)
    requires CheckRequest(req).None?
    requires k < |req.products.value|
    requires ReserveAll(t, req.products.value[..k], now).Reserved?
    requires req.products.value[k].product !in t
    ensures PlaceOrder(t, orders, user, req, now).outcome == Err(Failure(404, "Product not found: " + Js.NatToString(req.products.value[k].product)))
  {
    PartialFailureKeepsEarlierDecrements(t, orders, user, req, now, k);
  }

  /**
   * Every line reserved but `Order.create` rejects the draft (a payment
   * method outside the enum, a quantity below 1, notes over 500
   * characters): the response is a 500, no order exists, and every
   * decrement stays saved.
   */
  lemma RejectedDraftKeepsReservations(t: Table, orders: seq<Order>, user: UserId, req: OrderRequest, now: int)
    requires CheckRequest(req).None?
    requires ReserveAll(t, req.products.value, now).Reserved?
    requires ParsePaymentMethod(req.paymentMethod.value).None?
             || NotesFit(req.notes) == false
             || exists k :: 0 <= k < |req.products.value| && req.products.value[k].quantity < 1
    ensures var r := PlaceOrder(t, orders, user, req, now);
      && r == Step(ReserveAll(t, req.products.value, now).table, orders, Err(ServerErrorFailure))
      && forall id :: id in t ==> r.products[id].stock == t[id].stock - QuantityOf(req.products.value, id)
  {
    var ms := req.products.value;
    var res := ReserveAll(t, ms, now);
    ReservedItemsMatch(t, ms, now);
    var d := Draft(user, req, res.items);
    if exists k :: 0 <= k < |ms| && ms[k].quantity < 1 {
      var k :| 0 <= k < |ms| && ms[k].quantity < 1;
      assert ItemMovements(res.items)[k] == ms[k];
      assert !ValidItem(d.products[k]);
    }
    assert DraftViolations(d) != [];
    assert CreateOrderRecord(d, |orders|, now).Err?;
    forall id | id in t
      ensures res.table[id].stock == t[id].stock - QuantityOf(ms, id)
    {
      ReservedStock(t, ms, now, id);
    }
  }

  /**
   * A request quantity of 0 or below is not rejected up front: it passes the
   * stock check and lowers stock by it, so 0 leaves stock as it was and a
   * negative quantity raises it; the order is refused only afterwards.
   */
  lemma NonPositiveQuantityDoesNotLowerStock(p: Product, q: int, now: int)
    requires ValidProduct(p) && q < 1
    ensures ReserveLine(map[p.id := p], Movement(p.id, q), now).Ok?
    ensures q == 0 ==> ReserveLine(map[p.id := p], Movement(p.id, q), now).value.0[p.id].stock == p.stock
    ensures q < 0 ==> ReserveLine(map[p.id := p], Movement(p.id, q), now).value.0[p.id].stock > p.stock
  {
  }

  /** The loop keeps every stored product valid, so each of its saves succeeds. */
  lemma {:induction false} ReserveAllKeepsValid(t: Table, ms: seq<Movement>, now: int)
    requires ValidTable(t)
    ensures ValidTable(ReserveAll(t, ms, now).table)
    decreases |ms|
  {
    if ms != [] {
      var init := ms[..|ms| - 1];
      var m := ms[|ms| - 1];
      ReserveAllKeepsValid(t, init, now);
      var prev := ReserveAll(t, init, now);
      ReserveLast(t, ms, now);
      if prev.Reserved? && ReserveLine(prev.table, m, now).Ok? {
        var p := prev.table[m.product];
        TakeKeepsValid(p, m.quantity, now);
        SaveKeepsValid(prev.table, Take(p, m.quantity, now));
      }
    }
  }

  /** With non-negative quantities the loop keeps threshold-consistent labels consistent. */
  lemma {:induction false} ReserveAllKeepsLabels(t: Table, ms: seq<Movement>, now: int)
    requires forall id :: id in t ==> LabelConsistent(t[id])
    requires forall k :: 0 <= k < |ms| ==> ms[k].quantity >= 0
    ensures forall id :: id in ReserveAll(t, ms, now).table ==> LabelConsistent(ReserveAll(t, ms, now).table[id])
    decreases |ms|
  {
    if ms != [] {
      var init := ms[..|ms| - 1];
      assert forall k :: 0 <= k < |init| ==> init[k] == ms[k];
      ReserveAllKeepsLabels(t, init, now);
      var prev := ReserveAll(t, init, now);
      if prev.Reserved? {
        var m := ms[|ms| - 1];
        if m.product in prev.table && prev.table[m.product].stock >= m.quantity {
          TakeKeepsLabelConsistent(prev.table[m.product], m.quantity, now);
        }
      }
    }
  }

  /** Creating an order keeps the stored state valid. */
  lemma PlaceOrderKeepsValid(t: Table, orders: seq<Order>, user: UserId, req: OrderRequest, now: int)
    requires ValidTable(t) && ValidOrders(orders)
    ensures ValidTable(PlaceOrder(t, orders, user, req, now).products)
    ensures ValidOrders(PlaceOrder(t, orders, user, req, now).orders)
  {
    var r := PlaceOrder(t, orders, user, req, now);
    if CheckRequest(req).None? {
      ReserveAllKeepsValid(t, req.products.value, now);
    }
    if r.outcome.Ok? {
      var o := r.outcome.value;
      forall k | 0 <= k < |r.orders|
        ensures r.orders[k].id == k && ValidOrder(r.orders[k]) && ConsistentTotals(r.orders[k])
      {
        if k < |orders| {
          assert r.orders[k] == orders[k];
        } else {
          assert r.orders[k] == o;
        }
      }
    }
  }

  /** The statuses from which an order can no longer be cancelled. */
  predicate Final(s: OrderStatus) {
    s == Shipped || s == Delivered || s == Cancelled
  }

  function CancelReason(reason: Option<string>): (r: string)
    ensures Js.Truthy(reason) ==> r == reason.value
    ensures !Js.Truthy(reason) ==> r == "Cancelled by user"
  {
    if Js.Truthy(reason) then reason.value else "Cancelled by user"
  }

  /**
   * `cancelOrder`: lookup, ownership, status guard, then every line's
   * quantity goes back into its product and the order is marked cancelled
   * (a paid order becomes refunded).
   */
  function CancelOrder(t: Table, orders: seq<Order>, who: Requester, id: OrderId, reason: Option<string>, now: int): (r: Step<Order>)
    ensures id >= |orders| ==> r == Step(t, orders, Err(Failure(NotFound, "Order not found")))
    ensures id < |orders| && !MayAccess(who, orders[id]) ==> r == Step(t, orders, Err(Failure(Forbidden, "Not authorized to cancel this order")))
    ensures id < |orders| && MayAccess(who, orders[id]) && Final(orders[id].status) ==>
              r == Step(t, orders, Err(Failure(BadRequest, "Cannot cancel order with status: " + StatusName(orders[id].status))))
    ensures r.outcome.Ok? <==> id < |orders| && MayAccess(who, orders[id]) && !Final(orders[id].status)
  {
    if id >= |orders| then Step(t, orders, Err(Failure(NotFound, "Order not found")))
    else
      var o := orders[id];
      if !MayAccess(who, o) then Step(t, orders, Err(Failure(Forbidden, "Not authorized to cancel this order")))
      else if Final(o.status) then
        Step(t, orders, Err(Failure(BadRequest, "Cannot cancel order with status: " + StatusName(o.status))))
      else
        var o' := TouchOrder(o.(status := Cancelled, cancelledAt := Some(now),
                                cancellationReason := Some(CancelReason(reason)),
                                paymentStatus := if o.paymentStatus == Paid then Refunded else o.paymentStatus), now);
        Step(Restock(t, ItemMovements(o.products), now), orders[id := o'], Ok(o'))
  }

  /**
   * A cancellation marks the order cancelled with the given reason (or the
   * default one), refunds a paid order, changes no other field of it, and
   * gives every product back the quantity the order's lines hold of it.
   */
  lemma CancelOrderSucceeds(t: Table, orders: seq<Order>, who: Requester, id: OrderId, reason: Option<string>, now: int)
    requires CancelOrder(t, orders, who, id, reason, now).outcome.Ok?
    ensures var r := CancelOrder(t, orders, who, id, reason, now);
      var o := r.outcome.value;
      && r.orders == orders[id := o]
      && o.status == Cancelled && o.cancelledAt == Some(now) && o.updatedAt == now
      && o.cancellationReason == Some(CancelReason(reason))
      && o.paymentStatus == (if orders[id].paymentStatus == Paid then Refunded else orders[id].paymentStatus)
      && o.(status := orders[id].status, cancelledAt := orders[id].cancelledAt, updatedAt := orders[id].updatedAt,
            cancellationReason := orders[id].cancellationReason, paymentStatus := orders[id].paymentStatus) == orders[id]
      && r.products.Keys == t.Keys
      && forall pid :: pid in t ==> r.products[pid].stock == t[pid].stock + QuantityOf(ItemMovements(orders[id].products), pid)
  {
    RestockStockEverywhere(t, ItemMovements(orders[id].products), now);
  }

  lemma RestockStockEverywhere(t: Table, ms: seq<Movement>, now: int)
    ensures forall pid :: pid in t ==> Restock(t, ms, now)[pid].stock == t[pid].stock + QuantityOf(ms, pid)
  {
    forall pid | pid in t
      ensures Restock(t, ms, now)[pid].stock == t[pid].stock + QuantityOf(ms, pid)
    {
      RestockStock(t, ms, now, pid);
    }
  }

  /** Cancelling keeps the stored state valid and restores threshold-consistent labels on every product it touches. */
  lemma CancelKeepsValid(t: Table, orders: seq<Order>, who: Requester, id: OrderId, reason: Option<string>, now: int)
    requires ValidTable(t) && ValidOrders(orders)
    ensures var r := CancelOrder(t, orders, who, id, reason, now);
      ValidTable(r.products) && ValidOrders(r.orders)
  {
    if id < |orders| && MayAccess(who, orders[id]) && !Final(orders[id].status) {
      var ms := ItemMovements(orders[id].products);
      assert forall k :: 0 <= k < |ms| ==> ms[k].quantity >= 1 by {
        forall k | 0 <= k < |ms| ensures ms[k].quantity >= 1 {
          assert ValidItem(orders[id].products[k]);
        }
      }
      RestockKeepsValid(t, ms, now);
    }
  }

  /** What cancelling a just-placed order needs of it: its owner, its status, its lines and the table the loop left. */
  lemma PlacedLines(t: Table, orders: seq<Order>, user: UserId, req: OrderRequest, now: int)
    requires PlaceOrder(t, orders, user, req, now).outcome.Ok?
    ensures var r := PlaceOrder(t, orders, user, req, now);
      && CheckRequest(req).None? && ReserveAll(t, req.products.value, now).Reserved?
      && r.products == ReserveAll(t, req.products.value, now).table
      && |r.orders| == |orders| + 1 && r.orders[|orders|] == r.outcome.value
      && r.outcome.value.user == user && r.outcome.value.status == Pending
      && ItemMovements(r.outcome.value.products) == req.products.value
  {
    PlaceOrderSucceeds(t, orders, user, req, now);
  }

  /**
   * Cancel undoes placement: placing an order and then cancelling it (as
   * its owner, with no request in between) gives every product back the
   * stock it had before the order.
   */
  lemma CancelRestoresPlacedStock(t: Table, orders: seq<Order>, who: Requester, req: OrderRequest, now: int, reason: Option<string>, later: int)
    requires PlaceOrder(t, orders, who.id, req, now).outcome.Ok?
    ensures var placed := PlaceOrder(t, orders, who.id, req, now);
      var cancelled := CancelOrder(placed.products, placed.orders, who, |orders|, reason, later);
      && cancelled.outcome.Ok?
      && cancelled.products.Keys == t.Keys
      && forall pid :: pid in t ==> cancelled.products[pid].stock == t[pid].stock
  {
    var placed := PlaceOrder(t, orders, who.id, req, now);
    var ms := req.products.value;
    PlacedLines(t, orders, who.id, req, now);
    forall pid | pid in t
      ensures placed.products[pid].stock == t[pid].stock - QuantityOf(ms, pid)
    {
      ReservedStock(t, ms, now, pid);
    }
    CancelPutsBack(t, placed.products, placed.orders, who, |orders|, ms, reason, later);
  }

  /** Cancelling an open order of one's own whose lines were taken from `t` gives `t`'s stock back. */
  lemma CancelPutsBack(t: Table, taken: Table, orders: seq<Order>, who: Requester, id: OrderId, ms: seq<Movement>,
                       reason: Option<string>, now: int)
    requires taken.Keys == t.Keys
    requires forall pid :: pid in t ==> taken[pid].stock == t[pid].stock - QuantityOf(ms, pid)
    requires id < |orders| && orders[id].user == who.id && orders[id].status == Pending
    requires ItemMovements(orders[id].products) == ms
    ensures var cancelled := CancelOrder(taken, orders, who, id, reason, now);
      && cancelled.outcome.Ok?
      && cancelled.products.Keys == t.Keys
      && forall pid :: pid in t ==> cancelled.products[pid].stock == t[pid].stock
  {
    assert MayAccess(who, orders[id]) && !Final(orders[id].status);
    CancelOrderSucceeds(taken, orders, who, id, reason, now);
  }

  /**
   * `updateOrderStatus` (the route admits admins only): any valid status may
   * be set from any status, with no stock movement; a delivered status
   * stamps `deliveredAt`; a truthy tracking number is recorded.
   */
  function UpdateOrderStatus(orders: seq<Order>, who: Requester, id: OrderId, status: Option<string>, tracking: Option<string>, now: int): (r: (seq<Order>, Result<Order, Failure>))
    requires IsAdmin(who)
    ensures id >= |orders| ==> r == (orders, Err(Failure(NotFound, "Order not found")))
    ensures id < |orders| && Js.Truthy(status) && ParseStatus(status.value).None? ==>
              r == (orders, Err(Failure(BadRequest, "Invalid status value")))
    ensures r.1.Ok? <==> id < |orders| && (!Js.Truthy(status) || ParseStatus(status.value).Some?)
    ensures r.1.Ok? ==>
      var o := r.1.value;
      && r.0 == orders[id := o]
      && (Js.Truthy(status) ==> StatusName(o.status) == status.value)
      && (!Js.Truthy(status) ==> o.status == orders[id].status)
      && (Js.Truthy(tracking) ==> o.trackingNumber == tracking)
      && (!Js.Truthy(tracking) ==> o.trackingNumber == orders[id].trackingNumber)
      && (o.deliveredAt == if status == Some("delivered") then Some(now) else orders[id].deliveredAt)
      && o.updatedAt == now
      && o.(status := orders[id].status, trackingNumber := orders[id].trackingNumber,
            deliveredAt := orders[id].deliveredAt, updatedAt := orders[id].updatedAt) == orders[id]
  {
    if id >= |orders| then (orders, Err(Failure(NotFound, "Order not found")))
    else if Js.Truthy(status) && ParseStatus(status.value).None? then (orders, Err(Failure(BadRequest, "Invalid status value")))
    else
      var o := orders[id];
      var o1 := if Js.Truthy(status) then o.(status := ParseStatus(status.value).value) else o;
      var o2 := if Js.Truthy(tracking) then o1.(trackingNumber := tracking) else o1;
      var o3 := if status == Some("delivered") then o2.(deliveredAt := Some(now)) else o2;
      var saved := TouchOrder(o3, now);
      (orders[id := saved], Ok(saved))
  }

  /** Status updates keep every stored order valid and its figures untouched. */
  lemma UpdateStatusKeepsValid(orders: seq<Order>, who: Requester, id: OrderId, status: Option<string>, tracking: Option<string>, now: int)
    requires IsAdmin(who) && ValidOrders(orders)
    ensures ValidOrders(UpdateOrderStatus(orders, who, id, status, tracking, now).0)
  {
  }

  /** No transition rule guards status updates: an admin can move a cancelled order back to pending. */
  lemma AdminCanReopenCancelled(orders: seq<Order>, who: Requester, id: OrderId, now: int)
    requires IsAdmin(who) && id < |orders| && orders[id].status == Cancelled
    ensures UpdateOrderStatus(orders, who, id, Some("pending"), None, now).1.Ok?
    ensures UpdateOrderStatus(orders, who, id, Some("pending"), None, now).1.value.status == Pending
  {
  }

  /**
   * `getOrderById`: lookup, then the populated owner, then ownership.
   * `users` are the accounts that still exist: the owner of an order whose
   * account was deleted populates as null, reading its `_id` throws, and the
   * catch-all answers 500, even for an admin.
   */
  function GetOrderById(orders: seq<Order>, users: set<UserId>, who: Requester, id: OrderId): (r: Result<Order, Failure>)
    ensures r.Ok? <==> id < |orders| && orders[id].user in users && MayAccess(who, orders[id])
    ensures r.Ok? ==> r.value == orders[id]
    ensures id >= |orders| ==> r == Err(Failure(NotFound, "Order not found"))
    ensures id < |orders| && orders[id].user !in users ==> r == Err(ServerErrorFailure)
    ensures id < |orders| && orders[id].user in users && !MayAccess(who, orders[id]) ==>
              r == Err(Failure(Forbidden, "Not authorized to access this order"))
  {
    if id >= |orders| then Err(Failure(NotFound, "Order not found"))
    else if orders[id].user !in users then Err(ServerErrorFailure)
    else if !MayAccess(who, orders[id]) then Err(Failure(Forbidden, "Not authorized to access this order"))
    else Ok(orders[id])
  }

  /** What `getOrderStatus` returns (the estimated delivery date is not modelled). */
  datatype StatusView = StatusView(status: OrderStatus, paymentStatus: PaymentStatus, trackingNumber: Option<string>, deliveredAt: Option<int>)

  /** `getOrderStatus`: any authenticated caller may read any order's status; there is no ownership check. */
  function GetOrderStatus(orders: seq<Order>, id: OrderId): (r: Result<StatusView, Failure>)
    ensures r.Ok? <==> id < |orders|
    ensures r.Ok? ==> r.value == StatusView(orders[id].status, orders[id].paymentStatus, orders[id].trackingNumber, orders[id].deliveredAt)
  {
    if id >= |orders| then Err(Failure(NotFound, "Order not found"))
    else
      var o := orders[id];
      Ok(StatusView(o.status, o.paymentStatus, o.trackingNumber, o.deliveredAt))
  }

  /** The `{ user, status? }` query: the status filter is a plain string match, so an unknown status matches nothing. */
  predicate Matches(o: Order, user: UserId, status: Option<string>) {
    o.user == user && (!Js.Truthy(status) || StatusName(o.status) == status.value)
  }

  /** The caller's matching orders, newest first: the later an order was placed, the earlier it is listed. */
  function NewestFirst(orders: seq<Order>, user: UserId, status: Option<string>): (r: seq<Order>)
    ensures forall k :: 0 <= k < |r| ==> Matches(r[k], user, status)
    ensures forall o :: o in orders && Matches(o, user, status) <==> o in r
    ensures |r| <= |orders|
    decreases |orders|
  {
    if orders == [] then []
    else
      var last := orders[|orders| - 1];
      var rest := NewestFirst(orders[..|orders| - 1], user, status);
      assert forall o :: o in orders <==> o in orders[..|orders| - 1] || o == last;
      if Matches(last, user, status) then [last] + rest else rest
  }

  /** The list starts with the last order placed, when that one matches, and continues with the earlier ones. */
  lemma NewestFirstLast(orders: seq<Order>, user: UserId, status: Option<string>)
    requires orders != []
    ensures var rest := NewestFirst(orders[..|orders| - 1], user, status);
      NewestFirst(orders, user, status) == if Matches(orders[|orders| - 1], user, status) then [orders[|orders| - 1]] + rest else rest
  {
  }

  /** An order no older than every order after it keeps a newest-first list newest first. */
  lemma PrependKeepsNewestFirst(last: Order, rest: seq<Order>)
    requires forall i, j :: 0 <= i < j < |rest| ==> rest[i].createdAt >= rest[j].createdAt
    requires forall k :: 0 <= k < |rest| ==> rest[k].createdAt <= last.createdAt
    ensures var r := [last] + rest; forall i, j :: 0 <= i < j < |r| ==> r[i].createdAt >= r[j].createdAt
  {
    var r := [last] + rest;
    forall i, j | 0 <= i < j < |r| ensures r[i].createdAt >= r[j].createdAt {
      assert r[j] == rest[j - 1];
      if i > 0 {
        assert r[i] == rest[i - 1];
      }
    }
  }

  /**
   * `.sort({ createdAt: -1 })`: when orders were placed in clock order (the
   * creation times never decrease along the collection), the list runs from
   * the newest creation time to the oldest.
   */
  lemma {:induction false} NewestFirstByCreation(orders: seq<Order>, user: UserId, status: Option<string>)
    requires forall i, j :: 0 <= i < j < |orders| ==> orders[i].createdAt <= orders[j].createdAt
    ensures var r := NewestFirst(orders, user, status);
      forall i, j :: 0 <= i < j < |r| ==> r[i].createdAt >= r[j].createdAt
    decreases |orders|
  {
    if orders != [] {
      var init := orders[..|orders| - 1];
      var last := orders[|orders| - 1];
      NewestFirstByCreation(init, user, status);
      NewestFirstLast(orders, user, status);
      var rest := NewestFirst(init, user, status);
      if Matches(last, user, status) {
        forall k | 0 <= k < |rest| ensures rest[k].createdAt <= last.createdAt {
          assert rest[k] in init;
          var m :| 0 <= m < |init| && init[m] == rest[k];
          assert orders[m] == rest[k];
        }
        PrependKeepsNewestFirst(last, rest);
      }
    }
  }

  /** An order with a higher id than every order after it keeps a list in decreasing id order. */
  lemma PrependKeepsIdsDescending(last: Order, rest: seq<Order>)
    requires forall i, j :: 0 <= i < j < |rest| ==> rest[i].id > rest[j].id
    requires forall k :: 0 <= k < |rest| ==> rest[k].id < last.id
    ensures var r := [last] + rest; forall i, j :: 0 <= i < j < |r| ==> r[i].id > r[j].id
  {
    var r := [last] + rest;
    forall i, j | 0 <= i < j < |r| ensures r[i].id > r[j].id {
      assert r[j] == rest[j - 1];
      if i > 0 {
        assert r[i] == rest[i - 1];
      }
    }
  }

  /** With ids handed out in increasing order (as `ValidOrders` has them), the list's ids strictly decrease. */
  lemma {:induction false} NewestFirstByIdDescending(orders: seq<Order>, user: UserId, status: Option<string>)
    requires forall i, j :: 0 <= i < j < |orders| ==> orders[i].id < orders[j].id
    ensures var r := NewestFirst(orders, user, status);
      forall i, j :: 0 <= i < j < |r| ==> r[i].id > r[j].id
    decreases |orders|
  {
    if orders != [] {
      var init := orders[..|orders| - 1];
      var last := orders[|orders| - 1];
      NewestFirstByIdDescending(init, user, status);
      NewestFirstLast(orders, user, status);
      var rest := NewestFirst(init, user, status);
      if Matches(last, user, status) {
        forall k | 0 <= k < |rest| ensures rest[k].id < last.id {
          assert rest[k] in init;
          var m :| 0 <= m < |init| && init[m] == rest[k];
          assert orders[m] == rest[k];
        }
        PrependKeepsIdsDescending(last, rest);
      }
    }
  }

  /** `getMyOrders`: one page of the caller's orders and the pagination block. */
  function MyOrders(orders: seq<Order>, who: Requester, status: Option<string>, pageQuery: Option<int>, limitQuery: Option<int>): (r: Result<(seq<Order>, Pagination.PageMeta), Failure>)
    ensures r.Err? <==> Pagination.ParsePaging(pageQuery, limitQuery).skip < 0
    ensures r.Err? ==> r.error == ServerErrorFailure
    ensures r.Ok? ==>
      var paging := Pagination.ParsePaging(pageQuery, limitQuery);
      var mine := NewestFirst(orders, who.id, status);
      && r.value == (Pagination.Window(mine, paging.skip, paging.limit), Pagination.Meta(|mine|, paging.page, paging.limit))
      && (forall k :: 0 <= k < |r.value.0| ==> Matches(r.value.0[k], who.id, status))
      && |r.value.0| <= Pagination.Abs(r.value.1.limit)
  {
    var paging := Pagination.ParsePaging(pageQuery, limitQuery);
    var matching := NewestFirst(orders, who.id, status);
    if paging.skip < 0 then Err(ServerErrorFailure)
    else Ok((Pagination.Window(matching, paging.skip, paging.limit), Pagination.Meta(|matching|, paging.page, paging.limit)))
  }

  /** Under the collection invariant the newest-first list is in strictly decreasing id order. */
  lemma ValidOrdersListNewestFirst(orders: seq<Order>, user: UserId, status: Option<string>)
    requires ValidOrders(orders)
    ensures var r := NewestFirst(orders, user, status);
      forall i, j :: 0 <= i < j < |r| ==> r[i].id > r[j].id
  {
    NewestFirstByIdDescending(orders, user, status);
  }
}
