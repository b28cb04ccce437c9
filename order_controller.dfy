/**
 * The order controller's three state-changing handlers as the step-by-step
 * procedures they are: a loop over the requested lines that saves each
 * product as it goes, a loop that puts each line back, and a field-by-field
 * status update. Each is proved to end in the state and response that
 * `OrderLifecycle` specifies, and to keep the stored state valid.
 */
module OrderController {
  import opened Wrappers
  import opened Http
  import opened ProductModel
  import opened OrderModel
  import opened Inventory
  import opened Pricing
  import opened OrderLifecycle

  /** The two collections the handlers read and write: products by id, orders in creation order (an order's id is its position). */
  class Shop {
    var products: Table
    var orders: seq<Order>

    /** A shop starts from a consistent product table and no orders. */
    constructor (products: Table)
      requires ValidTable(products)
      ensures this.products == products && orders == []
      ensures Valid()
    {
      this.products := products;
      orders := [];
    }

    ghost predicate Valid()
      reads this
    {
      ValidTable(products) && ValidOrders(orders)
    }

    /** One pass of `createOrder`'s loop: look the product up, check its stock, snapshot the line, save the decrement. */
    method ReserveOne(m: Movement, now: int) returns (r: Result<OrderItem, Failure>)
      modifies this
      ensures orders == old(orders)
      ensures var line := ReserveLine(old(products), m, now);
        && (r.Err? <==> line.Err?)
        && (r.Err? ==> r.error == line.error && products == old(products))
        && (r.Ok? ==> r.value == line.value.1 && products == line.value.0)
    {
      if m.product !in products {
        return Err(Failure(NotFound, NotFoundMessage(m.product)));
      }
      var p := products[m.product];
      if p.stock < m.quantity {
        return Err(Failure(BadRequest, InsufficientStockMessage(p)));
      }
      r := Ok(Snapshot(m.product, p, m.quantity));
      products := products[m.product := Take(p, m.quantity, now)];
    }

    /**
     * The loop of `createOrder`: each requested line in turn is looked up,
     * checked against the stock, priced and added to the running sums, and
     * its product saved with the decrement, until a line fails.
     */
    method ReserveLines(ms: seq<Movement>, now: int)
      returns (failure: Option<Failure>, items: seq<OrderItem>, subtotal: real, discountedTotal: real, totalQuantity: int)
      modifies this
      ensures orders == old(orders)
      ensures var res := ReserveAll(old(products), ms, now);
        && products == res.table
        && (failure.None? <==> res.Reserved?)
        && (failure.Some? ==> failure.value == res.failure)
        && (failure.None? ==> items == res.items)
      ensures subtotal == Subtotal(items) && discountedTotal == DiscountedTotal(items) && totalQuantity == TotalQuantity(items)
    {
      items := [];
      subtotal := 0.0;
      discountedTotal := 0.0;
      totalQuantity := 0;
      var i := 0;
      while i < |ms|
        invariant 0 <= i <= |ms|
        invariant orders == old(orders)
        invariant ReserveAll(old(products), ms[..i], now) == Reserved(products, items)
        invariant subtotal == Subtotal(items)
        invariant discountedTotal == DiscountedTotal(items)
        invariant totalQuantity == TotalQuantity(items)
      {
        ReserveStep(old(products), ms, i, now);
        var line := ReserveOne(ms[i], now);
        if line.Err? {
          StopIsFinal(old(products), ms, i + 1, now);
          return Some(line.error), items, subtotal, discountedTotal, totalQuantity;
        }
        var item := line.value;
        SumsAppend(items, item);
        items := items + [item];
        subtotal := subtotal + LineSubtotal(item);
        discountedTotal := discountedTotal + item.total;
        totalQuantity := totalQuantity + item.quantity;
        i := i + 1;
      }
      assert ms[..i] == ms;
      failure := None;
    }

    /** The end of `createOrder`: shipping, tax and grand total from the running sums, then `Order.create`. */
    method RecordOrder(user: UserId, req: OrderRequest, items: seq<OrderItem>, subtotal: real, discountedTotal: real, totalQuantity: int, now: int)
      returns (r: Result<Order, Failure>)
      requires req.shippingAddress.Some? && req.paymentMethod.Some?
      requires subtotal == Subtotal(items) && discountedTotal == DiscountedTotal(items) && totalQuantity == TotalQuantity(items)
      modifies this
      ensures products == old(products)
      ensures var created := CreateOrderRecord(Draft(user, req, items), |old(orders)|, now);
        && (created.Err? ==> orders == old(orders) && r == Err(ServerErrorFailure))
        && (created.Ok? ==> orders == old(orders) + [created.value] && r == Ok(created.value))
    {
      var shippingCost := ShippingCost(discountedTotal);
      var tax := discountedTotal * TaxRate;
      var shipping := req.shippingAddress.value;
      var billing := if req.billingAddress.Some? then req.billingAddress.value else shipping;
      var draft := OrderDraft(user, items, |items|, totalQuantity, subtotal, discountedTotal,
                              shippingCost, tax, discountedTotal + shippingCost + tax,
                              shipping, billing, req.paymentMethod.value, req.notes);
      assert draft == Draft(user, req, items);
      var created := CreateOrderRecord(draft, |orders|, now);
      if created.Err? {
        r := Err(ServerErrorFailure);
      } else {
        orders := orders + [created.value];
        r := Ok(created.value);
      }
    }

    /** `createOrder`. */
    method CreateOrder(user: UserId, req: OrderRequest, now: int) returns (r: Result<Order, Failure>)
      modifies this
      ensures var s := PlaceOrder(old(products), old(orders), user, req, now);
        products == s.products && orders == s.orders && r == s.outcome
      ensures old(Valid()) ==> Valid()
    {
      if Valid() {
        PlaceOrderKeepsValid(products, orders, user, req, now);
      }
      var check := CheckRequest(req);
      if check.Some? {
        return Err(check.value);
      }
      var failure, items, subtotal, discountedTotal, totalQuantity := ReserveLines(req.products.value, now);
      if failure.Some? {
        return Err(failure.value);
      }
      PlaceOrderCreates(old(products), old(orders), user, req, now);
      r := RecordOrder(user, req, items, subtotal, discountedTotal, totalQuantity, now);
    }

    /** The loop of `cancelOrder`: each line's quantity goes back into its product, if the product still exists. */
    method RestockLines(items: seq<OrderItem>, now: int)
      modifies this
      ensures products == Restock(old(products), ItemMovements(items), now)
      ensures orders == old(orders)
    {
      ghost var ms := ItemMovements(items);
      var i := 0;
      while i < |items|
        invariant 0 <= i <= |items|
        invariant orders == old(orders)
        invariant products == Restock(old(products), ms[..i], now)
      {
        var item := items[i];
        assert ms[..i + 1][..i] == ms[..i];
        assert ms[i] == Movement(item.product, item.quantity);
        if item.product in products {
          products := products[item.product := PutBack(products[item.product], item.quantity, now)];
        }
        i := i + 1;
      }
      assert ms[..i] == ms;
    }

    /** `cancelOrder`. */
    method CancelOrder(who: Requester, id: OrderId, reason: Option<string>, now: int) returns (r: Result<Order, Failure>)
      modifies this
      ensures var s := OrderLifecycle.CancelOrder(old(products), old(orders), who, id, reason, now);
        products == s.products && orders == s.orders && r == s.outcome
      ensures old(Valid()) ==> Valid()
    {
      ghost var s := OrderLifecycle.CancelOrder(products, orders, who, id, reason, now);
      ghost var wasValid := Valid();
      if wasValid {
        CancelKeepsValid(products, orders, who, id, reason, now);
      }
      if id >= |orders| {
        return Err(Failure(NotFound, "Order not found"));
      }
      var o := orders[id];
      if !(o.user == who.id || who.role == "admin") {
        return Err(Failure(Forbidden, "Not authorized to cancel this order"));
      }
      if o.status == Shipped || o.status == Delivered || o.status == Cancelled {
        return Err(Failure(BadRequest, "Cannot cancel order with status: " + StatusName(o.status)));
      }
      RestockLines(o.products, now);
      var cancelled := o.(status := Cancelled, cancelledAt := Some(now),
                          cancellationReason := Some(if reason.Some? && reason.value != "" then reason.value else "Cancelled by user"));
      if cancelled.paymentStatus == Paid {
        cancelled := cancelled.(paymentStatus := Refunded);
      }
      cancelled := TouchOrder(cancelled, now);
      orders := orders[id := cancelled];
      r := Ok(cancelled);
      assert products == s.products && orders == s.orders;
    }

    /** `updateOrderStatus`; the route lets only admins reach it. */
    method UpdateOrderStatus(who: Requester, id: OrderId, status: Option<string>, tracking: Option<string>, now: int) returns (r: Result<Order, Failure>)
      requires IsAdmin(who)
      modifies this
      ensures var s := OrderLifecycle.UpdateOrderStatus(old(orders), who, id, status, tracking, now);
        orders == s.0 && r == s.1
      ensures products == old(products)
      ensures old(Valid()) ==> Valid()
    {
      if Valid() {
        UpdateStatusKeepsValid(orders, who, id, status, tracking, now);
      }
      if id >= |orders| {
        return Err(Failure(NotFound, "Order not found"));
      }
      var parsed := if status.Some? then ParseStatus(status.value) else None;
      if status.Some? && status.value != "" && parsed.None? {
        return Err(Failure(BadRequest, "Invalid status value"));
      }
      var o := orders[id];
      if status.Some? && status.value != "" {
        o := o.(status := parsed.value);
      }
      if tracking.Some? && tracking.value != "" {
        o := o.(trackingNumber := tracking);
      }
      if status == Some("delivered") {
        o := o.(deliveredAt := Some(now));
      }
      o := TouchOrder(o, now);
      orders := orders[id := o];
      r := Ok(o);
    }
  }
}
