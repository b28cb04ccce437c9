/**
 * The pricing rules of order placement: the per-line discount snapshot, the
 * three running sums, and the shipping, tax and grand-total formulas. Money
 * is exact (`real`).
 */
module Pricing {
  import opened OrderModel

  /** `price * (1 - discountPercentage / 100)`. */
  function DiscountedPrice(price: real, discountPercentage: real): (r: real)
    ensures price >= 0.0 && 0.0 <= discountPercentage <= 100.0 ==> 0.0 <= r <= price
    ensures discountPercentage == 0.0 ==> r == price
    ensures discountPercentage == 100.0 ==> r == 0.0
  {
    price * (1.0 - discountPercentage / 100.0)
  }

  /** Free shipping strictly above 100, otherwise a flat 10. */
  function ShippingCost(discountedTotal: real): (r: real)
    ensures r == 0.0 <==> discountedTotal > 100.0
    ensures r == 0.0 || r == 10.0
  {
    if discountedTotal > 100.0 then 0.0 else 10.0
  }

  /** 8% of the discounted total. */
  const TaxRate: real := 0.08

  /** `discountedPrice * quantity`. */
  function LineTotal(discountedPrice: real, quantity: int): real {
    discountedPrice * quantity as real
  }

  /** A line's snapshot fields follow the discount formula. */
  predicate PricedItem(i: OrderItem) {
    i.discountedPrice == DiscountedPrice(i.price, i.discountPercentage)
    && i.total == LineTotal(i.discountedPrice, i.quantity)
  }

  predicate AllPriced(items: seq<OrderItem>) {
    forall k :: 0 <= k < |items| ==> PricedItem(items[k])
  }

  /** A line's undiscounted amount, `price * quantity`. */
  function LineSubtotal(i: OrderItem): real {
    i.price * i.quantity as real
  }

  /** The running `subtotal += price * quantity`. */
  function Subtotal(items: seq<OrderItem>): real
    decreases |items|
  {
    if items == [] then 0.0
    else Subtotal(items[..|items| - 1]) + LineSubtotal(items[|items| - 1])
  }

  /** The running `discountedTotal += total`. */
  function DiscountedTotal(items: seq<OrderItem>): real
    decreases |items|
  {
    if items == [] then 0.0
    else DiscountedTotal(items[..|items| - 1]) + items[|items| - 1].total
  }

  /** The running `totalQuantity += quantity`. */
  function TotalQuantity(items: seq<OrderItem>): int
    decreases |items|
  {
    if items == [] then 0
    else TotalQuantity(items[..|items| - 1]) + items[|items| - 1].quantity
  }

  /** Each running sum grows by the new line's own contribution. */
  lemma SumsAppend(items: seq<OrderItem>, item: OrderItem)
    ensures Subtotal(items + [item]) == Subtotal(items) + LineSubtotal(item)
    ensures DiscountedTotal(items + [item]) == DiscountedTotal(items) + item.total
    ensures TotalQuantity(items + [item]) == TotalQuantity(items) + item.quantity
  {
    assert (items + [item])[..|items|] == items;
  }

  datatype Totals = Totals(
    totalProducts: int,
    totalQuantity: int,
    subtotal: real,
    discountedTotal: real,
    shippingCost: real,
    tax: real,
    grandTotal: real)

  /** The figures stored on an order, derived from its lines. */
  function OrderTotals(items: seq<OrderItem>): (t: Totals)
    ensures t.totalProducts == |items|
    ensures t.subtotal == Subtotal(items) && t.discountedTotal == DiscountedTotal(items)
    ensures t.totalQuantity == TotalQuantity(items)
    ensures t.shippingCost == 0.0 <==> t.discountedTotal > 100.0
    ensures t.tax == TaxRate * t.discountedTotal
    ensures t.grandTotal == t.discountedTotal + t.shippingCost + t.tax
  {
    var dt := DiscountedTotal(items);
    var shipping := ShippingCost(dt);
    var tax := dt * TaxRate;
    Totals(|items|, TotalQuantity(items), Subtotal(items), dt, shipping, tax, dt + shipping + tax)
  }

  /** An order's stored figures are the ones its lines determine. */
  predicate ConsistentTotals(o: Order) {
    && AllPriced(o.products)
    && Totals(o.totalProducts, o.totalQuantity, o.subtotal, o.discountedTotal,
              o.shippingCost, o.tax, o.grandTotal) == OrderTotals(o.products)
  }

  /** The bounds every line of a valid order inherits from a valid product. */
  predicate SaneItem(i: OrderItem) {
    i.price >= 0.0 && 0.0 <= i.discountPercentage <= 100.0 && i.quantity >= 1
  }

  /**
   * For lines priced from valid products with positive quantities, the
   * discounted total is between 0 and the subtotal, and there are at least
   * as many units as lines.
   */
  lemma {:induction false} DiscountedTotalBounds(items: seq<OrderItem>)
    requires AllPriced(items)
    requires forall k :: 0 <= k < |items| ==> SaneItem(items[k])
    ensures 0.0 <= DiscountedTotal(items) <= Subtotal(items)
    ensures TotalQuantity(items) >= |items|
    decreases |items|
  {
    if items != [] {
      var init := items[..|items| - 1];
      var last := items[|items| - 1];
      assert forall k :: 0 <= k < |init| ==> init[k] == items[k];
      DiscountedTotalBounds(init);
      assert PricedItem(last) && SaneItem(last);
      var q := last.quantity as real;
      assert 0.0 <= last.discountedPrice <= last.price;
      assert last.total == last.discountedPrice * q;
      assert 0.0 <= last.total <= LineSubtotal(last) by {
        assert q >= 1.0;
        assert last.discountedPrice * q <= last.price * q;
      }
    }
  }

  /** The grand total of such an order is never negative and is at least the discounted total. */
  lemma GrandTotalBounds(o: Order)
    requires ConsistentTotals(o)
    requires forall k :: 0 <= k < |o.products| ==> SaneItem(o.products[k])
    ensures o.grandTotal >= o.discountedTotal >= 0.0
    ensures o.discountedTotal <= o.subtotal
  {
    DiscountedTotalBounds(o.products);
  }

  /**
   * The worked example: one line of two units at 100 with a 10% discount
   * costs 90 a unit, 180 in all; shipping is free, tax is 14.4 and the
   * grand total 194.4.
   */
  lemma WorkedExample(item: OrderItem)
    requires item.price == 100.0 && item.discountPercentage == 10.0 && item.quantity == 2
    requires PricedItem(item)
    ensures item.discountedPrice == 90.0 && item.total == 180.0
    ensures OrderTotals([item]) == Totals(1, 2, 200.0, 180.0, 0.0, 14.4, 194.4)
  {
    assert [item][..0] == [];
    assert Subtotal([item]) == 200.0;
    assert DiscountedTotal([item]) == 180.0;
    assert TotalQuantity([item]) == 2;
  }

  /** The free-shipping threshold is strict: a discounted total of exactly 100 pays 10. */
  lemma ShippingBoundary()
    ensures ShippingCost(100.0) == 10.0 && ShippingCost(100.01) == 0.0
  {
  }
}
