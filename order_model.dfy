/**
 * The Order document: its line-item snapshots, the three enums, the two
 * addresses, the validators `Order.create` runs, the defaults it fills in and
 * the pre-save hook that stamps `updatedAt`.
 */
module OrderModel {
  import opened Wrappers
  import Js
  import ProductModel

  type OrderId = nat
  type UserId = nat

  /** The `status` enum. */
  datatype OrderStatus = Pending | Confirmed | Processing | Shipped | Delivered | Cancelled

  function StatusName(s: OrderStatus): string {
    match s
    case Pending => "pending"
    case Confirmed => "confirmed"
    case Processing => "processing"
    case Shipped => "shipped"
    case Delivered => "delivered"
    case Cancelled => "cancelled"
  }

  /** Accepts exactly the six status names. */
  function ParseStatus(s: string): (r: Option<OrderStatus>)
    ensures r.Some? <==> s in {"pending", "confirmed", "processing", "shipped", "delivered", "cancelled"}
    ensures r.Some? ==> StatusName(r.value) == s
  {
    if s == "pending" then Some(Pending)
    else if s == "confirmed" then Some(Confirmed)
    else if s == "processing" then Some(Processing)
    else if s == "shipped" then Some(Shipped)
    else if s == "delivered" then Some(Delivered)
    else if s == "cancelled" then Some(Cancelled)
    else None
  }

  lemma StatusRoundTrip(s: OrderStatus)
    ensures ParseStatus(StatusName(s)) == Some(s)
  {
  }

  /** The `paymentMethod` enum. */
  datatype PaymentMethod = Card | Paypal | CashOnDelivery | BankTransfer

  function PaymentMethodName(m: PaymentMethod): string {
    match m
    case Card => "card"
    case Paypal => "paypal"
    case CashOnDelivery => "cash_on_delivery"
    case BankTransfer => "bank_transfer"
  }

  /** Accepts exactly the four payment-method names. */
  function ParsePaymentMethod(s: string): (r: Option<PaymentMethod>)
    ensures r.Some? <==> s in {"card", "paypal", "cash_on_delivery", "bank_transfer"}
    ensures r.Some? ==> PaymentMethodName(r.value) == s
  {
    if s == "card" then Some(Card)
    else if s == "paypal" then Some(Paypal)
    else if s == "cash_on_delivery" then Some(CashOnDelivery)
    else if s == "bank_transfer" then Some(BankTransfer)
    else None
  }

  /** The `paymentStatus` enum (`pending` is named PaymentPending here). */
  datatype PaymentStatus = PaymentPending | Paid | Failed | Refunded

  /** An address as it arrives in a request or is stored for billing: every field optional. */
  datatype Address = Address(
    address: Option<string>,
    city: Option<string>,
    state: Option<string>,
    postalCode: Option<string>,
    country: Option<string>)

  /** All five fields present and non-empty: what both the controller and the schema demand of a shipping address. */
  predicate CompleteAddress(a: Address) {
    Js.Truthy(a.address) && Js.Truthy(a.city) && Js.Truthy(a.state)
    && Js.Truthy(a.postalCode) && Js.Truthy(a.country)
  }

  /** One line of an order: a snapshot of the product taken when the order was placed. */
  datatype OrderItem = OrderItem(
    product: ProductModel.ProductId,
    title: string,
    price: real,
    quantity: int,
    thumbnail: Option<string>,
    discountPercentage: real,
    discountedPrice: real,
    total: real)

  datatype Order = Order(
    id: OrderId,
    user: UserId,
    products: seq<OrderItem>,
    totalProducts: int,
    totalQuantity: int,
    subtotal: real,
    discountedTotal: real,
    shippingCost: real,
    tax: real,
    grandTotal: real,
    status: OrderStatus,
    paymentMethod: PaymentMethod,
    paymentStatus: PaymentStatus,
    shippingAddress: Address,
    billingAddress: Address,
    notes: Option<string>,
    trackingNumber: Option<string>,
    deliveredAt: Option<int>,
    cancelledAt: Option<int>,
    cancellationReason: Option<string>,
    createdAt: int,
    updatedAt: int)

  /** An item passes its schema: a title and a quantity of at least 1. */
  predicate ValidItem(i: OrderItem) {
    i.title != "" && i.quantity >= 1
  }

  predicate NotesFit(notes: Option<string>) {
    notes.None? || |notes.value| <= 500
  }

  /** Every constraint of the order schema holds (the enums hold by construction). */
  predicate ValidOrder(o: Order) {
    && (forall i :: 0 <= i < |o.products| ==> ValidItem(o.products[i]))
    && CompleteAddress(o.shippingAddress)
    && NotesFit(o.notes)
  }

  /** What the controller passes to `Order.create`; the payment method is still a string. */
  datatype OrderDraft = OrderDraft(
    user: UserId,
    products: seq<OrderItem>,
    totalProducts: int,
    totalQuantity: int,
    subtotal: real,
    discountedTotal: real,
    shippingCost: real,
    tax: real,
    grandTotal: real,
    shippingAddress: Address,
    billingAddress: Address,
    paymentMethod: string,
    notes: Option<string>)

  predicate ItemsValid(items: seq<OrderItem>) {
    forall i :: 0 <= i < |items| ==> ValidItem(items[i])
  }

  /** The paths `Order.create` rejects in a draft, in schema order. */
  function DraftViolations(d: OrderDraft): (v: seq<string>)
    ensures v == [] <==> (ItemsValid(d.products) && ParsePaymentMethod(d.paymentMethod).Some?
                          && CompleteAddress(d.shippingAddress) && NotesFit(d.notes))
  {
    (if ItemsValid(d.products) then [] else ["products"])
    + (if ParsePaymentMethod(d.paymentMethod).Some? then [] else ["paymentMethod"])
    + (if CompleteAddress(d.shippingAddress) then [] else ["shippingAddress"])
    + (if NotesFit(d.notes) then [] else ["notes"])
  }

  /**
   * `Order.create`: validation, then the defaults (status and payment status
   * pending, no tracking or timestamps but the creation time), then the
   * pre-save hook. Fails with the rejected paths.
   */
  function CreateOrderRecord(d: OrderDraft, id: OrderId, now: int): (r: Result<Order, seq<string>>)
    ensures r.Ok? <==> DraftViolations(d) == []
    ensures r.Err? ==> r.error != []
    ensures r.Ok? ==> ValidOrder(r.value)
    ensures r.Ok? ==> && r.value.id == id && r.value.user == d.user
                      && r.value.products == d.products
                      && r.value.status == Pending && r.value.paymentStatus == PaymentPending
                      && PaymentMethodName(r.value.paymentMethod) == d.paymentMethod
                      && r.value.createdAt == now && r.value.updatedAt == now
                      && r.value.trackingNumber.None? && r.value.deliveredAt.None?
                      && r.value.cancelledAt.None? && r.value.cancellationReason.None?
  {
    var v := DraftViolations(d);
    if v != [] then Err(v)
    else
      Ok(Order(id, d.user, d.products, d.totalProducts, d.totalQuantity, d.subtotal,
               d.discountedTotal, d.shippingCost, d.tax, d.grandTotal,
               Pending, ParsePaymentMethod(d.paymentMethod).value, PaymentPending,
               d.shippingAddress, d.billingAddress, d.notes,
               None, None, None, None, now, now))
  }

  /** The pre-save hook: every save stamps `updatedAt` and changes nothing else. */
  function TouchOrder(o: Order, now: int): (r: Order)
    ensures r.updatedAt == now
    ensures r.(updatedAt := o.updatedAt) == o
  {
    o.(updatedAt := now)
  }
}
