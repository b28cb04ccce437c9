/**
 * The inventory ledger: the product table and the two stock movements the
 * order controller applies to one product document (taking stock when an
 * order line is reserved, putting it back when an order is cancelled),
 * together with the availability-label rules each applies.
 */
module Inventory {
  import opened ProductModel

  /** The product collection, by id. */
  type Table = map<ProductId, Product>

  /** Every stored document is valid and is stored under its own id. */
  predicate ValidTable(t: Table) {
    forall id :: id in t ==> t[id].id == id && ValidProduct(t[id])
  }

  /** A product and a quantity: a requested order line, or an order line being put back. */
  datatype Movement = Movement(product: ProductId, quantity: int)

  /** The label the thresholds prescribe: out of stock at 0, low below 10, otherwise in stock. */
  function ThresholdLabel(stock: int): Availability {
    if stock == 0 then OutOfStock else if stock < 10 then LowStock else InStock
  }

  predicate LabelConsistent(p: Product) {
    p.availabilityStatus == ThresholdLabel(p.stock)
  }

  /**
   * Reserving `q` units and saving: stock drops by exactly `q`; the label
   * becomes 'Out of Stock' at 0 and 'Low Stock' below 10 and is otherwise
   * left as it was (it is never reset to 'In Stock' here).
   */
  function Take(p: Product, q: int, now: int): (r: Product)
    ensures r.stock == p.stock - q
    ensures r.stock == 0 ==> r.availabilityStatus == OutOfStock
    ensures r.stock != 0 && r.stock < 10 ==> r.availabilityStatus == LowStock
    ensures r.stock >= 10 ==> r.availabilityStatus == p.availabilityStatus
    ensures r.meta.updatedAt == now
    ensures r.(stock := p.stock, availabilityStatus := p.availabilityStatus, meta := p.meta) == p
  {
    var stock := p.stock - q;
    var status :=
      if stock == 0 then OutOfStock
      else if stock < 10 then LowStock
      else p.availabilityStatus;
    Touch(p.(stock := stock, availabilityStatus := status), now)
  }

  /**
   * Putting `q` units back and saving: stock rises by exactly `q`; when the
   * result is positive the label is recomputed ('Low Stock' below 10, else
   * 'In Stock'), otherwise it is left as it was.
   */
  function PutBack(p: Product, q: int, now: int): (r: Product)
    ensures r.stock == p.stock + q
    ensures r.stock > 0 ==> LabelConsistent(r)
    ensures r.stock <= 0 ==> r.availabilityStatus == p.availabilityStatus
    ensures r.meta.updatedAt == now
    ensures r.(stock := p.stock, availabilityStatus := p.availabilityStatus, meta := p.meta) == p
  {
    var stock := p.stock + q;
    var status :=
      if stock > 0 then (if stock < 10 then LowStock else InStock)
      else p.availabilityStatus;
    Touch(p.(stock := stock, availabilityStatus := status), now)
  }

  /** A reservation the stock check let through keeps the document valid, so its save succeeds. */
  lemma TakeKeepsValid(p: Product, q: int, now: int)
    requires ValidProduct(p) && q <= p.stock
    ensures ValidProduct(Take(p, q, now)) && Take(p, q, now).id == p.id
  {
  }

  /** Saving a valid document under its own id keeps the table valid. */
  lemma SaveKeepsValid(t: Table, p: Product)
    requires ValidTable(t) && ValidProduct(p)
    ensures ValidTable(t[p.id := p])
  {
  }

  /** Putting back a positive quantity keeps the document valid. */
  lemma PutBackKeepsValid(p: Product, q: int, now: int)
    requires ValidProduct(p) && q >= 1
    ensures ValidProduct(PutBack(p, q, now)) && PutBack(p, q, now).id == p.id
  {
  }

  /** A reservation of a non-negative quantity keeps a threshold-consistent label consistent. */
  lemma TakeKeepsLabelConsistent(p: Product, q: int, now: int)
    requires LabelConsistent(p) && 0 <= q <= p.stock
    ensures LabelConsistent(Take(p, q, now))
  {
  }

  /**
   * A negative quantity passes the stock check and RAISES stock, and then the
   * label is not recomputed: 5 units labelled 'Low Stock' become 15 units
   * still labelled 'Low Stock'.
   */
  lemma NegativeTakeLeavesStaleLabel(p: Product, now: int)
    requires p.stock == 5 && p.availabilityStatus == LowStock
    ensures LabelConsistent(p)
    ensures !(p.stock < -10) && Take(p, -10, now).stock == 15
    ensures !LabelConsistent(Take(p, -10, now))
  {
  }

  /** The total quantity the movements carry for one product. */
  function QuantityOf(ms: seq<Movement>, id: ProductId): int
    decreases |ms|
  {
    if ms == [] then 0
    else QuantityOf(ms[..|ms| - 1], id) + (if ms[|ms| - 1].product == id then ms[|ms| - 1].quantity else 0)
  }

  /**
   * The cancellation loop: each movement in order puts its quantity back into
   * its product if that product still exists; missing products are skipped.
   */
  function Restock(t: Table, ms: seq<Movement>, now: int): (r: Table)
    ensures r.Keys == t.Keys
    decreases |ms|
  {
    if ms == [] then t
    else
      var before := Restock(t, ms[..|ms| - 1], now);
      var m := ms[|ms| - 1];
      if m.product in before then before[m.product := PutBack(before[m.product], m.quantity, now)]
      else before
  }

  /** After the loop every product holds its old stock plus everything put back into it. */
  lemma {:induction false} RestockStock(t: Table, ms: seq<Movement>, now: int, id: ProductId)
    requires id in t
    ensures Restock(t, ms, now)[id].stock == t[id].stock + QuantityOf(ms, id)
    decreases |ms|
  {
    if ms != [] {
      RestockStock(t, ms[..|ms| - 1], now, id);
    }
  }

  /** A product no movement names comes out of the loop untouched. */
  lemma {:induction false} RestockUntouched(t: Table, ms: seq<Movement>, now: int, id: ProductId)
    requires id in t
    requires forall k :: 0 <= k < |ms| ==> ms[k].product != id
    ensures Restock(t, ms, now)[id] == t[id]
    decreases |ms|
  {
    if ms != [] {
      RestockUntouched(t, ms[..|ms| - 1], now, id);
    }
  }

  /** Putting back positive quantities keeps every document valid and under its id. */
  lemma {:induction false} RestockKeepsValid(t: Table, ms: seq<Movement>, now: int)
    requires ValidTable(t)
    requires forall k :: 0 <= k < |ms| ==> ms[k].quantity >= 1
    ensures ValidTable(Restock(t, ms, now))
    decreases |ms|
  {
    if ms != [] {
      RestockKeepsValid(t, ms[..|ms| - 1], now);
      var before := Restock(t, ms[..|ms| - 1], now);
      var m := ms[|ms| - 1];
      if m.product in before {
        PutBackKeepsValid(before[m.product], m.quantity, now);
      }
    }
  }

  /** Every product a positive movement reaches ends with a threshold-consistent label. */
  lemma {:induction false} RestockLabelsConsistent(t: Table, ms: seq<Movement>, now: int, id: ProductId)
    requires ValidTable(t) && id in t
    requires forall k :: 0 <= k < |ms| ==> ms[k].quantity >= 1
    requires exists k :: 0 <= k < |ms| && ms[k].product == id
    ensures LabelConsistent(Restock(t, ms, now)[id])
    decreases |ms|
  {
    var last := ms[|ms| - 1];
    RestockKeepsValid(t, ms[..|ms| - 1], now);
    var before := Restock(t, ms[..|ms| - 1], now);
    if last.product != id {
      var k :| 0 <= k < |ms| && ms[k].product == id;
      assert ms[..|ms| - 1][k] == ms[k];
      RestockLabelsConsistent(t, ms[..|ms| - 1], now, id);
    } else {
      assert before[id].stock >= 0;
    }
  }
}
