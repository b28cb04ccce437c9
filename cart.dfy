/**
 * The client's cart: a list of entries, each a copy of a product with the key
 * it was added under (`__cartId`) and a quantity. Every operation returns a
 * new list, as the state setter's updater functions do.
 */
module Cart {

  /** A JavaScript value as an identifying field can hold it. */
  datatype Value = Undefined | Null | Str(s: string) | Num(n: int)

  /** JavaScript truthiness for these values (NaN does not arise here). */
  predicate Truthy(v: Value) {
    (v.Str? && v.s != "") || (v.Num? && v.n != 0)
  }

  /** `a || b`. */
  function Or(a: Value, b: Value): (r: Value)
    ensures Truthy(a) ==> r == a
    ensures !Truthy(a) ==> r == b
  {
    if Truthy(a) then a else b
  }

  /** The fields of a product the cart looks at; `price` is the unit price. */
  datatype Product = Product(mongoId: Value, id: Value, sku: Value, title: Value, price: real)

  /** A cart entry: the product spread into it, the key it was added under, and a quantity. */
  datatype Entry = Entry(product: Product, cartId: Value, quantity: int)

  /** `getId`: the product's `_id`, else its `id`. */
  function GetId(p: Product): (r: Value)
    ensures Truthy(p.mongoId) ==> r == p.mongoId
    ensures !Truthy(p.mongoId) ==> r == p.id
  {
    Or(p.mongoId, p.id)
  }

  /** The key `addToCart` files a product under: `_id || id || sku || title`. */
  function CartKey(p: Product): (r: Value)
    ensures Truthy(r) <==> Truthy(p.mongoId) || Truthy(p.id) || Truthy(p.sku) || Truthy(p.title)
    ensures Truthy(p.mongoId) || Truthy(p.id) ==> r == GetId(p)
  {
    Or(Or(Or(p.mongoId, p.id), p.sku), p.title)
  }

  /** The position of the first entry filed under `key`, if any. */
  function Find(cart: seq<Entry>, key: Value): (r: int)
    ensures -1 <= r < |cart|
    ensures r == -1 <==> forall k :: 0 <= k < |cart| ==> cart[k].cartId != key
    ensures r >= 0 ==> cart[r].cartId == key
    decreases |cart|
  {
    if cart == [] then -1
    else if cart[|cart| - 1].cartId == key && Find(cart[..|cart| - 1], key) == -1 then |cart| - 1
    else Find(cart[..|cart| - 1], key)
  }

  /** One more of every entry filed under `key`. */
  function BumpByKey(cart: seq<Entry>, key: Value): (r: seq<Entry>)
    ensures |r| == |cart|
    ensures forall k :: 0 <= k < |cart| ==>
              r[k] == if cart[k].cartId == key then cart[k].(quantity := cart[k].quantity + 1) else cart[k]
  {
    seq(|cart|, k requires 0 <= k < |cart| =>
      if cart[k].cartId == key then cart[k].(quantity := cart[k].quantity + 1) else cart[k])
  }

  /**
   * `addToCart`. A product with a key is in the cart afterwards under that
   * key; the entries already there keep their products, keys and places, and
   * at most one entry is added.
   */
  function AddToCart(cart: seq<Entry>, p: Product): (r: seq<Entry>)
    ensures !Truthy(CartKey(p)) ==> r == cart
    ensures Truthy(CartKey(p)) ==> exists k :: 0 <= k < |r| && r[k].cartId == CartKey(p)
    ensures |cart| <= |r| <= |cart| + 1
    ensures forall k :: 0 <= k < |cart| ==>
              r[k].product == cart[k].product && r[k].cartId == cart[k].cartId && r[k].quantity >= cart[k].quantity
  {
    var key := CartKey(p);
    if !Truthy(key) then cart
    else if Find(cart, key) >= 0 then
      assert BumpByKey(cart, key)[Find(cart, key)].cartId == key;
      BumpByKey(cart, key)
    else
      var r := cart + [Entry(p, key, 1)];
      assert r[|cart|].cartId == key;
      r
  }

  /** A product with nothing to key on is not added: the cart is unchanged. */
  lemma AddWithoutKeyDoesNothing(cart: seq<Entry>, p: Product)
    requires !Truthy(p.mongoId) && !Truthy(p.id) && !Truthy(p.sku) && !Truthy(p.title)
    ensures AddToCart(cart, p) == cart
  {
  }

  /** Adding a product already filed under its key raises that entry by one and leaves every other entry as it was. */
  lemma AddExistingBumps(cart: seq<Entry>, p: Product)
    requires Truthy(CartKey(p))
    requires exists k :: 0 <= k < |cart| && cart[k].cartId == CartKey(p)
    ensures |AddToCart(cart, p)| == |cart|
    ensures forall k :: 0 <= k < |cart| && cart[k].cartId == CartKey(p) ==>
              AddToCart(cart, p)[k] == cart[k].(quantity := cart[k].quantity + 1)
    ensures forall k :: 0 <= k < |cart| && cart[k].cartId != CartKey(p) ==> AddToCart(cart, p)[k] == cart[k]
  {
  }

  /** Adding a product under a new key appends one entry of quantity 1 and keeps the earlier ones in order. */
  lemma AddNewAppends(cart: seq<Entry>, p: Product)
    requires Truthy(CartKey(p))
    requires forall k :: 0 <= k < |cart| ==> cart[k].cartId != CartKey(p)
    ensures AddToCart(cart, p) == cart + [Entry(p, CartKey(p), 1)]
  {
  }

  /** Cart keys are unique: no two entries are filed under the same key. */
  predicate UniqueKeys(cart: seq<Entry>) {
    forall i, j :: 0 <= i < j < |cart| ==> cart[i].cartId != cart[j].cartId
  }

  /** Adding keeps keys unique, so at most one entry is ever bumped. */
  lemma AddKeepsKeysUnique(cart: seq<Entry>, p: Product)
    requires UniqueKeys(cart)
    ensures UniqueKeys(AddToCart(cart, p))
  {
  }

  /** `increaseQty`: one more of every entry whose `getId` is `id`. */
  function IncreaseQty(cart: seq<Entry>, id: Value): (r: seq<Entry>)
    ensures |r| == |cart|
    ensures forall k :: 0 <= k < |cart| ==>
              r[k] == if GetId(cart[k].product) == id then cart[k].(quantity := cart[k].quantity + 1) else cart[k]
  {
    seq(|cart|, k requires 0 <= k < |cart| =>
      if GetId(cart[k].product) == id then cart[k].(quantity := cart[k].quantity + 1) else cart[k])
  }

  /** The entries with a positive quantity, in order. */
  function Positive(cart: seq<Entry>): (r: seq<Entry>)
    ensures |r| <= |cart|
    ensures forall k :: 0 <= k < |r| ==> r[k].quantity > 0
    ensures forall e :: e in r <==> e in cart && e.quantity > 0
    decreases |cart|
  {
    if cart == [] then []
    else
      var rest := Positive(cart[..|cart| - 1]);
      var last := cart[|cart| - 1];
      assert forall e :: e in cart <==> e in cart[..|cart| - 1] || e == last;
      if last.quantity > 0 then rest + [last] else rest
  }

  /** The `map` step of `decreaseQty`: one less of every entry whose `getId` is `id`. */
  function Lower(cart: seq<Entry>, id: Value): (r: seq<Entry>)
    ensures |r| == |cart|
    ensures forall k :: 0 <= k < |cart| ==>
              r[k] == if GetId(cart[k].product) == id then cart[k].(quantity := cart[k].quantity - 1) else cart[k]
  {
    seq(|cart|, k requires 0 <= k < |cart| =>
      if GetId(cart[k].product) == id then cart[k].(quantity := cart[k].quantity - 1) else cart[k])
  }

  /** `decreaseQty`: the lowered entries, with every one at 0 or below dropped. */
  function DecreaseQty(cart: seq<Entry>, id: Value): (r: seq<Entry>)
    ensures forall k :: 0 <= k < |r| ==> r[k].quantity > 0
  {
    Positive(Lower(cart, id))
  }

  /**
   * What `decreaseQty` keeps: the lowered copy of each matching entry that is
   * still positive, and each other entry with a positive quantity.
   */
  lemma DecreaseKeepsExactly(cart: seq<Entry>, id: Value, e: Entry)
    ensures e in DecreaseQty(cart, id) <==>
      e.quantity > 0 && exists k :: 0 <= k < |cart| && e == Lower(cart, id)[k]
  {
    var lowered := Lower(cart, id);
    assert DecreaseQty(cart, id) == Positive(lowered);
  }

  /** Filtering one more entry keeps it, at the end, exactly when it is positive. */
  lemma PositiveOfAppend(c: seq<Entry>, e: Entry)
    ensures Positive(c + [e]) == Positive(c) + if e.quantity > 0 then [e] else []
  {
    assert (c + [e])[..|c|] == c;
  }

  /** A concatenation ending in a non-empty part is the rest followed by that part's last element. */
  lemma SplitLast<T>(a: seq<T>, b: seq<T>)
    requires b != []
    ensures a + b == (a + b[..|b| - 1]) + [b[|b| - 1]]
  {
  }

  /** Filtering keeps the order: filtering a concatenation filters each part. */
  lemma {:induction false} PositiveKeepsOrder(a: seq<Entry>, b: seq<Entry>)
    ensures Positive(a + b) == Positive(a) + Positive(b)
    decreases |b|
  {
    if b == [] {
      assert a + b == a;
    } else {
      var init, last := b[..|b| - 1], b[|b| - 1];
      PositiveKeepsOrder(a, init);
      SplitLast(a, b);
      SplitLast([], b);
      PositiveOfAppend(a + init, last);
      PositiveOfAppend(init, last);
    }
  }

  /** A decrease keeps the order of what survives: decreasing a concatenation decreases each part. */
  lemma DecreaseKeepsOrder(a: seq<Entry>, b: seq<Entry>, id: Value)
    ensures DecreaseQty(a + b, id) == DecreaseQty(a, id) + DecreaseQty(b, id)
  {
    assert Lower(a + b, id) == Lower(a, id) + Lower(b, id);
    PositiveKeepsOrder(Lower(a, id), Lower(b, id));
  }

  /** An entry at quantity 1 disappears when decreased. */
  lemma DecreaseFromOneRemoves(cart: seq<Entry>, id: Value, k: nat)
    requires k < |cart| && GetId(cart[k].product) == id && cart[k].quantity == 1
    requires UniqueKeys(cart)
    ensures forall e :: e in DecreaseQty(cart, id) ==> e.cartId != cart[k].cartId
  {
    forall e | e in DecreaseQty(cart, id) ensures e.cartId != cart[k].cartId {
      DecreaseKeepsExactly(cart, id, e);
      var j :| 0 <= j < |cart| && e == Lower(cart, id)[j];
      if j != k {
        assert e.cartId == cart[j].cartId;
      }
    }
  }

  /** `removeFromCart`: the entries whose `getId` is not `id`, in order. */
  function RemoveFromCart(cart: seq<Entry>, id: Value): (r: seq<Entry>)
    ensures |r| <= |cart|
    decreases |cart|
  {
    if cart == [] then []
    else
      var rest := RemoveFromCart(cart[..|cart| - 1], id);
      var last := cart[|cart| - 1];
      if GetId(last.product) != id then rest + [last] else rest
  }

  /** Removing drops exactly the entries whose `getId` is `id` and keeps every other one. */
  lemma {:induction false} RemoveDropsExactlyMatching(cart: seq<Entry>, id: Value)
    ensures forall e :: e in RemoveFromCart(cart, id) <==> e in cart && GetId(e.product) != id
    decreases |cart|
  {
    if cart != [] {
      RemoveDropsExactlyMatching(cart[..|cart| - 1], id);
      assert forall e :: e in cart <==> e in cart[..|cart| - 1] || e == cart[|cart| - 1];
    }
  }

  /** Removing keeps the order of the rest: removing from a concatenation removes from each part. */
  lemma {:induction false} RemoveKeepsOrder(a: seq<Entry>, b: seq<Entry>, id: Value)
    ensures RemoveFromCart(a + b, id) == RemoveFromCart(a, id) + RemoveFromCart(b, id)
    decreases |b|
  {
    if b == [] {
      assert a + b == a;
    } else {
      var init := b[..|b| - 1];
      RemoveKeepsOrder(a, init, id);
      assert (a + b)[..|a + b| - 1] == a + init;
    }
  }

  /** `totalPrice`: the sum of price times quantity, left to right from 0; never negative when no price or quantity is. */
  function TotalPrice(cart: seq<Entry>): (r: real)
    ensures cart == [] ==> r == 0.0
    ensures (forall k :: 0 <= k < |cart| ==> cart[k].product.price >= 0.0 && cart[k].quantity >= 0) ==> r >= 0.0
    decreases |cart|
  {
    if cart == [] then 0.0
    else TotalPrice(cart[..|cart| - 1]) + LineTotal(cart[|cart| - 1])
  }

  /** One entry's share of the total: its price times its quantity. */
  function LineTotal(e: Entry): real {
    e.product.price * e.quantity as real
  }

  /** The total of two carts laid end to end is the sum of their totals. */
  lemma {:induction false} TotalOfConcat(a: seq<Entry>, b: seq<Entry>)
    ensures TotalPrice(a + b) == TotalPrice(a) + TotalPrice(b)
    decreases |b|
  {
    if b == [] {
      assert a + b == a;
    } else {
      var init := b[..|b| - 1];
      TotalOfConcat(a, init);
      assert (a + b)[..|a + b| - 1] == a + init;
    }
  }

  /** Appending an entry adds its price times its quantity. */
  lemma TotalOfAppend(cart: seq<Entry>, e: Entry)
    ensures TotalPrice(cart + [e]) == TotalPrice(cart) + e.product.price * e.quantity as real
  {
    assert (cart + [e])[..|cart|] == cart;
  }

  /** Adding a product under a new key raises the total by its price. */
  lemma AddRaisesTotalByPrice(cart: seq<Entry>, p: Product)
    requires Truthy(CartKey(p)) && forall k :: 0 <= k < |cart| ==> cart[k].cartId != CartKey(p)
    ensures TotalPrice(AddToCart(cart, p)) == TotalPrice(cart) + p.price
  {
    var e := Entry(p, CartKey(p), 1);
    AddNewAppends(cart, p);
    TotalOfAppend(cart, e);
    assert e.product.price * e.quantity as real == p.price;
  }

  /** Increasing raises the total by the price of each entry it bumps. */
  lemma {:induction false} IncreaseRaisesTotal(cart: seq<Entry>, id: Value)
    ensures TotalPrice(IncreaseQty(cart, id)) == TotalPrice(cart) + MatchingPrice(cart, id)
    decreases |cart|
  {
    if cart != [] {
      var init := cart[..|cart| - 1];
      var last := cart[|cart| - 1];
      var bumped := IncreaseQty(cart, id);
      IncreaseRaisesTotal(init, id);
      assert bumped[..|cart| - 1] == IncreaseQty(init, id);
      TotalOfLast(bumped);
      TotalOfLast(cart);
      if GetId(last.product) == id {
        assert bumped[|cart| - 1] == last.(quantity := last.quantity + 1);
        OneMoreAddsPrice(last);
      } else {
        assert bumped[|cart| - 1] == last;
      }
    }
  }

  /** The total is the total of all but the last entry plus the last entry's line. */
  lemma TotalOfLast(cart: seq<Entry>)
    requires cart != []
    ensures TotalPrice(cart) == TotalPrice(cart[..|cart| - 1]) + LineTotal(cart[|cart| - 1])
  {
  }

  /** One more of an entry adds its price to its line. */
  lemma OneMoreAddsPrice(e: Entry)
    ensures LineTotal(e.(quantity := e.quantity + 1)) == LineTotal(e) + e.product.price
  {
    var q := e.quantity as real;
    assert e.product.price * (q + 1.0) == e.product.price * q + e.product.price;
  }

  /** The sum of the unit prices of the entries whose `getId` is `id`. */
  function MatchingPrice(cart: seq<Entry>, id: Value): real
    decreases |cart|
  {
    if cart == [] then 0.0
    else MatchingPrice(cart[..|cart| - 1], id) + (if GetId(cart[|cart| - 1].product) == id then cart[|cart| - 1].product.price else 0.0)
  }

  /**
   * increase, decrease and remove match on `getId`, not on the cart key:
   * called with a real id, they never touch an entry whose product has
   * neither `_id` nor `id` (one filed under its sku or title).
   */
  lemma FallbackKeyedEntriesUntouched(cart: seq<Entry>, id: Value, k: nat)
    requires k < |cart| && Truthy(id)
    requires !Truthy(cart[k].product.mongoId) && !Truthy(cart[k].product.id)
    ensures IncreaseQty(cart, id)[k] == cart[k]
    ensures cart[k].quantity > 0 ==> cart[k] in DecreaseQty(cart, id)
    ensures cart[k] in RemoveFromCart(cart, id)
  {
    DecreaseKeepsExactly(cart, id, cart[k]);
    RemoveDropsExactlyMatching(cart, id);
  }

  /**
   * Called with `undefined` (the `_id` of such an entry), these operations
   * match EVERY entry whose product has no `_id` and an undefined `id`.
   */
  lemma UndefinedIdMatchesAllFallbackEntries(cart: seq<Entry>, k: nat)
    requires k < |cart| && !Truthy(cart[k].product.mongoId) && cart[k].product.id == Undefined
    ensures IncreaseQty(cart, Undefined)[k].quantity == cart[k].quantity + 1
    ensures cart[k] !in RemoveFromCart(cart, Undefined)
  {
    RemoveDropsExactlyMatching(cart, Undefined);
  }
}
