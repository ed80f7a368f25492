/**
 * The session-cart views, checkout and the owner filter of the order views
 * (orders/views.py).
 *
 * The catalog is what the views read of the products table: product id to
 * current price, in kopecks. A product id missing from it is what
 * get_object_or_404 turns into a 404 response.
 */
module OrderViews {
  import opened Wrappers
  import opened Cart
  import opened Orders

  /** Product id to current price. */
  type Catalog = map<int, int>

  /** The 'cart' entry of one user's session. */
  class SessionCart {
    var lines: seq<CartLine>

    ghost predicate Valid()
      reads this
    {
      ValidLines(lines)
    }

    /** request.session.get('cart', {}) on a session without a cart. */
    constructor ()
      ensures Valid() && lines == []
    {
      lines := [];
    }
  }

  // ---------------------------------------------------------------------
  // What cart_add and cart_remove do to the cart

  /**
   * The cart after adding a product whose current price is `price`. Every
   * entry keeps its place, as in a dictionary; a new product comes last.
   */
  function AfterAdd(lines: seq<CartLine>, id: int, price: int): (r: seq<CartLine>)
    ensures |r| == |lines| + (if IndexOf(lines, id).None? then 1 else 0)
    ensures forall j :: 0 <= j < |lines| ==> r[j].productId == lines[j].productId && r[j].price == lines[j].price
    ensures IndexOf(lines, id).None? ==> r[|lines|] == CartLine(id, 1, price)
  {
    match IndexOf(lines, id)
    case Some(i) => lines[i := lines[i].(quantity := lines[i].quantity + 1)]
    case None => lines + [CartLine(id, 1, price)]
  }

  /**
   * The cart after removing one unit of a product. At most the product's
   * own entry leaves; all entries keep their order and their prices.
   */
  function AfterRemove(lines: seq<CartLine>, id: int): (r: seq<CartLine>)
    ensures |r| == |lines| || |r| == |lines| - 1
    ensures |r| == |lines| ==> forall j :: 0 <= j < |lines| ==>
      r[j].productId == lines[j].productId && r[j].price == lines[j].price
    ensures |r| < |lines| ==>
      (IndexOf(lines, id).Some? && lines[IndexOf(lines, id).value].quantity <= 1
       && r == lines[..IndexOf(lines, id).value] + lines[IndexOf(lines, id).value + 1..])
  {
    match IndexOf(lines, id)
    case None => lines
    case Some(i) =>
      if lines[i].quantity > 1 then lines[i := lines[i].(quantity := lines[i].quantity - 1)]
      else lines[..i] + lines[i + 1..]
  }

  /**
   * Adding keeps the cart valid. The product's entry gets one more unit
   * and keeps the price captured when it was first added; a product not in
   * the cart gets quantity 1 at the current price. Every other entry is as
   * it was.
   */
  lemma AddEntry(lines: seq<CartLine>, id: int, price: int)
    requires ValidLines(lines)
    ensures ValidLines(AfterAdd(lines, id, price))
    ensures Find(AfterAdd(lines, id, price), id) == match Find(lines, id)
      case Some(l) => Some(l.(quantity := l.quantity + 1))
      case None => Some(CartLine(id, 1, price))
    ensures forall k :: k != id ==> Find(AfterAdd(lines, id, price), k) == Find(lines, k)
  {
    var after := AfterAdd(lines, id, price);
    match IndexOf(lines, id)
    case Some(i) =>
      assert ValidLines(after);
      FindAt(after, i);
      forall k | k != id ensures Find(after, k) == Find(lines, k) {
        FindSamePositions(lines, after, k);
      }
    case None =>
      assert ValidLines(after);
      FindAt(after, |lines|);
      forall k | k != id ensures Find(after, k) == Find(lines, k) {
        FindAfterAppend(lines, CartLine(id, 1, price), k);
      }
  }

  /** Two valid carts whose lines hold the same ids at the same positions find the same positions. */
  lemma FindSamePositions(a: seq<CartLine>, b: seq<CartLine>, k: int)
    requires ValidLines(a) && ValidLines(b) && |a| == |b|
    requires forall j :: 0 <= j < |a| ==> a[j].productId == b[j].productId
    requires forall j :: 0 <= j < |a| && a[j].productId == k ==> a[j] == b[j]
    ensures Find(a, k) == Find(b, k)
  {
    match IndexOf(a, k)
    case Some(j) => FindAt(a, j); FindAt(b, j);
    case None =>
  }

  /** Appending a line for another product does not change what is found for k. */
  lemma FindAfterAppend(lines: seq<CartLine>, l: CartLine, k: int)
    requires ValidLines(lines) && ValidLines(lines + [l]) && l.productId != k
    ensures Find(lines + [l], k) == Find(lines, k)
  {
    match IndexOf(lines, k)
    case Some(j) => FindAt(lines, j); FindAt(lines + [l], j);
    case None =>
  }

  /** After an add the count is one higher, and the total rises by the entry's snapshot price. */
  lemma AddSums(lines: seq<CartLine>, id: int, price: int)
    ensures CartCount(AfterAdd(lines, id, price)) == CartCount(lines) + 1
    ensures CartTotal(AfterAdd(lines, id, price)) == CartTotal(lines) + match Find(lines, id)
      case Some(l) => l.price
      case None => price
  {
    match IndexOf(lines, id)
    case Some(i) =>
      var l := lines[i].(quantity := lines[i].quantity + 1);
      assert AfterAdd(lines, id, price) == lines[i := l];
      SumUpdate(lines, i, l, Quantity);
      SumUpdate(lines, i, l, LineTotal);
    case None =>
      assert AfterAdd(lines, id, price) == lines + [CartLine(id, 1, price)];
      SumAppend(lines, CartLine(id, 1, price), Quantity);
      SumAppend(lines, CartLine(id, 1, price), LineTotal);
  }

  /**
   * Removing keeps the cart valid. An entry with more than one unit loses
   * one; an entry with one unit is deleted; an absent product changes
   * nothing. Every other entry is as it was.
   */
  lemma RemoveEntry(lines: seq<CartLine>, id: int)
    requires ValidLines(lines)
    ensures ValidLines(AfterRemove(lines, id))
    ensures Find(AfterRemove(lines, id), id) == match Find(lines, id)
      case Some(l) => if l.quantity > 1 then Some(l.(quantity := l.quantity - 1)) else None
      case None => None
    ensures Find(lines, id).None? ==> AfterRemove(lines, id) == lines
    ensures forall k :: k != id ==> Find(AfterRemove(lines, id), k) == Find(lines, k)
  {
    var after := AfterRemove(lines, id);
    match IndexOf(lines, id)
    case None =>
    case Some(i) =>
      if lines[i].quantity > 1 {
        assert ValidLines(after);
        FindAt(after, i);
        forall k | k != id ensures Find(after, k) == Find(lines, k) {
          FindSamePositions(lines, after, k);
        }
      } else {
        DeleteKeepsValid(lines, i);
        assert forall j :: 0 <= j < |after| ==> after[j].productId != id;
        forall k | k != id ensures Find(after, k) == Find(lines, k) {
          FindAfterDelete(lines, i, k);
        }
      }
  }

  lemma DeleteKeepsValid(lines: seq<CartLine>, i: nat)
    requires ValidLines(lines) && i < |lines|
    ensures ValidLines(lines[..i] + lines[i + 1..])
  {
    var after := lines[..i] + lines[i + 1..];
    assert forall j :: 0 <= j < |after| ==> after[j] == if j < i then lines[j] else lines[j + 1];
  }

  /** Deleting the line of another product does not change what is found for k. */
  lemma FindAfterDelete(lines: seq<CartLine>, i: nat, k: int)
    requires ValidLines(lines) && i < |lines| && lines[i].productId != k
    ensures Find(lines[..i] + lines[i + 1..], k) == Find(lines, k)
  {
    var after := lines[..i] + lines[i + 1..];
    DeleteKeepsValid(lines, i);
    assert forall j :: 0 <= j < |after| ==> after[j] == if j < i then lines[j] else lines[j + 1];
    match IndexOf(lines, k)
    case Some(j) =>
      FindAt(lines, j);
      if j < i {
        FindAt(after, j);
      } else {
        FindAt(after, j - 1);
      }
    case None =>
  }

  /** After a remove the count is one lower when the product was in the cart, and the same otherwise. */
  lemma RemoveCount(lines: seq<CartLine>, id: int)
    requires ValidLines(lines)
    ensures CartCount(AfterRemove(lines, id)) == CartCount(lines) - if Find(lines, id).Some? then 1 else 0
  {
    match IndexOf(lines, id)
    case None =>
    case Some(i) =>
      if lines[i].quantity > 1 {
        SumUpdate(lines, i, lines[i].(quantity := lines[i].quantity - 1), Quantity);
      } else {
        SumDelete(lines, i, Quantity);
      }
  }

  /**
   * Adding the same product twice gives one entry of two units at the
   * first price, whatever the catalog price is at the second add.
   */
  lemma AddTwiceKeepsFirstPrice(id: int, price: int, laterPrice: int)
    ensures AfterAdd(AfterAdd([], id, price), id, laterPrice) == [CartLine(id, 2, price)]
    ensures CartTotal(AfterAdd(AfterAdd([], id, price), id, laterPrice)) == 2 * price
  {
    assert AfterAdd([], id, price) == [CartLine(id, 1, price)];
    assert IndexOf([CartLine(id, 1, price)], id) == Some(0);
    var line := CartLine(id, 2, price);
    assert [line][1..] == [];
    assert SumOf([line], LineTotal) == LineTotal(line) + SumOf([], LineTotal);
  }

  // ---------------------------------------------------------------------
  // cart_add, cart_remove, cart_detail

  /** cart_add: a product missing from the catalog is a 404 and leaves the cart alone. */
  method CartAdd(cart: SessionCart, catalog: Catalog, productId: int) returns (found: bool)
    requires cart.Valid()
    modifies cart
    ensures cart.Valid()
    ensures found <==> productId in catalog
    ensures found ==> cart.lines == AfterAdd(old(cart.lines), productId, catalog[productId])
    ensures !found ==> cart.lines == old(cart.lines)
    ensures found ==> CartCount(cart.lines) == CartCount(old(cart.lines)) + 1
  {
    if productId !in catalog {
      return false;
    }
    var price := catalog[productId];
    AddEntry(cart.lines, productId, price);
    AddSums(cart.lines, productId, price);
    match IndexOf(cart.lines, productId) {
      case Some(i) =>
        cart.lines := cart.lines[i := cart.lines[i].(quantity := cart.lines[i].quantity + 1)];
      case None =>
        cart.lines := cart.lines + [CartLine(productId, 1, price)];
    }
    found := true;
  }

  /** cart_remove: one unit less, the entry gone at one unit, nothing for an absent product. */
  method CartRemove(cart: SessionCart, productId: int)
    requires cart.Valid()
    modifies cart
    ensures cart.Valid()
    ensures cart.lines == AfterRemove(old(cart.lines), productId)
  {
    RemoveEntry(cart.lines, productId);
    ghost var after := AfterRemove(cart.lines, productId);
    match IndexOf(cart.lines, productId) {
      case None =>
      case Some(i) =>
        if cart.lines[i].quantity > 1 {
          assert after == cart.lines[i := cart.lines[i].(quantity := cart.lines[i].quantity - 1)];
          cart.lines := cart.lines[i := cart.lines[i].(quantity := cart.lines[i].quantity - 1)];
        } else {
          assert after == cart.lines[..i] + cart.lines[i + 1..];
          cart.lines := cart.lines[..i] + cart.lines[i + 1..];
        }
    }
  }

  /** The first entry whose product is no longer in the catalog, if any. */
  function FirstMissing(lines: seq<CartLine>, catalog: Catalog): (r: Option<nat>)
    ensures r.None? <==> forall i :: 0 <= i < |lines| ==> lines[i].productId in catalog
    ensures r.Some? ==>
      && r.value < |lines|
      && lines[r.value].productId !in catalog
      && forall i :: 0 <= i < r.value ==> lines[i].productId in catalog
  {
    if lines == [] then None
    else if lines[0].productId !in catalog then Some(0)
    else match FirstMissing(lines[1..], catalog)
      case None => None
      case Some(i) => Some(i + 1)
  }

  lemma FirstMissingAt(lines: seq<CartLine>, catalog: Catalog, i: nat)
    requires i < |lines| && lines[i].productId !in catalog
    requires forall j :: 0 <= j < i ==> lines[j].productId in catalog
    ensures FirstMissing(lines, catalog) == Some(i)
  {
  }

  /** One row of the cart page. */
  datatype CartRow = CartRow(productId: int, currentPrice: int, quantity: int, price: int, itemTotal: int)

  /** The cart page, or the 404 for an entry whose product has gone from the catalog. */
  datatype CartPage = CartListing(rows: seq<CartRow>, total: int) | CartNotFound(productId: int)

  /** The row cart_detail shows for an entry: the product as it is now, its snapshot price and amount. */
  function RowOf(l: CartLine, catalog: Catalog): CartRow
    requires l.productId in catalog
  {
    CartRow(l.productId, catalog[l.productId], l.quantity, l.price, LineTotal(l))
  }

  /**
   * cart_detail: one row per entry in cart order, and the snapshot total,
   * which is the context processor's total. The first entry whose product
   * is gone makes the whole page a 404.
   */
  method CartDetail(cart: SessionCart, catalog: Catalog) returns (page: CartPage)
    ensures FirstMissing(cart.lines, catalog).None? ==>
      && page.CartListing?
      && page.total == CartTotal(cart.lines)
      && |page.rows| == |cart.lines|
      && forall i :: 0 <= i < |cart.lines| ==> page.rows[i] == RowOf(cart.lines[i], catalog)
    ensures FirstMissing(cart.lines, catalog).Some? ==>
      page == CartNotFound(cart.lines[FirstMissing(cart.lines, catalog).value].productId)
  {
    var lines := cart.lines;
    var rows: seq<CartRow> := [];
    var total := 0;
    for i := 0 to |lines|
      invariant forall j :: 0 <= j < i ==> lines[j].productId in catalog
      invariant |rows| == i && forall j :: 0 <= j < i ==> rows[j] == RowOf(lines[j], catalog)
      invariant total == CartTotal(lines[..i])
    {
      var l := lines[i];
      if l.productId !in catalog {
        FirstMissingAt(lines, catalog, i);
        return CartNotFound(l.productId);
      }
      var itemTotal := l.price * l.quantity;
      total := total + itemTotal;
      rows := rows + [CartRow(l.productId, catalog[l.productId], l.quantity, l.price, itemTotal)];
      assert lines[..i + 1] == lines[..i] + [l];
      SumAppend(lines[..i], l, LineTotal);
    }
    assert lines[..|lines|] == lines;
    return CartListing(rows, total);
  }

  // ---------------------------------------------------------------------
  // checkout

  /** What reaches the checkout view: the form page, or a submitted form with its two fields. */
  datatype Request = ShowCheckout | SubmitCheckout(phone: Option<string>, address: Option<string>)

  /** The saved contact details that pre-fill the form. */
  datatype Profile = Profile(phone: string, defaultAddress: string)

  datatype CheckoutPage =
    | EmptyCartRedirect
    | CheckoutForm(phone: string, address: string, total: int)
    | MissingContact(submittedPhone: Option<string>, submittedAddress: Option<string>, total: int)
    | OrderPlaced(orderId: nat)
    | ProductNotFound(productId: int)

  /** A submitted field that is present and not empty: Python's truth test on it. */
  predicate Filled(v: Option<string>)
  {
    v.Some? && v.value != ""
  }

  function PrefillPhone(profile: Option<Profile>): string
  {
    if profile.Some? then profile.value.phone else ""
  }

  function PrefillAddress(profile: Option<Profile>): string
  {
    if profile.Some? then profile.value.defaultAddress else ""
  }

  /** The items checkout creates, in cart order: each entry's quantity and snapshot price, for the given order. */
  function OrderItemsFor(orderId: nat, lines: seq<CartLine>): (r: seq<OrderItem>)
    ensures |r| == |lines|
    ensures forall i :: 0 <= i < |lines| ==>
      r[i] == OrderItem(orderId, lines[i].productId, lines[i].quantity, lines[i].price)
  {
    if lines == [] then []
    else
      [OrderItem(orderId, lines[0].productId, lines[0].quantity, lines[0].price)]
      + OrderItemsFor(orderId, lines[1..])
  }

  lemma OrderItemsForPrefix(orderId: nat, lines: seq<CartLine>, i: nat)
    requires i < |lines|
    ensures OrderItemsFor(orderId, lines[..i + 1])
      == OrderItemsFor(orderId, lines[..i]) + [OrderItem(orderId, lines[i].productId, lines[i].quantity, lines[i].price)]
  {
  }

  /** The items made from a cart add up, for their order, to the cart's snapshot total. */
  lemma {:induction false} ItemsTotalIsCartTotal(orderId: nat, lines: seq<CartLine>)
    ensures OrderTotal(OrderItemsFor(orderId, lines), orderId) == CartTotal(lines)
  {
    if lines != [] {
      var items := OrderItemsFor(orderId, lines);
      assert items[1..] == OrderItemsFor(orderId, lines[1..]);
      ItemsTotalIsCartTotal(orderId, lines[1..]);
    }
  }

  /** The items made from a cart add nothing to the total of any other order. */
  lemma {:induction false} ItemsOfOtherOrder(orderId: nat, other: nat, lines: seq<CartLine>)
    requires other != orderId
    ensures OrderTotal(OrderItemsFor(orderId, lines), other) == 0
  {
    OrderTotalNoItems(OrderItemsFor(orderId, lines), other);
  }

  /**
   * A checkout that creates all its items gives the new order the cart's
   * total; the totals of the orders already stored do not change.
   */
  lemma PlacedOrderTotal(items: seq<OrderItem>, orderCount: nat, lines: seq<CartLine>)
    requires forall i :: 0 <= i < |items| ==> 1 <= items[i].orderId <= orderCount
    ensures OrderTotal(items + OrderItemsFor(orderCount + 1, lines), orderCount + 1) == CartTotal(lines)
    ensures forall other: nat :: other != orderCount + 1 ==>
      OrderTotal(items + OrderItemsFor(orderCount + 1, lines), other) == OrderTotal(items, other)
  {
    var id := orderCount + 1;
    OrderTotalConcat(items, OrderItemsFor(id, lines), id);
    OrderTotalNoItems(items, id);
    ItemsTotalIsCartTotal(id, lines);
    forall other: nat | other != id
      ensures OrderTotal(items + OrderItemsFor(id, lines), other) == OrderTotal(items, other)
    {
      OrderTotalConcat(items, OrderItemsFor(id, lines), other);
      ItemsOfOtherOrder(id, other, lines);
    }
  }

  /**
   * checkout. An empty cart redirects; the form page shows the profile's
   * details; a submission without a phone or an address comes back with
   * both values as submitted. None of these writes anything. Otherwise one
   * order is created with the default status, then one item per entry in
   * cart order. There is no transaction: when an entry's product has gone
   * from the catalog the view stops with a 404, the order and the items
   * made so far stay stored, and the cart is kept. Only when every item is
   * created is the cart emptied.
   */
  method Checkout(cart: SessionCart, store: OrderStore, catalog: Catalog, user: int,
                  request: Request, profile: Option<Profile>) returns (page: CheckoutPage)
    requires cart.Valid() && store.Valid()
    modifies cart, store
    ensures cart.Valid() && store.Valid()
    ensures old(cart.lines) == [] ==> page == EmptyCartRedirect
    ensures page.EmptyCartRedirect? || page.CheckoutForm? || page.MissingContact? ==>
      unchanged(cart) && unchanged(store)
    ensures old(cart.lines) != [] && request.ShowCheckout? ==>
      page == CheckoutForm(PrefillPhone(profile), PrefillAddress(profile), CartTotal(old(cart.lines)))
    ensures (old(cart.lines) != [] && request.SubmitCheckout?
             && !(Filled(request.phone) && Filled(request.address))) ==>
      page == MissingContact(request.phone, request.address, CartTotal(old(cart.lines)))
    ensures (old(cart.lines) != [] && request.SubmitCheckout?
             && Filled(request.phone) && Filled(request.address)) ==>
      var id := |old(store.orders)| + 1;
      && store.orders == old(store.orders) + [Order(id, user, request.phone.value, request.address.value, New)]
      && match FirstMissing(old(cart.lines), catalog)
        case None =>
          && page == OrderPlaced(id)
          && store.items == old(store.items) + OrderItemsFor(id, old(cart.lines))
          && cart.lines == []
        case Some(k) =>
          && page == ProductNotFound(old(cart.lines)[k].productId)
          && store.items == old(store.items) + OrderItemsFor(id, old(cart.lines)[..k])
          && cart.lines == old(cart.lines)
    ensures page.OrderPlaced? ==> OrderTotal(store.items, page.orderId) == CartTotal(old(cart.lines))
  {
    var lines := cart.lines;
    if lines == [] {
      return EmptyCartRedirect;
    }
    var total := SnapshotTotal(lines);
    match request {
      case ShowCheckout =>
        return CheckoutForm(PrefillPhone(profile), PrefillAddress(profile), total);
      case SubmitCheckout(phone, address) =>
        if !Filled(phone) || !Filled(address) {
          return MissingContact(phone, address, total);
        }
        ghost var items0 := store.items;
        var id := store.CreateOrder(user, phone.value, address.value);
        assert store.items == items0;
        var missing := CreateItems(store, id, lines, catalog);
        if missing.Some? {
          assert store.items == items0 + OrderItemsFor(id, lines[..missing.value]);
          return ProductNotFound(lines[missing.value].productId);
        }
        assert store.items == items0 + OrderItemsFor(id, lines);
        PlacedOrderTotal(items0, id - 1, lines);
        cart.lines := [];
        return OrderPlaced(id);
    }
  }

  /**
   * Checkout as written leaves a partial order behind: a one-entry cart
   * whose product has gone from the catalog ends in a 404 with one order
   * stored and no items for it.
   */
  method PartialOrderWitness() returns (page: CheckoutPage, orderCount: nat, itemCount: nat)
    ensures page == ProductNotFound(7) && orderCount == 1 && itemCount == 0
  {
    var cart := new SessionCart();
    cart.lines := [CartLine(7, 1, 10000)];
    var store := new OrderStore();
    assert FirstMissing(cart.lines, map[]) == Some(0);
    page := Checkout(cart, store, map[], 1, SubmitCheckout(Some("+7"), Some("Moscow")), None);
    orderCount := |store.orders|;
    itemCount := |store.items|;
  }

  /**
   * Checkout with its writes made all-or-nothing: a vanished product is
   * found before anything is written, so every outcome except a placed
   * order leaves the order tables and the cart as they were.
   */
  method AtomicCheckout(cart: SessionCart, store: OrderStore, catalog: Catalog, user: int,
                        request: Request, profile: Option<Profile>) returns (page: CheckoutPage)
    requires cart.Valid() && store.Valid()
    modifies cart, store
    ensures cart.Valid() && store.Valid()
    ensures !page.OrderPlaced? ==> unchanged(cart) && unchanged(store)
    ensures old(cart.lines) == [] ==> page == EmptyCartRedirect
    ensures old(cart.lines) != [] && request.ShowCheckout? ==>
      page == CheckoutForm(PrefillPhone(profile), PrefillAddress(profile), CartTotal(old(cart.lines)))
    ensures (old(cart.lines) != [] && request.SubmitCheckout?
             && !(Filled(request.phone) && Filled(request.address))) ==>
      page == MissingContact(request.phone, request.address, CartTotal(old(cart.lines)))
    ensures (old(cart.lines) != [] && request.SubmitCheckout?
             && Filled(request.phone) && Filled(request.address)) ==>
      match FirstMissing(old(cart.lines), catalog)
      case None => page == OrderPlaced(|old(store.orders)| + 1)
      case Some(k) => page == ProductNotFound(old(cart.lines)[k].productId)
    ensures page.ProductNotFound? <==>
      (old(cart.lines) != [] && request.SubmitCheckout? && Filled(request.phone) && Filled(request.address)
       && FirstMissing(old(cart.lines), catalog).Some?)
    ensures page.OrderPlaced? ==>
      && request.SubmitCheckout? && Filled(request.phone) && Filled(request.address)
      && page.orderId == |old(store.orders)| + 1
      && store.orders == old(store.orders) + [Order(page.orderId, user, request.phone.value, request.address.value, New)]
      && store.items == old(store.items) + OrderItemsFor(page.orderId, old(cart.lines))
      && OrderTotal(store.items, page.orderId) == CartTotal(old(cart.lines))
      && cart.lines == []
  {
    if cart.lines != [] && request.SubmitCheckout? && Filled(request.phone) && Filled(request.address) {
      var missing := FirstMissing(cart.lines, catalog);
      if missing.Some? {
        return ProductNotFound(cart.lines[missing.value].productId);
      }
    }
    page := Checkout(cart, store, catalog, user, request, profile);
  }

  /** The display total of checkout: the snapshot total, added up entry by entry. */
  method SnapshotTotal(lines: seq<CartLine>) returns (total: int)
    ensures total == CartTotal(lines)
  {
    total := 0;
    for i := 0 to |lines|
      invariant total == CartTotal(lines[..i])
    {
      assert lines[..i + 1] == lines[..i] + [lines[i]];
      SumAppend(lines[..i], lines[i], LineTotal);
      total := total + lines[i].price * lines[i].quantity;
    }
    assert lines[..|lines|] == lines;
  }

  /**
   * The item loop of checkout: one item per entry, in cart order, each with
   * the entry's quantity and snapshot price. The loop stops at the first
   * entry whose product has gone from the catalog; the items made before it
   * stay.
   */
  method CreateItems(store: OrderStore, orderId: nat, lines: seq<CartLine>, catalog: Catalog)
    returns (missing: Option<nat>)
    requires store.Valid() && 1 <= orderId <= |store.orders|
    modifies store
    ensures store.Valid()
    ensures missing == FirstMissing(lines, catalog)
    ensures store.orders == old(store.orders)
    ensures missing.None? ==> store.items == old(store.items) + OrderItemsFor(orderId, lines)
    ensures missing.Some? ==> store.items == old(store.items) + OrderItemsFor(orderId, lines[..missing.value])
  {
    for i := 0 to |lines|
      invariant store.Valid() && store.orders == old(store.orders)
      invariant store.items == old(store.items) + OrderItemsFor(orderId, lines[..i])
      invariant forall j :: 0 <= j < i ==> lines[j].productId in catalog
    {
      var l := lines[i];
      if l.productId !in catalog {
        FirstMissingAt(lines, catalog, i);
        return Some(i);
      }
      store.CreateItem(orderId, l.productId, l.quantity, l.price);
      OrderItemsForPrefix(orderId, lines, i);
    }
    assert lines[..|lines|] == lines;
    return None;
  }

  /** The cart of the checkout example: two units at 100.00 and one at 50.00 make 250.00, cart and order alike. */
  lemma CheckoutExample()
    ensures var lines := [CartLine(1, 2, 10000), CartLine(2, 1, 5000)];
      CartTotal(lines) == 25000 && OrderTotal(OrderItemsFor(1, lines), 1) == 25000
  {
    var lines := [CartLine(1, 2, 10000), CartLine(2, 1, 5000)];
    ItemsTotalIsCartTotal(1, lines);
  }

  // ---------------------------------------------------------------------
  // Order list and detail

  /** OrderListView.get_queryset: exactly the requester's orders, in stored order. */
  function OrdersOf(orders: seq<Order>, user: int): (r: seq<Order>)
    ensures forall i :: 0 <= i < |r| ==> r[i].user == user && r[i] in orders
    ensures forall i :: 0 <= i < |orders| && orders[i].user == user ==> orders[i] in r
  {
    if orders == [] then []
    else (if orders[0].user == user then [orders[0]] else []) + OrdersOf(orders[1..], user)
  }

  /**
   * OrderDetailView.get_object: the order with that id, and only when it
   * belongs to the requester; any other order is a 404 even when the id
   * matches.
   */
  function OrderDetail(orders: seq<Order>, pk: int, user: int): (r: Option<Order>)
    ensures r.Some? <==> exists i :: 0 <= i < |orders| && orders[i].id == pk && orders[i].user == user
    ensures r.Some? ==> r.value.id == pk && r.value.user == user && r.value in orders
  {
    if orders == [] then None
    else if orders[0].id == pk && orders[0].user == user then Some(orders[0])
    else OrderDetail(orders[1..], pk, user)
  }
}
