/**
 * Orders and their items (orders/models.py), and the two database tables
 * that hold them. Prices are integer kopecks.
 */
module Orders {
  import opened Wrappers

  /** The status choices of an order; a new order starts as New. */
  datatype Status = New | Confirmed | Completed

  /** The value stored in the status column for each choice. */
  function StatusCode(s: Status): string
  {
    match s
    case New => "new"
    case Confirmed => "confirmed"
    case Completed => "completed"
  }

  /** Reading a stored status back: only the three choice values are statuses. */
  function ParseStatus(code: string): (r: Option<Status>)
    ensures r.Some? ==> StatusCode(r.value) == code
  {
    if code == "new" then Some(New)
    else if code == "confirmed" then Some(Confirmed)
    else if code == "completed" then Some(Completed)
    else None
  }

  lemma StatusRoundTrip(s: Status)
    ensures ParseStatus(StatusCode(s)) == Some(s)
  {
  }

  /** An order header. The creation timestamp is not modelled. */
  datatype Order = Order(id: nat, user: int, phone: string, address: string, status: Status)

  /** One line of an order, with the price frozen at checkout. */
  datatype OrderItem = OrderItem(orderId: nat, productId: int, quantity: int, priceAtOrder: int)

  /** OrderItem.total_price. */
  function ItemTotal(it: OrderItem): (r: int)
    ensures it.priceAtOrder >= 0 && it.quantity >= 0 ==> r >= 0
    ensures it.quantity == 0 || it.priceAtOrder == 0 ==> r == 0
  {
    it.priceAtOrder * it.quantity
  }

  /** The amount an item adds to the total of the given order. */
  function ShareOf(it: OrderItem, orderId: nat): int
  {
    if it.orderId == orderId then ItemTotal(it) else 0
  }

  /**
   * Order.total_price: the sum of the item totals over the order's items
   * (`self.items.all()`). Items with non-negative prices and quantities
   * give a non-negative total.
   */
  function OrderTotal(items: seq<OrderItem>, orderId: nat): (r: int)
    ensures (forall i :: 0 <= i < |items| ==> items[i].priceAtOrder >= 0 && items[i].quantity >= 0) ==> r >= 0
  {
    if items == [] then 0 else ShareOf(items[0], orderId) + OrderTotal(items[1..], orderId)
  }

  /** Adding an item raises its own order's total by exactly the item's total, and no other. */
  lemma {:induction false} OrderTotalAppend(items: seq<OrderItem>, it: OrderItem, orderId: nat)
    ensures OrderTotal(items + [it], orderId)
      == OrderTotal(items, orderId) + (if it.orderId == orderId then ItemTotal(it) else 0)
  {
    if items != [] {
      assert (items + [it])[1..] == items[1..] + [it];
      OrderTotalAppend(items[1..], it, orderId);
    }
  }

  lemma {:induction false} OrderTotalConcat(a: seq<OrderItem>, b: seq<OrderItem>, orderId: nat)
    ensures OrderTotal(a + b, orderId) == OrderTotal(a, orderId) + OrderTotal(b, orderId)
  {
    if a == [] {
      assert a + b == b;
    } else {
      assert (a + b)[1..] == a[1..] + b;
      OrderTotalConcat(a[1..], b, orderId);
    }
  }

  /** An order without items totals zero. */
  lemma {:induction false} OrderTotalNoItems(items: seq<OrderItem>, orderId: nat)
    requires forall i :: 0 <= i < |items| ==> items[i].orderId != orderId
    ensures OrderTotal(items, orderId) == 0
  {
    if items != [] {
      OrderTotalNoItems(items[1..], orderId);
    }
  }

  /** The case of the model tests: one item of two at 150.00 totals 300.00, as does the order. */
  lemma OrderTotalExample()
    ensures var it := OrderItem(1, 1, 2, 15000);
      ItemTotal(it) == 30000 && OrderTotal([it], 1) == 30000
  {
  }

  /**
   * The orders and order-items tables. Orders get the ids 1, 2, 3, ... in
   * creation order, and every item belongs to an order that exists.
   */
  class OrderStore {
    var orders: seq<Order>
    var items: seq<OrderItem>

    ghost predicate Valid()
      reads this
    {
      && (forall i :: 0 <= i < |orders| ==> orders[i].id == i + 1)
      && (forall i :: 0 <= i < |items| ==> 1 <= items[i].orderId <= |orders|)
    }

    constructor ()
      ensures Valid() && orders == [] && items == []
    {
      orders := [];
      items := [];
    }

    /** Order.objects.create(user=..., phone=..., address=...): a fresh id and the default status. */
    method CreateOrder(user: int, phone: string, address: string) returns (id: nat)
      requires Valid()
      modifies this
      ensures Valid()
      ensures id == |old(orders)| + 1
      ensures orders == old(orders) + [Order(id, user, phone, address, New)]
      ensures items == old(items)
    {
      id := |orders| + 1;
      orders := orders + [Order(id, user, phone, address, New)];
    }

    /** OrderItem.objects.create(order=..., product=..., quantity=..., price_at_order=...). */
    method CreateItem(orderId: nat, productId: int, quantity: int, priceAtOrder: int)
      requires Valid() && 1 <= orderId <= |orders|
      modifies this
      ensures Valid()
      ensures orders == old(orders)
      ensures items == old(items) + [OrderItem(orderId, productId, quantity, priceAtOrder)]
    {
      items := items + [OrderItem(orderId, productId, quantity, priceAtOrder)];
    }
  }
}
