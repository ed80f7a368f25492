/**
 * The session cart as data, and the two sums the context processor shows
 * on every page (orders/context_processors.py).
 *
 * The session holds a dictionary from product id to {quantity, price}.
 * Python dictionaries keep insertion order, and checkout turns the entries
 * into order items in that order, so the cart is a sequence of lines with
 * pairwise distinct product ids: a new key is appended, an updated key keeps
 * its place, a deleted key leaves the sequence. Prices are integer kopecks.
 */
module Cart {
  import opened Wrappers

  /** One cart entry: the product's key, its quantity, and the price captured at the first add. */
  datatype CartLine = CartLine(productId: int, quantity: int, price: int)

  /** The line's amount: snapshot price times quantity. */
  function LineTotal(l: CartLine): int
  {
    l.price * l.quantity
  }

  function Quantity(l: CartLine): int
  {
    l.quantity
  }

  /** What every reachable cart satisfies: each product at most once, each quantity at least one. */
  ghost predicate ValidLines(lines: seq<CartLine>)
  {
    && (forall i, j :: 0 <= i < j < |lines| ==> lines[i].productId != lines[j].productId)
    && (forall i :: 0 <= i < |lines| ==> lines[i].quantity >= 1)
  }

  /** Where the product's entry is, if it has one: the `str(product_id) in cart` test. */
  function IndexOf(lines: seq<CartLine>, id: int): (r: Option<nat>)
    ensures r.Some? ==> r.value < |lines| && lines[r.value].productId == id
    ensures r.None? <==> forall i :: 0 <= i < |lines| ==> lines[i].productId != id
  {
    if lines == [] then None
    else if lines[0].productId == id then Some(0)
    else match IndexOf(lines[1..], id)
      case None => None
      case Some(i) => Some(i + 1)
  }

  /** cart[str(product_id)] after the membership test: the product's entry, if it has one. */
  function Find(lines: seq<CartLine>, id: int): Option<CartLine>
  {
    match IndexOf(lines, id)
    case None => None
    case Some(i) => Some(lines[i])
  }

  /** In a valid cart an entry is found exactly at the one position holding its id. */
  lemma FindAt(lines: seq<CartLine>, i: nat)
    requires ValidLines(lines) && i < |lines|
    ensures Find(lines, lines[i].productId) == Some(lines[i])
  {
    var r := IndexOf(lines, lines[i].productId);
    assert r.Some?;
  }

  // ---------------------------------------------------------------------
  // Sums

  /** The sum of f over the lines, in dictionary order. */
  function SumOf(lines: seq<CartLine>, f: CartLine -> int): int
  {
    if lines == [] then 0 else f(lines[0]) + SumOf(lines[1..], f)
  }

  /** cart_count: the sum of the quantities. */
  function CartCount(lines: seq<CartLine>): int
  {
    SumOf(lines, Quantity)
  }

  /** cart_total: the sum of snapshot price times quantity; the catalog is not consulted. */
  function CartTotal(lines: seq<CartLine>): int
  {
    SumOf(lines, LineTotal)
  }

  lemma {:induction false} SumAppend(lines: seq<CartLine>, l: CartLine, f: CartLine -> int)
    ensures SumOf(lines + [l], f) == SumOf(lines, f) + f(l)
  {
    if lines != [] {
      assert (lines + [l])[1..] == lines[1..] + [l];
      SumAppend(lines[1..], l, f);
    }
  }

  /** Replacing one line changes the sum by the difference of the two lines. */
  lemma {:induction false} SumUpdate(lines: seq<CartLine>, i: nat, l: CartLine, f: CartLine -> int)
    requires i < |lines|
    ensures SumOf(lines[i := l], f) == SumOf(lines, f) - f(lines[i]) + f(l)
  {
    if i > 0 {
      assert lines[i := l][1..] == lines[1..][i - 1 := l];
      SumUpdate(lines[1..], i - 1, l, f);
    }
  }

  /** Deleting one line takes that line out of the sum. */
  lemma {:induction false} SumDelete(lines: seq<CartLine>, i: nat, f: CartLine -> int)
    requires i < |lines|
    ensures SumOf(lines[..i] + lines[i + 1..], f) == SumOf(lines, f) - f(lines[i])
  {
    if i > 0 {
      assert (lines[..i] + lines[i + 1..])[1..] == lines[1..][..i - 1] + lines[1..][i..];
      SumDelete(lines[1..], i - 1, f);
    } else {
      assert lines[..i] + lines[i + 1..] == lines[1..];
    }
  }

  /** Every line counts at least once, so the count is at least the number of products. */
  lemma {:induction false} CountAtLeastLines(lines: seq<CartLine>)
    ensures ValidLines(lines) ==> CartCount(lines) >= |lines|
  {
    if lines != [] && ValidLines(lines) {
      assert ValidLines(lines[1..]) by {
        assert forall i :: 0 <= i < |lines[1..]| ==> lines[1..][i] == lines[i + 1];
      }
      CountAtLeastLines(lines[1..]);
    }
  }

  // ---------------------------------------------------------------------
  // The context processor

  /** The dictionary the context processor returns. */
  datatype CartSummary = CartSummary(count: int, total: int)

  /**
   * cart_context_processor: the number of items and their snapshot total.
   * An empty cart shows zero of both; a non-empty valid cart shows a
   * positive count of at least one per product.
   */
  function CartContext(lines: seq<CartLine>): (r: CartSummary)
    ensures lines == [] ==> r == CartSummary(0, 0)
    ensures ValidLines(lines) ==> r.count >= |lines| && (r.count == 0 <==> lines == [])
  {
    CountAtLeastLines(lines);
    CartSummary(CartCount(lines), CartTotal(lines))
  }
}
