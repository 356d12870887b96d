/** The integer-cents shopping cart (shopping_cart/src/main.rs). The Rust
    `u64` fields are `nat`s here; overflow is not modelled. */
module ShoppingCart {
  import opened Seqs

  datatype CartItem = CartItem(productId: nat, priceInCents: nat, quantity: nat)

  datatype Cart = Cart(items: seq<CartItem>)

  /** What one item line costs: unit price times quantity. */
  function LineTotal(item: CartItem): nat {
    item.priceInCents * item.quantity
  }

  function New(): (c: Cart)
    ensures |c.items| == 0
  {
    Cart([])
  }

  /** `add` pushes the item at the end of the cart. */
  function Add(c: Cart, item: CartItem): (r: Cart)
    ensures |r.items| == |c.items| + 1
    ensures r.items[..|c.items|] == c.items
    ensures r.items[|c.items|] == item
  {
    Cart(c.items + [item])
  }

  /** The sum of the line totals of `items`, folded from the front as the
      Rust iterator does. */
  function Sum(items: seq<CartItem>): nat {
    if |items| == 0 then 0 else LineTotal(items[0]) + Sum(items[1..])
  }

  function TotalPriceInCents(c: Cart): nat {
    Sum(c.items)
  }

  /** A new cart costs nothing. */
  lemma NewCartIsFree()
    ensures TotalPriceInCents(New()) == 0
  {
  }

  lemma {:induction false} SumAppend(a: seq<CartItem>, b: seq<CartItem>)
    ensures Sum(a + b) == Sum(a) + Sum(b)
  {
    if |a| == 0 {
      assert a + b == b;
    } else {
      assert (a + b)[1..] == a[1..] + b;
      SumAppend(a[1..], b);
    }
  }

  /** Adding an item raises the total by exactly that item's line total. */
  lemma AddRaisesTotal(c: Cart, item: CartItem)
    ensures TotalPriceInCents(Add(c, item)) == TotalPriceInCents(c) + item.priceInCents * item.quantity
  {
    SumAppend(c.items, [item]);
  }

  /** The total does not depend on the order of the items. */
  lemma {:induction false} TotalIgnoresOrder(c1: Cart, c2: Cart)
    requires multiset(c1.items) == multiset(c2.items)
    ensures TotalPriceInCents(c1) == TotalPriceInCents(c2)
  {
    SumIgnoresOrder(c1.items, c2.items);
  }

  lemma {:induction false} SumIgnoresOrder(a: seq<CartItem>, b: seq<CartItem>)
    requires multiset(a) == multiset(b)
    ensures Sum(a) == Sum(b)
    decreases |a|
  {
    if |a| > 0 {
      var x := a[0];
      assert x in multiset(b);
      var k :| 0 <= k < |b| && b[k] == x;
      var rest := b[..k] + b[k + 1..];
      RemoveAt(b, k);
      DropHead(a);
      SumIgnoresOrder(a[1..], rest);
      SumAppend(b[..k] + [x], b[k + 1..]);
      SumAppend(b[..k], [x]);
      SumAppend(b[..k], b[k + 1..]);
    } else {
      assert b == [];
    }
  }

  /** Worked cases: 10.00 once, 10.00 twice, two lines of 10.00, and 10.00
      three times plus 10.00 twice. */
  lemma Examples()
    ensures TotalPriceInCents(Add(New(), CartItem(1, 1000, 1))) == 1000
    ensures TotalPriceInCents(Add(New(), CartItem(1, 1000, 2))) == 2000
    ensures TotalPriceInCents(Add(Add(New(), CartItem(1, 1000, 1)), CartItem(2, 1000, 1))) == 2000
    ensures TotalPriceInCents(Add(Add(New(), CartItem(1, 1000, 3)), CartItem(2, 1000, 2))) == 5000
  {
    AddRaisesTotal(New(), CartItem(1, 1000, 1));
    AddRaisesTotal(New(), CartItem(1, 1000, 2));
    AddRaisesTotal(New(), CartItem(1, 1000, 3));
    AddRaisesTotal(Add(New(), CartItem(1, 1000, 1)), CartItem(2, 1000, 1));
    AddRaisesTotal(Add(New(), CartItem(1, 1000, 3)), CartItem(2, 1000, 2));
  }
}
