/**
 * The cart page (src/pages/cart.tsx): loading the stored cart and dropping
 * the items whose product cannot be loaded, changing a quantity, removing a
 * product, and the total. Prices are integer cents; the product lookup is a
 * parameter that answers `None` for a missing product and for a failed
 * lookup alike, as the page treats both the same way.
 */
module Cart {
  import opened Options

  datatype Product = Product(price: int)

  /** A cart line; `product` is attached at load time. An absent `productId` is the empty string. */
  datatype CartItem = CartItem(productId: string, quantity: int, size: string, color: string, product: Option<Product>)

  /** What `JSON.parse` of the stored cart produced. */
  datatype Stored = Malformed | NotAnArray | Items(items: seq<CartItem>)

  const LoadFailedText: string := "Failed to load cart items. Please try again."

  /** What the load leaves: the items shown, the error, and the cart written back to storage, if any. */
  datatype Loaded = Loaded(items: seq<CartItem>, error: Option<string>, rewrite: Option<seq<CartItem>>)

  /** An item whose product resolved: it has an id and the lookup found the product. */
  predicate Resolves(item: CartItem, lookup: string -> Option<Product>) {
    item.productId != "" && lookup(item.productId).Some?
  }

  /** The items that resolve, in order, each with its product attached. */
  function KeepLoaded(items: seq<CartItem>, lookup: string -> Option<Product>): (kept: seq<CartItem>)
    ensures |kept| <= |items|
    ensures forall k :: 0 <= k < |kept| ==> kept[k].product.Some?
  {
    if items == [] then []
    else
      var head := items[0];
      (if Resolves(head, lookup) then [head.(product := lookup(head.productId))] else [])
      + KeepLoaded(items[1..], lookup)
  }

  /**
   * The loading effect. Malformed storage shows an error and an empty cart;
   * anything other than a non-empty array is an empty cart; otherwise the
   * resolving items are kept and storage is rewritten only if one was
   * dropped.
   */
  function Load(stored: Stored, lookup: string -> Option<Product>): (r: Loaded)
    ensures stored.Malformed? ==> r == Loaded([], Some(LoadFailedText), None)
    ensures r.error.Some? <==> stored.Malformed?
    ensures stored.Items? ==> r.items == KeepLoaded(stored.items, lookup)
    ensures r.rewrite.Some? ==> r.rewrite.value == r.items
    ensures r.rewrite.Some? <==> stored.Items? && |r.items| < |stored.items|
  {
    match stored
    case Malformed => Loaded([], Some(LoadFailedText), None)
    case NotAnArray => Loaded([], None, None)
    case Items(items) =>
      if items == [] then Loaded([], None, None)
      else
        var kept := KeepLoaded(items, lookup);
        Loaded(kept, None, if |kept| != |items| then Some(kept) else None)
  }

  /** An item is kept, with its product, exactly when it resolves. */
  lemma {:induction false} KeepLoadedMembership(items: seq<CartItem>, lookup: string -> Option<Product>, x: CartItem)
    ensures x in KeepLoaded(items, lookup) <==>
              exists k :: 0 <= k < |items| && Resolves(items[k], lookup) &&
                          x == items[k].(product := lookup(items[k].productId))
    decreases |items|
  {
    if items != [] {
      KeepLoadedMembership(items[1..], lookup, x);
      var head := items[0];
      if x in KeepLoaded(items[1..], lookup) {
        var k :| 0 <= k < |items[1..]| && Resolves(items[1..][k], lookup) &&
                 x == items[1..][k].(product := lookup(items[1..][k].productId));
        assert items[k + 1] == items[1..][k];
      }
      if exists k :: 0 <= k < |items| && Resolves(items[k], lookup) &&
                     x == items[k].(product := lookup(items[k].productId)) {
        var k :| 0 <= k < |items| && Resolves(items[k], lookup) &&
                 x == items[k].(product := lookup(items[k].productId));
        if k > 0 {
          assert items[1..][k - 1] == items[k];
        }
      }
    }
  }

  /** Nothing is dropped exactly when every item resolves. */
  lemma {:induction false} KeepLoadedDropsNothing(items: seq<CartItem>, lookup: string -> Option<Product>)
    ensures |KeepLoaded(items, lookup)| == |items| <==> forall k :: 0 <= k < |items| ==> Resolves(items[k], lookup)
    decreases |items|
  {
    if items != [] {
      KeepLoadedDropsNothing(items[1..], lookup);
      if forall k :: 0 <= k < |items[1..]| ==> Resolves(items[1..][k], lookup) {
        if Resolves(items[0], lookup) {
          forall k | 0 <= k < |items|
            ensures Resolves(items[k], lookup)
          {
            if k > 0 {
              assert items[k] == items[1..][k - 1];
            }
          }
        }
      } else {
        var k :| 0 <= k < |items[1..]| && !Resolves(items[1..][k], lookup);
        assert !Resolves(items[k + 1], lookup);
      }
    }
  }

  /** Storage is rewritten at load exactly when some stored item fails to resolve. */
  lemma RewriteExactlyWhenDropped(items: seq<CartItem>, lookup: string -> Option<Product>)
    ensures Load(Items(items), lookup).rewrite.Some? <==>
              exists k :: 0 <= k < |items| && !Resolves(items[k], lookup)
  {
    KeepLoadedDropsNothing(items, lookup);
  }

  /** What a change leaves: the items shown and whether storage was written. */
  datatype Changed = Changed(items: seq<CartItem>, written: bool)

  /**
   * `updateQuantity`: a quantity below 1 changes nothing and writes nothing;
   * otherwise every line of that product gets the quantity, nothing else
   * changes, and the cart is written.
   */
  function UpdateQuantity(items: seq<CartItem>, productId: string, quantity: int): (r: Changed)
    ensures quantity < 1 ==> r == Changed(items, false)
    ensures quantity >= 1 ==> r.written
    ensures |r.items| == |items|
    ensures quantity >= 1 ==> forall k :: 0 <= k < |items| ==>
              r.items[k] == (if items[k].productId == productId then items[k].(quantity := quantity) else items[k])
  {
    if quantity < 1 then Changed(items, false)
    else
      Changed(seq(|items|, k requires 0 <= k < |items| =>
                if items[k].productId == productId then items[k].(quantity := quantity) else items[k]),
              true)
  }

  /** True when every line has at least one unit. */
  predicate PositiveQuantities(items: seq<CartItem>) {
    forall k :: 0 <= k < |items| ==> items[k].quantity >= 1
  }

  /** Quantity changes keep every line at one unit or more. */
  lemma UpdateKeepsPositive(items: seq<CartItem>, productId: string, quantity: int)
    requires PositiveQuantities(items)
    ensures PositiveQuantities(UpdateQuantity(items, productId, quantity).items)
  {
  }

  /** `removeItem`: drop every line of that product, keep the rest in order, and write the cart. */
  function RemoveItem(items: seq<CartItem>, productId: string): (r: Changed)
    ensures r.written
    ensures |r.items| <= |items|
    ensures forall k :: 0 <= k < |r.items| ==> r.items[k].productId != productId
  {
    if items == [] then Changed([], true)
    else
      var rest := RemoveItem(items[1..], productId).items;
      Changed((if items[0].productId == productId then [] else [items[0]]) + rest, true)
  }

  /** The lines of one product, in order. */
  function LinesOf(items: seq<CartItem>, productId: string): (r: seq<CartItem>)
    ensures forall k :: 0 <= k < |r| ==> r[k].productId == productId
  {
    if items == [] then []
    else (if items[0].productId == productId then [items[0]] else []) + LinesOf(items[1..], productId)
  }

  /** Removal keeps every other line: a line survives exactly when it belongs to another product. */
  lemma {:induction false} RemoveKeepsOthers(items: seq<CartItem>, productId: string, x: CartItem)
    ensures x in RemoveItem(items, productId).items <==> x in items && x.productId != productId
    decreases |items|
  {
    if items != [] {
      RemoveKeepsOthers(items[1..], productId, x);
      assert items == [items[0]] + items[1..];
    }
  }

  /**
   * Removal is the order-keeping filter: it works line by line, so removing
   * from joined carts is joining the removals. With the single-line cases
   * below this pins the result down, order and repeats included.
   */
  lemma {:induction false} RemoveItemAppend(a: seq<CartItem>, b: seq<CartItem>, productId: string)
    ensures RemoveItem(a + b, productId).items == RemoveItem(a, productId).items + RemoveItem(b, productId).items
    decreases |a|
  {
    if a == [] {
      assert a + b == b;
    } else {
      assert (a + b)[0] == a[0];
      assert (a + b)[1..] == a[1..] + b;
      RemoveItemAppend(a[1..], b, productId);
    }
  }

  /** A single line is dropped exactly when it belongs to the product. */
  lemma RemoveItemSingle(x: CartItem, productId: string)
    ensures RemoveItem([x], productId).items == if x.productId == productId then [] else [x]
  {
    assert [x][1..] == [];
  }

  /** A cart without lines of the product comes back unchanged. */
  lemma {:induction false} RemoveAbsentIsIdentity(items: seq<CartItem>, productId: string)
    requires forall k :: 0 <= k < |items| ==> items[k].productId != productId
    ensures RemoveItem(items, productId).items == items
    decreases |items|
  {
    if items != [] {
      RemoveAbsentIsIdentity(items[1..], productId);
      assert [items[0]] + items[1..] == items;
    }
  }

  /** The amount one line contributes: a line without a product counts as price 0. */
  function LineAmount(item: CartItem): int {
    (if item.product.Some? then item.product.value.price else 0) * item.quantity
  }

  /** `total`: the sum of the line amounts. */
  function Total(items: seq<CartItem>): int
  {
    if items == [] then 0 else LineAmount(items[0]) + Total(items[1..])
  }

  /** The total of joined carts is the sum of their totals. */
  lemma {:induction false} TotalAppend(a: seq<CartItem>, b: seq<CartItem>)
    ensures Total(a + b) == Total(a) + Total(b)
    decreases |a|
  {
    if a == [] {
      assert a + b == b;
    } else {
      assert (a + b)[1..] == a[1..] + b;
      TotalAppend(a[1..], b);
    }
  }

  /** Removing a product lowers the total by exactly the amount of its lines. */
  lemma {:induction false} RemovePartitionsTotal(items: seq<CartItem>, productId: string)
    ensures Total(items) == Total(RemoveItem(items, productId).items) + Total(LinesOf(items, productId))
    decreases |items|
  {
    if items != [] {
      RemovePartitionsTotal(items[1..], productId);
      var rest := RemoveItem(items[1..], productId).items;
      if items[0].productId == productId {
        TotalAppend([items[0]], LinesOf(items[1..], productId));
        assert RemoveItem(items, productId).items == [] + rest;
        assert [] + rest == rest;
      } else {
        TotalAppend([items[0]], rest);
        assert LinesOf(items, productId) == [] + LinesOf(items[1..], productId);
        assert [] + LinesOf(items[1..], productId) == LinesOf(items[1..], productId);
      }
    }
  }

  /** With non-negative prices and positive quantities the total is never negative. */
  lemma {:induction false} TotalNonNegative(items: seq<CartItem>)
    requires PositiveQuantities(items)
    requires forall k :: 0 <= k < |items| ==> items[k].product.Some? ==> items[k].product.value.price >= 0
    ensures Total(items) >= 0
    decreases |items|
  {
    if items != [] {
      assert items[0].quantity >= 1;
      TotalNonNegative(items[1..]);
    }
  }
}
