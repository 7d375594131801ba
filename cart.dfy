/**
 * controllers/cartController.js: a member's cart, brought in line with the catalogue when it is
 * read, and the operations that add, remove and clear its entries.
 */
module Carts {
  import opened Common
  import opened Shop

  /** An entry the catalogue can honour: its product exists, is in stock, and has enough of it. */
  predicate Honoured(products: map<string, Product>, e: CartItem)
  {
    e.product in products && products[e.product].stock > 0 && e.quantity <= products[e.product].stock
  }

  /** What the pass makes of one entry: nothing, the entry cut down to the stock, or the entry. */
  function Fix(products: map<string, Product>, e: CartItem): (r: seq<CartItem>)
    ensures |r| <= 1
  {
    if e.product !in products || products[e.product].stock <= 0 then []
    else if e.quantity > products[e.product].stock then [e.(quantity := products[e.product].stock)]
    else [e]
  }

  /**
   * The entries of a cart after `getCart`'s pass: an entry whose product is gone or out of stock
   * is dropped, one asking for more than the stock is cut down to the stock, the rest stay, and
   * the order is kept.
   */
  function Normalised(products: map<string, Product>, items: seq<CartItem>): (r: seq<CartItem>)
    ensures |r| <= |items|
    ensures forall i :: 0 <= i < |r| ==> Honoured(products, r[i])
  {
    if items == [] then [] else Fix(products, items[0]) + Normalised(products, items[1..])
  }

  /**
   * r is what remains of items when entries are dropped and quantities lowered: an in-order
   * selection of items' entries, each with the same product and no larger quantity.
   */
  predicate Shrunk(r: seq<CartItem>, items: seq<CartItem>)
    decreases |items|
  {
    if r == [] then true
    else if items == [] then false
    else ((r[0].product == items[0].product && r[0].quantity <= items[0].quantity && Shrunk(r[1..], items[1..]))
      || Shrunk(r, items[1..]))
  }

  /** The pass drops and lowers only: it keeps the order and never raises a quantity. */
  lemma {:induction false} NormalisedShrinks(products: map<string, Product>, items: seq<CartItem>)
    ensures Shrunk(Normalised(products, items), items)
    decreases |items|
  {
    if items != [] {
      NormalisedShrinks(products, items[1..]);
      var r := Normalised(products, items);
      var rest := Normalised(products, items[1..]);
      if Fix(products, items[0]) == [] {
        assert r == rest;
      } else {
        assert r[0].product == items[0].product && r[0].quantity <= items[0].quantity && r[1..] == rest;
      }
    }
  }

  /** An in-order selection of a list with one entry per product has one entry per product. */
  lemma {:induction false} ShrunkOnePerProduct(r: seq<CartItem>, items: seq<CartItem>)
    requires Shrunk(r, items) && OnePerProduct(items)
    ensures OnePerProduct(r) && forall e :: e in r ==> e.product in ProductIds(items)
    decreases |items|
  {
    if r != [] {
      assert OnePerProduct(items[1..]);
      if r[0].product == items[0].product && r[0].quantity <= items[0].quantity && Shrunk(r[1..], items[1..]) {
        ShrunkOnePerProduct(r[1..], items[1..]);
        forall e | e in r[1..] ensures e.product != r[0].product {
          assert e.product in ProductIds(items[1..]);
          var j :| 0 <= j < |items[1..]| && ProductIds(items[1..])[j] == e.product;
          assert items[j + 1].product == e.product;
        }
        assert ProductIds(items)[0] == r[0].product;
        forall e | e in r ensures e.product in ProductIds(items) {
          if e != r[0] {
            assert e in r[1..];
            var j :| 0 <= j < |items[1..]| && ProductIds(items[1..])[j] == e.product;
            assert ProductIds(items)[j + 1] == e.product;
          }
        }
        forall i, j | 0 <= i < j < |r| ensures r[i].product != r[j].product {
          assert r[j] in r[1..];
          if i > 0 {
            assert r[i] == r[1..][i - 1] && r[j] == r[1..][j - 1];
          }
        }
      } else {
        ShrunkOnePerProduct(r, items[1..]);
        forall e | e in r ensures e.product in ProductIds(items) {
          var j :| 0 <= j < |items[1..]| && ProductIds(items[1..])[j] == e.product;
          assert ProductIds(items)[j + 1] == e.product;
        }
      }
    }
  }

  /** A cart with one entry per product still has one after the pass. */
  lemma NormalisedOnePerProduct(products: map<string, Product>, items: seq<CartItem>)
    requires OnePerProduct(items)
    ensures OnePerProduct(Normalised(products, items))
  {
    NormalisedShrinks(products, items);
    ShrunkOnePerProduct(Normalised(products, items), items);
  }

  /** The pass changes a cart exactly when one of its entries is not honoured. */
  lemma {:induction false} NormalisedUnchanged(products: map<string, Product>, items: seq<CartItem>)
    ensures Normalised(products, items) == items <==> forall i :: 0 <= i < |items| ==> Honoured(products, items[i])
  {
    if items != [] {
      NormalisedUnchanged(products, items[1..]);
      var r := Normalised(products, items);
      var e := items[0];
      if !Honoured(products, e) {
        if e.product !in products || products[e.product].stock <= 0 {
          assert |r| < |items|;
        } else {
          assert r[0] != e;
        }
      } else {
        assert r == [e] + Normalised(products, items[1..]);
        if forall i :: 0 <= i < |items| ==> Honoured(products, items[i]) {
          forall i | 0 <= i < |items[1..]| ensures Honoured(products, items[1..][i]) {
            assert items[1..][i] == items[i + 1];
          }
        } else {
          var i :| 0 <= i < |items| && !Honoured(products, items[i]);
          assert !Honoured(products, items[1..][i - 1]);
          assert Normalised(products, items[1..]) != items[1..];
          assert r[1..] == Normalised(products, items[1..]);
        }
      }
    }
  }

  /** Passing over a cart twice is passing over it once. */
  lemma NormalisedIdempotent(products: map<string, Product>, items: seq<CartItem>)
    ensures Normalised(products, Normalised(products, items)) == Normalised(products, items)
  {
    NormalisedUnchanged(products, Normalised(products, items));
  }

  /** The pass takes a cart's entries one by one, so it distributes over concatenation. */
  lemma {:induction false} NormalisedAppend(products: map<string, Product>, a: seq<CartItem>, b: seq<CartItem>)
    ensures Normalised(products, a + b) == Normalised(products, a) + Normalised(products, b)
  {
    if a != [] {
      assert (a + b)[0] == a[0] && (a + b)[1..] == a[1..] + b;
      NormalisedAppend(products, a[1..], b);
      assert Fix(products, a[0]) + (Normalised(products, a[1..]) + Normalised(products, b))
        == (Fix(products, a[0]) + Normalised(products, a[1..])) + Normalised(products, b);
    } else {
      assert a + b == b;
    }
  }

  /**
   * What `getCart` returns and writes: the entries after the pass, whether the pass changed
   * anything, and the store with the cart saved when it did. A member without a cart gets a new
   * empty one, which is not saved.
   */
  function CartRead(db: Store, user: string): (Store, seq<CartItem>, bool)
  {
    var items := if user in db.carts then db.carts[user] else [];
    var r := Normalised(db.products, items);
    var updated := r != items;
    (if updated then db.(carts := db.carts[user := r]) else db, r, updated)
  }

  /**
   * `getCart`: the loop over `cart.products` that splices out the entries it cannot honour
   * (stepping `i` back) and cuts the rest down to the stock, then the save when anything changed.
   */
  method GetCart(db: Store, user: string) returns (db': Store, cart: seq<CartItem>, updated: bool)
    ensures (db', cart, updated) == CartRead(db, user)
  {
    var stored := if user in db.carts then db.carts[user] else [];
    cart, updated := Pass(db.products, stored);
    if updated {
      db' := db.(carts := db.carts[user := cart]);
    } else {
      db' := db;
    }
  }

  /** The loop of `getCart` over the stored entries: the same entries as the pass, and whether it changed any. */
  method Pass(products: map<string, Product>, stored: seq<CartItem>) returns (cart: seq<CartItem>, updated: bool)
    ensures cart == Normalised(products, stored) && (updated <==> cart != stored)
  {
    cart := stored;
    updated := false;
    var i := 0;
    ghost var j := 0;
    ghost var done := [];
    while i < |cart|
      invariant 0 <= j <= |stored| && done == Normalised(products, stored[..j])
      invariant i == |done| && cart == done + stored[j..]
      invariant updated <==> done != stored[..j]
      decreases |cart| - i
    {
      var cartItem := cart[i];
      ghost var made := Fix(products, cartItem);
      PassStep(products, stored, j, done, cart);
      if cartItem.product !in products || products[cartItem.product].stock <= 0 {
        cart := cart[..i] + cart[i + 1..];
        updated := true;
      } else if cartItem.quantity > products[cartItem.product].stock {
        cart := cart[i := cartItem.(quantity := products[cartItem.product].stock)];
        updated := true;
        i := i + 1;
      } else {
        i := i + 1;
      }
      done := done + made;
      j := j + 1;
    }
    assert stored[..j] == stored;
  }

  /**
   * One pass of the loop, the entry at the head of the unvisited part being stored[j]: what
   * each branch makes of the cart is the pass over one more entry followed by the rest.
   */
  lemma PassStep(products: map<string, Product>, stored: seq<CartItem>, j: nat, done: seq<CartItem>, cart: seq<CartItem>)
    requires j < |stored| && done == Normalised(products, stored[..j]) && cart == done + stored[j..]
    ensures var e, made, rest := stored[j], Fix(products, stored[j]), stored[j + 1..];
      |done| < |cart| && cart[|done|] == e &&
      Normalised(products, stored[..j + 1]) == done + made &&
      (done + made == stored[..j + 1] <==> done == stored[..j] && made == [e]) &&
      (made == [] ==> cart[..|done|] + cart[|done| + 1..] == (done + made) + rest) &&
      (|made| == 1 ==> cart[|done| := made[0]] == (done + made) + rest) &&
      (made == [e] ==> cart == (done + made) + rest)
  {
    var e, made, rest := stored[j], Fix(products, stored[j]), stored[j + 1..];
    SliceCons(stored, j);
    NormalisedSnoc(products, stored, j);
    SameIffParts(done, stored[..j], made, [e]);
    Dropped(done, e, rest);
    if |made| == 1 {
      Replaced(done, e, rest, made[0]);
    }
    assert done + ([e] + rest) == (done + [e]) + rest;
  }

  /** The pass over one more entry adds what it makes of that entry. */
  lemma NormalisedSnoc(products: map<string, Product>, s: seq<CartItem>, j: nat)
    requires j < |s|
    ensures Normalised(products, s[..j + 1]) == Normalised(products, s[..j]) + Fix(products, s[j])
  {
    assert s[..j + 1] == s[..j] + [s[j]];
    NormalisedAppend(products, s[..j], [s[j]]);
    assert [s[j]][1..] == [];
  }

  /** A shorter-or-equal prefix and an at-most-one tail match a prefix and one entry only part by part. */
  lemma SameIffParts<T>(a: seq<T>, b: seq<T>, x: seq<T>, y: seq<T>)
    requires |a| <= |b| && |x| <= 1 && |y| == 1
    ensures a + x == b + y <==> a == b && x == y
  {
    if a + x == b + y {
      assert a == (a + x)[..|a|] && b == (b + y)[..|b|];
      assert x == (a + x)[|a|..] && y == (b + y)[|b|..];
    }
  }

  lemma SliceCons<T>(s: seq<T>, j: nat)
    requires j < |s|
    ensures s[j..] == [s[j]] + s[j + 1..] && s[..j + 1] == s[..j] + [s[j]]
  {
  }

  /** Splicing out the entry after a prefix. */
  lemma Dropped<T>(done: seq<T>, e: T, rest: seq<T>)
    ensures var c := done + ([e] + rest); c[..|done|] + c[|done| + 1..] == done + rest
  {
    var c := done + ([e] + rest);
    assert c[..|done|] == done;
    assert c[|done| + 1..] == rest;
  }

  /** Replacing the entry after a prefix. */
  lemma Replaced<T>(done: seq<T>, e: T, rest: seq<T>, x: T)
    ensures (done + ([e] + rest))[|done| := x] == (done + [x]) + rest
  {
    var l := (done + ([e] + rest))[|done| := x];
    var r := (done + [x]) + rest;
    assert |l| == |r|;
    forall k | 0 <= k < |l| ensures l[k] == r[k] {
      if k > |done| {
        assert l[k] == rest[k - |done| - 1] == r[k];
      }
    }
  }

  /** `cart.products.find(p => p.product.equals(productId))`: the index of the first entry for p. */
  function FirstEntry(items: seq<CartItem>, p: string): (r: Option<nat>)
    ensures r.Some? ==> (r.value < |items| && items[r.value].product == p &&
      forall i :: 0 <= i < r.value ==> items[i].product != p)
    ensures r.None? ==> forall i :: 0 <= i < |items| ==> items[i].product != p
  {
    if items == [] then None
    else if items[0].product == p then Some(0)
    else match FirstEntry(items[1..], p)
      case None => None
      case Some(i) => Some(i + 1)
  }

  /** The entries with p's entry set to quantity, or a new entry for p pushed at the end. */
  function WithQuantity(items: seq<CartItem>, p: string, quantity: int): seq<CartItem>
  {
    match FirstEntry(items, p)
    case Some(i) => items[i := items[i].(quantity := quantity)]
    case None => items + [CartItem(p, quantity)]
  }

  /**
   * `addProductToCart`: 400 and nothing written when the product is missing or has less stock
   * than asked; otherwise the member's cart (a new one if it had none) holds quantity of the
   * product and is saved, 200.
   */
  function AddToCart(db: Store, user: string, productId: string, quantity: int): (Store, int)
  {
    if productId !in db.products || db.products[productId].stock < quantity then (db, 400)
    else
      var items := if user in db.carts then db.carts[user] else [];
      (db.(carts := db.carts[user := WithQuantity(items, productId, quantity)]), 200)
  }

  /**
   * `removeProductFromCart`: 404 without a cart; otherwise every entry for the product goes and
   * the cart is saved, 200.
   */
  function RemoveFromCart(db: Store, user: string, productId: string): (Store, int)
  {
    if user !in db.carts then (db, 404)
    else (db.(carts := db.carts[user := Others(db.carts[user], productId)]), 200)
  }

  /**
   * A removal answers 404 exactly without a cart and then writes nothing; otherwise exactly the
   * entries for other products remain, one per product when there was one per product, and
   * nothing else is written.
   */
  lemma RemoveOutcome(db: Store, user: string, productId: string)
    ensures var (db', status) := RemoveFromCart(db, user, productId);
      (status == 404 <==> user !in db.carts) && (status == 404 ==> db' == db) &&
      (status == 200 ==> (
        user in db'.carts && db' == db.(carts := db'.carts) && db'.carts.Keys == db.carts.Keys &&
        (forall u :: u in db.carts && u != user ==> db'.carts[u] == db.carts[u]) &&
        (forall e :: e in db'.carts[user] <==> e in db.carts[user] && e.product != productId) &&
        (OnePerProduct(db.carts[user]) ==> OnePerProduct(db'.carts[user]))))
  {
  }

  /** `clearCart`: 404 without a cart; otherwise the cart is saved with no entries, 200. */
  function ClearCart(db: Store, user: string): (r: (Store, int))
    ensures r.1 == 404 <==> user !in db.carts
    ensures r.1 == 404 ==> r.0 == db
    ensures r.1 == 200 ==> user in r.0.carts && r.0.carts[user] == [] && r.0.carts.Keys == db.carts.Keys
  {
    if user !in db.carts then (db, 404)
    else (db.(carts := db.carts[user := []]), 200)
  }

  // ---------------------------------------------------------------------------------------------
  // What the operations promise

  /**
   * An add succeeds exactly when the product exists with at least quantity in stock. Then the
   * cart's first entry for the product asks for quantity, the entries for other products are
   * those before, in order, nothing else is written, and one entry per product is kept.
   */
  lemma {:induction false} AddSetsQuantity(db: Store, user: string, productId: string, quantity: int)
    ensures var (db', status) := AddToCart(db, user, productId, quantity);
      (status == 200 <==> productId in db.products && db.products[productId].stock >= quantity) &&
      (status == 400 ==> db' == db) &&
      (status == 200 ==>
        var items := if user in db.carts then db.carts[user] else [];
        user in db'.carts && db' == db.(carts := db'.carts) && db'.carts.Keys == db.carts.Keys + {user} &&
        (forall u :: u in db.carts && u != user ==> db'.carts[u] == db.carts[u]) &&
        FirstEntry(db'.carts[user], productId).Some? &&
        db'.carts[user][FirstEntry(db'.carts[user], productId).value].quantity == quantity &&
        Others(db'.carts[user], productId) == Others(items, productId) &&
        (OnePerProduct(items) ==> OnePerProduct(db'.carts[user])))
  {
    var (db', status) := AddToCart(db, user, productId, quantity);
    if status == 200 {
      var items := if user in db.carts then db.carts[user] else [];
      WithQuantityEntry(items, productId, quantity);
    }
  }

  lemma WithQuantityEntry(items: seq<CartItem>, p: string, quantity: int)
    ensures var r := WithQuantity(items, p, quantity);
      FirstEntry(r, p).Some? && r[FirstEntry(r, p).value].quantity == quantity &&
      Others(r, p) == Others(items, p) && (OnePerProduct(items) ==> OnePerProduct(r))
  {
    match FirstEntry(items, p)
    case Some(i) => QuantityReplaced(items, p, i, quantity);
    case None => QuantityPushed(items, p, quantity);
  }

  lemma QuantityReplaced(items: seq<CartItem>, p: string, i: nat, quantity: int)
    requires FirstEntry(items, p) == Some(i)
    ensures var r := items[i := items[i].(quantity := quantity)];
      FirstEntry(r, p) == Some(i) && r[i].quantity == quantity &&
      Others(r, p) == Others(items, p) && (OnePerProduct(items) ==> OnePerProduct(r))
  {
    var r := items[i := items[i].(quantity := quantity)];
    OthersUpdate(items, p, i, items[i].(quantity := quantity));
    assert forall k :: 0 <= k < |r| ==> r[k].product == items[k].product;
    FirstEntryAt(r, p, i);
    if OnePerProduct(items) {
      forall a, b | 0 <= a < b < |r| ensures r[a].product != r[b].product {
        assert r[a].product == items[a].product && r[b].product == items[b].product;
      }
    }
  }

  lemma QuantityPushed(items: seq<CartItem>, p: string, quantity: int)
    requires FirstEntry(items, p) == None
    ensures var r := items + [CartItem(p, quantity)];
      FirstEntry(r, p) == Some(|items|) && r[|items|].quantity == quantity &&
      Others(r, p) == Others(items, p) && (OnePerProduct(items) ==> OnePerProduct(r))
  {
    var r := items + [CartItem(p, quantity)];
    OthersAppend(items, [CartItem(p, quantity)], p);
    assert Others([CartItem(p, quantity)], p) == [] by {
      assert [CartItem(p, quantity)][1..] == [];
    }
    FirstEntryAt(r, p, |items|);
    assert Others(items, p) + [] == Others(items, p);
    if OnePerProduct(items) {
      forall i, j | 0 <= i < j < |r| ensures r[i].product != r[j].product {
        assert r[i] == items[i];
        if j < |items| {
          assert r[j] == items[j];
        } else {
          assert r[j] == CartItem(p, quantity) && items[i].product != p;
        }
      }
    }
  }

  /** The first entry for p is at i when i holds one and no entry before it does. */
  lemma {:induction false} FirstEntryAt(items: seq<CartItem>, p: string, i: nat)
    requires i < |items| && items[i].product == p && forall k :: 0 <= k < i ==> items[k].product != p
    ensures FirstEntry(items, p) == Some(i)
  {
    if i > 0 {
      FirstEntryAt(items[1..], p, i - 1);
    }
  }

  /** Writing an entry for p over an entry for p does not change the entries for other products. */
  lemma {:induction false} OthersUpdate(items: seq<CartItem>, p: string, i: nat, e: CartItem)
    requires i < |items| && items[i].product == p && e.product == p
    ensures Others(items[i := e], p) == Others(items, p)
  {
    assert items[i := e][1..] == if i == 0 then items[1..] else items[1..][i - 1 := e];
    if i > 0 {
      OthersUpdate(items[1..], p, i - 1, e);
    }
  }

  lemma {:induction false} OthersAppend(a: seq<CartItem>, b: seq<CartItem>, p: string)
    ensures Others(a + b, p) == Others(a, p) + Others(b, p)
  {
    if a == [] {
      assert a + b == b;
    } else {
      assert (a + b)[0] == a[0] && (a + b)[1..] == a[1..] + b;
      OthersAppend(a[1..], b, p);
    }
  }

  /**
   * Adding then removing a product leaves the cart as removing it alone would: the add touches
   * no other product's entry.
   */
  lemma RemoveAfterAdd(db: Store, user: string, productId: string, quantity: int)
    requires user in db.carts && productId in db.products && db.products[productId].stock >= quantity
    ensures RemoveFromCart(AddToCart(db, user, productId, quantity).0, user, productId) == RemoveFromCart(db, user, productId)
  {
    var r := WithQuantity(db.carts[user], productId, quantity);
    WithQuantityOthers(db.carts[user], productId, quantity);
    assert AddToCart(db, user, productId, quantity).0 == db.(carts := db.carts[user := r]);
    RemoveIgnoresProduct(db, user, productId, r);
  }

  /** Removing p from a cart gives the same store whatever the cart held for p before. */
  lemma RemoveIgnoresProduct(db: Store, user: string, p: string, r: seq<CartItem>)
    requires user in db.carts && Others(r, p) == Others(db.carts[user], p)
    ensures RemoveFromCart(db.(carts := db.carts[user := r]), user, p) == RemoveFromCart(db, user, p)
  {
    Overwritten(db.carts, user, r, Others(r, p));
  }

  lemma Overwritten<K, V>(m: map<K, V>, k: K, a: V, b: V)
    ensures m[k := a][k := b] == m[k := b]
  {
  }

  /** Setting p's quantity leaves the entries for other products as they were. */
  lemma WithQuantityOthers(items: seq<CartItem>, p: string, quantity: int)
    ensures Others(WithQuantity(items, p, quantity), p) == Others(items, p)
  {
    match FirstEntry(items, p)
    case Some(i) => OthersUpdate(items, p, i, items[i].(quantity := quantity));
    case None =>
      OthersAppend(items, [CartItem(p, quantity)], p);
      assert Others([CartItem(p, quantity)], p) == [] by {
        assert [CartItem(p, quantity)][1..] == [];
      }
      assert Others(items, p) + [] == Others(items, p);
  }
}
