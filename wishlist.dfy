/**
 * controllers/wishlistController.js: a member's wishlist of product ids, kept free of
 * duplicates when adding and pruned of vanished products when read.
 */
module Wishlists {
  import opened Common
  import opened Shop

  /**
   * `addProductToWishlist`: 404 and nothing written when the product does not exist; otherwise
   * the member's wishlist (a new one if it had none) gets the id pushed unless it already holds
   * it, and is saved, 200.
   */
  function AddToWishlist(db: Store, user: string, productId: string): (r: (Store, int))
    ensures r.1 == 404 <==> productId !in db.products
    ensures r.1 == 404 ==> r.0 == db
    ensures r.1 == 200 ==> (
      var before := if user in db.wishlists then db.wishlists[user] else [];
      r.0 == db.(wishlists := r.0.wishlists) && r.0.wishlists.Keys == db.wishlists.Keys + {user} &&
      (forall u :: u in db.wishlists && u != user ==> r.0.wishlists[u] == db.wishlists[u]) &&
      (forall q :: q in r.0.wishlists[user] <==> q in before || q == productId) &&
      (productId in before ==> r.0.wishlists[user] == before) &&
      (NoDuplicates(before) ==> NoDuplicates(r.0.wishlists[user])))
  {
    if productId !in db.products then (db, 404)
    else
      var ids := if user in db.wishlists then db.wishlists[user] else [];
      var ids' := if productId in ids then ids else ids + [productId];
      assert NoDuplicates(ids) ==> NoDuplicates(ids') by {
        if NoDuplicates(ids) && productId !in ids {
          AppendFresh(ids, productId);
        }
      }
      (db.(wishlists := db.wishlists[user := ids']), 200)
  }

  lemma AppendFresh(ids: seq<string>, x: string)
    requires NoDuplicates(ids) && x !in ids
    ensures NoDuplicates(ids + [x])
  {
    var s := ids + [x];
    forall i, j | 0 <= i < j < |s| ensures s[i] != s[j] {
      if j == |ids| {
        assert s[i] in ids;
      }
    }
  }

  /** Adding a product that is already on the wishlist writes the same wishlist again. */
  lemma AddIdempotent(db: Store, user: string, productId: string)
    ensures var once := AddToWishlist(db, user, productId).0;
      AddToWishlist(once, user, productId) == (once, AddToWishlist(db, user, productId).1)
  {
    var once := AddToWishlist(db, user, productId).0;
    if productId in db.products {
      assert once.wishlists[user := once.wishlists[user]] == once.wishlists;
    }
  }

  /** What `populate` leaves of a list of product ids: the ids of products that still exist, in order. */
  function Available(products: map<string, Product>, ids: seq<string>): (r: seq<string>)
    ensures forall q :: q in r <==> q in ids && q in products
    ensures |r| <= |ids| && (|r| == |ids| <==> forall i :: 0 <= i < |ids| ==> ids[i] in products)
    ensures NoDuplicates(ids) ==> NoDuplicates(r)
  {
    if ids == [] then []
    else
      var rest := Available(products, ids[1..]);
      assert (forall i :: 0 <= i < |ids| ==> ids[i] in products) <==>
        ids[0] in products && forall i :: 0 <= i < |ids[1..]| ==> ids[1..][i] in products by {
        if ids[0] in products && forall i :: 0 <= i < |ids[1..]| ==> ids[1..][i] in products {
          forall i | 0 < i < |ids| ensures ids[i] in products {
            assert ids[i] == ids[1..][i - 1];
          }
        }
      }
      if ids[0] in products then
        assert NoDuplicates(ids) ==> NoDuplicates(ids[1..]);
        [ids[0]] + rest
      else rest
  }

  /** The pruning keeps the order: what remains is an in-order selection of the stored ids. */
  predicate Selection(r: seq<string>, ids: seq<string>)
    decreases |ids|
  {
    if r == [] then true
    else if ids == [] then false
    else ((r[0] == ids[0] && Selection(r[1..], ids[1..])) || Selection(r, ids[1..]))
  }

  lemma {:induction false} AvailableInOrder(products: map<string, Product>, ids: seq<string>)
    ensures Selection(Available(products, ids), ids)
    decreases |ids|
  {
    if ids != [] {
      AvailableInOrder(products, ids[1..]);
      var r := Available(products, ids);
      if ids[0] in products {
        assert r[0] == ids[0] && r[1..] == Available(products, ids[1..]);
      }
    }
  }

  /**
   * `getUserWishlist`: 404 without a wishlist; otherwise `populate('products')` gives the
   * products the ids still name, in the stored order, for Mongoose leaves out of a populated
   * array every id that names no document. The filter for null then keeps all of them, the two
   * lengths agree and the save never runs: the answer is the existing products, 200, and the
   * stored ids stay as they were, those of deleted products included.
   */
  function GetWishlist(db: Store, user: string): (r: (Store, seq<string>, int))
    ensures r.2 == 404 <==> user !in db.wishlists
    ensures r.0 == db
    ensures r.2 == 200 ==> forall q :: q in r.1 <==> q in db.wishlists[user] && q in db.products
    ensures r.2 == 200 ==> Selection(r.1, db.wishlists[user])
    ensures r.2 == 200 ==>
      (|r.1| == |db.wishlists[user]| <==> forall i :: 0 <= i < |db.wishlists[user]| ==> db.wishlists[user][i] in db.products)
  {
    if user !in db.wishlists then (db, [], 404)
    else
      var populated := Available(db.products, db.wishlists[user]);
      AvailableInOrder(db.products, db.wishlists[user]);
      var availableProducts := populated;
      (db, availableProducts, 200)
  }

  lemma {:induction false} AvailableAll(products: map<string, Product>, ids: seq<string>)
    requires forall i :: 0 <= i < |ids| ==> ids[i] in products
    ensures Available(products, ids) == ids
  {
    if ids != [] {
      AvailableAll(products, ids[1..]);
    }
  }

  /** A read writes nothing, so a second read answers as the first. */
  lemma GetTwice(db: Store, user: string)
    ensures var once := GetWishlist(db, user);
      GetWishlist(once.0, user) == once
  {
  }

  /**
   * `removeProductFromWishlist`: 404 without a wishlist; otherwise every occurrence of the id
   * goes, the rest stay, and the wishlist is saved, 200.
   */
  function RemoveFromWishlist(db: Store, user: string, productId: string): (r: (Store, int))
    ensures r.1 == 404 <==> user !in db.wishlists
    ensures r.1 == 404 ==> r.0 == db
    ensures r.1 == 200 ==> (
      user in r.0.wishlists && r.0 == db.(wishlists := r.0.wishlists) &&
      r.0.wishlists.Keys == db.wishlists.Keys &&
      forall q :: q in r.0.wishlists[user] <==> q in db.wishlists[user] && q != productId)
  {
    if user !in db.wishlists then (db, 404)
    else (db.(wishlists := db.wishlists[user := Without(db.wishlists[user], productId)]), 200)
  }

  /** `clearWishlist`: 404 without a wishlist; otherwise the wishlist is saved empty, 200. */
  function ClearWishlist(db: Store, user: string): (r: (Store, int))
    ensures r.1 == 404 <==> user !in db.wishlists
    ensures r.1 == 404 ==> r.0 == db
    ensures r.1 == 200 ==> user in r.0.wishlists && r.0.wishlists[user] == [] && r.0.wishlists.Keys == db.wishlists.Keys
  {
    if user !in db.wishlists then (db, 404)
    else (db.(wishlists := db.wishlists[user := []]), 200)
  }

  /** Removing a product right after adding it leaves no trace of it on the wishlist. */
  lemma RemoveAfterAdd(db: Store, user: string, productId: string)
    requires productId in db.products
    ensures var added := AddToWishlist(db, user, productId).0;
      var (removed, status) := RemoveFromWishlist(added, user, productId);
      status == 200 && productId !in removed.wishlists[user] &&
      forall q :: q in removed.wishlists[user] <==> q != productId && user in db.wishlists && q in db.wishlists[user]
  {
  }
}
