/**
 * controllers/orderController.js: turning a member's cart into an order (the total, the stock
 * checks, the stock taken, the cart emptied) and the two status changes of an order.
 */
module Orders {
  import opened Common
  import opened Shop

  /**
   * `parseInt` of a price (a finite number written without an exponent): its integer part,
   * truncated toward zero.
   */
  function ParseInt(x: real): (r: int)
    ensures 0.0 <= x ==> r as real <= x < r as real + 1.0
    ensures x < 0.0 ==> r as real - 1.0 < x <= r as real
  {
    if x >= 0.0 then Floor(x) else -Floor(-x)
  }

  /** A cart entry the catalogue can serve: its product exists with at least the quantity in stock. */
  predicate Servable(products: map<string, Product>, e: CartItem)
  {
    e.product in products && products[e.product].stock >= e.quantity
  }

  /**
   * How the first loop of `createOrder` ends on the entries: at the first entry it cannot serve,
   * 500 when the product is gone (the error message reads `product.name` of null, which throws
   * and reaches the error handler) or 400 when its stock is short; None when it serves them all.
   */
  function Refusal(products: map<string, Product>, items: seq<CartItem>): (r: Option<int>)
    ensures r.None? <==> forall i :: 0 <= i < |items| ==> Servable(products, items[i])
    ensures r.Some? ==> r.value == 400 || r.value == 500
  {
    if items == [] then None
    else if items[0].product !in products then Some(500)
    else if products[items[0].product].stock < items[0].quantity then Some(400)
    else
      var rest := Refusal(products, items[1..]);
      assert (forall i :: 0 <= i < |items[1..]| ==> Servable(products, items[1..][i])) <==>
        (forall i :: 1 <= i < |items| ==> Servable(products, items[i])) by {
        forall i | 1 <= i < |items| ensures items[1..][i - 1] == items[i] { }
      }
      rest
  }

  lemma {:induction false} RefusalAppend(products: map<string, Product>, a: seq<CartItem>, b: seq<CartItem>)
    ensures Refusal(products, a + b) == if Refusal(products, a).Some? then Refusal(products, a) else Refusal(products, b)
  {
    if a == [] {
      assert a + b == b;
    } else {
      assert (a + b)[0] == a[0] && (a + b)[1..] == a[1..] + b;
      RefusalAppend(products, a[1..], b);
    }
  }

  /** `parseInt(product.price) * parseInt(cartItem.quantity)` summed over the entries, in order. */
  function Total(products: map<string, Product>, items: seq<CartItem>): int
    requires forall i :: 0 <= i < |items| ==> items[i].product in products
  {
    if items == [] then 0
    else
      var last := items[|items| - 1];
      Total(products, items[..|items| - 1]) + ParseInt(products[last.product].price) * last.quantity
  }

  /** The stock after the second loop: each entry's quantity taken from its product's stock, in order. */
  function Decremented(products: map<string, Product>, items: seq<CartItem>): (r: map<string, Product>)
    requires forall i :: 0 <= i < |items| ==> items[i].product in products
    ensures r.Keys == products.Keys
  {
    if items == [] then products
    else
      var p := items[0].product;
      var taken := products[p := products[p].(stock := products[p].stock - items[0].quantity)];
      assert forall i :: 0 <= i < |items[1..]| ==> items[1..][i].product in taken by {
        forall i | 0 <= i < |items[1..]| ensures items[1..][i].product in taken {
          assert items[1..][i] == items[i + 1];
        }
      }
      Decremented(taken, items[1..])
  }

  /** The quantities the entries ask of product p, summed. */
  function Asked(items: seq<CartItem>, p: string): int
  {
    if items == [] then 0 else (if items[0].product == p then items[0].quantity else 0) + Asked(items[1..], p)
  }

  /**
   * What `createOrder` writes and answers: 400 for a missing or empty cart; the refusal of the
   * first entry that cannot be served; otherwise an order of the cart's entries with their
   * total, status Pending, appended to the orders, every product's stock lowered by what the
   * entries ask of it, and the cart emptied, 200. A refused request writes nothing.
   */
  function Ordered(db: Store, user: string): (Store, int)
  {
    if user !in db.carts || db.carts[user] == [] then (db, 400)
    else
      var items := db.carts[user];
      match Refusal(db.products, items)
      case Some(status) => (db, status)
      case None =>
        var order := Order(user, items, Total(db.products, items), Pending);
        (db.(orders := db.orders + [order], products := Decremented(db.products, items), carts := db.carts[user := []]), 200)
  }

  /**
   * `createOrder` as written: the order it builds has no `totalPoints`, a required path of the
   * order schema, so `order.save` fails validation before any write. The catch aborts the
   * transaction and the error handler answers 500, the status being still unset. The answers
   * before that save are those of `Ordered`.
   */
  function OrderedAsWritten(db: Store, user: string): (r: (Store, int))
    ensures r.0 == db && (r.1 == 400 || r.1 == 500)
    ensures r.1 == 500 <==> (user in db.carts && db.carts[user] != [] &&
      (Refusal(db.products, db.carts[user]).None? || Refusal(db.products, db.carts[user]) == Some(500)))
  {
    if user !in db.carts || db.carts[user] == [] then (db, 400)
    else
      match Refusal(db.products, db.carts[user])
      case Some(status) => (db, status)
      case None => (db, 500)
  }

  /**
   * The code as written never places an order: where the intended code places one, writing the
   * order, the stock and the cart, it answers 500 and writes nothing; everywhere else the two
   * agree.
   */
  lemma OrderLost(db: Store, user: string)
    ensures Ordered(db, user).1 == 200 ==>
      OrderedAsWritten(db, user) == (db, 500) && |Ordered(db, user).0.orders| == |db.orders| + 1
    ensures Ordered(db, user).1 != 200 ==> OrderedAsWritten(db, user) == Ordered(db, user)
  {
  }

  // ---------------------------------------------------------------------------------------------
  // What an order does to the stock

  /** Every product's stock drops by exactly what the entries ask of it; nothing else of it changes. */
  lemma {:induction false} StockTaken(products: map<string, Product>, items: seq<CartItem>, p: string)
    requires forall i :: 0 <= i < |items| ==> items[i].product in products
    requires p in products
    ensures Decremented(products, items)[p] == products[p].(stock := products[p].stock - Asked(items, p))
  {
    if items != [] {
      var q := items[0].product;
      var taken := products[q := products[q].(stock := products[q].stock - items[0].quantity)];
      forall i | 0 <= i < |items[1..]| ensures items[1..][i].product in taken {
        assert items[1..][i] == items[i + 1];
      }
      StockTaken(taken, items[1..], p);
    }
  }

  /** With one entry per product, the entry for p asks for its quantity and the others for nothing. */
  lemma {:induction false} AskedOnce(items: seq<CartItem>, k: nat)
    requires OnePerProduct(items) && k < |items|
    ensures Asked(items, items[k].product) == items[k].quantity
  {
    var p := items[k].product;
    assert OnePerProduct(items[1..]);
    if k == 0 {
      AskedNone(items[1..], p);
    } else {
      assert items[1..][k - 1] == items[k];
      AskedOnce(items[1..], k - 1);
    }
  }

  lemma {:induction false} AskedNone(items: seq<CartItem>, p: string)
    requires forall i :: 0 <= i < |items| ==> items[i].product != p
    ensures Asked(items, p) == 0
  {
    if items != [] {
      assert forall i :: 0 <= i < |items[1..]| ==> items[1..][i] == items[i + 1];
      AskedNone(items[1..], p);
    }
  }

  /**
   * An order from a cart with one entry per product takes from each product in it exactly its
   * quantity and never takes a stock below zero; products not in the cart keep their stock.
   */
  lemma StockNeverNegative(db: Store, user: string)
    requires user in db.carts && OnePerProduct(db.carts[user]) && Ordered(db, user).1 == 200
    ensures var items := db.carts[user]; var after := Ordered(db, user).0.products;
      after.Keys == db.products.Keys &&
      (forall i :: 0 <= i < |items| ==>
        after[items[i].product].stock == db.products[items[i].product].stock - items[i].quantity >= 0) &&
      (forall p :: p in db.products && p !in ProductIds(items) ==> after[p] == db.products[p])
  {
    var items := db.carts[user];
    var after := Ordered(db, user).0.products;
    assert Refusal(db.products, items).None?;
    forall i | 0 <= i < |items|
      ensures after[items[i].product].stock == db.products[items[i].product].stock - items[i].quantity >= 0
    {
      StockTaken(db.products, items, items[i].product);
      AskedOnce(items, i);
      assert Servable(db.products, items[i]);
    }
    forall p | p in db.products && p !in ProductIds(items) ensures after[p] == db.products[p] {
      forall i | 0 <= i < |items| ensures items[i].product != p {
        assert ProductIds(items)[i] == items[i].product;
      }
      AskedNone(items, p);
      StockTaken(db.products, items, p);
    }
  }

  /**
   * An order is placed exactly when the cart has entries and every one of them can be served;
   * then the cart is empty and the new order is last, Pending, with the cart's entries and
   * their total.
   */
  lemma OrderPlacement(db: Store, user: string)
    ensures var (db', status) := Ordered(db, user);
      (status == 200 <==> (user in db.carts && db.carts[user] != [] &&
        forall i :: 0 <= i < |db.carts[user]| ==> Servable(db.products, db.carts[user][i]))) &&
      (status != 200 ==> db' == db && (status == 400 || status == 500)) &&
      (status == 200 ==> (db'.carts == db.carts[user := []] && db'.wishlists == db.wishlists &&
        |db'.orders| == |db.orders| + 1 && db'.orders[..|db.orders|] == db.orders &&
        db'.orders[|db.orders|] == Order(user, db.carts[user], Total(db.products, db.carts[user]), Pending)))
  {
    var (db', status) := Ordered(db, user);
    if status == 200 {
      assert db'.orders[..|db.orders|] == db.orders;
    }
  }

  // ---------------------------------------------------------------------------------------------
  // createOrder as the source runs it

  /**
   * `createOrder`: the cart check, the loop that checks each entry and adds up the total, the
   * new order, the loop that takes each entry's quantity from its product, and the cleared cart.
   * The whole runs in a transaction; a refusal aborts it before anything is written.
   */
  method CreateOrder(db: Store, user: string) returns (db': Store, status: int)
    ensures (db', status) == Ordered(db, user)
  {
    if user !in db.carts || |db.carts[user]| == 0 {
      return db, 400;
    }
    var cart := db.carts[user];
    var totalAmount := 0;
    for i := 0 to |cart|
      invariant Refusal(db.products, cart[..i]).None?
      invariant totalAmount == Total(db.products, cart[..i])
    {
      var cartItem := cart[i];
      assert cart[..i + 1] == cart[..i] + [cartItem] && cart[..i + 1][..i] == cart[..i];
      RefusalAppend(db.products, cart[..i], cart[i..]);
      assert cart[..i] + cart[i..] == cart;
      assert cart[i..][0] == cartItem;
      if cartItem.product !in db.products {
        return db, 500;
      }
      if db.products[cartItem.product].stock < cartItem.quantity {
        return db, 400;
      }
      RefusalAppend(db.products, cart[..i], [cartItem]);
      assert [cartItem][1..] == [];
      totalAmount := totalAmount + ParseInt(db.products[cartItem.product].price) * cartItem.quantity;
    }
    assert cart[..|cart|] == cart;
    var order := Order(user, cart, totalAmount, Pending);
    var products := TakeStock(db.products, cart);
    db' := db.(orders := db.orders + [order], products := products, carts := db.carts[user := []]);
    status := 200;
  }

  /** The second loop of `createOrder`: each entry's product re-read and its stock lowered and saved. */
  method TakeStock(products: map<string, Product>, cart: seq<CartItem>) returns (products': map<string, Product>)
    requires forall i :: 0 <= i < |cart| ==> cart[i].product in products
    ensures products' == Decremented(products, cart)
  {
    products' := products;
    assert cart[0..] == cart;
    for i := 0 to |cart|
      invariant products'.Keys == products.Keys
      invariant Decremented(products', cart[i..]) == Decremented(products, cart)
    {
      var cartItem := cart[i];
      assert cart[i..][0] == cartItem && cart[i..][1..] == cart[i + 1..];
      var product := products'[cartItem.product];
      products' := products'[cartItem.product := product.(stock := product.stock - cartItem.quantity)];
    }
    assert cart[|cart|..] == [];
  }

  // ---------------------------------------------------------------------------------------------
  // Status changes

  /** The spelling of each status in the `validStatuses` list and the schema's enum. */
  function StatusName(s: OrderStatus): string
  {
    match s
    case Pending => "Pending"
    case Shipped => "Shipped"
    case Delivered => "Delivered"
    case Cancelled => "Cancelled"
  }

  /** `validStatuses.includes(status)`, with the status it names. */
  function ParseStatus(s: string): (r: Option<OrderStatus>)
    ensures r.Some? ==> StatusName(r.value) == s
    ensures forall st :: StatusName(st) == s ==> r == Some(st)
  {
    if s == "Pending" then Some(Pending)
    else if s == "Shipped" then Some(Shipped)
    else if s == "Delivered" then Some(Delivered)
    else if s == "Cancelled" then Some(Cancelled)
    else None
  }

  /** The caller may change the order: it placed the order, or it is an admin. */
  predicate MayChange(order: Order, requester: string, isAdmin: bool)
  {
    order.user == requester || isAdmin
  }

  /**
   * `updateOrderStatus`: 400 for a status outside the four, then 404 for an unknown order, then
   * 403 for a caller who neither placed it nor is an admin; otherwise the order takes the status
   * and is saved, 200. Any status may follow any other.
   */
  function UpdateStatus(db: Store, orderId: int, status: string, requester: string, isAdmin: bool): (r: (Store, int))
    ensures r.1 != 200 ==> r.0 == db
    ensures r.1 == 400 <==> ParseStatus(status).None?
    ensures r.1 == 404 <==> ParseStatus(status).Some? && !(0 <= orderId < |db.orders|)
    ensures r.1 == 200 <==> ParseStatus(status).Some? && 0 <= orderId < |db.orders| && MayChange(db.orders[orderId], requester, isAdmin)
    ensures r.1 == 200 ==> (|r.0.orders| == |db.orders| && StatusName(r.0.orders[orderId].status) == status &&
      r.0 == db.(orders := db.orders[orderId := db.orders[orderId].(status := r.0.orders[orderId].status)]))
  {
    match ParseStatus(status)
    case None => (db, 400)
    case Some(st) =>
      if !(0 <= orderId < |db.orders|) then (db, 404)
      else if !MayChange(db.orders[orderId], requester, isAdmin) then (db, 403)
      else (db.(orders := db.orders[orderId := db.orders[orderId].(status := st)]), 200)
  }

  /**
   * `cancelOrder`: 404 for an unknown order, 403 for a caller who may not change it, 400 when it
   * is already Delivered or Cancelled; otherwise it becomes Cancelled and is saved, 200.
   */
  function Cancel(db: Store, orderId: int, requester: string, isAdmin: bool): (r: (Store, int))
    ensures r.1 != 200 ==> r.0 == db
    ensures r.1 == 404 <==> !(0 <= orderId < |db.orders|)
    ensures r.1 == 200 <==> (0 <= orderId < |db.orders| && MayChange(db.orders[orderId], requester, isAdmin) &&
      (db.orders[orderId].status == Pending || db.orders[orderId].status == Shipped))
    ensures r.1 == 200 ==> r.0 == db.(orders := db.orders[orderId := db.orders[orderId].(status := Cancelled)])
  {
    if !(0 <= orderId < |db.orders|) then (db, 404)
    else
      var order := db.orders[orderId];
      if !MayChange(order, requester, isAdmin) then (db, 403)
      else if order.status == Delivered || order.status == Cancelled then (db, 400)
      else
        assert order.status.Pending? || order.status.Shipped?;
        (db.(orders := db.orders[orderId := order.(status := Cancelled)]), 200)
  }

  /** A cancelled order stays cancelled: cancelling it again is refused with 400 and writes nothing. */
  lemma CancelOnce(db: Store, orderId: int, requester: string, isAdmin: bool)
    requires Cancel(db, orderId, requester, isAdmin).1 == 200
    ensures var once := Cancel(db, orderId, requester, isAdmin).0;
      Cancel(once, orderId, requester, isAdmin) == (once, 400)
  {
  }

  /**
   * Unlike a cancel, a status update may take a delivered or cancelled order back to any status,
   * for example a delivered order back to Pending.
   */
  lemma UpdateReopens(db: Store, orderId: int, requester: string)
    requires 0 <= orderId < |db.orders| && db.orders[orderId].user == requester
    requires db.orders[orderId].status == Delivered
    ensures Cancel(db, orderId, requester, false).1 == 400
    ensures var (db', status) := UpdateStatus(db, orderId, "Pending", requester, false);
      status == 200 && db'.orders[orderId].status == Pending
  {
  }
}
