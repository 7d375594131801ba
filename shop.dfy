/**
 * The shop side of the store that the cart, wishlist and order controllers read and write:
 * products, one cart and one wishlist per member, and the orders.
 */
module Shop {
  import opened Common

  /** A product document: the paths the controllers read. */
  datatype Product = Product(name: string, price: real, stock: int)

  /** One entry of a cart's `products` array (also the shape an order copies). */
  datatype CartItem = CartItem(product: string, quantity: int)

  /** The `status` enum of an order; a new order is Pending. */
  datatype OrderStatus = Pending | Shipped | Delivered | Cancelled

  datatype Order = Order(user: string, products: seq<CartItem>, totalAmount: int, status: OrderStatus)

  /**
   * The collections: products by id, each member's cart entries and wishlist ids by the
   * member's id, and the orders, an order's id being its index.
   */
  datatype Store = Store(
    products: map<string, Product>,
    carts: map<string, seq<CartItem>>,
    wishlists: map<string, seq<string>>,
    orders: seq<Order>)

  /** The product ids of a list of entries, in order. */
  function ProductIds(items: seq<CartItem>): (r: seq<string>)
    ensures |r| == |items| && forall i :: 0 <= i < |items| ==> r[i] == items[i].product
  {
    if items == [] then [] else [items[0].product] + ProductIds(items[1..])
  }

  /** A list of entries with at most one entry per product. */
  predicate OnePerProduct(items: seq<CartItem>)
  {
    forall i, j :: 0 <= i < j < |items| ==> items[i].product != items[j].product
  }

  /** The entries of items for products other than p, in order (`filter(e => !e.product.equals(p))`). */
  function Others(items: seq<CartItem>, p: string): (r: seq<CartItem>)
    ensures forall e :: e in r <==> e in items && e.product != p
    ensures |r| <= |items|
    ensures OnePerProduct(items) ==> OnePerProduct(r)
  {
    if items == [] then []
    else
      var rest := Others(items[1..], p);
      if items[0].product == p then rest
      else
        assert OnePerProduct(items) ==> forall e :: e in rest ==> e.product != items[0].product by {
          if OnePerProduct(items) {
            forall e | e in rest ensures e.product != items[0].product {
              var j :| 0 <= j < |items[1..]| && items[1..][j] == e;
              assert items[j + 1] == e;
            }
          }
        }
        [items[0]] + rest
  }
}
