/** The messages the shop's services exchange (pb/demo.proto). A message-typed field may be
    absent. */
module Shop {
  import opened Base
  import opened MoneyArithmetic

  datatype CartItem = CartItem(productId: string, quantity: int32)

  datatype Cart = Cart(userId: string, items: seq<CartItem>)

  datatype Address = Address(streetAddress: string, city: string, state: string, country: string, zipCode: string)

  datatype OrderItem = OrderItem(item: Option<CartItem>, cost: Option<Money>)

  datatype OrderResult = OrderResult(
    orderId: string,
    shippingTrackingId: string,
    shippingCost: Option<Money>,
    shippingAddress: Option<Address>,
    items: seq<OrderItem>)

  /** No product is listed twice. */
  predicate DistinctProducts(items: seq<CartItem>) {
    forall i, j :: 0 <= i < j < |items| ==> items[i].productId != items[j].productId
  }
}
