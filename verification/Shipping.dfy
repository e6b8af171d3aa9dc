/** What the shipping service can read of a cart (src/shipping/src/shipping_service/shipping_types.rs) as checkout
    sends it, for a quote and for a shipment (src/checkout/main.go:480-493, 616-630). */
module Shipping {
  import opened Base
  import opened Shop

  /** An object of the request; a field is absent when its value is the default. */
  datatype SentItem = SentItem(productId: Option<string>, quantity: Option<int>)

  datatype SentAddress = SentAddress(
    streetAddress: Option<string>,
    city: Option<string>,
    state: Option<string>,
    country: Option<string>,
    zipCode: Option<string>)

  /** The request. A missing address and an empty list are written as null. */
  datatype Payload = Payload(address: Option<SentAddress>, items: Option<seq<SentItem>>)

  function Text(s: string): Option<string> {
    if s == "" then None else Some(s)
  }

  function Sent(address: Option<Address>, items: seq<CartItem>): Payload {
    var lines := seq(|items|, i requires 0 <= i < |items| =>
      SentItem(Text(items[i].productId), if items[i].quantity == 0 then None else Some(items[i].quantity)));
    var place := match address
      case None => None
      case Some(a) =>
        Some(SentAddress(Text(a.streetAddress), Text(a.city), Text(a.state), Text(a.country), Text(a.zipCode)));
    Payload(place, if items == [] then None else Some(lines))
  }

  predicate ReadsItem(item: SentItem) {
    item.productId.Some? && item.quantity.Some? && 0 <= item.quantity.value < TWO_32
  }

  /** The request can be read: items are a list, the address may be missing, and no other field may be. A request
      that cannot be read is answered with an error. */
  predicate Reads(p: Payload) {
    && p.items.Some?
    && (forall i :: 0 <= i < |p.items.value| ==> ReadsItem(p.items.value[i]))
    && (p.address.Some? ==>
          var a := p.address.value;
          a.streetAddress.Some? && a.city.Some? && a.state.Some? && a.country.Some? && a.zipCode.Some?)
  }

  /** Carts that can be quoted and shipped: not empty, every product named and wanted at least once, and an address
      that is missing altogether or complete. */
  lemma ReadableCarts(address: Option<Address>, items: seq<CartItem>)
    ensures Reads(Sent(address, items)) <==>
      && items != []
      && (forall i :: 0 <= i < |items| ==> items[i].productId != "" && items[i].quantity >= 1)
      && (address.Some? ==>
            var a := address.value;
            "" !in [a.streetAddress, a.city, a.state, a.country, a.zipCode])
  {
    var p := Sent(address, items);
    if items != [] {
      forall i | 0 <= i < |items|
        ensures ReadsItem(p.items.value[i]) <==> items[i].productId != "" && items[i].quantity >= 1
      {
      }
    }
  }
}
