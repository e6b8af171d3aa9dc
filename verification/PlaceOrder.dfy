/** PlaceOrder as checkout runs it (src/checkout/main.go), one call from start to finish. The call is
    one schedule of the saga in Checkout, so everything proved about all schedules holds of it. */
module PlaceOrder {
  import opened Base
  import opened MoneyArithmetic
  import opened Shop
  import Shipping
  import opened Totals
  import opened Checkout

  /** The answers of the remote services: the cart, the localized price of each item in turn, the
      localized shipping quote, and how each later request goes. */
  datatype Replies = Replies(
    cart: Option<seq<CartItem>>,
    price: nat -> Option<Money>,
    quote: Option<Money>,
    charge: Reply,
    ship: Reply,
    trackingId: string,
    emptied: bool,
    mailed: bool,
    accepted: bool,
    duplicates: nat)

  predicate AllAnswered(n: nat, price: nat -> Option<Money>) {
    forall i :: 0 <= i < n ==> price(i).Some?
  }

  /** Fills the order items by index; the first missing product or failed conversion ends it. */
  method PrepOrderItems(items: seq<CartItem>, price: nat -> Option<Money>) returns (out: Option<seq<OrderItem>>)
    ensures out.Some? <==> AllAnswered(|items|, price)
    ensures out.Some? ==>
      && |out.value| == |items|
      && forall i :: 0 <= i < |items| ==> out.value[i] == OrderItem(Some(items[i]), price(i))
  {
    var slots := new OrderItem[|items|];
    var i := 0;
    while i < |items|
      invariant 0 <= i <= |items|
      invariant AllAnswered(i, price)
      invariant forall k :: 0 <= k < i ==> slots[k] == OrderItem(Some(items[k]), price(k))
    {
      if price(i).None? {
        return None;
      }
      slots[i] := OrderItem(Some(items[i]), price(i));
      i := i + 1;
    }
    out := Some(slots[..]);
  }

  /** Shipping answers only to a request it can read. */
  predicate Quoted(address: Option<Address>, replies: Replies) {
    replies.cart.Some? && replies.quote.Some? && Shipping.Reads(Shipping.Sent(address, replies.cart.value))
  }

  /** The order's items are the cart's items, each with its own price. */
  predicate Answers(replies: Replies, prep: Prep) {
    && replies.cart == Some(prep.cartItems) && replies.quote == Some(prep.shipping)
    && |prep.items| == |replies.cart.value|
    && forall i :: 0 <= i < |prep.items| ==>
         prep.items[i] == OrderItem(Some(replies.cart.value[i]), replies.price(i))
  }

  /** An order can be prepared: everything is answered, no line of the cart lacks a product or a quantity, and no
      part of the address is missing unless the address is. */
  predicate CanBePrepared(address: Option<Address>, replies: Replies) {
    && replies.cart.Some? && replies.quote.Some? && replies.cart.value != []
    && (forall i :: 0 <= i < |replies.cart.value| ==>
          && replies.cart.value[i].productId != "" && replies.cart.value[i].quantity >= 1
          && replies.price(i).Some?)
    && (address.Some? ==>
          var a := address.value;
          "" !in [a.streetAddress, a.city, a.state, a.country, a.zipCode])
  }

  /** The cart's items with their prices. */
  function Lines(replies: Replies): seq<OrderItem>
    requires replies.cart.Some?
  {
    var cart := replies.cart.value;
    seq(|cart|, i requires 0 <= i < |cart| => OrderItem(Some(cart[i]), replies.price(i)))
  }

  lemma AnswersAreLines(replies: Replies, prep: Prep)
    requires Answers(replies, prep)
    ensures prep.items == Lines(replies)
  {
  }

  lemma AnsweredIsPrepared(address: Option<Address>, replies: Replies)
    ensures CanBePrepared(address, replies) <==>
      Quoted(address, replies) && AllAnswered(|replies.cart.value|, replies.price)
  {
    if replies.cart.Some? {
      Shipping.ReadableCarts(address, replies.cart.value);
    }
  }

  method PrepareOrder(address: Option<Address>, replies: Replies) returns (prep: Option<Prep>)
    ensures prep.Some? <==> CanBePrepared(address, replies)
    ensures prep.Some? ==> Answers(replies, prep.value) && Prepared(address, prep.value)
  {
    AnsweredIsPrepared(address, replies);
    if replies.cart.None? {
      return None;
    }
    var items := PrepOrderItems(replies.cart.value, replies.price);
    if items.None? || !Quoted(address, replies) {
      return None;
    }
    prep := Some(Prep(items.value, replies.cart.value, replies.quote.value));
  }

  ghost predicate Reaches(s: State, t: State) {
    exists actions :: IsRun(s, actions) && Run(s, actions) == t
  }

  lemma ReachesSelf(s: State)
    ensures Reaches(s, s)
  {
    assert IsRun(s, []) && Run(s, []) == s;
  }

  lemma ReachesNext(s: State, t: State, a: Action)
    requires Reaches(s, t) && Enabled(t, a)
    ensures Reaches(s, Next(t, a))
  {
    var actions :| IsRun(s, actions) && Run(s, actions) == t;
    RunSnoc(s, actions, a);
  }

  /** What the world sees of a call after its shipment. */
  function Announcements(c: nat, order: OrderResult, replies: Replies): seq<Event> {
    (if replies.emptied then [CartEmptied(c)] else [])
    + (if replies.mailed then [Mailed(c, order)] else [])
    + seq(if replies.accepted then 1 + replies.duplicates else 0, _ => Published(c, order))
  }

  class CheckoutService {
    var calls: map<nat, Call>
    var log: seq<Event>

    constructor ()
      ensures State(calls, log) == INIT
    {
      calls, log := map[], [];
    }

    ghost function Now(): State
      reads this
    {
      State(calls, log)
    }

    /** Registers the call and records how its preparation went. */
    method Start(ghost s0: State, c: nat, k: Call, prep: Option<Prep>)
      requires c !in calls && Reaches(s0, Now())
      requires prep.Some? ==> Prepared(k.address, prep.value)
      requires k == Call(k.orderId, k.userId, k.currency, k.address, None, None, None, false, Started)
      modifies this
      ensures Reaches(s0, Now())
      ensures calls == old(calls)[c := k.(prep := prep, phase := if prep.Some? then Ready else Done(false))]
      ensures log == old(log)
    {
      assert log + [] == log;
      ReachesNext(s0, Now(), Begin(c, k.orderId, k.userId, k.currency, k.address));
      calls := calls[c := k];
      ReachesNext(s0, Now(), Prepare(c, prep));
      if prep.None? {
        calls := calls[c := k.(prep := None, phase := Done(false))];
      } else {
        calls := calls[c := k.(prep := prep, phase := Ready)];
      }
    }

    /** Totals the order and charges the card. */
    method ChargeCard(ghost s0: State, c: nat, reply: Reply) returns (ok: bool)
      requires c in calls && calls[c].phase == Ready && calls[c].prep.Some? && Reaches(s0, Now())
      modifies this
      ensures Reaches(s0, Now())
      ensures c in calls && calls == old(calls)[c := calls[c]] && calls[c].prep == old(calls[c]).prep
      ensures ok <==> TotalOfCall(old(calls[c])).Success? && reply.Acknowledged?
      ensures ok <==> calls[c].phase == Paid
      ensures ok ==> calls[c].charge == Some(Receipt(TotalOfCall(old(calls[c])).value, true))
      ensures calls[c].currency == old(calls[c]).currency
      ensures ok ==> calls[c] == old(calls[c]).(charge := calls[c].charge, phase := Paid)
      ensures !ok ==>
        calls[c].phase == if TotalOfCall(old(calls[c])).Failure? then Dead else Done(false)
      ensures log == old(log) +
        if TotalOfCall(old(calls[c])).Success? && !reply.Refused?
        then [Charged(c, TotalOfCall(old(calls[c])).value)]
        else []
    {
      var k := calls[c];
      assert log + [] == log;
      ReachesNext(s0, Now(), Charge(c, reply));
      var total := TotalOrder(k.prep.value.shipping, k.currency, k.prep.value.items);
      if total.Failure? {
        calls := calls[c := k.(phase := Dead)];
        return false;
      }
      if reply.Refused? {
        calls := calls[c := k.(phase := Done(false))];
        return false;
      }
      log := log + [Charged(c, total.value)];
      ok := reply.Acknowledged?;
      calls := calls[c := k.(charge := Some(Receipt(total.value, ok)), phase := if ok then Paid else Done(false))];
    }

    /** An answer without a tracking id counts as a failure. */
    method ShipOrder(ghost s0: State, c: nat, trackingId: string, reply: Reply) returns (ok: bool)
      requires c in calls && calls[c].phase == Paid && Reaches(s0, Now())
      modifies this
      ensures Reaches(s0, Now())
      ensures c in calls && calls == old(calls)[c := calls[c]] && calls[c].prep == old(calls[c]).prep
      ensures ok <==> reply.Acknowledged? && trackingId != ""
      ensures ok <==> calls[c].phase == Dispatched
      ensures ok ==> calls[c].ship == Some(Shipment(trackingId, true))
      ensures calls[c].currency == old(calls[c]).currency && (!ok ==> calls[c].phase == Done(false))
      ensures ok ==> calls[c] == old(calls[c]).(ship := calls[c].ship, phase := Dispatched)
      ensures log == old(log) + if reply.Refused? then [] else [Shipped(c, trackingId)]
    {
      var k := calls[c];
      assert log + [] == log;
      ReachesNext(s0, Now(), Ship(c, trackingId, reply));
      if reply.Refused? {
        calls := calls[c := k.(phase := Done(false))];
        return false;
      }
      log := log + [Shipped(c, trackingId)];
      ok := reply.Acknowledged? && trackingId != "";
      calls := calls[c := k.(ship := Some(Shipment(trackingId, ok)), phase := if ok then Dispatched else Done(false))];
    }

    method EmptyUserCart(ghost s0: State, c: nat, ok: bool)
      requires c in calls && calls[c].phase == Dispatched && Reaches(s0, Now())
      modifies this
      ensures Reaches(s0, Now())
      ensures calls == old(calls)[c := old(calls[c]).(phase := CartHandled)]
      ensures log == old(log) + if ok then [CartEmptied(c)] else []
    {
      assert log + [] == log;
      ReachesNext(s0, Now(), EmptyCart(c, ok));
      if ok {
        log := log + [CartEmptied(c)];
      }
      calls := calls[c := calls[c].(phase := CartHandled)];
    }

    method SendOrderConfirmation(ghost s0: State, c: nat, ok: bool)
      requires c in calls && calls[c].phase == CartHandled && calls[c].prep.Some? && calls[c].ship.Some?
      requires Reaches(s0, Now())
      modifies this
      ensures Reaches(s0, Now())
      ensures calls == old(calls)[c := old(calls[c]).(phase := MailHandled)]
      ensures log == old(log) + if ok then [Mailed(c, OrderOf(old(calls[c])))] else []
    {
      assert log + [] == log;
      ReachesNext(s0, Now(), Mail(c, ok));
      if ok {
        log := log + [Mailed(c, OrderOf(calls[c]))];
      }
      calls := calls[c := calls[c].(phase := MailHandled)];
    }

    /** Publishes the order once if the producer takes it, and then again for every duplicate that the
        kafkaQueueProblems flag asks for. */
    method SendToPostProcessor(ghost s0: State, c: nat, accepted: bool, duplicates: nat)
      requires c in calls && calls[c].phase == MailHandled && calls[c].prep.Some? && calls[c].ship.Some?
      requires Reaches(s0, Now())
      modifies this
      ensures Reaches(s0, Now())
      ensures calls == old(calls)[c := old(calls[c]).(sent := accepted, phase := Announced)]
      ensures
        var message := Published(c, OrderOf(old(calls[c])));
        log == old(log) + seq(if accepted then 1 + duplicates else 0, _ => message)
    {
      ReachesNext(s0, Now(), Publish(c, accepted));
      assert log + [] == log;
      var order := OrderOf(calls[c]);
      if accepted {
        log := log + [Published(c, order)];
      }
      calls := calls[c := calls[c].(sent := accepted, phase := Announced)];
      if accepted {
        for i := 0 to duplicates
          invariant calls == old(calls)[c := old(calls[c]).(sent := true, phase := Announced)]
          invariant log == old(log) + seq(1 + i, _ => Published(c, order))
          invariant Reaches(s0, Now())
        {
          SendDuplicate(s0, c);
        }
      }
    }

    method SendDuplicate(ghost s0: State, c: nat)
      requires c in calls && calls[c].sent && calls[c].prep.Some? && calls[c].ship.Some? && Reaches(s0, Now())
      modifies this
      ensures calls == old(calls) && Reaches(s0, Now())
      ensures log == old(log) + [Published(c, OrderOf(calls[c]))]
    {
      ReachesNext(s0, Now(), Republish(c));
      assert calls[c := calls[c]] == calls;
      log := log + [Published(c, OrderOf(calls[c]))];
    }

    method Return(ghost s0: State, c: nat)
      requires c in calls && calls[c].phase == Announced && Reaches(s0, Now())
      modifies this
      ensures Reaches(s0, Now())
      ensures calls == old(calls)[c := old(calls[c]).(phase := Done(true))] && log == old(log)
    {
      ReachesNext(s0, Now(), Finish(c));
      assert log + [] == log;
      calls := calls[c := calls[c].(phase := Done(true))];
    }

    method Announce(ghost s0: State, c: nat, replies: Replies) returns (order: OrderResult)
      requires c in calls && calls[c].phase == Dispatched && calls[c].prep.Some? && calls[c].ship.Some?
      requires Reaches(s0, Now())
      modifies this
      ensures Reaches(s0, Now())
      ensures calls == old(calls)[c := old(calls[c]).(sent := replies.accepted, phase := Done(true))]
      ensures order == OrderOf(calls[c])
      ensures log == old(log) + Announcements(c, order, replies)
    {
      hide Reaches;
      EmptyUserCart(s0, c, replies.emptied);
      SendOrderConfirmation(s0, c, replies.mailed);
      SendToPostProcessor(s0, c, replies.accepted, replies.duplicates);
      order := OrderOf(calls[c]);
      Return(s0, c);
    }

    /** Answers with the order exactly when the order could be prepared and totalled and both the
        charge and the shipment were acknowledged. Emptying the cart, mailing and publishing cannot
        fail the call. */
    method PlaceOrder(c: nat, orderId: string, userId: string, currency: string, address: Option<Address>, replies: Replies)
      returns (response: Option<OrderResult>)
      requires c !in calls
      modifies this
      ensures Reaches(old(Now()), Now())
      ensures c in calls && calls == old(calls)[c := calls[c]]
      ensures response.Some? <==> calls[c].phase == Done(true)
      ensures response.Some? ==> calls[c].prep.Some? && calls[c].ship.Some? && response.value == OrderOf(calls[c])
      ensures calls[c].prep.Some? <==> CanBePrepared(address, replies)
      ensures response.Some? <==>
        && CanBePrepared(address, replies) && TotalOf(replies.quote.value, currency, Lines(replies)).Success?
        && replies.charge.Acknowledged? && replies.ship.Acknowledged? && replies.trackingId != ""
      ensures response.Some? ==>
        && response.value.orderId == orderId && response.value.shippingTrackingId == replies.trackingId
        && response.value.shippingCost == replies.quote && response.value.shippingAddress == address
        && |response.value.items| == |replies.cart.value|
        && (forall i :: 0 <= i < |replies.cart.value| ==>
              && response.value.items[i].item == Some(replies.cart.value[i])
              && response.value.items[i].cost == replies.price(i))
      ensures response.Some? ==>
        var total := TotalOf(replies.quote.value, currency, response.value.items);
        && total.Success?
        && log == old(log) + [Charged(c, total.value), Shipped(c, replies.trackingId)]
                  + Announcements(c, response.value, replies)
    {
      hide Reaches, AllAnswered, TotalOf, Announcements, CanBePrepared, Lines, Quoted;
      ghost var s0 := Now();
      ReachesSelf(s0);
      var prep := PrepareOrder(address, replies);
      Start(s0, c, Call(orderId, userId, currency, address, None, None, None, false, Started), prep);
      if prep.None? {
        return None;
      }
      AnswersAreLines(replies, prep.value);
      var charged := ChargeCard(s0, c, replies.charge);
      if !charged {
        return None;
      }
      var shipped := ShipOrder(s0, c, replies.trackingId, replies.ship);
      if !shipped {
        return None;
      }
      ghost var charge, ship := Charged(c, calls[c].charge.value.amount), Shipped(c, replies.trackingId);
      assert log == old(log) + [charge] + [ship];
      var order := Announce(s0, c, replies);
      assert old(log) + [charge] + [ship] == old(log) + [charge, ship];
      response := Some(order);
    }
  }
}
