/** The checkout saga (src/checkout/main.go): many PlaceOrder calls at once, each a sequence of
    remote calls of which any may fail, be answered too late, or be cut off. */
module Checkout {
  import opened Base
  import opened MoneyArithmetic
  import opened Shop
  import Shipping
  import opened Totals

  /** What the caller of a remote service sees: success, an error before anything happened, or an
      error after the effect took place. */
  datatype Reply = Acknowledged | Refused | ReplyLost

  /** The order items, the cart they came from, and the shipping cost. */
  datatype Prep = Prep(items: seq<OrderItem>, cartItems: seq<CartItem>, shipping: Money)

  datatype Receipt = Receipt(amount: Money, acknowledged: bool)

  datatype Shipment = Shipment(trackingId: string, acknowledged: bool)

  datatype Phase = Started | Ready | Paid | Dispatched | CartHandled | MailHandled | Announced | Done(ok: bool) | Dead

  datatype Call = Call(
    orderId: string,
    userId: string,
    currency: string,
    address: Option<Address>,
    prep: Option<Prep>,
    charge: Option<Receipt>,
    ship: Option<Shipment>,
    sent: bool,
    phase: Phase)

  /** What the outside world has seen. */
  datatype Event =
    | Charged(call: nat, amount: Money)
    | Shipped(call: nat, trackingId: string)
    | CartEmptied(call: nat)
    | Mailed(call: nat, order: OrderResult)
    | Published(call: nat, order: OrderResult)

  datatype State = State(calls: map<nat, Call>, log: seq<Event>)

  const INIT := State(map[], [])

  datatype Action =
    | Begin(call: nat, orderId: string, userId: string, currency: string, address: Option<Address>)
    | Prepare(call: nat, prep: Option<Prep>)
    | Charge(call: nat, reply: Reply)
    | Ship(call: nat, trackingId: string, reply: Reply)
    | EmptyCart(call: nat, ok: bool)
    | Mail(call: nat, ok: bool)
    | Publish(call: nat, accepted: bool)
    | Republish(call: nat)
    | Finish(call: nat)
    | Die(call: nat)

  function OrderOf(k: Call): OrderResult
    requires k.prep.Some? && k.ship.Some?
  {
    OrderResult(k.orderId, k.ship.value.trackingId, Some(k.prep.value.shipping), k.address, k.prep.value.items)
  }

  function TotalOfCall(k: Call): Result<Money, MoneyError>
    requires k.prep.Some?
  {
    TotalOf(k.prep.value.shipping, k.currency, k.prep.value.items)
  }

  /** The order items are the cart's items, each with a price. */
  predicate FromCart(items: seq<OrderItem>, cart: seq<CartItem>) {
    && |items| == |cart|
    && forall i :: 0 <= i < |items| ==> items[i].item == Some(cart[i]) && items[i].cost.Some?
  }

  /** A preparation succeeds only with a quote, and shipping quotes only what it can read. */
  predicate Prepared(address: Option<Address>, prep: Prep) {
    FromCart(prep.items, prep.cartItems) && Shipping.Reads(Shipping.Sent(address, prep.cartItems))
  }

  /** The phase in which each step of PlaceOrder runs. Duplicates of a published message are sent by
      goroutines that outlive the call; a call may be cut off at any point before it returns. */
  predicate InPhase(k: Call, a: Action) {
    match a
    case Begin(_, _, _, _, _) => false
    case Prepare(_, prep) => k.phase == Started && (prep.Some? ==> Prepared(k.address, prep.value))
    case Charge(_, _) => k.phase == Ready && k.prep.Some?
    case Ship(_, _, _) => k.phase == Paid
    case EmptyCart(_, _) => k.phase == Dispatched
    case Mail(_, _) => k.phase == CartHandled && k.prep.Some? && k.ship.Some?
    case Publish(_, _) => k.phase == MailHandled && k.prep.Some? && k.ship.Some?
    case Republish(_) => k.sent && k.prep.Some? && k.ship.Some?
    case Finish(_) => k.phase == Announced
    case Die(_) => !k.phase.Done?
  }

  predicate Enabled(s: State, a: Action) {
    if a.Begin? then a.call !in s.calls else a.call in s.calls && InPhase(s.calls[a.call], a)
  }

  /** How a step changes its own call. */
  function CallAfter(k: Call, a: Action): Call
    requires InPhase(k, a)
  {
    match a
    case Prepare(_, prep) => k.(prep := prep, phase := if prep.Some? then Ready else Done(false))
    case Charge(_, reply) =>
      var total := TotalOfCall(k);
      if total.Failure? then k.(phase := Dead)
      else if reply.Refused? then k.(phase := Done(false))
      else k.(charge := Some(Receipt(total.value, reply.Acknowledged?)),
              phase := if reply.Acknowledged? then Paid else Done(false))
    case Ship(_, trackingId, reply) =>
      if reply.Refused? then k.(phase := Done(false))
      else
        var acknowledged := reply.Acknowledged? && trackingId != "";
        k.(ship := Some(Shipment(trackingId, acknowledged)), phase := if acknowledged then Dispatched else Done(false))
    case EmptyCart(_, _) => k.(phase := CartHandled)
    case Mail(_, _) => k.(phase := MailHandled)
    case Publish(_, accepted) => k.(sent := accepted, phase := Announced)
    case Republish(_) => k
    case Finish(_) => k.(phase := Done(true))
    case Die(_) => k.(phase := Dead)
  }

  /** What a step shows the outside world. */
  function EventsOf(k: Call, a: Action): seq<Event>
    requires InPhase(k, a)
  {
    match a
    case Charge(c, reply) =>
      var total := TotalOfCall(k);
      if total.Success? && !reply.Refused? then [Charged(c, total.value)] else []
    case Ship(c, trackingId, reply) => if reply.Refused? then [] else [Shipped(c, trackingId)]
    case EmptyCart(c, ok) => if ok then [CartEmptied(c)] else []
    case Mail(c, ok) => if ok then [Mailed(c, OrderOf(k))] else []
    case Publish(c, accepted) => if accepted then [Published(c, OrderOf(k))] else []
    case Republish(c) => [Published(c, OrderOf(k))]
    case _ => []
  }

  function Next(s: State, a: Action): State
    requires Enabled(s, a)
  {
    match a
    case Begin(c, orderId, userId, currency, address) =>
      s.(calls := s.calls[c := Call(orderId, userId, currency, address, None, None, None, false, Started)])
    case _ =>
      var k := s.calls[a.call];
      State(s.calls[a.call := CallAfter(k, a)], s.log + EventsOf(k, a))
  }

  predicate IsRun(s: State, actions: seq<Action>)
    decreases |actions|
  {
    actions == [] || (Enabled(s, actions[0]) && IsRun(Next(s, actions[0]), actions[1..]))
  }

  function Run(s: State, actions: seq<Action>): State
    requires IsRun(s, actions)
    decreases |actions|
  {
    if actions == [] then s else Run(Next(s, actions[0]), actions[1..])
  }

  lemma {:induction false} RunSnoc(s: State, actions: seq<Action>, a: Action)
    requires IsRun(s, actions) && Enabled(Run(s, actions), a)
    ensures IsRun(s, actions + [a]) && Run(s, actions + [a]) == Next(Run(s, actions), a)
    decreases |actions|
  {
    if actions == [] {
      assert ([a])[1..] == [];
      assert actions + [a] == [a];
    } else {
      RunSnoc(Next(s, actions[0]), actions[1..], a);
      assert (actions + [a])[1..] == actions[1..] + [a];
    }
  }

  /** Until it has answered, a call can be cut off; once it has answered, nothing changes it any more. */
  lemma {:induction false} AnswersAreFinal(s: State, actions: seq<Action>, c: nat)
    requires c in s.calls && IsRun(s, actions)
    ensures !s.calls[c].phase.Done? ==> Enabled(s, Die(c)) && Next(s, Die(c)).calls[c].phase == Dead
    ensures s.calls[c].phase.Done? ==> c in Run(s, actions).calls && Run(s, actions).calls[c] == s.calls[c]
    decreases |actions|
  {
    if s.calls[c].phase.Done? && actions != [] {
      AnswersAreFinal(Next(s, actions[0]), actions[1..], c);
    }
  }

  // ---- The order of effects ----

  predicate ChargeOf(e: Event, c: nat) { e.Charged? && e.call == c }

  predicate ShipmentOf(e: Event, c: nat) { e.Shipped? && e.call == c }

  /** An event at position j of the log comes after what it must follow, and nothing that must
      happen once has happened before. */
  predicate InOrder(log: seq<Event>, j: nat)
    requires j < |log|
  {
    match log[j]
    case Charged(c, _) => forall i :: 0 <= i < j ==> !ChargeOf(log[i], c)
    case Shipped(c, _) =>
      (forall i :: 0 <= i < j ==> !ShipmentOf(log[i], c)) && exists i :: 0 <= i < j && ChargeOf(log[i], c)
    case CartEmptied(c) => exists i :: 0 <= i < j && ShipmentOf(log[i], c)
    case Mailed(c, _) => exists i :: 0 <= i < j && ShipmentOf(log[i], c)
    case Published(c, _) => exists i :: 0 <= i < j && ShipmentOf(log[i], c)
  }

  predicate SagaOrder(log: seq<Event>) {
    forall j :: 0 <= j < |log| ==> InOrder(log, j)
  }

  predicate ChargeAcknowledged(k: Call) {
    k.charge.Some? && k.charge.value.acknowledged
  }

  predicate ShipAcknowledged(k: Call) {
    k.ship.Some? && k.ship.value.acknowledged
  }

  /** What a call remembers at each phase. */
  predicate Consistent(k: Call) {
    && (k.prep.Some? ==> Prepared(k.address, k.prep.value))
    && (k.charge.Some? ==> k.prep.Some? && TotalOfCall(k) == Success(k.charge.value.amount))
    && (k.ship.Some? ==> ChargeAcknowledged(k))
    && (k.sent ==> ShipAcknowledged(k))
    && (k.phase in {Started, Ready} ==> k.charge.None?)
    && (k.phase in {Started, Ready, Paid} ==> k.ship.None?)
    && (k.phase in {Started, Ready, Paid, Dispatched, CartHandled, MailHandled} ==> !k.sent)
    && (k.phase == Paid ==> ChargeAcknowledged(k))
    && (k.phase in {Dispatched, CartHandled, MailHandled, Announced} ==> ShipAcknowledged(k))
    && (k.phase.Done? ==> (k.phase.ok <==> ChargeAcknowledged(k) && ShipAcknowledged(k)))
  }

  /** An event agrees with what its call remembers. */
  predicate Remembered(calls: map<nat, Call>, e: Event) {
    && e.call in calls
    && var k := calls[e.call];
       match e
       case Charged(_, amount) => k.charge.Some? && k.charge.value.amount == amount
       case Shipped(_, trackingId) => k.ship.Some? && k.ship.value.trackingId == trackingId
       case CartEmptied(_) => ShipAcknowledged(k)
       case Mailed(_, order) => k.prep.Some? && ShipAcknowledged(k) && order == OrderOf(k)
       case Published(_, order) => k.sent && k.prep.Some? && ShipAcknowledged(k) && order == OrderOf(k)
  }

  predicate Inv(s: State) {
    && (forall c :: c in s.calls ==> Consistent(s.calls[c]))
    && (forall j :: 0 <= j < |s.log| ==> Remembered(s.calls, s.log[j]))
    && (forall c :: c in s.calls && s.calls[c].charge.Some? ==> Charged(c, s.calls[c].charge.value.amount) in s.log)
    && (forall c :: c in s.calls && s.calls[c].ship.Some? ==> Shipped(c, s.calls[c].ship.value.trackingId) in s.log)
    && SagaOrder(s.log)
  }

  lemma CallStaysConsistent(k: Call, a: Action)
    requires Consistent(k) && InPhase(k, a)
    ensures Consistent(CallAfter(k, a))
  {
  }

  /** A call never forgets or changes what the outside has seen of it. */
  lemma MemoryIsKept(calls: map<nat, Call>, a: Action, e: Event)
    requires a.call in calls && Consistent(calls[a.call]) && InPhase(calls[a.call], a)
    requires Remembered(calls, e)
    ensures Remembered(calls[a.call := CallAfter(calls[a.call], a)], e)
  {
  }

  /** A step shows at most one event, of its own call, and remembers it. */
  lemma EventsAreRemembered(calls: map<nat, Call>, a: Action)
    requires a.call in calls && Consistent(calls[a.call]) && InPhase(calls[a.call], a)
    ensures
      var k := calls[a.call];
      var events := EventsOf(k, a);
      && |events| <= 1
      && (forall e <- events :: e.call == a.call && Remembered(calls[a.call := CallAfter(k, a)], e))
      && (CallAfter(k, a).charge != k.charge ==>
            k.charge.None? && events == [Charged(a.call, CallAfter(k, a).charge.value.amount)])
      && (CallAfter(k, a).ship != k.ship ==>
            k.ship.None? && events == [Shipped(a.call, CallAfter(k, a).ship.value.trackingId)])
      && forall e <- events ::
          && (e.Charged? ==> k.charge.None?)
          && (e.Shipped? ==> k.ship.None? && k.charge.Some?)
          && (e.Charged? || e.Shipped? || k.ship.Some?)
  {
  }

  lemma OrderGrows(log: seq<Event>, e: Event)
    requires SagaOrder(log)
    requires InOrder(log + [e], |log|)
    ensures SagaOrder(log + [e])
  {
    var more := log + [e];
    forall j | 0 <= j < |log|
      ensures InOrder(more, j)
    {
      assert InOrder(log, j);
      assert forall i :: 0 <= i <= j ==> more[i] == log[i];
    }
  }

  lemma BeginKeepsOrder(s: State, a: Action)
    requires Inv(s) && a.Begin? && Enabled(s, a)
    ensures Inv(Next(s, a))
  {
    var t := Next(s, a);
    assert t.log == s.log;
    forall j | 0 <= j < |s.log| ensures Remembered(t.calls, s.log[j]) {
      assert Remembered(s.calls, s.log[j]);
    }
  }

  /** The log remembers its old events and the new one. */
  lemma StepRemembers(s: State, a: Action)
    requires Inv(s) && !a.Begin? && Enabled(s, a)
    ensures forall j :: 0 <= j < |Next(s, a).log| ==> Remembered(Next(s, a).calls, Next(s, a).log[j])
  {
    var t := Next(s, a);
    EventsAreRemembered(s.calls, a);
    forall j | 0 <= j < |t.log| ensures Remembered(t.calls, t.log[j]) {
      if j < |s.log| {
        MemoryIsKept(s.calls, a, s.log[j]);
      }
    }
  }

  lemma StepLogsEffects(s: State, a: Action)
    requires Inv(s) && !a.Begin? && Enabled(s, a)
    ensures
      var t := Next(s, a);
      && (forall c :: c in t.calls && t.calls[c].charge.Some? ==> Charged(c, t.calls[c].charge.value.amount) in t.log)
      && (forall c :: c in t.calls && t.calls[c].ship.Some? ==> Shipped(c, t.calls[c].ship.value.trackingId) in t.log)
  {
    CallStaysConsistent(s.calls[a.call], a);
    EventsAreRemembered(s.calls, a);
  }

  lemma StepKeepsSagaOrder(s: State, a: Action)
    requires Inv(s) && !a.Begin? && Enabled(s, a)
    ensures SagaOrder(Next(s, a).log)
  {
    var events := EventsOf(s.calls[a.call], a);
    EventsAreRemembered(s.calls, a);
    if events != [] {
      assert events == [events[0]];
      NewEventInOrder(s, a, events[0]);
      OrderGrows(s.log, events[0]);
    } else {
      assert Next(s, a).log == s.log;
    }
  }

  /** One step of any call keeps the invariant. */
  lemma StepKeepsOrder(s: State, a: Action)
    requires Inv(s) && Enabled(s, a)
    ensures Inv(Next(s, a))
  {
    if a.Begin? {
      BeginKeepsOrder(s, a);
    } else {
      CallStaysConsistent(s.calls[a.call], a);
      StepRemembers(s, a);
      StepLogsEffects(s, a);
      StepKeepsSagaOrder(s, a);
    }
  }

  lemma NewEventInOrder(s: State, a: Action, e: Event)
    requires Inv(s) && Enabled(s, a) && !a.Begin? && EventsOf(s.calls[a.call], a) == [e]
    ensures InOrder(s.log + [e], |s.log|)
  {
    var c, k := a.call, s.calls[a.call];
    EventsAreRemembered(s.calls, a);
    assert e in [e];
    forall i | 0 <= i < |s.log|
      ensures k.charge.None? ==> !ChargeOf(s.log[i], c)
      ensures k.ship.None? ==> !ShipmentOf(s.log[i], c)
    {
      assert Remembered(s.calls, s.log[i]);
    }
    if k.charge.Some? {
      var i :| 0 <= i < |s.log| && s.log[i] == Charged(c, k.charge.value.amount);
      assert ChargeOf((s.log + [e])[i], c);
    }
    if k.ship.Some? {
      var i :| 0 <= i < |s.log| && s.log[i] == Shipped(c, k.ship.value.trackingId);
      assert ShipmentOf((s.log + [e])[i], c);
    }
  }

  /** Under every interleaving of calls, with any step failing, each order is charged at most once
      and shipped at most once; a shipment follows its charge; emptying the cart, mailing and
      publishing follow the shipment. */
  lemma {:induction false} SagaHolds(s: State, actions: seq<Action>)
    requires Inv(s) && IsRun(s, actions)
    ensures Inv(Run(s, actions))
    decreases |actions|
  {
    if actions != [] {
      StepKeepsOrder(s, actions[0]);
      SagaHolds(Next(s, actions[0]), actions[1..]);
    }
  }

  /** What a caller may conclude at the end of any run: the answer is a success exactly when charge
      and shipment were acknowledged, whatever became of the cart, the mail and the message; and a
      published order was charged, once, for its exact computed total. */
  lemma OutcomeIsChargeAndShipment(actions: seq<Action>)
    requires IsRun(INIT, actions)
    ensures
      var s := Run(INIT, actions);
      && SagaOrder(s.log)
      && (forall c :: c in s.calls && s.calls[c].phase.Done? ==>
            (s.calls[c].phase.ok <==> ChargeAcknowledged(s.calls[c]) && ShipAcknowledged(s.calls[c])))
      && (forall j :: 0 <= j < |s.log| && s.log[j].Published? ==>
            var c := s.log[j].call;
            && c in s.calls && s.calls[c].prep.Some? && s.calls[c].ship.Some? && s.log[j].order == OrderOf(s.calls[c])
            && exists i :: 0 <= i < j && ChargeOf(s.log[i], c) && TotalOfCall(s.calls[c]) == Success(s.log[i].amount))
  {
    SagaHolds(INIT, actions);
    var s := Run(INIT, actions);
    forall j | 0 <= j < |s.log| && s.log[j].Published?
      ensures
        var c := s.log[j].call;
        && c in s.calls && s.calls[c].prep.Some? && s.calls[c].ship.Some? && s.log[j].order == OrderOf(s.calls[c])
        && exists i :: 0 <= i < j && ChargeOf(s.log[i], c) && TotalOfCall(s.calls[c]) == Success(s.log[i].amount)
    {
      var c := s.log[j].call;
      assert Remembered(s.calls, s.log[j]);
      assert InOrder(s.log, j);
      var h :| 0 <= h < j && ShipmentOf(s.log[h], c);
      assert InOrder(s.log, h);
      var i :| 0 <= i < h && ChargeOf(s.log[i], c);
      assert Remembered(s.calls, s.log[i]);
    }
  }

  // ---- What an order says ----

  /** The calls are as they were begun and prepared. */
  ghost predicate Known(calls: map<nat, Call>, past: seq<Action>) {
    forall c :: c in calls ==>
      && Begin(c, calls[c].orderId, calls[c].userId, calls[c].currency, calls[c].address) in past
      && (calls[c].prep.Some? ==> Prepare(c, calls[c].prep) in past)
  }

  lemma {:induction false} CallsStayKnown(s: State, actions: seq<Action>, past: seq<Action>)
    requires IsRun(s, actions) && Known(s.calls, past)
    ensures Known(Run(s, actions).calls, past + actions)
    decreases |actions|
  {
    if actions == [] {
      assert past + actions == past;
    } else {
      var t, a := Next(s, actions[0]), actions[0];
      forall c | c in t.calls
        ensures Begin(c, t.calls[c].orderId, t.calls[c].userId, t.calls[c].currency, t.calls[c].address) in past + [a]
        ensures t.calls[c].prep.Some? ==> Prepare(c, t.calls[c].prep) in past + [a]
      {
        assert a in past + [a];
        assert forall b :: b in past ==> b in past + [a];
      }
      CallsStayKnown(t, actions[1..], past + [a]);
      assert past + [a] + actions[1..] == past + actions;
    }
  }

  /** The order of event j carries the id and the address that its call began with, the items and the shipping cost of
      its preparation, and the tracking id of its earlier shipment. */
  ghost predicate Tells(actions: seq<Action>, log: seq<Event>, j: nat)
    requires j < |log| && (log[j].Mailed? || log[j].Published?)
  {
    var c, m := log[j].call, log[j].order;
    && (exists h :: 0 <= h < j && log[h] == Shipped(c, m.shippingTrackingId))
    && (exists userId, currency :: Begin(c, m.orderId, userId, currency, m.shippingAddress) in actions)
    && exists prep :: Prepare(c, Some(prep)) in actions && m.items == prep.items && m.shippingCost == Some(prep.shipping)
  }

  /** Over any run, every mailed and every published order says what happened to its call. */
  lemma OrdersTellWhatHappened(actions: seq<Action>)
    requires IsRun(INIT, actions)
    ensures
      var log := Run(INIT, actions).log;
      forall j :: 0 <= j < |log| && (log[j].Mailed? || log[j].Published?) ==> Tells(actions, log, j)
  {
    var s := Run(INIT, actions);
    SagaHolds(INIT, actions);
    CallsStayKnown(INIT, actions, []);
    assert [] + actions == actions;
    forall j | 0 <= j < |s.log| && (s.log[j].Mailed? || s.log[j].Published?)
      ensures Tells(actions, s.log, j)
    {
      var c := s.log[j].call;
      var k := s.calls[c];
      assert Remembered(s.calls, s.log[j]) && InOrder(s.log, j);
      var h :| 0 <= h < j && ShipmentOf(s.log[h], c);
      assert Remembered(s.calls, s.log[h]);
      assert s.log[h] == Shipped(c, s.log[j].order.shippingTrackingId);
      assert Begin(c, s.log[j].order.orderId, k.userId, k.currency, s.log[j].order.shippingAddress) in actions;
      assert Prepare(c, Some(k.prep.value)) in actions;
    }
  }
}
