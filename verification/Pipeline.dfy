/** The order pipeline as a whole: cart store, checkout, topic and accounting, with every interleaving
    of their steps, failing requests, lost messages, duplicates and redeliveries. */
module Pipeline {
  import opened Base
  import opened MoneyArithmetic
  import opened Shop
  import opened Totals
  import Shipping
  import Store = CartStore
  import C = Checkout
  import L = Ledger

  datatype State = State(shop: Store.State, checkout: C.State, books: L.Books, delivered: seq<L.Delivery>)

  const INIT := State(Store.INIT, C.INIT, L.EMPTY_BOOKS, [])

  /** Shopping is any cart request; Calling is a step of a PlaceOrder call; Deliver hands the consumer
      any message ever published, as often as it likes. A message that is lost is never delivered. */
  datatype Action =
    | Shopping(store: Store.Action)
    | Calling(step: C.Action)
    | Deliver(position: nat, databaseUp: bool)

  function CartOf(shop: Store.State, userId: string): seq<CartItem> {
    if userId in shop.db then shop.db[userId].items else []
  }

  predicate Enabled(s: State, a: Action) {
    match a
    case Shopping(store) => Store.Enabled(s.shop, store)
    case Calling(step) =>
      && C.Enabled(s.checkout, step)
      && (step.Prepare? && step.prep.Some? ==>
            step.prep.value.cartItems == CartOf(s.shop, s.checkout.calls[step.call].userId))
    case Deliver(position, _) => position < |s.checkout.log| && s.checkout.log[position].Published?
  }

  function Next(s: State, a: Action): State
    requires Enabled(s, a)
  {
    match a
    case Shopping(store) => s.(shop := Store.Next(s.shop, store))
    case Calling(step) =>
      var shop := if step.EmptyCart? && step.ok
                  then Store.Next(s.shop, Store.Empty(s.checkout.calls[step.call].userId))
                  else s.shop;
      s.(shop := shop, checkout := C.Next(s.checkout, step))
    case Deliver(position, databaseUp) =>
      var d := L.Delivery(Some(s.checkout.log[position].order), databaseUp);
      s.(books := L.Effect(s.books, d), delivered := s.delivered + [d])
  }

  predicate IsRun(s: State, actions: seq<Action>)
    decreases |actions|
  {
    actions == [] || (Enabled(s, actions[0]) && IsRun(Next(s, actions[0]), actions[1..]))
  }

  function Run(s: State, actions: seq<Action>): State
    requires IsRun(s, actions)
    decreases |actions|
  {
    if actions == [] then s else Run(Next(s, actions[0]), actions[1..])
  }

  // ---- What every reachable state satisfies ----

  function PublishedOrders(log: seq<C.Event>): set<OrderResult> {
    set j | 0 <= j < |log| && log[j].Published? :: log[j].order
  }

  /** No item is missing a field and no product is repeated. */
  predicate ItemsComplete(items: seq<OrderItem>) {
    && (forall i :: 0 <= i < |items| ==> L.ItemPresent(items[i]))
    && (forall i, j :: 0 <= i < j < |items| && L.ItemPresent(items[i]) && L.ItemPresent(items[j]) ==>
          items[i].item.value.productId != items[j].item.value.productId)
  }

  ghost predicate Inv(s: State) {
    && Store.Inv(s.shop)
    && C.Inv(s.checkout)
    && (forall c :: c in s.checkout.calls && s.checkout.calls[c].prep.Some? ==>
          ItemsComplete(s.checkout.calls[c].prep.value.items))
    && L.Faithful(s.books, PublishedOrders(s.checkout.log))
    && s.books == L.Effects(L.EMPTY_BOOKS, s.delivered)
    && (forall j :: 0 <= j < |s.delivered| ==>
          s.delivered[j].payload.Some? && s.delivered[j].payload.value in PublishedOrders(s.checkout.log))
  }

  lemma CartItemsComplete(items: seq<OrderItem>, cart: seq<CartItem>)
    requires C.FromCart(items, cart) && DistinctProducts(cart)
    ensures ItemsComplete(items)
  {
  }

  lemma CartIsDistinct(shop: Store.State, userId: string)
    requires Store.Inv(shop)
    ensures DistinctProducts(CartOf(shop, userId))
  {
  }

  lemma PublishedGrows(log: seq<C.Event>, events: seq<C.Event>)
    ensures PublishedOrders(log) <= PublishedOrders(log + events)
  {
    forall m | m in PublishedOrders(log)
      ensures m in PublishedOrders(log + events)
    {
      var j :| 0 <= j < |log| && log[j].Published? && log[j].order == m;
      assert (log + events)[j] == log[j];
    }
  }

  lemma FaithfulGrows(b: L.Books, ms: set<OrderResult>, more: set<OrderResult>)
    requires L.Faithful(b, ms) && ms <= more
    ensures L.Faithful(b, more)
  {
    forall id | id in b.orders
      ensures exists m :: m in more && m.orderId == id && L.Records(b, m)
    {
      var m :| m in ms && m.orderId == id && L.Records(b, m);
      assert m in more;
    }
  }

  lemma CallingKeepsInv(s: State, step: C.Action)
    requires Inv(s) && Enabled(s, Calling(step))
    ensures Inv(Next(s, Calling(step)))
  {
    hide Store.Inv, C.Inv, L.Faithful, L.Effects, PublishedOrders;
    var t := Next(s, Calling(step));
    C.StepKeepsOrder(s.checkout, step);
    if step.EmptyCart? && step.ok {
      Store.StepKeepsSourced(s.shop, Store.Empty(s.checkout.calls[step.call].userId));
    }
    if step.Prepare? && step.prep.Some? {
      CartIsDistinct(s.shop, s.checkout.calls[step.call].userId);
      CartItemsComplete(step.prep.value.items, CartOf(s.shop, s.checkout.calls[step.call].userId));
    }
    LogGrows(s.checkout, step);
    FaithfulGrows(s.books, PublishedOrders(s.checkout.log), PublishedOrders(t.checkout.log));
  }

  lemma LogGrows(s: C.State, step: C.Action)
    requires C.Enabled(s, step)
    ensures PublishedOrders(s.log) <= PublishedOrders(C.Next(s, step).log)
  {
    if !step.Begin? {
      PublishedGrows(s.log, C.EventsOf(s.calls[step.call], step));
    }
  }

  lemma DeliverKeepsInv(s: State, position: nat, databaseUp: bool)
    requires Inv(s) && Enabled(s, Deliver(position, databaseUp))
    ensures Inv(Next(s, Deliver(position, databaseUp)))
  {
    hide Store.Inv, C.Inv, L.Faithful, L.Process, ItemsComplete;
    var t := Next(s, Deliver(position, databaseUp));
    L.ProcessStaysFaithful(s.books, PublishedOrders(s.checkout.log), s.checkout.log[position].order);
    assert t.delivered[..|s.delivered|] == s.delivered;
  }

  lemma ShoppingKeepsInv(s: State, store: Store.Action)
    requires Inv(s) && Enabled(s, Shopping(store))
    ensures Inv(Next(s, Shopping(store)))
  {
    Store.StepKeepsSourced(s.shop, store);
  }

  lemma StepKeepsInv(s: State, a: Action)
    requires Inv(s) && Enabled(s, a)
    ensures Inv(Next(s, a))
  {
    match a
    case Shopping(store) => ShoppingKeepsInv(s, store);
    case Calling(step) => CallingKeepsInv(s, step);
    case Deliver(position, databaseUp) => DeliverKeepsInv(s, position, databaseUp);
  }

  lemma {:induction false} RunKeepsInv(s: State, actions: seq<Action>)
    requires Inv(s) && IsRun(s, actions)
    ensures Inv(Run(s, actions))
    decreases |actions|
  {
    if actions != [] {
      StepKeepsInv(s, actions[0]);
      RunKeepsInv(Next(s, actions[0]), actions[1..]);
    }
  }

  // ---- Reconciliation ----

  /** The ledger counts an item as often as the card was charged for it, or it is free. */
  predicate CountedAlike(it: OrderItem) {
    QuantityOf(it) >= 1 || TotalNanos(CostOf(it)) == 0
  }

  /** By itself checkout charges no less than the ledger shows, and the same exactly when no item with a
      quantity below one has a cost: the charge casts a quantity to uint32 and counts zero as one. */
  lemma {:induction false} ChargeVersusRows(shipping: Money, currency: string, items: seq<OrderItem>)
    requires AllPriced(items, currency) && forall i :: 0 <= i < |items| ==> L.ItemPresent(items[i])
    ensures TotalNanos(shipping) + L.ItemsWorth(items) <= ExactTotal(shipping, items)
    ensures TotalNanos(shipping) + L.ItemsWorth(items) == ExactTotal(shipping, items) <==>
      forall i :: 0 <= i < |items| ==> CountedAlike(items[i])
  {
    if items != [] {
      var most, it := items[..|items| - 1], items[|items| - 1];
      ChargeVersusRows(shipping, currency, most);
      assert L.ItemPresent(it) && Priced(CostOf(it), currency);
      ItemVersusRow(QuantityOf(it), TotalNanos(CostOf(it)));
      assert forall i :: 0 <= i < |most| ==> most[i] == items[i];
      assert (forall i :: 0 <= i < |items| ==> CountedAlike(items[i])) <==>
        (forall i :: 0 <= i < |most| ==> CountedAlike(most[i])) && CountedAlike(it);
    }
  }

  lemma ItemVersusRow(quantity: int32, cost: int)
    requires cost >= 0
    ensures quantity * cost <= Copies(ToUint32(quantity)) * cost
    ensures quantity * cost == Copies(ToUint32(quantity)) * cost <==> quantity >= 1 || cost == 0
  {
    var n := Copies(ToUint32(quantity));
    assert n * cost - quantity * cost == (n - quantity) * cost;
  }

  /** Behind a shipping service that quotes a cart with a zero quantity, the order would be charged one more than
      its rows show. */
  lemma ZeroQuantityIsCharged(product: string, code: string)
    ensures
      var shipping, cost := Money(code, 1, 0), Money(code, 5, 0);
      var it := OrderItem(Some(CartItem(product, 0)), Some(cost));
      && TotalOf(shipping, code, [it]) == Success(Money(code, 6, 0))
      && L.ItemsWorth([it]) == 0
  {
    var shipping, cost := Money(code, 1, 0), Money(code, 5, 0);
    var it := OrderItem(Some(CartItem(product, 0)), Some(cost));
    assert [it][..0] == [];
    assert Sum(Money(code, 0, 0), shipping) == Success(shipping);
    assert Sum(shipping, cost) == Success(Money(code, 6, 0));
    assert L.ItemsWorth([]) == 0;
  }

  /** The one charge of a call. */
  predicate ChargedOnce(log: seq<C.Event>, c: nat, i: nat) {
    && i < |log| && C.ChargeOf(log[i], c)
    && forall j :: 0 <= j < |log| && C.ChargeOf(log[j], c) ==> j == i
  }

  predicate OrderPriced(k: C.Call)
    requires k.prep.Some?
  {
    && Priced(k.prep.value.shipping, k.currency)
    && AllPriced(k.prep.value.items, k.currency)
    && Fits(ExactTotal(k.prep.value.shipping, k.prep.value.items))
  }

  /** A cart that was quoted has no quantity below one. */
  lemma PreparedIsCountedAlike(address: Option<Address>, prep: C.Prep)
    requires C.Prepared(address, prep)
    ensures forall i :: 0 <= i < |prep.items| ==> CountedAlike(prep.items[i])
  {
    Shipping.ReadableCarts(address, prep.cartItems);
  }

  /** The ledger's rows of order id, of which shipping is the only shipping row, are one order of call c, whose card
      was charged once; if the call was given valid prices that do not overflow, the rows add up to the charge. */
  ghost predicate Reconciled(s: State, id: string, c: nat, i: nat, shipping: L.ShippingRow) {
    && c in s.checkout.calls && ChargedOnce(s.checkout.log, c, i)
    && var k := s.checkout.calls[c];
       && k.prep.Some? && k.ship.Some? && k.orderId == id
       && L.Records(s.books, C.OrderOf(k)) && L.ShippingOfOrder(s.books, id) == {shipping}
       && (OrderPriced(k) ==>
             TotalNanos(shipping.cost) + L.SumOfRows(L.ItemsOfOrder(s.books, id)) ==
             TotalNanos(s.checkout.log[i].amount))
  }

  /** Said in full. */
  lemma ReconciledSays(s: State, id: string, c: nat, i: nat, shipping: L.ShippingRow)
    requires Reconciled(s, id, c, i, shipping)
    ensures
      var log, k := s.checkout.log, s.checkout.calls[c];
      && i < |log| && log[i].Charged? && log[i].call == c && k.orderId == id
      && (forall j :: 0 <= j < |log| && log[j].Charged? && log[j].call == c ==> j == i)
      && (forall q :: q in s.books.shipping && q.orderId == id <==> q == shipping)
      && (forall r :: r in s.books.items && r.orderId == id <==> L.IsRowOf(C.OrderOf(k), r))
      && (OrderPriced(k) ==>
            TotalNanos(shipping.cost) + L.SumOfRows(set r | r in s.books.items && r.orderId == id) ==
            TotalNanos(log[i].amount))
  {
    hide OrderPriced;
    var m := C.OrderOf(s.checkout.calls[c]);
    L.RowsFieldByField(m);
    forall q
      ensures q in s.books.shipping && q.orderId == id <==> q in L.ShippingOfOrder(s.books, id)
    {
    }
    forall r
      ensures r in s.books.items && r.orderId == id <==> r in L.ItemsOfOrder(s.books, id)
    {
    }
    assert (set r | r in s.books.items && r.orderId == id) == L.ItemsOfOrder(s.books, id);
  }

  lemma PublishedIsChargedOnce(s: C.State, m: OrderResult) returns (c: nat, i: nat)
    requires C.Inv(s) && m in PublishedOrders(s.log)
    ensures c in s.calls && s.calls[c].prep.Some? && s.calls[c].ship.Some? && m == C.OrderOf(s.calls[c])
    ensures ChargedOnce(s.log, c, i)
    ensures C.TotalOfCall(s.calls[c]) == Success(s.log[i].amount)
  {
    hide TotalOf, C.Prepared;
    var j :| 0 <= j < |s.log| && s.log[j].Published? && s.log[j].order == m;
    c := s.log[j].call;
    assert C.Remembered(s.calls, s.log[j]);
    assert C.InOrder(s.log, j);
    var h :| 0 <= h < j && C.ShipmentOf(s.log[h], c);
    assert C.InOrder(s.log, h);
    i :| 0 <= i < h && C.ChargeOf(s.log[i], c);
    assert C.Remembered(s.calls, s.log[i]);
    forall x | 0 <= x < |s.log| && C.ChargeOf(s.log[x], c)
      ensures x == i
    {
      assert C.InOrder(s.log, x) && C.InOrder(s.log, i);
    }
  }

  lemma OrderReconciles(s: State, id: string)
    requires Inv(s) && id in s.books.orders
    ensures exists c, i, shipping :: Reconciled(s, id, c, i, shipping)
  {
    var m :| m in PublishedOrders(s.checkout.log) && m.orderId == id && L.Records(s.books, m);
    var c, i := PublishedIsChargedOnce(s.checkout, m);
    var k := s.checkout.calls[c];
    if OrderPriced(k) {
      L.RowsAddUp(m);
      TotalIsExact(k.prep.value.shipping, k.currency, k.prep.value.items);
      ChargeVersusRows(k.prep.value.shipping, k.currency, k.prep.value.items);
      PreparedIsCountedAlike(k.address, k.prep.value);
    }
    assert Reconciled(s, id, c, i, L.ShippingOf(m));
  }

  /** End to end: after any run, every order in the ledger reconciles with the one charge made for it. */
  lemma LedgerReconciles(actions: seq<Action>)
    requires IsRun(INIT, actions)
    ensures
      var s := Run(INIT, actions);
      forall id :: id in s.books.orders ==> exists c, i, shipping :: Reconciled(s, id, c, i, shipping)
  {
    var s := Run(INIT, actions);
    RunKeepsInv(INIT, actions);
    forall id | id in s.books.orders
      ensures exists c, i, shipping :: Reconciled(s, id, c, i, shipping)
    {
      OrderReconciles(s, id);
    }
  }

  // ---- What is delivered and what is recorded ----

  /** Order ids and tracking ids are UUIDs: different calls get different ones. */
  predicate UniqueIds(calls: map<nat, C.Call>) {
    forall c, d :: c in calls && d in calls && c != d && calls[c].ship.Some? && calls[d].ship.Some? ==>
      && calls[c].orderId != calls[d].orderId
      && calls[c].ship.value.trackingId != calls[d].ship.value.trackingId
  }

  lemma StoredIsPublished(s: State)
    requires Inv(s)
    ensures L.Stored(s.delivered) <= PublishedOrders(s.checkout.log)
  {
  }

  /** A published order lacks nothing but the address its call may have lacked. */
  lemma PublishedCompleteness(s: State, m: OrderResult) returns (c: nat)
    requires Inv(s) && m in PublishedOrders(s.checkout.log)
    ensures c in s.checkout.calls && s.checkout.calls[c].prep.Some? && s.checkout.calls[c].ship.Some?
    ensures m == C.OrderOf(s.checkout.calls[c])
    ensures L.Complete(m) <==> s.checkout.calls[c].address.Some?
  {
    hide C.Inv, Store.Inv, L.Faithful, L.Effects, PublishedOrders, ChargedOnce, TotalOf;
    var i;
    c, i := PublishedIsChargedOnce(s.checkout, m);
    assert ItemsComplete(s.checkout.calls[c].prep.value.items);
  }

  lemma PublishedAreCoherent(s: State)
    requires Inv(s) && UniqueIds(s.checkout.calls)
    ensures L.Coherent(L.Stored(s.delivered))
  {
    hide Inv, L.Complete;
    StoredIsPublished(s);
    var ms := L.Stored(s.delivered);
    forall a, b | a in ms && b in ms && (a.orderId == b.orderId || a.shippingTrackingId == b.shippingTrackingId)
      ensures a == b
    {
      var c := PublishedCompleteness(s, a);
      var d := PublishedCompleteness(s, b);
    }
  }

  /** With unique ids, after any run the ledger holds exactly the orders with an address that were delivered while
      the database was up, each once, however often each message was published or delivered. An order placed without
      an address is charged, shipped and published like any other, but reading it for the ledger throws. */
  lemma LedgerHoldsWhatWasDelivered(actions: seq<Action>)
    requires IsRun(INIT, actions) && UniqueIds(Run(INIT, actions).checkout.calls)
    ensures
      var s := Run(INIT, actions);
      && s.books == L.BooksOf(L.Stored(s.delivered))
      && forall m :: m in L.Stored(s.delivered) ==>
           && (L.Records(s.books, m) <==> m.shippingAddress.Some?)
           && (m.orderId in s.books.orders <==> m.shippingAddress.Some?)
  {
    var s := Run(INIT, actions);
    RunKeepsInv(INIT, actions);
    PublishedAreCoherent(s);
    L.LedgerIsIdempotent(s.delivered);
    forall m | m in L.Stored(s.delivered)
      ensures L.Records(s.books, m) <==> m.shippingAddress.Some?
      ensures m.orderId in s.books.orders <==> m.shippingAddress.Some?
    {
      DeliveredIsRecorded(s, m);
    }
  }

  lemma DeliveredIsRecorded(s: State, m: OrderResult)
    requires Inv(s) && UniqueIds(s.checkout.calls) && m in L.Stored(s.delivered)
    requires s.books == L.BooksOf(L.Stored(s.delivered))
    ensures L.Records(s.books, m) <==> m.shippingAddress.Some?
    ensures m.orderId in s.books.orders <==> m.shippingAddress.Some?
  {
    StoredIsPublished(s);
    var c := PublishedCompleteness(s, m);
    if m.orderId in s.books.orders {
      var k :| k in PublishedOrders(s.checkout.log) && k.orderId == m.orderId && L.Records(s.books, k);
      var d := PublishedCompleteness(s, k);
      assert c == d;
    }
  }

  lemma {:induction false} RunSnoc(s: State, actions: seq<Action>, a: Action)
    requires IsRun(s, actions) && Enabled(Run(s, actions), a)
    ensures IsRun(s, actions + [a]) && Run(s, actions + [a]) == Next(Run(s, actions), a)
    decreases |actions|
  {
    if actions == [] {
      assert ([a])[1..] == [];
      assert actions + [a] == [a];
    } else {
      RunSnoc(Next(s, actions[0]), actions[1..], a);
      assert (actions + [a])[1..] == actions[1..] + [a];
    }
  }

  ghost predicate Reachable(s: State) {
    exists actions :: IsRun(INIT, actions) && Run(INIT, actions) == s
  }

  lemma ReachNext(s: State, a: Action)
    requires Reachable(s) && Enabled(s, a)
    ensures Reachable(Next(s, a))
  {
    var actions :| IsRun(INIT, actions) && Run(INIT, actions) == s;
    RunSnoc(INIT, actions, a);
  }

  /** A call for one item went through: charged, shipped, cart emptied, mailed, published, and not yet delivered. */
  ghost predicate Placed(s: State, address: Option<Address>, code: string) {
    && Reachable(s) && s.books == L.EMPTY_BOOKS && s.delivered == []
    && |s.checkout.log| == 5 && s.checkout.log[0] == C.Charged(0, Money(code, 7, 0)) && s.checkout.log[1].Shipped?
    && s.checkout.log[4].Published? && s.checkout.log[4].order.shippingAddress == address
    && s.checkout.calls.Keys == {0} && s.checkout.calls[0].prep.Some? && OrderPriced(s.checkout.calls[0])
  }

  /** Without an address the order is charged and shipped, its message delivered, and nothing recorded. */
  lemma OrderWithoutAddressIsLost(user: string, product: string, code: string)
    requires product != ""
    ensures exists s ::
      && Reachable(s)
      && |s.checkout.log| == 5 && s.checkout.log[0] == C.Charged(0, Money(code, 7, 0)) && s.checkout.log[1].Shipped?
      && s.checkout.log[4].Published? && s.delivered == [L.Delivery(Some(s.checkout.log[4].order), true)]
      && s.books == L.EMPTY_BOOKS
  {
    var s := PlaceOne(user, product, code, None);
    var a := Deliver(4, true);
    ReachNext(s, a);
    var t := Next(s, a);
    assert t.books == L.EMPTY_BOOKS;
  }

  /** With a complete address the same order is recorded, under the assumptions of the theorems above. */
  lemma OrderWithAddressIsRecorded(user: string, product: string, code: string, address: Address)
    requires product != ""
    requires "" !in [address.streetAddress, address.city, address.state, address.country, address.zipCode]
    ensures exists s ::
      && Reachable(s) && UniqueIds(s.checkout.calls)
      && (forall c :: c in s.checkout.calls ==> s.checkout.calls[c].prep.Some? && OrderPriced(s.checkout.calls[c]))
      && |s.checkout.log| == 5 && s.checkout.log[4].Published?
      && s.books.orders == {s.checkout.log[4].order.orderId}
  {
    hide OrderPriced, Reachable, Inv, L.Complete, L.Effect;
    var s := PlaceOne(user, product, code, Some(address));
    var a := Deliver(4, true);
    ReachNext(s, a);
    var t := Next(s, a);
    var m := s.checkout.log[4].order;
    assert m in PublishedOrders(s.checkout.log);
    IsReachable(s);
    var c := PublishedCompleteness(s, m);
    FirstDelivery(m);
    assert t.books.orders == {m.orderId} && t.checkout == s.checkout;
  }

  lemma FirstDelivery(m: OrderResult)
    requires L.Complete(m)
    ensures L.Effect(L.EMPTY_BOOKS, L.Delivery(Some(m), true)).orders == {m.orderId}
  {
    hide L.Complete;
    assert !L.Violates(L.EMPTY_BOOKS, m);
  }

  lemma IsReachable(s: State)
    requires Reachable(s)
    ensures Inv(s)
  {
    var actions :| IsRun(INIT, actions) && Run(INIT, actions) == s;
    RunKeepsInv(INIT, actions);
  }

  lemma PlaceOne(user: string, product: string, code: string, address: Option<Address>) returns (s: State)
    requires product != ""
    requires address.Some? ==>
      var a := address.value;
      "" !in [a.streetAddress, a.city, a.state, a.country, a.zipCode]
    ensures Placed(s, address, code)
  {
    hide Placed;
    assert IsRun(INIT, []) && Run(INIT, []) == INIT;
    s := INIT;
    var item := CartItem(product, 1);
    var steps := [Shopping(Store.ReadHalf(Store.AddRequest(user, product, 1))), Shopping(Store.WriteHalf(0))];
    ReachNext(s, steps[0]);
    s := Next(s, steps[0]);
    ReachNext(s, steps[1]);
    s := Next(s, steps[1]);
    assert CartOf(s.shop, user) == [item];
    Shipping.ReadableCarts(address, [item]);
    s := PlaceItem(s, user, item, code, address);
  }

  /** The state in which call 0 is all there is to checkout. */
  ghost predicate OneCall(s: State, k: C.Call, log: seq<C.Event>) {
    && Reachable(s) && s.books == L.EMPTY_BOOKS && s.delivered == []
    && s.checkout.calls == map[0 := k] && s.checkout.log == log
  }

  /** A step of call 0. */
  lemma OneStep(s: State, k: C.Call, log: seq<C.Event>, step: C.Action) returns (t: State)
    requires OneCall(s, k, log) && step.call == 0 && !step.Begin? && !step.Prepare? && C.InPhase(k, step)
    ensures OneCall(t, C.CallAfter(k, step), log + C.EventsOf(k, step))
  {
    hide Reachable, C.CallAfter, C.EventsOf, C.InPhase;
    ReachNext(s, Calling(step));
    t := Next(s, Calling(step));
  }

  lemma PlaceItem(s0: State, user: string, item: CartItem, code: string, address: Option<Address>) returns (s: State)
    requires Reachable(s0) && s0.checkout == C.INIT && s0.books == L.EMPTY_BOOKS && s0.delivered == []
    requires CartOf(s0.shop, user) == [item] && item.quantity == 1
    requires Shipping.Reads(Shipping.Sent(address, [item]))
    ensures Placed(s, address, code)
  {
    hide Reachable, TotalOf, Sum, ExactTotal, Placed, Shipping.Reads, Shipping.Sent;
    var shipping, cost := Money(code, 2, 0), Money(code, 5, 0);
    var prep := C.Prep([OrderItem(Some(item), Some(cost))], [item], shipping);
    OneItemTotal(shipping, cost, item, code);
    var begin, prepare := Calling(C.Begin(0, "order", user, code, address)), Calling(C.Prepare(0, Some(prep)));
    ReachNext(s0, begin);
    var s1 := Next(s0, begin);
    ReachNext(s1, prepare);
    s := Next(s1, prepare);
    var k := C.Call("order", user, code, address, Some(prep), None, None, false, C.Ready);
    assert s.checkout.log == [] && s.checkout.calls == map[0 := k];
    s := OneStep(s, k, [], C.Charge(0, C.Acknowledged));
    s := CarriedOut(s, k.(charge := Some(C.Receipt(Money(code, 7, 0), true)), phase := C.Paid));
  }

  lemma CarriedOut(s0: State, k: C.Call) returns (s: State)
    requires k.prep.Some? && k.ship.None? && k.phase == C.Paid && OrderPriced(k)
    requires k.charge == Some(C.Receipt(Money(k.currency, 7, 0), true))
    requires OneCall(s0, k, [C.Charged(0, k.charge.value.amount)])
    ensures Placed(s, k.address, k.currency)
  {
    hide Reachable, OrderPriced, TotalOf, C.Prepared;
    var log := [C.Charged(0, k.charge.value.amount)];
    s := OneStep(s0, k, log, C.Ship(0, "tracking", C.Acknowledged));
    var shipped := k.(ship := Some(C.Shipment("tracking", true)), phase := C.Dispatched);
    s := OneStep(s, shipped, log + [C.Shipped(0, "tracking")], C.EmptyCart(0, true));
    var handled := shipped.(phase := C.CartHandled);
    s := OneStep(s, handled, log + [C.Shipped(0, "tracking")] + [C.CartEmptied(0)], C.Mail(0, true));
    var mailed := handled.(phase := C.MailHandled);
    s := OneStep(s, mailed, log + [C.Shipped(0, "tracking")] + [C.CartEmptied(0)] + [C.Mailed(0, C.OrderOf(mailed))],
                 C.Publish(0, true));
    SamePrices(k, s.checkout.calls[0]);
  }

  lemma SamePrices(k: C.Call, t: C.Call)
    requires k.prep.Some? && t.prep == k.prep && t.currency == k.currency
    ensures OrderPriced(k) <==> OrderPriced(t)
  {
  }

  lemma OneItemTotal(shipping: Money, cost: Money, item: CartItem, code: string)
    requires shipping == Money(code, 2, 0) && cost == Money(code, 5, 0) && item.quantity == 1
    ensures TotalOf(shipping, code, [OrderItem(Some(item), Some(cost))]) == Success(Money(code, 7, 0))
    ensures ExactTotal(shipping, [OrderItem(Some(item), Some(cost))]) == 7 * NANOS_MOD
  {
    assert [OrderItem(Some(item), Some(cost))][..0] == [];
    assert Sum(Money(code, 0, 0), shipping) == Success(shipping);
    assert Sum(shipping, cost) == Success(Money(code, 7, 0));
  }
}
