/** The cart service's store (src/cart/src/cartstore/ValkeyCartStore.cs): an add reads the cart,
    changes it in memory and writes it back, with nothing to stop another request in between. */
module CartStore {
  import opened Base
  import opened Shop

  datatype AddRequest = AddRequest(userId: string, productId: string, quantity: int32)

  datatype StoreError = AmbiguousProduct

  /** Index of the first item for a product, or the number of items when there is none. */
  function IndexOf(items: seq<CartItem>, productId: string): (i: nat)
    ensures i <= |items|
    ensures i < |items| ==> items[i].productId == productId
    ensures forall k :: 0 <= k < i ==> items[k].productId != productId
  {
    if items == [] then 0
    else if items[0].productId == productId then 0
    else 1 + IndexOf(items[1..], productId)
  }

  /** The in-memory change between the read and the write: SingleOrDefault throws when two items
      match, and the quantities are added with int32 wrap-around. */
  function Changed(value: Option<Cart>, request: AddRequest): Result<Cart, StoreError> {
    var added := CartItem(request.productId, request.quantity);
    match value
    case None => Success(Cart(request.userId, [added]))
    case Some(cart) =>
      var i := IndexOf(cart.items, request.productId);
      if i == |cart.items| then Success(cart.(items := cart.items + [added]))
      else if IndexOf(cart.items[i + 1..], request.productId) < |cart.items| - i - 1 then Failure(AmbiguousProduct)
      else
        var sum := Wrap32(cart.items[i].quantity + request.quantity);
        Success(cart.(items := cart.items[i := CartItem(request.productId, sum)]))
  }

  const EMPTY_CART := Cart("", [])

  // ---- The store on its own, one request at a time ----

  function Lookup(db: map<string, Cart>, userId: string): Option<Cart> {
    if userId in db then Some(db[userId]) else None
  }

  /** How many of a product a stored cart holds. */
  function QuantityIn(value: Option<Cart>, productId: string): int {
    match value
    case None => 0
    case Some(cart) =>
      var i := IndexOf(cart.items, productId);
      if i < |cart.items| then cart.items[i].quantity else 0
  }

  predicate WellKept(db: map<string, Cart>) {
    forall u :: u in db ==> DistinctProducts(db[u].items)
  }

  /** The product's item has the quantity added, or comes last if there was none; the others stay where they are. */
  predicate Added(items: seq<CartItem>, productId: string, quantity: int32, after: seq<CartItem>) {
    if forall i :: 0 <= i < |items| ==> items[i].productId != productId then
      after == items + [CartItem(productId, quantity)]
    else
      && |after| == |items|
      && forall i :: 0 <= i < |items| ==>
           && (items[i].productId != productId ==> after[i] == items[i])
           && (items[i].productId == productId ==>
                 after[i] == CartItem(productId, Wrap32(items[i].quantity + quantity)))
  }

  /** The product is listed twice. */
  predicate Ambiguous(items: seq<CartItem>, productId: string) {
    exists i, j :: 0 <= i < j < |items| && items[i].productId == productId && items[j].productId == productId
  }

  /** The change succeeds unless the product is listed twice, and has the one result that adds the quantity. */
  lemma ChangedIsAdded(cart: Cart, request: AddRequest)
    ensures Changed(Some(cart), request).Failure? <==> Ambiguous(cart.items, request.productId)
    ensures Changed(Some(cart), request).Success? ==>
      var after := Changed(Some(cart), request).value;
      && after.userId == cart.userId
      && forall items :: Added(cart.items, request.productId, request.quantity, items) <==> items == after.items
  {
    hide Wrap32;
    var items, p := cart.items, request.productId;
    var i := IndexOf(items, p);
    if i < |items| {
      var rest := items[i + 1..];
      var k := IndexOf(rest, p);
      assert forall j :: i < j < |items| ==> items[j] == rest[j - i - 1];
      if k < |rest| {
        assert items[i + 1 + k].productId == p;
      } else {
        assert forall j :: 0 <= j < |items| && j != i ==> items[j].productId != p;
        var after := items[i := CartItem(p, Wrap32(items[i].quantity + request.quantity))];
        assert Changed(Some(cart), request) == Success(cart.(items := after));
        forall other
          ensures Added(items, p, request.quantity, other) <==> other == after
        {
          if Added(items, p, request.quantity, other) {
            assert forall j :: 0 <= j < |items| ==> other[j] == after[j];
          }
        }
      }
    }
  }

  class ValkeyCartStore {
    var hashes: map<string, Cart>

    constructor ()
      ensures hashes == map[] && WellKept(hashes)
    {
      hashes := map[];
    }

    /** An undisturbed add. The exception branch is dead in a well-kept store. */
    method AddItemAsync(userId: string, productId: string, quantity: int32) returns (ok: bool)
      modifies this
      ensures WellKept(old(hashes)) ==> ok && WellKept(hashes)
      ensures ok <==> userId !in old(hashes) || !Ambiguous(old(hashes)[userId].items, productId)
      ensures !ok ==> hashes == old(hashes)
      ensures ok ==>
        && userId in hashes
        && (forall u :: u != userId ==> Lookup(hashes, u) == Lookup(old(hashes), u))
        && (forall p :: p != productId ==>
              QuantityIn(Lookup(hashes, userId), p) == QuantityIn(Lookup(old(hashes), userId), p))
        && QuantityIn(Lookup(hashes, userId), productId) ==
             Wrap32(QuantityIn(Lookup(old(hashes), userId), productId) + quantity)
      ensures ok && userId !in old(hashes) ==> hashes[userId] == Cart(userId, [CartItem(productId, quantity)])
      ensures ok && userId in old(hashes) ==>
        && hashes[userId].userId == old(hashes)[userId].userId
        && Added(old(hashes)[userId].items, productId, quantity, hashes[userId].items)
    {
      var request := AddRequest(userId, productId, quantity);
      var value := Lookup(hashes, userId);
      var cart := Changed(value, request);
      if value.Some? {
        ChangedIsAdded(value.value, request);
      }
      if cart.Failure? {
        ok := false;
        return;
      }
      ChangedQuantities(value, request);
      hashes := hashes[userId := cart.value];
      ok := true;
    }

    method EmptyCartAsync(userId: string)
      modifies this
      ensures hashes == old(hashes)[userId := Cart("", [])]
    {
      hashes := hashes[userId := EMPTY_CART];
    }

    method GetCartAsync(userId: string) returns (cart: Cart)
      ensures userId in hashes ==> cart == hashes[userId]
      ensures userId !in hashes ==> cart == Cart("", [])
      ensures forall p :: QuantityIn(Some(cart), p) == QuantityIn(Lookup(hashes, userId), p)
      ensures WellKept(hashes) ==> DistinctProducts(cart.items)
    {
      if userId in hashes {
        cart := hashes[userId];
      } else {
        cart := EMPTY_CART;
      }
    }
  }

  /** The change adds the quantity to its product, leaves the others, and keeps the products
      distinct. */
  lemma ChangedQuantities(value: Option<Cart>, request: AddRequest)
    ensures
      var c := Changed(value, request);
      && (value.None? || DistinctProducts(value.value.items) ==> c.Success? && DistinctProducts(c.value.items))
      && (c.Success? ==>
            && QuantityIn(Some(c.value), request.productId) ==
                 Wrap32(QuantityIn(value, request.productId) + request.quantity)
            && forall p :: p != request.productId ==> QuantityIn(Some(c.value), p) == QuantityIn(value, p))
  {
    if value.None? {
      Wrap32Cases(request.quantity);
    } else {
      hide Wrap32, DistinctProducts;
      var items := value.value.items;
      var i := IndexOf(items, request.productId);
      var c := Changed(value, request);
      if DistinctProducts(items) {
        ChangedStaysDistinct(value.value, request);
      }
      if c.Success? {
        forall p | p != request.productId
          ensures QuantityIn(Some(c.value), p) == QuantityIn(value, p)
        {
          IndexOfElsewhere(items, c.value.items, p);
        }
        Wrap32Cases(request.quantity);
        IndexOfSame(items, c.value.items, i, request.productId);
      }
    }
  }

  lemma ChangedStaysDistinct(cart: Cart, request: AddRequest)
    requires DistinctProducts(cart.items)
    ensures
      var c := Changed(Some(cart), request);
      c.Success? && DistinctProducts(c.value.items)
  {
    hide Wrap32;
    var i := IndexOf(cart.items, request.productId);
    if i < |cart.items| {
      var rest := cart.items[i + 1..];
      forall k | 0 <= k < |rest| ensures rest[k].productId != request.productId {
        assert rest[k] == cart.items[i + 1 + k];
      }
      IndexOfIs(rest, request.productId, |rest|);
    }
  }

  lemma IndexOfIs(items: seq<CartItem>, productId: string, i: nat)
    requires i <= |items|
    requires i < |items| ==> items[i].productId == productId
    requires forall k :: 0 <= k < i ==> items[k].productId != productId
    ensures IndexOf(items, productId) == i
  {
  }

  lemma IndexOfSame(items: seq<CartItem>, after: seq<CartItem>, i: nat, productId: string)
    requires i == IndexOf(items, productId) && i < |after|
    requires after[..i] == items[..i] && after[i].productId == productId
    ensures IndexOf(after, productId) == i
  {
    forall k | 0 <= k < i ensures after[k].productId != productId {
      assert after[k] == after[..i][k] == items[..i][k];
    }
    IndexOfIs(after, productId, i);
  }

  /** Replacing or appending an item of another product does not move p. */
  lemma IndexOfElsewhere(items: seq<CartItem>, after: seq<CartItem>, p: string)
    requires |items| <= |after| <= |items| + 1
    requires forall k :: 0 <= k < |items| ==>
      items[k] == after[k] || (items[k].productId != p && after[k].productId != p)
    requires |after| > |items| ==> after[|items|].productId != p
    ensures QuantityIn(Some(Cart("", after)), p) == QuantityIn(Some(Cart("", items)), p)
  {
    var i := IndexOf(items, p);
    if i < |items| {
      IndexOfIs(after, p, i);
    } else {
      IndexOfIs(after, p, |after|);
    }
  }

  // ---- Interleaved requests ----

  /** The stored carts, every add whose read half has run, the carts that adds have computed but not yet
      written back, by the add's number, and the numbers of the adds that have been written. */
  datatype State = State(db: map<string, Cart>, adds: seq<AddRequest>, inFlight: map<nat, Cart>, landed: set<nat>)

  const INIT := State(map[], [], map[], {})

  datatype Action =
    | ReadHalf(request: AddRequest)
    | WriteHalf(id: nat)
    | WriteFails(id: nat)
    | Empty(userId: string)
    | Expire(userId: string)

  predicate Enabled(s: State, a: Action) {
    (a.WriteHalf? || a.WriteFails?) ==> a.id in s.inFlight && a.id < |s.adds|
  }

  function Next(s: State, a: Action): State
    requires Enabled(s, a)
  {
    match a
    case ReadHalf(request) =>
      var cart := Changed(Lookup(s.db, request.userId), request);
      if cart.Failure? then s.(adds := s.adds + [request])
      else s.(adds := s.adds + [request], inFlight := s.inFlight[|s.adds| := cart.value])
    case WriteHalf(id) =>
      s.(db := s.db[s.adds[id].userId := s.inFlight[id]], inFlight := s.inFlight - {id}, landed := s.landed + {id})
    case WriteFails(id) => s.(inFlight := s.inFlight - {id})
    case Empty(userId) => s.(db := s.db[userId := EMPTY_CART])
    case Expire(userId) => s.(db := s.db - {userId})
  }

  predicate IsRun(s: State, actions: seq<Action>)
    decreases |actions|
  {
    actions == [] || (Enabled(s, actions[0]) && IsRun(Next(s, actions[0]), actions[1..]))
  }

  function Run(s: State, actions: seq<Action>): State
    requires IsRun(s, actions)
    decreases |actions|
  {
    if actions == [] then s else Run(Next(s, actions[0]), actions[1..])
  }

  function SumOfAdds(adds: seq<AddRequest>, ids: seq<nat>): int
    requires forall i :: 0 <= i < |ids| ==> ids[i] < |adds|
  {
    if ids == [] then 0
    else SumOfAdds(adds, ids[..|ids| - 1]) + adds[ids[|ids| - 1]].quantity
  }

  /** ids are different adds of one product to one user's cart, all among the given ones. */
  predicate AddsOf(adds: seq<AddRequest>, among: set<nat>, userId: string, productId: string, ids: seq<nat>) {
    && (forall i :: 0 <= i < |ids| ==>
          ids[i] in among && ids[i] < |adds| && adds[ids[i]].userId == userId && adds[ids[i]].productId == productId)
    && (forall i, j :: 0 <= i < j < |ids| ==> ids[i] != ids[j])
  }

  ghost predicate ItemSourced(adds: seq<AddRequest>, among: set<nat>, userId: string, item: CartItem) {
    exists ids: seq<nat> ::
      AddsOf(adds, among, userId, item.productId, ids) && item.quantity == Wrap32(SumOfAdds(adds, ids))
  }

  /** Nothing in the cart is invented: every quantity is the sum of different adds among the given ones. */
  ghost predicate Sourced(adds: seq<AddRequest>, among: set<nat>, userId: string, cart: Cart) {
    && DistinctProducts(cart.items)
    && forall i :: 0 <= i < |cart.items| ==> ItemSourced(adds, among, userId, cart.items[i])
  }

  /** A stored cart comes from adds that were written, an in-flight one from these and its own add. */
  ghost predicate Inv(s: State) {
    && (forall u :: u in s.db ==> Sourced(s.adds, s.landed, u, s.db[u]))
    && forall id :: id in s.inFlight ==>
        id < |s.adds| && Sourced(s.adds, s.landed + {id}, s.adds[id].userId, s.inFlight[id])
  }

  lemma {:induction false} SumOfAddsGrows(adds: seq<AddRequest>, request: AddRequest, ids: seq<nat>)
    requires forall i :: 0 <= i < |ids| ==> ids[i] < |adds|
    ensures SumOfAdds(adds + [request], ids) == SumOfAdds(adds, ids)
  {
    if ids != [] {
      SumOfAddsGrows(adds, request, ids[..|ids| - 1]);
    }
  }

  lemma SourcedGrows(adds: seq<AddRequest>, request: AddRequest, among: set<nat>, userId: string, cart: Cart)
    requires Sourced(adds, among, userId, cart)
    ensures Sourced(adds + [request], among, userId, cart)
  {
    forall i | 0 <= i < |cart.items|
      ensures ItemSourced(adds + [request], among, userId, cart.items[i])
    {
      var item := cart.items[i];
      var ids: seq<nat> :|
        AddsOf(adds, among, userId, item.productId, ids) && item.quantity == Wrap32(SumOfAdds(adds, ids));
      SumOfAddsGrows(adds, request, ids);
      assert AddsOf(adds + [request], among, userId, item.productId, ids);
    }
  }

  lemma SourcedAmongMore(adds: seq<AddRequest>, among: set<nat>, more: set<nat>, userId: string, cart: Cart)
    requires Sourced(adds, among, userId, cart) && among <= more
    ensures Sourced(adds, more, userId, cart)
  {
    forall i | 0 <= i < |cart.items|
      ensures ItemSourced(adds, more, userId, cart.items[i])
    {
      var item := cart.items[i];
      var ids: seq<nat> :|
        AddsOf(adds, among, userId, item.productId, ids) && item.quantity == Wrap32(SumOfAdds(adds, ids));
      assert AddsOf(adds, more, userId, item.productId, ids);
    }
  }

  lemma SumOfMore(adds: seq<AddRequest>, request: AddRequest, ids: seq<nat>)
    requires forall i :: 0 <= i < |ids| ==> ids[i] < |adds|
    ensures SumOfAdds(adds + [request], ids + [|adds|]) == SumOfAdds(adds, ids) + request.quantity
  {
    SumOfAddsGrows(adds, request, ids);
    assert (ids + [|adds|])[..|ids|] == ids;
  }

  /** The new add joins the adds that its product already came from. */
  lemma SourcedJoins(adds: seq<AddRequest>, among: set<nat>, request: AddRequest, before: CartItem)
    requires ItemSourced(adds, among, request.userId, before) && before.productId == request.productId
    ensures ItemSourced(adds + [request], among + {|adds|}, request.userId,
                        before.(quantity := Wrap32(before.quantity + request.quantity)))
  {
    hide Wrap32;
    var ids: seq<nat> :|
      AddsOf(adds, among, request.userId, request.productId, ids) && before.quantity == Wrap32(SumOfAdds(adds, ids));
    SumOfMore(adds, request, ids);
    Wrap32OfSum(SumOfAdds(adds, ids), request.quantity);
    JoinedAdds(adds, among, request, ids);
  }

  lemma JoinedAdds(adds: seq<AddRequest>, among: set<nat>, request: AddRequest, ids: seq<nat>)
    requires AddsOf(adds, among, request.userId, request.productId, ids)
    ensures AddsOf(adds + [request], among + {|adds|}, request.userId, request.productId, ids + [|adds|])
  {
  }

  lemma ChangedSourced(adds: seq<AddRequest>, among: set<nat>, value: Option<Cart>, request: AddRequest)
    requires value.Some? ==> Sourced(adds, among, request.userId, value.value)
    ensures
      var c := Changed(value, request);
      c.Success? && Sourced(adds + [request], among + {|adds|}, request.userId, c.value)
  {
    hide ItemSourced, Wrap32;
    ChangedQuantities(value, request);
    var cart := Changed(value, request).value;
    var i := if value.Some? then IndexOf(value.value.items, request.productId) else 0;
    var after, more := adds + [request], among + {|adds|};
    if value.Some? {
      SourcedGrows(adds, request, among, request.userId, value.value);
      SourcedAmongMore(after, among, more, request.userId, value.value);
    }
    if value.Some? && i < |value.value.items| {
      SourcedJoins(adds, among, request, value.value.items[i]);
    } else {
      NoAdds(adds, among, request);
      SourcedJoins(adds, among, request, CartItem(request.productId, 0));
    }
    assert ItemSourced(after, more, request.userId, cart.items[i]);
    forall k | 0 <= k < |cart.items| && k != i
      ensures ItemSourced(after, more, request.userId, cart.items[k])
    {
      assert cart.items[k] == value.value.items[k];
    }
  }

  lemma NoAdds(adds: seq<AddRequest>, among: set<nat>, request: AddRequest)
    ensures ItemSourced(adds, among, request.userId, CartItem(request.productId, 0))
    ensures Wrap32(request.quantity) == request.quantity
  {
    Wrap32Cases(0);
    Wrap32Cases(request.quantity);
    assert AddsOf(adds, among, request.userId, request.productId, []) && 0 == Wrap32(SumOfAdds(adds, []));
  }

  /** One step keeps every stored and in-flight cart sourced. */
  lemma StepKeepsSourced(s: State, a: Action)
    requires Inv(s) && Enabled(s, a)
    ensures Inv(Next(s, a))
  {
    hide Sourced, Changed;
    var t := Next(s, a);
    if a.ReadHalf? {
      ChangedSourced(s.adds, s.landed, Lookup(s.db, a.request.userId), a.request);
      forall u | u in s.db
        ensures Sourced(t.adds, t.landed, u, t.db[u])
      {
        SourcedGrows(s.adds, a.request, s.landed, u, s.db[u]);
      }
      forall id | id in s.inFlight
        ensures Sourced(t.adds, t.landed + {id}, t.adds[id].userId, t.inFlight[id])
      {
        SourcedGrows(s.adds, a.request, s.landed + {id}, s.adds[id].userId, s.inFlight[id]);
      }
    } else if a.WriteHalf? {
      forall u | u in s.db
        ensures Sourced(t.adds, t.landed, u, s.db[u])
      {
        SourcedAmongMore(s.adds, s.landed, t.landed, u, s.db[u]);
      }
      forall id | id in s.inFlight
        ensures Sourced(t.adds, t.landed + {id}, t.adds[id].userId, s.inFlight[id])
      {
        SourcedAmongMore(s.adds, s.landed + {id}, t.landed + {id}, s.adds[id].userId, s.inFlight[id]);
      }
    } else if a.Empty? {
      EmptySourced(s.adds, s.landed, a.userId);
    }
  }

  lemma EmptySourced(adds: seq<AddRequest>, among: set<nat>, userId: string)
    ensures Sourced(adds, among, userId, EMPTY_CART)
  {
  }

  /** Under every interleaving of adds, empties, expiries and failed writes, carts list a product
      once and no quantity is invented; an add may be lost. */
  lemma {:induction false} NothingInvented(s: State, actions: seq<Action>)
    requires Inv(s) && IsRun(s, actions)
    ensures Inv(Run(s, actions))
    decreases |actions|
  {
    if actions != [] {
      StepKeepsSourced(s, actions[0]);
      NothingInvented(Next(s, actions[0]), actions[1..]);
    }
  }

  /** Written adds were written, and every add was read, by an action of the past. */
  ghost predicate Traced(s: State, past: seq<Action>) {
    && (forall id :: id in s.landed ==> WriteHalf(id) in past)
    && forall id: nat :: id < |s.adds| ==> ReadHalf(s.adds[id]) in past
  }

  lemma {:induction false} StaysTraced(s: State, actions: seq<Action>, past: seq<Action>)
    requires IsRun(s, actions) && Traced(s, past)
    ensures Traced(Run(s, actions), past + actions)
    decreases |actions|
  {
    if actions == [] {
      assert past + actions == past;
    } else {
      assert forall a :: a in past + [actions[0]] <==> a in past || a == actions[0];
      StaysTraced(Next(s, actions[0]), actions[1..], past + [actions[0]]);
      assert past + [actions[0]] + actions[1..] == past + actions;
    }
  }

  /** From the empty store, every quantity is the wrapped sum of different adds of that product to that cart, each of
      which was read and was written in the run. */
  lemma EveryQuantityWasAdded(actions: seq<Action>, userId: string, i: nat)
    requires IsRun(INIT, actions)
    requires userId in Run(INIT, actions).db && i < |Run(INIT, actions).db[userId].items|
    ensures
      var s := Run(INIT, actions);
      var item := s.db[userId].items[i];
      exists ids: seq<nat> ::
        && (forall j, k :: 0 <= j < k < |ids| ==> ids[j] != ids[k])
        && (forall k :: 0 <= k < |ids| ==> ids[k] < |s.adds| && WriteHalf(ids[k]) in actions)
        && (forall k :: 0 <= k < |ids| ==>
              var add := s.adds[ids[k]];
              ReadHalf(add) in actions && add.userId == userId && add.productId == item.productId)
        && item.quantity == Wrap32(SumOfAdds(s.adds, ids))
  {
    hide Wrap32, Next, IsRun, Run, SumOfAdds, Enabled;
    var s := Run(INIT, actions);
    NothingInvented(INIT, actions);
    StaysTraced(INIT, actions, []);
    assert [] + actions == actions;
    var item := s.db[userId].items[i];
    assert ItemSourced(s.adds, s.landed, userId, item);
    var ids: seq<nat> :|
      AddsOf(s.adds, s.landed, userId, item.productId, ids) && item.quantity == Wrap32(SumOfAdds(s.adds, ids));
    assert forall k :: 0 <= k < |ids| ==> ids[k] < |s.adds| && WriteHalf(ids[k]) in actions;
  }

  // ---- When updates are lost ----

  /** Two adds that both read before either writes: the first one is lost. */
  lemma LostUpdate(u: string, p: string)
    ensures
      var add := AddRequest(u, p, 1);
      var actions := [ReadHalf(add), ReadHalf(add), WriteHalf(0), WriteHalf(1)];
      IsRun(INIT, actions) && QuantityIn(Lookup(Run(INIT, actions).db, u), p) == 1
  {
    var add := AddRequest(u, p, 1);
    var actions := [ReadHalf(add), ReadHalf(add), WriteHalf(0), WriteHalf(1)];
    var s1 := Next(INIT, actions[0]);
    var s2 := Next(s1, actions[1]);
    var s3 := Next(s2, actions[2]);
    var s4 := Next(s3, actions[3]);
    assert s4.db[u] == Cart(u, [CartItem(p, 1)]);
    var a1 := actions[1..];
    var a2 := a1[1..];
    var a3 := a2[1..];
    assert a3[1..] == [];
    assert IsRun(s3, a3) && Run(s3, a3) == s4;
    assert IsRun(s2, a2) && Run(s2, a2) == s4;
    assert IsRun(s1, a1) && Run(s1, a1) == s4;
  }

  /** The user whose cart an action touches. */
  function UserOf(s: State, a: Action): string
    requires Enabled(s, a)
  {
    match a
    case ReadHalf(request) => request.userId
    case WriteHalf(id) => s.adds[id].userId
    case WriteFails(id) => s.adds[id].userId
    case Empty(userId) => userId
    case Expire(userId) => userId
  }

  /** No add of this user is between its two halves. */
  predicate Idle(s: State, userId: string) {
    forall id :: id in s.inFlight && id < |s.adds| ==> s.adds[id].userId != userId
  }

  /** Every user's adds run one at a time, and no empty or expiry falls inside one. The store
      does not enforce this. */
  predicate OneAtATime(s: State, actions: seq<Action>)
    requires IsRun(s, actions)
    decreases |actions|
  {
    actions == [] ||
    (((actions[0].WriteHalf? || actions[0].WriteFails?) || Idle(s, UserOf(s, actions[0])))
     && OneAtATime(Next(s, actions[0]), actions[1..]))
  }

  /** What an action adds to the user's count of p: the quantity of a completed add of p, or nothing
      at all from an empty or expiry on. */
  function Counted(s: State, a: Action, userId: string, p: string, acc: int): int
    requires Enabled(s, a)
  {
    if UserOf(s, a) != userId then acc
    else if a.Empty? || a.Expire? then 0
    else if a.WriteHalf? && s.adds[a.id].productId == p then acc + s.adds[a.id].quantity
    else acc
  }

  /** What the user was told: the quantities of the completed adds of p since the cart was last
      emptied or expired, starting from acc. */
  function Tally(s: State, actions: seq<Action>, userId: string, p: string, acc: int): int
    requires IsRun(s, actions)
    decreases |actions|
  {
    if actions == [] then acc
    else Tally(Next(s, actions[0]), actions[1..], userId, p, Counted(s, actions[0], userId, p, acc))
  }

  /** Each in-flight cart is the change of the cart that is stored now. */
  predicate UpToDate(s: State) {
    forall id :: id in s.inFlight ==>
      id < |s.adds| && Changed(Lookup(s.db, s.adds[id].userId), s.adds[id]) == Success(s.inFlight[id])
  }

  /** Two different in-flight adds belong to different users. */
  predicate OnePerUser(s: State) {
    forall i, j :: i in s.inFlight && j in s.inFlight && i < |s.adds| && j < |s.adds| && i != j ==>
      s.adds[i].userId != s.adds[j].userId
  }

  lemma StepStaysUpToDate(s: State, a: Action)
    requires Enabled(s, a) && UpToDate(s) && OnePerUser(s)
    requires a.WriteHalf? || a.WriteFails? || Idle(s, UserOf(s, a))
    ensures UpToDate(Next(s, a)) && OnePerUser(Next(s, a))
  {
    var t := Next(s, a);
    forall id | id in t.inFlight
      ensures id < |t.adds| && Changed(Lookup(t.db, t.adds[id].userId), t.adds[id]) == Success(t.inFlight[id])
    {
      if id in s.inFlight {
        assert t.adds[id] == s.adds[id];
        assert UserOf(s, a) != s.adds[id].userId || a.WriteFails?;
      }
    }
  }

  /** With one add at a time per user, no add is lost: the stored quantity is the tally. */
  lemma {:induction false} OneAtATimeLosesNothing(s: State, actions: seq<Action>, userId: string, p: string, acc: int)
    requires IsRun(s, actions) && OneAtATime(s, actions) && UpToDate(s) && OnePerUser(s)
    requires QuantityIn(Lookup(s.db, userId), p) == Wrap32(acc)
    ensures QuantityIn(Lookup(Run(s, actions).db, userId), p) == Wrap32(Tally(s, actions, userId, p, acc))
    decreases |actions|
  {
    if actions != [] {
      hide Counted, QuantityIn, UpToDate, OnePerUser, Next;
      var a := actions[0];
      StepStaysUpToDate(s, a);
      StepIsCounted(s, a, userId, p, acc);
      OneAtATimeLosesNothing(Next(s, a), actions[1..], userId, p, Counted(s, a, userId, p, acc));
    }
  }

  lemma InTurnCons(s: State, a: Action, rest: seq<Action>)
    requires Enabled(s, a) && IsRun(Next(s, a), rest) && OneAtATime(Next(s, a), rest)
    requires a.WriteHalf? || a.WriteFails? || Idle(s, UserOf(s, a))
    ensures IsRun(s, [a] + rest) && OneAtATime(s, [a] + rest) && Run(s, [a] + rest) == Run(Next(s, a), rest)
  {
    hide Next, Idle;
    assert ([a] + rest)[1..] == rest;
  }

  /** The adds that lose one when they overlap, one after the other. */
  lemma AddsInTurn(u: string, p: string)
    ensures UpToDate(INIT) && OnePerUser(INIT)
    ensures
      var add := AddRequest(u, p, 1);
      var actions := [ReadHalf(add), WriteHalf(0), ReadHalf(add), WriteHalf(1)];
      IsRun(INIT, actions) && OneAtATime(INIT, actions) && QuantityIn(Lookup(Run(INIT, actions).db, u), p) == 2
  {
    var add := AddRequest(u, p, 1);
    var actions := [ReadHalf(add), WriteHalf(0), ReadHalf(add), WriteHalf(1)];
    var s1 := Next(INIT, actions[0]);
    var s2 := Next(s1, actions[1]);
    assert s2.db[u] == Cart(u, [CartItem(p, 1)]) && s2.inFlight == map[];
    Wrap32Cases(2);
    var s3 := Next(s2, actions[2]);
    assert s3.inFlight[1] == Cart(u, [CartItem(p, 2)]);
    var s4 := Next(s3, actions[3]);
    assert s4.db[u] == Cart(u, [CartItem(p, 2)]);
    InTurnCons(s3, actions[3], []);
    InTurnCons(s2, actions[2], [actions[3]]);
    InTurnCons(s1, actions[1], [actions[2]] + [actions[3]]);
    InTurnCons(INIT, actions[0], [actions[1]] + ([actions[2]] + [actions[3]]));
    assert [actions[3]] + [] == [actions[3]];
    assert [actions[0]] + ([actions[1]] + ([actions[2]] + [actions[3]])) == actions;
  }

  lemma StepIsCounted(s: State, a: Action, userId: string, p: string, acc: int)
    requires Enabled(s, a) && UpToDate(s)
    requires QuantityIn(Lookup(s.db, userId), p) == Wrap32(acc)
    ensures QuantityIn(Lookup(Next(s, a).db, userId), p) == Wrap32(Counted(s, a, userId, p, acc))
  {
    hide Changed, Wrap32;
    Wrap32Cases(0);
    if a.WriteHalf? && UserOf(s, a) == userId {
      ChangedQuantities(Lookup(s.db, userId), s.adds[a.id]);
      Wrap32OfSum(acc, s.adds[a.id].quantity);
    }
  }

  // ---- Exactly when updates are lost ----

  /** The state before action j. */
  function Before(s: State, actions: seq<Action>, j: nat): State
    requires IsRun(s, actions) && j <= |actions|
    decreases |actions|
  {
    if j == 0 then s else Before(Next(s, actions[0]), actions[1..], j - 1)
  }

  lemma {:induction false} BeforeIsEnabled(s: State, actions: seq<Action>, j: nat)
    requires IsRun(s, actions) && j < |actions|
    ensures Enabled(Before(s, actions, j), actions[j])
    decreases |actions|
  {
    if j > 0 {
      BeforeIsEnabled(Next(s, actions[0]), actions[1..], j - 1);
    }
  }

  /** Action j writes back an add to the user's cart. */
  predicate Lands(s: State, actions: seq<Action>, userId: string, j: nat)
    requires IsRun(s, actions) && j < |actions|
  {
    && actions[j].WriteHalf?
    && var b := Before(s, actions, j);
       actions[j].id < |b.adds| && b.adds[actions[j].id].userId == userId
  }

  /** Write j falls between the read and the write of the add that write k lands: the add had been read before. */
  predicate Overtakes(s: State, actions: seq<Action>, userId: string, j: nat, k: nat)
    requires IsRun(s, actions)
  {
    && j < k < |actions|
    && Lands(s, actions, userId, j) && Lands(s, actions, userId, k)
    && actions[k].id < |Before(s, actions, j).adds|
  }

  /** An action that does no more to the cart than add a positive quantity. */
  predicate AddsOnly(a: Action, userId: string) {
    match a
    case ReadHalf(request) => request.userId == userId ==> request.quantity >= 1
    case Empty(u) => u != userId
    case Expire(u) => u != userId
    case _ => true
  }

  /** The adds of the user have positive quantities, and nothing but adds changes the cart. */
  predicate OnlyAdds(s: State, actions: seq<Action>, userId: string)
    requires IsRun(s, actions)
    decreases |actions|
  {
    actions == [] ||
    (AddsOnly(actions[0], userId) && OnlyAdds(Next(s, actions[0]), actions[1..], userId))
  }

  /** Some add lands that was read before the last write to the cart so far; these are the adds below mark. */
  predicate Stale(s: State, actions: seq<Action>, userId: string, mark: nat)
    requires IsRun(s, actions)
    decreases |actions|
  {
    actions != [] &&
    var a := actions[0];
    if a.WriteHalf? && s.adds[a.id].userId == userId
    then a.id < mark || Stale(Next(s, a), actions[1..], userId, |s.adds|)
    else Stale(Next(s, a), actions[1..], userId, mark)
  }

  ghost predicate LandsBelow(s: State, actions: seq<Action>, userId: string, mark: nat)
    requires IsRun(s, actions)
  {
    exists k :: 0 <= k < |actions| && Lands(s, actions, userId, k) && actions[k].id < mark
  }

  ghost predicate Overtaken(s: State, actions: seq<Action>, userId: string)
    requires IsRun(s, actions)
  {
    exists j: nat, k: nat :: Overtakes(s, actions, userId, j, k)
  }

  lemma LandsCons(s: State, actions: seq<Action>, userId: string, mark: nat)
    requires IsRun(s, actions) && actions != []
    ensures LandsBelow(s, actions, userId, mark) <==>
      || (Lands(s, actions, userId, 0) && actions[0].id < mark)
      || LandsBelow(Next(s, actions[0]), actions[1..], userId, mark)
  {
    var t, rest := Next(s, actions[0]), actions[1..];
    assert forall k :: 0 <= k < |rest| ==> (Lands(t, rest, userId, k) <==> Lands(s, actions, userId, k + 1));
    if k :| 0 <= k < |actions| && Lands(s, actions, userId, k) && actions[k].id < mark {
      if k > 0 {
        assert Lands(t, rest, userId, k - 1) && rest[k - 1].id < mark;
      }
    }
    if k :| 0 <= k < |rest| && Lands(t, rest, userId, k) && rest[k].id < mark {
      assert Lands(s, actions, userId, k + 1) && actions[k + 1].id < mark;
    }
  }

  lemma OvertakenCons(s: State, actions: seq<Action>, userId: string)
    requires IsRun(s, actions) && actions != []
    ensures
      var t, rest := Next(s, actions[0]), actions[1..];
      Overtaken(s, actions, userId) <==>
        || (Lands(s, actions, userId, 0) && LandsBelow(t, rest, userId, |s.adds|))
        || Overtaken(t, rest, userId)
  {
    var t, rest := Next(s, actions[0]), actions[1..];
    if j: nat, k: nat :| Overtakes(s, actions, userId, j, k) {
      assert Lands(t, rest, userId, k - 1);
      if j > 0 {
        assert Overtakes(t, rest, userId, j - 1, k - 1);
      }
    }
    if j: nat, k: nat :| Overtakes(t, rest, userId, j, k) {
      assert Overtakes(s, actions, userId, j + 1, k + 1);
    }
    if Lands(s, actions, userId, 0) && LandsBelow(t, rest, userId, |s.adds|) {
      var k :| 0 <= k < |rest| && Lands(t, rest, userId, k) && rest[k].id < |s.adds|;
      assert Overtakes(s, actions, userId, 0, k + 1);
    }
  }

  lemma MarkGrows(s: State, actions: seq<Action>, userId: string, mark: nat, more: nat)
    requires IsRun(s, actions) && mark <= more && LandsBelow(s, actions, userId, mark)
    ensures LandsBelow(s, actions, userId, more)
  {
  }

  lemma {:induction false} StaleIsOvertaken(s: State, actions: seq<Action>, userId: string, mark: nat)
    requires IsRun(s, actions) && mark <= |s.adds|
    ensures Stale(s, actions, userId, mark) <==> LandsBelow(s, actions, userId, mark) || Overtaken(s, actions, userId)
    decreases |actions|
  {
    if actions == [] {
      assert !LandsBelow(s, actions, userId, mark) && !Overtaken(s, actions, userId);
    } else {
      hide LandsBelow, Overtaken;
      var t, rest := Next(s, actions[0]), actions[1..];
      LandsCons(s, actions, userId, mark);
      OvertakenCons(s, actions, userId);
      if LandsBelow(t, rest, userId, mark) {
        MarkGrows(t, rest, userId, mark, |s.adds|);
      }
      StaleIsOvertaken(t, rest, userId, if Lands(s, actions, userId, 0) then |s.adds| else mark);
    }
  }

  ghost predicate Undercounts(value: Option<Cart>, acc: string -> int) {
    forall p :: QuantityIn(value, p) <= acc(p)
  }

  ghost predicate Misses(value: Option<Cart>, acc: string -> int) {
    exists p :: QuantityIn(value, p) != acc(p)
  }

  /** An in-flight add of the user that read value: it has read the cart as it is stored if its number is at least
      mark, and otherwise misses something the user was told. */
  ghost predicate Tracked(s: State, id: nat, value: Option<Cart>, acc: string -> int, mark: nat)
    requires id in s.inFlight && id < |s.adds|
  {
    && s.adds[id].quantity >= 1
    && Changed(value, s.adds[id]) == Success(s.inFlight[id])
    && Undercounts(value, acc)
    && (if id < mark then Misses(value, acc) else value == Lookup(s.db, s.adds[id].userId))
  }

  /** The stored cart against what the user was told so far, and what every in-flight add has seen. */
  ghost predicate Accounted(s: State, userId: string, seen: map<nat, Option<Cart>>, acc: string -> int, mark: nat,
                            lost: bool)
  {
    && mark <= |s.adds|
    && Undercounts(Lookup(s.db, userId), acc)
    && (lost <==> Misses(Lookup(s.db, userId), acc))
    && forall id :: id in s.inFlight ==>
         && id < |s.adds|
         && (s.adds[id].userId == userId ==> id in seen && Tracked(s, id, seen[id], acc, mark))
  }

  function CountedAll(s: State, a: Action, userId: string, acc: string -> int): string -> int {
    p => if Enabled(s, a) then Counted(s, a, userId, p, acc(p)) else 0
  }

  function Seen(s: State, a: Action, seen: map<nat, Option<Cart>>): map<nat, Option<Cart>> {
    if a.ReadHalf? then seen[|s.adds| := Lookup(s.db, a.request.userId)] else seen
  }

  /** A landing add changes what is stored by its own quantity, counted from what it had read. */
  lemma LandedQuantities(value: Option<Cart>, request: AddRequest, cart: Cart, acc: string -> int, acc': string -> int)
    requires Changed(value, request) == Success(cart) && request.quantity >= 1
    requires Undercounts(value, acc) && acc'(request.productId) < TWO_31
    requires forall p :: acc'(p) == acc(p) + if p == request.productId then request.quantity else 0
    ensures Undercounts(Some(cart), acc') && (Misses(Some(cart), acc') <==> Misses(value, acc))
  {
    hide Changed;
    var product := request.productId;
    ChangedQuantities(value, request);
    Wrap32Cases(QuantityIn(value, product) + request.quantity);
    forall p
      ensures QuantityIn(Some(cart), p) - QuantityIn(value, p) == acc'(p) - acc(p)
    {
      assert acc'(p) == acc(p) + if p == product then request.quantity else 0;
      assert QuantityIn(value, product) <= acc(product);
    }
    if p :| QuantityIn(value, p) != acc(p) {
      assert QuantityIn(Some(cart), p) != acc'(p);
    }
    if p :| QuantityIn(Some(cart), p) != acc'(p) {
      assert QuantityIn(value, p) != acc(p);
    }
  }

  lemma LandingIsAccounted(s: State, id: nat, seen: map<nat, Option<Cart>>, acc: string -> int, mark: nat, lost: bool)
    requires Enabled(s, WriteHalf(id)) && Accounted(s, s.adds[id].userId, seen, acc, mark, lost)
    requires forall p :: Counted(s, WriteHalf(id), s.adds[id].userId, p, acc(p)) < TWO_31
    ensures
      var u := s.adds[id].userId;
      Accounted(Next(s, WriteHalf(id)), u, seen, CountedAll(s, WriteHalf(id), u, acc), |s.adds|, lost || id < mark)
  {
    hide Changed, QuantityIn;
    var u, request := s.adds[id].userId, s.adds[id];
    var t, acc' := Next(s, WriteHalf(id)), CountedAll(s, WriteHalf(id), u, acc);
    assert Tracked(s, id, seen[id], acc, mark);
    assert acc'(request.productId) == Counted(s, WriteHalf(id), u, request.productId, acc(request.productId));
    LandedQuantities(seen[id], request, s.inFlight[id], acc, acc');
    assert Lookup(t.db, u) == Some(s.inFlight[id]);
    forall other | other in t.inFlight && t.adds[other].userId == u
      ensures other in seen && Tracked(t, other, seen[other], acc', |s.adds|)
    {
      assert Tracked(s, other, seen[other], acc, mark);
      Outgrown(seen[other], acc, acc', request.productId);
    }
  }

  lemma Outgrown(value: Option<Cart>, acc: string -> int, acc': string -> int, product: string)
    requires Undercounts(value, acc) && (forall p :: acc(p) <= acc'(p)) && acc(product) < acc'(product)
    ensures Undercounts(value, acc') && Misses(value, acc')
  {
    assert QuantityIn(value, product) != acc'(product);
    forall p
      ensures QuantityIn(value, p) <= acc'(p)
    {
      assert QuantityIn(value, p) <= acc(p) <= acc'(p);
    }
  }

  lemma SameCounts(value: Option<Cart>, acc: string -> int, acc': string -> int)
    requires forall p :: acc(p) == acc'(p)
    ensures Undercounts(value, acc) <==> Undercounts(value, acc')
    ensures Misses(value, acc) <==> Misses(value, acc')
  {
    if p :| QuantityIn(value, p) != acc(p) {
      assert QuantityIn(value, p) != acc'(p);
    }
    if p :| QuantityIn(value, p) != acc'(p) {
      assert QuantityIn(value, p) != acc(p);
    }
    assert Undercounts(value, acc) ==> forall p :: QuantityIn(value, p) <= acc(p) == acc'(p);
    assert Undercounts(value, acc') ==> forall p :: QuantityIn(value, p) <= acc'(p) == acc(p);
  }

  /** Any other action leaves the account as it is. */
  lemma OthersAreAccounted(s: State, a: Action, userId: string, seen: map<nat, Option<Cart>>, acc: string -> int,
                           mark: nat, lost: bool)
    requires Enabled(s, a) && Accounted(s, userId, seen, acc, mark, lost) && AddsOnly(a, userId)
    requires !(a.WriteHalf? && s.adds[a.id].userId == userId)
    ensures Accounted(Next(s, a), userId, Seen(s, a, seen), CountedAll(s, a, userId, acc), mark, lost)
  {
    hide Changed, QuantityIn, Undercounts, Misses;
    var t, acc', seen' := Next(s, a), CountedAll(s, a, userId, acc), Seen(s, a, seen);
    assert forall p :: acc'(p) == acc(p);
    assert Lookup(t.db, userId) == Lookup(s.db, userId);
    SameCounts(Lookup(s.db, userId), acc, acc');
    forall id | id in t.inFlight && t.adds[id].userId == userId
      ensures id in seen' && Tracked(t, id, seen'[id], acc', mark)
    {
      if id in s.inFlight {
        assert Tracked(s, id, seen[id], acc, mark);
        SameCounts(seen[id], acc, acc');
      }
    }
  }

  lemma {:induction false} TallyGrows(s: State, actions: seq<Action>, userId: string, p: string, acc: int)
    requires IsRun(s, actions) && OnlyAdds(s, actions, userId)
    requires forall id :: id in s.inFlight ==>
      id < |s.adds| && (s.adds[id].userId == userId ==> s.adds[id].quantity >= 1)
    ensures acc <= Tally(s, actions, userId, p, acc)
    decreases |actions|
  {
    if actions != [] {
      TallyGrows(Next(s, actions[0]), actions[1..], userId, p, Counted(s, actions[0], userId, p, acc));
    }
  }

  /** Something is missing in the end exactly when something was missing or a stale add lands. */
  lemma {:induction false} LostExactlyWhenStale(s: State, actions: seq<Action>, userId: string,
                                                seen: map<nat, Option<Cart>>, acc: string -> int, mark: nat, lost: bool)
    requires IsRun(s, actions) && OnlyAdds(s, actions, userId) && Accounted(s, userId, seen, acc, mark, lost)
    requires forall p :: Tally(s, actions, userId, p, acc(p)) < TWO_31
    ensures
      (exists p :: QuantityIn(Lookup(Run(s, actions).db, userId), p) != Tally(s, actions, userId, p, acc(p))) <==>
      lost || Stale(s, actions, userId, mark)
    ensures forall p ::
      QuantityIn(Lookup(Run(s, actions).db, userId), p) <= Tally(s, actions, userId, p, acc(p))
    decreases |actions|
  {
    if actions != [] {
      hide QuantityIn, Changed, Counted;
      var a, rest := actions[0], actions[1..];
      var t, acc', seen' := Next(s, a), CountedAll(s, a, userId, acc), Seen(s, a, seen);
      assert forall p :: acc'(p) == Counted(s, a, userId, p, acc(p));
      assert forall p :: Tally(s, actions, userId, p, acc(p)) == Tally(t, rest, userId, p, acc'(p));
      var lands := a.WriteHalf? && s.adds[a.id].userId == userId;
      if lands {
        LandingFits(s, actions, userId, seen, acc, mark, lost);
        LandingIsAccounted(s, a.id, seen, acc, mark, lost);
        LostExactlyWhenStale(t, rest, userId, seen', acc', |s.adds|, lost || a.id < mark);
      } else {
        OthersAreAccounted(s, a, userId, seen, acc, mark, lost);
        LostExactlyWhenStale(t, rest, userId, seen', acc', mark, lost);
      }
    }
  }

  lemma LandingFits(s: State, actions: seq<Action>, userId: string, seen: map<nat, Option<Cart>>, acc: string -> int,
                    mark: nat, lost: bool)
    requires IsRun(s, actions) && OnlyAdds(s, actions, userId) && Accounted(s, userId, seen, acc, mark, lost)
    requires actions != [] && actions[0].WriteHalf? && s.adds[actions[0].id].userId == userId
    requires forall p :: Tally(s, actions, userId, p, acc(p)) < TWO_31
    ensures forall p :: Counted(s, actions[0], userId, p, acc(p)) < TWO_31
  {
    var a, rest := actions[0], actions[1..];
    var t := Next(s, a);
    forall id | id in s.inFlight
      ensures id < |s.adds| && (s.adds[id].userId == userId ==> s.adds[id].quantity >= 1)
    {
      assert s.adds[id].userId == userId ==> Tracked(s, id, seen[id], acc, mark);
    }
    forall p
      ensures Counted(s, a, userId, p, acc(p)) < TWO_31
    {
      TallyGrows(t, rest, userId, p, Counted(s, a, userId, p, acc(p)));
      assert Tally(s, actions, userId, p, acc(p)) < TWO_31;
    }
  }

  /** When updates are lost: while a cart is only added to, in positive quantities that fit an int32, it ends up
      holding less than the user was told exactly when some write to it falls between the two halves of another add
      that lands. It never holds more. */
  lemma UpdatesAreLostWhenOvertaken(s: State, actions: seq<Action>, userId: string)
    requires IsRun(s, actions) && OnlyAdds(s, actions, userId)
    requires (forall id :: id in s.inFlight ==> id < |s.adds|) && Idle(s, userId)
    requires forall p :: Tally(s, actions, userId, p, QuantityIn(Lookup(s.db, userId), p)) < TWO_31
    ensures
      var end := Lookup(Run(s, actions).db, userId);
      (exists p :: QuantityIn(end, p) < Tally(s, actions, userId, p, QuantityIn(Lookup(s.db, userId), p))) <==>
      exists j: nat, k: nat :: Overtakes(s, actions, userId, j, k)
    ensures forall p ::
      QuantityIn(Lookup(Run(s, actions).db, userId), p) <=
      Tally(s, actions, userId, p, QuantityIn(Lookup(s.db, userId), p))
  {
    var acc := p => QuantityIn(Lookup(s.db, userId), p);
    assert Accounted(s, userId, map[], acc, 0, false);
    assert forall p :: Tally(s, actions, userId, p, acc(p)) < TWO_31;
    LostExactlyWhenStale(s, actions, userId, map[], acc, 0, false);
    StaleIsOvertaken(s, actions, userId, 0);
    assert !LandsBelow(s, actions, userId, 0);
    assert Overtaken(s, actions, userId) <==> exists j: nat, k: nat :: Overtakes(s, actions, userId, j, k);
    var end := Lookup(Run(s, actions).db, userId);
    assert forall p :: acc(p) == QuantityIn(Lookup(s.db, userId), p);
    if p :| QuantityIn(end, p) != Tally(s, actions, userId, p, acc(p)) {
      assert QuantityIn(end, p) < Tally(s, actions, userId, p, QuantityIn(Lookup(s.db, userId), p));
    }
    if p :| QuantityIn(end, p) < Tally(s, actions, userId, p, QuantityIn(Lookup(s.db, userId), p)) {
      assert QuantityIn(end, p) != Tally(s, actions, userId, p, acc(p));
    }
  }
}
