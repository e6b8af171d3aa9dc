/** The accounting service (src/accounting/Consumer.cs, Entities.cs): each delivered order is
    inserted in one transaction, and a delivery that breaks a primary key is skipped. */
module Ledger {
  import opened Base
  import opened MoneyArithmetic
  import opened Shop

  datatype ItemRow = ItemRow(productId: string, orderId: string, cost: Money, quantity: int32)

  datatype ShippingRow = ShippingRow(trackingId: string, cost: Money, address: Address, orderId: string)

  /** The three tables of the accounting schema. */
  datatype Books = Books(orders: set<string>, items: set<ItemRow>, shipping: set<ShippingRow>)

  const EMPTY_BOOKS := Books({}, {}, {})

  // ---- What one message contributes ----

  predicate ItemPresent(item: OrderItem) {
    item.item.Some? && item.cost.Some?
  }

  /** Every message-typed field is present and no product is repeated; otherwise building the rows
      throws before anything is saved. */
  predicate Complete(m: OrderResult) {
    && m.shippingCost.Some? && m.shippingAddress.Some?
    && (forall i :: 0 <= i < |m.items| ==> ItemPresent(m.items[i]))
    && (forall i, j :: 0 <= i < j < |m.items| && ItemPresent(m.items[i]) && ItemPresent(m.items[j]) ==>
          m.items[i].item.value.productId != m.items[j].item.value.productId)
  }

  function RowOf(orderId: string, item: OrderItem): ItemRow
    requires ItemPresent(item)
  {
    ItemRow(item.item.value.productId, orderId, item.cost.value, item.item.value.quantity)
  }

  function RowsOf(m: OrderResult): set<ItemRow>
    requires Complete(m)
  {
    set i | 0 <= i < |m.items| :: RowOf(m.orderId, m.items[i])
  }

  /** The row says product, order, cost and quantity of one of the order's items. */
  ghost predicate IsRowOf(m: OrderResult, r: ItemRow) {
    exists i :: 0 <= i < |m.items| && m.items[i].item.Some? && m.items[i].cost.Some?
      && r.productId == m.items[i].item.value.productId && r.orderId == m.orderId
      && r.cost == m.items[i].cost.value && r.quantity == m.items[i].item.value.quantity
  }

  function ShippingOf(m: OrderResult): ShippingRow
    requires Complete(m)
  {
    ShippingRow(m.shippingTrackingId, m.shippingCost.value, m.shippingAddress.value, m.orderId)
  }

  lemma RowsFieldByField(m: OrderResult)
    requires Complete(m)
    ensures forall r :: r in RowsOf(m) <==> IsRowOf(m, r)
  {
    forall r | IsRowOf(m, r)
      ensures r in RowsOf(m)
    {
      var i :| 0 <= i < |m.items| && m.items[i].item.Some? && m.items[i].cost.Some?
        && r.productId == m.items[i].item.value.productId && r.orderId == m.orderId
        && r.cost == m.items[i].cost.value && r.quantity == m.items[i].item.value.quantity;
      assert r == RowOf(m.orderId, m.items[i]);
    }
  }

  predicate HasItemKey(rows: set<ItemRow>, productId: string, orderId: string) {
    exists r :: r in rows && r.productId == productId && r.orderId == orderId
  }

  predicate HasTracking(rows: set<ShippingRow>, trackingId: string) {
    exists r :: r in rows && r.trackingId == trackingId
  }

  /** SaveChanges would break a primary key. */
  predicate Violates(b: Books, m: OrderResult)
    requires Complete(m)
  {
    || m.orderId in b.orders
    || HasTracking(b.shipping, m.shippingTrackingId)
    || exists i :: 0 <= i < |m.items| && HasItemKey(b.items, m.items[i].item.value.productId, m.orderId)
  }

  /** Every item has a product and a cost, cost and address of the shipping are there, and every primary key is new,
      to the books and in the message itself. */
  ghost predicate Storable(b: Books, m: OrderResult) {
    && m.shippingCost.Some? && m.shippingAddress.Some?
    && (forall i :: 0 <= i < |m.items| ==> m.items[i].item.Some? && m.items[i].cost.Some?)
    && (forall i, j :: 0 <= i < j < |m.items| ==>
          m.items[i].item.value.productId != m.items[j].item.value.productId)
    && m.orderId !in b.orders
    && (forall q :: q in b.shipping ==> q.trackingId != m.shippingTrackingId)
    && forall r, i :: r in b.items && 0 <= i < |m.items| && r.orderId == m.orderId ==>
         r.productId != m.items[i].item.value.productId
  }

  lemma StorableIsStored(b: Books, m: OrderResult)
    ensures Storable(b, m) <==> Complete(m) && !Violates(b, m)
  {
    if Complete(m) {
      assert forall i :: 0 <= i < |m.items| ==> ItemPresent(m.items[i]);
    }
  }

  function Process(b: Books, m: OrderResult): Books {
    if !Complete(m) || Violates(b, m) then b
    else Books(b.orders + {m.orderId}, b.items + RowsOf(m), b.shipping + {ShippingOf(m)})
  }

  /** A message the consumer takes from the topic. The payload may not parse, and the database may
      be unreachable; either way nothing is stored. */
  datatype Delivery = Delivery(payload: Option<OrderResult>, databaseUp: bool)

  function Effect(b: Books, d: Delivery): Books {
    if d.payload.Some? && d.databaseUp then Process(b, d.payload.value) else b
  }

  function Effects(b: Books, ds: seq<Delivery>): Books {
    if ds == [] then b else Effect(Effects(b, ds[..|ds| - 1]), ds[|ds| - 1])
  }

  class Consumer {
    var books: Books

    constructor ()
      ensures books == EMPTY_BOOKS
    {
      books := EMPTY_BOOKS;
    }

    /** Stores an order's rows, field by field, or nothing. */
    method ProcessMessage(d: Delivery)
      modifies this
      ensures books == Effect(old(books), d)
      ensures books != old(books) <==> d.databaseUp && d.payload.Some? && Storable(old(books), d.payload.value)
      ensures books != old(books) ==>
        && d.payload.Some? && d.databaseUp
        && var m := d.payload.value;
           && books.orders == old(books).orders + {m.orderId}
           && (forall i :: 0 <= i < |m.items| ==> m.items[i].item.Some? && m.items[i].cost.Some?)
           && (forall r :: r in books.items <==> r in old(books).items || IsRowOf(m, r))
           && m.shippingCost.Some? && m.shippingAddress.Some?
           && books.shipping == old(books).shipping +
                {ShippingRow(m.shippingTrackingId, m.shippingCost.value, m.shippingAddress.value, m.orderId)}
    {
      if d.payload.None? {
        return;
      }
      var order := d.payload.value;
      StorableIsStored(books, order);
      var rows: set<ItemRow> := {};
      var i := 0;
      while i < |order.items|
        invariant 0 <= i <= |order.items|
        invariant books == old(books)
        invariant forall k :: 0 <= k < i ==> ItemPresent(order.items[k])
        invariant rows == set k | 0 <= k < i :: RowOf(order.orderId, order.items[k])
        invariant forall j, k :: 0 <= j < k < i ==> order.items[j].item.value.productId != order.items[k].item.value.productId
      {
        var item := order.items[i];
        if item.cost.None? || item.item.None? {
          return;
        }
        var row := RowOf(order.orderId, item);
        if r :| r in rows && r.productId == row.productId {
          return;
        }
        forall k | 0 <= k < i
          ensures order.items[k].item.value.productId != item.item.value.productId
        {
          assert RowOf(order.orderId, order.items[k]) in rows;
        }
        rows := rows + {row};
        i := i + 1;
      }
      if order.shippingCost.None? || order.shippingAddress.None? {
        return;
      }
      assert rows == RowsOf(order);
      if !d.databaseUp || Violates(books, order) {
        return;
      }
      RowsFieldByField(order);
      books := Books(books.orders + {order.orderId}, books.items + rows, books.shipping + {ShippingOf(order)});
    }

    /** The consume loop over whatever the broker delivers. */
    method Consume(ds: seq<Delivery>)
      modifies this
      ensures books == Effects(old(books), ds)
    {
      var i := 0;
      while i < |ds|
        invariant 0 <= i <= |ds|
        invariant books == Effects(old(books), ds[..i])
      {
        ProcessMessage(ds[i]);
        i := i + 1;
        assert ds[..i][..i - 1] == ds[..i - 1];
      }
      assert ds[..i] == ds;
    }
  }

  // ---- Redelivery and reordering ----

  /** The messages that reached a reachable database. */
  function Stored(ds: seq<Delivery>): set<OrderResult> {
    set i | 0 <= i < |ds| && ds[i].payload.Some? && ds[i].databaseUp :: ds[i].payload.value
  }

  /** Among complete messages an order id determines the message, and so does a tracking id. */
  predicate Coherent(ms: set<OrderResult>) {
    forall a, b :: a in ms && b in ms && Complete(a) && Complete(b) ==>
      (a.orderId == b.orderId || a.shippingTrackingId == b.shippingTrackingId ==> a == b)
  }

  /** The books that hold every complete message of a set, once. */
  function BooksOf(ms: set<OrderResult>): Books {
    Books(
      set m | m in ms && Complete(m) :: m.orderId,
      set m, i | m in ms && Complete(m) && 0 <= i < |m.items| :: RowOf(m.orderId, m.items[i]),
      set m | m in ms && Complete(m) :: ShippingOf(m))
  }

  lemma ProcessAddsToBooks(ms: set<OrderResult>, m: OrderResult)
    requires Coherent(ms + {m})
    ensures Process(BooksOf(ms), m) == BooksOf(ms + {m})
  {
    var b, all := BooksOf(ms), BooksOf(ms + {m});
    if !Complete(m) || m in ms {
      assert Complete(m) ==> m.orderId in b.orders;
      assert all.orders == b.orders && all.items == b.items && all.shipping == b.shipping;
    } else {
      forall a | a in ms && Complete(a)
        ensures a.orderId != m.orderId && a.shippingTrackingId != m.shippingTrackingId
      {
        assert a in ms + {m} && m in ms + {m};
      }
      assert all.orders == b.orders + {m.orderId};
      assert all.items == b.items + RowsOf(m);
      assert all.shipping == b.shipping + {ShippingOf(m)};
    }
  }

  lemma CoherentSubset(ms: set<OrderResult>, all: set<OrderResult>)
    requires ms <= all && Coherent(all)
    ensures Coherent(ms)
  {
  }

  /** However often and in whatever order messages are delivered, the ledger is the one that holds
      each distinct message once. */
  lemma {:induction false} LedgerIsIdempotent(ds: seq<Delivery>)
    requires Coherent(Stored(ds))
    ensures Effects(EMPTY_BOOKS, ds) == BooksOf(Stored(ds))
  {
    if ds == [] {
      assert Stored(ds) == {};
    } else {
      var most, last := ds[..|ds| - 1], ds[|ds| - 1];
      StoredSnoc(ds);
      CoherentSubset(Stored(most), Stored(ds));
      LedgerIsIdempotent(most);
      if last.payload.Some? && last.databaseUp {
        ProcessAddsToBooks(Stored(most), last.payload.value);
      }
    }
  }

  lemma StoredSnoc(ds: seq<Delivery>)
    requires ds != []
    ensures
      var most, last := ds[..|ds| - 1], ds[|ds| - 1];
      Stored(ds) == if last.payload.Some? && last.databaseUp then Stored(most) + {last.payload.value} else Stored(most)
  {
    var most, last := ds[..|ds| - 1], ds[|ds| - 1];
    forall m | m in Stored(most)
      ensures m in Stored(ds)
    {
      var i :| 0 <= i < |most| && most[i].payload.Some? && most[i].databaseUp && most[i].payload.value == m;
      assert ds[i] == most[i];
    }
    forall m | m in Stored(ds)
      ensures m in Stored(most) || (last.payload == Some(m) && last.databaseUp)
    {
      var i :| 0 <= i < |ds| && ds[i].payload.Some? && ds[i].databaseUp && ds[i].payload.value == m;
      assert i < |most| ==> most[i] == ds[i];
    }
  }

  // ---- What the ledger says an order cost ----

  function Worth(r: ItemRow): int {
    r.quantity * TotalNanos(r.cost)
  }

  ghost function Pick(rows: set<ItemRow>): (r: ItemRow)
    requires rows != {}
    ensures r in rows
  {
    var r :| r in rows;
    r
  }

  ghost function SumOfRows(rows: set<ItemRow>): int {
    if rows == {} then 0
    else
      var r := Pick(rows);
      Worth(r) + SumOfRows(rows - {r})
  }

  lemma {:induction false} SumOfRowsAdd(rows: set<ItemRow>, r: ItemRow)
    requires r !in rows
    ensures SumOfRows(rows + {r}) == SumOfRows(rows) + Worth(r)
    decreases |rows|
  {
    var all := rows + {r};
    var x := Pick(all);
    if x == r {
      assert all - {r} == rows;
    } else {
      SumOfRowsAdd(rows - {x}, r);
      assert all - {x} == rows - {x} + {r};
      SumOfRowsAdd(rows - {x}, x);
      assert rows - {x} + {x} == rows;
    }
  }

  function ItemsOfOrder(b: Books, orderId: string): set<ItemRow> {
    set r | r in b.items && r.orderId == orderId
  }

  function ShippingOfOrder(b: Books, orderId: string): set<ShippingRow> {
    set r | r in b.shipping && r.orderId == orderId
  }

  /** An order's rows are exactly one message's rows, whole. */
  ghost predicate Records(b: Books, m: OrderResult) {
    && Complete(m) && m.orderId in b.orders
    && ItemsOfOrder(b, m.orderId) == RowsOf(m)
    && ShippingOfOrder(b, m.orderId) == {ShippingOf(m)}
  }

  /** Every order in the books records one of the messages, and there are no stray rows. */
  ghost predicate Faithful(b: Books, ms: set<OrderResult>) {
    && (forall id :: id in b.orders ==> exists m :: m in ms && m.orderId == id && Records(b, m))
    && (forall r :: r in b.items ==> r.orderId in b.orders)
    && (forall r :: r in b.shipping ==> r.orderId in b.orders)
  }

  /** Whatever the messages are, a delivery leaves no order half-recorded or mixed. */
  lemma ProcessStaysFaithful(b: Books, ms: set<OrderResult>, m: OrderResult)
    requires Faithful(b, ms) && m in ms
    ensures Faithful(Process(b, m), ms)
  {
    var t := Process(b, m);
    if t != b {
      assert ItemsOfOrder(t, m.orderId) == RowsOf(m);
      assert ShippingOfOrder(t, m.orderId) == {ShippingOf(m)};
      assert Records(t, m);
      forall id | id in b.orders
        ensures exists k :: k in ms && k.orderId == id && Records(t, k)
      {
        var k :| k in ms && k.orderId == id && Records(b, k);
        assert ItemsOfOrder(t, id) == ItemsOfOrder(b, id);
        assert ShippingOfOrder(t, id) == ShippingOfOrder(b, id);
        assert Records(t, k);
      }
    }
  }

  /** Rows of one table differ in their primary keys. */
  ghost predicate KeysUnique(b: Books) {
    && (forall q, r :: q in b.items && r in b.items && q.productId == r.productId && q.orderId == r.orderId ==> q == r)
    && (forall q, r :: q in b.shipping && r in b.shipping && q.trackingId == r.trackingId ==> q == r)
  }

  /** No delivery breaks a primary key. */
  lemma ProcessKeepsKeys(b: Books, m: OrderResult)
    requires KeysUnique(b)
    ensures KeysUnique(Process(b, m))
  {
    if Complete(m) && !Violates(b, m) {
      RowsFieldByField(m);
      var t := Process(b, m);
      forall r | r in RowsOf(m)
        ensures !HasItemKey(b.items, r.productId, r.orderId)
      {
        var k :| 0 <= k < |m.items| && r == RowOf(m.orderId, m.items[k]);
      }
      assert forall q, r :: q in b.items && r in RowsOf(m) ==> q.productId != r.productId || q.orderId != r.orderId;
      assert forall q :: q in b.shipping ==> q.trackingId != m.shippingTrackingId;
    }
  }

  lemma {:induction false} LedgerKeepsKeys(ds: seq<Delivery>)
    ensures KeysUnique(Effects(EMPTY_BOOKS, ds))
  {
    if ds != [] {
      var n := |ds| - 1;
      LedgerKeepsKeys(ds[..n]);
      if ds[n].payload.Some? {
        ProcessKeepsKeys(Effects(EMPTY_BOOKS, ds[..n]), ds[n].payload.value);
      }
    }
  }

  function ItemsWorth(items: seq<OrderItem>): int
    requires forall i :: 0 <= i < |items| ==> ItemPresent(items[i])
  {
    if items == [] then 0
    else
      var last := items[|items| - 1];
      assert ItemPresent(last);
      ItemsWorth(items[..|items| - 1]) + last.item.value.quantity * TotalNanos(last.cost.value)
  }

  /** Adding up an order's rows adds up its items. */
  lemma {:induction false} RowsAddUp(m: OrderResult)
    requires Complete(m)
    ensures SumOfRows(RowsOf(m)) == ItemsWorth(m.items)
    decreases |m.items|
  {
    if m.items == [] {
      assert RowsOf(m) == {};
    } else {
      var n := |m.items| - 1;
      var fewer := m.(items := m.items[..n]);
      RowsAddUp(fewer);
      var r := RowOf(m.orderId, m.items[n]);
      assert r !in RowsOf(fewer);
      assert RowsOf(m) == RowsOf(fewer) + {r} by {
        forall i | 0 <= i < n
          ensures RowOf(m.orderId, m.items[i]) in RowsOf(fewer)
        {
          assert fewer.items[i] == m.items[i];
        }
      }
      SumOfRowsAdd(RowsOf(fewer), r);
    }
  }
}
