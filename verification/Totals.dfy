/** What PlaceOrder charges: the shipping cost plus every item's cost times its quantity
    (src/checkout/main.go:345-354). */
module Totals {
  import opened Base
  import opened MoneyArithmetic
  import opened Shop

  const NIL_MONEY := Money("", 0, 0)

  /** Generated getters accept a nil message. */
  function CostOf(it: OrderItem): Money {
    if it.cost.Some? then it.cost.value else NIL_MONEY
  }

  function QuantityOf(it: OrderItem): int32 {
    if it.item.Some? then it.item.value.quantity else 0
  }

  /** How many times an item is charged; the quantity is cast to uint32 first. */
  function ChargedCopies(it: OrderItem): nat {
    Copies(ToUint32(QuantityOf(it)))
  }

  function TotalOf(shipping: Money, currency: string, items: seq<OrderItem>): Result<Money, MoneyError> {
    if items == [] then Sum(Money(currency, 0, 0), shipping)
    else
      var before := TotalOf(shipping, currency, items[..|items| - 1]);
      var it := items[|items| - 1];
      var price := Repeated(CostOf(it), ChargedCopies(it));
      if before.Failure? then before
      else if price.Failure? then price
      else Sum(before.value, price.value)
  }

  lemma {:induction false} TotalStaysFailed(shipping: Money, currency: string, items: seq<OrderItem>, i: nat)
    requires i <= |items| && TotalOf(shipping, currency, items[..i]).Failure?
    ensures TotalOf(shipping, currency, items) == TotalOf(shipping, currency, items[..i])
  {
    if i == |items| {
      assert items[..i] == items;
    } else {
      assert items[..|items| - 1][..i] == items[..i];
      TotalStaysFailed(shipping, currency, items[..|items| - 1], i);
    }
  }

  /** The totalling loop. A failed Must panics, which ends the call. */
  method TotalOrder(shipping: Money, currency: string, items: seq<OrderItem>) returns (r: Result<Money, MoneyError>)
    ensures r == TotalOf(shipping, currency, items)
  {
    var first := Sum(Money(currency, 0, 0), shipping);
    assert items[..0] == [];
    if first.Failure? {
      TotalStaysFailed(shipping, currency, items, 0);
      return first;
    }
    var total := first.value;
    var i := 0;
    while i < |items|
      invariant 0 <= i <= |items|
      invariant TotalOf(shipping, currency, items[..i]) == Success(total)
    {
      var it := items[i];
      var multPrice := MultiplySlow(CostOf(it), ToUint32(QuantityOf(it)));
      assert items[..i + 1][..i] == items[..i];
      if multPrice.Failure? {
        TotalStaysFailed(shipping, currency, items, i + 1);
        return multPrice;
      }
      var next := Sum(total, multPrice.value);
      if next.Failure? {
        TotalStaysFailed(shipping, currency, items, i + 1);
        return next;
      }
      total := next.value;
      i := i + 1;
    }
    assert items[..i] == items;
    r := Success(total);
  }

  // ---- The exact total ----

  /** A price as the currency service quotes it: valid, not negative, in the given currency. */
  predicate Priced(m: Money, currency: string) {
    IsValid(m) && m.currencyCode == currency && m.units >= 0 && m.nanos >= 0
  }

  predicate AllPriced(items: seq<OrderItem>, currency: string) {
    forall i :: 0 <= i < |items| ==> Priced(CostOf(items[i]), currency)
  }

  function ItemPrice(it: OrderItem): int {
    ChargedCopies(it) * TotalNanos(CostOf(it))
  }

  /** Shipping plus every charged copy, in nanos. */
  function ExactTotal(shipping: Money, items: seq<OrderItem>): int {
    if items == [] then TotalNanos(shipping)
    else
      var it := items[|items| - 1];
      ExactTotal(shipping, items[..|items| - 1]) + ItemPrice(it)
  }

  /** Amounts that Sum can hold as a running total: nothing, or at least one unit. */
  predicate Whole(total: int) {
    total == 0 || total >= NANOS_MOD
  }

  predicate Multiplies(it: OrderItem) {
    ChargedCopies(it) == 1 || Doubles(CostOf(it))
  }

  /** Every item multiplies and every running total before an item is whole. */
  predicate Totals(shipping: Money, items: seq<OrderItem>) {
    forall i :: 0 <= i < |items| ==> Multiplies(items[i]) && Whole(ExactTotal(shipping, items[..i]))
  }

  lemma TotalsSnoc(shipping: Money, items: seq<OrderItem>)
    requires items != []
    ensures
      var most := items[..|items| - 1];
      Totals(shipping, items) <==>
        Totals(shipping, most) && Multiplies(items[|items| - 1]) && Whole(ExactTotal(shipping, most))
  {
    hide ExactTotal, Whole, Multiplies;
    var n := |items| - 1;
    var most := items[..n];
    assert forall i :: 0 <= i < n ==> most[..i] == items[..i] && most[i] == items[i];
    if Totals(shipping, items) {
      forall i | 0 <= i < n
        ensures Multiplies(most[i]) && Whole(ExactTotal(shipping, most[..i]))
      {
        assert Multiplies(items[i]) && Whole(ExactTotal(shipping, items[..i]));
      }
    }
    if Totals(shipping, most) && Multiplies(items[n]) && Whole(ExactTotal(shipping, most)) {
      forall i | 0 <= i < |items|
        ensures Multiplies(items[i]) && Whole(ExactTotal(shipping, items[..i]))
      {
        if i < n {
          assert Multiplies(most[i]) && Whole(ExactTotal(shipping, most[..i]));
        }
      }
    }
  }

  /** The total is exact whenever there is one, and there is one exactly when every item multiplies
      and every running total before an item is whole. The total is a valid Money exactly when it is
      whole too. */
  lemma {:induction false} TotalIsExact(shipping: Money, currency: string, items: seq<OrderItem>)
    requires Priced(shipping, currency) && AllPriced(items, currency) && Fits(ExactTotal(shipping, items))
    ensures TotalOf(shipping, currency, items).Success? <==> Totals(shipping, items)
    ensures Totals(shipping, items) ==>
      var total := TotalOf(shipping, currency, items).value;
      && TotalNanos(total) == ExactTotal(shipping, items)
      && total.currencyCode == currency
      && (IsValid(total) <==> Whole(ExactTotal(shipping, items)))
  {
    if items == [] {
      AddPrices(Money(currency, 0, 0), shipping);
    } else {
      hide Sum, Repeated, IsValid, TotalNanos, Fits, ItemPrice, Totals, Multiplies, Whole;
      var most, it := items[..|items| - 1], items[|items| - 1];
      assert Priced(CostOf(it), currency);
      assert AllPriced(most, currency);
      PartsFit(shipping, currency, items);
      TotalIsExact(shipping, currency, most);
      TotalsSnoc(shipping, items);
      var before, price := TotalOf(shipping, currency, most), Repeated(CostOf(it), ChargedCopies(it));
      ItemPriceIsRepeated(it, currency);
      if Totals(shipping, most) && price.Success? {
        if Whole(ExactTotal(shipping, most)) && Multiplies(it) {
          AddPrices(before.value, price.value);
        } else {
          InvalidStops(before.value, price.value);
        }
      }
    }
  }

  lemma PartsFit(shipping: Money, currency: string, items: seq<OrderItem>)
    requires Priced(shipping, currency) && AllPriced(items, currency) && Fits(ExactTotal(shipping, items))
    requires items != []
    ensures
      var most, it := items[..|items| - 1], items[|items| - 1];
      && ExactTotal(shipping, items) == ExactTotal(shipping, most) + ItemPrice(it)
      && ExactTotal(shipping, most) >= 0 && ItemPrice(it) >= 0
      && Fits(ExactTotal(shipping, most)) && Fits(ItemPrice(it))
  {
    var most, it := items[..|items| - 1], items[|items| - 1];
    AtLeastShipping(shipping, currency, most);
    ItemPriceSign(it, currency);
    FitsParts(ExactTotal(shipping, most), ItemPrice(it));
  }

  lemma ItemPriceSign(it: OrderItem, currency: string)
    requires Priced(CostOf(it), currency)
    ensures ItemPrice(it) >= 0
  {
    assert TotalNanos(CostOf(it)) >= 0;
  }

  lemma FitsParts(x: int, y: int)
    requires x >= 0 && y >= 0 && Fits(x + y)
    ensures Fits(x) && Fits(y)
  {
  }

  /** The price of an item as MultiplySlow computes it. */
  lemma ItemPriceIsRepeated(it: OrderItem, currency: string)
    requires Priced(CostOf(it), currency) && Fits(ItemPrice(it))
    ensures
      var price := Repeated(CostOf(it), ChargedCopies(it));
      if Multiplies(it) then
        && price.Success?
        && IsValid(price.value)
        && price.value.currencyCode == currency
        && TotalNanos(price.value) == ItemPrice(it)
      else
        price.Failure? || !IsValid(price.value)
  {
    RepeatedIsMultiplication(CostOf(it), ChargedCopies(it));
  }

  /** Adding two prices of which the first is whole. */
  lemma AddPrices(l: Money, r: Money)
    requires IsValid(l) && IsValid(r) && l.currencyCode == r.currencyCode
    requires TotalNanos(l) >= 0 && TotalNanos(r) >= 0 && Whole(TotalNanos(l))
    requires Fits(TotalNanos(l) + TotalNanos(r))
    ensures
      var s := Sum(l, r);
      && s.Success?
      && TotalNanos(s.value) == TotalNanos(l) + TotalNanos(r)
      && s.value.currencyCode == l.currencyCode
      && (IsValid(s.value) <==> Whole(TotalNanos(l) + TotalNanos(r)))
  {
    UnitsFit(l, r);
    SumConserves(l, r);
    SumValid(l, r);
  }

  lemma {:induction false} AtLeastShipping(shipping: Money, currency: string, items: seq<OrderItem>)
    requires Priced(shipping, currency) && AllPriced(items, currency)
    ensures ExactTotal(shipping, items) >= TotalNanos(shipping)
  {
    if items != [] {
      var most, it := items[..|items| - 1], items[|items| - 1];
      AtLeastShipping(shipping, currency, most);
      ItemPriceSign(it, currency);
    }
  }

  /** With at least one unit of shipping, only an item that does not multiply can panic. */
  lemma ShippingKeepsTotalsWhole(shipping: Money, currency: string, items: seq<OrderItem>)
    requires Priced(shipping, currency) && AllPriced(items, currency) && shipping.units >= 1
    ensures Totals(shipping, items) <==> forall i :: 0 <= i < |items| ==> Multiplies(items[i])
  {
    forall i | 0 <= i < |items|
      ensures Whole(ExactTotal(shipping, items[..i]))
    {
      AtLeastShipping(shipping, currency, items[..i]);
    }
  }

  lemma TotalOfOneMore(shipping: Money, currency: string, items: seq<OrderItem>, it: OrderItem, total: Money, price: Money)
    requires TotalOf(shipping, currency, items) == Success(total)
    requires Repeated(CostOf(it), ChargedCopies(it)) == Success(price)
    ensures TotalOf(shipping, currency, items + [it]) == Sum(total, price)
  {
    hide Sum, Repeated, CostOf, ChargedCopies;
    assert (items + [it])[..|items|] == items;
  }

  /** Adding prices of at least a unit together, with the carry. */
  lemma SumOfPrices(l: Money, r: Money)
    requires Priced(l, l.currencyCode) && Priced(r, l.currencyCode) && 1 <= l.units + r.units < TWO_32
    ensures Sum(l, r) == Success(
      if l.nanos + r.nanos < NANOS_MOD then Money(l.currencyCode, l.units + r.units, l.nanos + r.nanos)
      else Money(l.currencyCode, l.units + r.units + 1, l.nanos + r.nanos - NANOS_MOD))
  {
    hide Wrap32, Wrap64;
    Wrap32Cases(l.nanos + r.nanos);
    Wrap64Cases(l.units + r.units);
    Wrap64Cases(l.units + r.units + 1);
  }

  lemma AddsNothing(zero: Money, m: Money)
    requires zero.units == 0 && zero.nanos == 0 && Priced(m, m.currencyCode) && (m.units >= 1 || m.nanos == 0)
    ensures zero.currencyCode == m.currencyCode ==> Sum(zero, m) == Success(m) && Sum(m, zero) == Success(m)
    ensures zero.currencyCode != m.currencyCode ==> Sum(m, zero) == Failure(MismatchingCurrency)
  {
    if zero.currencyCode == m.currencyCode && m.units >= 1 {
      Wrap64Cases(m.units);
      Wrap32Cases(m.nanos);
    }
  }

  /** Nil fields: an item without a cost adds an amount of no currency, which is a mismatch. */
  lemma MissingCostPanics(shipping: Money, currency: string, it: OrderItem)
    requires Priced(shipping, currency) && (shipping.units >= 1 || shipping.nanos == 0)
    requires it.cost.None? && (it.item.None? || 0 <= it.item.value.quantity <= 1)
    ensures TotalOf(shipping, currency, [it]) ==
      if currency == "" then Success(shipping) else Failure(MismatchingCurrency)
  {
    var nil := Money("", 0, 0);
    AddsNothing(Money(currency, 0, 0), shipping);
    AddsNothing(nil, shipping);
    assert CostOf(it) == nil && Repeated(nil, 1) == Success(nil) && ChargedCopies(it) == 1;
    hide Sum, Repeated, CostOf, ChargedCopies;
    assert TotalOf(shipping, currency, []) == Success(shipping);
    TotalOfOneMore(shipping, currency, [], it, shipping, nil);
    assert [] + [it] == [it];
  }

  /** Shipping of 3.25, two pieces at 10.50 and one at 0.99. */
  lemma ExampleTotal()
    ensures
      var items := [OrderItem(Some(CartItem("a", 2)), Some(Money("USD", 10, 500_000_000))),
                    OrderItem(Some(CartItem("b", 1)), Some(Money("USD", 0, 990_000_000)))];
      var shipping := Money("USD", 3, 250_000_000);
      && Priced(shipping, "USD") && AllPriced(items, "USD")
      && TotalOf(shipping, "USD", items) == Success(Money("USD", 25, 240_000_000))
  {
    var it, next := OrderItem(Some(CartItem("a", 2)), Some(Money("USD", 10, 500_000_000))),
                    OrderItem(Some(CartItem("b", 1)), Some(Money("USD", 0, 990_000_000)));
    var shipping := Money("USD", 3, 250_000_000);
    ExampleSums();
    assert ChargedCopies(it) == 2 && ChargedCopies(next) == 1;
    hide Sum, Repeated, ChargedCopies;
    assert TotalOf(shipping, "USD", []) == Success(shipping);
    TotalOfOneMore(shipping, "USD", [], it, shipping, Money("USD", 21, 0));
    TotalOfOneMore(shipping, "USD", [it], next, Money("USD", 24, 250_000_000), Money("USD", 0, 990_000_000));
    assert [] + [it] == [it] && [it] + [next] == [it, next];
  }

  lemma ExampleSums()
    ensures Sum(Money("USD", 0, 0), Money("USD", 3, 250_000_000)) == Success(Money("USD", 3, 250_000_000))
    ensures Repeated(Money("USD", 10, 500_000_000), 2) == Success(Money("USD", 21, 0))
    ensures Repeated(Money("USD", 0, 990_000_000), 1) == Success(Money("USD", 0, 990_000_000))
    ensures Sum(Money("USD", 3, 250_000_000), Money("USD", 21, 0)) == Success(Money("USD", 24, 250_000_000))
    ensures Sum(Money("USD", 24, 250_000_000), Money("USD", 0, 990_000_000)) == Success(Money("USD", 25, 240_000_000))
  {
    hide Sum;
    SumOfPrices(Money("USD", 0, 0), Money("USD", 3, 250_000_000));
    SumOfPrices(Money("USD", 10, 500_000_000), Money("USD", 10, 500_000_000));
    SumOfPrices(Money("USD", 3, 250_000_000), Money("USD", 21, 0));
    SumOfPrices(Money("USD", 24, 250_000_000), Money("USD", 0, 990_000_000));
    assert Repeated(Money("USD", 10, 500_000_000), 1) == Success(Money("USD", 10, 500_000_000));
  }
}
