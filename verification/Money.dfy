/** The checkout service's money arithmetic (src/checkout/money/money.go), with Go's
    int64 units and int32 nanos. */
module MoneyArithmetic {
  import opened Base

  const NANOS_MAX: int := 999_999_999
  const NANOS_MOD: int := 1_000_000_000

  datatype Money = Money(currencyCode: string, units: int64, nanos: int32)

  datatype MoneyError = InvalidValue | MismatchingCurrency

  predicate ValidNanos(nanos: int32) {
    -NANOS_MAX <= nanos <= NANOS_MAX
  }

  predicate SignMatches(m: Money) {
    m.nanos == 0 || m.units == 0 || ((m.nanos < 0) == (m.units < 0))
  }

  predicate IsValid(m: Money) {
    SignMatches(m) && ValidNanos(m.nanos)
  }

  predicate IsZero(m: Money) {
    m.units == 0 && m.nanos == 0
  }

  /** Go's unary minus wraps on the least int64 and the least int32. */
  function Negate(m: Money): Money {
    var units: int, nanos: int := m.units, m.nanos;
    Money(m.currencyCode, Wrap64(-units), Wrap32(-nanos))
  }

  function Sum(l: Money, r: Money): Result<Money, MoneyError> {
    if !IsValid(l) || !IsValid(r) then Failure(InvalidValue)
    else if l.currencyCode != r.currencyCode then Failure(MismatchingCurrency)
    else
      var units := Wrap64(l.units + r.units);
      var nanos := Wrap32(l.nanos + r.nanos);
      if (units == 0 && nanos == 0) || (units > 0 && nanos >= 0) || (units < 0 && nanos <= 0) then
        Success(Money(l.currencyCode, Wrap64(units + TruncDiv(nanos, NANOS_MOD)), TruncMod(nanos, NANOS_MOD)))
      else if units > 0 then
        Success(Money(l.currencyCode, units - 1, Wrap32(nanos + NANOS_MOD)))
      else
        Success(Money(l.currencyCode, units + 1, Wrap32(nanos - NANOS_MOD)))
  }

  // ---- The reference: an amount is a whole number of nanos. ----

  function TotalNanos(m: Money): int {
    m.units * NANOS_MOD + m.nanos
  }

  /** The amount has a representation with int64 units. */
  predicate Fits(total: int) {
    IsInt64(TruncDiv(total, NANOS_MOD))
  }

  /** The one valid Money worth a given number of nanos. */
  function FromTotal(total: int, code: string): (m: Money)
    requires Fits(total)
    ensures IsValid(m) && TotalNanos(m) == total && m.currencyCode == code
  {
    Money(code, TruncDiv(total, NANOS_MOD), TruncMod(total, NANOS_MOD))
  }

  /** A valid Money is determined by its currency and its worth. */
  lemma ValidIsCanonical(m: Money)
    requires IsValid(m)
    ensures Fits(TotalNanos(m)) && m == FromTotal(TotalNanos(m), m.currencyCode)
  {
    TruncDivUnique(TotalNanos(m), m.units, m.nanos);
  }

  lemma TruncDivUnique(total: int, units: int, nanos: int)
    requires total == units * NANOS_MOD + nanos
    requires -NANOS_MAX <= nanos <= NANOS_MAX
    requires nanos == 0 || units == 0 || (nanos < 0) == (units < 0)
    ensures TruncDiv(total, NANOS_MOD) == units && TruncMod(total, NANOS_MOD) == nanos
  {
  }

  /** The inputs on which Sum loses or invents money: the units overflow int64, or they cancel
      and the subtracted nanos overflow int32. */
  predicate SumOverflows(l: Money, r: Money) {
    var u := l.units + r.units;
    var n := l.nanos + r.nanos;
    || !IsInt64(u)
    || (u > 0 && n >= 0 && !IsInt64(u + n / NANOS_MOD))
    || (u < 0 && n <= 0 && !IsInt64(u - (-n) / NANOS_MOD))
    || (u == 0 && n < NANOS_MOD - TWO_31)
  }

  /** What Sum computes, before the carry or borrow. */
  lemma SumSteps(l: Money, r: Money)
    requires IsValid(l) && IsValid(r) && l.currencyCode == r.currencyCode
    ensures
      var u := l.units + r.units;
      var n := l.nanos + r.nanos;
      var w := if u < -TWO_63 then u + TWO_64 else if u >= TWO_63 then u - TWO_64 else u;
      && Wrap64(u) == w
      && Sum(l, r) == Success(
           if (w == 0 && n == 0) || (w > 0 && n >= 0) || (w < 0 && n <= 0) then
             Money(l.currencyCode, Wrap64(w + TruncDiv(n, NANOS_MOD)), TruncMod(n, NANOS_MOD))
           else if w > 0 then Money(l.currencyCode, w - 1, n + NANOS_MOD)
           else Money(l.currencyCode, w + 1, if n < NANOS_MOD - TWO_31 then n - NANOS_MOD + TWO_32 else n - NANOS_MOD))
  {
    var u: int := l.units + r.units;
    var n: int := l.nanos + r.nanos;
    Wrap64Cases(u);
    Wrap32Cases(n);
    Wrap32Cases(n + NANOS_MOD);
    Wrap32Cases(n - NANOS_MOD);
  }

  /** Money is conserved by Sum exactly when nothing overflows. */
  lemma SumConserves(l: Money, r: Money)
    requires IsValid(l) && IsValid(r) && l.currencyCode == r.currencyCode
    ensures Sum(l, r).Success?
    ensures TotalNanos(Sum(l, r).value) == TotalNanos(l) + TotalNanos(r) <==> !SumOverflows(l, r)
  {
    SumSteps(l, r);
    Wrap64Cases(Wrap64(l.units + r.units) + TruncDiv(l.nanos + r.nanos, NANOS_MOD));
  }

  /** Whether the sum's units do not cancel, or its nanos need no borrow. */
  predicate SumInRegion(l: Money, r: Money) {
    l.units + r.units != 0 || l.nanos + r.nanos == 0 || l.nanos + r.nanos >= NANOS_MOD
  }

  /** The result of Sum is valid exactly in the region; it then is the one valid Money worth
      the two together. */
  lemma SumValid(l: Money, r: Money)
    requires IsValid(l) && IsValid(r) && l.currencyCode == r.currencyCode
    requires IsInt64(l.units + r.units) && Fits(TotalNanos(l) + TotalNanos(r))
    ensures Sum(l, r).Success?
    ensures IsValid(Sum(l, r).value) <==> SumInRegion(l, r)
    ensures SumInRegion(l, r) ==> Sum(l, r).value == FromTotal(TotalNanos(l) + TotalNanos(r), l.currencyCode)
  {
    hide Sum, Wrap64, Wrap32;
    SumSteps(l, r);
    Wrap64Cases(l.units + r.units + TruncDiv(l.nanos + r.nanos, NANOS_MOD));
    if SumInRegion(l, r) {
      SumConserves(l, r);
      ValidIsCanonical(Sum(l, r).value);
    }
  }

  /** Adding the negation cancels to zero, except at the one negative amount whose negation
      wraps to an invalid Money. */
  lemma NegateCancels(m: Money)
    requires IsValid(m)
    ensures Sum(m, Negate(m)) == Success(Money(m.currencyCode, 0, 0)) <==> m.units != -TWO_63 || m.nanos == 0
  {
    var units: int, nanos: int := m.units, m.nanos;
    Wrap64Cases(-units);
    Wrap32Cases(-nanos);
    if m.units != -TWO_63 || m.nanos == 0 {
      SumSteps(m, Negate(m));
    }
  }

  /** Two amounts below one unit: the sum is worth the right number of nanos but is not valid, so
      adding anything more to it fails. */
  lemma SmallAmountsSumInvalid(code: string)
    ensures Sum(Money(code, 0, 200_000_000), Money(code, 0, 300_000_000)) == Success(Money(code, 1, -500_000_000))
    ensures Sum(Money(code, 1, -500_000_000), Money(code, 0, 0)) == Failure(InvalidValue)
  {
  }

  /** Adding fails exactly for an amount whose signs disagree or whose nanos are a whole unit or more, and otherwise
      for different currencies. */
  lemma SumFails(l: Money, r: Money)
    ensures Sum(l, r) == Failure(InvalidValue) <==>
      exists m :: m in [l, r] && (m.units * m.nanos < 0 || m.nanos <= -1_000_000_000 || m.nanos >= 1_000_000_000)
    ensures Sum(l, r) == Failure(MismatchingCurrency) <==>
      Sum(l, r) != Failure(InvalidValue) && l.currencyCode != r.currencyCode
    ensures Sum(l, r).Success? ==> Sum(l, r).value.currencyCode == l.currencyCode
  {
    forall m | m in [l, r]
      ensures IsValid(m) <==> m.units * m.nanos >= 0 && -1_000_000_000 < m.nanos < 1_000_000_000
    {
      ValidSigns(m);
    }
    assert l in [l, r] && r in [l, r];
  }

  lemma ValidSigns(m: Money)
    ensures SignMatches(m) <==> m.units * m.nanos >= 0
  {
    var u, n: int := m.units, m.nanos;
    if (u > 0 && n > 0) || (u < 0 && n < 0) {
      assert u * n > 0;
    } else if u > 0 && n < 0 {
      assert u * -n > 0;
    } else if u < 0 && n > 0 {
      assert -u * n > 0;
    }
  }

  lemma InvalidStops(l: Money, r: Money)
    requires !IsValid(l) || !IsValid(r)
    ensures Sum(l, r) == Failure(InvalidValue)
  {
  }

  // ---- Repeated addition ----

  /** Adding m to itself until there are k copies; a failed Must, a panic, ends the chain. */
  function Repeated(m: Money, k: nat): Result<Money, MoneyError>
    requires k >= 1
  {
    if k == 1 then Success(m)
    else
      match Repeated(m, k - 1)
      case Success(out) => Sum(out, m)
      case Failure(e) => Failure(e)
  }

  /** How often MultiplySlow counts its argument: never less than once. */
  function Copies(n: uint32): nat {
    Max(n, 1)
  }

  /** The loop of MultiplySlow. Must panics on the first failing Sum. */
  method MultiplySlow(m: Money, n: uint32) returns (out: Result<Money, MoneyError>)
    ensures out == Repeated(m, Copies(n))
  {
    var acc := m;
    var left := n;
    ghost var k := 1;
    while left > 1
      invariant 1 <= k <= Copies(n)
      invariant Repeated(m, k) == Success(acc)
      invariant k + Max(left, 1) - 1 == Copies(n)
    {
      var next := Sum(acc, m);
      if next.Failure? {
        RepeatedStaysFailed(m, k + 1, Copies(n));
        return next;
      }
      acc := next.value;
      left := left - 1;
      k := k + 1;
    }
    out := Success(acc);
  }

  lemma {:induction false} RepeatedStaysFailed(m: Money, j: nat, k: nat)
    requires 1 <= j <= k && Repeated(m, j).Failure?
    ensures Repeated(m, k) == Repeated(m, j)
  {
    if j < k {
      RepeatedStaysFailed(m, j, k - 1);
    }
  }

  /** The amounts that repeated addition can double. */
  predicate Doubles(m: Money) {
    IsZero(m) || m.units != 0 || m.nanos >= 500_000_000
  }

  /** For a valid amount, MultiplySlow is multiplication exactly when it makes one copy or the
      amount doubles. Otherwise two copies give an invalid Money and three or more panic. */
  lemma {:induction false} RepeatedIsMultiplication(m: Money, k: nat)
    requires k >= 1 && IsValid(m) && Fits(k * TotalNanos(m))
    ensures k == 1 || Doubles(m) ==> Repeated(m, k) == Success(FromTotal(k * TotalNanos(m), m.currencyCode))
    ensures k == 2 && !Doubles(m) ==> Repeated(m, k).Success? && !IsValid(Repeated(m, k).value)
    ensures k >= 3 && !Doubles(m) ==> Repeated(m, k) == Failure(InvalidValue)
  {
    hide Sum, Fits, Doubles, TotalNanos, FromTotal, IsValid;
    if k == 1 {
      ValidIsCanonical(m);
    } else {
      FewerCopiesFit(m, k - 1, k);
      RepeatedIsMultiplication(m, k - 1);
      if k == 2 || Doubles(m) {
        CopiesAddUp(m, k);
      } else if k == 3 {
        InvalidStops(Repeated(m, 2).value, m);
      }
    }
  }

  lemma FewerCopiesFit(m: Money, j: nat, k: nat)
    requires j <= k && Fits(k * TotalNanos(m))
    ensures Fits(j * TotalNanos(m))
  {
    hide TotalNanos;
    var t := TotalNanos(m);
    MoreCopies(j, k, Abs(t));
    assert j * -t == -(j * t) && k * -t == -(k * t);
  }

  lemma MoreCopies(j: nat, k: nat, t: nat)
    requires j <= k
    ensures 0 <= j * t <= k * t
  {
    assert k * t == j * t + (k - j) * t;
  }

  /** One more copy on top of k - 1. */
  lemma CopiesAddUp(m: Money, k: nat)
    requires k >= 2 && IsValid(m) && Fits(k * TotalNanos(m)) && Fits((k - 1) * TotalNanos(m))
    requires k == 2 || Doubles(m)
    ensures
      var s := Sum(FromTotal((k - 1) * TotalNanos(m), m.currencyCode), m);
      && s.Success?
      && (IsValid(s.value) <==> Doubles(m))
      && (Doubles(m) ==> s.value == FromTotal(k * TotalNanos(m), m.currencyCode))
  {
    var t := TotalNanos(m);
    var xt := (k - 1) * t;
    var x := FromTotal(xt, m.currencyCode);
    assert k * t == xt + t;
    CopiesKeepSign(t, k);
    UnitsFit(x, m);
    ValidIsCanonical(m);
    assert IsZero(m) ==> xt == 0;
    RegionIsDoubling(x, m);
    SumValid(x, m);
  }

  lemma RegionIsDoubling(x: Money, m: Money)
    requires IsValid(x) && IsValid(m) && (x == m || (Doubles(m) && !IsZero(m)))
    requires TotalNanos(x) >= TotalNanos(m) >= 0 || TotalNanos(x) <= TotalNanos(m) <= 0
    ensures SumInRegion(x, m) <==> Doubles(m)
  {
  }

  lemma CopiesKeepSign(t: int, k: nat)
    requires k >= 2
    ensures t >= 0 ==> (k - 1) * t >= t
    ensures t <= 0 ==> (k - 1) * t <= t
  {
    assert t >= 0 ==> (k - 2) * t >= 0;
    assert t <= 0 ==> (k - 2) * -t >= 0;
  }

  /** Two amounts of one sign whose sum fits have units that fit. */
  lemma UnitsFit(x: Money, y: Money)
    requires IsValid(x) && IsValid(y) && Fits(TotalNanos(x) + TotalNanos(y))
    requires (TotalNanos(x) >= 0 && TotalNanos(y) >= 0) || (TotalNanos(x) <= 0 && TotalNanos(y) <= 0)
    ensures IsInt64(x.units + y.units)
  {
  }
}
