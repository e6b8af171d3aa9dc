/** The currency service's arithmetic (src/currency/src/server.cpp), over exact reals. */
module Currency {
  import opened Base
  import opened MoneyArithmetic
  import opened Totals

  const RATES: map<string, real> := map[
    "EUR" := 1.0, "USD" := 1.1305, "JPY" := 126.40, "BGN" := 1.9558, "CZK" := 25.592, "DKK" := 7.4609,
    "GBP" := 0.85970, "HUF" := 315.51, "PLN" := 4.2996, "RON" := 4.7463, "SEK" := 10.5375, "CHF" := 1.1360,
    "ISK" := 136.80, "NOK" := 9.8040, "HRK" := 7.4210, "RUB" := 74.4208, "TRY" := 6.1247, "AUD" := 1.6072,
    "BRL" := 4.2682, "CAD" := 1.5128, "CNY" := 7.5857, "HKD" := 8.8743, "IDR" := 15999.40, "ILS" := 4.0875,
    "INR" := 79.4320, "KRW" := 1275.05, "MXN" := 21.7999, "MYR" := 4.6289, "NZD" := 1.6679, "PHP" := 59.083,
    "SGD" := 1.5349, "THB" := 36.012, "ZAR" := 16.0583]

  /** Number of decimal digits; zero has none. */
  function Digits(n: nat): nat {
    if n == 0 then 0 else 1 + Digits(n / 10)
  }

  function Power10(k: nat): (p: nat)
    ensures p >= 1
  {
    if k == 0 then 1 else 10 * Power10(k - 1)
  }

  /** What the digit loop makes of the nanos: their digits right behind the decimal point. */
  function Fraction(nanos: int): real {
    nanos as real / Power10(Digits(Abs(nanos))) as real
  }

  /** What the digit loop makes of an amount. */
  function AmountOf(m: Money): real {
    m.units as real + Fraction(m.nanos)
  }

  // ---- Multiplication and division of reals ----

  lemma ProductSign(a: real, b: real)
    requires a >= 0.0 && b >= 0.0
    ensures a * b >= 0.0
  {
  }

  lemma StrictProductSign(a: real, b: real)
    requires a > 0.0 && b > 0.0
    ensures a * b > 0.0
  {
  }

  lemma ProductOfDifference(a: real, b: real, c: real)
    ensures (a - b) * c == a * c - b * c
  {
  }

  /** n / p compares with c as n compares with c * p. */
  lemma QuotientCompares(n: real, p: real, c: real)
    requires p > 0.0
    ensures n / p >= c <==> n >= c * p
    ensures n / p <= c <==> n <= c * p
  {
    var q := n / p;
    assert q * p == n;
    ProductOfDifference(q, c, p);
    ProductOfDifference(c, q, p);
    if q > c {
      StrictProductSign(q - c, p);
    } else if q < c {
      StrictProductSign(c - q, p);
    }
  }

  // ---- The digit loop ----

  /** decimal/10 + digit/10 puts a digit in front of the digits of decimal. */
  lemma DigitInFront(decimal: real, digit: int, seen: int, p: nat)
    requires decimal * p as real == seen as real
    ensures (decimal / 10.0 + digit as real / 10.0) * (10 * p) as real == (seen + digit * p) as real
  {
    var q := p as real;
    assert (decimal / 10.0 + digit as real / 10.0) * (10.0 * q) == decimal * q + digit as real * q;
    assert (digit * p) as real == digit as real * q;
  }

  lemma DigitOff(n: int, p: nat, seen: int)
    ensures n * p + seen == TruncDiv(n, 10) * (10 * p) + (seen + TruncMod(n, 10) * p)
  {
    var q, d := TruncDiv(n, 10), TruncMod(n, 10);
    assert n == 10 * q + d;
    assert n * p == (10 * q + d) * p == q * (10 * p) + d * p;
  }

  /** With p the power of ten of the turns so far: the digits seen stand behind the point of decimal, and nanos
      holds the others. */
  ghost predicate DigitsSplit(whole: int, nanos: int, decimal: real, p: nat, seen: int) {
    && whole == nanos * p + seen
    && decimal * p as real == seen as real
    && p * Power10(Digits(Abs(nanos))) == Power10(Digits(Abs(whole)))
  }

  lemma DigitTurn(whole: int, nanos: int, decimal: real, p: nat, seen: int)
    requires DigitsSplit(whole, nanos, decimal, p, seen) && nanos != 0
    ensures
      var digit := TruncMod(nanos, 10);
      DigitsSplit(whole, TruncDiv(nanos, 10), decimal / 10.0 + digit as real / 10.0, 10 * p, seen + digit * p)
    ensures Abs(TruncDiv(nanos, 10)) < Abs(nanos)
  {
    hide Power10, Digits, TruncDiv, TruncMod, Abs;
    DigitInFront(decimal, TruncMod(nanos, 10), seen, p);
    DigitOff(nanos, p, seen);
    QuotientDigits(nanos, p);
  }

  lemma QuotientDigits(n: int, p: nat)
    requires n != 0
    ensures Abs(TruncDiv(n, 10)) < Abs(n)
    ensures (10 * p) * Power10(Digits(Abs(TruncDiv(n, 10)))) == p * Power10(Digits(Abs(n)))
  {
    assert Abs(TruncDiv(n, 10)) == Abs(n) / 10;
    assert Power10(Digits(Abs(n))) == 10 * Power10(Digits(Abs(n) / 10));
  }

  lemma DigitsDone(whole: int, decimal: real, p: nat, seen: int)
    requires DigitsSplit(whole, 0, decimal, p, seen)
    ensures decimal == Fraction(whole)
  {
    assert p == Power10(Digits(Abs(whole)));
    assert whole == seen;
    QuotientCompares(whole as real, p as real, decimal);
  }

  method GetDouble(money: Money) returns (value: real)
    ensures value == AmountOf(money)
  {
    var nanos: int := money.nanos;
    var decimal := 0.0;
    ghost var p: nat, seen: int := 1, 0;
    while nanos != 0
      invariant DigitsSplit(money.nanos, nanos, decimal, p, seen)
      decreases Abs(nanos)
    {
      DigitTurn(money.nanos, nanos, decimal, p, seen);
      p, seen := 10 * p, seen + TruncMod(nanos, 10) * p;
      var t := TruncMod(nanos, 10) as real / 10.0;
      nanos := TruncDiv(nanos, 10);
      decimal := decimal / 10.0 + t;
    }
    DigitsDone(money.nanos, decimal, p, seen);
    value := money.units as real + decimal;
  }

  /** The conversion of a real to a long in C++. */
  function TruncReal(x: real): int {
    if x >= 0.0 then x.Floor else -((-x).Floor)
  }

  const BILLION: real := 1_000_000_000.0

  function Worth(m: Money): real {
    m.units as real + m.nanos as real / BILLION
  }

  predicate InRange(value: real) {
    -9223372036854775808.0 < value < 9223372036854775808.0
  }

  lemma TruncBounds(x: real)
    ensures x >= 0.0 ==> 0.0 <= TruncReal(x) as real <= x < TruncReal(x) as real + 1.0
    ensures x <= 0.0 ==> TruncReal(x) as real - 1.0 < x <= TruncReal(x) as real <= 0.0
  {
  }

  /** The value truncated toward zero to whole nanos: valid, on the same side of zero, and less than a nano off. */
  function Split(value: real, code: string): (m: Money)
    requires InRange(value)
    ensures IsValid(m) && m.currencyCode == code
    ensures value >= 0.0 ==> 0.0 <= Worth(m) <= value < Worth(m) + 1.0 / BILLION
    ensures value <= 0.0 ==> Worth(m) - 1.0 / BILLION < value <= Worth(m) <= 0.0
  {
    var total := TruncReal(value * BILLION);
    TwoTruncations(value);
    TruncBounds(value);
    TruncBounds(value * BILLION);
    Money(code, TruncDiv(total, NANOS_MOD), TruncMod(total, NANOS_MOD))
  }

  /** Truncating to units and the remainder to nanos is truncating to nanos. */
  lemma TwoTruncations(value: real)
    ensures
      var total, unit := TruncReal(value * BILLION), TruncReal(value);
      && TruncDiv(total, NANOS_MOD) == unit
      && TruncMod(total, NANOS_MOD) == TruncReal((value - unit as real) * BILLION)
  {
    var unit := TruncReal(value);
    var rem := value - unit as real;
    TruncBounds(value);
    TruncBounds(rem * BILLION);
    assert value * BILLION == (unit * NANOS_MOD) as real + rem * BILLION;
    var nano := TruncReal(rem * BILLION);
    TruncSplit(unit * NANOS_MOD + nano, rem * BILLION - nano as real);
  }

  /** The service splits in two steps. */
  method GetUnitsAndNanos(value: real, code: string) returns (money: Money)
    requires InRange(value)
    ensures money == Split(value, code)
  {
    var unit := TruncReal(value);
    TruncBounds(value);
    var rem := value - unit as real;
    var nano := TruncReal(rem * BILLION);
    TwoTruncations(value);
    money := Money(code, unit, nano);
  }

  // ---- When the digit loop is right ----

  lemma {:induction false} DigitsBound(n: nat)
    ensures n < Power10(Digits(n))
    ensures n > 0 ==> Power10(Digits(n) - 1) <= n
  {
    if n > 0 {
      DigitsBound(n / 10);
    }
  }

  lemma {:induction false} Power10Grows(j: nat, k: nat)
    requires j <= k
    ensures Power10(j) <= Power10(k)
  {
    if j < k {
      Power10Grows(j, k - 1);
    }
  }

  lemma NineDigits(n: nat)
    ensures Digits(n) == 9 <==> 100_000_000 <= n < NANOS_MOD
    ensures Digits(n) < 9 <==> n < 100_000_000
  {
    DigitsBound(n);
    assert Power10(3) == 1000;
    assert Power10(6) == 1000 * Power10(3);
    assert Power10(8) == 100 * Power10(6) && Power10(9) == 10 * Power10(8);
    if Digits(n) >= 9 {
      Power10Grows(8, Digits(n) - 1);
    }
    if Digits(n) >= 10 {
      Power10Grows(9, Digits(n) - 1);
    }
    if Digits(n) <= 8 {
      Power10Grows(Digits(n), 8);
    }
  }

  lemma QuotientsDiffer(nanos: int, p: nat, q: nat)
    requires p > 0 && q > 0 && nanos != 0
    ensures nanos as real / p as real == nanos as real / q as real <==> p == q
  {
    var a, b := nanos as real / p as real, nanos as real / q as real;
    assert a * p as real == nanos as real && b * q as real == nanos as real;
    if a == b {
      assert a * p as real == a * q as real;
    }
  }

  /** The digit loop computes the amount exactly when there are no nanos or they have all nine digits. */
  lemma DigitLoopIsRight(m: Money)
    ensures AmountOf(m) == Worth(m) <==>
      m.nanos == 0 || 100_000_000 <= Abs(m.nanos) < NANOS_MOD
  {
    var d := Digits(Abs(m.nanos));
    NineDigits(Abs(m.nanos));
    assert Power10(9) == NANOS_MOD by {
      assert Power10(3) == 1000;
      assert Power10(6) == 1000 * Power10(3);
    }
    if m.nanos != 0 {
      QuotientsDiffer(m.nanos, Power10(d), NANOS_MOD);
      DigitsBound(Abs(m.nanos));
      PowersDiffer(d, 9);
    }
  }

  lemma PowersDiffer(j: nat, k: nat)
    ensures Power10(j) == Power10(k) <==> j == k
  {
    if j < k {
      Power10Grows(j + 1, k);
    } else if k < j {
      Power10Grows(k + 1, j);
    }
  }

  // ---- Conversion ----

  /** The rate that a lookup finds; looking up an unknown code adds it with a rate of zero. */
  function RateOf(code: string): (rate: real)
    ensures rate >= 0.0 && (rate > 0.0 <==> code in RATES)
  {
    if code in RATES then RATES[code] else 0.0
  }

  /** By way of one euro. */
  function Exchange(amount: real, rate: real, toRate: real): real
    requires rate > 0.0
  {
    amount / rate * toRate
  }

  lemma ExchangeKeepsSign(amount: real, rate: real, toRate: real)
    requires rate > 0.0 && toRate >= 0.0 && amount >= 0.0
    ensures Exchange(amount, rate, toRate) >= 0.0
  {
    QuotientCompares(amount, rate, 0.0);
    ProductSign(amount / rate, toRate);
  }

  lemma ExchangeBack(amount: real, rate: real)
    requires rate > 0.0
    ensures Exchange(amount, rate, rate) == amount
  {
  }

  /** The value of a conversion between two rates, before it is split. */
  function Converted(from: Money, rate: real, toRate: real): real
    requires rate > 0.0
  {
    Exchange(AmountOf(from), rate, toRate)
  }

  predicate Convertible(from: Money, toCode: string) {
    from.currencyCode in RATES && InRange(Converted(from, RateOf(from.currencyCode), RateOf(toCode)))
  }

  function Conversion(from: Money, toCode: string): Money
    requires Convertible(from, toCode)
  {
    Split(Converted(from, RateOf(from.currencyCode), RateOf(toCode)), toCode)
  }

  class CurrencyService {
    var rates: map<string, real>

    /** The known rates, and zeros for other codes that were looked up. */
    ghost predicate Valid()
      reads this
    {
      RATES.Keys <= rates.Keys && forall code :: code in rates ==> rates[code] == RateOf(code)
    }

    constructor ()
      ensures Valid() && rates == RATES
    {
      rates := RATES;
    }

    method Rate(code: string) returns (rate: real)
      requires Valid()
      modifies this
      ensures Valid() && rates.Keys == old(rates.Keys) + {code} && rate == RateOf(code)
    {
      if code !in rates {
        rates := rates[code := 0.0];
      }
      rate := rates[code];
    }

    /** Converting from an unknown currency divides by zero, and a long holds no more than an int64; both are outside
        the service's domain. A target code becomes a supported one. */
    method Convert(from: Money, toCode: string) returns (money: Money)
      requires Valid() && Convertible(from, toCode)
      modifies this
      ensures Valid() && rates.Keys == old(rates.Keys) + {toCode}
      ensures money == Conversion(from, toCode)
    {
      var rate := Rate(from.currencyCode);
      var amount := GetDouble(from);
      var toRate := Rate(toCode);
      var final := Exchange(amount, rate, toRate);
      money := GetUnitsAndNanos(final, toCode);
    }
  }

  /** Converting to an unknown currency gives nothing. */
  lemma UnknownTargetGivesNothing(from: Money, toCode: string)
    requires from.currencyCode in RATES && toCode !in RATES
    ensures Convertible(from, toCode) && Conversion(from, toCode) == Money(toCode, 0, 0)
  {
    assert Converted(from, RateOf(from.currencyCode), RateOf(toCode)) == 0.0;
    TwoTruncations(0.0);
  }

  /** m is x truncated toward zero to whole nanos: on the same side of zero, no larger, less than a nano off. */
  ghost predicate Truncates(m: Money, x: real) {
    && (x >= 0.0 ==> 0.0 <= Worth(m) <= x < Worth(m) + 1.0 / 1_000_000_000.0)
    && (x <= 0.0 ==> Worth(m) - 1.0 / 1_000_000_000.0 < x <= Worth(m) <= 0.0)
  }

  /** The exchanged amount relates to the rate as the amount does to its own rate. */
  lemma ExchangeByCrossMultiplying(amount: real, rate: real, toRate: real, x: real)
    requires rate > 0.0
    ensures x * rate == amount * toRate <==> x == Exchange(amount, rate, toRate)
  {
    var y := amount / rate * toRate;
    assert y * rate == amount / rate * rate * toRate == amount * toRate;
    if x > y {
      StrictProductSign(x - y, rate);
      ProductOfDifference(x, y, rate);
    } else if x < y {
      StrictProductSign(y - x, rate);
      ProductOfDifference(y, x, rate);
    }
  }

  /** A conversion between known currencies is valid Money of the target currency. It is the amount as the digit loop
      reads it, in the proportion of the rates, truncated toward zero; when the digit loop is right, it is the intended
      amount. */
  lemma ConversionBound(from: Money, toCode: string, x: real)
    requires Convertible(from, toCode) && toCode in RATES
    ensures IsValid(Conversion(from, toCode)) && Conversion(from, toCode).currencyCode == toCode
    ensures x * RATES[from.currencyCode] == AmountOf(from) * RATES[toCode] ==> Truncates(Conversion(from, toCode), x)
    ensures from.nanos == 0 || 100_000_000 <= Abs(from.nanos) < NANOS_MOD ==>
      x * RATES[from.currencyCode] == Worth(from) * RATES[toCode] ==> Truncates(Conversion(from, toCode), x)
  {
    hide RATES, Split, Exchange, Truncates, AmountOf, Worth, Converted, InRange, IsValid, Abs;
    BoundAt(from, RATES[from.currencyCode], RATES[toCode], toCode, x);
  }

  lemma BoundAt(from: Money, rate: real, toRate: real, toCode: string, x: real)
    requires rate > 0.0 && InRange(Converted(from, rate, toRate))
    ensures
      var m := Split(Converted(from, rate, toRate), toCode);
      && (x * rate == AmountOf(from) * toRate ==> Truncates(m, x))
      && (from.nanos == 0 || 100_000_000 <= Abs(from.nanos) < NANOS_MOD ==>
            x * rate == Worth(from) * toRate ==> Truncates(m, x))
  {
    DigitLoopIsRight(from);
    hide Split, Exchange, Truncates, AmountOf, Worth, Abs, InRange;
    ExchangeByCrossMultiplying(AmountOf(from), rate, toRate, x);
    SplitTruncates(Converted(from, rate, toRate), toCode);
  }

  lemma SplitTruncates(value: real, code: string)
    requires InRange(value)
    ensures Truncates(Split(value, code), value)
  {
  }

  /** There is one such amount. */
  lemma OneTruncation(m: Money, x: real)
    requires IsValid(m) && InRange(x)
    ensures Truncates(m, x) <==> m == Split(x, m.currencyCode)
  {
    hide Split, InRange;
    var s := Split(x, m.currencyCode);
    SplitTruncates(x, m.currencyCode);
    WorthInNanos(m);
    WorthInNanos(s);
    if Truncates(m, x) {
      assert -1.0 < TotalNanos(m) as real - TotalNanos(s) as real < 1.0;
      ValidIsCanonical(m);
      ValidIsCanonical(s);
    }
  }

  lemma WorthInNanos(m: Money)
    ensures Worth(m) * BILLION == TotalNanos(m) as real
  {
  }

  /** Ten euros are 11 dollars and 305 thousandths. */
  lemma TenEuros()
    ensures Convertible(Money("EUR", 10, 0), "USD")
    ensures Conversion(Money("EUR", 10, 0), "USD") == Money("USD", 11, 305_000_000)
  {
    assert RateOf("EUR") == 1.0 && RateOf("USD") == 1.1305;
    hide RATES, RateOf, Split, Converted, AmountOf;
    TenAtRate();
  }

  lemma TenAtRate()
    ensures Converted(Money("EUR", 10, 0), 1.0, 1.1305) == 11.305
    ensures Split(11.305, "USD") == Money("USD", 11, 305_000_000)
  {
    hide RATES, RateOf, Split;
    assert AmountOf(Money("EUR", 10, 0)) == 10.0;
    SplitOfWorth(Money("USD", 11, 305_000_000));
    assert Worth(Money("USD", 11, 305_000_000)) == 11.305;
  }

  /** Prices stay prices: a valid amount that is not negative converts to one. */
  lemma PricesStayPrices(from: Money, toCode: string)
    requires Convertible(from, toCode) && Priced(from, from.currencyCode)
    ensures Priced(Conversion(from, toCode), toCode)
  {
    var rate, toRate := RateOf(from.currencyCode), RateOf(toCode);
    FractionSign(from.nanos);
    ExchangeKeepsSign(AmountOf(from), rate, toRate);
    SplitSign(Converted(from, rate, toRate), toCode);
  }

  lemma FractionSign(nanos: int)
    ensures nanos >= 0 ==> 0.0 <= Fraction(nanos) < 1.0
    ensures nanos <= 0 ==> -1.0 < Fraction(nanos) <= 0.0
  {
    var p := Power10(Digits(Abs(nanos)));
    DigitsBound(Abs(nanos));
    SmallQuotient(nanos as real, p as real);
  }

  lemma SmallQuotient(n: real, p: real)
    requires p > 0.0 && -p < n < p
    ensures n >= 0.0 ==> 0.0 <= n / p < 1.0
    ensures n <= 0.0 ==> -1.0 < n / p <= 0.0
  {
    QuotientCompares(n, p, 0.0);
    QuotientCompares(n, p, 1.0);
    QuotientCompares(n, p, -1.0);
  }

  lemma SplitSign(value: real, code: string)
    requires InRange(value)
    ensures value >= 0.0 ==> Split(value, code).units >= 0 && Split(value, code).nanos >= 0
  {
    TruncBounds(value);
    TruncBounds((value - TruncReal(value) as real) * BILLION);
  }

  /** Converting to its own currency gives a valid amount back exactly when the digit loop is right about it:
      0.05 comes back as 0.5. */
  lemma SameCurrencyIsIdentity(m: Money)
    requires IsValid(m) && Convertible(m, m.currencyCode)
    ensures Conversion(m, m.currencyCode) == m <==> m.nanos == 0 || Abs(m.nanos) >= 100_000_000
  {
    ExchangeBack(AmountOf(m), RateOf(m.currencyCode));
    DigitLoopIsRight(m);
    if m.nanos == 0 || Abs(m.nanos) >= 100_000_000 {
      SplitOfWorth(m);
    } else {
      SplitShifts(m);
    }
  }

  lemma SplitOfWorth(m: Money)
    requires IsValid(m) && InRange(Worth(m))
    ensures Split(Worth(m), m.currencyCode) == m
  {
    OneTruncation(m, Worth(m));
  }

  /** The integer part of an integer and a fraction of its sign. */
  lemma TruncSplit(n: int, f: real)
    requires -1.0 < f < 1.0 && ((n >= 0 && f >= 0.0) || (n <= 0 && f <= 0.0))
    ensures TruncReal(n as real + f) == n
  {
  }

  lemma SplitNanos(value: real, unit: int, rem: real, code: string)
    requires InRange(value) && value == unit as real + rem && TruncReal(value) == unit
    ensures Split(value, code).nanos == TruncReal(rem * BILLION)
  {
    TwoTruncations(value);
    assert value - unit as real == rem;
  }

  lemma SplitShifts(m: Money)
    requires IsValid(m) && m.nanos != 0 && Abs(m.nanos) < 100_000_000
    requires InRange(AmountOf(m))
    ensures Split(AmountOf(m), m.currencyCode).nanos != m.nanos
  {
    hide Split, Fraction, TruncReal;
    var f := Fraction(m.nanos);
    FractionSign(m.nanos);
    FractionIsLarge(m.nanos);
    TruncSplit(m.units, f);
    TruncBounds(f * BILLION);
    SplitNanos(AmountOf(m), m.units, f, m.currencyCode);
  }

  /** With fewer than nine digits, the fraction is at least ten times too large. */
  lemma FractionIsLarge(nanos: int)
    requires nanos != 0 && Abs(nanos) < 100_000_000
    ensures nanos > 0 ==> Fraction(nanos) * BILLION >= (10 * nanos) as real
    ensures nanos < 0 ==> Fraction(nanos) * BILLION <= (10 * nanos) as real
  {
    var d := Digits(Abs(nanos));
    var p := Power10(d);
    NineDigits(Abs(nanos));
    Power10Grows(d, 8);
    assert Power10(8) == 100_000_000 by {
      assert Power10(4) == 10_000;
    }
    LargeQuotient(nanos as real, p as real);
  }

  lemma LargeQuotient(n: real, p: real)
    requires 0.0 < p <= 100_000_000.0
    ensures n > 0.0 ==> n / p * BILLION >= 10.0 * n
    ensures n < 0.0 ==> n / p * BILLION <= 10.0 * n
  {
    var c := 10.0 * n / BILLION;
    QuotientCompares(n, p, c);
    if n > 0.0 {
      ProductSign(c, 100_000_000.0 - p);
      ProductOfDifference(100_000_000.0, p, c);
    } else if n < 0.0 {
      ProductSign(-c, 100_000_000.0 - p);
      ProductOfDifference(100_000_000.0, p, -c);
    }
  }
}
