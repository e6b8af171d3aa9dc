/** The byte layer of the Protocol Buffers encoding: base 128 varints, tags, fixed-width and
    length-delimited values (sections "Base 128 Varints", "Message Structure", "Signed Integers" and
    "Length-Delimited Records" of its encoding document). */
module Wire {
  import opened Base

  type byte = x: int | 0 <= x < 256

  datatype WireError = PrematureEnd | InvalidVarint | CannotSkip | UnsafeInteger | TooDeep

  /** A value and the position after it. */
  datatype Read<+T> = Read(value: T, pos: nat)

  const VARINT: nat := 0
  const BIT64: nat := 1
  const LENGTH_DELIMITED: nat := 2
  const END_GROUP: nat := 4
  const BIT32: nat := 5

  /** The bytes stand at a position of the buffer. */
  predicate At(buf: seq<byte>, pos: nat, bytes: seq<byte>) {
    pos + |bytes| <= |buf| && buf[pos..pos + |bytes|] == bytes
  }

  lemma AtSplit(buf: seq<byte>, pos: nat, a: seq<byte>, b: seq<byte>)
    requires At(buf, pos, a + b)
    ensures At(buf, pos, a) && At(buf, pos + |a|, b)
  {
    var whole := buf[pos..pos + |a + b|];
    assert buf[pos..pos + |a|] == whole[..|a|] == a;
    assert buf[pos + |a|..pos + |a| + |b|] == whole[|a|..] == b;
  }

  // ---- Varints ----

  function EncodeVarint(n: nat): (bytes: seq<byte>)
    ensures |bytes| >= 1
  {
    if n < 128 then [n] else [128 + n % 128] + EncodeVarint(n / 128)
  }

  function ReadVarintUpTo(buf: seq<byte>, pos: nat, limit: nat): (r: Result<Read<nat>, WireError>)
    ensures r.Success? ==> pos < r.value.pos <= |buf|
    decreases limit
  {
    if limit == 0 then Failure(InvalidVarint)
    else if pos >= |buf| then Failure(PrematureEnd)
    else if buf[pos] < 128 then Success(Read(buf[pos], pos + 1))
    else
      match ReadVarintUpTo(buf, pos + 1, limit - 1)
      case Failure(e) => Failure(e)
      case Success(rest) => Success(Read(buf[pos] - 128 + 128 * rest.value, rest.pos))
  }

  /** A varint has at most ten bytes. */
  function ReadVarint(buf: seq<byte>, pos: nat): (r: Result<Read<nat>, WireError>)
    ensures r.Success? ==> pos < r.value.pos <= |buf|
  {
    ReadVarintUpTo(buf, pos, 10)
  }

  function Power128(k: nat): (p: nat)
    ensures p >= 1
  {
    if k == 0 then 1 else 128 * Power128(k - 1)
  }

  lemma {:induction false} VarintUpToRoundTrip(buf: seq<byte>, pos: nat, n: nat, limit: nat)
    requires At(buf, pos, EncodeVarint(n)) && n < Power128(limit) && limit >= 1
    ensures ReadVarintUpTo(buf, pos, limit) == Success(Read(n, pos + |EncodeVarint(n)|))
    decreases limit
  {
    var bytes := EncodeVarint(n);
    assert buf[pos] == buf[pos..pos + |bytes|][0] == bytes[0];
    if n >= 128 {
      AtSplit(buf, pos, [128 + n % 128], EncodeVarint(n / 128));
      VarintUpToRoundTrip(buf, pos + 1, n / 128, limit - 1);
    }
  }

  lemma DivideTwice(n: nat, p: nat)
    requires p > 0
    ensures n / 128 / p == n / (128 * p)
  {
    var q, r := n / 128 / p, n / 128 % p;
    assert n == 128 * (p * q + r) + n % 128;
    var rest := 128 * r + n % 128;
    assert n == (128 * p) * q + rest && 0 <= rest < 128 * p by {
      assert 128 * (p * q) == (128 * p) * q;
    }
    QuotientIs(n, 128 * p, q, rest);
  }

  lemma QuotientIs(n: int, p: nat, q: int, r: int)
    requires p > 0 && n == p * q + r && 0 <= r < p
    ensures n / p == q
  {
    var d := n / p - q;
    assert p * d == r - n % p by {
      assert p * (n / p) + n % p == n;
      assert p * d == p * (n / p) - p * q;
    }
    if d >= 1 {
      Larger(p, d);
      assert false;
    } else if d <= -1 {
      Larger(p, -d);
      assert false;
    }
  }

  lemma Larger(p: int, d: int)
    requires p > 0 && d >= 1
    ensures p * d >= p && p * -d <= -p
  {
  }

  /** Digit k of a number in base 128, rounding down. */
  function Digit(n: int, k: nat): int {
    n / Power128(k) % 128
  }

  lemma DigitBehind(n: nat, k: nat)
    ensures Digit(n, k + 1) == Digit(n / 128, k) && Digit(n, 0) == n % 128
  {
    DivideTwice(n, Power128(k));
  }

  /** The digits of the number in base 128, least first, with the continuation bit on all of them but the last, and
      no more of them than it takes. */
  lemma {:induction false} VarintDigits(n: nat)
    ensures
      var bytes := EncodeVarint(n);
      && (forall i :: 0 <= i < |bytes| ==> bytes[i] == Digit(n, i) + if i < |bytes| - 1 then 128 else 0)
      && n < Power128(|bytes|) && (|bytes| > 1 ==> n >= Power128(|bytes| - 1))
  {
    hide Digit;
    var bytes := EncodeVarint(n);
    DigitBehind(n, 0);
    if n >= 128 {
      VarintDigits(n / 128);
      var rest := EncodeVarint(n / 128);
      forall i | 0 <= i < |bytes|
        ensures bytes[i] == Digit(n, i) + if i < |bytes| - 1 then 128 else 0
      {
        if i > 0 {
          assert bytes[i] == rest[i - 1];
          DigitBehind(n, i - 1);
        }
      }
    }
  }

  lemma VarintRoundTrip(buf: seq<byte>, pos: nat, n: nat)
    requires At(buf, pos, EncodeVarint(n)) && n < TWO_64
    ensures ReadVarint(buf, pos) == Success(Read(n, pos + |EncodeVarint(n)|))
  {
    assert Power128(5) == 0x8_0000_0000;
    assert Power128(10) == 128 * 128 * 128 * 128 * 128 * Power128(5);
    VarintUpToRoundTrip(buf, pos, n, 10);
  }

  // ---- Integers ----

  /** Negative numbers are sign-extended to 64 bits and take ten bytes. */
  function EncodeInt(n: int): seq<byte>
    requires IsInt64(n)
  {
    EncodeVarint(if n < 0 then n + TWO_64 else n)
  }

  lemma {:induction false} Power128Adds(i: nat, j: nat)
    ensures Power128(i + j) == Power128(i) * Power128(j)
  {
    if i > 0 {
      Power128Adds(i - 1, j);
    }
  }

  lemma Power128Grows(i: nat, j: nat)
    requires i <= j
    ensures Power128(i) <= Power128(j)
  {
    Power128Adds(j - i, i);
  }

  /** Adding 2^64 does not show in the digits below the tenth. */
  lemma DigitOfComplement(n: int, i: nat)
    requires i < 9
    ensures Digit(n + TWO_64, i) == Digit(n, i)
  {
    Power9();
    Power128Adds(i, 9 - i);
    var p, k := Power128(i), 2 * Power128(8 - i);
    assert TWO_64 == p * (128 * k) by {
      assert Power128(9 - i) == 128 * Power128(8 - i);
    }
    DigitShift(n, p, k);
  }

  lemma DigitShift(n: int, p: nat, k: nat)
    requires p > 0
    ensures (n + p * (128 * k)) / p % 128 == n / p % 128
  {
    var q, r := n / p, n % p;
    assert n + p * (128 * k) == p * (q + 128 * k) + r;
    QuotientIs(n + p * (128 * k), p, q + 128 * k, r);
  }

  /** A negative number is written as the ten digits of its two's complement. */
  lemma NegativeDigits(n: int)
    requires -TWO_63 <= n < 0
    ensures
      var bytes := EncodeInt(n);
      && |bytes| == 10 && bytes[9] == 1
      && forall i :: 0 <= i < 9 ==> bytes[i] == 128 + Digit(n, i)
  {
    hide EncodeVarint, Digit;
    var u := n + TWO_64;
    VarintDigits(u);
    TenBytes(u, |EncodeInt(n)|);
    forall i | 0 <= i < 9 ensures EncodeInt(n)[i] == 128 + Digit(n, i) {
      DigitOfComplement(n, i);
    }
    TenthDigit(u);
  }

  lemma TenthDigit(u: nat)
    requires TWO_63 <= u < TWO_64
    ensures Digit(u, 9) == 1
  {
    Power9();
    QuotientIs(u, Power128(9), 1, u - Power128(9));
  }

  lemma Power9()
    ensures Power128(9) == TWO_63
  {
    Power128Adds(4, 5);
    assert Power128(4) == 0x1000_0000;
    assert Power128(5) == 0x8_0000_0000;
  }

  lemma TenBytes(u: nat, k: nat)
    requires TWO_63 <= u < TWO_64 && k >= 1 && u < Power128(k) && (k > 1 ==> u >= Power128(k - 1))
    ensures k == 10
  {
    Power9();
    if k > 10 {
      Power128Grows(10, k - 1);
    } else if k < 10 {
      Power128Grows(k, 9);
    }
  }

  function ReadUint32(buf: seq<byte>, pos: nat): (r: Result<Read<nat>, WireError>)
    ensures r.Success? ==> pos < r.value.pos <= |buf| && r.value.value < TWO_32
  {
    match ReadVarint(buf, pos)
    case Failure(e) => Failure(e)
    case Success(v) => Success(Read(v.value % TWO_32, v.pos))
  }

  function ReadInt32(buf: seq<byte>, pos: nat): (r: Result<Read<int>, WireError>)
    ensures r.Success? ==> pos < r.value.pos <= |buf|
  {
    match ReadVarint(buf, pos)
    case Failure(e) => Failure(e)
    case Success(v) => Success(Read(Wrap32(v.value), v.pos))
  }

  const MAX_SAFE_INTEGER: int := 0x1F_FFFF_FFFF_FFFF

  predicate IsSafe(n: int) {
    -MAX_SAFE_INTEGER <= n <= MAX_SAFE_INTEGER
  }

  /** An int64, then longToNumber, which throws outside the safe integers. */
  function ReadSafeInt64(buf: seq<byte>, pos: nat): (r: Result<Read<int>, WireError>)
    ensures r.Success? ==> pos < r.value.pos <= |buf|
  {
    match ReadVarint(buf, pos)
    case Failure(e) => Failure(e)
    case Success(v) =>
      if IsSafe(Wrap64(v.value)) then Success(Read(Wrap64(v.value), v.pos)) else Failure(UnsafeInteger)
  }

  lemma Uint32RoundTrip(buf: seq<byte>, pos: nat, n: uint32)
    requires At(buf, pos, EncodeVarint(n))
    ensures ReadUint32(buf, pos) == Success(Read(n, pos + |EncodeVarint(n)|))
  {
    VarintRoundTrip(buf, pos, n);
  }

  /** Larger numbers lose the bits above the thirty-second. */
  lemma WideVarints(buf: seq<byte>, pos: nat, n: nat)
    requires n < TWO_64 && At(buf, pos, EncodeVarint(n))
    ensures
      var low := n % 0x1_0000_0000;
      && ReadUint32(buf, pos) == Success(Read(low, pos + |EncodeVarint(n)|))
      && ReadInt32(buf, pos) ==
           Success(Read(if low < 0x8000_0000 then low else low - 0x1_0000_0000, pos + |EncodeVarint(n)|))
  {
    VarintRoundTrip(buf, pos, n);
    Wrap32Shift(n, n / TWO_32);
    Wrap32Cases(n % TWO_32);
  }

  lemma Int32RoundTrip(buf: seq<byte>, pos: nat, n: int32)
    requires At(buf, pos, EncodeInt(n))
    ensures ReadInt32(buf, pos) == Success(Read(n, pos + |EncodeInt(n)|))
  {
    VarintRoundTrip(buf, pos, if n < 0 then n + TWO_64 else n);
    Wrap32Cases(n);
    Wrap32Shift(n + TWO_64, TWO_32);
  }

  /** An int64 is read back exactly when it is a safe integer. */
  lemma SafeInt64RoundTrip(buf: seq<byte>, pos: nat, n: int64)
    requires At(buf, pos, EncodeInt(n))
    ensures IsSafe(n) <==> -9_007_199_254_740_991 <= n <= 9_007_199_254_740_991
    ensures ReadSafeInt64(buf, pos) ==
      if IsSafe(n) then Success(Read(n, pos + |EncodeInt(n)|)) else Failure(UnsafeInteger)
  {
    var u := if n < 0 then n + TWO_64 else n;
    VarintRoundTrip(buf, pos, u);
    Wrap64Cases(u);
  }

  // ---- Length-delimited values and skipping ----

  function ReadBytes(buf: seq<byte>, pos: nat): (r: Result<Read<seq<byte>>, WireError>)
    ensures r.Success? ==> pos < r.value.pos <= |buf|
  {
    match ReadUint32(buf, pos)
    case Failure(e) => Failure(e)
    case Success(n) =>
      if n.pos + n.value <= |buf| then Success(Read(buf[n.pos..n.pos + n.value], n.pos + n.value))
      else Failure(PrematureEnd)
  }

  lemma BytesRoundTrip(buf: seq<byte>, pos: nat, bytes: seq<byte>)
    requires |bytes| < TWO_32 && At(buf, pos, EncodeVarint(|bytes|) + bytes)
    ensures ReadBytes(buf, pos) == Success(Read(bytes, pos + |EncodeVarint(|bytes|) + bytes|))
  {
    AtSplit(buf, pos, EncodeVarint(|bytes|), bytes);
    Uint32RoundTrip(buf, pos, |bytes|);
  }

  function SkipVarint(buf: seq<byte>, pos: nat): (r: Result<nat, WireError>)
    ensures r.Success? ==> pos <= r.value <= |buf|
    decreases |buf| - pos
  {
    if pos >= |buf| then Failure(PrematureEnd)
    else if buf[pos] < 128 then Success(pos + 1)
    else SkipVarint(buf, pos + 1)
  }

  /** Passes over a field whose tag is not recognized. */
  function Skip(buf: seq<byte>, pos: nat, wireType: nat): (r: Result<nat, WireError>)
    requires pos <= |buf|
    ensures r.Success? ==> pos <= r.value <= |buf|
  {
    if wireType == VARINT then SkipVarint(buf, pos)
    else if wireType == BIT64 then if pos + 8 <= |buf| then Success(pos + 8) else Failure(PrematureEnd)
    else if wireType == LENGTH_DELIMITED then
      match ReadBytes(buf, pos)
      case Failure(e) => Failure(e)
      case Success(r) => Success(r.pos)
    else if wireType == BIT32 then if pos + 4 <= |buf| then Success(pos + 4) else Failure(PrematureEnd)
    else Failure(CannotSkip)
  }

  /** A payload that follows a tag of this wire type. A varint may be of any length here. */
  predicate IsPayload(wireType: nat, payload: seq<byte>) {
    if wireType == VARINT then
      payload != [] && payload[|payload| - 1] < 128 && forall i :: 0 <= i < |payload| - 1 ==> payload[i] >= 128
    else if wireType == BIT64 then |payload| == 8
    else if wireType == LENGTH_DELIMITED then
      exists n: nat :: 0 <= n <= |payload| && n < TWO_32 && payload == EncodeVarint(n) + payload[|payload| - n..]
    else wireType == BIT32 && |payload| == 4
  }

  lemma {:induction false} SkipVarintPayload(buf: seq<byte>, pos: nat, payload: seq<byte>)
    requires IsPayload(VARINT, payload) && At(buf, pos, payload)
    ensures SkipVarint(buf, pos) == Success(pos + |payload|)
    decreases |payload|
  {
    assert buf[pos] == buf[pos..pos + |payload|][0] == payload[0];
    if |payload| > 1 {
      assert payload == [payload[0]] + payload[1..];
      AtSplit(buf, pos, [payload[0]], payload[1..]);
      SkipVarintPayload(buf, pos + 1, payload[1..]);
    }
  }

  lemma SkipPayload(buf: seq<byte>, pos: nat, wireType: nat, payload: seq<byte>)
    requires IsPayload(wireType, payload) && At(buf, pos, payload)
    ensures Skip(buf, pos, wireType) == Success(pos + |payload|)
  {
    if wireType == VARINT {
      SkipVarintPayload(buf, pos, payload);
    } else if wireType == LENGTH_DELIMITED {
      hide EncodeVarint, ReadBytes;
      var n: nat :| 0 <= n <= |payload| && n < TWO_32 && payload == EncodeVarint(n) + payload[|payload| - n..];
      BytesRoundTrip(buf, pos, payload[|payload| - n..]);
    }
  }

  /** What is skipped as a varint is a payload, and so is whatever was encoded. */
  lemma {:induction false} SkippedVarint(buf: seq<byte>, pos: nat)
    requires SkipVarint(buf, pos).Success?
    ensures pos < SkipVarint(buf, pos).value && IsPayload(VARINT, buf[pos..SkipVarint(buf, pos).value])
    decreases |buf| - pos
  {
    if buf[pos] >= 128 {
      SkippedVarint(buf, pos + 1);
      var next := SkipVarint(buf, pos).value;
      assert buf[pos..next] == [buf[pos]] + buf[pos + 1..next];
    }
  }

  lemma EncodedPayloads(n: nat, bytes: seq<byte>)
    requires |bytes| < TWO_32
    ensures IsPayload(0, EncodeVarint(n)) && IsPayload(2, EncodeVarint(|bytes|) + bytes)
    ensures |bytes| == 8 ==> IsPayload(1, bytes)
    ensures |bytes| == 4 ==> IsPayload(5, bytes)
  {
    VarintDigits(n);
    var payload := EncodeVarint(|bytes|) + bytes;
    assert payload == EncodeVarint(|bytes|) + payload[|payload| - |bytes|..];
  }
}
