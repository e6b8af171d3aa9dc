/** How decoding ends early: a buffer that breaks off inside a field, numbers that are too long or too large,
    tags that end the loop, and nesting that is too deep. */
module CodecFailures {
  import opened Base
  import opened Wire
  import opened Codec
  import opened CodecProofs

  // ---- Truncation ----

  /** The buffer breaks off inside the bytes that stand at a position. */
  predicate CutShort(buf: seq<byte>, pos: nat, bytes: seq<byte>) {
    pos <= |buf| < pos + |bytes| && buf[pos..] == bytes[..|buf| - pos]
  }

  lemma CutSplit(buf: seq<byte>, pos: nat, a: seq<byte>, b: seq<byte>)
    requires CutShort(buf, pos, a + b)
    ensures CutShort(buf, pos, a) || (At(buf, pos, a) && CutShort(buf, pos + |a|, b))
  {
    var left := |buf| - pos;
    if left < |a| {
      assert (a + b)[..left] == a[..left];
    } else {
      assert buf[pos..pos + |a|] == buf[pos..][..|a|] == (a + b)[..left][..|a|] == a;
      assert buf[pos + |a|..] == buf[pos..][|a|..] == (a + b)[..left][|a|..] == b[..left - |a|];
    }
  }

  lemma {:induction false} CutVarintUpTo(buf: seq<byte>, pos: nat, n: nat, limit: nat)
    requires CutShort(buf, pos, EncodeVarint(n)) && n < Power128(limit) && limit >= 1
    ensures ReadVarintUpTo(buf, pos, limit) == Failure(PrematureEnd)
    decreases limit
  {
    if pos < |buf| {
      assert buf[pos] == buf[pos..][0] == EncodeVarint(n)[0];
      CutSplit(buf, pos, [128 + n % 128], EncodeVarint(n / 128));
      CutVarintUpTo(buf, pos + 1, n / 128, limit - 1);
    }
  }

  lemma CutVarint(buf: seq<byte>, pos: nat, n: nat)
    requires CutShort(buf, pos, EncodeVarint(n)) && n < TWO_64
    ensures ReadVarint(buf, pos) == Failure(PrematureEnd)
  {
    Power9();
    assert Power128(10) == 128 * Power128(9);
    CutVarintUpTo(buf, pos, n, 10);
  }

  lemma CutBytes(buf: seq<byte>, pos: nat, bytes: seq<byte>)
    requires |bytes| < TWO_32 && CutShort(buf, pos, EncodeVarint(|bytes|) + bytes)
    ensures ReadBytes(buf, pos) == Failure(PrematureEnd)
  {
    hide EncodeVarint, ReadVarint, ReadBytes;
    CutSplit(buf, pos, EncodeVarint(|bytes|), bytes);
    if CutShort(buf, pos, EncodeVarint(|bytes|)) {
      CutVarint(buf, pos, |bytes|);
      NoLength(buf, pos);
    } else {
      VarintRoundTrip(buf, pos, |bytes|);
      LengthBeyond(buf, pos, |bytes|, pos + |EncodeVarint(|bytes|)|);
    }
  }

  lemma NoLength(buf: seq<byte>, pos: nat)
    requires ReadVarint(buf, pos) == Failure(PrematureEnd)
    ensures ReadBytes(buf, pos) == Failure(PrematureEnd)
  {
    hide ReadVarint;
  }

  lemma LengthBeyond(buf: seq<byte>, pos: nat, length: nat, next: nat)
    requires length < TWO_32 && ReadVarint(buf, pos) == Success(Read(length, next)) && |buf| < next + length
    ensures ReadBytes(buf, pos) == Failure(PrematureEnd)
  {
    hide ReadVarint;
  }

  lemma {:induction false} CutItem(kind: Kind, item: Item, buf: seq<byte>, pos: nat, depth: nat)
    requires ItemTyped(kind, item) && SubFits(kind, depth) && CutShort(buf, pos, EncodeItem(kind, item))
    ensures ReadItem(kind, buf, pos, depth) == Failure(PrematureEnd)
    decreases kind, 0
  {
    hide Decode, EncodeRecords, ReadSubmessage, Typed, ReadBytes, ReadVarint, EncodeVarint;
    match kind
    case KString => CutBytes(buf, pos, item.bytes);
    case KInt32 => CutInt(buf, pos, item.n);
    case KInt64 => CutInt(buf, pos, item.n);
    case KMessage(sub) => CutSubmessage(sub, item.message, buf, pos, depth);
    case KRepeated(sub) => CutSubmessage(sub, item.message, buf, pos, depth);
  }

  lemma CutInt(buf: seq<byte>, pos: nat, n: int64)
    requires CutShort(buf, pos, EncodeInt(n))
    ensures ReadVarint(buf, pos) == Failure(PrematureEnd)
  {
    hide EncodeVarint, ReadVarint;
    CutVarint(buf, pos, if n < 0 then n + TWO_64 else n);
  }

  lemma {:induction false} CutSubmessage(sub: Schema, m: Msg, buf: seq<byte>, pos: nat, depth: nat)
    requires Encodable(sub, m) && FitsLimits(sub, depth)
    requires CutShort(buf, pos, EncodeVarint(|Encode(sub, m)|) + Encode(sub, m))
    ensures ReadSubmessage(sub, buf, pos, depth) == Failure(PrematureEnd)
    decreases sub, 4
  {
    hide EncodeVarint, ReadVarint, EncodeRecords;
    var bytes := Encode(sub, m);
    CutSplit(buf, pos, EncodeVarint(|bytes|), bytes);
    if CutShort(buf, pos, EncodeVarint(|bytes|)) {
      CutVarint(buf, pos, |bytes|);
    } else {
      VarintRoundTrip(buf, pos, |bytes|);
      OwnRecordsAddUp(sub, m);
      var next := pos + |EncodeVarint(|bytes|)|;
      CutLoop(sub, RecordsOf(m), buf, next, next + |bytes|, depth, CreateBase(sub));
    }
  }

  lemma {:induction false} CutTurn(s: Schema, r: Record, buf: seq<byte>, pos: nat, depth: nat, m: Msg)
    requires RecordOk(s, r) && FitsLimits(s, depth)
    requires |m.vals| == |s.fields| && CutShort(buf, pos, EncodeRecord(s, r))
    ensures DecodeTurn(s, buf, pos, depth + 1, m) == Raise(PrematureEnd)
    decreases s, 1
  {
    match r
    case Known(field, item) => CutKnown(s, field, item, buf, pos, depth, m);
    case Unknown(tag, payload) => CutUnknown(s, tag, payload, buf, pos, depth + 1, m);
  }

  lemma {:induction false} CutKnown(s: Schema, field: nat, item: Item, buf: seq<byte>, pos: nat, depth: nat, m: Msg)
    requires field < |s.fields| && ItemTyped(s.fields[field], item) && FitsLimits(s, depth)
    requires |m.vals| == |s.fields| && CutShort(buf, pos, EncodeRecord(s, Known(field, item)))
    ensures DecodeTurn(s, buf, pos, depth + 1, m) == Raise(PrematureEnd)
    decreases s, 0
  {
    hide ReadItem, EncodeItem, ItemTyped, ReadVarint, EncodeVarint;
    var kind := s.fields[field];
    var tag := TagOf(field, kind);
    CutSplit(buf, pos, EncodeVarint(tag), EncodeItem(kind, item));
    if CutShort(buf, pos, EncodeVarint(tag)) {
      CutVarint(buf, pos, tag);
    } else {
      VarintRoundTrip(buf, pos, tag);
      TagRoundTrip(s, field);
      assert SubFits(kind, depth + 1);
      CutItem(kind, item, buf, pos + |EncodeVarint(tag)|, depth + 1);
    }
  }

  lemma CutUnknown(s: Schema, tag: nat, payload: seq<byte>, buf: seq<byte>, pos: nat, depth: nat, m: Msg)
    requires RecordOk(s, Unknown(tag, payload))
    requires |m.vals| == |s.fields| && CutShort(buf, pos, EncodeRecord(s, Unknown(tag, payload)))
    ensures DecodeTurn(s, buf, pos, depth, m) == Raise(PrematureEnd)
  {
    hide Skip, IsPayload, FieldOfTag, ReadVarint, EncodeVarint;
    CutSplit(buf, pos, EncodeVarint(tag), payload);
    if CutShort(buf, pos, EncodeVarint(tag)) {
      CutVarint(buf, pos, tag);
    } else {
      VarintRoundTrip(buf, pos, tag);
      CutPayload(buf, pos + |EncodeVarint(tag)|, tag % 8, payload);
    }
  }

  lemma {:induction false} CutSkipVarint(buf: seq<byte>, pos: nat, payload: seq<byte>)
    requires IsPayload(VARINT, payload) && CutShort(buf, pos, payload)
    ensures SkipVarint(buf, pos) == Failure(PrematureEnd)
    decreases |payload|
  {
    if pos < |buf| {
      assert buf[pos] == buf[pos..][0] == payload[0];
      assert payload == [payload[0]] + payload[1..];
      CutSplit(buf, pos, [payload[0]], payload[1..]);
      CutSkipVarint(buf, pos + 1, payload[1..]);
    }
  }

  lemma CutPayload(buf: seq<byte>, pos: nat, wireType: nat, payload: seq<byte>)
    requires IsPayload(wireType, payload) && CutShort(buf, pos, payload)
    ensures Skip(buf, pos, wireType) == Failure(PrematureEnd)
  {
    hide EncodeVarint, ReadBytes;
    if wireType == VARINT {
      CutSkipVarint(buf, pos, payload);
    } else if wireType == LENGTH_DELIMITED {
      var n: nat :| 0 <= n <= |payload| && n < TWO_32 && payload == EncodeVarint(n) + payload[|payload| - n..];
      CutBytes(buf, pos, payload[|payload| - n..]);
    }
  }

  lemma {:induction false} CutLoop(s: Schema, rs: seq<Record>, buf: seq<byte>, pos: nat, end: nat, depth: nat, m: Msg)
    requires (forall r :: r in rs ==> RecordOk(s, r)) && FitsLimits(s, depth) && |m.vals| == |s.fields|
    requires CutShort(buf, pos, EncodeRecords(s, rs)) && end == pos + |EncodeRecords(s, rs)|
    ensures DecodeLoop(s, buf, pos, end, depth + 1, m) == Failure(PrematureEnd)
    decreases s, 2, |rs|
  {
    hide DecodeTurn, EncodeRecord, RecordOk, Absorb;
    CutSplit(buf, pos, EncodeRecord(s, rs[0]), EncodeRecords(s, rs[1..]));
    if CutShort(buf, pos, EncodeRecord(s, rs[0])) {
      CutTurn(s, rs[0], buf, pos, depth, m);
    } else {
      RecordTurn(s, rs[0], buf, pos, depth, m);
      var next, t := pos + |EncodeRecord(s, rs[0])|, Absorb(s, m, rs[0]);
      CutLoop(s, rs[1..], buf, next, end, depth, t);
      LoopStep(s, buf, pos, end, depth + 1, m, next, t);
    }
  }

  /** The encoding of the first j records. */
  function Prefix(s: Schema, rs: seq<Record>, j: nat): seq<byte>
    requires j <= |rs|
  {
    EncodeRecords(s, rs[..j])
  }

  lemma PrefixThenRest(s: Schema, rs: seq<Record>, j: nat)
    requires j <= |rs|
    ensures EncodeRecords(s, rs) == Prefix(s, rs, j) + EncodeRecords(s, rs[j..])
  {
    assert rs == rs[..j] + rs[j..];
    EncodeConcat(s, rs[..j], rs[j..]);
  }

  /** Bytes cut off between two records decode to what the records before the cut add up to. */
  lemma CutBetweenRecords(s: Schema, rs: seq<Record>, j: nat, depth: nat)
    requires (forall r :: r in rs ==> RecordOk(s, r)) && FitsLimits(s, depth) && j <= |rs|
    ensures
      var k := |Prefix(s, rs, j)|;
      && k <= |EncodeRecords(s, rs)|
      && Decode(s, EncodeRecords(s, rs)[..k], 0, k, depth) == Success(Read(AbsorbAll(s, CreateBase(s), rs[..j]), k))
  {
    hide Decode, EncodeRecords, RecordOk;
    var bytes := Prefix(s, rs, j);
    PrefixThenRest(s, rs, j);
    assert EncodeRecords(s, rs)[..|bytes|] == bytes;
    DecodesRecords(s, rs[..j], bytes, 0, depth);
  }

  /** Bytes cut off inside a record, at any depth of nesting, do not decode. */
  lemma CutInsideRecord(s: Schema, rs: seq<Record>, j: nat, k: nat, depth: nat)
    requires (forall r :: r in rs ==> RecordOk(s, r)) && FitsLimits(s, depth) && j < |rs|
    requires |Prefix(s, rs, j)| < k < |Prefix(s, rs, j + 1)|
    ensures k < |EncodeRecords(s, rs)| && Decode(s, EncodeRecords(s, rs)[..k], 0, k, depth) == Failure(PrematureEnd)
  {
    hide DecodeTurn, EncodeRecord, RecordOk, Absorb;
    var all, front := EncodeRecords(s, rs), Prefix(s, rs, j);
    PrefixThenRest(s, rs, j);
    PrefixThenRest(s, rs, j + 1);
    EncodeSnoc(s, rs, j);
    var buf := all[..k];
    var base := CreateBase(s);
    CutIsInside(all, k, front, EncodeRecord(s, rs[j]), EncodeRecords(s, rs[j + 1..]));
    LoopReadsRecords(s, rs[..j], buf, 0, k, depth, base);
    CutTurn(s, rs[j], buf, |front|, depth, AbsorbAll(s, base, rs[..j]));
  }

  lemma CutIsInside(all: seq<byte>, k: nat, a: seq<byte>, b: seq<byte>, c: seq<byte>)
    requires all == a + b + c && |a| < k < |a + b|
    ensures At(all[..k], 0, a) && CutShort(all[..k], |a|, b)
  {
    assert all[..k][|a|..] == b[..k - |a|];
  }

  ghost predicate BetweenRecords(s: Schema, rs: seq<Record>, k: nat) {
    exists j :: 0 <= j <= |rs| && k == |Prefix(s, rs, j)|
  }

  lemma {:induction false} RecordAround(s: Schema, rs: seq<Record>, k: nat, n: nat) returns (j: nat)
    requires !BetweenRecords(s, rs, k) && n <= |rs| && k < |Prefix(s, rs, n)|
    ensures j < |rs| && |Prefix(s, rs, j)| < k < |Prefix(s, rs, j + 1)|
  {
    assert n > 0 by {
      assert Prefix(s, rs, 0) == [];
    }
    assert k != |Prefix(s, rs, n - 1)|;
    if k < |Prefix(s, rs, n - 1)| {
      j := RecordAround(s, rs, k, n - 1);
    } else {
      j := n - 1;
    }
  }

  /** The first k bytes of an encoding decode exactly when they end between two records of the message itself. */
  lemma TruncationIsNoticed(s: Schema, m: Msg, k: nat, depth: nat)
    requires Typed(s, m) && FitsLimits(s, depth) && k <= |Encode(s, m)|
    ensures
      var r := Decode(s, Encode(s, m)[..k], 0, k, depth);
      && (r.Success? <==> BetweenRecords(s, RecordsOf(m), k))
      && (r.Failure? ==> r.error == PrematureEnd)
  {
    hide Decode, EncodeRecords, RecordOk, Prefix;
    var rs := RecordsOf(m);
    OwnRecordsAddUp(s, m);
    if BetweenRecords(s, rs, k) {
      var j :| 0 <= j <= |rs| && k == |Prefix(s, rs, j)|;
      CutBetweenRecords(s, rs, j, depth);
    } else {
      WholePrefix(s, rs);
      var j := RecordAround(s, rs, k, |rs|);
      CutInsideRecord(s, rs, j, k, depth);
    }
  }

  lemma WholePrefix(s: Schema, rs: seq<Record>)
    ensures Prefix(s, rs, |rs|) == EncodeRecords(s, rs)
    ensures BetweenRecords(s, rs, |EncodeRecords(s, rs)|)
  {
    assert rs[..|rs|] == rs;
  }

  // ---- Numbers ----

  /** More than ten bytes with continuation bits are no varint. */
  lemma OverlongVarint(buf: seq<byte>, pos: nat)
    requires pos + 10 <= |buf| && forall i :: pos <= i < pos + 10 ==> buf[i] >= 128
    ensures ReadVarint(buf, pos) == Failure(InvalidVarint)
  {
    OverlongUpTo(buf, pos, 10);
  }

  lemma {:induction false} OverlongUpTo(buf: seq<byte>, pos: nat, limit: nat)
    requires pos + limit <= |buf| && forall i :: pos <= i < pos + limit ==> buf[i] >= 128
    ensures ReadVarintUpTo(buf, pos, limit) == Failure(InvalidVarint)
    decreases limit
  {
    if limit > 0 {
      OverlongUpTo(buf, pos + 1, limit - 1);
    }
  }

  /** An amount comes back exactly when its units are a safe integer; otherwise decoding raises. */
  lemma AmountsComeBackWhenSafe(currencyCode: seq<byte>, units: int64, nanos: int32, depth: nat)
    requires |currencyCode| < TWO_32 && depth < 100
    ensures
      var m := Msg([VString(currencyCode), VInt(units), VInt(nanos)]);
      var bytes := Encode(MONEY, m);
      Decode(MONEY, bytes, 0, |bytes|, depth) ==
        if IsSafe(units) then Success(Read(m, |bytes|)) else Failure(UnsafeInteger)
  {
    var m := Msg([VString(currencyCode), VInt(units), VInt(nanos)]);
    if IsSafe(units) {
      SafeAmountIsTyped(currencyCode, units, nanos);
      assert FitsLimits(MONEY, depth);
      hide Decode, Encode, FitsLimits, Typed;
      RoundTrip(MONEY, m, Encode(MONEY, m), 0, depth);
    } else {
      UnsafeAmount(m, currencyCode, units, depth);
    }
  }

  lemma SafeAmountIsTyped(currencyCode: seq<byte>, units: int64, nanos: int32)
    requires |currencyCode| < TWO_32 && IsSafe(units)
    ensures Typed(MONEY, Msg([VString(currencyCode), VInt(units), VInt(nanos)]))
  {
    hide EncodeRecords, RecordsOf;
    assert ValueTyped(KString, VString(currencyCode));
    assert ValueTyped(KInt64, VInt(units)) && ValueTyped(KInt32, VInt(nanos));
  }

  lemma UnsafeAmount(m: Msg, currencyCode: seq<byte>, units: int64, depth: nat)
    requires |m.vals| == 3 && m.vals[0] == VString(currencyCode) && m.vals[1] == VInt(units) && !IsSafe(units)
    requires |currencyCode| < TWO_32 && depth < 100
    ensures Decode(MONEY, Encode(MONEY, m), 0, |Encode(MONEY, m)|, depth) == Failure(UnsafeInteger)
  {
    hide DecodeTurn, EncodeRecord, EncodeRecords, AbsorbAll;
    var base, buf := CreateBase(MONEY), Encode(MONEY, m);
    var front := EncodeRecords(MONEY, RecordsUpTo(m, 1));
    UnitsStandSecond(m, units);
    assert (forall r :: r in RecordsUpTo(m, 1) ==> RecordOk(MONEY, r)) && FitsLimits(MONEY, depth);
    hide RecordOk, RecordsUpTo, FitsLimits;
    LoopReadsRecords(MONEY, RecordsUpTo(m, 1), buf, 0, |buf|, depth, base);
    UnsafeTurn(units, buf, |front|, depth + 1, AbsorbAll(MONEY, base, RecordsUpTo(m, 1)));
  }

  lemma UnitsStandSecond(m: Msg, units: int64)
    requires |m.vals| == 3 && m.vals[1] == VInt(units) && units != 0
    ensures
      var front, record := EncodeRecords(MONEY, RecordsUpTo(m, 1)), EncodeRecord(MONEY, Known(1, IInt(units)));
      && At(Encode(MONEY, m), 0, front) && At(Encode(MONEY, m), |front|, record)
      && |record| > 0
  {
    hide EncodeRecord, EncodeRecords;
    var rs, last := RecordsUpTo(m, 1), KnownRecords(2, ItemsOf(m.vals[2]));
    var units1 := Known(1, IInt(units));
    assert KnownRecords(1, ItemsOf(m.vals[1])) == [units1];
    assert RecordsUpTo(m, 2) == rs + [units1];
    assert RecordsUpTo(m, 3) == RecordsUpTo(m, 2) + last;
    EncodeConcat(MONEY, rs + [units1], last);
    EncodeConcat(MONEY, rs, [units1]);
    OneRecordBytes(MONEY, units1);
  }

  lemma OneRecordBytes(s: Schema, r: Record)
    requires r.Known? && r.field < |s.fields|
    ensures EncodeRecords(s, [r]) == EncodeRecord(s, r) && |EncodeRecord(s, r)| > 0
  {
    assert [r][1..] == [];
  }

  lemma UnsafeTurn(units: int64, buf: seq<byte>, pos: nat, depth: nat, m: Msg)
    requires !IsSafe(units) && |m.vals| == 3 && At(buf, pos, EncodeRecord(MONEY, Known(1, IInt(units))))
    ensures DecodeTurn(MONEY, buf, pos, depth, m) == Raise(UnsafeInteger)
  {
    hide EncodeVarint, ReadUint32, ReadSafeInt64, EncodeInt;
    AtSplit(buf, pos, EncodeVarint(16), EncodeInt(units));
    Uint32RoundTrip(buf, pos, 16);
    SafeInt64RoundTrip(buf, pos + |EncodeVarint(16)|, units);
  }

  /** An int32 field reads any varint, cut to its low 32 bits. */
  lemma Int32Turn(s: Schema, field: nat, n: nat, buf: seq<byte>, pos: nat, depth: nat, m: Msg)
    requires |m.vals| == |s.fields| && field < |s.fields| && field < 15 && s.fields[field] == KInt32 && n < TWO_64
    requires At(buf, pos, EncodeVarint(8 * field + 8) + EncodeVarint(n))
    ensures DecodeTurn(s, buf, pos, depth, m) ==
      Continue(pos + |EncodeVarint(8 * field + 8) + EncodeVarint(n)|, Msg(m.vals[field := VInt(Wrap32(n))]))
  {
    hide EncodeVarint, ReadUint32, ReadInt32, Wrap32;
    var tag := 8 * field + 8;
    AtSplit(buf, pos, EncodeVarint(tag), EncodeVarint(n));
    WideVarints(buf, pos, tag);
    WideVarints(buf, pos + |EncodeVarint(tag)|, n);
    TagRoundTrip(s, field);
    LowBits(n);
  }

  lemma LowBits(n: nat)
    ensures Wrap32(n) == (var low := n % 0x1_0000_0000; if low < 0x8000_0000 then low else low - 0x1_0000_0000)
  {
    Wrap32Shift(n, n / TWO_32);
    Wrap32Cases(n % TWO_32);
  }

  /** A message that is one int32 field. */
  lemma OneInt32(s: Schema, field: nat, n: nat, depth: nat)
    requires field < |s.fields| && field < 15 && s.fields[field] == KInt32 && n < TWO_64 && depth < 100
    ensures
      var bytes := EncodeVarint(8 * field + 8) + EncodeVarint(n);
      Decode(s, bytes, 0, |bytes|, depth) ==
        Success(Read(Msg(CreateBase(s).vals[field := VInt(Wrap32(n))]), |bytes|))
  {
    hide EncodeVarint, DecodeTurn, Wrap32;
    var bytes := EncodeVarint(8 * field + 8) + EncodeVarint(n);
    assert bytes[0..|bytes|] == bytes;
    var base := CreateBase(s);
    Int32Turn(s, field, n, bytes, 0, depth + 1, base);
    LoopStep(s, bytes, 0, |bytes|, depth + 1, base, |bytes|, Msg(base.vals[field := VInt(Wrap32(n))]));
  }

  /** Quantities and nanos are 32 bits wide: a wider number is cut. */
  lemma WideNumbersAreCut(n: nat, depth: nat)
    requires n < TWO_64 && depth < 100
    ensures
      var low := n % 0x1_0000_0000;
      var cut := if low < 0x8000_0000 then low else low - 0x1_0000_0000;
      var quantity, nanos := [16] + EncodeVarint(n), [24] + EncodeVarint(n);
      && Decode(CART_ITEM, quantity, 0, |quantity|, depth) ==
           Success(Read(Msg([VString([]), VInt(cut)]), |quantity|))
      && Decode(MONEY, nanos, 0, |nanos|, depth) ==
           Success(Read(Msg([VString([]), VInt(0), VInt(cut)]), |nanos|))
  {
    assert EncodeVarint(16) == [16] && EncodeVarint(24) == [24];
    assert CreateBase(CART_ITEM).vals == [VString([]), VInt(0)];
    assert CreateBase(MONEY).vals == [VString([]), VInt(0), VInt(0)];
    hide EncodeVarint, Decode, CreateBase, Wrap32;
    LowBits(n);
    OneInt32(CART_ITEM, 1, n, depth);
    assert [VString([]), VInt(0)][1 := VInt(Wrap32(n))] == [VString([]), VInt(Wrap32(n))];
    OneInt32(MONEY, 2, n, depth);
    assert [VString([]), VInt(0), VInt(0)][2 := VInt(Wrap32(n))] == [VString([]), VInt(0), VInt(Wrap32(n))];
  }

  // ---- Tags that end the loop, and nesting ----

  /** A zero tag or an end-group tag ends a message: what was read so far is returned, and the bytes behind the tag
      are not looked at. */
  lemma StopTagEndsMessage(s: Schema, m: Msg, tag: nat, rest: seq<byte>, depth: nat)
    requires Typed(s, m) && FitsLimits(s, depth)
    requires tag < TWO_32 && (tag == 0 || tag % 8 == 4)
    ensures
      var bytes := Encode(s, m) + EncodeVarint(tag);
      Decode(s, bytes + rest, 0, |bytes + rest|, depth) == Success(Read(m, |bytes|))
  {
    hide DecodeTurn, EncodeRecords, RecordOk, EncodeVarint, AbsorbAll;
    var front, buf := Encode(s, m), Encode(s, m) + EncodeVarint(tag) + rest;
    assert At(buf, 0, front) && At(buf, |front|, EncodeVarint(tag));
    OwnRecordsAddUp(s, m);
    LoopReadsRecords(s, RecordsOf(m), buf, 0, |buf|, depth, CreateBase(s));
    StopTurn(s, tag, buf, |front|, depth + 1, m);
  }

  lemma StopTurn(s: Schema, tag: nat, buf: seq<byte>, pos: nat, depth: nat, m: Msg)
    requires tag < TWO_32 && (tag == 0 || tag % 8 == 4)
    requires |m.vals| == |s.fields| && At(buf, pos, EncodeVarint(tag))
    ensures DecodeTurn(s, buf, pos, depth, m) == Stop(pos + |EncodeVarint(tag)|)
  {
    hide ReadUint32, EncodeVarint;
    Uint32RoundTrip(buf, pos, tag);
  }

  /** Wire types 3, 6 and 7 cannot be skipped. */
  lemma UnskippableTag(s: Schema, m: Msg, tag: nat, rest: seq<byte>, depth: nat)
    requires Typed(s, m) && FitsLimits(s, depth)
    requires tag < TWO_32 && tag % 8 in {3, 6, 7}
    ensures
      var bytes := Encode(s, m) + EncodeVarint(tag) + rest;
      Decode(s, bytes, 0, |bytes|, depth) == Failure(CannotSkip)
  {
    hide DecodeTurn, EncodeRecords, RecordOk, EncodeVarint, AbsorbAll;
    var front, buf := Encode(s, m), Encode(s, m) + EncodeVarint(tag) + rest;
    assert At(buf, 0, front) && At(buf, |front|, EncodeVarint(tag));
    OwnRecordsAddUp(s, m);
    LoopReadsRecords(s, RecordsOf(m), buf, 0, |buf|, depth, CreateBase(s));
    UnskippableTurn(s, tag, buf, |front|, depth + 1, m);
  }

  lemma UnskippableTurn(s: Schema, tag: nat, buf: seq<byte>, pos: nat, depth: nat, m: Msg)
    requires tag < TWO_32 && tag % 8 in {3, 6, 7}
    requires |m.vals| == |s.fields| && At(buf, pos, EncodeVarint(tag))
    ensures DecodeTurn(s, buf, pos, depth, m) == Raise(CannotSkip)
  {
    hide ReadUint32, EncodeVarint;
    Uint32RoundTrip(buf, pos, tag);
  }

  lemma FitsBelow(s: Schema, i: nat, depth: nat)
    requires FitsLimits(s, depth) && i < |s.fields| && (s.fields[i].KMessage? || s.fields[i].KRepeated?)
    ensures FitsLimits(s.fields[i].schema, depth + 1)
  {
    assert SubFits(s.fields[i], depth + 1);
  }

  /** A message inside a hundred others is not decoded, and an order confirmation, whose cart items stand three
      levels below it, fits exactly inside 96. */
  lemma NestingIsLimited(s: Schema, buf: seq<byte>, pos: nat, end: nat, depth: nat)
    requires pos <= |buf|
    ensures depth >= 100 ==> Decode(s, buf, pos, end, depth) == Failure(TooDeep)
    ensures FitsLimits(SEND_ORDER_CONFIRMATION, depth) <==> depth <= 96
  {
    if depth <= 96 {
      MessagesFitLimits(depth);
    } else if FitsLimits(SEND_ORDER_CONFIRMATION, depth) {
      FitsBelow(SEND_ORDER_CONFIRMATION, 1, depth);
      FitsBelow(ORDER_RESULT, 4, depth + 1);
      FitsBelow(ORDER_ITEM, 0, depth + 2);
    }
  }
}
