/** What the codec promises: decoding undoes encoding, concatenated encodings merge, unrecognized fields are
    passed over, and the recursion limit is never reached from the top. */
module CodecProofs {
  import opened Base
  import opened Wire
  import opened Codec

  // ---- Reading back records ----

  predicate RecordOk(s: Schema, r: Record) {
    match r
    case Known(field, item) => field < |s.fields| && ItemTyped(s.fields[field], item)
    case Unknown(tag, payload) =>
      && 1 <= tag < TWO_32 && tag % 8 != END_GROUP
      && FieldOfTag(s, tag) == |s.fields| && IsPayload(tag % 8, payload)
  }

  /** The effect of a record on the fields read so far. */
  function Absorb(s: Schema, m: Msg, r: Record): (t: Msg)
    requires |m.vals| == |s.fields|
    ensures |t.vals| == |s.fields|
  {
    match r
    case Known(field, item) =>
      if field < |s.fields| then Msg(m.vals[field := Put(s.fields[field], m.vals[field], item)]) else m
    case Unknown(_, _) => m
  }

  function AbsorbAll(s: Schema, m: Msg, rs: seq<Record>): (t: Msg)
    requires |m.vals| == |s.fields|
    ensures |t.vals| == |s.fields|
    decreases |rs|
  {
    if rs == [] then m else AbsorbAll(s, Absorb(s, m, rs[0]), rs[1..])
  }

  const MAX_FIELD_NUMBER: int := 0x1FFF_FFFF

  predicate SubFits(kind: Kind, depth: nat)
    decreases kind, 0
  {
    (kind.KMessage? || kind.KRepeated? ==> FitsLimits(kind.schema, depth))
  }

  /** Messages of this schema can be decoded at this depth without reaching the recursion limit, and its
      field numbers are legal. */
  predicate FitsLimits(s: Schema, depth: nat)
    decreases s, 1
  {
    && depth < MAX_DEPTH && |s.fields| <= MAX_FIELD_NUMBER
    && forall i :: 0 <= i < |s.fields| ==> SubFits(s.fields[i], depth + 1)
  }

  lemma {:induction false} ItemRoundTrip(kind: Kind, item: Item, buf: seq<byte>, pos: nat, depth: nat)
    requires ItemTyped(kind, item) && SubFits(kind, depth)
    requires pos <= |buf| && At(buf, pos, EncodeItem(kind, item))
    ensures ReadItem(kind, buf, pos, depth) == Success(Read(item, pos + |EncodeItem(kind, item)|))
    decreases kind, 0
  {
    hide Decode, EncodeRecords, ReadSubmessage, Typed;
    hide ReadUint32, ReadInt32, ReadSafeInt64, ReadBytes, EncodeInt, EncodeVarint;
    match kind
    case KString => BytesRoundTrip(buf, pos, item.bytes);
    case KInt32 => Int32RoundTrip(buf, pos, item.n);
    case KInt64 => SafeInt64RoundTrip(buf, pos, item.n);
    case KMessage(sub) => SubmessageRoundTrip(sub, item.message, buf, pos, depth);
    case KRepeated(sub) => SubmessageRoundTrip(sub, item.message, buf, pos, depth);
  }

  lemma {:induction false} SubmessageRoundTrip(sub: Schema, m: Msg, buf: seq<byte>, pos: nat, depth: nat)
    requires Encodable(sub, m) && FitsLimits(sub, depth)
    requires pos <= |buf| && At(buf, pos, EncodeVarint(|Encode(sub, m)|) + Encode(sub, m))
    ensures ReadSubmessage(sub, buf, pos, depth) ==
      Success(Read(IMessage(m), pos + |EncodeVarint(|Encode(sub, m)|) + Encode(sub, m)|))
    decreases sub, 4
  {
    var bytes := Encode(sub, m);
    var next := pos + |EncodeVarint(|bytes|)|;
    AtSplit(buf, pos, EncodeVarint(|bytes|), bytes);
    Uint32RoundTrip(buf, pos, |bytes|);
    RoundTrip(sub, m, buf, next, depth);
    ReadingSubmessage(sub, m, buf, pos, next, next + |bytes|, depth);
  }

  lemma ReadingSubmessage(sub: Schema, m: Msg, buf: seq<byte>, pos: nat, next: nat, after: nat, depth: nat)
    requires pos <= |buf| && next <= after && ReadUint32(buf, pos) == Success(Read(after - next, next))
    requires Decode(sub, buf, next, after, depth) == Success(Read(m, after))
    ensures ReadSubmessage(sub, buf, pos, depth) == Success(Read(IMessage(m), after))
  {
  }

  lemma TagRoundTrip(s: Schema, field: nat)
    requires field < |s.fields|
    ensures FieldOfTag(s, TagOf(field, s.fields[field])) == field
  {
  }

  lemma {:induction false} KnownTurn(s: Schema, field: nat, item: Item, buf: seq<byte>, pos: nat, depth: nat, m: Msg)
    requires field < |s.fields| && ItemTyped(s.fields[field], item) && FitsLimits(s, depth)
    requires |m.vals| == |s.fields| && At(buf, pos, EncodeRecord(s, Known(field, item)))
    ensures DecodeTurn(s, buf, pos, depth + 1, m) ==
      Continue(pos + |EncodeRecord(s, Known(field, item))|, Absorb(s, m, Known(field, item)))
    decreases s, 0
  {
    hide ReadItem, EncodeItem, DecodeTurn;
    var kind := s.fields[field];
    var tag := TagOf(field, kind);
    var next := pos + |EncodeVarint(tag)|;
    AtSplit(buf, pos, EncodeVarint(tag), EncodeItem(kind, item));
    Uint32RoundTrip(buf, pos, tag);
    TagRoundTrip(s, field);
    assert SubFits(kind, depth + 1);
    ItemRoundTrip(kind, item, buf, next, depth + 1);
    ReadingTurn(s, field, item, buf, pos, next, next + |EncodeItem(kind, item)|, depth + 1, m);
  }

  lemma ReadingTurn(s: Schema, field: nat, item: Item, buf: seq<byte>, pos: nat, next: nat, after: nat, depth: nat, m: Msg)
    requires |m.vals| == |s.fields| && next <= |buf| && field < |s.fields|
    requires ReadUint32(buf, pos) == Success(Read(TagOf(field, s.fields[field]), next))
    requires FieldOfTag(s, TagOf(field, s.fields[field])) == field
    requires ReadItem(s.fields[field], buf, next, depth) == Success(Read(item, after))
    ensures DecodeTurn(s, buf, pos, depth, m) == Continue(after, Absorb(s, m, Known(field, item)))
  {
  }

  lemma UnknownTurn(s: Schema, tag: nat, payload: seq<byte>, buf: seq<byte>, pos: nat, depth: nat, m: Msg)
    requires RecordOk(s, Unknown(tag, payload))
    requires |m.vals| == |s.fields| && At(buf, pos, EncodeRecord(s, Unknown(tag, payload)))
    ensures DecodeTurn(s, buf, pos, depth, m) == Continue(pos + |EncodeRecord(s, Unknown(tag, payload))|, m)
  {
    hide EncodeVarint, ReadUint32, Skip, IsPayload, DecodeTurn, FieldOfTag;
    var next := pos + |EncodeVarint(tag)|;
    TagAndPayloadRead(tag, payload, buf, pos);
    SkippingTurn(s, tag, buf, pos, next, next + |payload|, depth, m);
  }

  lemma TagAndPayloadRead(tag: nat, payload: seq<byte>, buf: seq<byte>, pos: nat)
    requires tag < TWO_32 && IsPayload(tag % 8, payload) && At(buf, pos, EncodeVarint(tag) + payload)
    ensures
      var next := pos + |EncodeVarint(tag)|;
      && next <= |buf| && ReadUint32(buf, pos) == Success(Read(tag, next))
      && Skip(buf, next, tag % 8) == Success(next + |payload|)
  {
    hide ReadUint32, Skip, EncodeVarint, IsPayload;
    AtSplit(buf, pos, EncodeVarint(tag), payload);
    Uint32RoundTrip(buf, pos, tag);
    SkipPayload(buf, pos + |EncodeVarint(tag)|, tag % 8, payload);
  }

  lemma SkippingTurn(s: Schema, tag: nat, buf: seq<byte>, pos: nat, next: nat, after: nat, depth: nat, m: Msg)
    requires |m.vals| == |s.fields| && next <= |buf|
    requires ReadUint32(buf, pos) == Success(Read(tag, next)) && Skip(buf, next, tag % 8) == Success(after)
    requires FieldOfTag(s, tag) == |s.fields| && tag % 8 != END_GROUP && tag != 0
    ensures DecodeTurn(s, buf, pos, depth, m) == Continue(after, m)
  {
  }

  /** One record is one turn of the loop. */
  lemma {:induction false} RecordTurn(s: Schema, r: Record, buf: seq<byte>, pos: nat, depth: nat, m: Msg)
    requires RecordOk(s, r) && FitsLimits(s, depth)
    requires |m.vals| == |s.fields| && At(buf, pos, EncodeRecord(s, r))
    ensures |EncodeRecord(s, r)| >= 1
    ensures DecodeTurn(s, buf, pos, depth + 1, m) == Continue(pos + |EncodeRecord(s, r)|, Absorb(s, m, r))
    decreases s, 1
  {
    match r
    case Known(field, item) => KnownTurn(s, field, item, buf, pos, depth, m);
    case Unknown(tag, payload) => UnknownTurn(s, tag, payload, buf, pos, depth + 1, m);
  }

  /** The loop passes over records, whatever stands behind them. */
  lemma {:induction false} LoopReadsRecords(s: Schema, rs: seq<Record>, buf: seq<byte>, pos: nat, end: nat, depth: nat, m: Msg)
    requires (forall r :: r in rs ==> RecordOk(s, r)) && FitsLimits(s, depth)
    requires |m.vals| == |s.fields| && At(buf, pos, EncodeRecords(s, rs)) && pos + |EncodeRecords(s, rs)| <= end
    ensures DecodeLoop(s, buf, pos, end, depth + 1, m) ==
      DecodeLoop(s, buf, pos + |EncodeRecords(s, rs)|, end, depth + 1, AbsorbAll(s, m, rs))
    decreases s, 2, |rs|
  {
    hide DecodeLoop, DecodeTurn, EncodeRecord, RecordOk, Absorb;
    if rs != [] {
      AtSplit(buf, pos, EncodeRecord(s, rs[0]), EncodeRecords(s, rs[1..]));
      RecordTurn(s, rs[0], buf, pos, depth, m);
      var next, t := pos + |EncodeRecord(s, rs[0])|, Absorb(s, m, rs[0]);
      LoopReadsRecords(s, rs[1..], buf, next, end, depth, t);
      LoopStep(s, buf, pos, end, depth + 1, m, next, t);
    }
  }

  lemma LoopStep(s: Schema, buf: seq<byte>, pos: nat, end: nat, depth: nat, m: Msg, next: nat, t: Msg)
    requires |m.vals| == |s.fields| && pos <= |buf| && pos < end
    requires DecodeTurn(s, buf, pos, depth, m) == Continue(next, t)
    ensures next <= |buf| && |t.vals| == |s.fields|
    ensures DecodeLoop(s, buf, pos, end, depth, m) == DecodeLoop(s, buf, next, end, depth, t)
  {
  }

  /** Any sequence of records, known and unknown in any order, anywhere in a buffer, decodes to their combined
      effect and consumes exactly their bytes. */
  lemma {:induction false} DecodesRecords(s: Schema, rs: seq<Record>, buf: seq<byte>, pos: nat, depth: nat)
    requires (forall r :: r in rs ==> RecordOk(s, r)) && FitsLimits(s, depth) && At(buf, pos, EncodeRecords(s, rs))
    ensures
      var end := pos + |EncodeRecords(s, rs)|;
      Decode(s, buf, pos, end, depth) == Success(Read(AbsorbAll(s, CreateBase(s), rs), end))
    decreases s, 2, |rs| + 1
  {
    LoopReadsRecords(s, rs, buf, pos, pos + |EncodeRecords(s, rs)|, depth, CreateBase(s));
  }

  // ---- What a message's own records add up to ----

  predicate ValueShaped(kind: Kind, v: Value) {
    match kind
    case KString => v.VString?
    case KInt32 => v.VInt?
    case KInt64 => v.VInt?
    case KMessage(_) => v.VMessage?
    case KRepeated(_) => v.VRepeated?
  }

  /** Values of the right constructor for each field. */
  predicate Shaped(s: Schema, m: Msg) {
    |m.vals| == |s.fields| && forall i :: 0 <= i < |s.fields| ==> ValueShaped(s.fields[i], m.vals[i])
  }

  lemma TypedIsShaped(s: Schema, m: Msg)
    requires Typed(s, m)
    ensures Shaped(s, m)
  {
    forall i | 0 <= i < |s.fields|
      ensures ValueShaped(s.fields[i], m.vals[i])
    {
      assert ValueTyped(s.fields[i], m.vals[i]);
    }
  }

  /** Later non-default scalars win, repeated fields are appended, and a later submessage replaces an earlier
      one whole. */
  function MergeValue(x: Value, v: Value): Value {
    match v
    case VString(bytes) => if bytes == [] then x else v
    case VInt(n) => if n == 0 then x else v
    case VMessage(message) => if message.None? then x else v
    case VRepeated(messages) => if x.VRepeated? then VRepeated(x.messages + messages) else v
  }

  function Merge(x: Msg, m: Msg): Msg
    requires |x.vals| == |m.vals|
  {
    Msg(seq(|m.vals|, i requires 0 <= i < |m.vals| => MergeValue(x.vals[i], m.vals[i])))
  }

  lemma {:induction false} AbsorbConcat(s: Schema, m: Msg, a: seq<Record>, b: seq<Record>)
    requires |m.vals| == |s.fields|
    ensures AbsorbAll(s, m, a + b) == AbsorbAll(s, AbsorbAll(s, m, a), b)
    decreases |a|
  {
    if a == [] {
      assert a + b == b;
    } else {
      assert (a + b)[1..] == a[1..] + b;
      AbsorbConcat(s, Absorb(s, m, a[0]), a[1..], b);
    }
  }

  lemma {:induction false} AbsorbRepeated(s: Schema, m: Msg, field: nat, messages: seq<Msg>)
    requires |m.vals| == |s.fields| && field < |s.fields| && s.fields[field].KRepeated? && m.vals[field].VRepeated?
    ensures AbsorbAll(s, m, KnownRecords(field, ItemsOf(VRepeated(messages)))) ==
      Msg(m.vals[field := VRepeated(m.vals[field].messages + messages)])
    decreases |messages|
  {
    var rs := KnownRecords(field, ItemsOf(VRepeated(messages)));
    if messages == [] {
      assert m.vals[field].messages + messages == m.vals[field].messages;
    } else {
      var t := Absorb(s, m, Known(field, IMessage(messages[0])));
      assert rs[1..] == KnownRecords(field, ItemsOf(VRepeated(messages[1..])));
      AbsorbRepeated(s, t, field, messages[1..]);
      assert t.vals[field].messages + messages[1..] == m.vals[field].messages + messages;
    }
  }

  lemma AbsorbOne(s: Schema, m: Msg, r: Record)
    requires |m.vals| == |s.fields|
    ensures AbsorbAll(s, m, [r]) == Absorb(s, m, r)
  {
    assert [r][1..] == [];
  }

  lemma AbsorbField(s: Schema, m: Msg, field: nat, v: Value)
    requires |m.vals| == |s.fields| && field < |s.fields|
    requires ValueShaped(s.fields[field], m.vals[field]) && ValueShaped(s.fields[field], v)
    ensures AbsorbAll(s, m, KnownRecords(field, ItemsOf(v))) == Msg(m.vals[field := MergeValue(m.vals[field], v)])
  {
    if v.VRepeated? {
      AbsorbRepeated(s, m, field, v.messages);
    } else if ItemsOf(v) == [] {
      assert KnownRecords(field, ItemsOf(v)) == [];
      assert m.vals[field := m.vals[field]] == m.vals;
    } else {
      var r := Known(field, ItemsOf(v)[0]);
      assert KnownRecords(field, ItemsOf(v)) == [r];
      AbsorbOne(s, m, r);
    }
  }

  /** x with the first n fields of m merged in. */
  function MergeUpTo(x: Msg, m: Msg, n: nat): Msg
    requires |x.vals| == |m.vals| && n <= |m.vals|
  {
    Msg(seq(|m.vals|, i requires 0 <= i < |m.vals| => if i < n then MergeValue(x.vals[i], m.vals[i]) else x.vals[i]))
  }

  /** Absorbing the fields of m one after another. */
  function AbsorbFields(s: Schema, x: Msg, m: Msg, n: nat): (t: Msg)
    requires |x.vals| == |s.fields| && n <= |m.vals|
    ensures |t.vals| == |s.fields|
  {
    if n == 0 then x
    else AbsorbAll(s, AbsorbFields(s, x, m, n - 1), KnownRecords(n - 1, ItemsOf(m.vals[n - 1])))
  }

  lemma AbsorbBoth(s: Schema, x: Msg, a: seq<Record>, b: seq<Record>, y: Msg)
    requires |x.vals| == |s.fields| && AbsorbAll(s, x, a) == y
    ensures AbsorbAll(s, x, a + b) == AbsorbAll(s, y, b)
  {
    AbsorbConcat(s, x, a, b);
  }

  lemma {:induction false} AbsorbByFields(s: Schema, x: Msg, m: Msg, n: nat)
    requires |x.vals| == |s.fields| && n <= |m.vals|
    ensures AbsorbAll(s, x, RecordsUpTo(m, n)) == AbsorbFields(s, x, m, n)
  {
    hide Absorb, KnownRecords, ItemsOf;
    if n > 0 {
      AbsorbByFields(s, x, m, n - 1);
      var last := KnownRecords(n - 1, ItemsOf(m.vals[n - 1]));
      AbsorbBoth(s, x, RecordsUpTo(m, n - 1), last, AbsorbFields(s, x, m, n - 1));
    }
  }

  lemma {:induction false} AbsorbFieldsIsMerge(s: Schema, x: Msg, m: Msg, n: nat)
    requires Shaped(s, x) && Shaped(s, m) && n <= |m.vals|
    ensures AbsorbFields(s, x, m, n) == MergeUpTo(x, m, n)
  {
    assert |x.vals| == |m.vals|;
    hide AbsorbAll, MergeUpTo, ItemsOf, ValueShaped;
    if n == 0 {
      MergeNone(x, m);
    } else {
      AbsorbFieldsIsMerge(s, x, m, n - 1);
      MergeOneMore(s, x, m, n - 1);
    }
  }

  lemma MergeNone(x: Msg, m: Msg)
    requires |x.vals| == |m.vals|
    ensures MergeUpTo(x, m, 0) == x
  {
    assert MergeUpTo(x, m, 0).vals == x.vals;
  }

  lemma MergeOneMore(s: Schema, x: Msg, m: Msg, n: nat)
    requires Shaped(s, x) && Shaped(s, m) && n < |m.vals|
    ensures AbsorbAll(s, MergeUpTo(x, m, n), KnownRecords(n, ItemsOf(m.vals[n]))) == MergeUpTo(x, m, n + 1)
  {
    var before := MergeUpTo(x, m, n);
    assert ValueShaped(s.fields[n], x.vals[n]) && ValueShaped(s.fields[n], m.vals[n]);
    AbsorbField(s, before, n, m.vals[n]);
    assert before.vals[n := MergeValue(before.vals[n], m.vals[n])] == MergeUpTo(x, m, n + 1).vals;
  }

  /** Absorbing a message's records merges it in. */
  lemma AbsorbIsMerge(s: Schema, x: Msg, m: Msg)
    requires Shaped(s, x) && Shaped(s, m)
    ensures AbsorbAll(s, x, RecordsOf(m)) == Merge(x, m)
  {
    AbsorbByFields(s, x, m, |m.vals|);
    AbsorbFieldsIsMerge(s, x, m, |m.vals|);
    assert MergeUpTo(x, m, |m.vals|).vals == Merge(x, m).vals;
  }

  lemma MergeIntoBase(s: Schema, m: Msg)
    requires Shaped(s, m)
    ensures Shaped(s, CreateBase(s)) && Merge(CreateBase(s), m) == m
  {
    var t := Merge(CreateBase(s), m);
    forall i | 0 <= i < |m.vals|
      ensures t.vals[i] == m.vals[i]
    {
      assert ValueShaped(s.fields[i], m.vals[i]);
      if m.vals[i].VRepeated? {
        assert [] + m.vals[i].messages == m.vals[i].messages;
      }
    }
  }

  lemma {:induction false} OwnRecordsOk(s: Schema, m: Msg, n: nat)
    requires Typed(s, m) && n <= |m.vals|
    ensures forall r :: r in RecordsUpTo(m, n) ==> RecordOk(s, r)
  {
    if n > 0 {
      OwnRecordsOk(s, m, n - 1);
      assert ValueTyped(s.fields[n - 1], m.vals[n - 1]);
    }
  }

  /** A message's records are well-formed and add up to the message. */
  lemma OwnRecordsAddUp(s: Schema, m: Msg)
    requires Typed(s, m)
    ensures forall r :: r in RecordsOf(m) ==> RecordOk(s, r)
    ensures AbsorbAll(s, CreateBase(s), RecordsOf(m)) == m && Shaped(s, m)
  {
    OwnRecordsOk(s, m, |m.vals|);
    TypedIsShaped(s, m);
    MergeIntoBase(s, m);
    AbsorbIsMerge(s, CreateBase(s), m);
  }

  // ---- The promises ----

  /** Decoding an encoded message gives it back and consumes exactly its bytes, wherever they stand in a
      buffer. */
  lemma {:induction false} RoundTrip(s: Schema, m: Msg, buf: seq<byte>, pos: nat, depth: nat)
    requires Typed(s, m) && FitsLimits(s, depth) && At(buf, pos, Encode(s, m))
    ensures
      var end := pos + |Encode(s, m)|;
      Decode(s, buf, pos, end, depth) == Success(Read(m, end))
    decreases s, 3
  {
    OwnRecordsAddUp(s, m);
    DecodesRecords(s, RecordsOf(m), buf, pos, depth);
  }

  lemma {:induction false} EncodeConcat(s: Schema, a: seq<Record>, b: seq<Record>)
    ensures EncodeRecords(s, a + b) == EncodeRecords(s, a) + EncodeRecords(s, b)
  {
    if a == [] {
      assert a + b == b;
    } else {
      assert (a + b)[1..] == a[1..] + b;
      EncodeConcat(s, a[1..], b);
    }
  }

  lemma EncodeSnoc(s: Schema, rs: seq<Record>, j: nat)
    requires j < |rs|
    ensures EncodeRecords(s, rs[..j + 1]) == EncodeRecords(s, rs[..j]) + EncodeRecord(s, rs[j])
  {
    assert rs[..j + 1] == rs[..j] + [rs[j]];
    EncodeConcat(s, rs[..j], [rs[j]]);
    assert [rs[j]][1..] == [];
    assert EncodeRecords(s, [rs[j]]) == EncodeRecord(s, rs[j]);
  }

  /** Two encodings one after the other decode to the merge of the messages. Unlike the encoding standard's
      section "Last One Wins", a later submessage replaces the earlier one instead of merging into it. */
  lemma ConcatenationMerges(s: Schema, a: Msg, b: Msg, depth: nat)
    requires Typed(s, a) && Typed(s, b) && FitsLimits(s, depth)
    ensures |a.vals| == |b.vals|
    ensures
      var bytes := Encode(s, a) + Encode(s, b);
      Decode(s, bytes, 0, |bytes|, depth) == Success(Read(Merge(a, b), |bytes|))
  {
    hide Decode, EncodeRecords, AbsorbAll, RecordsUpTo, RecordOk, Merge, ValueShaped, FitsLimits, ValueTyped;
    var bytes := Encode(s, a) + Encode(s, b);
    var rs := RecordsOf(a) + RecordsOf(b);
    EncodeConcat(s, RecordsOf(a), RecordsOf(b));
    OwnRecordsAddUp(s, a);
    OwnRecordsAddUp(s, b);
    assert At(bytes, 0, EncodeRecords(s, rs));
    DecodesRecords(s, rs, bytes, 0, depth);
    AbsorbConcat(s, CreateBase(s), RecordsOf(a), RecordsOf(b));
    AbsorbIsMerge(s, a, b);
  }

  // ---- When that is the standard's merge ----

  /** Merging as the encoding standard describes it in "Last One Wins": as MergeValue, except that two submessages of
      one field are merged in turn. */
  function StandardMergeValue(kind: Kind, x: Value, v: Value): Value
    decreases kind, 0
  {
    if kind.KMessage? && x.VMessage? && v.VMessage? && x.message.Some? && v.message.Some?
    then VMessage(Some(StandardMerge(kind.schema, x.message.value, v.message.value)))
    else MergeValue(x, v)
  }

  function StandardMerge(s: Schema, x: Msg, m: Msg): (t: Msg)
    ensures |t.vals| == |m.vals|
    decreases s, 1
  {
    Msg(seq(|m.vals|, i requires 0 <= i < |m.vals| =>
      if i < |s.fields| && i < |x.vals| then StandardMergeValue(s.fields[i], x.vals[i], m.vals[i]) else m.vals[i]))
  }

  /** The second value has something wherever the first one has. */
  predicate CoversValue(kind: Kind, x: Value, v: Value)
    decreases kind, 0
  {
    match kind
    case KString => x.VString? && v.VString? && (x.bytes != [] ==> v.bytes != [])
    case KInt32 => x.VInt? && v.VInt? && (x.n != 0 ==> v.n != 0)
    case KInt64 => x.VInt? && v.VInt? && (x.n != 0 ==> v.n != 0)
    case KRepeated(_) => x.VRepeated? && x.messages == []
    case KMessage(sub) =>
      && x.VMessage? && v.VMessage?
      && (x.message.Some? ==> v.message.Some? && Covers(sub, x.message.value, v.message.value))
  }

  predicate Covers(s: Schema, x: Msg, m: Msg)
    decreases s, 1
  {
    && |x.vals| == |m.vals| == |s.fields|
    && forall i :: 0 <= i < |s.fields| ==> CoversValue(s.fields[i], x.vals[i], m.vals[i])
  }

  lemma SubmessageTyped(kind: Kind, v: Value)
    requires kind.KMessage? && ValueTyped(kind, v) && v.message.Some?
    ensures Typed(kind.schema, v.message.value)
  {
    hide EncodeRecords, RecordsOf;
    assert ItemTyped(kind, ItemsOf(v)[0]);
    assert ItemsOf(v)[0] == IMessage(v.message.value);
    assert Encodable(kind.schema, v.message.value);
  }

  lemma {:induction false} CoveredValue(kind: Kind, x: Value, v: Value)
    requires ValueTyped(kind, x) && ValueTyped(kind, v)
    ensures StandardMergeValue(kind, x, v) == v <==> CoversValue(kind, x, v)
    decreases kind, 0
  {
    if kind.KMessage? && x.message.Some? && v.message.Some? {
      SubmessageTyped(kind, x);
      SubmessageTyped(kind, v);
      CoveredMessage(kind.schema, x.message.value, v.message.value);
    } else if kind.KRepeated? {
      assert |x.messages + v.messages| == |v.messages| <==> x.messages == [];
      assert x.messages == [] ==> x.messages + v.messages == v.messages;
    }
  }

  /** Merging gives the second message exactly when it covers the first. */
  lemma {:induction false} CoveredMessage(s: Schema, x: Msg, m: Msg)
    requires Typed(s, x) && Typed(s, m)
    ensures StandardMerge(s, x, m) == m <==> Covers(s, x, m)
    decreases s, 1
  {
    forall i | 0 <= i < |s.fields|
      ensures StandardMergeValue(s.fields[i], x.vals[i], m.vals[i]) == m.vals[i] <==>
        CoversValue(s.fields[i], x.vals[i], m.vals[i])
    {
      assert ValueTyped(s.fields[i], x.vals[i]) && ValueTyped(s.fields[i], m.vals[i]);
      CoveredValue(s.fields[i], x.vals[i], m.vals[i]);
    }
    hide StandardMergeValue, CoversValue;
    SameMerge(StandardMerge(s, x, m), m);
  }

  lemma SameMerge(a: Msg, b: Msg)
    requires |a.vals| == |b.vals|
    ensures a == b <==> forall i :: 0 <= i < |b.vals| ==> a.vals[i] == b.vals[i]
  {
    if forall i :: 0 <= i < |b.vals| ==> a.vals[i] == b.vals[i] {
      assert a.vals == b.vals;
    }
  }

  /** Field i is a submessage that both messages have. */
  predicate InBoth(s: Schema, a: Msg, b: Msg, i: nat) {
    && i < |s.fields| && i < |a.vals| && i < |b.vals|
    && s.fields[i].KMessage?
    && a.vals[i].VMessage? && a.vals[i].message.Some? && b.vals[i].VMessage? && b.vals[i].message.Some?
  }

  /** If both have it, the second covers the first. */
  predicate Agrees(s: Schema, a: Msg, b: Msg, i: nat) {
    InBoth(s, a, b, i) ==> Covers(s.fields[i].schema, a.vals[i].message.value, b.vals[i].message.value)
  }

  /** Two encodings one after the other decode to what the standard asks for exactly when, of every submessage that both
      messages have, the second covers the first. */
  lemma ConcatenationIsStandardWhenCovered(s: Schema, a: Msg, b: Msg, depth: nat)
    requires Typed(s, a) && Typed(s, b) && FitsLimits(s, depth)
    ensures
      var bytes := Encode(s, a) + Encode(s, b);
      Decode(s, bytes, 0, |bytes|, depth) == Success(Read(StandardMerge(s, a, b), |bytes|)) <==>
      forall i: nat :: Agrees(s, a, b, i)
  {
    hide Decode, Encode, FitsLimits, Covers;
    ConcatenationMerges(s, a, b, depth);
    MergesAgree(s, a, b);
  }

  lemma MergesAgree(s: Schema, a: Msg, b: Msg)
    requires Typed(s, a) && Typed(s, b)
    ensures |a.vals| == |b.vals|
    ensures Merge(a, b) == StandardMerge(s, a, b) <==>
      forall i: nat :: Agrees(s, a, b, i)
  {
    var plain, standard := Merge(a, b), StandardMerge(s, a, b);
    SameMerge(plain, standard);
    forall i: nat | i < |s.fields|
      ensures plain.vals[i] == standard.vals[i] <==> Agrees(s, a, b, i)
    {
      FieldAgrees(s, a, b, i);
    }
    hide Merge, StandardMerge, Covers;
    assert forall i: nat :: i >= |s.fields| ==> Agrees(s, a, b, i);
  }

  lemma FieldAgrees(s: Schema, a: Msg, b: Msg, i: nat)
    requires Typed(s, a) && Typed(s, b) && i < |s.fields|
    ensures |a.vals| == |b.vals| == |s.fields|
    ensures Merge(a, b).vals[i] == StandardMerge(s, a, b).vals[i] <==> Agrees(s, a, b, i)
  {
    hide ValueTyped, Covers;
    var kind, x, v := s.fields[i], a.vals[i], b.vals[i];
    assert ValueTyped(kind, x) && ValueTyped(kind, v);
    if InBoth(s, a, b, i) {
      SubmessageTyped(kind, x);
      SubmessageTyped(kind, v);
      CoveredMessage(kind.schema, x.message.value, v.message.value);
    }
  }

  /** An order item's cost of five units followed by a cost of seven nanos: the second replaces the first, where the
      standard's merge has both. */
  lemma SubmessagesAreReplaced()
    ensures
      var none := VMessage(None);
      var units, nanos := Msg([VString([]), VInt(5), VInt(0)]), Msg([VString([]), VInt(0), VInt(7)]);
      var a, b := Msg([none, VMessage(Some(units))]), Msg([none, VMessage(Some(nanos))]);
      && Merge(a, b) == b
      && StandardMerge(ORDER_ITEM, a, b) == Msg([none, VMessage(Some(Msg([VString([]), VInt(5), VInt(7)])))])
  {
    var none := VMessage(None);
    var units, nanos := Msg([VString([]), VInt(5), VInt(0)]), Msg([VString([]), VInt(0), VInt(7)]);
    var a, b := Msg([none, VMessage(Some(units))]), Msg([none, VMessage(Some(nanos))]);
    var both := Msg([VString([]), VInt(5), VInt(7)]);
    SameMerge(StandardMerge(MONEY, units, nanos), both);
    SameMerge(Merge(a, b), b);
    SameMerge(StandardMerge(ORDER_ITEM, a, b), Msg([none, VMessage(Some(both))]));
  }

  function KnownOnly(rs: seq<Record>): seq<Record> {
    if rs == [] then [] else (if rs[0].Known? then [rs[0]] else []) + KnownOnly(rs[1..])
  }

  lemma {:induction false} UnknownAbsorbsNothing(s: Schema, m: Msg, rs: seq<Record>)
    requires |m.vals| == |s.fields|
    ensures AbsorbAll(s, m, rs) == AbsorbAll(s, m, KnownOnly(rs))
    decreases |rs|
  {
    if rs != [] {
      UnknownAbsorbsNothing(s, Absorb(s, m, rs[0]), rs[1..]);
      if rs[0].Known? {
        assert KnownOnly(rs)[1..] == KnownOnly(rs[1..]);
      } else {
        assert KnownOnly(rs) == KnownOnly(rs[1..]);
      }
    }
  }

  /** Fields that the schema does not recognize, by number or by wire type, may stand before, between and after
      a message's own fields without changing what is decoded. */
  lemma UnknownFieldsAreIgnored(s: Schema, m: Msg, rs: seq<Record>, depth: nat)
    requires Typed(s, m) && FitsLimits(s, depth)
    requires KnownOnly(rs) == RecordsOf(m) && forall r :: r in rs && r.Unknown? ==> RecordOk(s, r)
    ensures
      var bytes := EncodeRecords(s, rs);
      Decode(s, bytes, 0, |bytes|, depth) == Success(Read(m, |bytes|))
  {
    hide Decode, EncodeRecords, RecordOk;
    var bytes := EncodeRecords(s, rs);
    OwnRecordsAddUp(s, m);
    KnownOrOk(s, rs);
    DecodesRecords(s, rs, bytes, 0, depth);
    UnknownAbsorbsNothing(s, CreateBase(s), rs);
  }

  lemma KnownOrOk(s: Schema, rs: seq<Record>)
    requires forall r :: r in KnownOnly(rs) ==> RecordOk(s, r)
    requires forall r :: r in rs && r.Unknown? ==> RecordOk(s, r)
    ensures forall r :: r in rs ==> RecordOk(s, r)
  {
    forall r | r in rs ensures RecordOk(s, r) {
      if r.Known? {
        KnownIsKept(rs, r);
      }
    }
  }

  lemma {:induction false} KnownIsKept(rs: seq<Record>, r: Record)
    requires r in rs && r.Known?
    ensures r in KnownOnly(rs)
  {
    if r != rs[0] {
      KnownIsKept(rs[1..], r);
    }
  }

  /** Different messages have different encodings. */
  lemma EncodingIsInjective(s: Schema, a: Msg, b: Msg)
    requires Typed(s, a) && Typed(s, b) && FitsLimits(s, 0) && Encode(s, a) == Encode(s, b)
    ensures a == b
  {
    RoundTrip(s, a, Encode(s, a), 0, 0);
    RoundTrip(s, b, Encode(s, b), 0, 0);
  }

  /** The shop's messages nest four deep at most, so decoding them from the top, or inside up to 96 further
      messages, never reaches the limit. */
  lemma MessagesFitLimits(depth: nat)
    requires depth <= 96
    ensures FitsLimits(SEND_ORDER_CONFIRMATION, depth) && FitsLimits(ORDER_RESULT, depth)
    ensures FitsLimits(ORDER_ITEM, depth) && FitsLimits(ADDRESS, depth)
    ensures FitsLimits(MONEY, depth) && FitsLimits(CART_ITEM, depth)
  {
    forall d: nat | d < MAX_DEPTH ensures FitsLimits(CART_ITEM, d) && FitsLimits(MONEY, d) && FitsLimits(ADDRESS, d) {
    }
    forall d: nat | d < MAX_DEPTH - 1 ensures FitsLimits(ORDER_ITEM, d) {
    }
    forall d: nat | d < MAX_DEPTH - 2 ensures FitsLimits(ORDER_RESULT, d) {
    }
  }
}
