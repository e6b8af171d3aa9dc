/** The generated message codec (src/frontend/protos/demo.ts). Every generated encode and decode follows one
    scheme, so the messages are given here by their field lists and the scheme once. Field i of a list
    has number i + 1. A string is its UTF-8 bytes. */
module Codec {
  import opened Base
  import opened Wire

  datatype Kind =
    | KString
    | KInt32
    | KInt64
    | KMessage(schema: Schema)
    | KRepeated(schema: Schema)

  datatype Schema = Schema(fields: seq<Kind>)

  datatype Value =
    | VString(bytes: seq<byte>)
    | VInt(n: int)
    | VMessage(message: Option<Msg>)
    | VRepeated(messages: seq<Msg>)

  datatype Msg = Msg(vals: seq<Value>)

  // ---- The messages ----

  const CART_ITEM := Schema([KString, KInt32])
  const MONEY := Schema([KString, KInt64, KInt32])
  const ADDRESS := Schema([KString, KString, KString, KString, KString])
  const ORDER_ITEM := Schema([KMessage(CART_ITEM), KMessage(MONEY)])
  const ORDER_RESULT := Schema([KString, KString, KMessage(MONEY), KMessage(ADDRESS), KRepeated(ORDER_ITEM)])
  const SEND_ORDER_CONFIRMATION := Schema([KString, KMessage(ORDER_RESULT)])

  function DefaultOf(kind: Kind): Value {
    match kind
    case KString => VString([])
    case KInt32 => VInt(0)
    case KInt64 => VInt(0)
    case KMessage(_) => VMessage(None)
    case KRepeated(_) => VRepeated([])
  }

  function CreateBase(s: Schema): Msg {
    Msg(seq(|s.fields|, i requires 0 <= i < |s.fields| => DefaultOf(s.fields[i])))
  }

  // ---- Records: one field occurrence on the wire ----

  datatype Item = IString(bytes: seq<byte>) | IInt(n: int) | IMessage(message: Msg)

  /** A field of the schema with one item, or a field that the schema does not recognize. */
  datatype Record = Known(field: nat, item: Item) | Unknown(tag: nat, payload: seq<byte>)

  function WireTypeOf(kind: Kind): nat {
    match kind
    case KString => LENGTH_DELIMITED
    case KInt32 => VARINT
    case KInt64 => VARINT
    case KMessage(_) => LENGTH_DELIMITED
    case KRepeated(_) => LENGTH_DELIMITED
  }

  function TagOf(field: nat, kind: Kind): nat {
    8 * (field + 1) + WireTypeOf(kind)
  }

  function TagsOf(s: Schema): seq<nat> {
    seq(|s.fields|, i requires 0 <= i < |s.fields| => TagOf(i, s.fields[i]))
  }

  /** The tags that the generated code writes for these messages. */
  lemma GeneratedTags()
    ensures TagsOf(CART_ITEM) == [10, 16]
    ensures TagsOf(MONEY) == [10, 16, 24]
    ensures TagsOf(ADDRESS) == [10, 18, 26, 34, 42]
    ensures TagsOf(ORDER_ITEM) == [10, 18]
    ensures TagsOf(ORDER_RESULT) == [10, 18, 26, 34, 42]
    ensures TagsOf(SEND_ORDER_CONFIRMATION) == [10, 18]
  {
  }

  /** Default scalars and absent messages are not written; a repeated field is written once per element. */
  function ItemsOf(v: Value): seq<Item> {
    match v
    case VString(bytes) => if bytes == [] then [] else [IString(bytes)]
    case VInt(n) => if n == 0 then [] else [IInt(n)]
    case VMessage(message) => if message.None? then [] else [IMessage(message.value)]
    case VRepeated(messages) => seq(|messages|, j requires 0 <= j < |messages| => IMessage(messages[j]))
  }

  function KnownRecords(field: nat, items: seq<Item>): seq<Record> {
    seq(|items|, j requires 0 <= j < |items| => Known(field, items[j]))
  }

  function RecordsUpTo(m: Msg, n: nat): seq<Record>
    requires n <= |m.vals|
  {
    if n == 0 then [] else RecordsUpTo(m, n - 1) + KnownRecords(n - 1, ItemsOf(m.vals[n - 1]))
  }

  function RecordsOf(m: Msg): seq<Record> {
    RecordsUpTo(m, |m.vals|)
  }

  // ---- What may be encoded ----

  predicate ItemTyped(kind: Kind, item: Item)
    decreases kind, 0
  {
    match kind
    case KString => item.IString? && |item.bytes| < TWO_32
    case KInt32 => item.IInt? && -TWO_31 <= item.n < TWO_31
    case KInt64 => item.IInt? && IsSafe(item.n)
    case KMessage(sub) => item.IMessage? && Encodable(sub, item.message)
    case KRepeated(sub) => item.IMessage? && Encodable(sub, item.message)
  }

  predicate ValueTyped(kind: Kind, v: Value)
    decreases kind, 1
  {
    && (v.VString? <==> kind.KString?)
    && (v.VInt? <==> kind.KInt32? || kind.KInt64?)
    && (v.VMessage? <==> kind.KMessage?)
    && forall j :: 0 <= j < |ItemsOf(v)| ==> ItemTyped(kind, ItemsOf(v)[j])
  }

  predicate Typed(s: Schema, m: Msg)
    decreases s, 0
  {
    |m.vals| == |s.fields| && forall i :: 0 <= i < |s.fields| ==> ValueTyped(s.fields[i], m.vals[i])
  }

  /** Every value is in its type's range, an int64 is a safe integer, and every length fits uint32. */
  predicate Encodable(s: Schema, m: Msg)
    decreases s, 1
  {
    Typed(s, m) && |EncodeRecords(s, RecordsOf(m))| < TWO_32
  }

  // ---- Encoding ----

  /** The bytes of an item after its tag. An item that does not fit its kind has none. */
  function EncodeItem(kind: Kind, item: Item): seq<byte>
    decreases kind
  {
    match kind
    case KString => if item.IString? then EncodeVarint(|item.bytes|) + item.bytes else []
    case KInt32 => if item.IInt? && IsInt64(item.n) then EncodeInt(item.n) else []
    case KInt64 => if item.IInt? && IsInt64(item.n) then EncodeInt(item.n) else []
    case KMessage(sub) =>
      if item.IMessage? then
        var inner := EncodeRecords(sub, RecordsOf(item.message));
        EncodeVarint(|inner|) + inner
      else []
    case KRepeated(sub) =>
      if item.IMessage? then
        var inner := EncodeRecords(sub, RecordsOf(item.message));
        EncodeVarint(|inner|) + inner
      else []
  }

  function EncodeRecord(s: Schema, r: Record): seq<byte>
    decreases s, 0
  {
    match r
    case Known(field, item) =>
      if field < |s.fields| then EncodeVarint(TagOf(field, s.fields[field])) + EncodeItem(s.fields[field], item) else []
    case Unknown(tag, payload) => EncodeVarint(tag) + payload
  }

  function EncodeRecords(s: Schema, rs: seq<Record>): seq<byte>
    decreases s, 1 + |rs|
  {
    if rs == [] then [] else EncodeRecord(s, rs[0]) + EncodeRecords(s, rs[1..])
  }

  /** The encoding of a message. */
  function Encode(s: Schema, m: Msg): seq<byte> {
    EncodeRecords(s, RecordsOf(m))
  }

  // ---- Decoding ----

  const MAX_DEPTH: nat := 100

  /** Assigns a field, or pushes onto a repeated one. */
  function Put(kind: Kind, v: Value, item: Item): Value {
    match kind
    case KString => if item.IString? then VString(item.bytes) else v
    case KInt32 => if item.IInt? then VInt(item.n) else v
    case KInt64 => if item.IInt? then VInt(item.n) else v
    case KMessage(_) => if item.IMessage? then VMessage(Some(item.message)) else v
    case KRepeated(_) => if item.IMessage? && v.VRepeated? then VRepeated(v.messages + [item.message]) else v
  }

  function ReadItem(kind: Kind, buf: seq<byte>, pos: nat, depth: nat): (r: Result<Read<Item>, WireError>)
    requires pos <= |buf|
    ensures r.Success? ==> pos <= r.value.pos <= |buf|
    decreases kind
  {
    match kind
    case KString =>
      (match ReadBytes(buf, pos)
       case Failure(e) => Failure(e)
       case Success(v) => Success(Read(IString(v.value), v.pos)))
    case KInt32 =>
      (match ReadInt32(buf, pos)
       case Failure(e) => Failure(e)
       case Success(v) => Success(Read(IInt(v.value), v.pos)))
    case KInt64 =>
      (match ReadSafeInt64(buf, pos)
       case Failure(e) => Failure(e)
       case Success(v) => Success(Read(IInt(v.value), v.pos)))
    case KMessage(sub) => ReadSubmessage(sub, buf, pos, depth)
    case KRepeated(sub) => ReadSubmessage(sub, buf, pos, depth)
  }

  function ReadSubmessage(sub: Schema, buf: seq<byte>, pos: nat, depth: nat): (r: Result<Read<Item>, WireError>)
    requires pos <= |buf|
    ensures r.Success? ==> pos <= r.value.pos <= |buf|
    decreases sub, 3, 0
  {
    match ReadUint32(buf, pos)
    case Failure(e) => Failure(e)
    case Success(n) =>
      match Decode(sub, buf, n.pos, n.pos + n.value, depth)
      case Failure(e) => Failure(e)
      case Success(v) => Success(Read(IMessage(v.value), v.pos))
  }

  /** The recognized field of a tag, or the number of fields when there is none. */
  function FieldOfTag(s: Schema, tag: nat): (i: nat)
    ensures i <= |s.fields|
    ensures i < |s.fields| ==> tag == TagOf(i, s.fields[i])
    ensures i == |s.fields| ==> forall k :: 0 <= k < |s.fields| ==> tag != TagOf(k, s.fields[k])
  {
    var number := tag / 8;
    if 1 <= number <= |s.fields| && tag == TagOf(number - 1, s.fields[number - 1]) then number - 1 else |s.fields|
  }

  /** How one turn of the decode loop ends: with another field read, or with the loop left. */
  datatype Turn = Continue(pos: nat, message: Msg) | Stop(pos: nat) | Raise(error: WireError)

  /** A recognized tag reads its field, an end-group or zero tag leaves the loop, and any other field is
      skipped. */
  function DecodeTurn(s: Schema, buf: seq<byte>, pos: nat, depth: nat, m: Msg): (t: Turn)
    requires |m.vals| == |s.fields|
    ensures !t.Raise? ==> pos < t.pos <= |buf|
    ensures t.Continue? ==> |t.message.vals| == |s.fields|
    decreases s, 0, 0
  {
    match ReadUint32(buf, pos)
    case Failure(e) => Raise(e)
    case Success(tag) =>
      var i := FieldOfTag(s, tag.value);
      if i < |s.fields| then
        match ReadItem(s.fields[i], buf, tag.pos, depth)
        case Failure(e) => Raise(e)
        case Success(v) => Continue(v.pos, Msg(m.vals[i := Put(s.fields[i], m.vals[i], v.value)]))
      else if tag.value % 8 == END_GROUP || tag.value == 0 then Stop(tag.pos)
      else
        match Skip(buf, tag.pos, tag.value % 8)
        case Failure(e) => Raise(e)
        case Success(next) => Continue(next, m)
  }

  /** The decode loop, from a position and the fields read so far. A nested message may run past the end of
      its parent, and a loop that is left early stays where it is. */
  function DecodeLoop(s: Schema, buf: seq<byte>, pos: nat, end: nat, depth: nat, m: Msg): (r: Result<Read<Msg>, WireError>)
    requires pos <= |buf| && |m.vals| == |s.fields|
    ensures r.Success? ==> pos <= r.value.pos <= |buf| && |r.value.value.vals| == |s.fields|
    decreases s, 1, |buf| - pos
  {
    if pos >= end then Success(Read(m, pos))
    else
      match DecodeTurn(s, buf, pos, depth, m)
      case Raise(e) => Failure(e)
      case Stop(next) => Success(Read(m, next))
      case Continue(next, message) => DecodeLoop(s, buf, next, end, depth, message)
  }

  /** Decodes from a position to an end, at a recursion depth. */
  function Decode(s: Schema, buf: seq<byte>, pos: nat, end: nat, depth: nat): (r: Result<Read<Msg>, WireError>)
    requires pos <= |buf|
    ensures r.Success? ==> pos <= r.value.pos <= |buf| && |r.value.value.vals| == |s.fields|
    decreases s, 2, 0
  {
    if depth >= MAX_DEPTH then Failure(TooDeep) else DecodeLoop(s, buf, pos, end, depth + 1, CreateBase(s))
  }
}
