/** The codec's loops over a reader and a writer (src/frontend/protos/demo.ts), proved against Codec. */
module CodecMethods {
  import opened Base
  import opened Wire
  import opened Codec
  import opened CodecProofs

  class BinaryWriter {
    var out: seq<byte>

    constructor ()
      ensures out == []
    {
      out := [];
    }

    method Append(bytes: seq<byte>)
      modifies this
      ensures out == old(out) + bytes
    {
      out := out + bytes;
    }
  }

  class BinaryReader {
    const buf: seq<byte>
    var pos: nat
    var depth: nat

    constructor (buf: seq<byte>)
      ensures Valid() && this.buf == buf && pos == 0 && depth == 0
    {
      this.buf, pos, depth := buf, 0, 0;
    }

    predicate Valid()
      reads this
    {
      pos <= |buf|
    }

    method Uint32() returns (r: Result<nat, WireError>)
      requires Valid()
      modifies this`pos
      ensures Valid()
      ensures ReadUint32(buf, old(pos)) == if r.Success? then Success(Read(r.value, pos)) else Failure(r.error)
    {
      match ReadUint32(buf, pos)
      case Success(v) =>
        pos := v.pos;
        r := Success(v.value);
      case Failure(e) => r := Failure(e);
    }

    method SkipField(wireType: nat) returns (r: Option<WireError>)
      requires Valid()
      modifies this`pos
      ensures Valid()
      ensures Skip(buf, old(pos), wireType) == if r.None? then Success(pos) else Failure(r.value)
    {
      match Skip(buf, pos, wireType)
      case Success(next) =>
        pos := next;
        r := None;
      case Failure(e) => r := Some(e);
    }
  }

  /** Writes an item; a submessage is written to a fork of the writer and joined with its length in front. */
  method EncodeOne(kind: Kind, item: Item, writer: BinaryWriter)
    requires ItemTyped(kind, item)
    modifies writer
    ensures writer.out == old(writer.out) + EncodeItem(kind, item)
    decreases kind
  {
    hide EncodeRecords;
    if kind.KMessage? || kind.KRepeated? {
      var inner := new BinaryWriter();
      EncodeMessage(kind.schema, item.message, inner);
      writer.Append(EncodeVarint(|inner.out|) + inner.out);
    } else {
      writer.Append(EncodeItem(kind, item));
    }
  }

  /** Writes a field once for each of its items, with its tag. */
  method EncodeField(s: Schema, field: nat, items: seq<Item>, writer: BinaryWriter)
    requires field < |s.fields| && forall j :: 0 <= j < |items| ==> ItemTyped(s.fields[field], items[j])
    modifies writer
    ensures writer.out == old(writer.out) + EncodeRecords(s, KnownRecords(field, items))
    decreases s, 0
  {
    var kind := s.fields[field];
    var j := 0;
    ghost var rs := KnownRecords(field, items);
    while j < |items|
      invariant 0 <= j <= |items|
      invariant writer.out == old(writer.out) + EncodeRecords(s, rs[..j])
    {
      writer.Append(EncodeVarint(TagOf(field, kind)));
      EncodeOne(kind, items[j], writer);
      EncodeSnoc(s, rs, j);
      j := j + 1;
    }
    assert rs[..j] == rs;
  }

  lemma FieldItemsTyped(s: Schema, m: Msg, i: nat)
    requires Typed(s, m) && i < |s.fields|
    ensures |m.vals| == |s.fields|
    ensures forall j :: 0 <= j < |ItemsOf(m.vals[i])| ==> ItemTyped(s.fields[i], ItemsOf(m.vals[i])[j])
  {
    assert ValueTyped(s.fields[i], m.vals[i]);
  }

  lemma EncodeUpTo(s: Schema, m: Msg, i: nat)
    requires i < |m.vals|
    ensures EncodeRecords(s, RecordsUpTo(m, i + 1)) ==
      EncodeRecords(s, RecordsUpTo(m, i)) + EncodeRecords(s, KnownRecords(i, ItemsOf(m.vals[i])))
  {
    EncodeConcat(s, RecordsUpTo(m, i), KnownRecords(i, ItemsOf(m.vals[i])));
  }

  /** Every field with its items typed. */
  predicate FieldsTyped(s: Schema, m: Msg) {
    |m.vals| == |s.fields| && forall i, j :: 0 <= i < |s.fields| && 0 <= j < |ItemsOf(m.vals[i])| ==>
      ItemTyped(s.fields[i], ItemsOf(m.vals[i])[j])
  }

  lemma TypedFields(s: Schema, m: Msg)
    requires Typed(s, m)
    ensures FieldsTyped(s, m)
  {
    forall i | 0 <= i < |s.fields|
      ensures forall j :: 0 <= j < |ItemsOf(m.vals[i])| ==> ItemTyped(s.fields[i], ItemsOf(m.vals[i])[j])
    {
      FieldItemsTyped(s, m, i);
    }
  }

  method EncodeMessage(s: Schema, m: Msg, writer: BinaryWriter)
    requires Typed(s, m)
    modifies writer
    ensures writer.out == old(writer.out) + Encode(s, m)
    decreases s, 2
  {
    TypedFields(s, m);
    EncodeFields(s, m, writer);
    EncodedToRecords(s, m, |m.vals|);
  }

  /** The bytes of the first n fields. */
  function EncodedTo(s: Schema, m: Msg, n: nat): seq<byte>
    requires n <= |m.vals|
  {
    if n == 0 then [] else EncodedTo(s, m, n - 1) + EncodeRecords(s, KnownRecords(n - 1, ItemsOf(m.vals[n - 1])))
  }

  lemma EncodeNothing(s: Schema)
    ensures EncodeRecords(s, []) == []
  {
  }

  lemma {:induction false} EncodedToRecords(s: Schema, m: Msg, n: nat)
    requires n <= |m.vals|
    ensures EncodedTo(s, m, n) == EncodeRecords(s, RecordsUpTo(m, n))
  {
    hide EncodeRecords;
    if n == 0 {
      EncodeNothing(s);
    } else {
      EncodedToRecords(s, m, n - 1);
      EncodeUpTo(s, m, n - 1);
    }
  }

  method EncodeFields(s: Schema, m: Msg, writer: BinaryWriter)
    requires FieldsTyped(s, m)
    modifies writer
    ensures writer.out == old(writer.out) + EncodedTo(s, m, |m.vals|)
    decreases s, 1
  {
    hide EncodeRecords, ItemTyped;
    var i := 0;
    while i < |s.fields|
      invariant 0 <= i <= |s.fields|
      invariant writer.out == old(writer.out) + EncodedTo(s, m, i)
    {
      EncodeField(s, i, ItemsOf(m.vals[i]), writer);
      i := i + 1;
    }
  }

  /** Reads the value of a recognized field. */
  method DecodeField(kind: Kind, reader: BinaryReader) returns (r: Result<Item, WireError>)
    requires reader.Valid()
    modifies reader
    ensures reader.Valid() && reader.depth == old(reader.depth)
    ensures ReadItem(kind, reader.buf, old(reader.pos), old(reader.depth)) ==
      if r.Success? then Success(Read(r.value, reader.pos)) else Failure(r.error)
    decreases kind, 0
  {
    if kind.KMessage? || kind.KRepeated? {
      var length := reader.Uint32();
      if length.Failure? {
        return Failure(length.error);
      }
      var message := DecodeMessage(kind.schema, reader, Some(length.value));
      if message.Failure? {
        return Failure(message.error);
      }
      r := Success(IMessage(message.value));
    } else {
      match ReadItem(kind, reader.buf, reader.pos, reader.depth)
      case Success(v) =>
        reader.pos := v.pos;
        r := Success(v.value);
      case Failure(e) => r := Failure(e);
    }
  }

  /** Decodes a message of the given length, or to the end of the buffer. The reader's depth is put back
      whether or not decoding succeeds. */
  method DecodeMessage(s: Schema, reader: BinaryReader, length: Option<nat>) returns (r: Result<Msg, WireError>)
    requires reader.Valid()
    modifies reader
    ensures reader.Valid() && reader.depth == old(reader.depth)
    ensures
      var end := if length.None? then |reader.buf| else old(reader.pos) + length.value;
      Decode(s, reader.buf, old(reader.pos), end, old(reader.depth)) ==
        if r.Success? then Success(Read(r.value, reader.pos)) else Failure(r.error)
    decreases s, 2
  {
    var previous := reader.depth;
    if previous >= MAX_DEPTH {
      return Failure(TooDeep);
    }
    reader.depth := previous + 1;
    var end := if length.None? then |reader.buf| else reader.pos + length.value;
    r := DecodeFields(s, reader, end);
    reader.depth := previous;
  }

  method DecodeFields(s: Schema, reader: BinaryReader, end: nat) returns (r: Result<Msg, WireError>)
    requires reader.Valid()
    modifies reader
    ensures reader.Valid() && reader.depth == old(reader.depth)
    ensures DecodeLoop(s, reader.buf, old(reader.pos), end, reader.depth, CreateBase(s)) ==
      if r.Success? then Success(Read(r.value, reader.pos)) else Failure(r.error)
    decreases s, 1
  {
    var message := CreateBase(s);
    while reader.pos < end
      invariant reader.Valid() && reader.depth == old(reader.depth) && |message.vals| == |s.fields|
      invariant DecodeLoop(s, reader.buf, old(reader.pos), end, reader.depth, CreateBase(s)) ==
        DecodeLoop(s, reader.buf, reader.pos, end, reader.depth, message)
      decreases |reader.buf| - reader.pos
    {
      ghost var at, m := reader.pos, message;
      var tag := reader.Uint32();
      if tag.Failure? {
        return Failure(tag.error);
      }
      var i := FieldOfTag(s, tag.value);
      if i < |s.fields| {
        var item := DecodeField(s.fields[i], reader);
        if item.Failure? {
          return Failure(item.error);
        }
        message := Msg(message.vals[i := Put(s.fields[i], message.vals[i], item.value)]);
      } else if tag.value % 8 == END_GROUP || tag.value == 0 {
        return Success(message);
      } else {
        var error := reader.SkipField(tag.value % 8);
        if error.Some? {
          return Failure(error.value);
        }
      }
      LoopStep(s, reader.buf, at, end, reader.depth, m, reader.pos, message);
    }
    r := Success(message);
  }
}
