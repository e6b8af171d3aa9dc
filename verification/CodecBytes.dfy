/** The encoding of the shop's messages byte for byte. */
module CodecBytes {
  import opened Base
  import opened Wire
  import opened Codec
  import opened CodecProofs

  /** A tag, the length and the bytes; nothing at all for an empty string. */
  function Text(tag: byte, bytes: seq<byte>): seq<byte> {
    if bytes == [] then [] else [tag] + EncodeVarint(|bytes|) + bytes
  }

  /** A tag and the number; nothing at all for zero. */
  function Number(tag: byte, n: int64): seq<byte> {
    if n == 0 then [] else [tag] + EncodeInt(n)
  }

  /** A tag, the length and the bytes of a message, which may be no bytes. */
  function Nested(tag: byte, bytes: seq<byte>): seq<byte> {
    [tag] + EncodeVarint(|bytes|) + bytes
  }

  function AllNested(tag: byte, messages: seq<seq<byte>>): seq<byte> {
    if messages == [] then [] else Nested(tag, messages[0]) + AllNested(tag, messages[1..])
  }

  // ---- One field ----

  /** The bytes that field i of a message contributes. */
  function FieldBytes(s: Schema, i: nat, v: Value): seq<byte> {
    EncodeRecords(s, KnownRecords(i, ItemsOf(v)))
  }

  lemma OneRecord(s: Schema, r: Record)
    ensures EncodeRecords(s, [r]) == EncodeRecord(s, r)
  {
    assert [r][1..] == [];
  }

  lemma SmallTag(s: Schema, i: nat)
    requires i < |s.fields| && i < 15
    ensures TagOf(i, s.fields[i]) < 128 && EncodeVarint(TagOf(i, s.fields[i])) == [TagOf(i, s.fields[i])]
  {
  }

  lemma TextField(s: Schema, i: nat, bytes: seq<byte>)
    requires i < |s.fields| && i < 15 && s.fields[i] == KString
    ensures FieldBytes(s, i, VString(bytes)) == Text(8 * i + 10, bytes)
  {
    hide EncodeVarint;
    SmallTag(s, i);
    if bytes == [] {
      assert KnownRecords(i, ItemsOf(VString(bytes))) == [];
    } else {
      assert KnownRecords(i, ItemsOf(VString(bytes))) == [Known(i, IString(bytes))];
      OneRecord(s, Known(i, IString(bytes)));
    }
  }

  lemma NumberField(s: Schema, i: nat, n: int64)
    requires i < |s.fields| && i < 15 && (s.fields[i] == KInt32 || s.fields[i] == KInt64)
    ensures FieldBytes(s, i, VInt(n)) == Number(8 * i + 8, n)
  {
    hide EncodeVarint;
    SmallTag(s, i);
    if n == 0 {
      assert KnownRecords(i, ItemsOf(VInt(n))) == [];
    } else {
      assert KnownRecords(i, ItemsOf(VInt(n))) == [Known(i, IInt(n))];
      OneRecord(s, Known(i, IInt(n)));
    }
  }

  lemma NestedRecord(s: Schema, i: nat, m: Msg)
    requires i < |s.fields| && i < 15 && (s.fields[i].KMessage? || s.fields[i].KRepeated?)
    ensures EncodeRecord(s, Known(i, IMessage(m))) == Nested(8 * i + 10, Encode(s.fields[i].schema, m))
  {
    hide EncodeVarint, EncodeRecords, RecordsOf;
    SmallTag(s, i);
  }

  lemma MessageField(s: Schema, i: nat, message: Option<Msg>)
    requires i < |s.fields| && i < 15 && s.fields[i].KMessage?
    ensures FieldBytes(s, i, VMessage(message)) ==
      if message.None? then [] else Nested(8 * i + 10, Encode(s.fields[i].schema, message.value))
  {
    hide EncodeRecord, EncodeVarint;
    if message.None? {
      assert KnownRecords(i, ItemsOf(VMessage(message))) == [];
    } else {
      assert KnownRecords(i, ItemsOf(VMessage(message))) == [Known(i, IMessage(message.value))];
      OneRecord(s, Known(i, IMessage(message.value)));
      NestedRecord(s, i, message.value);
    }
  }

  function EncodeAll(s: Schema, messages: seq<Msg>): seq<seq<byte>> {
    seq(|messages|, j requires 0 <= j < |messages| => Encode(s, messages[j]))
  }

  lemma {:induction false} RepeatedField(s: Schema, i: nat, messages: seq<Msg>)
    requires i < |s.fields| && i < 15 && s.fields[i].KRepeated?
    ensures FieldBytes(s, i, VRepeated(messages)) == AllNested(8 * i + 10, EncodeAll(s.fields[i].schema, messages))
  {
    hide EncodeRecord, EncodeVarint, Encode;
    var rs := KnownRecords(i, ItemsOf(VRepeated(messages)));
    var encoded := EncodeAll(s.fields[i].schema, messages);
    if messages == [] {
      assert rs == [] && encoded == [];
    } else {
      RepeatedField(s, i, messages[1..]);
      assert rs[1..] == KnownRecords(i, ItemsOf(VRepeated(messages[1..])));
      assert encoded[1..] == EncodeAll(s.fields[i].schema, messages[1..]);
      NestedRecord(s, i, messages[0]);
    }
  }

  // ---- Messages of two to five fields ----

  lemma FieldByField(s: Schema, m: Msg, n: nat)
    requires n < |m.vals|
    ensures EncodeRecords(s, RecordsUpTo(m, n + 1)) ==
      EncodeRecords(s, RecordsUpTo(m, n)) + FieldBytes(s, n, m.vals[n])
  {
    EncodeConcat(s, RecordsUpTo(m, n), KnownRecords(n, ItemsOf(m.vals[n])));
  }

  lemma TwoFields(s: Schema, m: Msg)
    requires |m.vals| >= 2
    ensures EncodeRecords(s, RecordsUpTo(m, 2)) == FieldBytes(s, 0, m.vals[0]) + FieldBytes(s, 1, m.vals[1])
  {
    hide FieldBytes;
    assert EncodeRecords(s, RecordsUpTo(m, 0)) == [];
    FieldByField(s, m, 0);
    FieldByField(s, m, 1);
  }

  lemma FiveFields(s: Schema, m: Msg)
    requires |m.vals| == 5
    ensures Encode(s, m) ==
      FieldBytes(s, 0, m.vals[0]) + FieldBytes(s, 1, m.vals[1]) + FieldBytes(s, 2, m.vals[2])
      + FieldBytes(s, 3, m.vals[3]) + FieldBytes(s, 4, m.vals[4])
  {
    hide FieldBytes, RecordsUpTo, EncodeRecords;
    TwoFields(s, m);
    FieldByField(s, m, 2);
    FieldByField(s, m, 3);
    FieldByField(s, m, 4);
  }

  // ---- The shop's messages ----

  lemma CartItemBytes(productId: seq<byte>, quantity: int32)
    ensures Encode(CART_ITEM, Msg([VString(productId), VInt(quantity)])) == Text(10, productId) + Number(16, quantity)
  {
    hide EncodeRecords, RecordsUpTo, FieldBytes, Text, Number;
    TwoFields(CART_ITEM, Msg([VString(productId), VInt(quantity)]));
    TextField(CART_ITEM, 0, productId);
    NumberField(CART_ITEM, 1, quantity);
  }

  lemma MoneyBytes(currencyCode: seq<byte>, units: int64, nanos: int32)
    ensures Encode(MONEY, Msg([VString(currencyCode), VInt(units), VInt(nanos)])) ==
      Text(10, currencyCode) + Number(16, units) + Number(24, nanos)
  {
    hide EncodeRecords, RecordsUpTo, FieldBytes, Text, Number;
    var m := Msg([VString(currencyCode), VInt(units), VInt(nanos)]);
    TwoFields(MONEY, m);
    FieldByField(MONEY, m, 2);
    TextField(MONEY, 0, currencyCode);
    NumberField(MONEY, 1, units);
    NumberField(MONEY, 2, nanos);
  }

  lemma AddressBytes(street: seq<byte>, city: seq<byte>, state: seq<byte>, country: seq<byte>, zip: seq<byte>)
    ensures Encode(ADDRESS, Msg([VString(street), VString(city), VString(state), VString(country), VString(zip)])) ==
      Text(10, street) + Text(18, city) + Text(26, state) + Text(34, country) + Text(42, zip)
  {
    hide Encode, FieldBytes, Text;
    FiveFields(ADDRESS, Msg([VString(street), VString(city), VString(state), VString(country), VString(zip)]));
    TextField(ADDRESS, 0, street);
    TextField(ADDRESS, 1, city);
    TextField(ADDRESS, 2, state);
    TextField(ADDRESS, 3, country);
    TextField(ADDRESS, 4, zip);
  }

  lemma OrderItemBytes(item: Option<Msg>, cost: Option<Msg>)
    ensures Encode(ORDER_ITEM, Msg([VMessage(item), VMessage(cost)])) ==
      (if item.None? then [] else Nested(10, Encode(CART_ITEM, item.value)))
      + (if cost.None? then [] else Nested(18, Encode(MONEY, cost.value)))
  {
    hide EncodeRecords, RecordsUpTo, FieldBytes, Nested;
    TwoFields(ORDER_ITEM, Msg([VMessage(item), VMessage(cost)]));
    MessageField(ORDER_ITEM, 0, item);
    MessageField(ORDER_ITEM, 1, cost);
  }

  lemma OrderResultBytes(orderId: seq<byte>, tracking: seq<byte>, cost: Msg, address: Msg, items: seq<Msg>)
    ensures
      var m := Msg([VString(orderId), VString(tracking), VMessage(Some(cost)), VMessage(Some(address)), VRepeated(items)]);
      Encode(ORDER_RESULT, m) ==
        Text(10, orderId) + Text(18, tracking) + Nested(26, Encode(MONEY, cost)) + Nested(34, Encode(ADDRESS, address))
        + AllNested(42, EncodeAll(ORDER_ITEM, items))
  {
    hide Encode, FieldBytes, Text, Nested, AllNested, EncodeAll;
    var m := Msg([VString(orderId), VString(tracking), VMessage(Some(cost)), VMessage(Some(address)), VRepeated(items)]);
    FiveFields(ORDER_RESULT, m);
    TextField(ORDER_RESULT, 0, orderId);
    TextField(ORDER_RESULT, 1, tracking);
    MessageField(ORDER_RESULT, 2, Some(cost));
    MessageField(ORDER_RESULT, 3, Some(address));
    RepeatedField(ORDER_RESULT, 4, items);
  }

  lemma ConfirmationBytes(email: seq<byte>, order: Msg)
    ensures Encode(SEND_ORDER_CONFIRMATION, Msg([VString(email), VMessage(Some(order))])) ==
      Text(10, email) + Nested(18, Encode(ORDER_RESULT, order))
  {
    hide EncodeRecords, RecordsUpTo, FieldBytes, Text, Nested;
    TwoFields(SEND_ORDER_CONFIRMATION, Msg([VString(email), VMessage(Some(order))]));
    TextField(SEND_ORDER_CONFIRMATION, 0, email);
    MessageField(SEND_ORDER_CONFIRMATION, 1, Some(order));
  }

  lemma ShortNested(tag: byte, bytes: seq<byte>)
    requires |bytes| < 128
    ensures Nested(tag, bytes) == [tag, |bytes|] + bytes
  {
  }

  lemma ThreeHundred()
    ensures Encode(CART_ITEM, Msg([VString([97, 98]), VInt(300)])) == [10, 2, 97, 98, 16, 172, 2]
  {
    hide Encode;
    CartItemBytes([97, 98], 300);
    assert EncodeInt(300) == [172, 2];
  }

  lemma Five()
    ensures EncodeInt(5) == [5]
  {
  }

  lemma MinusOneUnit()
    ensures Encode(MONEY, Msg([VString([]), VInt(-1), VInt(5)])) ==
      [16, 255, 255, 255, 255, 255, 255, 255, 255, 255, 1, 24, 5]
  {
    hide Encode, EncodeVarint;
    MoneyBytes([], -1, 5);
    MinusOne();
    assert EncodeInt(5) == [5] by {
      Five();
    }
  }

  /** One order item: three hundred pieces of "ab" at minus one unit and five nanos. */
  lemma OrderItemExample()
    ensures
      var item, cost := Msg([VString([97, 98]), VInt(300)]), Msg([VString([]), VInt(-1), VInt(5)]);
      Encode(ORDER_ITEM, Msg([VMessage(Some(item)), VMessage(Some(cost))])) ==
        [10, 7] + [10, 2, 97, 98, 16, 172, 2]
        + ([18, 13] + [16, 255, 255, 255, 255, 255, 255, 255, 255, 255, 1, 24, 5])
  {
    hide Encode, Nested;
    var item, cost := Msg([VString([97, 98]), VInt(300)]), Msg([VString([]), VInt(-1), VInt(5)]);
    ThreeHundred();
    MinusOneUnit();
    OrderItemBytes(Some(item), Some(cost));
    ShortNested(10, Encode(CART_ITEM, item));
    ShortNested(18, Encode(MONEY, cost));
  }

  /** It decodes to the order item again. */
  lemma ExampleComesBack()
    ensures
      var item, cost := Msg([VString([97, 98]), VInt(300)]), Msg([VString([]), VInt(-1), VInt(5)]);
      var order := Msg([VMessage(Some(item)), VMessage(Some(cost))]);
      Decode(ORDER_ITEM, Encode(ORDER_ITEM, order), 0, |Encode(ORDER_ITEM, order)|, 0) ==
        Success(Read(order, |Encode(ORDER_ITEM, order)|))
  {
    var item, cost := Msg([VString([97, 98]), VInt(300)]), Msg([VString([]), VInt(-1), VInt(5)]);
    var order := Msg([VMessage(Some(item)), VMessage(Some(cost))]);
    PartsAreEncodable();
    OrderIsTyped(item, cost);
    MessagesFitLimits(0);
    hide Decode, Encode, Typed, FitsLimits;
    RoundTrip(ORDER_ITEM, order, Encode(ORDER_ITEM, order), 0, 0);
  }

  lemma PartsAreEncodable()
    ensures Encodable(CART_ITEM, Msg([VString([97, 98]), VInt(300)]))
    ensures Encodable(MONEY, Msg([VString([]), VInt(-1), VInt(5)]))
  {
    ThreeHundred();
    MinusOneUnit();
    hide EncodeRecords, RecordsOf;
    assert ValueTyped(KString, VString([97, 98])) && ValueTyped(KInt32, VInt(300));
    assert ValueTyped(KString, VString([])) && ValueTyped(KInt64, VInt(-1)) && ValueTyped(KInt32, VInt(5));
  }

  lemma OrderIsTyped(item: Msg, cost: Msg)
    requires Encodable(CART_ITEM, item) && Encodable(MONEY, cost)
    ensures Typed(ORDER_ITEM, Msg([VMessage(Some(item)), VMessage(Some(cost))]))
  {
    hide Encodable;
    assert ValueTyped(KMessage(CART_ITEM), VMessage(Some(item)));
    assert ValueTyped(KMessage(MONEY), VMessage(Some(cost)));
  }

  lemma MinusOne()
    ensures EncodeInt(-1) == [255, 255, 255, 255, 255, 255, 255, 255, 255, 1]
  {
    NegativeDigits(-1);
    forall i | 0 <= i < 9 ensures Digit(-1, i) == 127 {
      QuotientIs(-1, Power128(i), -1, Power128(i) - 1);
    }
  }
}
