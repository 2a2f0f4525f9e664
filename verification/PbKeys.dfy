/**
 What is in an encoding: the keys that any reader of protocol buffers finds at its top level, with no
 descriptor at hand, are those of the fields that are set, in the order of the descriptor.
 */
module PbKeys {
  import opened Wrappers
  import opened Bytes
  import opened PbWire
  import opened PbStream
  import opened PbTypes
  import opened PbEncode
  import opened PbDecode
  import opened PbNested

  datatype FieldKey = FieldKey(tag: nat, wireType: nat)

  /** The keys at the top level, one after another, each value skipped by its wire type alone. */
  function Keys(s: seq<byte>): Option<seq<FieldKey>>
    decreases |s|
  {
    if s == [] then Some([])
    else
      match ReadVarint32(s)
      case None => None
      case Some((key, payload)) =>
        match Skip(key % 8, payload)
        case None => None
        case Some(rest) => if |rest| >= |s| then None else Cons(FieldKey(key / 8, key % 8), Keys(rest))
  }

  function Cons(key: FieldKey, keys: Option<seq<FieldKey>>): Option<seq<FieldKey>> {
    if keys.None? then None else Some([key] + keys.value)
  }

  /** Whether a field has a value to be written. */
  predicate Present(f: Field, slot: Slot)
    requires FieldTyped(f, slot)
  {
    match f.rule
    case Required => true
    case Optional => if f.Implicit() then !ValueIsDefault(f, slot.v) else slot.has
    case Repeated => slot.items != []
    case Oneof => slot.which == f.tag
  }

  function Copies(key: FieldKey, n: nat): (keys: seq<FieldKey>)
    ensures |keys| == n && forall k | k in keys :: k == key
  {
    if n == 0 then [] else [key] + Copies(key, n - 1)
  }

  /** One key for a field that is set, but one for each item of an array that is not packed. */
  function KeysOf(f: Field, slot: Slot): (keys: seq<FieldKey>)
    requires FieldTyped(f, slot)
    ensures keys != [] <==> Present(f, slot)
    ensures forall k | k in keys :: k.tag == f.tag
  {
    if !Present(f, slot) then []
    else if !f.rule.Repeated? then [FieldKey(f.tag, WireType(f.kind))]
    else if f.Packable() then [FieldKey(f.tag, WT_STRING)]
    else Copies(FieldKey(f.tag, WireType(f.kind)), |slot.items|)
  }

  function KeysFrom(fields: seq<Field>, slots: seq<Slot>, i: nat): seq<FieldKey>
    requires StructTyped(fields, slots) && i <= |fields|
    decreases |fields| - i
  {
    if i == |fields| then []
    else KeysOf(fields[i], SlotOf(fields, slots, i)) + KeysFrom(fields, slots, i + 1)
  }

  predicate InRange(f: Field) {
    1 <= f.tag < 0x2000_0000
  }

  /** A key and a value that its wire type skips: the reader goes on behind them. */
  lemma KeyFound(tag: nat, wireType: nat, body: seq<byte>, rest: seq<byte>)
    requires 1 <= tag < 0x2000_0000 && wireType < 8 && Skip(wireType, body + rest) == Some(rest)
    ensures Keys(Key(wireType, tag) + body + rest) == Cons(FieldKey(tag, wireType), Keys(rest))
  {
    hide Skip, Varint, ReadVarint32;
    var key := tag * 8 + wireType;
    assert key % U64 == key && key / 8 == tag && key % 8 == wireType;
    Varint32Ranges(key, body + rest);
    VarintNonempty(key);
    assert Key(wireType, tag) + body + rest == Varint(key) + (body + rest);
  }

  lemma KeyedFound(f: Field, v: Value, rest: seq<byte>)
    requires InRange(f) && ValueTyped(f, v) && KeyedValue(f, v).Some? && |KeyedValue(f, v).value| < U32
    ensures Keys(KeyedValue(f, v).value + rest) == Cons(FieldKey(f.tag, WireType(f.kind)), Keys(rest))
  {
    hide EncodeValue, Skip, Key, Keys;
    ValueSkips(f, v, rest);
    KeyFound(f.tag, WireType(f.kind), EncodeValue(f, v).value, rest);
  }

  lemma PackedFound(f: Field, items: seq<Value>, rest: seq<byte>)
    requires InRange(f) && f.Packable() && ItemsTyped(f, items) && items != []
    requires EncodeArray(f, items).Some? && |EncodeArray(f, items).value| < U32
    ensures Keys(EncodeArray(f, items).value + rest) == Cons(FieldKey(f.tag, WT_STRING), Keys(rest))
  {
    hide PackedBytes, Key, Keys, ReadString;
    var data := PackedBytes(f, items).value;
    PrefixedGives(data, rest);
    KeyFound(f.tag, WT_STRING, Prefixed(data), rest);
  }

  lemma {:induction false} UnpackedFound(f: Field, items: seq<Value>, rest: seq<byte>)
    requires InRange(f) && ItemsTyped(f, items) && Keys(rest).Some?
    requires UnpackedBytes(f, items).Some? && |UnpackedBytes(f, items).value| < U32
    ensures Keys(UnpackedBytes(f, items).value + rest)
            == Some(Copies(FieldKey(f.tag, WireType(f.kind)), |items|) + Keys(rest).value)
    decreases |items|
  {
    hide Key, Keys, EncodeValue;
    var key := FieldKey(f.tag, WireType(f.kind));
    if items == [] {
      assert [] + rest == rest && [] + Keys(rest).value == Keys(rest).value;
    } else {
      var tail := UnpackedBytes(f, items[1..]).value;
      assert ValueTyped(f, items[0]);
      KeyedFound(f, items[0], tail + rest);
      UnpackedFound(f, items[1..], rest);
      assert UnpackedBytes(f, items).value + rest == KeyedValue(f, items[0]).value + (tail + rest);
      assert [key] + (Copies(key, |items| - 1) + Keys(rest).value) == Copies(key, |items|) + Keys(rest).value;
    }
  }

  lemma FieldFound(f: Field, slot: Slot, rest: seq<byte>)
    requires InRange(f) && FieldTyped(f, slot) && Keys(rest).Some?
    requires EncodeField(f, slot).Some? && |EncodeField(f, slot).value| < U32
    ensures Keys(EncodeField(f, slot).value + rest) == Some(KeysOf(f, slot) + Keys(rest).value)
  {
    hide Keys, KeyedValue, PackedBytes, UnpackedBytes, ValueIsDefault;
    assert [] + rest == rest && [] + Keys(rest).value == Keys(rest).value;
    if f.rule.Repeated? {
      if slot.items != [] {
        if f.Packable() { PackedFound(f, slot.items, rest); } else { UnpackedFound(f, slot.items, rest); }
      }
    } else if Present(f, slot) {
      KeyedFound(f, slot.v, rest);
    }
  }

  lemma {:induction false} FieldsFound(fields: seq<Field>, slots: seq<Slot>, i: nat)
    requires StructTyped(fields, slots) && i <= |fields| && forall k | 0 <= k < |fields| :: InRange(fields[k])
    requires EncodeFrom(fields, slots, i).Some? && |EncodeFrom(fields, slots, i).value| < U32
    ensures Keys(EncodeFrom(fields, slots, i).value) == Some(KeysFrom(fields, slots, i))
    decreases |fields| - i
  {
    hide EncodeField, KeysOf, SlotOf;
    if i < |fields| {
      FieldsFound(fields, slots, i + 1);
      hide Keys;
      FieldFound(fields[i], SlotOf(fields, slots, i), EncodeFrom(fields, slots, i + 1).value);
    }
  }

  ghost predicate Occurs(keys: seq<FieldKey>, tag: nat) {
    exists k | k in keys :: k.tag == tag
  }

  /** Some field from position i on has the tag and is set. */
  ghost predicate IsSet(fields: seq<Field>, slots: seq<Slot>, i: nat, tag: nat)
    requires StructTyped(fields, slots)
  {
    exists j | i <= j < |fields| :: fields[j].tag == tag && Present(fields[j], SlotOf(fields, slots, j))
  }

  lemma {:induction false} TagsFrom(fields: seq<Field>, slots: seq<Slot>, i: nat, tag: nat)
    requires StructTyped(fields, slots) && i <= |fields|
    ensures Occurs(KeysFrom(fields, slots, i), tag) <==> IsSet(fields, slots, i, tag)
    decreases |fields| - i
  {
    hide SlotOf, Present;
    if i < |fields| {
      TagsFrom(fields, slots, i + 1, tag);
      var own, more := KeysOf(fields[i], SlotOf(fields, slots, i)), KeysFrom(fields, slots, i + 1);
      assert Occurs(own + more, tag) <==> Occurs(own, tag) || Occurs(more, tag) by {
        forall k | k in own + more ensures k in own || k in more {}
        forall k | k in own || k in more ensures k in own + more {}
      }
      if own != [] { assert own[0] in own; }
    }
  }

  /**
   Any reader finds exactly these keys in what pb_encode writes; in particular a tag is there if and only if
   a field with that tag is set.
   */
  lemma EncodingHolds(fields: seq<Field>, slots: seq<Slot>)
    requires StructTyped(fields, slots) && forall k | 0 <= k < |fields| :: InRange(fields[k])
    requires Encode(fields, slots).Some? && |Encode(fields, slots).value| < U32
    ensures Keys(Encode(fields, slots).value) == Some(KeysFrom(fields, slots, 0))
    ensures forall tag: nat :: Occurs(KeysFrom(fields, slots, 0), tag) <==> IsSet(fields, slots, 0, tag)
  {
    hide Keys, KeysFrom, EncodeFrom, Occurs, IsSet;
    FieldsFound(fields, slots, 0);
    forall tag: nat ensures Occurs(KeysFrom(fields, slots, 0), tag) <==> IsSet(fields, slots, 0, tag) {
      TagsFrom(fields, slots, 0, tag);
    }
  }
}
