/**
 What decoding leaves in a struct fits its descriptor, whatever the octets: integers their width, strings,
 byte arrays and arrays their storage, unions one member.  What fits can be encoded again.
 */
module PbStored {
  import opened Wrappers
  import opened Bits
  import opened Bytes
  import opened PbWire
  import opened PbStream
  import opened PbTypes
  import opened PbEncode
  import opened PbDecode

  // ---- What fits --------------------------------------------------------------------------------

  /** A value that is in the storage a field has for it. */
  predicate ValueFits(f: Field, v: Value)
    decreases f, 0
  {
    match f.kind
    case Signed => v.Int? && FitsSigned(f.dataSize, v.n)
    case ZigZagged => v.Int? && FitsSigned(f.dataSize, v.n)
    case Unsigned => v.Int? && SignedLimit(f.dataSize).Some? && 0 <= v.n < 2 * SignedLimit(f.dataSize).value
    case Fixed32 => v.Int? && 0 <= v.n < U32
    case Fixed64 => v.Int? && 0 <= v.n < U64
    case ByteArray => v.Blob? && |v.bytes| <= PB_SIZE_MAX && |v.bytes| + 1 <= f.dataSize
    case CString => v.Blob? && |v.bytes| + 1 <= f.dataSize
    case FixedBytes => v.Blob? && |v.bytes| == f.dataSize
    case Submessage(sub) => v.Msg? && StructFits(sub, v.slots)
  }

  predicate FitsSigned(d: nat, n: int) {
    SignedLimit(d).Some? && -SignedLimit(d).value <= n < SignedLimit(d).value
  }

  predicate FieldFits(f: Field, slot: Slot)
    decreases f, 1
  {
    match f.rule
    case Required => slot.One? && ValueFits(f, slot.v)
    case Optional => (if f.Implicit() then slot.One? else slot.Maybe?) && ValueFits(f, slot.v)
    case Repeated =>
      slot.Many? && |slot.items| <= f.arraySize && forall k | 0 <= k < |slot.items| :: ValueFits(f, slot.items[k])
    case Oneof => slot.Union? && (slot.which == f.tag ==> ValueFits(f, slot.v))
  }

  predicate StructFits(fields: seq<Field>, slots: seq<Slot>)
    decreases fields
  {
    && |slots| == SlotsTo(fields, |fields|)
    && forall i | 0 <= i < |fields| :: FieldFits(fields[i], SlotOf(fields, slots, i))
  }

  /** A descriptor whose tags differ and are not zero, and whose defaults fit, at every depth. */
  predicate Sound(fields: seq<Field>)
    decreases fields
  {
    && (forall i, j | 0 <= i < j < |fields| :: fields[i].tag != fields[j].tag)
    && forall i | 0 <= i < |fields| :: SoundField(fields[i])
  }

  predicate SoundField(f: Field)
    decreases f
  {
    && f.tag != 0
    && if f.kind.Submessage? then Sound(f.kind.fields)
       else f.rule.Required? || f.rule.Optional? ==> ValueFits(f, DefaultValue(f))
  }

  // ---- Defaults fit -----------------------------------------------------------------------------

  lemma {:induction false} DefaultsFit(fields: seq<Field>)
    requires Sound(fields)
    ensures StructFits(fields, Defaults(fields))
    decreases fields
  {
    forall i | 0 <= i < |fields| ensures FieldFits(fields[i], SlotOf(fields, Defaults(fields), i)) {
      DefaultAt(fields, i, |fields|);
      assert SoundField(fields[i]);
      DefaultFits(fields[i]);
    }
  }

  lemma {:induction false} DefaultFits(f: Field)
    requires SoundField(f)
    ensures FieldFits(f, DefaultSlot(f))
    decreases f
  {
    if f.kind.Submessage? { DefaultsFit(f.kind.fields); }
  }

  // ---- Whatever is decoded fits -----------------------------------------------------------------

  lemma ScalarFits(f: Field, s: seq<byte>)
    requires f.Packable() && ReadScalar(f, s).Some?
    ensures ValueFits(f, Int(ReadScalar(f, s).value.0))
  {
    hide ReadVarint;
    if f.kind.Fixed32? {
      assert Pow256(4) == U32;
    } else if f.kind.Fixed64? {
      EightOctets();
    }
  }

  lemma EightOctets()
    ensures Pow256(8) == U64
  {
    assert Pow256(4) == U32;
    assert Pow256(8) == 256 * 256 * 256 * 256 * Pow256(4);
  }

  lemma {:induction false} PackedFits(f: Field, items: seq<Value>, s: seq<byte>)
    requires f.Packable() && DecodePacked(f, items, s).Some? && |items| <= f.arraySize
    requires forall k | 0 <= k < |items| :: ValueFits(f, items[k])
    ensures |DecodePacked(f, items, s).value| <= f.arraySize
    ensures forall k | 0 <= k < |DecodePacked(f, items, s).value| :: ValueFits(f, DecodePacked(f, items, s).value[k])
    decreases |s|
  {
    hide ReadScalar, ValueFits;
    if s != [] {
      var (n, rest) := ReadScalar(f, s).value;
      ScalarFits(f, s);
      PackedFits(f, items + [Int(n)], rest);
    }
  }

  /** A value that a submessage may be merged into. */
  predicate HeldFits(f: Field, held: Value) {
    f.kind.Submessage? && !f.rule.Repeated? ==> ValueFits(f, held)
  }

  lemma {:induction false} ValueDecodesFit(f: Field, held: Value, s: seq<byte>)
    requires SoundField(f) && HeldFits(f, held) && DecodeValue(f, held, s).Some?
    ensures ValueFits(f, DecodeValue(f, held, s).value.0)
    decreases |s|, 1
  {
    hide ReadScalar, ReadString, DecodeNoInit, StructFits, Sound;
    if f.Packable() {
      ScalarFits(f, s);
    } else if f.kind.Submessage? {
      var sub := f.kind.fields;
      var body := ReadString(s).value.0;
      var start := if f.rule.Repeated? then Defaults(sub) else HeldSlots(sub, held);
      if f.rule.Repeated? { DefaultsFit(sub); } else { HeldIs(f, held); }
      StructDecodesFit(sub, start, body);
    }
  }

  lemma HeldIs(f: Field, held: Value)
    requires f.kind.Submessage? && ValueFits(f, held)
    ensures held.Msg? && StructFits(f.kind.fields, HeldSlots(f.kind.fields, held))
  {
  }

  lemma {:induction false} FieldDecodesFit(f: Field, slot: Slot, wireType: nat, s: seq<byte>)
    requires SoundField(f) && FieldFits(f, slot) && DecodeField(f, slot, wireType, s).Some?
    ensures var slot' := DecodeField(f, slot, wireType, s).value.0;
            FieldFits(f, slot') && (f.rule.Oneof? ==> slot'.Union? && slot'.which == f.tag)
    decreases |s|, 2
  {
    hide ReadString, DecodeValue, DecodePacked, ValueFits;
    if f.rule.Repeated? && wireType == 2 && f.Packable() {
      PackedFits(f, slot.items, ReadString(s).value.0);
    } else {
      DefaultHeld(f);
      ValueDecodesFit(f, if f.rule.Repeated? || f.rule.Oneof? then DefaultValue(f) else Held(f, slot), s);
    }
  }

  lemma DefaultHeld(f: Field)
    requires SoundField(f)
    ensures HeldFits(f, DefaultValue(f))
  {
    if f.kind.Submessage? { DefaultsFit(f.kind.fields); }
  }

  /** Storing a field's slot leaves the others fitting; members of one union are told apart by their tags. */
  lemma SetFits(fields: seq<Field>, slots: seq<Slot>, i: nat, slot: Slot)
    requires Sound(fields) && StructFits(fields, slots) && i < |fields| && FieldFits(fields[i], slot)
    requires fields[i].rule.Oneof? ==> slot.Union? && slot.which == fields[i].tag
    ensures StructFits(fields, SetSlot(fields, slots, i, slot))
  {
    hide ValueFits, SoundField;
    var slots' := SetSlot(fields, slots, i, slot);
    forall j | 0 <= j < |fields| ensures FieldFits(fields[j], SlotOf(fields, slots', j)) {
      SlotInRange(fields, j);
      if j != i && SlotIndex(fields, j) == SlotIndex(fields, i) {
        SharedSlot(fields, if i < j then i else j, if i < j then j else i);
        assert fields[i].tag != fields[j].tag;
      }
    }
  }

  lemma {:induction false} LoopFits(fields: seq<Field>, slots: seq<Slot>, s: seq<byte>, seen: set<nat>)
    requires Sound(fields) && StructFits(fields, slots) && DecodeLoop(fields, slots, s, seen).Some?
    ensures StructFits(fields, DecodeLoop(fields, slots, s, seen).value.slots)
    decreases |s|, 3
  {
    hide ReadVarint32, Skip, DecodeField, SlotOf, SetSlot, Saw, FindTag, FieldFits, SoundField;
    if s != [] && ReadVarint32(s).value.0 != 0 {
      var (key, rest) := ReadVarint32(s).value;
      var found := FindTag(fields, key / 8);
      if found.None? {
        LoopFits(fields, slots, Skip(key % 8, rest).value, seen);
      } else {
        var i := found.value;
        assert SoundField(fields[i]);
        FieldDecodesFit(fields[i], SlotOf(fields, slots, i), key % 8, rest);
        var (slot, rest') := DecodeField(fields[i], SlotOf(fields, slots, i), key % 8, rest).value;
        SetFits(fields, slots, i, slot);
        LoopFits(fields, SetSlot(fields, slots, i, slot), rest', Saw(fields, i, seen));
      }
    }
  }

  lemma {:induction false} StructDecodesFit(fields: seq<Field>, slots: seq<Slot>, s: seq<byte>)
    requires Sound(fields) && StructFits(fields, slots) && DecodeNoInit(fields, slots, s).Some?
    ensures StructFits(fields, DecodeNoInit(fields, slots, s).value.0)
    decreases |s|, 4
  {
    hide DecodeLoop, StructFits, Sound;
    LoopFits(fields, slots, s, {});
  }

  /** Whatever the octets, a message that decodes fits its struct at every depth. */
  lemma DecodedFits(fields: seq<Field>, s: seq<byte>)
    requires Sound(fields) && Decode(fields, s).Some?
    ensures StructFits(fields, Decode(fields, s).value.0)
  {
    DefaultsFit(fields);
    StructDecodesFit(fields, Defaults(fields), s);
  }

  // ---- What fits can be encoded -----------------------------------------------------------------

  lemma {:induction false} FitsIsTyped(f: Field, v: Value)
    requires ValueFits(f, v)
    ensures ValueTyped(f, v)
    decreases f, 0
  {
    if f.kind.Submessage? { StructFitsTyped(f.kind.fields, v.slots); }
  }

  lemma {:induction false} StructFitsTyped(fields: seq<Field>, slots: seq<Slot>)
    requires StructFits(fields, slots)
    ensures StructTyped(fields, slots)
    decreases fields
  {
    forall i | 0 <= i < |fields| ensures FieldTyped(fields[i], SlotOf(fields, slots, i)) {
      FieldFitsTyped(fields[i], SlotOf(fields, slots, i));
    }
  }

  lemma {:induction false} FieldFitsTyped(f: Field, slot: Slot)
    requires FieldFits(f, slot)
    ensures FieldTyped(f, slot)
    decreases f, 1
  {
    hide ValueFits, ValueTyped;
    match f.rule {
      case Required => FitsIsTyped(f, slot.v);
      case Optional => FitsIsTyped(f, slot.v);
      case Repeated =>
        forall k | 0 <= k < |slot.items| ensures ValueTyped(f, slot.items[k]) { FitsIsTyped(f, slot.items[k]); }
      case Oneof =>
        if slot.which == f.tag { FitsIsTyped(f, slot.v); }
    }
  }

  lemma {:induction false} ValueEncodes(f: Field, v: Value)
    requires ValueFits(f, v)
    ensures ValueTyped(f, v) && EncodeValue(f, v).Some?
    decreases f, 0
  {
    FitsIsTyped(f, v);
    if f.kind.Submessage? { FieldsEncode(f.kind.fields, v.slots, 0); }
  }

  lemma {:induction false} PackedEncodes(f: Field, items: seq<Value>)
    requires f.Packable() && forall k | 0 <= k < |items| :: ValueFits(f, items[k])
    ensures ItemsTyped(f, items) && PackedBytes(f, items).Some?
    decreases f, 1, |items|
  {
    hide ScalarBytes;
    forall k | 0 <= k < |items| ensures ValueTyped(f, items[k]) { FitsIsTyped(f, items[k]); }
    if items != [] {
      ValueEncodes(f, items[0]);
      PackedEncodes(f, items[1..]);
    }
  }

  lemma {:induction false} UnpackedEncodes(f: Field, items: seq<Value>)
    requires forall k | 0 <= k < |items| :: ValueFits(f, items[k])
    ensures ItemsTyped(f, items) && UnpackedBytes(f, items).Some?
    decreases f, 1, |items|
  {
    hide EncodeValue, ValueFits, ValueTyped;
    forall k | 0 <= k < |items| ensures ValueTyped(f, items[k]) { FitsIsTyped(f, items[k]); }
    if items != [] {
      ValueEncodes(f, items[0]);
      UnpackedEncodes(f, items[1..]);
    }
  }

  lemma {:induction false} FieldEncodes(f: Field, slot: Slot)
    requires FieldFits(f, slot)
    ensures FieldTyped(f, slot) && EncodeField(f, slot).Some?
    decreases f, 2
  {
    hide ValueFits, ValueTyped, EncodeValue, ValueIsDefault, PackedBytes, UnpackedBytes;
    FieldFitsTyped(f, slot);
    match f.rule {
      case Required => ValueEncodes(f, slot.v);
      case Optional => ValueEncodes(f, slot.v);
      case Repeated => if f.Packable() { PackedEncodes(f, slot.items); } else { UnpackedEncodes(f, slot.items); }
      case Oneof =>
        if slot.which == f.tag { ValueEncodes(f, slot.v); }
    }
  }

  lemma {:induction false} FieldsEncode(fields: seq<Field>, slots: seq<Slot>, i: nat)
    requires StructFits(fields, slots) && i <= |fields|
    ensures StructTyped(fields, slots) && EncodeFrom(fields, slots, i).Some?
    decreases fields, |fields| - i
  {
    hide EncodeField, FieldFits, SlotOf;
    StructFitsTyped(fields, slots);
    if i < |fields| {
      FieldEncodes(fields[i], SlotOf(fields, slots, i));
      FieldsEncode(fields, slots, i + 1);
    }
  }

  /** A struct that fits its descriptor can be encoded: the encoder has no other reason to fail. */
  lemma FittingEncodes(fields: seq<Field>, slots: seq<Slot>)
    requires StructFits(fields, slots)
    ensures StructTyped(fields, slots) && Encode(fields, slots).Some?
  {
    FieldsEncode(fields, slots, 0);
  }

  /** So whatever has been decoded can be encoded again. */
  lemma DecodedEncodes(fields: seq<Field>, s: seq<byte>)
    requires Sound(fields) && Decode(fields, s).Some?
    ensures var slots := Decode(fields, s).value.0; StructTyped(fields, slots) && Encode(fields, slots).Some?
  {
    hide Decode, StructFits, Encode;
    DecodedFits(fields, s);
    FittingEncodes(fields, Decode(fields, s).value.0);
  }
}
