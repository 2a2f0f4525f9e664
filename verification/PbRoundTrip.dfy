/** What pb_encode writes, pb_decode reads back, to the last octet. */
module PbRoundTrip {
  import opened Wrappers
  import opened Bytes
  import opened PbWire
  import opened PbStream
  import opened PbTypes
  import opened PbEncode
  import opened PbDecode

  // ---- Which descriptors and structs, and up to what -------------------------------------------

  /**
   A generated descriptor: tags and sizes fit pb_size_t, no tag appears twice, and a proto3 field
   without has_ has no default but zero.
   */
  predicate WellFormed(fields: seq<Field>)
    decreases fields
  {
    && (forall i, j | 0 <= i < j < |fields| :: fields[i].tag != fields[j].tag)
    && forall i | 0 <= i < |fields| :: FieldWellFormed(fields[i])
  }

  predicate FieldWellFormed(f: Field)
    decreases f
  {
    && 1 <= f.tag <= PB_SIZE_MAX && f.dataSize <= PB_SIZE_MAX
    && (f.Implicit() ==> f.dflt.None?)
    && (f.kind.Submessage? ==> WellFormed(f.kind.fields))
  }

  /** Every string is terminated within its buffer. */
  predicate ValueTerminated(f: Field, v: Value)
    requires ValueTyped(f, v)
    decreases f, 0
  {
    match f.kind
    case CString => |Terminated(v.bytes, f.dataSize)| < f.dataSize
    case Submessage(sub) => StructTerminated(sub, v.slots)
    case _ => true
  }

  predicate SlotTerminated(f: Field, slot: Slot)
    requires FieldTyped(f, slot)
    decreases f, 1
  {
    match f.rule
    case Required => ValueTerminated(f, slot.v)
    case Optional => ValueTerminated(f, slot.v)
    case Repeated => forall k | 0 <= k < |slot.items| :: ValueTerminated(f, slot.items[k])
    case Oneof => slot.which == f.tag ==> ValueTerminated(f, slot.v)
  }

  predicate StructTerminated(fields: seq<Field>, slots: seq<Slot>)
    requires StructTyped(fields, slots)
    decreases fields
  {
    forall i | 0 <= i < |fields| :: SlotTerminated(fields[i], SlotOf(fields, slots, i))
  }

  /** w is v as a message: a string up to its terminator, a submessage field by field, the rest equal. */
  predicate SameValue(f: Field, v: Value, w: Value)
    requires ValueTyped(f, v)
    decreases f, 0
  {
    match f.kind
    case CString => w == Blob(Terminated(v.bytes, f.dataSize))
    case Submessage(sub) => w.Msg? && SameStruct(sub, v.slots, w.slots)
    case _ => w == v
  }

  /**
   b is a as a field: what was absent is at its default, an array has the same items, and a union
   holds the same member, or none of these fields.
   */
  predicate SameField(f: Field, a: Slot, b: Slot)
    requires FieldTyped(f, a)
    decreases f, 1
  {
    match f.rule
    case Required => b.One? && SameValue(f, a.v, b.v)
    case Optional =>
      if f.Implicit() then b.One? && SameValue(f, a.v, b.v)
      else b.Maybe? && b.has == a.has && if a.has then SameValue(f, a.v, b.v) else b.v == DefaultValue(f)
    case Repeated =>
      && b.Many? && |b.items| == |a.items|
      && forall k | 0 <= k < |a.items| :: SameValue(f, a.items[k], b.items[k])
    case Oneof =>
      b.Union? && if a.which == f.tag then b.which == f.tag && SameValue(f, a.v, b.v) else b.which != f.tag
  }

  predicate SameStruct(fields: seq<Field>, a: seq<Slot>, b: seq<Slot>)
    requires StructTyped(fields, a)
    decreases fields
  {
    && |b| == |a|
    && forall i | 0 <= i < |fields| :: SameField(fields[i], SlotOf(fields, a, i), SlotOf(fields, b, i))
  }

  // ---- Values -----------------------------------------------------------------------------------

  lemma ScalarReads(f: Field, n: int, rest: seq<byte>)
    requires f.Packable() && ValueTyped(f, Int(n)) && ScalarBytes(f, n).Some?
    ensures ReadScalar(f, ScalarBytes(f, n).value + rest) == Some((n, rest))
  {
    hide Varint;
    hide ReadVarint;
    hide Le;
    hide ReadFixed;
    if f.kind.Fixed32? {
      assert Pow256(4) == U32;
      ReadOfFixed(n, 4, rest);
    } else if f.kind.Fixed64? {
      Pow256Eight();
      ReadOfFixed(n, 8, rest);
    } else if f.kind.Signed? {
      ReadOfVarint(ToU64(n), rest);
      LowWord(n);
    } else if f.kind.Unsigned? {
      ReadOfVarint(n, rest);
    } else {
      ZigZagInverse(n, 0);
      ReadOfVarint(ZigZag(n), rest);
    }
  }

  lemma Pow256Eight()
    ensures Pow256(8) == U64
  {
    assert Pow256(4) == U32;
    assert Pow256(8) == 256 * 256 * 256 * 256 * Pow256(4);
  }

  /** The low half of a sign-extended 32-bit value is that value. */
  lemma LowWord(n: int)
    requires -I64 <= n < I64
    ensures -0x8000_0000 <= n < 0x8000_0000 ==> ToS32(ToU64(n) % U32) == n
    ensures ToS64(ToU64(n)) == n
  {
    if -0x8000_0000 <= n < 0 {
      assert ToU64(n) == 0xffff_ffff * U32 + (n + U32);
    }
  }

  lemma PrefixedReads(s: seq<byte>, rest: seq<byte>)
    requires |s| < U32
    ensures ReadString(Prefixed(s) + rest) == Some((s, rest))
  {
    hide ReadString;
    assert |s| % U64 == |s|;
    ReadOfString(s, rest);
  }

  /** A decoded scalar, blob or string. */
  lemma PlainReads(f: Field, v: Value, held: Value, rest: seq<byte>) returns (w: Value)
    requires !f.kind.Submessage? && FieldWellFormed(f) && ValueTyped(f, v) && ValueTerminated(f, v)
    requires EncodeValue(f, v).Some? && |EncodeValue(f, v).value| < U32
    ensures DecodeValue(f, held, EncodeValue(f, v).value + rest) == Some((w, rest)) && SameValue(f, v, w)
  {
    hide ReadString;
    hide ReadScalar;
    hide ScalarBytes;
    if f.Packable() {
      ScalarReads(f, v.n, rest);
      w := v;
    } else {
      var s := if f.kind.CString? then Terminated(v.bytes, f.dataSize) else v.bytes;
      PrefixedReads(s, rest);
      w := Blob(s);
      if s == [] { assert Zeros(0) == []; }
    }
  }

  /** Submessages that are merged start from what is held, which here is unset. */
  predicate HeldUnset(f: Field, held: Value) {
    f.kind.Submessage? && !f.rule.Repeated? ==> HeldSlots(f.kind.fields, held) == Defaults(f.kind.fields)
  }

  lemma DefaultUnset(f: Field)
    ensures HeldUnset(f, DefaultValue(f))
  {
  }

  lemma {:induction false} ValueReads(f: Field, v: Value, held: Value, rest: seq<byte>) returns (w: Value)
    requires FieldWellFormed(f) && ValueTyped(f, v) && ValueTerminated(f, v) && HeldUnset(f, held)
    requires EncodeValue(f, v).Some? && |EncodeValue(f, v).value| < U32
    ensures DecodeValue(f, held, EncodeValue(f, v).value + rest) == Some((w, rest)) && SameValue(f, v, w)
    decreases f, 0
  {
    if f.kind.Submessage? {
      hide ReadString;
      var sub := f.kind.fields;
      var e := EncodeFrom(sub, v.slots, 0).value;
      assert EncodeValue(f, v) == Some(Prefixed(e));
      hide EncodeFrom;
      hide DecodeNoInit;
      PrefixedReads(e, rest);
      var slots := StructReads(sub, v.slots);
      w := Msg(slots);
    } else {
      w := PlainReads(f, v, held, rest);
    }
  }

  // ---- Fields -----------------------------------------------------------------------------------

  /** A key in front of a value leads the decoder's loop to the field it names. */
  lemma KeyReads(fields: seq<Field>, i: nat, wireType: nat, cur: seq<Slot>, body: seq<byte>, seen: set<nat>)
    requires WellFormed(fields) && i < |fields| && wireType < 8 && |cur| == SlotsTo(fields, |fields|)
    ensures DecodeLoop(fields, cur, Key(wireType, fields[i].tag) + body, seen) ==
              Onward(fields, cur, i, DecodeField(fields[i], SlotOf(fields, cur, i), wireType, body), seen)
  {
    hide DecodeField;
    hide Varint;
    hide ReadVarint32;
    hide SlotOf;
    hide SetSlot;
    hide Saw;
    assert FieldWellFormed(fields[i]);
    var tag := fields[i].tag;
    var key := tag * 8 + wireType;
    assert key % U64 == key && key / 8 == tag && key % 8 == wireType;
    Varint32Ranges(key, body);
    FindTagAt(fields, i);
  }

  /** A field the decoder has not yet met. */
  predicate Untouched(f: Field, b: Slot) {
    if f.rule.Oneof? then b.Union? && b.which != f.tag else b == DefaultSlot(f)
  }

  /** The struct being decoded once the first i fields have gone by. */
  predicate Progress(fields: seq<Field>, slots: seq<Slot>, cur: seq<Slot>, i: nat)
    requires StructTyped(fields, slots)
  {
    && |cur| == |slots|
    && forall j | 0 <= j < |fields| ::
         if j < i then SameField(fields[j], SlotOf(fields, slots, j), SlotOf(fields, cur, j))
         else Untouched(fields[j], SlotOf(fields, cur, j))
  }

  /** Storing one field's slot changes no other field's, except of members of the same union. */
  lemma SlotsApart(fields: seq<Field>, cur: seq<Slot>, i: nat, slot: Slot, j: nat)
    requires i < |fields| && j < |fields| && i != j && |cur| == SlotsTo(fields, |fields|)
    ensures SlotIndex(fields, i) != SlotIndex(fields, j) ==>
              SlotOf(fields, SetSlot(fields, cur, i, slot), j) == SlotOf(fields, cur, j)
    ensures SlotIndex(fields, i) == SlotIndex(fields, j) ==>
              && SlotOf(fields, SetSlot(fields, cur, i, slot), j) == slot
              && fields[i].rule.Oneof? && fields[j].rule.Oneof?
  {
    SlotInRange(fields, i);
    SlotInRange(fields, j);
    if SlotIndex(fields, i) == SlotIndex(fields, j) {
      SharedSlot(fields, if i < j then i else j, if i < j then j else i);
    }
  }

  lemma SetOwn(fields: seq<Field>, cur: seq<Slot>, i: nat, slot: Slot)
    requires i < |fields| && |cur| == SlotsTo(fields, |fields|)
    ensures SlotOf(fields, SetSlot(fields, cur, i, slot), i) == slot
  {
    SlotInRange(fields, i);
  }

  /** After a field has been stored as it was encoded, one more field has gone by. */
  lemma ProgressSet(fields: seq<Field>, slots: seq<Slot>, cur: seq<Slot>, i: nat, slot: Slot)
    requires WellFormed(fields) && StructTyped(fields, slots) && i < |fields| && Progress(fields, slots, cur, i)
    requires SameField(fields[i], SlotOf(fields, slots, i), slot)
    requires fields[i].rule.Oneof? ==> SlotOf(fields, slots, i).which == fields[i].tag
    ensures Progress(fields, slots, SetSlot(fields, cur, i, slot), i + 1)
  {
    hide SetSlot;
    hide SameValue;
    hide ValueTyped;
    hide DefaultSlot;
    hide SlotsTo;
    var cur' := SetSlot(fields, cur, i, slot);
    SetOwn(fields, cur, i, slot);
    forall j | 0 <= j < |fields|
      ensures if j < i + 1 then SameField(fields[j], SlotOf(fields, slots, j), SlotOf(fields, cur', j))
              else Untouched(fields[j], SlotOf(fields, cur', j))
    {
      if j != i {
        SlotsApart(fields, cur, i, slot, j);
        if SlotIndex(fields, i) == SlotIndex(fields, j) {
          assert SlotOf(fields, slots, i) == SlotOf(fields, slots, j);
          assert fields[i].tag != fields[j].tag;
        }
      }
    }
  }

  /** An implicit field that counts as unset is what its default is. */
  lemma {:induction false} DefaultIsSame(f: Field, v: Value)
    requires FieldWellFormed(f) && ValueTyped(f, v) && ValueIsDefault(f, v) && (f.kind.Submessage? || f.dflt.None?)
    ensures SameValue(f, v, DefaultValue(f))
    decreases f
  {
    if f.kind.Submessage? {
      var sub := f.kind.fields;
      assert StructTyped(sub, v.slots);
      forall i | 0 <= i < |sub| ensures SameField(sub[i], SlotOf(sub, v.slots, i), SlotOf(sub, Defaults(sub), i)) {
        DefaultAt(sub, i, |sub|);
        assert FieldWellFormed(sub[i]);
        if sub[i].Implicit() {
          DefaultIsSame(sub[i], SlotOf(sub, v.slots, i).v);
        }
      }
    }
  }

  lemma {:induction false} PackedReads(f: Field, items: seq<Value>, done: seq<Value>)
    requires f.Packable() && ItemsTyped(f, items) && PackedBytes(f, items).Some?
    requires |done| + |items| <= f.arraySize
    ensures DecodePacked(f, done, PackedBytes(f, items).value) == Some(done + items)
    decreases |items|
  {
    if items == [] {
      assert done + items == done;
    } else {
      assert ValueTyped(f, items[0]);
      var n, rest := items[0].n, PackedBytes(f, items[1..]).value;
      ScalarReads(f, n, rest);
      PackedReads(f, items[1..], done + [Int(n)]);
      assert done + [Int(n)] + items[1..] == done + items;
    }
  }

  /** A packed array, key and length included. */
  lemma PackedArrayReads(fields: seq<Field>, i: nat, items: seq<Value>, cur: seq<Slot>, tail: seq<byte>, seen: set<nat>)
    requires WellFormed(fields) && i < |fields| && |cur| == SlotsTo(fields, |fields|)
    requires fields[i].rule.Repeated? && fields[i].Packable() && ItemsTyped(fields[i], items) && items != []
    requires SlotOf(fields, cur, i) == Many([])
    requires EncodeArray(fields[i], items).Some? && |EncodeArray(fields[i], items).value| < U32
    ensures DecodeLoop(fields, cur, EncodeArray(fields[i], items).value + tail, seen) ==
              DecodeLoop(fields, SetSlot(fields, cur, i, Many(items)), tail, seen)
  {
    hide SlotOf;
    hide SetSlot;
    hide ReadString;
    hide DecodeLoop;
    var f := fields[i];
    var data := PackedBytes(f, items).value;
    var e := EncodeArray(f, items).value;
    assert e == Key(WT_STRING, f.tag) + Prefixed(data);
    assert e + tail == Key(WT_STRING, f.tag) + (Prefixed(data) + tail);
    KeyReads(fields, i, WT_STRING, cur, Prefixed(data) + tail, seen);
    PrefixedReads(data, tail);
    PackedReads(f, items, []);
    assert [] + items == items;
  }

  lemma SetTwice(fields: seq<Field>, cur: seq<Slot>, i: nat, a: Slot, b: Slot)
    requires i < |fields| && |cur| == SlotsTo(fields, |fields|)
    ensures SetSlot(fields, SetSlot(fields, cur, i, a), i, b) == SetSlot(fields, cur, i, b)
  {
  }

  lemma SetSame(fields: seq<Field>, cur: seq<Slot>, i: nat)
    requires i < |fields| && |cur| == SlotsTo(fields, |fields|)
    ensures SetSlot(fields, cur, i, SlotOf(fields, cur, i)) == cur
  {
  }

  /** Items written one by one are appended one by one to what is there. */
  lemma {:induction false} UnpackedReads(fields: seq<Field>, i: nat, items: seq<Value>, done: seq<Value>,
                                         cur: seq<Slot>, tail: seq<byte>, seen: set<nat>) returns (ws: seq<Value>)
    requires WellFormed(fields) && i < |fields| && |cur| == SlotsTo(fields, |fields|)
    requires fields[i].rule.Repeated? && !fields[i].Packable() && ItemsTyped(fields[i], items)
    requires forall k | 0 <= k < |items| :: ValueTerminated(fields[i], items[k])
    requires SlotOf(fields, cur, i) == Many(done) && |done| + |items| <= fields[i].arraySize
    requires UnpackedBytes(fields[i], items).Some? && |UnpackedBytes(fields[i], items).value| < U32
    ensures DecodeLoop(fields, cur, UnpackedBytes(fields[i], items).value + tail, seen) ==
              DecodeLoop(fields, SetSlot(fields, cur, i, Many(done + ws)), tail, seen)
    ensures |ws| == |items| && forall k | 0 <= k < |items| :: SameValue(fields[i], items[k], ws[k])
    decreases fields[i], 1, |items|
  {
    hide SlotOf;
    hide SetSlot;
    hide DecodeLoop;
    hide DecodeValue;
    hide EncodeValue;
    hide SameValue;
    hide ValueTyped;
    hide ValueTerminated;
    var f := fields[i];
    if items == [] {
      ws := [];
      assert [] + tail == tail && done + [] == done;
      SetSame(fields, cur, i);
    } else {
      assert FieldWellFormed(f);
      var v := items[0];
      var e, rest := EncodeValue(f, v).value, UnpackedBytes(f, items[1..]).value;
      var key := Key(WireType(f.kind), f.tag);
      assert UnpackedBytes(f, items).value + tail == key + (e + (rest + tail));
      KeyReads(fields, i, WireType(f.kind), cur, e + (rest + tail), seen);
      DefaultUnset(f);
      var w := ValueReads(f, v, DefaultValue(f), rest + tail);
      var cur' := SetSlot(fields, cur, i, Many(done + [w]));
      SetOwn(fields, cur, i, Many(done + [w]));
      var ws' := UnpackedReads(fields, i, items[1..], done + [w], cur', tail, seen);
      ws := [w] + ws';
      assert done + [w] + ws' == done + ws;
      SetTwice(fields, cur, i, Many(done + [w]), Many(done + ws));
      forall k | 0 <= k < |items| ensures SameValue(f, items[k], ws[k]) {
        if k > 0 { assert items[k] == items[1..][k - 1]; }
      }
    }
  }

  /** A single keyed value, for every rule but repeated. */
  lemma KeyedReads(fields: seq<Field>, i: nat, v: Value, cur: seq<Slot>, tail: seq<byte>, seen: set<nat>)
      returns (w: Value)
    requires WellFormed(fields) && i < |fields| && |cur| == SlotsTo(fields, |fields|) && !fields[i].rule.Repeated?
    requires ValueTyped(fields[i], v) && ValueTerminated(fields[i], v)
    requires Untouched(fields[i], SlotOf(fields, cur, i))
    requires KeyedValue(fields[i], v).Some? && |KeyedValue(fields[i], v).value| < U32
    ensures SameValue(fields[i], v, w)
    ensures var f := fields[i];
            var slot := match f.rule
                        case Required => One(w)
                        case Optional => if f.Implicit() then One(w) else Maybe(true, w)
                        case Repeated => Many([w])
                        case Oneof => Union(f.tag, w);
            DecodeLoop(fields, cur, KeyedValue(f, v).value + tail, seen) ==
              DecodeLoop(fields, SetSlot(fields, cur, i, slot), tail, Saw(fields, i, seen))
    decreases fields[i], 1
  {
    hide SlotOf;
    hide SetSlot;
    hide Saw;
    hide DecodeLoop;
    hide DecodeValue;
    hide EncodeValue;
    hide SameValue;
    hide ValueTyped;
    hide ValueTerminated;
    var f := fields[i];
    assert FieldWellFormed(f);
    var e, key := EncodeValue(f, v).value, Key(WireType(f.kind), f.tag);
    assert KeyedValue(f, v).value + tail == key + (e + tail);
    KeyReads(fields, i, WireType(f.kind), cur, e + tail, seen);
    DefaultUnset(f);
    var held := if f.rule.Oneof? then DefaultValue(f) else Held(f, SlotOf(fields, cur, i));
    assert held == DefaultValue(f);
    w := ValueReads(f, v, held, tail);
  }

  predicate SeenUpTo(fields: seq<Field>, i: nat, seen: set<nat>)
    requires i <= |fields|
  {
    forall j | 0 <= j < i && fields[j].rule.Required? ::
      RequiredBefore(fields, j) < PB_MAX_REQUIRED_FIELDS ==> RequiredBefore(fields, j) in seen
  }

  /** Decoding what one field was encoded to brings the struct one field further. */
  lemma FieldReads(fields: seq<Field>, slots: seq<Slot>, i: nat, cur: seq<Slot>, tail: seq<byte>, seen: set<nat>)
      returns (cur': seq<Slot>, seen': set<nat>)
    requires WellFormed(fields) && StructTyped(fields, slots) && StructTerminated(fields, slots)
    requires i < |fields| && Progress(fields, slots, cur, i) && SeenUpTo(fields, i, seen)
    requires EncodeField(fields[i], SlotOf(fields, slots, i)).Some?
    requires |EncodeField(fields[i], SlotOf(fields, slots, i)).value| < U32
    ensures Progress(fields, slots, cur', i + 1) && SeenUpTo(fields, i + 1, seen')
    ensures DecodeLoop(fields, cur, EncodeField(fields[i], SlotOf(fields, slots, i)).value + tail, seen) ==
              DecodeLoop(fields, cur', tail, seen')
    decreases fields[i], 3
  {
    hide SlotOf;
    hide SetSlot;
    hide DecodeLoop;
    hide SameValue;
    hide ValueTyped;
    hide ValueTerminated;
    hide EncodeArray;
    hide KeyedValue;
    hide ValueIsDefault;
    hide UnpackedBytes;
    hide RequiredBefore;
    var f, a := fields[i], SlotOf(fields, slots, i);
    assert FieldTyped(f, a) && SlotTerminated(f, a) && Untouched(f, SlotOf(fields, cur, i));
    var e := EncodeField(f, a).value;
    if e == [] {
      assert e + tail == tail;
    }
    if f.rule.Repeated? && a.items != [] {
      cur' := ArrayReads(fields, slots, i, cur, tail, seen);
      seen' := seen;
    } else if f.rule.Required? || (f.Implicit() && !ValueIsDefault(f, a.v)) || (f.rule.Optional? && !f.Implicit() && a.has)
              || (f.rule.Oneof? && a.which == f.tag) {
      var w := KeyedReads(fields, i, a.v, cur, tail, seen);
      var slot := if f.rule.Oneof? then Union(f.tag, w)
                  else if f.rule.Optional? && !f.Implicit() then Maybe(true, w) else One(w);
      cur', seen' := SetSlot(fields, cur, i, slot), Saw(fields, i, seen);
      ProgressSet(fields, slots, cur, i, slot);
    } else {
      cur', seen' := cur, seen;
      assert e == [] by { hide *; EmptyField(f, a); }
      if f.Implicit() { DefaultIsSame(f, a.v); }
      ProgressStay(fields, slots, cur, i);
    }
  }

  lemma EmptyField(f: Field, a: Slot)
    requires FieldTyped(f, a) && !f.rule.Required?
    requires f.rule.Repeated? ==> a.items == []
    requires f.rule.Optional? ==> if f.Implicit() then ValueIsDefault(f, a.v) else !a.has
    requires f.rule.Oneof? ==> a.which != f.tag
    ensures EncodeField(f, a) == Some([])
  {
  }

  lemma ProgressStay(fields: seq<Field>, slots: seq<Slot>, cur: seq<Slot>, i: nat)
    requires StructTyped(fields, slots) && i < |fields| && Progress(fields, slots, cur, i)
    requires SameField(fields[i], SlotOf(fields, slots, i), SlotOf(fields, cur, i))
    ensures Progress(fields, slots, cur, i + 1)
  {
    hide SlotOf;
    hide SameField;
  }

  lemma ArrayReads(fields: seq<Field>, slots: seq<Slot>, i: nat, cur: seq<Slot>, tail: seq<byte>, seen: set<nat>)
      returns (cur': seq<Slot>)
    requires WellFormed(fields) && StructTyped(fields, slots) && StructTerminated(fields, slots)
    requires i < |fields| && Progress(fields, slots, cur, i)
    requires fields[i].rule.Repeated? && SlotOf(fields, slots, i).Many? && SlotOf(fields, slots, i).items != []
    requires EncodeField(fields[i], SlotOf(fields, slots, i)).Some?
    requires |EncodeField(fields[i], SlotOf(fields, slots, i)).value| < U32
    ensures Progress(fields, slots, cur', i + 1)
    ensures DecodeLoop(fields, cur, EncodeField(fields[i], SlotOf(fields, slots, i)).value + tail, seen) ==
              DecodeLoop(fields, cur', tail, seen)
    decreases fields[i], 2
  {
    hide SlotOf;
    hide SetSlot;
    hide DecodeLoop;
    hide UnpackedBytes;
    hide PackedBytes;
    hide ValueTerminated;
    var f, a := fields[i], SlotOf(fields, slots, i);
    assert FieldTyped(f, a) && SlotTerminated(f, a) && Untouched(f, SlotOf(fields, cur, i));
    var ws: seq<Value>;
    if f.Packable() {
      PackedArrayReads(fields, i, a.items, cur, tail, seen);
      ws := a.items;
    } else {
      hide SameValue;
      hide ValueTyped;
      ws := UnpackedReads(fields, i, a.items, [], cur, tail, seen);
      assert [] + ws == ws;
    }
    cur' := SetSlot(fields, cur, i, Many(ws));
    ProgressSet(fields, slots, cur, i, Many(ws));
  }

  lemma {:induction false} FieldsRead(fields: seq<Field>, slots: seq<Slot>, i: nat, cur: seq<Slot>, seen: set<nat>)
      returns (out: seq<Slot>, all: set<nat>)
    requires WellFormed(fields) && StructTyped(fields, slots) && StructTerminated(fields, slots)
    requires i <= |fields| && Progress(fields, slots, cur, i) && SeenUpTo(fields, i, seen)
    requires EncodeFrom(fields, slots, i).Some? && |EncodeFrom(fields, slots, i).value| < U32
    ensures DecodeLoop(fields, cur, EncodeFrom(fields, slots, i).value, seen) == Some(Outcome(out, [], all, false))
    ensures SameStruct(fields, slots, out) && SeenUpTo(fields, |fields|, all)
    decreases fields, 0, |fields| - i
  {
    hide DecodeLoop;
    hide Progress;
    hide SeenUpTo;
    hide EncodeField;
    hide SlotOf;
    hide SameStruct;
    hide StructTyped;
    hide StructTerminated;
    hide WellFormed;
    if i == |fields| {
      FieldsDone(fields, slots, cur, seen);
      out, all := cur, seen;
    } else {
      var tail := EncodeFrom(fields, slots, i + 1).value;
      var cur', seen' := FieldReads(fields, slots, i, cur, tail, seen);
      out, all := FieldsRead(fields, slots, i + 1, cur', seen');
    }
  }

  lemma FieldsDone(fields: seq<Field>, slots: seq<Slot>, cur: seq<Slot>, seen: set<nat>)
    requires StructTyped(fields, slots) && Progress(fields, slots, cur, |fields|)
    ensures EncodeFrom(fields, slots, |fields|) == Some([])
    ensures DecodeLoop(fields, cur, [], seen) == Some(Outcome(cur, [], seen, false))
    ensures SameStruct(fields, slots, cur)
  {
    hide SameField;
  }

  lemma {:induction false} StructReads(fields: seq<Field>, slots: seq<Slot>) returns (out: seq<Slot>)
    requires WellFormed(fields) && StructTyped(fields, slots) && StructTerminated(fields, slots)
    requires EncodeFrom(fields, slots, 0).Some? && |EncodeFrom(fields, slots, 0).value| < U32
    ensures DecodeNoInit(fields, Defaults(fields), EncodeFrom(fields, slots, 0).value) == Some((out, []))
    ensures SameStruct(fields, slots, out)
    decreases fields, 1
  {
    hide EncodeFrom;
    hide DecodeLoop;
    forall j | 0 <= j < |fields| ensures Untouched(fields[j], SlotOf(fields, Defaults(fields), j)) {
      DefaultAt(fields, j, |fields|);
      assert FieldWellFormed(fields[j]);
    }
    var all;
    out, all := FieldsRead(fields, slots, 0, Defaults(fields), {});
    forall n: nat | n < CheckedCount(fields) ensures n in all {
      var k := RequiredOnto(fields, |fields|, n);
    }
  }

  /**
   For every well-formed descriptor and every struct of it whose strings are terminated: what
   pb_encode writes, pb_decode reads back as the same message, leaving nothing unread.
   */
  lemma RoundTrip(fields: seq<Field>, slots: seq<Slot>) returns (out: seq<Slot>)
    requires WellFormed(fields) && StructTyped(fields, slots) && StructTerminated(fields, slots)
    requires Encode(fields, slots).Some? && |Encode(fields, slots).value| < U32
    ensures Decode(fields, Encode(fields, slots).value) == Some((out, []))
    ensures SameStruct(fields, slots, out)
  {
    out := StructReads(fields, slots);
  }
}
