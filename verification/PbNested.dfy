/**
 A field given more than once: submessages merge, everything else is replaced, arrays grow; and what the
 encoder writes for a field that a descriptor does not have is skipped by it.
 */
module PbNested {
  import opened Wrappers
  import opened Bytes
  import opened PbWire
  import opened PbStream
  import opened PbTypes
  import opened PbEncode
  import opened PbDecode
  import opened PbMerge

  // ---- One keyed entry --------------------------------------------------------------------------

  /** A field that its tag leads to. */
  predicate Found(fields: seq<Field>, i: nat) {
    i < |fields| && 1 <= fields[i].tag < 0x2000_0000 && FindTag(fields, fields[i].tag) == Some(i)
  }

  /** A key in front of anything leads the loop to the field. */
  lemma KeyLeads(fields: seq<Field>, i: nat, wireType: nat, cur: seq<Slot>, body: seq<byte>, seen: set<nat>)
    requires Found(fields, i) && wireType < 8 && |cur| == SlotsTo(fields, |fields|)
    ensures DecodeLoop(fields, cur, Key(wireType, fields[i].tag) + body, seen) ==
              Onward(fields, cur, i, DecodeField(fields[i], SlotOf(fields, cur, i), wireType, body), seen)
  {
    hide DecodeField, Varint, ReadVarint32, SlotOf, SetSlot, Saw, FindTag;
    var key := fields[i].tag * 8 + wireType;
    assert key % U64 == key && key / 8 == fields[i].tag && key % 8 == wireType;
    Varint32Ranges(key, body);
  }

  lemma PrefixedGives(s: seq<byte>, rest: seq<byte>)
    requires |s| < U32
    ensures ReadString(Prefixed(s) + rest) == Some((s, rest))
  {
    hide ReadString;
    assert |s| % U64 == |s|;
    ReadOfString(s, rest);
  }

  lemma SetAgain(fields: seq<Field>, cur: seq<Slot>, i: nat, a: Slot, b: Slot)
    requires i < |fields| && |cur| == SlotsTo(fields, |fields|)
    ensures SlotOf(fields, SetSlot(fields, cur, i, a), i) == a
    ensures SetSlot(fields, SetSlot(fields, cur, i, a), i, b) == SetSlot(fields, cur, i, b)
  {
    SlotInRange(fields, i);
  }

  lemma SawAgain(fields: seq<Field>, i: nat, seen: set<nat>)
    requires i < |fields|
    ensures Saw(fields, i, Saw(fields, i, seen)) == Saw(fields, i, seen)
  {
  }

  // ---- Submessages ------------------------------------------------------------------------------

  /** A submessage field and its contents on the wire. */
  function Entry(f: Field, body: seq<byte>): seq<byte> {
    Key(WT_STRING, f.tag) + Prefixed(body)
  }

  /** The slot of a field that holds a submessage. */
  function Holding(f: Field, slots: seq<Slot>): Slot {
    match f.rule
    case Required => One(Msg(slots))
    case Optional => if f.Implicit() then One(Msg(slots)) else Maybe(true, Msg(slots))
    case Oneof => Union(f.tag, Msg(slots))
    case Repeated => Many([Msg(slots)])
  }

  /** What a submessage field's contents are decoded into. */
  function StartOf(f: Field, slot: Slot): (slots: seq<Slot>)
    requires f.kind.Submessage?
    ensures |slots| == SlotsTo(f.kind.fields, |f.kind.fields|)
  {
    if f.rule.Repeated? || f.rule.Oneof? then Defaults(f.kind.fields) else HeldSlots(f.kind.fields, Held(f, slot))
  }

  /** The loop on one entry of a submessage field that is not an array. */
  lemma EntryDecodes(fields: seq<Field>, i: nat, cur: seq<Slot>, body: seq<byte>, tail: seq<byte>, seen: set<nat>)
    requires Found(fields, i) && fields[i].kind.Submessage? && !fields[i].rule.Repeated?
    requires |cur| == SlotsTo(fields, |fields|) && |body| < U32
    ensures var f := fields[i];
            var read := DecodeNoInit(f.kind.fields, StartOf(f, SlotOf(fields, cur, i)), body);
            DecodeLoop(fields, cur, Entry(f, body) + tail, seen) ==
              if read.None? then None
              else DecodeLoop(fields, SetSlot(fields, cur, i, Holding(f, read.value.0)), tail, Saw(fields, i, seen))
  {
    hide DecodeLoop, ReadString, SlotOf, SetSlot, Saw, DecodeNoInit;
    var f := fields[i];
    assert Entry(f, body) + tail == Key(WT_STRING, f.tag) + (Prefixed(body) + tail);
    KeyLeads(fields, i, WT_STRING, cur, Prefixed(body) + tail, seen);
    PrefixedGives(body, tail);
    DefaultIsStart(f);
  }

  /** A default submessage holds the defaults. */
  lemma DefaultIsStart(f: Field)
    ensures f.kind.Submessage? ==> HeldSlots(f.kind.fields, DefaultValue(f)) == Defaults(f.kind.fields)
  {
  }

  /** What has just been decoded is what the next entry is merged into. */
  lemma HoldingHeld(f: Field, slots: seq<Slot>)
    requires f.kind.Submessage? && (f.rule.Required? || f.rule.Optional?)
    requires |slots| == SlotsTo(f.kind.fields, |f.kind.fields|)
    ensures StartOf(f, Holding(f, slots)) == slots
  {
  }

  /**
   A required or optional submessage given in two entries is merged: they decode like one entry with the
   contents of both, whatever was held before and whatever follows.
   */
  lemma EntriesMerge(fields: seq<Field>, i: nat, cur: seq<Slot>, x: seq<byte>, y: seq<byte>, tail: seq<byte>,
                     seen: set<nat>)
    requires Found(fields, i) && fields[i].kind.Submessage? && (fields[i].rule.Required? || fields[i].rule.Optional?)
    requires |cur| == SlotsTo(fields, |fields|) && |x| + |y| < U32
    requires var sub, start := fields[i].kind.fields, StartOf(fields[i], SlotOf(fields, cur, i));
             && DecodeNoInit(sub, start, x).Some? && !DecodeLoop(sub, start, x, {}).value.terminated
             && DecodeNoInit(sub, DecodeNoInit(sub, start, x).value.0, y).Some?
    ensures DecodeLoop(fields, cur, Entry(fields[i], x) + (Entry(fields[i], y) + tail), seen) ==
              DecodeLoop(fields, cur, Entry(fields[i], x + y) + tail, seen)
  {
    hide DecodeLoop, DecodeNoInit, SlotOf, SetSlot, Saw, StartOf, Holding, Entry;
    var f := fields[i];
    var sub, start := f.kind.fields, StartOf(f, SlotOf(fields, cur, i));
    var mid := DecodeNoInit(sub, start, x).value.0;
    var cur' := SetSlot(fields, cur, i, Holding(f, mid));
    EntryDecodes(fields, i, cur, x, Entry(f, y) + tail, seen);
    EntryDecodes(fields, i, cur', y, tail, Saw(fields, i, seen));
    EntryDecodes(fields, i, cur, x + y, tail, seen);
    HoldingHeld(f, mid);
    DecodeConcat(sub, start, x, y);
    SetAgain(fields, cur, i, Holding(f, mid), Holding(f, DecodeNoInit(sub, mid, y).value.0));
    SawAgain(fields, i, seen);
  }

  /** In a union nothing is merged: of two entries for a member only the last counts, if the first is well-formed. */
  lemma LastOfUnion(fields: seq<Field>, i: nat, cur: seq<Slot>, x: seq<byte>, y: seq<byte>, tail: seq<byte>,
                    seen: set<nat>)
    requires Found(fields, i) && fields[i].kind.Submessage? && fields[i].rule.Oneof?
    requires |cur| == SlotsTo(fields, |fields|) && |x| < U32 && |y| < U32
    requires Decode(fields[i].kind.fields, x).Some?
    ensures DecodeLoop(fields, cur, Entry(fields[i], x) + (Entry(fields[i], y) + tail), seen) ==
              DecodeLoop(fields, cur, Entry(fields[i], y) + tail, seen)
  {
    hide DecodeLoop, DecodeNoInit, SlotOf, SetSlot, Saw, Holding, Entry;
    var f := fields[i];
    var sub := f.kind.fields;
    var mid := DecodeNoInit(sub, Defaults(sub), x).value.0;
    EntryDecodes(fields, i, cur, x, Entry(f, y) + tail, seen);
    EntryDecodes(fields, i, SetSlot(fields, cur, i, Holding(f, mid)), y, tail, Saw(fields, i, seen));
    EntryDecodes(fields, i, cur, y, tail, seen);
    if DecodeNoInit(sub, Defaults(sub), y).Some? {
      SetAgain(fields, cur, i, Holding(f, mid), Holding(f, DecodeNoInit(sub, Defaults(sub), y).value.0));
    }
    SawAgain(fields, i, seen);
  }

  /** An array of submessages gets one more item for each entry, decoded from its defaults alone. */
  lemma EntryAppends(fields: seq<Field>, i: nat, cur: seq<Slot>, body: seq<byte>, tail: seq<byte>, seen: set<nat>)
    requires Found(fields, i) && fields[i].kind.Submessage? && fields[i].rule.Repeated?
    requires |cur| == SlotsTo(fields, |fields|) && |body| < U32
    requires |Items(SlotOf(fields, cur, i))| < fields[i].arraySize
    ensures var read := Decode(fields[i].kind.fields, body);
            DecodeLoop(fields, cur, Entry(fields[i], body) + tail, seen) ==
              if read.None? then None
              else
                var items := Items(SlotOf(fields, cur, i)) + [Msg(read.value.0)];
                DecodeLoop(fields, SetSlot(fields, cur, i, Many(items)), tail, seen)
  {
    hide DecodeLoop, ReadString, SlotOf, SetSlot, DecodeNoInit;
    var f := fields[i];
    assert Entry(f, body) + tail == Key(WT_STRING, f.tag) + (Prefixed(body) + tail);
    KeyLeads(fields, i, WT_STRING, cur, Prefixed(body) + tail, seen);
    PrefixedGives(body, tail);
  }

  /** So two entries give two items. */
  lemma EntriesAppend(fields: seq<Field>, i: nat, cur: seq<Slot>, x: seq<byte>, y: seq<byte>, tail: seq<byte>,
                      seen: set<nat>)
    requires Found(fields, i) && fields[i].kind.Submessage? && fields[i].rule.Repeated?
    requires |cur| == SlotsTo(fields, |fields|) && |x| < U32 && |y| < U32
    requires |Items(SlotOf(fields, cur, i))| + 2 <= fields[i].arraySize
    requires Decode(fields[i].kind.fields, x).Some? && Decode(fields[i].kind.fields, y).Some?
    ensures var sub, items := fields[i].kind.fields, Items(SlotOf(fields, cur, i));
            var more := [Msg(Decode(sub, x).value.0), Msg(Decode(sub, y).value.0)];
            DecodeLoop(fields, cur, Entry(fields[i], x) + (Entry(fields[i], y) + tail), seen) ==
              DecodeLoop(fields, SetSlot(fields, cur, i, Many(items + more)), tail, seen)
  {
    hide DecodeLoop, Decode, SlotOf, SetSlot, Entry;
    var f := fields[i];
    var sub, items := f.kind.fields, Items(SlotOf(fields, cur, i));
    var a, b := Msg(Decode(sub, x).value.0), Msg(Decode(sub, y).value.0);
    EntryAppends(fields, i, cur, x, Entry(f, y) + tail, seen);
    SetAgain(fields, cur, i, Many(items + [a]), Many(items + [a, b]));
    EntryAppends(fields, i, SetSlot(fields, cur, i, Many(items + [a])), y, tail, seen);
    assert items + [a] + [b] == items + [a, b];
  }

  // ---- Anything else: the last one counts -------------------------------------------------------

  /** The octets of one value, as far as the field's decoder reads them. */
  predicate Reads(f: Field, e: seq<byte>) {
    !f.kind.Submessage? && DecodeValue(f, DefaultValue(f), e).Some? && DecodeValue(f, DefaultValue(f), e).value.1 == []
  }

  /** What is held matters to submessages only. */
  lemma HeldIgnored(f: Field, held: Value, e: seq<byte>)
    requires !f.kind.Submessage?
    ensures DecodeValue(f, held, e) == DecodeValue(f, DefaultValue(f), e)
  {
    hide ReadScalar, ReadString;
  }

  function SlotFor(f: Field, v: Value): Slot {
    match f.rule
    case Required => One(v)
    case Optional => if f.Implicit() then One(v) else Maybe(true, v)
    case Oneof => Union(f.tag, v)
    case Repeated => Many([v])
  }

  lemma ValueReplaces(fields: seq<Field>, i: nat, wireType: nat, cur: seq<Slot>, e: seq<byte>, tail: seq<byte>,
                      seen: set<nat>)
    requires Found(fields, i) && wireType < 8 && !fields[i].rule.Repeated? && Reads(fields[i], e)
    requires |cur| == SlotsTo(fields, |fields|)
    ensures var f := fields[i];
            var v := DecodeValue(f, DefaultValue(f), e).value.0;
            DecodeLoop(fields, cur, Key(wireType, f.tag) + (e + tail), seen) ==
              DecodeLoop(fields, SetSlot(fields, cur, i, SlotFor(f, v)), tail, Saw(fields, i, seen))
  {
    hide DecodeLoop, DecodeValue, SlotOf, SetSlot, Saw;
    var f := fields[i];
    KeyLeads(fields, i, wireType, cur, e + tail, seen);
    ValueStable(f, DefaultValue(f), e, tail);
    HeldIgnored(f, Held(f, SlotOf(fields, cur, i)), e + tail);
    assert [] + tail == tail;
  }

  /** Of two entries for such a field that is no array only the last counts. */
  lemma LastWins(fields: seq<Field>, i: nat, wireType: nat, cur: seq<Slot>, a: seq<byte>, b: seq<byte>, tail: seq<byte>,
                 seen: set<nat>)
    requires Found(fields, i) && wireType < 8 && !fields[i].rule.Repeated? && Reads(fields[i], a) && Reads(fields[i], b)
    requires |cur| == SlotsTo(fields, |fields|)
    ensures var key := Key(wireType, fields[i].tag);
            DecodeLoop(fields, cur, key + (a + (key + (b + tail))), seen) ==
              DecodeLoop(fields, cur, key + (b + tail), seen)
  {
    hide DecodeLoop, DecodeValue, SlotOf, SetSlot, Saw, Key, SlotFor;
    var f, key := fields[i], Key(wireType, fields[i].tag);
    var v, w := DecodeValue(f, DefaultValue(f), a).value.0, DecodeValue(f, DefaultValue(f), b).value.0;
    var cur' := SetSlot(fields, cur, i, SlotFor(f, v));
    ValueReplaces(fields, i, wireType, cur, a, key + (b + tail), seen);
    ValueReplaces(fields, i, wireType, cur', b, tail, Saw(fields, i, seen));
    ValueReplaces(fields, i, wireType, cur, b, tail, seen);
    SetAgain(fields, cur, i, SlotFor(f, v), SlotFor(f, w));
    SawAgain(fields, i, seen);
  }

  // ---- Arrays ------------------------------------------------------------------------------------

  /** One more item, on its own, of an array of anything but submessages: packable or not. */
  lemma ItemAppends(fields: seq<Field>, i: nat, wireType: nat, cur: seq<Slot>, e: seq<byte>, tail: seq<byte>,
                    seen: set<nat>)
    requires Found(fields, i) && wireType < 8 && fields[i].rule.Repeated? && Reads(fields[i], e)
    requires wireType == WT_STRING ==> !fields[i].Packable()
    requires |cur| == SlotsTo(fields, |fields|) && |Items(SlotOf(fields, cur, i))| < fields[i].arraySize
    ensures var f := fields[i];
            var items := Items(SlotOf(fields, cur, i)) + [DecodeValue(f, DefaultValue(f), e).value.0];
            DecodeLoop(fields, cur, Key(wireType, f.tag) + (e + tail), seen) ==
              DecodeLoop(fields, SetSlot(fields, cur, i, Many(items)), tail, seen)
  {
    hide DecodeLoop, DecodeValue, SlotOf, SetSlot;
    var f := fields[i];
    KeyLeads(fields, i, wireType, cur, e + tail, seen);
    ValueStable(f, DefaultValue(f), e, tail);
    assert [] + tail == tail;
  }

  lemma {:induction false} PackedConcat(f: Field, items: seq<Value>, x: seq<byte>, y: seq<byte>)
    requires f.Packable() && DecodePacked(f, items, x).Some?
    ensures DecodePacked(f, items, x + y) == DecodePacked(f, DecodePacked(f, items, x).value, y)
    decreases |x|
  {
    hide ReadScalar;
    if x == [] {
      assert x + y == y;
    } else {
      ScalarStable(f, x, y);
      var (n, rest) := ReadScalar(f, x).value;
      PackedConcat(f, items + [Int(n)], rest, y);
    }
  }

  /** Two chunks of a packed array are one. */
  lemma ChunksJoin(fields: seq<Field>, i: nat, cur: seq<Slot>, x: seq<byte>, y: seq<byte>, tail: seq<byte>,
                   seen: set<nat>)
    requires Found(fields, i) && fields[i].Packable() && fields[i].rule.Repeated?
    requires |cur| == SlotsTo(fields, |fields|) && |x| + |y| < U32
    requires DecodePacked(fields[i], Items(SlotOf(fields, cur, i)), x).Some?
    ensures DecodeLoop(fields, cur, Entry(fields[i], x) + (Entry(fields[i], y) + tail), seen) ==
              DecodeLoop(fields, cur, Entry(fields[i], x + y) + tail, seen)
  {
    hide DecodeLoop, DecodePacked, SlotOf, SetSlot, Entry;
    var f := fields[i];
    var items := Items(SlotOf(fields, cur, i));
    var mid := DecodePacked(f, items, x).value;
    ChunkDecodes(fields, i, cur, x, Entry(f, y) + tail, seen);
    SetAgain(fields, cur, i, Many(mid), Many(mid));
    ChunkDecodes(fields, i, SetSlot(fields, cur, i, Many(mid)), y, tail, seen);
    ChunkDecodes(fields, i, cur, x + y, tail, seen);
    PackedConcat(f, items, x, y);
    if DecodePacked(f, mid, y).Some? { SetAgain(fields, cur, i, Many(mid), Many(DecodePacked(f, mid, y).value)); }
  }

  lemma ChunkDecodes(fields: seq<Field>, i: nat, cur: seq<Slot>, x: seq<byte>, tail: seq<byte>, seen: set<nat>)
    requires Found(fields, i) && fields[i].Packable() && fields[i].rule.Repeated?
    requires |cur| == SlotsTo(fields, |fields|) && |x| < U32
    ensures var items := DecodePacked(fields[i], Items(SlotOf(fields, cur, i)), x);
            DecodeLoop(fields, cur, Entry(fields[i], x) + tail, seen) ==
              if items.None? then None else DecodeLoop(fields, SetSlot(fields, cur, i, Many(items.value)), tail, seen)
  {
    hide DecodeLoop, ReadString, DecodePacked, SlotOf, SetSlot;
    var f := fields[i];
    assert Entry(f, x) + tail == Key(WT_STRING, f.tag) + (Prefixed(x) + tail);
    KeyLeads(fields, i, WT_STRING, cur, Prefixed(x) + tail, seen);
    PrefixedGives(x, tail);
  }

  // ---- Fields a descriptor does not have --------------------------------------------------------

  lemma {:induction false} VarintSkips(v: nat, rest: seq<byte>)
    ensures SkipVarint(Varint(v) + rest) == Some(rest)
    decreases v
  {
    hide Varint;
    VarintFront(v, rest);
    VarintNonempty(v);
    if v >= 128 { VarintSkips(v / 128, rest); }
  }

  lemma VarintNonempty(v: nat)
    ensures Varint(v) != []
  {
  }

  /** The wire type in a field's key says how long its value is: skipping it gets to what follows exactly. */
  lemma ValueSkips(f: Field, v: Value, rest: seq<byte>)
    requires ValueTyped(f, v) && EncodeValue(f, v).Some? && |EncodeValue(f, v).value| < U32
    ensures Skip(WireType(f.kind), EncodeValue(f, v).value + rest) == Some(rest)
  {
    hide ReadString, SkipVarint, Varint, EncodeFrom;
    var e := EncodeValue(f, v).value;
    match f.kind {
      case Signed => VarintSkips(ToU64(v.n), rest);
      case Unsigned => VarintSkips(v.n, rest);
      case ZigZagged => VarintSkips(ZigZag(v.n), rest);
      case Fixed32 => assert |e| == 4;
      case Fixed64 => assert |e| == 8;
      case ByteArray => PrefixedGives(v.bytes, rest);
      case CString => PrefixedGives(Terminated(v.bytes, f.dataSize), rest);
      case FixedBytes => PrefixedGives(v.bytes, rest);
      case Submessage(sub) => PrefixedGives(EncodeFrom(sub, v.slots, 0).value, rest);
    }
  }

  /**
   Whatever the encoder writes for a field, key and value, is an unknown field to a descriptor without its
   tag, so that inserting it between top-level fields changes nothing.
   */
  lemma EncodedIsUnknown(known: seq<Field>, f: Field, v: Value)
    requires ValueTyped(f, v) && 1 <= f.tag < 0x2000_0000 && FindTag(known, f.tag).None?
    requires KeyedValue(f, v).Some? && |KeyedValue(f, v).value| < U32
    ensures UnknownField(known, KeyedValue(f, v).value)
  {
    hide EncodeValue, Varint, ReadVarint32, FindTag, Skip;
    var e := EncodeValue(f, v).value;
    var key := f.tag * 8 + WireType(f.kind);
    assert key % U64 == key && key / 8 == f.tag && key % 8 == WireType(f.kind);
    Varint32Ranges(key, e);
    ValueSkips(f, v, []);
    assert e + [] == e;
  }

  /** So is a packed array. */
  lemma PackedIsUnknown(known: seq<Field>, f: Field, items: seq<Value>)
    requires f.Packable() && ItemsTyped(f, items) && items != []
    requires 1 <= f.tag < 0x2000_0000 && FindTag(known, f.tag).None?
    requires EncodeArray(f, items).Some? && |EncodeArray(f, items).value| < U32
    ensures UnknownField(known, EncodeArray(f, items).value)
  {
    hide Varint, ReadVarint32, FindTag, PackedBytes, ReadString;
    var data := PackedBytes(f, items).value;
    var key := f.tag * 8 + WT_STRING;
    assert key % U64 == key && key / 8 == f.tag && key % 8 == WT_STRING;
    Varint32Ranges(key, Prefixed(data));
    PrefixedGives(data, []);
    assert Prefixed(data) + [] == Prefixed(data);
  }
}
