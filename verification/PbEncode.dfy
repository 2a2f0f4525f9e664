/**
 nanopb's encoder.  The functions say which octets a message is encoded to, or None where the code
 reports an error; the methods are the code, on a stream that writes or only counts.  Submessages
 are encoded twice, once to learn their size.
 */
module PbEncode {
  import opened Wrappers
  import opened Bytes
  import opened PbWire
  import opened PbStream
  import opened PbTypes

  // ---- What is written ------------------------------------------------------------------------

  function ScalarBytes(f: Field, n: int): Option<seq<byte>>
    requires f.Packable() && ValueTyped(f, Int(n))
  {
    match f.kind
    case Signed => if SignedLimit(f.dataSize).None? then None else Some(Varint(ToU64(n)))
    case Unsigned => if SignedLimit(f.dataSize).None? then None else Some(Varint(n))
    case ZigZagged => if SignedLimit(f.dataSize).None? then None else Some(Varint(ZigZag(n)))
    case Fixed32 => Some(Le(n, 4))
    case Fixed64 => Some(Le(n, 8))
  }

  /** A length and the octets it announces; the length passes through a 64-bit cast. */
  function Prefixed(s: seq<byte>): seq<byte> {
    Varint(|s| % U64) + s
  }

  const WT_VARINT: nat := 0
  const WT_64BIT: nat := 1
  const WT_STRING: nat := 2
  const WT_32BIT: nat := 5

  function WireType(k: Kind): nat {
    match k
    case Signed => WT_VARINT
    case Unsigned => WT_VARINT
    case ZigZagged => WT_VARINT
    case Fixed32 => WT_32BIT
    case Fixed64 => WT_64BIT
    case ByteArray => WT_STRING
    case CString => WT_STRING
    case Submessage(_) => WT_STRING
    case FixedBytes => WT_STRING
  }

  /** The key in front of a field. */
  function Key(wireType: nat, tag: nat): seq<byte> {
    Varint((tag * 8 + wireType) % U64)
  }

  /** The characters before the terminator, within the field's size. */
  function Terminated(s: seq<byte>, max: nat): (r: seq<byte>)
    ensures r <= s && |r| <= max && 0 !in r
  {
    if s == [] || max == 0 || s[0] == 0 then [] else [s[0]] + Terminated(s[1..], max - 1)
  }

  function EncodeValue(f: Field, v: Value): Option<seq<byte>>
    requires ValueTyped(f, v)
    decreases f, 0
  {
    match f.kind
    case ByteArray => if |v.bytes| + 1 > f.dataSize then None else Some(Prefixed(v.bytes))
    case CString => Some(Prefixed(Terminated(v.bytes, f.dataSize)))
    case FixedBytes => Some(Prefixed(v.bytes))
    case Submessage(sub) =>
      var e := EncodeFrom(sub, v.slots, 0);
      if e.None? then None else Some(Prefixed(e.value))
    case Signed => ScalarBytes(f, v.n)
    case Unsigned => ScalarBytes(f, v.n)
    case ZigZagged => ScalarBytes(f, v.n)
    case Fixed32 => ScalarBytes(f, v.n)
    case Fixed64 => ScalarBytes(f, v.n)
  }

  predicate ItemsTyped(f: Field, items: seq<Value>) {
    forall k | 0 <= k < |items| :: ValueTyped(f, items[k])
  }

  /** The contents of a packed array. */
  function PackedBytes(f: Field, items: seq<Value>): Option<seq<byte>>
    requires f.Packable() && ItemsTyped(f, items)
  {
    if items == [] then Some([])
    else
      assert ValueTyped(f, items[0]);
      Then(ScalarBytes(f, items[0].n), PackedBytes(f, items[1..]))
  }

  /** An array written as one keyed entry per item. */
  function UnpackedBytes(f: Field, items: seq<Value>): Option<seq<byte>>
    requires ItemsTyped(f, items)
    decreases f, 1, |items|
  {
    if items == [] then Some([])
    else
      assert ValueTyped(f, items[0]);
      Then(Then(Some(Key(WireType(f.kind), f.tag)), EncodeValue(f, items[0])), UnpackedBytes(f, items[1..]))
  }

  function EncodeArray(f: Field, items: seq<Value>): Option<seq<byte>>
    requires ItemsTyped(f, items)
    decreases f, 2
  {
    if items == [] then Some([])
    else if |items| > f.arraySize then None
    else if f.Packable() then
      var data := PackedBytes(f, items);
      Then(Some(Key(WT_STRING, f.tag)), if data.None? then None else Some(Prefixed(data.value)))
    else UnpackedBytes(f, items)
  }

  /** pb_check_proto3_default_value: whether a field inside a proto3 struct counts as unset. */
  predicate SlotIsDefault(f: Field, slot: Slot)
    requires FieldTyped(f, slot)
    decreases f, 1
  {
    match f.rule
    case Required => false
    case Repeated => slot.items == []
    case Oneof => slot.which == 0
    case Optional => if f.Implicit() then ValueIsDefault(f, slot.v) else !slot.has
  }

  predicate ValueIsDefault(f: Field, v: Value)
    requires ValueTyped(f, v)
    decreases f, 0
  {
    match f.kind
    case ByteArray => v.bytes == []
    case CString => v.bytes == [] || v.bytes[0] == 0
    case FixedBytes => f.dataSize == 0
    case Submessage(sub) =>
      assert StructTyped(sub, v.slots);
      forall i | 0 <= i < |sub| :: SlotIsDefault(sub[i], SlotOf(sub, v.slots, i))
    case Signed => v.n == 0
    case Unsigned => v.n == 0
    case ZigZagged => v.n == 0
    case Fixed32 => v.n == 0
    case Fixed64 => v.n == 0
  }

  function KeyedValue(f: Field, v: Value): Option<seq<byte>>
    requires ValueTyped(f, v)
    decreases f, 1
  {
    Then(Some(Key(WireType(f.kind), f.tag)), EncodeValue(f, v))
  }

  /** encode_basic_field. */
  function EncodeField(f: Field, slot: Slot): Option<seq<byte>>
    requires FieldTyped(f, slot)
    decreases f, 3
  {
    match f.rule
    case Required => KeyedValue(f, slot.v)
    case Optional =>
      var has := if f.Implicit() then !ValueIsDefault(f, slot.v) else slot.has;
      if has then KeyedValue(f, slot.v) else Some([])
    case Repeated => EncodeArray(f, slot.items)
    case Oneof => if slot.which == f.tag then KeyedValue(f, slot.v) else Some([])
  }

  /** The fields from position i on. */
  function EncodeFrom(fields: seq<Field>, slots: seq<Slot>, i: nat): Option<seq<byte>>
    requires StructTyped(fields, slots) && i <= |fields|
    decreases fields, |fields| - i
  {
    if i == |fields| then Some([])
    else
      Then(EncodeField(fields[i], SlotOf(fields, slots, i)), EncodeFrom(fields, slots, i + 1))
  }

  /** What pb_encode writes. */
  function Encode(fields: seq<Field>, slots: seq<Slot>): Option<seq<byte>>
    requires StructTyped(fields, slots)
  {
    EncodeFrom(fields, slots, 0)
  }

  // ---- The code -------------------------------------------------------------------------------

  /** pb_enc_varint, pb_enc_uvarint, pb_enc_svarint and the fixed-width encoders. */
  method EncodeScalar(stream: OStream, f: Field, n: int) returns (ok: bool)
    requires stream.Valid() && f.Packable() && ValueTyped(f, Int(n))
    modifies stream, stream.buf
    ensures Wrote(old(stream.Abs()), stream.Abs(), ok, ScalarBytes(f, n))
  {
    if f.kind.Fixed32? {
      ok := stream.EncodeFixed(n, 4);
    } else if f.kind.Fixed64? {
      ok := stream.EncodeFixed(n, 8);
    } else if f.dataSize !in {1, 2, 4, 8} {
      stream.Fail(InvalidField);
      ok := false;
    } else if f.kind.Signed? {
      ok := stream.EncodeVarint(ToU64(n));
    } else if f.kind.Unsigned? {
      ok := stream.EncodeVarint(n);
    } else {
      ok := stream.EncodeSvarint(n);
    }
  }

  /** The loop of pb_enc_string that finds the terminator. */
  method TerminatedPrefix(s: seq<byte>, maxSize: nat) returns (size: nat)
    requires |s| <= maxSize
    ensures size <= |s| && s[..size] == Terminated(s, maxSize)
  {
    size := 0;
    while size < |s| && s[size] != 0
      invariant size <= |s| && forall k | 0 <= k < size :: s[k] != 0
    {
      size := size + 1;
    }
    TerminatedAt(s, maxSize, size);
  }

  lemma {:induction false} TerminatedAt(s: seq<byte>, max: nat, size: nat)
    requires size <= |s| <= max && (forall k | 0 <= k < size :: s[k] != 0) && (size == |s| || s[size] == 0)
    ensures Terminated(s, max) == s[..size]
    decreases size
  {
    if size > 0 {
      TerminatedAt(s[1..], max - 1, size - 1);
      assert s[..size] == [s[0]] + s[1..][..size - 1];
    }
  }

  /** pb_check_proto3_default_value on an implicit field's value. */
  method CheckDefault(f: Field, v: Value) returns (isDefault: bool)
    requires ValueTyped(f, v) && TaggedBelow(f)
    ensures isDefault == ValueIsDefault(f, v)
    decreases f, 0
  {
    if f.kind.ByteArray? {
      return v.bytes == [];
    } else if f.kind.CString? {
      return v.bytes == [] || v.bytes[0] == 0;
    } else if f.kind.FixedBytes? {
      return f.dataSize == 0;
    } else if f.kind.Submessage? {
      var sub := f.kind.fields;
      assert StructTyped(sub, v.slots);
      if sub == [] {
        return true;
      }
      var iter := new FieldIter(sub);
      var more := true;
      ghost var n := 0;
      while more
        invariant iter.Valid() && iter.fields == sub && n <= |sub|
        invariant if more then iter.pos == n < |sub| else n == |sub|
        invariant forall i | 0 <= i < n :: SlotIsDefault(sub[i], SlotOf(sub, v.slots, i))
        decreases |sub| - n
      {
        SlotInRange(sub, iter.pos);
        var unset := CheckSlotDefault(sub[iter.pos], v.slots[iter.slot]);
        if !unset {
          return false;
        }
        n := n + 1;
        more := iter.Next();
      }
      return true;
    }
    return v.n == 0;
  }

  /** pb_check_proto3_default_value on a field. */
  method CheckSlotDefault(f: Field, slot: Slot) returns (isDefault: bool)
    requires FieldTyped(f, slot) && TaggedBelow(f)
    ensures isDefault == SlotIsDefault(f, slot)
    decreases f, 1
  {
    match f.rule
    case Required => return false;
    case Repeated => return slot.items == [];
    case Oneof => return slot.which == 0;
    case Optional =>
      if !f.Implicit() {
        return !slot.has;
      }
      isDefault := CheckDefault(f, slot.v);
  }

  /** The field encoders PB_ENCODERS dispatches to. */
  method EncodeValueTo(stream: OStream, f: Field, v: Value) returns (ok: bool)
    requires stream.Valid() && ValueTyped(f, v) && TaggedBelow(f)
    modifies stream, stream.buf
    ensures Wrote(old(stream.Abs()), stream.Abs(), ok, EncodeValue(f, v))
    decreases f, 0
  {
    hide Wrote;
    if f.kind.ByteArray? {
      if |v.bytes| + 1 > f.dataSize {
        stream.Fail(BytesTooLong);
        return false;
      }
      ok := stream.EncodeString(v.bytes);
    } else if f.kind.CString? {
      var size := TerminatedPrefix(v.bytes, f.dataSize);
      ok := stream.EncodeString(v.bytes[..size]);
    } else if f.kind.FixedBytes? {
      ok := stream.EncodeString(v.bytes);
    } else if f.kind.Submessage? {
      ok := EncodeSubmessage(stream, f.kind.fields, v.slots);
    } else {
      ok := EncodeScalar(stream, f, v.n);
    }
  }

  /** The sub-stream's write seen from the stream it was made from. */
  lemma SubstreamWrote(before: Out, after: Out, sub: Out, sub': Out, ok: bool, e: seq<byte>)
    requires before.Valid() && !before.sizing && before.written + |e| <= before.maxSize
    requires sub == Out(false, before.mem, before.state, |e|, 0, NoError) && Wrote(sub, sub', ok, Some(e))
    requires after == before.(mem := sub'.mem, state := sub'.state, written := before.written + sub'.written,
                              error := sub'.error)
    ensures ok && sub'.written == |e| && Wrote(before, after, true, Some(e))
  {
  }

  /** The second pass of pb_encode_submessage, on a sub-stream limited to the size found. */
  method EncodeLimited(stream: OStream, fields: seq<Field>, slots: seq<Slot>, size: nat) returns (ok: bool)
    requires stream.Valid() && stream.buf != null && stream.bytesWritten + size <= stream.maxSize
    requires StructTyped(fields, slots) && Tagged(fields)
    requires Encode(fields, slots).Some? && size == |Encode(fields, slots).value|
    modifies stream, stream.buf
    ensures Wrote(old(stream.Abs()), stream.Abs(), ok, Encode(fields, slots))
    decreases fields, |fields| + 1
  {
    var sub := new OStream.OnBuffer(stream.buf, stream.state, size);
    ghost var sub0 := sub.Abs();
    ok := EncodeStruct(sub, fields, slots);
    stream.bytesWritten := stream.bytesWritten + sub.bytesWritten;
    stream.state := sub.state;
    stream.error := sub.error;
    SubstreamWrote(old(stream.Abs()), stream.Abs(), sub0, sub.Abs(), ok, Encode(fields, slots).value);
    if sub.bytesWritten != size {
      assert false;   // "submsg size changed"
    }
  }

  /**
   pb_encode_submessage: a sizing pass, the length, and a second pass limited to that length.  The
   second pass always writes exactly the size found, so "submsg size changed" is never reported.
   */
  method EncodeSubmessage(stream: OStream, fields: seq<Field>, slots: seq<Slot>) returns (ok: bool)
    requires stream.Valid() && StructTyped(fields, slots) && Tagged(fields)
    modifies stream, stream.buf
    ensures Wrote(old(stream.Abs()), stream.Abs(), ok,
                  if Encode(fields, slots).None? then None else Some(Prefixed(Encode(fields, slots).value)))
    decreases fields, |fields| + 2
  {
    hide EncodeFrom;
    var sizing := new OStream.Sizing();
    ok := EncodeStruct(sizing, fields, slots);
    if !ok {
      stream.Fail(sizing.error);
      return false;
    }
    ghost var e := Encode(fields, slots).value;
    var size := sizing.bytesWritten;
    ok := stream.EncodeVarint(size % U64);
    ghost var start, middle, len := old(stream.Abs()), stream.Abs(), Some(Varint(|e| % U64));
    if !ok {
      WroteStops(start, middle, len, Some(e));
      return false;
    }
    if stream.buf != null && stream.bytesWritten + size > stream.maxSize {
      stream.Fail(StreamFull);
      NotFitting(start, middle, stream.Abs(), len, e);
      return false;
    }
    if stream.buf == null {
      ok := stream.WriteSize(size, e);
    } else {
      ok := EncodeLimited(stream, fields, slots, size);
    }
    hide Wrote;
    WroteThen(start, middle, stream.Abs(), ok, len, Some(e));
  }

  /** Failing after a first part because the second would not fit. */
  lemma NotFitting(before: Out, middle: Out, after: Out, a: Option<seq<byte>>, e: seq<byte>)
    requires Wrote(before, middle, true, a) && Wrote(middle, after, false, None)
    requires !before.sizing && middle.written + |e| > middle.maxSize
    ensures Wrote(before, after, false, Then(a, Some(e)))
  {
  }

  /** A keyed value: pb_encode_tag_for_field, then the field encoder. */
  method EncodeKeyed(stream: OStream, f: Field, v: Value) returns (ok: bool)
    requires stream.Valid() && ValueTyped(f, v) && TaggedBelow(f)
    modifies stream, stream.buf
    ensures Wrote(old(stream.Abs()), stream.Abs(), ok, KeyedValue(f, v))
    decreases f, 1
  {
    hide Wrote;
    WroteValid();
    ghost var key := Some(Key(WireType(f.kind), f.tag));
    ok := stream.EncodeVarint((f.tag * 8 + WireType(f.kind)) % U64);
    ghost var middle := stream.Abs();
    if !ok {
      WroteStops(old(stream.Abs()), middle, key, EncodeValue(f, v));
      return;
    }
    ok := EncodeValueTo(stream, f, v);
    WroteThen(old(stream.Abs()), middle, stream.Abs(), ok, key, EncodeValue(f, v));
  }

  /** A writer keeps its stream valid. */
  lemma WroteValid()
    ensures forall before, after, ok, e | Wrote(before, after, ok, e) :: after.Valid() && after.sizing == before.sizing
  {
  }

  /** One after another, the items of a packed array. */
  method EncodeItems(stream: OStream, f: Field, items: seq<Value>) returns (ok: bool)
    requires stream.Valid() && f.Packable() && ItemsTyped(f, items)
    modifies stream, stream.buf
    ensures Wrote(old(stream.Abs()), stream.Abs(), ok, PackedBytes(f, items))
  {
    hide Wrote;
    WroteValid();
    WroteNothing(stream.Abs());
    ghost var done: seq<byte> := [];
    ThenNothing(PackedBytes(f, items));
    var i := 0;
    while i < |items|
      invariant i <= |items| && stream.Valid()
      invariant Wrote(old(stream.Abs()), stream.Abs(), true, Some(done))
      invariant PackedBytes(f, items) == Then(Some(done), PackedBytes(f, items[i..]))
    {
      ghost var middle := stream.Abs();
      assert items[i..][1..] == items[i + 1..];
      ghost var item := ScalarBytes(f, items[i].n);
      ghost var rest := PackedBytes(f, items[i + 1..]);
      ok := EncodeScalar(stream, f, items[i].n);
      WroteThen(old(stream.Abs()), middle, stream.Abs(), ok, Some(done), item);
      ThenAssoc(Some(done), item, rest);
      if !ok {
        WroteStops(old(stream.Abs()), stream.Abs(), Then(Some(done), item), rest);
        return false;
      }
      WroteOk(old(stream.Abs()), stream.Abs(), Then(Some(done), item));
      done := done + item.value;
      i := i + 1;
    }
    assert done + [] == done;
    return true;
  }

  lemma ThenNothing(a: Option<seq<byte>>)
    ensures Then(Some([]), a) == a
  {
    if a.Some? { assert [] + a.value == a.value; }
  }

  lemma ThenAssoc(a: Option<seq<byte>>, b: Option<seq<byte>>, c: Option<seq<byte>>)
    ensures Then(a, Then(b, c)) == Then(Then(a, b), c)
  {
    if a.Some? && b.Some? && c.Some? {
      assert a.value + (b.value + c.value) == a.value + b.value + c.value;
    }
  }

  /** The items of an array that is not packed. */
  method EncodeKeyedItems(stream: OStream, f: Field, items: seq<Value>) returns (ok: bool)
    requires stream.Valid() && ItemsTyped(f, items) && TaggedBelow(f)
    modifies stream, stream.buf
    ensures Wrote(old(stream.Abs()), stream.Abs(), ok, UnpackedBytes(f, items))
    decreases f, 2
  {
    hide Wrote;
    hide EncodeValue;
    WroteValid();
    WroteNothing(stream.Abs());
    ghost var done: seq<byte> := [];
    ThenNothing(UnpackedBytes(f, items));
    var i := 0;
    while i < |items|
      invariant i <= |items| && stream.Valid()
      invariant Wrote(old(stream.Abs()), stream.Abs(), true, Some(done))
      invariant UnpackedBytes(f, items) == Then(Some(done), UnpackedBytes(f, items[i..]))
    {
      ghost var middle := stream.Abs();
      assert items[i..][1..] == items[i + 1..];
      ghost var item := KeyedValue(f, items[i]);
      ghost var rest := UnpackedBytes(f, items[i + 1..]);
      ok := EncodeKeyed(stream, f, items[i]);
      WroteThen(old(stream.Abs()), middle, stream.Abs(), ok, Some(done), item);
      ThenAssoc(Some(done), item, rest);
      if !ok {
        WroteStops(old(stream.Abs()), stream.Abs(), Then(Some(done), item), rest);
        return false;
      }
      WroteOk(old(stream.Abs()), stream.Abs(), Then(Some(done), item));
      done := done + item.value;
      i := i + 1;
    }
    assert done + [] == done;
    return true;
  }

  lemma WroteOk(before: Out, after: Out, e: Option<seq<byte>>)
    requires Wrote(before, after, true, e)
    ensures e.Some?
  {
  }

  /** encode_array: a packed array's size is known in advance, computed, or found by a sizing pass. */
  method EncodeArrayTo(stream: OStream, f: Field, items: seq<Value>) returns (ok: bool)
    requires stream.Valid() && ItemsTyped(f, items) && TaggedBelow(f)
    modifies stream, stream.buf
    ensures Wrote(old(stream.Abs()), stream.Abs(), ok, EncodeArray(f, items))
    decreases f, 3
  {
    if items == [] {
      WroteNothing(stream.Abs());
      return true;
    }
    if |items| > f.arraySize {
      stream.Fail(ArrayTooLong);
      return false;
    }
    if f.Packable() {
      ok := EncodePacked(stream, f, items);
    } else {
      ok := EncodeKeyedItems(stream, f, items);
    }
  }

  /** The size of a packed array's contents. */
  method PackedSize(f: Field, items: seq<Value>) returns (ok: bool, size: nat, error: WriteError)
    requires f.Packable() && ItemsTyped(f, items)
    ensures ok == PackedBytes(f, items).Some?
    ensures ok ==> size == |PackedBytes(f, items).value|
    ensures error != SubmsgSizeChanged
  {
    if f.kind.Fixed32? {
      FixedSize(f, items, 4);
      return true, 4 * |items|, NoError;
    } else if f.kind.Fixed64? {
      FixedSize(f, items, 8);
      return true, 8 * |items|, NoError;
    }
    var sizing := new OStream.Sizing();
    ok := EncodeItems(sizing, f, items);
    return ok, sizing.bytesWritten, sizing.error;
  }

  lemma {:induction false} FixedSize(f: Field, items: seq<Value>, width: nat)
    requires f.Packable() && ItemsTyped(f, items)
    requires (f.kind.Fixed32? && width == 4) || (f.kind.Fixed64? && width == 8)
    ensures PackedBytes(f, items).Some? && |PackedBytes(f, items).value| == width * |items|
  {
    if items != [] {
      FixedSize(f, items[1..], width);
      assert ValueTyped(f, items[0]);
    }
  }

  /** The packed branch of encode_array. */
  method EncodePacked(stream: OStream, f: Field, items: seq<Value>) returns (ok: bool)
    requires stream.Valid() && ItemsTyped(f, items) && f.Packable() && 0 < |items| <= f.arraySize
    modifies stream, stream.buf
    ensures Wrote(old(stream.Abs()), stream.Abs(), ok, EncodeArray(f, items))
  {
    hide Wrote;
    WroteValid();
    ghost var start := stream.Abs();
    ghost var key := Some(Key(WT_STRING, f.tag));
    ghost var data := PackedBytes(f, items);
    ok := stream.EncodeVarint((f.tag * 8 + WT_STRING) % U64);
    if !ok {
      WroteStops(start, stream.Abs(), key, if data.None? then None else Some(Prefixed(data.value)));
      return;
    }
    ghost var keyed := stream.Abs();
    var size, error;
    ok, size, error := PackedSize(f, items);
    if !ok {
      stream.Fail(error);
      WroteThen(start, keyed, stream.Abs(), false, key, None);
      return;
    }
    ghost var len := Some(Varint(|data.value| % U64));
    ok := stream.EncodeVarint(size % U64);
    WroteThen(start, keyed, stream.Abs(), ok, key, len);
    ThenAssoc(key, len, data);
    if !ok {
      WroteStops(start, stream.Abs(), Then(key, len), data);
      return;
    }
    ghost var middle := stream.Abs();
    if stream.buf == null {
      ok := stream.WriteSize(size, data.value);
    } else {
      ok := EncodeItems(stream, f, items);
    }
    WroteThen(start, middle, stream.Abs(), ok, Then(key, len), data);
  }

  /** encode_basic_field. */
  method EncodeFieldTo(stream: OStream, f: Field, slot: Slot) returns (ok: bool)
    requires stream.Valid() && FieldTyped(f, slot) && TaggedBelow(f)
    modifies stream, stream.buf
    ensures Wrote(old(stream.Abs()), stream.Abs(), ok, EncodeField(f, slot))
    decreases f, 4
  {
    hide Wrote;
    WroteNothing(stream.Abs());
    match f.rule
    case Required =>
      ok := EncodeKeyed(stream, f, slot.v);
    case Optional =>
      var has;
      if f.Implicit() {
        var unset := CheckDefault(f, slot.v);
        has := !unset;
      } else {
        has := slot.has;
      }
      if !has {
        return true;
      }
      ok := EncodeKeyed(stream, f, slot.v);
    case Repeated =>
      ok := EncodeArrayTo(stream, f, slot.items);
    case Oneof =>
      if slot.which != f.tag {
        return true;
      }
      ok := EncodeKeyed(stream, f, slot.v);
  }

  /**
   pb_encode.  On a stream that only counts it succeeds exactly when the message can be encoded; on
   a buffer exactly when, besides, the encoding fits the free space, and then it has written exactly
   that encoding and touched nothing else.
   */
  method EncodeStruct(stream: OStream, fields: seq<Field>, slots: seq<Slot>) returns (ok: bool)
    requires stream.Valid() && StructTyped(fields, slots) && Tagged(fields)
    modifies stream, stream.buf
    ensures Wrote(old(stream.Abs()), stream.Abs(), ok, Encode(fields, slots))
    decreases fields, |fields|
  {
    hide Wrote;
    hide EncodeField;
    hide SlotOf;
    WroteValid();
    WroteNothing(stream.Abs());
    if fields == [] {
      return true;
    }
    var iter := new FieldIter(fields);
    var more := true;
    ghost var n := 0;
    ghost var done: seq<byte> := [];
    ThenNothing(Encode(fields, slots));
    while more
      invariant iter.Valid() && iter.fields == fields && n <= |fields| && fresh(iter) && stream.Valid()
      invariant if more then iter.pos == n < |fields| else n == |fields|
      invariant Wrote(old(stream.Abs()), stream.Abs(), true, Some(done))
      invariant Encode(fields, slots) == Then(Some(done), EncodeFrom(fields, slots, n))
      decreases |fields| - n
    {
      ghost var middle := stream.Abs();
      SlotInRange(fields, n);
      var f, slot := fields[iter.pos], slots[iter.slot];
      SlotOfIs(fields, slots, n);
      ghost var e := EncodeField(f, slot);
      ghost var rest := EncodeFrom(fields, slots, n + 1);
      ok := EncodeFieldTo(stream, f, slot);
      WroteThen(old(stream.Abs()), middle, stream.Abs(), ok, Some(done), e);
      ThenAssoc(Some(done), e, rest);
      if !ok {
        WroteStops(old(stream.Abs()), stream.Abs(), Then(Some(done), e), rest);
        return false;
      }
      WroteOk(old(stream.Abs()), stream.Abs(), Then(Some(done), e));
      done := done + e.value;
      n := n + 1;
      more := iter.Next();
    }
    assert done + [] == done;
    return true;
  }

  lemma SlotOfIs(fields: seq<Field>, slots: seq<Slot>, i: nat)
    requires StructTyped(fields, slots) && i < |fields|
    ensures SlotIndex(fields, i) < |slots| && SlotOf(fields, slots, i) == slots[SlotIndex(fields, i)]
    ensures FieldTyped(fields[i], SlotOf(fields, slots, i))
  {
    SlotInRange(fields, i);
  }

  /** pb_get_encoded_size. */
  method GetEncodedSize(fields: seq<Field>, slots: seq<Slot>) returns (ok: bool, size: nat)
    requires StructTyped(fields, slots) && Tagged(fields)
    ensures ok == Encode(fields, slots).Some?
    ensures ok ==> size == |Encode(fields, slots).value|
  {
    var stream := new OStream.Sizing();
    ok := EncodeStruct(stream, fields, slots);
    return ok, stream.bytesWritten;
  }

  /**
   Encoding into a buffer of the size pb_get_encoded_size reports, or any larger one, succeeds and
   fills it from the start with exactly that many octets; into any smaller one it fails.
   */
  method EncodeToBuffer(buf: array<byte>, fields: seq<Field>, slots: seq<Slot>) returns (ok: bool, written: nat)
    requires StructTyped(fields, slots) && Tagged(fields)
    modifies buf
    ensures ok <==> Encode(fields, slots).Some? && |Encode(fields, slots).value| <= buf.Length
    ensures ok ==> written == |Encode(fields, slots).value| && buf[..written] == Encode(fields, slots).value
    ensures ok ==> buf[written..] == old(buf[written..])
  {
    var stream := new OStream.OnBuffer(buf, 0, buf.Length);
    ok := EncodeStruct(stream, fields, slots);
    return ok, stream.bytesWritten;
  }
}
