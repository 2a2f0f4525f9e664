/**
 nanopb's decoder.  The functions say what a byte string decodes to (the struct and the octets left
 unread), or None where the code reports an error; what a failed decode leaves in the struct is not
 part of the model.  The methods are the code.
 */
module PbDecode {
  import opened Wrappers
  import opened Bits
  import opened Bytes
  import opened PbWire
  import opened PbStream
  import opened PbTypes

  // ---- What is read ---------------------------------------------------------------------------

  function ToS32(u: nat): int
    requires u < U32
  {
    if u < 0x8000_0000 then u else u - U32
  }

  /** The cast to the field's width, with its overflow check. */
  function NarrowSigned(d: nat, v: int): Option<int> {
    var limit := SignedLimit(d);
    if limit.Some? && -limit.value <= v < limit.value then Some(v) else None
  }

  function NarrowUnsigned(d: nat, v: nat): Option<int> {
    var limit := SignedLimit(d);
    if limit.Some? && v < 2 * limit.value then Some(v) else None
  }

  /** pb_dec_varint, pb_dec_uvarint, pb_dec_svarint and the fixed-width decoders. */
  function ReadScalar(f: Field, s: seq<byte>): (r: Read<int>)
    requires f.Packable()
    ensures r.Some? ==> |r.value.1| < |s|
  {
    if f.kind.Fixed32? then ReadFixed(s, 4)
    else if f.kind.Fixed64? then ReadFixed(s, 8)
    else
      match ReadVarint(s)
      case None => None
      case Some((u, rest)) =>
        VarintBound(s);
        var n := if f.kind.Unsigned? then NarrowUnsigned(f.dataSize, u)
                 else if f.kind.ZigZagged? then NarrowSigned(f.dataSize, UnZigZag(u))
                 else NarrowSigned(f.dataSize, if f.dataSize == 8 then ToS64(u) else ToS32(u % U32));
        if n.None? then None else Some((n.value, rest))
  }

  function SkipVarint(s: seq<byte>): (r: Option<seq<byte>>)
    ensures r.Some? ==> |r.value| < |s|
  {
    if s == [] then None else if s[0] < 128 then Some(s[1..]) else SkipVarint(s[1..])
  }

  /** pb_skip_field. */
  function Skip(wireType: nat, s: seq<byte>): (r: Option<seq<byte>>)
    ensures r.Some? ==> |r.value| < |s|
  {
    if wireType == 0 then SkipVarint(s)
    else if wireType == 1 then if |s| < 8 then None else Some(s[8..])
    else if wireType == 2 then
      match ReadString(s)
      case None => None
      case Some((_, rest)) => Some(rest)
    else if wireType == 5 then if |s| < 4 then None else Some(s[4..])
    else None
  }

  /** The first field with a tag. */
  function FindTag(fields: seq<Field>, tag: nat): (r: Option<nat>)
    ensures r.Some? ==> r.value < |fields| && fields[r.value].tag == tag
    ensures r.None? ==> forall i | 0 <= i < |fields| :: fields[i].tag != tag
  {
    FindTagFrom(fields, tag, 0)
  }

  function FindTagFrom(fields: seq<Field>, tag: nat, i: nat): (r: Option<nat>)
    requires i <= |fields|
    ensures r.Some? ==> i <= r.value < |fields| && fields[r.value].tag == tag
    ensures r.None? ==> forall k | i <= k < |fields| :: fields[k].tag != tag
    decreases |fields| - i
  {
    if i == |fields| then None else if fields[i].tag == tag then Some(i) else FindTagFrom(fields, tag, i + 1)
  }

  /** The value a submessage field is merged into. */
  function Held(f: Field, slot: Slot): Value {
    match slot
    case One(v) => v
    case Maybe(_, v) => v
    case Union(_, v) => v
    case Many(_) => DefaultValue(f)
  }

  function Items(slot: Slot): seq<Value> {
    if slot.Many? then slot.items else []
  }

  /** A held submessage's slots; anything but a submessage of the right shape counts as unset. */
  function HeldSlots(fields: seq<Field>, v: Value): (slots: seq<Slot>)
    ensures |slots| == SlotsTo(fields, |fields|)
  {
    if v.Msg? && |v.slots| == SlotsTo(fields, |fields|) then v.slots else Defaults(fields)
  }

  /** The loop over a packed array's contents. */
  function DecodePacked(f: Field, items: seq<Value>, s: seq<byte>): Option<seq<Value>>
    requires f.Packable()
    decreases |s|
  {
    if s == [] then Some(items)
    else if |items| >= f.arraySize then None
    else
      match ReadScalar(f, s)
      case None => None
      case Some((n, rest)) => DecodePacked(f, items + [Int(n)], rest)
  }

  /** The field decoders PB_DECODERS dispatches to; held is what a submessage is merged into. */
  function DecodeValue(f: Field, held: Value, s: seq<byte>): (r: Read<Value>)
    ensures r.Some? ==> |r.value.1| < |s|
    decreases |s|, 1
  {
    if f.Packable() then
      match ReadScalar(f, s)
      case None => None
      case Some((n, rest)) => Some((Int(n), rest))
    else
      match ReadString(s)
      case None => None
      case Some((body, rest)) =>
        if f.kind.ByteArray? then
          if |body| > PB_SIZE_MAX || |body| + 1 > f.dataSize then None else Some((Blob(body), rest))
        else if f.kind.CString? then
          if |body| + 1 > f.dataSize then None else Some((Blob(body), rest))
        else if f.kind.FixedBytes? then
          if |body| > PB_SIZE_MAX then None
          else if body == [] then Some((Blob(Zeros(f.dataSize)), rest))
          else if |body| != f.dataSize then None
          else Some((Blob(body), rest))
        else
          var sub := f.kind.fields;
          var start := if f.rule.Repeated? then Defaults(sub) else HeldSlots(sub, held);
          match DecodeNoInit(sub, start, body)
          case None => None
          case Some((slots, _)) => Some((Msg(slots), rest))
  }

  /** decode_static_field. */
  function DecodeField(f: Field, slot: Slot, wireType: nat, s: seq<byte>): (r: Read<Slot>)
    ensures r.Some? ==> |r.value.1| < |s|
    decreases |s|, 2
  {
    match f.rule
    case Repeated =>
      if wireType == 2 && f.Packable() then
        (match ReadString(s)
         case None => None
         case Some((body, rest)) =>
           var items := DecodePacked(f, Items(slot), body);
           if items.None? then None else Some((Many(items.value), rest)))
      else if |Items(slot)| >= f.arraySize then None
      else
        (match DecodeValue(f, DefaultValue(f), s)
         case None => None
         case Some((v, rest)) => Some((Many(Items(slot) + [v]), rest)))
    case Required =>
      (match DecodeValue(f, Held(f, slot), s)
       case None => None
       case Some((v, rest)) => Some((One(v), rest)))
    case Optional =>
      (match DecodeValue(f, Held(f, slot), s)
       case None => None
       case Some((v, rest)) => Some((if f.Implicit() then One(v) else Maybe(true, v), rest)))
    case Oneof =>
      // A submessage in a union starts from its defaults every time.
      (match DecodeValue(f, DefaultValue(f), s)
       case None => None
       case Some((v, rest)) => Some((Union(f.tag, v), rest)))
  }

  /** seen holds the numbers of the required fields met; terminated tells a zero tag from running out. */
  datatype Outcome = Outcome(slots: seq<Slot>, rest: seq<byte>, seen: set<nat>, terminated: bool)

  function SetSlot(fields: seq<Field>, slots: seq<Slot>, i: nat, slot: Slot): (r: seq<Slot>)
    requires i < |fields| && |slots| == SlotsTo(fields, |fields|)
    ensures |r| == |slots|
  {
    SlotInRange(fields, i);
    slots[SlotIndex(fields, i) := slot]
  }

  function Saw(fields: seq<Field>, i: nat, seen: set<nat>): set<nat>
    requires i < |fields|
  {
    var n := RequiredBefore(fields, i);
    if fields[i].rule.Required? && n < PB_MAX_REQUIRED_FIELDS then seen + {n} else seen
  }

  /** The loop of pb_decode_noinit. */
  function DecodeLoop(fields: seq<Field>, slots: seq<Slot>, s: seq<byte>, seen: set<nat>): (r: Option<Outcome>)
    requires |slots| == SlotsTo(fields, |fields|)
    ensures r.Some? ==> |r.value.slots| == |slots|
    decreases |s|, 3
  {
    if s == [] then Some(Outcome(slots, [], seen, false))
    else
      match ReadVarint32(s)
      case None => None
      case Some((key, rest)) =>
        if key == 0 then Some(Outcome(slots, rest, seen, true))
        else
          match FindTag(fields, key / 8)
          case None =>
            if fields == [] && key / 8 == 0 then None   // the terminator itself is taken for a field
            else
              (match Skip(key % 8, rest)
               case None => None
               case Some(rest') => DecodeLoop(fields, slots, rest', seen))
          case Some(i) =>
            match DecodeField(fields[i], SlotOf(fields, slots, i), key % 8, rest)
            case None => None
            case Some((slot, rest')) =>
              DecodeLoop(fields, SetSlot(fields, slots, i, slot), rest', Saw(fields, i, seen))
  }

  /** The required fields that are checked for: the first 64. */
  function CheckedCount(fields: seq<Field>): nat {
    var n := RequiredBefore(fields, |fields|);
    if n > PB_MAX_REQUIRED_FIELDS then PB_MAX_REQUIRED_FIELDS else n
  }

  predicate AllSeen(fields: seq<Field>, seen: set<nat>) {
    forall n: nat | n < CheckedCount(fields) :: n in seen
  }

  /** pb_decode_noinit. */
  function DecodeNoInit(fields: seq<Field>, slots: seq<Slot>, s: seq<byte>): (r: Read<seq<Slot>>)
    requires |slots| == SlotsTo(fields, |fields|)
    ensures r.Some? ==> |r.value.0| == |slots|
    decreases |s|, 4
  {
    var out := DecodeLoop(fields, slots, s, {});
    if out.None? || !AllSeen(fields, out.value.seen) then None else Some((out.value.slots, out.value.rest))
  }

  /** pb_decode. */
  function Decode(fields: seq<Field>, s: seq<byte>): (r: Read<seq<Slot>>)
    ensures r.Some? ==> |r.value.0| == SlotsTo(fields, |fields|)
  {
    DecodeNoInit(fields, Defaults(fields), s)
  }

  // ---- The code: single values ------------------------------------------------------------------

  /** pb_dec_varint, pb_dec_uvarint, pb_dec_svarint, pb_dec_fixed32 and pb_dec_fixed64. */
  method DecodeScalar(stream: IStream, f: Field) returns (ok: bool, n: int)
    requires stream.Valid() && f.Packable()
    modifies stream
    ensures stream.Did(ok, n, ReadScalar(f, old(stream.Rest())))
  {
    hide ReadVarint;
    n := 0;
    if f.kind.Fixed32? {
      ok, n := stream.DecodeFixed(4);
      return;
    } else if f.kind.Fixed64? {
      ok, n := stream.DecodeFixed(8);
      return;
    }
    var u;
    ok, u := stream.DecodeVarint();
    if !ok {
      return;
    }
    VarintBound(old(stream.Rest()));
    var narrowed;
    if f.kind.Unsigned? {
      narrowed := NarrowUnsigned(f.dataSize, u);
    } else if f.kind.ZigZagged? {
      narrowed := NarrowSigned(f.dataSize, UnZigZag(u));
    } else {
      narrowed := NarrowSigned(f.dataSize, if f.dataSize == 8 then ToS64(u) else ToS32(u % U32));
    }
    ok := narrowed.Some?;
    n := if ok then narrowed.value else 0;
  }

  /** pb_skip_varint. */
  method SkipVarintOn(stream: IStream) returns (ok: bool)
    requires stream.Valid()
    modifies stream
    ensures stream.Valid() && ok == SkipVarint(old(stream.Rest())).Some?
    ensures ok ==> stream.Rest() == SkipVarint(old(stream.Rest())).value
    ensures ok ==> stream.state + stream.bytesLeft == old(stream.state + stream.bytesLeft)
  {
    while true
      invariant stream.Valid() && stream.state + stream.bytesLeft == old(stream.state + stream.bytesLeft)
      invariant SkipVarint(old(stream.Rest())) == SkipVarint(stream.Rest())
      decreases stream.bytesLeft
    {
      var more, b := stream.Read(1);
      if !more {
        return false;
      }
      if b[0] < 128 {
        return true;
      }
    }
  }

  /** pb_skip_field. */
  method SkipField(stream: IStream, wireType: nat) returns (ok: bool)
    requires stream.Valid()
    modifies stream
    ensures stream.Valid() && ok == Skip(wireType, old(stream.Rest())).Some?
    ensures ok ==> stream.Rest() == Skip(wireType, old(stream.Rest())).value
    ensures ok ==> stream.state + stream.bytesLeft == old(stream.state + stream.bytesLeft)
  {
    hide SkipVarint;
    hide ReadVarint32;
    var data, count, eof;
    if wireType == 0 {
      ok := SkipVarintOn(stream);
    } else if wireType == 1 {
      ok, data := stream.Read(8);
    } else if wireType == 2 {
      ok, count, eof := stream.DecodeVarint32();
      if ok {
        ok, data := stream.Read(count);
      }
    } else if wireType == 5 {
      ok, data := stream.Read(4);
    } else {
      ok := false;
    }
  }

  /** pb_dec_bytes, pb_dec_string and pb_dec_fixed_length_bytes. */
  method DecodeBlob(stream: IStream, f: Field) returns (ok: bool, v: Value)
    requires stream.Valid() && !f.Packable() && !f.kind.Submessage?
    modifies stream
    ensures stream.Did(ok, v, DecodeValue(f, Int(0), old(stream.Rest())))
  {
    hide ReadVarint32;
    v := Blob([]);
    var size, eof;
    ok, size, eof := stream.DecodeVarint32();
    if !ok {
      return;
    }
    if f.kind.FixedBytes? && size == 0 {
      assert stream.Rest()[0..] == stream.Rest();
      return true, Blob(Zeros(f.dataSize));
    }
    if f.kind.ByteArray? && (size > PB_SIZE_MAX || size + 1 > f.dataSize) {
      return false, v;
    }
    if f.kind.CString? && size + 1 > f.dataSize {
      return false, v;
    }
    if f.kind.FixedBytes? && (size > PB_SIZE_MAX || size != f.dataSize) {
      return false, v;
    }
    var data;
    ok, data := stream.Read(size);
    v := Blob(data);
  }

  /** The packed branch of decode_static_field. */
  method DecodePackedArray(stream: IStream, f: Field, items0: seq<Value>) returns (ok: bool, items: seq<Value>)
    requires stream.Valid() && f.Packable()
    modifies stream
    ensures stream.Did(ok, items, PackedArray(f, items0, old(stream.Rest())))
  {
    hide ReadString;
    hide ReadScalar;
    items := items0;
    var sub;
    ok, sub := stream.MakeSubstream();
    if !ok {
      return;
    }
    ghost var body := sub.Rest();
    ghost var end := sub.state + sub.bytesLeft;
    var status := true;
    while status && sub.bytesLeft > 0 && |items| < f.arraySize
      invariant sub.Valid() && stream.Valid() && fresh(sub)
      invariant unchanged(stream.buf)
      invariant stream.bytesLeft + end == old(stream.state + stream.bytesLeft)
      invariant status ==> sub.state + sub.bytesLeft == end
      invariant if status then DecodePacked(f, items0, body) == DecodePacked(f, items, sub.Rest())
                else DecodePacked(f, items0, body) == None
      decreases status, sub.bytesLeft
    {
      var n;
      status, n := DecodeScalar(sub, f);
      if status {
        items := items + [Int(n)];
      }
    }
    if !status || sub.bytesLeft != 0 {
      return false, items;
    }
    stream.CloseSubstream(sub, end);
    return true, items;
  }

  function PackedArray(f: Field, items: seq<Value>, s: seq<byte>): Read<seq<Value>>
    requires f.Packable()
  {
    match ReadString(s)
    case None => None
    case Some((body, rest)) =>
      var out := DecodePacked(f, items, body);
      if out.None? then None else Some((out.value, rest))
  }

  // ---- The code: required fields ----------------------------------------------------------------

  /** The two words of fields_seen hold exactly seen. */
  ghost predicate WordsHold(words: seq<nat>, seen: set<nat>) {
    && |words| == 2 && words[0] < Pow2(32) && words[1] < Pow2(32)
    && forall n: nat | n < PB_MAX_REQUIRED_FIELDS :: WordBit(words, n) <==> n in seen
  }

  predicate WordBit(words: seq<nat>, n: nat)
    requires |words| == 2 && n < PB_MAX_REQUIRED_FIELDS
  {
    Bit(words[n / 32], n % 32)
  }

  /** Marking a field in its word. */
  lemma MarkHolds(words: seq<nat>, seen: set<nat>, n: nat)
    requires WordsHold(words, seen) && n < PB_MAX_REQUIRED_FIELDS
    ensures WordsHold(words[n / 32 := Or(words[n / 32], Shl(32, 1, n % 32))], seen + {n})
  {
    hide Or;
    hide Shl;
    hide Bit;
    hide Pow2;
    var w, b := words[n / 32], n % 32;
    ShlOne(32, b);
    OrBound(w, Pow2(b), 32);
    var words' := words[n / 32 := Or(w, Pow2(b))];
    forall m: nat | m < PB_MAX_REQUIRED_FIELDS ensures WordBit(words', m) <==> m in seen + {n} {
      assert WordBit(words, m) <==> m in seen;
      BitOr(w, Pow2(b), m % 32);
      BitPow2(b, m % 32);
    }
  }

  /** A word whose bits from r on are clear equals the mask of r ones exactly when its first r bits are set. */
  lemma WordFull(x: nat, r: nat)
    requires forall b: nat | r <= b :: !Bit(x, b)
    ensures x == Pow2(r) - 1 <==> forall b: nat | b < r :: Bit(x, b)
  {
    hide Pow2;
    var mask := Pow2(r) - 1;
    forall b: nat ensures Bit(mask, b) <==> b < r {
      BitOnes(r, b);
    }
    if forall b: nat | b < r :: Bit(x, b) {
      OnesUnique(x, r);
    }
  }

  /** allbits shifted right. */
  lemma ShiftedOnes(r: nat)
    requires 1 <= r <= 32
    ensures 0xffff_ffff / Pow2(32 - r) == Pow2(r) - 1
  {
    hide Pow2;
    Pow2Words();
    Pow2Add(r, 32 - r);
    LastBelow(Pow2(r), Pow2(32 - r));
    ModUnique(0xffff_ffff, Pow2(32 - r), Pow2(r) - 1, Pow2(32 - r) - 1);
  }

  lemma LastBelow(p: nat, q: nat)
    requires p >= 1 && q >= 1
    ensures p * q - 1 == (p - 1) * q + (q - 1)
  {
  }

  /** Word i of fields_seen against the first r required fields it stands for. */
  lemma WordPresent(words: seq<nat>, seen: set<nat>, count: nat, i: nat, r: nat)
    requires WordsHold(words, seen) && i < 2 && r <= 32 && count <= PB_MAX_REQUIRED_FIELDS
    requires forall n | n in seen :: n < count
    requires count >= 32 * i + r && (r < 32 ==> count == 32 * i + r)
    ensures words[i] == Pow2(r) - 1 <==> forall n: nat | 32 * i <= n < 32 * i + r :: n in seen
  {
    hide Bit;
    hide Pow2;
    forall b: nat | b < 32 ensures Bit(words[i], b) <==> 32 * i + b in seen {
      assert WordBit(words, 32 * i + b) <==> 32 * i + b in seen;
      assert (32 * i + b) / 32 == i && (32 * i + b) % 32 == b;
    }
    forall b: nat | r <= b ensures !Bit(words[i], b) {
      if b >= 32 { BitAboveWidth(words[i], 32, b); }
    }
    WordFull(words[i], r);
    if forall b: nat | b < r :: Bit(words[i], b) {
      forall n: nat | 32 * i <= n < 32 * i + r ensures n in seen {
        assert Bit(words[i], n - 32 * i);
      }
    }
  }

  /**
   The check at the end of pb_decode_noinit: walk the iterator to the end to learn how many required
   fields there are, then compare fields_seen word by word.
   */
  method CheckRequired(iter: FieldIter, words: seq<nat>, ghost seen: set<nat>) returns (present: bool)
    requires iter.Valid() && WordsHold(words, seen) && forall n | n in seen :: n < CheckedCount(iter.fields)
    modifies iter
    ensures present == AllSeen(iter.fields, seen)
  {
    hide Pow2;
    hide Bit;
    var count := CountRequired(iter);
    if count > PB_MAX_REQUIRED_FIELDS {
      count := PB_MAX_REQUIRED_FIELDS;
    }
    Pow2Words();
    var i := 0;
    while i < count / 32
      invariant i <= count / 32 && forall n: nat | n < 32 * i :: n in seen
    {
      WordPresent(words, seen, count, i, 32);
      if words[i] != 0xffff_ffff {
        return false;
      }
      i := i + 1;
    }
    if count % 32 != 0 {
      ShiftedOnes(count % 32);
      WordPresent(words, seen, count, count / 32, count % 32);
      if words[count / 32] != 0xffff_ffff / Pow2(32 - count % 32) {
        return false;
      }
    }
    return true;
  }

  method CountRequired(iter: FieldIter) returns (count: nat)
    requires iter.Valid()
    modifies iter
    ensures iter.Valid() && count == RequiredBefore(iter.fields, |iter.fields|)
  {
    var fields := iter.fields;
    var lastRequired := false;
    count := 0;
    var more := true;
    while more
      invariant iter.Valid()
      invariant !more && fields != [] ==> count == RequiredBefore(fields, |fields| - 1)
      invariant !more && fields != [] ==> lastRequired == fields[|fields| - 1].rule.Required?
      invariant fields == [] ==> count == 0
      decreases more, |fields| - iter.pos
    {
      count := iter.requiredFieldIndex;
      lastRequired := iter.pos == |fields| || fields[iter.pos].rule.Required?;
      more := iter.Next();
    }
    if lastRequired && iter.CurrentTag() != 0 {
      count := count + 1;
    }
  }

  // ---- The code: messages -----------------------------------------------------------------------

  /** pb_dec_submessage. */
  method DecodeSubmessage(stream: IStream, f: Field, held: Value) returns (ok: bool, v: Value)
    requires stream.Valid() && f.kind.Submessage? && TaggedBelow(f) && DistinctBelow(f)
    modifies stream
    ensures stream.Did(ok, v, DecodeValue(f, held, old(stream.Rest())))
    decreases stream.bytesLeft, 1
  {
    hide ReadString;
    hide DecodeNoInit;
    hide DecodeValue;
    hide HeldSlots;
    SubmessageValue(f, held, stream.Rest());
    var fields := f.kind.fields;
    v := held;
    var sub;
    ok, sub := stream.MakeSubstream();
    if !ok {
      return;
    }
    ghost var body, end := sub.Rest(), sub.state + sub.bytesLeft;
    var start;
    if f.rule.Repeated? {
      start := SetToDefaults(fields);
    } else {
      start := HeldSlots(fields, held);
    }
    var slots;
    ok, slots := DecodeNoInitOn(sub, fields, start);
    if !ok {
      return;
    }
    stream.CloseSubstream(sub, end);
    v := Msg(slots);
  }

  lemma SubmessageValue(f: Field, held: Value, s: seq<byte>)
    requires f.kind.Submessage?
    ensures DecodeValue(f, held, s) ==
              if ReadString(s).None? then None
              else
                var sub, (body, rest) := f.kind.fields, ReadString(s).value;
                var out := DecodeNoInit(sub, if f.rule.Repeated? then Defaults(sub) else HeldSlots(sub, held), body);
                if out.None? then None else Some((Msg(out.value.0), rest))
  {
    hide ReadString;
    hide DecodeNoInit;
    hide HeldSlots;
  }

  /** The field decoders PB_DECODERS dispatches to. */
  method DecodeValueOn(stream: IStream, f: Field, held: Value) returns (ok: bool, v: Value)
    requires stream.Valid() && TaggedBelow(f) && DistinctBelow(f)
    modifies stream
    ensures stream.Did(ok, v, DecodeValue(f, held, old(stream.Rest())))
    decreases stream.bytesLeft, 2
  {
    if f.Packable() {
      var n;
      ok, n := DecodeScalar(stream, f);
      v := Int(n);
    } else if f.kind.Submessage? {
      ok, v := DecodeSubmessage(stream, f, held);
    } else {
      ok, v := DecodeBlob(stream, f);
    }
  }

  /** decode_static_field: the slot as it is left. */
  method DecodeFieldOn(stream: IStream, f: Field, slot: Slot, wireType: nat) returns (ok: bool, slot': Slot)
    requires stream.Valid() && TaggedBelow(f) && DistinctBelow(f)
    modifies stream
    ensures stream.Did(ok, slot', DecodeField(f, slot, wireType, old(stream.Rest())))
    decreases stream.bytesLeft, 3
  {
    hide DecodeValue;
    hide DecodePacked;
    hide ReadString;
    slot' := slot;
    var v, items;
    match f.rule
    case Required =>
      ok, v := DecodeValueOn(stream, f, Held(f, slot));
      slot' := One(v);
    case Optional =>
      ok, v := DecodeValueOn(stream, f, Held(f, slot));
      slot' := if f.Implicit() then One(v) else Maybe(true, v);
    case Repeated =>
      if wireType == 2 && f.Packable() {
        ok, items := DecodePackedArray(stream, f, Items(slot));
        slot' := Many(items);
      } else {
        if |Items(slot)| >= f.arraySize {
          return false, slot;
        }
        ok, v := DecodeValueOn(stream, f, DefaultValue(f));
        slot' := Many(Items(slot) + [v]);
      }
    case Oneof =>
      ok, v := DecodeValueOn(stream, f, DefaultValue(f));
      slot' := Union(f.tag, v);
  }

  /** How the loop goes on once field i has been decoded. */
  function Onward(fields: seq<Field>, slots: seq<Slot>, i: nat, decoded: Read<Slot>, seen: set<nat>): Option<Outcome>
    requires |slots| == SlotsTo(fields, |fields|) && i < |fields|
  {
    if decoded.None? then None
    else DecodeLoop(fields, SetSlot(fields, slots, i, decoded.value.0), decoded.value.1, Saw(fields, i, seen))
  }

  /** One round of the loop on a key of no field. */
  lemma LoopUnknown(fields: seq<Field>, slots: seq<Slot>, s: seq<byte>, seen: set<nat>, key: nat, rest: seq<byte>)
    requires |slots| == SlotsTo(fields, |fields|) && ReadVarint32(s) == Some((key, rest))
    requires key == 0 || FindTag(fields, key / 8).None?
    ensures key == 0 ==> DecodeLoop(fields, slots, s, seen) == Some(Outcome(slots, rest, seen, true))
    ensures key != 0 && fields == [] && key / 8 == 0 ==> DecodeLoop(fields, slots, s, seen) == None
    ensures key != 0 && !(fields == [] && key / 8 == 0) ==>
              DecodeLoop(fields, slots, s, seen) ==
                if Skip(key % 8, rest).None? then None else DecodeLoop(fields, slots, Skip(key % 8, rest).value, seen)
  {
    hide ReadVarint32;
    hide Skip;
  }

  /** One round of the loop on a key of field i. */
  lemma LoopKnown(fields: seq<Field>, slots: seq<Slot>, s: seq<byte>, seen: set<nat>, key: nat, rest: seq<byte>, i: nat)
    requires |slots| == SlotsTo(fields, |fields|) && ReadVarint32(s) == Some((key, rest))
    requires key != 0 && FindTag(fields, key / 8) == Some(i)
    ensures DecodeLoop(fields, slots, s, seen) ==
              Onward(fields, slots, i, DecodeField(fields[i], SlotOf(fields, slots, i), key % 8, rest), seen)
  {
    hide ReadVarint32;
    hide DecodeField;
    hide SlotOf;
    hide SetSlot;
    hide Saw;
  }

  /** Decode a field the descriptor has, and mark it if it is required. */
  method DecodeKnown(stream: IStream, iter: FieldIter, slots: seq<Slot>, words: seq<nat>, wireType: nat,
                     ghost seen: set<nat>)
      returns (ok: bool, slot: Slot, words': seq<nat>)
    requires stream.Valid() && iter.Valid() && iter.fields != [] && Tagged(iter.fields) && Distinct(iter.fields)
    requires |slots| == SlotsTo(iter.fields, |iter.fields|)
    requires WordsHold(words, seen) && forall n | n in seen :: n < CheckedCount(iter.fields)
    modifies stream
    ensures stream.Did(ok, slot, DecodeField(iter.fields[iter.pos], SlotOf(iter.fields, slots, iter.pos), wireType,
                                             old(stream.Rest())))
    ensures WordsHold(words', Saw(iter.fields, iter.pos, seen))
    ensures forall n | n in Saw(iter.fields, iter.pos, seen) :: n < CheckedCount(iter.fields)
    decreases stream.bytesLeft, 4
  {
    hide DecodeField;
    hide WordsHold;
    hide CheckedCount;
    var fields, i := iter.fields, iter.pos;
    SlotInRange(fields, i);
    RequiredInRange(fields, i);
    words' := words;
    if fields[i].rule.Required? && iter.requiredFieldIndex < PB_MAX_REQUIRED_FIELDS {
      var n := iter.requiredFieldIndex;
      MarkHolds(words, seen, n);
      WordsTwo(words, seen);
      words' := words[n / 32 := Or(words[n / 32], Shl(32, 1, n % 32))];
    }
    ok, slot := DecodeFieldOn(stream, fields[i], slots[iter.slot], wireType);
  }

  lemma WordsTwo(words: seq<nat>, seen: set<nat>)
    requires WordsHold(words, seen)
    ensures |words| == 2
  {
  }

  /** The loop of pb_decode_noinit: it stops when the octets run out or at a zero tag. */
  method DecodeLoopOn(stream: IStream, iter: FieldIter, slots0: seq<Slot>)
      returns (ok: bool, slots: seq<Slot>, fieldsSeen: seq<nat>, ghost seen: set<nat>, ghost terminated: bool)
    requires stream.Valid() && iter.Valid() && iter.pos == 0
    requires |slots0| == SlotsTo(iter.fields, |iter.fields|) && Tagged(iter.fields) && Distinct(iter.fields)
    modifies stream, iter
    ensures stream.Valid() && iter.Valid()
    ensures ok ==> stream.state + stream.bytesLeft == old(stream.state + stream.bytesLeft)
    ensures DecodeLoop(iter.fields, slots0, old(stream.Rest()), {}) ==
              if ok then Some(Outcome(slots, stream.Rest(), seen, terminated)) else None
    ensures ok ==> WordsHold(fieldsSeen, seen) && forall n | n in seen :: n < CheckedCount(iter.fields)
    decreases stream.bytesLeft, 5
  {
    hide DecodeLoop;
    hide DecodeField;
    hide ReadVarint32;
    hide Skip;
    hide WordsHold;
    hide CheckedCount;
    hide FindTag;
    hide SetSlot;
    hide SlotOf;
    hide Saw;
    hide Tagged;
    hide Distinct;
    var fields := iter.fields;
    slots, fieldsSeen, seen, terminated := slots0, [0, 0], {}, false;
    NoneSeen();
    DistinctHere(fields);
    ghost var out := DecodeLoop(fields, slots0, stream.Rest(), {});
    while stream.bytesLeft > 0
      invariant stream.Valid() && iter.Valid() && !terminated
      invariant stream.state + stream.bytesLeft == old(stream.state + stream.bytesLeft) && unchanged(stream.buf)
      invariant |slots| == |slots0| && out == DecodeLoop(fields, slots, stream.Rest(), seen)
      invariant WordsHold(fieldsSeen, seen) && forall n | n in seen :: n < CheckedCount(fields)
      decreases stream.bytesLeft
    {
      ghost var before := stream.Rest();
      var key, eof;
      ok, key, eof := stream.DecodeVarint32();
      if !ok {
        LoopStuck(fields, slots, before, seen);
        return;
      }
      ghost var rest := stream.Rest();
      if key == 0 {
        LoopUnknown(fields, slots, before, seen, key, rest);
        terminated := true;
        return;
      }
      var found := iter.Find(key / 8);
      if !found {
        LoopUnknown(fields, slots, before, seen, key, rest);
        ok := SkipField(stream, key % 8);
        if !ok {
          return;
        }
      } else if fields == [] {
        LoopUnknown(fields, slots, before, seen, key, rest);
        ok := false;   // the terminator decodes as a field of size zero, which no decoder accepts
        return;
      } else {
        ghost var i := iter.pos;
        FindTagAt(fields, i);
        LoopKnown(fields, slots, before, seen, key, rest, i);
        var slot;
        ok, slot, fieldsSeen := DecodeKnown(stream, iter, slots, fieldsSeen, key % 8, seen);
        if !ok {
          return;
        }
        SetSlotIs(fields, slots, i, slot);
        slots := slots[iter.slot := slot];
        seen := Saw(fields, i, seen);
      }
    }
    LoopDone(fields, slots, seen);
    ok := true;
  }

  /** pb_decode_noinit. */
  method DecodeNoInitOn(stream: IStream, fields: seq<Field>, slots0: seq<Slot>) returns (ok: bool, slots: seq<Slot>)
    requires stream.Valid() && |slots0| == SlotsTo(fields, |fields|) && Tagged(fields) && Distinct(fields)
    modifies stream
    ensures stream.Did(ok, slots, DecodeNoInit(fields, slots0, old(stream.Rest())))
    decreases stream.bytesLeft, 6
  {
    hide DecodeLoop;
    hide WordsHold;
    var iter := new FieldIter(fields);
    var fieldsSeen;
    ghost var seen, terminated;
    ok, slots, fieldsSeen, seen, terminated := DecodeLoopOn(stream, iter, slots0);
    if ok {
      ok := CheckRequired(iter, fieldsSeen, seen);
    }
  }

  lemma DistinctHere(fields: seq<Field>)
    requires Distinct(fields)
    ensures forall j, k | 0 <= j < k < |fields| :: fields[j].tag != fields[k].tag
  {
  }

  lemma SetSlotIs(fields: seq<Field>, slots: seq<Slot>, i: nat, slot: Slot)
    requires i < |fields| && |slots| == SlotsTo(fields, |fields|)
    ensures SlotIndex(fields, i) < |slots| && SetSlot(fields, slots, i, slot) == slots[SlotIndex(fields, i) := slot]
  {
    SlotInRange(fields, i);
  }

  lemma LoopStuck(fields: seq<Field>, slots: seq<Slot>, s: seq<byte>, seen: set<nat>)
    requires |slots| == SlotsTo(fields, |fields|) && s != [] && ReadVarint32(s).None?
    ensures DecodeLoop(fields, slots, s, seen) == None
  {
  }

  lemma LoopDone(fields: seq<Field>, slots: seq<Slot>, seen: set<nat>)
    requires |slots| == SlotsTo(fields, |fields|)
    ensures DecodeLoop(fields, slots, [], seen) == Some(Outcome(slots, [], seen, false))
  {
  }

  lemma NoneSeen()
    ensures WordsHold([0, 0], {})
  {
    forall n: nat | n < PB_MAX_REQUIRED_FIELDS ensures !WordBit([0, 0], n) {
      BitOfZero(n % 32);
    }
  }

  lemma FindTagAt(fields: seq<Field>, i: nat)
    requires i < |fields| && forall j, k | 0 <= j < k < |fields| :: fields[j].tag != fields[k].tag
    ensures FindTag(fields, fields[i].tag) == Some(i)
  {
    var k := FindTag(fields, fields[i].tag).value;
    assert k < i || k == i || i < k;
  }

  /** A checked required field's number is below the count. */
  lemma RequiredInRange(fields: seq<Field>, i: nat)
    requires i < |fields|
    ensures fields[i].rule.Required? && RequiredBefore(fields, i) < PB_MAX_REQUIRED_FIELDS ==>
              RequiredBefore(fields, i) < CheckedCount(fields)
  {
    RequiredMonotone(fields, i, |fields|);
  }

  /** pb_decode. */
  method DecodeOn(stream: IStream, fields: seq<Field>) returns (ok: bool, slots: seq<Slot>)
    requires stream.Valid() && Tagged(fields) && Distinct(fields)
    modifies stream
    ensures stream.Did(ok, slots, Decode(fields, old(stream.Rest())))
  {
    hide DecodeNoInit;
    var start := SetToDefaults(fields);
    ok, slots := DecodeNoInitOn(stream, fields, start);
  }

  /** pb_decode_delimited: however much of it the message used, the stream ends up after the whole region. */
  method DecodeDelimited(stream: IStream, fields: seq<Field>) returns (ok: bool, slots: seq<Slot>)
    requires stream.Valid() && Tagged(fields) && Distinct(fields)
    modifies stream
    ensures stream.Valid()
    ensures ok <==> ReadString(old(stream.Rest())).Some? && Decode(fields, ReadString(old(stream.Rest())).value.0).Some?
    ensures ok ==> slots == Decode(fields, ReadString(old(stream.Rest())).value.0).value.0
    ensures ok ==> stream.Rest() == ReadString(old(stream.Rest())).value.1
    ensures ok ==> stream.state + stream.bytesLeft == old(stream.state + stream.bytesLeft)
  {
    hide ReadString;
    hide Decode;
    slots := [];
    var sub;
    ok, sub := stream.MakeSubstream();
    if !ok {
      return;
    }
    ghost var end := sub.state + sub.bytesLeft;
    ok, slots := DecodeOn(sub, fields);
    if !ok {
      return;
    }
    stream.CloseSubstream(sub, end);
  }
}
