/**
 nanopb's message descriptors and the structs they describe.  A struct is a sequence of typed
 slots, one for each field, except that the members of a union share one.
 */
module PbTypes {
  import opened Wrappers
  import opened Bytes
  import opened PbWire

  const PB_SIZE_MAX: nat := 255
  const PB_MAX_REQUIRED_FIELDS: nat := 64

  datatype Rule = Required | Optional | Repeated | Oneof

  /** VARINT, UVARINT, SVARINT, FIXED32, FIXED64, BYTES, STRING, SUBMESSAGE and FIXED_LENGTH_BYTES. */
  datatype Kind = Signed | Unsigned | ZigZagged | Fixed32 | Fixed64
                | ByteArray | CString | Submessage(fields: seq<Field>) | FixedBytes

  /** pb_field_t for a statically allocated field; an array of these ends before the zero tag. */
  datatype Field = Field(tag: nat, rule: Rule, kind: Kind, dataOffset: nat, sizeOffset: int,
                         dataSize: nat, arraySize: nat, dflt: Option<Value>) {
    /** The last packable type is FIXED64. */
    predicate Packable() {
      kind.Signed? || kind.Unsigned? || kind.ZigZagged? || kind.Fixed32? || kind.Fixed64?
    }

    /** Optional without a has_ flag, as in proto3. */
    predicate Implicit() {
      rule.Optional? && sizeOffset == 0
    }
  }

  datatype Value = Int(n: int) | Blob(bytes: seq<byte>) | Msg(slots: seq<Slot>)

  /** A single value, one with its has_ flag, an array up to its count, or a union with its which_ tag. */
  datatype Slot = One(v: Value) | Maybe(has: bool, v: Value) | Many(items: seq<Value>) | Union(which: nat, v: Value)

  /** Whether cur is a further member of the union prev belongs to. */
  predicate Continues(prev: Field, cur: Field) {
    prev.rule.Oneof? && cur.rule.Oneof? && cur.dataOffset == PB_SIZE_MAX
  }

  /** How many slots the first n fields use. */
  function SlotsTo(fields: seq<Field>, n: nat): (k: nat)
    requires n <= |fields|
    ensures k <= n && (n > 0 ==> k > 0)
  {
    if n == 0 then 0
    else if n >= 2 && Continues(fields[n - 2], fields[n - 1]) then SlotsTo(fields, n - 1)
    else SlotsTo(fields, n - 1) + 1
  }

  /** The slot of a field. */
  function SlotIndex(fields: seq<Field>, i: nat): nat
    requires i < |fields|
  {
    SlotsTo(fields, i + 1) - 1
  }

  lemma {:induction false} SlotsMonotone(fields: seq<Field>, m: nat, n: nat)
    requires m <= n <= |fields|
    ensures SlotsTo(fields, m) <= SlotsTo(fields, n)
    decreases n
  {
    if m < n { SlotsMonotone(fields, m, n - 1); }
  }

  lemma SlotInRange(fields: seq<Field>, i: nat)
    requires i < |fields|
    ensures SlotIndex(fields, i) < SlotsTo(fields, |fields|)
  {
    SlotsMonotone(fields, i + 1, |fields|);
  }

  /** A field's slot in a struct. */
  function SlotOf(fields: seq<Field>, slots: seq<Slot>, i: nat): Slot
    requires i < |fields| && |slots| == SlotsTo(fields, |fields|)
  {
    SlotInRange(fields, i);
    slots[SlotIndex(fields, i)]
  }

  /** Only members of one union share a slot. */
  lemma {:induction false} SharedSlot(fields: seq<Field>, i: nat, j: nat)
    requires i < j < |fields| && SlotIndex(fields, i) == SlotIndex(fields, j)
    ensures fields[i].rule.Oneof? && fields[j].rule.Oneof? && Continues(fields[j - 1], fields[j])
    decreases j
  {
    SlotsMonotone(fields, i + 1, j);
    if i < j - 1 { SharedSlot(fields, i, j - 1); }
  }

  // ---- Typing -----------------------------------------------------------------------------------

  /** One past the largest value of a signed integer of d octets, for the widths nanopb knows. */
  function SignedLimit(d: nat): Option<int> {
    if d == 1 then Some(0x80)
    else if d == 2 then Some(0x8000)
    else if d == 4 then Some(0x8000_0000)
    else if d == 8 then Some(I64)
    else None
  }

  predicate ValueTyped(f: Field, v: Value)
    decreases f, 0
  {
    match f.kind
    case Signed => v.Int? && -I64 <= v.n < I64 && (SignedLimit(f.dataSize).Some? ==>
                     -SignedLimit(f.dataSize).value <= v.n < SignedLimit(f.dataSize).value)
    case ZigZagged => v.Int? && -I64 <= v.n < I64 && (SignedLimit(f.dataSize).Some? ==>
                     -SignedLimit(f.dataSize).value <= v.n < SignedLimit(f.dataSize).value)
    case Unsigned => v.Int? && 0 <= v.n < U64 && (SignedLimit(f.dataSize).Some? ==>
                       v.n < 2 * SignedLimit(f.dataSize).value)
    case Fixed32 => v.Int? && 0 <= v.n < U32
    case Fixed64 => v.Int? && 0 <= v.n < U64
    case ByteArray => v.Blob? && |v.bytes| <= PB_SIZE_MAX
    case CString => v.Blob? && |v.bytes| <= f.dataSize
    case FixedBytes => v.Blob? && |v.bytes| == f.dataSize
    case Submessage(sub) => v.Msg? && StructTyped(sub, v.slots)
  }

  predicate FieldTyped(f: Field, slot: Slot)
    decreases f, 1
  {
    match f.rule
    case Required => slot.One? && ValueTyped(f, slot.v)
    case Optional => (if f.Implicit() then slot.One? else slot.Maybe?) && ValueTyped(f, slot.v)
    case Repeated => slot.Many? && forall k | 0 <= k < |slot.items| :: ValueTyped(f, slot.items[k])
    case Oneof => slot.Union? && (slot.which == f.tag ==> ValueTyped(f, slot.v))
  }

  predicate StructTyped(fields: seq<Field>, slots: seq<Slot>)
    decreases fields
  {
    && |slots| == SlotsTo(fields, |fields|)
    && forall i | 0 <= i < |fields| :: FieldTyped(fields[i], SlotOf(fields, slots, i))
  }

  // ---- Defaults ---------------------------------------------------------------------------------

  /** What pb_field_set_to_default initialises a value to. */
  function DefaultValue(f: Field): Value
    decreases f, 0
  {
    if f.kind.Submessage? then Msg(DefaultsTo(f.kind.fields, |f.kind.fields|))
    else if f.dflt.Some? then f.dflt.value
    else if f.kind.FixedBytes? then Blob(Zeros(f.dataSize))
    else if f.Packable() then Int(0)
    else Blob([])
  }

  function Zeros(n: nat): (s: seq<byte>)
    ensures |s| == n
  {
    seq(n, _ => 0)
  }

  /** A count or which_ is zeroed and the contents left alone; a has_ is cleared and the value set anyway. */
  function DefaultSlot(f: Field): Slot
    decreases f, 1
  {
    match f.rule
    case Required => One(DefaultValue(f))
    case Optional => if f.Implicit() then One(DefaultValue(f)) else Maybe(false, DefaultValue(f))
    case Repeated => Many([])
    case Oneof => Union(0, Int(0))
  }

  /** The slots of the first n fields as pb_message_set_to_defaults leaves them. */
  function DefaultsTo(fields: seq<Field>, n: nat): (slots: seq<Slot>)
    requires n <= |fields|
    ensures |slots| == SlotsTo(fields, n)
    decreases fields, n
  {
    if n == 0 then []
    else if n >= 2 && Continues(fields[n - 2], fields[n - 1]) then DefaultsTo(fields, n - 1)
    else DefaultsTo(fields, n - 1) + [DefaultSlot(fields[n - 1])]
  }

  function Defaults(fields: seq<Field>): (slots: seq<Slot>)
    ensures |slots| == SlotsTo(fields, |fields|)
  {
    DefaultsTo(fields, |fields|)
  }

  /** Every field's slot starts at that field's default. */
  lemma {:induction false} DefaultAt(fields: seq<Field>, i: nat, n: nat)
    requires i < n <= |fields|
    ensures SlotIndex(fields, i) < SlotsTo(fields, n)
    ensures DefaultsTo(fields, n)[SlotIndex(fields, i)] == DefaultSlot(fields[i])
    decreases n
  {
    if i < n - 1 {
      DefaultAt(fields, i, n - 1);
    } else if n >= 2 && Continues(fields[n - 2], fields[n - 1]) {
      DefaultAt(fields, n - 2, n - 1);
    }
  }

  /** Descriptors end at the first zero tag, so none of their fields has one. */
  predicate Tagged(fields: seq<Field>)
    decreases fields
  {
    forall i | 0 <= i < |fields| :: fields[i].tag != 0 && TaggedBelow(fields[i])
  }

  predicate TaggedBelow(f: Field)
    decreases f
  {
    f.kind.Submessage? ==> Tagged(f.kind.fields)
  }

  /** No tag is given twice, at any depth. */
  predicate Distinct(fields: seq<Field>)
    decreases fields
  {
    && (forall i, j | 0 <= i < j < |fields| :: fields[i].tag != fields[j].tag)
    && forall i | 0 <= i < |fields| :: DistinctBelow(fields[i])
  }

  predicate DistinctBelow(f: Field)
    decreases f
  {
    f.kind.Submessage? ==> Distinct(f.kind.fields)
  }

  // ---- The field iterator -------------------------------------------------------------------------

  /** Octets a field takes in the struct. */
  function Extent(f: Field): nat {
    if f.rule.Repeated? then f.dataSize * f.arraySize else f.dataSize
  }

  /** Where a walk from the start puts a field's data, relative to the struct. */
  function DataOffset(fields: seq<Field>, i: nat): nat
    requires i < |fields|
  {
    if i == 0 then fields[0].dataOffset
    else if Continues(fields[i - 1], fields[i]) then DataOffset(fields, i - 1)
    else DataOffset(fields, i - 1) + Extent(fields[i - 1]) + fields[i].dataOffset
  }

  /** Where it puts a field's count, has_ or which_; members of a union use the first member's. */
  function SizeOffset(fields: seq<Field>, i: nat): int
    requires i < |fields|
  {
    if i > 0 && Continues(fields[i - 1], fields[i]) then SizeOffset(fields, i - 1)
    else DataOffset(fields, i) + fields[i].sizeOffset
  }

  /** The number of required fields among the first i. */
  function RequiredBefore(fields: seq<Field>, i: nat): (n: nat)
    requires i <= |fields|
    ensures n <= i
  {
    if i == 0 then 0 else RequiredBefore(fields, i - 1) + if fields[i - 1].rule.Required? then 1 else 0
  }

  /** Required fields are numbered in order. */
  lemma {:induction false} RequiredMonotone(fields: seq<Field>, i: nat, j: nat)
    requires i <= j <= |fields|
    ensures RequiredBefore(fields, i) <= RequiredBefore(fields, j)
    ensures i < j && fields[i].rule.Required? ==> RequiredBefore(fields, i) < RequiredBefore(fields, j)
    decreases j
  {
    if i < j { RequiredMonotone(fields, i, j - 1); }
  }

  /** Every number below the count is the number of a required field. */
  lemma {:induction false} RequiredOnto(fields: seq<Field>, i: nat, n: nat) returns (k: nat)
    requires i <= |fields| && n < RequiredBefore(fields, i)
    ensures k < i && fields[k].rule.Required? && RequiredBefore(fields, k) == n
    decreases i
  {
    if n < RequiredBefore(fields, i - 1) {
      k := RequiredOnto(fields, i - 1, n);
    } else {
      k := i - 1;
    }
  }

  /** Fields in different slots do not overlap, the last member of a union standing for the whole of it. */
  lemma {:induction false} StorageDisjoint(fields: seq<Field>, i: nat, j: nat)
    requires i < j < |fields| && !Continues(fields[i], fields[i + 1])
    ensures DataOffset(fields, i) + Extent(fields[i]) <= DataOffset(fields, j)
    decreases j
  {
    if i < j - 1 { StorageDisjoint(fields, i, j - 1); }
  }

  /** Positions seen on the way from start (included) to pos (excluded), wrapping around at the end. */
  predicate Between(start: nat, pos: nat, i: nat) {
    if start <= pos then start <= i < pos else start <= i || i < pos
  }

  class FieldIter {
    const fields: seq<Field>
    var pos: nat
    var pData: nat
    var pSize: int
    var slot: nat
    var requiredFieldIndex: nat

    /** Everything but the position is a function of the position. */
    ghost predicate Valid()
      reads this
    {
      && pos <= |fields| && (pos == |fields| ==> fields == [])
      && (forall i | 0 <= i < |fields| :: fields[i].tag != 0)
      && requiredFieldIndex == RequiredBefore(fields, pos)
      && (pos < |fields| ==>
            && pData == DataOffset(fields, pos) && pSize == SizeOffset(fields, pos)
            && slot == SlotIndex(fields, pos))
    }

    constructor (fields: seq<Field>)
      requires forall i | 0 <= i < |fields| :: fields[i].tag != 0
      ensures Valid() && this.fields == fields && pos == 0
    {
      this.fields := fields;
      new;
      var _ := Begin();
    }

    /** pb_field_iter_begin: false for the empty message type. */
    method Begin() returns (nonempty: bool)
      requires forall i | 0 <= i < |fields| :: fields[i].tag != 0
      modifies this
      ensures Valid() && pos == 0 && nonempty == (fields != [])
    {
      pos, requiredFieldIndex, slot := 0, 0, 0;
      if fields == [] {
        return false;
      }
      pData := fields[0].dataOffset;
      pSize := pData + fields[0].sizeOffset;
      return true;
    }

    /** pb_field_iter_next: false when it has wrapped around. */
    method Next() returns (more: bool)
      requires Valid()
      modifies this
      ensures Valid()
      ensures fields == [] ==> pos == old(pos) && !more
      ensures fields != [] ==> pos == (if old(pos) + 1 == |fields| then 0 else old(pos) + 1) && more == (pos != 0)
    {
      if fields == [] {
        return false;
      }
      var prev := fields[pos];
      if pos + 1 == |fields| {
        var _ := Begin();
        return false;
      }
      var prevSize := prev.dataSize;
      pos := pos + 1;
      if Continues(prev, fields[pos]) {
        return true;
      }
      if prev.rule.Repeated? {
        prevSize := prevSize * prev.arraySize;
      }
      if prev.rule.Required? {
        requiredFieldIndex := requiredFieldIndex + 1;
      }
      pData := pData + prevSize + fields[pos].dataOffset;
      pSize := pData + fields[pos].sizeOffset;
      slot := slot + 1;
      return true;
    }

    /** The tag under the iterator; on an empty type that is the terminator's zero. */
    function CurrentTag(): nat
      requires pos <= |fields|
      reads this
    {
      if pos < |fields| then fields[pos].tag else 0
    }

    /**
     pb_field_iter_find: from any start it succeeds exactly when some field has the tag (or, on an
     empty type, when asked for zero), stops there, and otherwise comes back to where it was.
     */
    method Find(tag: nat) returns (found: bool)
      requires Valid()
      modifies this
      ensures Valid()
      ensures found <==> (fields == [] && tag == 0) || exists i | 0 <= i < |fields| :: fields[i].tag == tag
      ensures found ==> CurrentTag() == tag
      ensures !found ==> pos == old(pos)
    {
      var start := pos;
      if CurrentTag() == tag {
        return true;
      }
      var _ := Next();
      while pos != start
        invariant Valid()
        invariant fields == [] ==> pos == start && tag != 0
        invariant pos != start ==> forall i | 0 <= i < |fields| && Between(start, pos, i) :: fields[i].tag != tag
        invariant pos == start ==> forall i | 0 <= i < |fields| :: fields[i].tag != tag
        decreases if pos > start then |fields| - pos + start else start - pos
      {
        if CurrentTag() == tag {
          return true;
        }
        var _ := Next();
      }
      return false;
    }
  }

  /** pb_message_set_to_defaults. */
  method SetToDefaults(fields: seq<Field>) returns (slots: seq<Slot>)
    requires forall i | 0 <= i < |fields| :: fields[i].tag != 0
    ensures slots == Defaults(fields)
  {
    slots := [];
    var iter := new FieldIter(fields);
    if fields == [] {
      return;
    }
    var more := true;
    ghost var n := 0;
    while more
      invariant iter.Valid() && iter.fields == fields && n <= |fields|
      invariant if more then iter.pos == n < |fields| else n == |fields|
      invariant slots == DefaultsTo(fields, n)
      decreases |fields| - n
    {
      if iter.slot == |slots| {
        slots := slots + [DefaultSlot(fields[iter.pos])];
      } else {
        slots := slots[iter.slot := DefaultSlot(fields[iter.pos])];
        if n > 0 { DefaultAt(fields, n - 1, n); }
      }
      n := n + 1;
      more := iter.Next();
    }
  }
}
