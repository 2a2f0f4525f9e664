/**
 Decoding a concatenation is decoding one part after the other into the same struct, and fields the
 descriptor does not know change nothing.
 */
module PbMerge {
  import opened Wrappers
  import opened Bits
  import opened Bytes
  import opened PbWire
  import opened PbStream
  import opened PbTypes
  import opened PbDecode

  // ---- A reader that succeeds does not look past what it reads --------------------------------

  lemma {:induction false} VarintStable(s: seq<byte>, t: seq<byte>, bitpos: nat, acc: nat)
    requires VarintFrom(s, bitpos, acc).Some?
    ensures var (v, rest) := VarintFrom(s, bitpos, acc).value;
            VarintFrom(s + t, bitpos, acc) == Some((v, rest + t))
    decreases |s|
  {
    hide Or;
    hide Shl;
    assert (s + t)[0] == s[0] && (s + t)[1..] == s[1..] + t;
    if s[0] >= 128 {
      VarintStable(s[1..], t, bitpos + 7, Or(acc, Shl(64, s[0] % 128, bitpos)));
    }
  }

  lemma {:induction false} Varint32FromStable(s: seq<byte>, t: seq<byte>, bitpos: nat, acc: nat)
    requires Varint32From(s, bitpos, acc).Some?
    ensures var (v, rest) := Varint32From(s, bitpos, acc).value;
            Varint32From(s + t, bitpos, acc) == Some((v, rest + t))
    decreases |s|
  {
    hide Or;
    hide Shl;
    hide SignOctet;
    assert (s + t)[0] == s[0] && (s + t)[1..] == s[1..] + t;
    if s[0] >= 128 {
      var acc' := if bitpos >= 32 then acc else Or(acc, Shl(32, s[0] % 128, bitpos));
      Varint32FromStable(s[1..], t, (bitpos + 7) % 256, acc');
    }
  }

  lemma Varint32Stable(s: seq<byte>, t: seq<byte>)
    requires ReadVarint32(s).Some?
    ensures var (v, rest) := ReadVarint32(s).value; ReadVarint32(s + t) == Some((v, rest + t))
  {
    assert (s + t)[0] == s[0] && (s + t)[1..] == s[1..] + t;
    if s[0] >= 128 { Varint32FromStable(s[1..], t, 7, s[0] % 128); }
  }

  lemma StringStable(s: seq<byte>, t: seq<byte>)
    requires ReadString(s).Some?
    ensures var (body, rest) := ReadString(s).value; ReadString(s + t) == Some((body, rest + t))
  {
    hide ReadVarint32;
    Varint32Stable(s, t);
    var (n, rest) := ReadVarint32(s).value;
    assert (rest + t)[..n] == rest[..n] && (rest + t)[n..] == rest[n..] + t;
  }

  lemma FixedStable(s: seq<byte>, t: seq<byte>, len: nat)
    requires ReadFixed(s, len).Some?
    ensures var (v, rest) := ReadFixed(s, len).value; ReadFixed(s + t, len) == Some((v, rest + t))
  {
    assert (s + t)[..len] == s[..len] && (s + t)[len..] == s[len..] + t;
  }

  lemma ScalarStable(f: Field, s: seq<byte>, t: seq<byte>)
    requires f.Packable() && ReadScalar(f, s).Some?
    ensures var (n, rest) := ReadScalar(f, s).value; ReadScalar(f, s + t) == Some((n, rest + t))
  {
    hide VarintFrom;
    hide ReadFixed;
    if f.kind.Fixed32? {
      FixedStable(s, t, 4);
    } else if f.kind.Fixed64? {
      FixedStable(s, t, 8);
    } else {
      VarintStable(s, t, 0, 0);
    }
  }

  lemma {:induction false} SkipVarintStable(s: seq<byte>, t: seq<byte>)
    requires SkipVarint(s).Some?
    ensures SkipVarint(s + t) == Some(SkipVarint(s).value + t)
  {
    assert (s + t)[0] == s[0] && (s + t)[1..] == s[1..] + t;
    if s[0] >= 128 { SkipVarintStable(s[1..], t); }
  }

  lemma SkipStable(wireType: nat, s: seq<byte>, t: seq<byte>)
    requires Skip(wireType, s).Some?
    ensures Skip(wireType, s + t) == Some(Skip(wireType, s).value + t)
  {
    hide ReadString;
    hide SkipVarint;
    if wireType == 0 {
      SkipVarintStable(s, t);
    } else if wireType == 1 {
      assert (s + t)[8..] == s[8..] + t;
    } else if wireType == 2 {
      StringStable(s, t);
    } else {
      assert (s + t)[4..] == s[4..] + t;
    }
  }

  lemma ValueStable(f: Field, held: Value, s: seq<byte>, t: seq<byte>)
    requires DecodeValue(f, held, s).Some?
    ensures var (v, rest) := DecodeValue(f, held, s).value; DecodeValue(f, held, s + t) == Some((v, rest + t))
  {
    hide ReadScalar;
    hide ReadString;
    if f.Packable() {
      ScalarStable(f, s, t);
    } else {
      StringStable(s, t);
    }
  }

  lemma FieldStable(f: Field, slot: Slot, wireType: nat, s: seq<byte>, t: seq<byte>)
    requires DecodeField(f, slot, wireType, s).Some?
    ensures var (v, rest) := DecodeField(f, slot, wireType, s).value;
            DecodeField(f, slot, wireType, s + t) == Some((v, rest + t))
  {
    hide ReadString;
    hide DecodeValue;
    hide DecodePacked;
    if f.rule.Repeated? && wireType == 2 && f.Packable() {
      StringStable(s, t);
    } else {
      ValueStable(f, if f.rule.Repeated? || f.rule.Oneof? then DefaultValue(f) else Held(f, slot), s, t);
    }
  }

  // ---- Concatenation ----------------------------------------------------------------------------

  /** If the loop runs out of a without meeting a terminator, it goes on with b from the struct it has. */
  lemma {:induction false} LoopConcat(fields: seq<Field>, slots: seq<Slot>, a: seq<byte>, b: seq<byte>, seen: set<nat>)
    requires |slots| == SlotsTo(fields, |fields|)
    requires DecodeLoop(fields, slots, a, seen).Some? && !DecodeLoop(fields, slots, a, seen).value.terminated
    ensures var mid := DecodeLoop(fields, slots, a, seen).value;
            DecodeLoop(fields, slots, a + b, seen) == DecodeLoop(fields, mid.slots, b, mid.seen)
    decreases |a|
  {
    hide ReadVarint32;
    hide Skip;
    hide DecodeField;
    hide SlotOf;
    hide SetSlot;
    hide Saw;
    hide FindTag;
    if a == [] {
      assert a + b == b;
    } else {
      Varint32Stable(a, b);
      var (key, rest) := ReadVarint32(a).value;
      var found := FindTag(fields, key / 8);
      if found.None? {
        SkipStable(key % 8, rest, b);
        LoopConcat(fields, slots, Skip(key % 8, rest).value, b, seen);
      } else {
        var i := found.value;
        FieldStable(fields[i], SlotOf(fields, slots, i), key % 8, rest, b);
        var (slot, rest') := DecodeField(fields[i], SlotOf(fields, slots, i), key % 8, rest).value;
        LoopConcat(fields, SetSlot(fields, slots, i, slot), rest', b, Saw(fields, i, seen));
      }
    }
  }

  /** Which required fields were seen before only adds to those seen. */
  lemma {:induction false} SeenAdds(fields: seq<Field>, slots: seq<Slot>, s: seq<byte>, seen: set<nat>, more: set<nat>)
    requires |slots| == SlotsTo(fields, |fields|)
    ensures DecodeLoop(fields, slots, s, seen + more) ==
              match DecodeLoop(fields, slots, s, seen)
              case None => None
              case Some(out) => Some(out.(seen := out.seen + more))
    decreases |s|
  {
    hide ReadVarint32;
    hide Skip;
    hide DecodeField;
    hide SlotOf;
    hide SetSlot;
    hide FindTag;
    hide RequiredBefore;
    if s != [] && ReadVarint32(s).Some? && ReadVarint32(s).value.0 != 0 {
      var (key, rest) := ReadVarint32(s).value;
      var found := FindTag(fields, key / 8);
      if found.None? {
        if Skip(key % 8, rest).Some? {
          SeenAdds(fields, slots, Skip(key % 8, rest).value, seen, more);
        }
      } else {
        var i := found.value;
        var decoded := DecodeField(fields[i], SlotOf(fields, slots, i), key % 8, rest);
        if decoded.Some? {
          assert Saw(fields, i, seen + more) == Saw(fields, i, seen) + more;
          SeenAdds(fields, SetSlot(fields, slots, i, decoded.value.0), decoded.value.1, Saw(fields, i, seen), more);
        }
      }
    }
  }

  /**
   If decoding a into a struct uses all of a (by running out, not by meeting a zero tag) and
   decoding b into the result succeeds, decoding a and b in one go succeeds with the same result.
   */
  lemma DecodeConcat(fields: seq<Field>, slots: seq<Slot>, a: seq<byte>, b: seq<byte>)
    requires |slots| == SlotsTo(fields, |fields|) && DecodeNoInit(fields, slots, a).Some?
    requires !DecodeLoop(fields, slots, a, {}).value.terminated
    requires DecodeNoInit(fields, DecodeNoInit(fields, slots, a).value.0, b).Some?
    ensures DecodeNoInit(fields, slots, a + b) == DecodeNoInit(fields, DecodeNoInit(fields, slots, a).value.0, b)
  {
    hide DecodeLoop;
    var mid := DecodeLoop(fields, slots, a, {}).value;
    LoopConcat(fields, slots, a, b, {});
    SeenAdds(fields, mid.slots, b, {}, mid.seen);
    assert {} + mid.seen == mid.seen;
  }

  /** One field the descriptor does not have, well-formed and complete. */
  predicate UnknownField(fields: seq<Field>, u: seq<byte>) {
    && ReadVarint32(u).Some?
    && var (key, payload) := ReadVarint32(u).value;
       key >= 8 && FindTag(fields, key / 8).None? && Skip(key % 8, payload) == Some([])
  }

  lemma UnknownSkipped(fields: seq<Field>, slots: seq<Slot>, u: seq<byte>, seen: set<nat>)
    requires |slots| == SlotsTo(fields, |fields|) && UnknownField(fields, u)
    ensures DecodeLoop(fields, slots, u, seen) == Some(Outcome(slots, [], seen, false))
  {
    hide ReadVarint32;
    hide Skip;
    hide FindTag;
    assert DecodeLoop(fields, slots, [], seen) == Some(Outcome(slots, [], seen, false));
  }

  /** Inserting an unknown field where one top-level field ends and the next begins changes nothing. */
  lemma UnknownInserted(fields: seq<Field>, slots: seq<Slot>, a: seq<byte>, u: seq<byte>, b: seq<byte>)
    requires |slots| == SlotsTo(fields, |fields|) && UnknownField(fields, u)
    requires DecodeLoop(fields, slots, a, {}).Some? && !DecodeLoop(fields, slots, a, {}).value.terminated
    ensures DecodeNoInit(fields, slots, a + u + b) == DecodeNoInit(fields, slots, a + b)
  {
    hide DecodeLoop;
    hide UnknownField;
    var mid := DecodeLoop(fields, slots, a, {}).value;
    LoopConcat(fields, slots, a, b, {});
    LoopConcat(fields, slots, a, u, {});
    UnknownSkipped(fields, mid.slots, u, mid.seen);
    LoopConcat(fields, slots, a + u, b, {});
  }

  /** Any number of them, one after another. */
  lemma {:induction false} UnknownsInserted(fields: seq<Field>, slots: seq<Slot>, a: seq<byte>,
                                            us: seq<seq<byte>>, b: seq<byte>)
    requires |slots| == SlotsTo(fields, |fields|) && forall k | 0 <= k < |us| :: UnknownField(fields, us[k])
    requires DecodeLoop(fields, slots, a, {}).Some? && !DecodeLoop(fields, slots, a, {}).value.terminated
    ensures DecodeNoInit(fields, slots, a + Joined(us) + b) == DecodeNoInit(fields, slots, a + b)
    decreases |us|
  {
    hide DecodeLoop;
    hide DecodeNoInit;
    hide UnknownField;
    if us == [] {
      assert a + [] + b == a + b;
    } else {
      UnknownInserted(fields, slots, a, us[0], Joined(us[1..]) + b);
      UnknownsInserted(fields, slots, a, us[1..], b);
      assert a + (us[0] + Joined(us[1..])) + b == a + us[0] + (Joined(us[1..]) + b);
      assert a + Joined(us[1..]) + b == a + (Joined(us[1..]) + b);
    }
  }

  function Joined(parts: seq<seq<byte>>): seq<byte> {
    if parts == [] then [] else parts[0] + Joined(parts[1..])
  }

  // ---- Required fields --------------------------------------------------------------------------

  /** The fields whose keys the loop meets, at the top level of the message. */
  function Met(fields: seq<Field>, slots: seq<Slot>, s: seq<byte>): set<nat>
    requires |slots| == SlotsTo(fields, |fields|)
    decreases |s|
  {
    if s == [] || ReadVarint32(s).None? then {}
    else
      var (key, rest) := ReadVarint32(s).value;
      if key == 0 then {}
      else
        match FindTag(fields, key / 8)
        case None => if Skip(key % 8, rest).None? then {} else Met(fields, slots, Skip(key % 8, rest).value)
        case Some(i) =>
          var decoded := DecodeField(fields[i], SlotOf(fields, slots, i), key % 8, rest);
          {i} + if decoded.None? then {} else Met(fields, SetSlot(fields, slots, i, decoded.value.0), decoded.value.1)
  }

  lemma {:induction false} SeenWereMet(fields: seq<Field>, slots: seq<Slot>, s: seq<byte>, seen: set<nat>, i: nat)
    requires |slots| == SlotsTo(fields, |fields|) && DecodeLoop(fields, slots, s, seen).Some?
    requires i < |fields| && fields[i].rule.Required? && RequiredBefore(fields, i) < PB_MAX_REQUIRED_FIELDS
    ensures RequiredBefore(fields, i) in DecodeLoop(fields, slots, s, seen).value.seen <==>
              RequiredBefore(fields, i) in seen || i in Met(fields, slots, s)
    decreases |s|
  {
    hide ReadVarint32;
    hide Skip;
    hide DecodeField;
    hide SlotOf;
    hide SetSlot;
    hide FindTag;
    hide RequiredBefore;
    if s != [] && ReadVarint32(s).value.0 != 0 {
      var (key, rest) := ReadVarint32(s).value;
      var found := FindTag(fields, key / 8);
      if found.None? {
        SeenWereMet(fields, slots, Skip(key % 8, rest).value, seen, i);
      } else {
        var k := found.value;
        var (slot, rest') := DecodeField(fields[k], SlotOf(fields, slots, k), key % 8, rest).value;
        SeenWereMet(fields, SetSlot(fields, slots, k, slot), rest', Saw(fields, k, seen), i);
        if i != k && fields[k].rule.Required? { NumbersApart(fields, i, k); }
      }
    }
  }

  /** Different required fields have different numbers. */
  lemma NumbersApart(fields: seq<Field>, i: nat, k: nat)
    requires i < |fields| && k < |fields| && i != k && fields[i].rule.Required? && fields[k].rule.Required?
    ensures RequiredBefore(fields, i) != RequiredBefore(fields, k)
  {
    RequiredMonotone(fields, if i < k then i else k, if i < k then k else i);
  }

  /**
   A message that decodes has met every one of the first 64 required fields, and one that parses is
   refused exactly when it has not met one of them.
   */
  lemma RequiredFieldsMet(fields: seq<Field>, slots: seq<Slot>, s: seq<byte>)
    requires |slots| == SlotsTo(fields, |fields|) && DecodeLoop(fields, slots, s, {}).Some?
    ensures DecodeNoInit(fields, slots, s).Some? <==>
              forall i | 0 <= i < |fields| && fields[i].rule.Required?
                         && RequiredBefore(fields, i) < PB_MAX_REQUIRED_FIELDS :: i in Met(fields, slots, s)
  {
    hide DecodeLoop;
    hide Met;
    var seen := DecodeLoop(fields, slots, s, {}).value.seen;
    forall i | 0 <= i < |fields| && fields[i].rule.Required? && RequiredBefore(fields, i) < PB_MAX_REQUIRED_FIELDS
      ensures RequiredBefore(fields, i) in seen <==> i in Met(fields, slots, s)
      ensures RequiredBefore(fields, i) < CheckedCount(fields)
    {
      SeenWereMet(fields, slots, s, {}, i);
      RequiredInRange(fields, i);
    }
    if !AllSeen(fields, seen) {
      var n: nat :| n < CheckedCount(fields) && n !in seen;
      var i := RequiredOnto(fields, |fields|, n);
    } else {
      forall i | 0 <= i < |fields| && fields[i].rule.Required? && RequiredBefore(fields, i) < PB_MAX_REQUIRED_FIELDS
        ensures i in Met(fields, slots, s)
      {
        assert RequiredBefore(fields, i) in seen;
      }
    }
  }
}
