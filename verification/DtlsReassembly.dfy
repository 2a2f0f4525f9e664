/**
 One incoming handshake message under reassembly: hm_fragment, dtls1_hm_fragment_new, bit_range
 and dtls1_hm_fragment_mark.  The message bytes and the bitmask of received bytes are arrays
 updated in place; the abstract value is the map from offsets received to the bytes received
 there.
 */
module DtlsReassembly {
  import opened Bits
  import opened Bytes
  import opened DtlsFragment

  /** bit_range: an octet with bits start (inclusive) to end (exclusive) set, computed on 32-bit words. */
  function BitRange(start: nat, end: nat): nat
    requires start <= 8 && end <= 8
  {
    Pow2Octet(start);
    And(Not32(Pow2(start) - 1), Pow2(end) - 1) % 256
  }

  lemma Pow2Octet(k: nat)
    requires k <= 8
    ensures Pow2(k) <= 256
  {
    assert Pow2(8) == 256;
    Pow2Monotone(k, 8);
  }

  lemma BitRangeBits(start: nat, end: nat, i: nat)
    requires start <= 8 && end <= 8
    ensures BitRange(start, end) < 256
    ensures Bit(BitRange(start, end), i) <==> start <= i < end
  {
    Pow2Octet(start);
    var x, y := Pow2(start) - 1, Pow2(end) - 1;
    assert Pow2(8) == 256;
    BitMod(And(Not32(x), y), 8, i);
    BitAnd(Not32(x), y, i);
    BitNot32(x, i);
    BitOnes(start, i);
    BitOnes(end, i);
  }

  /** The offsets in [start, end). */
  function Range(start: nat, end: nat): (r: set<nat>)
    ensures forall k: nat :: k in r <==> start <= k < end
    decreases end - start
  {
    if start >= end then {} else {start} + Range(start + 1, end)
  }

  /** An octet is equal to another as soon as its eight bits are. */
  lemma OctetExtensional(x: nat, y: nat)
    requires x < 256 && y < 256
    requires forall i: nat | i < 8 :: Bit(x, i) == Bit(y, i)
    ensures x == y
  {
    assert Pow2(8) == 256;
    forall i: nat ensures Bit(x, i) == Bit(y, i) {
      if i >= 8 {
        BitAboveWidth(x, 8, i);
        BitAboveWidth(y, 8, i);
      }
    }
    Extensional(x, y);
  }

  /** Bit k of a bitmask: bit k mod 8 of octet k / 8. */
  predicate MaskBit(mask: seq<byte>, k: nat)
    requires k / 8 < |mask|
  {
    Bit(mask[k / 8], k % 8)
  }

  /** What is known of a message: the bytes received, by offset into the body. */
  datatype Partial = Partial(typ: byte, seqNum: nat, msgLen: nat, bytes: map<nat, byte>) {
    ghost predicate Complete() {
      bytes.Keys == Range(0, msgLen)
    }

    /** The message as a single fragment, header included. */
    ghost function Raw(): (s: seq<byte>)
      requires Complete()
    {
      Header(typ, msgLen, seqNum, 0, msgLen).Write() + Body()
    }

    ghost function Body(): (s: seq<byte>)
      requires Complete()
      ensures |s| == msgLen
    {
      seq(msgLen, i requires 0 <= i < msgLen => bytes[i])
    }
  }

  /** The bytes of a fragment at their offsets in the message. */
  function Placed(off: nat, body: seq<byte>): (m: map<nat, byte>)
    ensures m.Keys == Range(off, off + |body|)
    ensures forall k: nat | off <= k < off + |body| :: m[k] == body[k - off]
  {
    map k: nat {:trigger k in Range(off, off + |body|)} | k in Range(off, off + |body|) :: body[k - off]
  }

  /** The bitmask holds exactly the offsets in got; in particular the padding bits are clear. */
  ghost predicate MaskHolds(mask: seq<byte>, msgLen: nat, got: set<nat>) {
    && |mask| == (msgLen + 7) / 8
    && forall k: nat | k < 8 * |mask| :: MaskBit(mask, k) <==> k in got
  }

  class HmFragment {
    const typ: byte
    const seqNum: nat
    const msgLen: nat
    const data: array<byte>
    var reassembly: array?<byte>
    ghost var got: set<nat>   // the offsets received so far
    ghost var abs: Partial    // the bytes received, whatever the unwritten memory holds

    ghost function Repr(): set<object>
      reads this
    {
      {this, data} + (if reassembly == null then {} else {reassembly})
    }

    /** The bitmask is kept while something is missing, and then holds exactly what was received. */
    ghost predicate MaskValid()
      reads this, reassembly
    {
      && got <= Range(0, msgLen)
      && ((reassembly == null) <==> got == Range(0, msgLen))
      && (reassembly != null ==> MaskHolds(reassembly[..], msgLen, got))
    }

    ghost predicate Valid()
      reads Repr()
    {
      && msgLen < U24 && seqNum < U16
      && reassembly != data
      && data.Length == HM_HEADER_LENGTH + msgLen
      && data[..HM_HEADER_LENGTH] == Header(typ, msgLen, seqNum, 0, msgLen).Write()
      && MaskValid()
      && abs.typ == typ && abs.seqNum == seqNum && abs.msgLen == msgLen && abs.bytes.Keys == got
      && forall k: nat | k in got :: data[HM_HEADER_LENGTH + k] == abs.bytes[k]
    }

    /** A complete message's array is the message as one fragment. */
    lemma CompleteRaw()
      requires Valid() && reassembly == null
      ensures abs.Complete() && data[..] == abs.Raw()
    {
      forall k: nat | k < msgLen ensures data[HM_HEADER_LENGTH..][k] == abs.Body()[k] {
        assert k in got;
      }
      assert data[HM_HEADER_LENGTH..] == abs.Body();
      assert data[..] == data[..HM_HEADER_LENGTH] + data[HM_HEADER_LENGTH..];
    }

    /** dtls1_hm_fragment_new. */
    constructor (hdr: Header)
      requires hdr.Fits()
      ensures Valid() && fresh(Repr())
      ensures abs == Partial(hdr.typ, hdr.seqNum, hdr.msgLen, map[])
    {
      typ, seqNum, msgLen := hdr.typ, hdr.seqNum, hdr.msgLen;
      abs := Partial(hdr.typ, hdr.seqNum, hdr.msgLen, map[]);
      got := {};
      var d := new byte[HM_HEADER_LENGTH + hdr.msgLen];
      CopyInto(d, 0, Header(hdr.typ, hdr.msgLen, hdr.seqNum, 0, hdr.msgLen).Write());
      data := d;
      var r: array?<byte> := null;
      if hdr.msgLen > 0 {
        r := new byte[(hdr.msgLen + 7) / 8](_ => 0);
        forall k: nat | k < 8 * r.Length ensures !MaskBit(r[..], k) {
          BitOfZero(k % 8);
        }
        assert 0 in Range(0, hdr.msgLen);
      }
      reassembly := r;
    }

    /**
     dtls1_hm_fragment_mark: record [start, end) as received, releasing the bitmask once nothing
     is missing.  A call outside the message, or on a complete one, changes nothing.
     */
    method Mark(start: nat, end: nat)
      requires MaskValid()
      modifies this`reassembly, this`got, reassembly
      ensures MaskValid()
      ensures reassembly == old(reassembly) || reassembly == null
      ensures got == if old(reassembly) != null && start <= end <= msgLen then old(got) + Range(start, end) else old(got)
    {
      if reassembly == null || start > end || end > msgLen {
        return;
      }
      if start == end {
        assert Range(start, end) == {};
        return;
      }
      got := got + Range(start, end);
      SetRange(reassembly, msgLen, start, end);
      assert MaskHolds(reassembly[..], msgLen, got);
      var full := IsFull(reassembly, msgLen, got);
      if full {
        reassembly := null;
      }
    }

    /** Copy a fragment's body to its offset and mark it: the loop body of dtls1_open_handshake. */
    method AddBody(off: nat, body: seq<byte>)
      requires Valid() && reassembly != null && off + |body| <= msgLen
      modifies Repr()
      ensures Valid() && Repr() <= old(Repr())
      ensures abs == old(abs).(bytes := old(abs).bytes + Placed(off, body))
    {
      StoreBody(off, body);
      label stored:
      Mark(off, off + |body|);
      abs := abs.(bytes := abs.bytes + Placed(off, body));
      assert data[..] == old@stored(data[..]);
      forall k: nat | k in got ensures data[HM_HEADER_LENGTH + k] == abs.bytes[k] {
        assert data[HM_HEADER_LENGTH + k] == old@stored(data[HM_HEADER_LENGTH + k]);
      }
    }

    method StoreBody(off: nat, body: seq<byte>)
      requires data.Length == HM_HEADER_LENGTH + msgLen && off + |body| <= msgLen
      modifies data
      ensures data[..HM_HEADER_LENGTH] == old(data[..HM_HEADER_LENGTH])
      ensures forall k: nat | k < msgLen ::
                data[HM_HEADER_LENGTH + k] ==
                  if k in Placed(off, body) then Placed(off, body)[k] else old(data[HM_HEADER_LENGTH + k])
    {
      CopyInto(data, HM_HEADER_LENGTH + off, body);
    }
  }

  /** Or the bits of bit_range(from, to) into one octet of the bitmask. */
  method OrOctet(mask: array<byte>, i: nat, from: nat, to: nat)
    requires i < mask.Length && from <= 8 && to <= 8
    modifies mask
    ensures forall j | 0 <= j < mask.Length && j != i :: mask[j] == old(mask[j])
    ensures forall b: nat | b < 8 :: Bit(mask[i], b) <==> old(Bit(mask[i], b)) || from <= b < to
    ensures forall k: nat | k < 8 * mask.Length ::
              MaskBit(mask[..], k) <==> MaskBit(old(mask[..]), k) || 8 * i + from <= k < 8 * i + to
  {
    var old_i := mask[i];
    BitRangeBits(from, to, 0);
    assert Pow2(8) == 256;
    OrBound(old_i, BitRange(from, to), 8);
    mask[i] := Or(old_i, BitRange(from, to));
    forall b: nat | b < 8 ensures Bit(mask[i], b) <==> Bit(old_i, b) || from <= b < to {
      BitOr(old_i, BitRange(from, to), b);
      BitRangeBits(from, to, b);
    }
  }

  /** Sets whole octets. */
  method FillOctets(mask: array<byte>, from: nat, to: nat)
    requires from <= to <= mask.Length
    modifies mask
    ensures forall k: nat | k < 8 * mask.Length ::
              MaskBit(mask[..], k) <==> MaskBit(old(mask[..]), k) || 8 * from <= k < 8 * to
  {
    var i := from;
    while i < to
      invariant from <= i <= to
      invariant forall k: nat | k < 8 * mask.Length ::
                  MaskBit(mask[..], k) <==> MaskBit(old(mask[..]), k) || 8 * from <= k < 8 * i
    {
      mask[i] := 0xff;
      forall b: nat | b < 8 ensures Bit(0xff, b) {
        assert Pow2(8) - 1 == 0xff;
        BitOnes(8, b);
      }
      i := i + 1;
    }
  }

  /** The three-part update of the bitmask: a partial octet, whole octets, a partial octet. */
  method SetRange(mask: array<byte>, msgLen: nat, start: nat, end: nat)
    requires start < end <= msgLen && mask.Length == (msgLen + 7) / 8
    modifies mask
    ensures forall k: nat | k < 8 * mask.Length ::
              MaskBit(mask[..], k) <==> MaskBit(old(mask[..]), k) || start <= k < end
  {
    if start / 8 == end / 8 {
      OrOctet(mask, start / 8, start % 8, end % 8);
    } else {
      OrOctet(mask, start / 8, start % 8, 8);
      FillOctets(mask, start / 8 + 1, end / 8);
      if end % 8 != 0 {
        OrOctet(mask, end / 8, 0, end % 8);
      }
    }
  }

  /** The completeness scan: every whole octet is 0xff and the last holds exactly the remaining bits. */
  method IsFull(mask: array<byte>, msgLen: nat, ghost got: set<nat>) returns (full: bool)
    requires MaskHolds(mask[..], msgLen, got) && got <= Range(0, msgLen)
    ensures full <==> got == Range(0, msgLen)
  {
    var i := 0;
    while i < msgLen / 8
      invariant 0 <= i <= msgLen / 8
      invariant forall k: nat | k < 8 * i :: k in got
    {
      OctetFull(mask[i]);
      if mask[i] != 0xff {
        ghost var b: nat :| b < 8 && !Bit(mask[i], b);
        DivMod8(i, b);
        assert !MaskBit(mask[..], 8 * i + b);
        return false;
      }
      forall k: nat | 8 * i <= k < 8 * (i + 1) ensures k in got {
        DivMod8(i, k - 8 * i);
        assert Bit(mask[i], k - 8 * i);
        assert MaskBit(mask[..], k);
      }
      i := i + 1;
    }
    if msgLen % 8 != 0 {
      TailFull(mask[..], msgLen, got);
      if mask[msgLen / 8] != BitRange(0, msgLen % 8) {
        return false;
      }
    }
    return true;
  }

  /** The scan's last comparison decides whether the final, partial octet is complete. */
  lemma TailFull(mask: seq<byte>, msgLen: nat, got: set<nat>)
    requires MaskHolds(mask, msgLen, got) && got <= Range(0, msgLen) && msgLen % 8 != 0
    ensures mask[msgLen / 8] == BitRange(0, msgLen % 8) <==>
              forall k: nat | msgLen / 8 * 8 <= k < msgLen :: k in got
  {
    var last, m := msgLen / 8, msgLen % 8;
    var x := mask[last];
    forall b: nat | b < 8 ensures Bit(x, b) <==> 8 * last + b in got {
      DivMod8(last, b);
      assert MaskBit(mask, 8 * last + b) <==> 8 * last + b in got;
    }
    LastOctet(x, m);
    if forall b: nat | b < m :: Bit(x, b) {
      forall k: nat | 8 * last <= k < msgLen ensures k in got {
        assert Bit(x, k - 8 * last);
      }
    } else {
      var b: nat :| b < m && !Bit(x, b);
      assert 8 * last + b !in got;
    }
  }

  lemma DivMod8(i: nat, b: nat)
    requires b < 8
    ensures (8 * i + b) / 8 == i && (8 * i + b) % 8 == b
  {
  }

  /** A last octet with clear padding is bit_range(0, m) exactly when its first m bits are set. */
  lemma LastOctet(x: nat, m: nat)
    requires x < 256 && m <= 8
    requires forall b: nat | m <= b < 8 :: !Bit(x, b)
    ensures x == BitRange(0, m) <==> forall b: nat | b < m :: Bit(x, b)
  {
    var y := BitRange(0, m);
    forall b: nat | b < 8 ensures Bit(y, b) <==> b < m {
      BitRangeBits(0, m, b);
    }
    BitRangeBits(0, m, 0);
    if forall b: nat | b < m :: Bit(x, b) {
      OctetExtensional(x, y);
    }
  }

  lemma BitRangeFromZero(e: nat)
    requires e <= 8
    ensures BitRange(0, e) == Pow2(e) - 1
  {
    forall i: nat ensures Bit(BitRange(0, e), i) <==> i < e {
      BitRangeBits(0, e, i);
    }
    OnesUnique(BitRange(0, e), e);
  }

  lemma OctetFull(x: nat)
    requires x < 256
    ensures x == 0xff <==> forall b: nat | b < 8 :: Bit(x, b)
  {
    var e: nat :| e == 8;
    LastOctet(x, e);
    BitRangeFromZero(e);
    assert Pow2(8) == 256;
  }
}
