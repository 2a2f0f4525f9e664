/**
 The DTLS anti-replay window (section 4.1.2.6 of RFC 6347): DTLS1_BITMAP,
 dtls1_bitmap_should_discard and dtls1_bitmap_record.  Words are 64 bits wide.
 */
module DtlsReplay {
  import opened Bits
  import opened Bytes

  const WINDOW: nat := 64

  datatype Window = Window(map_: nat, max: nat)

  const EMPTY_WINDOW := Window(0, 0)

  /** dtls1_bitmap_should_discard on values. */
  function ShouldDiscard(w: Window, n: nat): bool {
    n <= w.max && (w.max - n >= WINDOW || And(w.map_, Shl(WINDOW, 1, w.max - n)) != 0)
  }

  /** The window moved up, if need be, to end at n. */
  function Slide(w: Window, n: nat): Window {
    if n > w.max then Window(if n - w.max >= WINDOW then 0 else Shl(WINDOW, w.map_, n - w.max), n) else w
  }

  /** dtls1_bitmap_record on values. */
  function Record(w: Window, n: nat): Window {
    var slid := Slide(w, n);
    if slid.max - n < WINDOW then slid.(map_ := Or(slid.map_, Shl(WINDOW, 1, slid.max - n))) else slid
  }

  /** Bit i of the map is set exactly when max - i was accepted, and nothing above max was. */
  ghost predicate Tracks(w: Window, accepted: set<nat>) {
    && w.map_ < Pow2(WINDOW)
    && (forall i: nat | i < WINDOW :: Bit(w.map_, i) <==> i <= w.max && w.max - i in accepted)
    && (forall n: nat | n in accepted :: n <= w.max)
    && (w.max == 0 || w.max in accepted)
  }

  lemma EmptyTracks()
    ensures Tracks(EMPTY_WINDOW, {})
  {
    forall i: nat ensures !Bit(0, i) { BitOfZero(i); }
  }

  /**
   A number is discarded exactly when it was accepted before or is at least 64 below the largest
   accepted; a fresh number newer than that never is.
   */
  lemma DiscardExact(w: Window, accepted: set<nat>, n: nat)
    requires Tracks(w, accepted)
    ensures ShouldDiscard(w, n) <==> n in accepted || n + WINDOW <= w.max
  {
    if n <= w.max && w.max - n < WINDOW {
      ShlOne(WINDOW, w.max - n);
      AndPow2(w.map_, w.max - n);
      assert Bit(w.map_, w.max - n) <==> w.max - (w.max - n) in accepted;
    }
  }

  /** Recording a number that was not to be discarded adds exactly that number. */
  lemma RecordTracks(w: Window, accepted: set<nat>, n: nat)
    requires Tracks(w, accepted) && !ShouldDiscard(w, n)
    ensures Tracks(Record(w, n), accepted + {n})
    ensures Record(w, n).max == if n > w.max then n else w.max
  {
    RecordBit(w, accepted, n, 0);
    forall i: nat | i < WINDOW
      ensures Bit(Record(w, n).map_, i) <==> i <= Record(w, n).max && Record(w, n).max - i in accepted + {n}
    {
      RecordBit(w, accepted, n, i);
    }
  }

  lemma RecordBit(w: Window, accepted: set<nat>, n: nat, i: nat)
    requires Tracks(w, accepted) && !ShouldDiscard(w, n) && i < WINDOW
    ensures var w' := Record(w, n);
            && w'.map_ < Pow2(WINDOW) && w'.max == (if n > w.max then n else w.max)
            && (Bit(w'.map_, i) <==> i <= w'.max && w'.max - i in accepted + {n})
  {
    var slid := Slide(w, n);
    var idx := slid.max - n;
    ShlOne(WINDOW, idx);
    SlideBit(w, accepted, n, i);
    OrBound(slid.map_, Pow2(idx), WINDOW);
    BitOr(slid.map_, Pow2(idx), i);
    BitPow2(idx, i);
    hide Bit;
    hide Slide;
    hide Or;
    hide Pow2;
  }

  lemma SlideBit(w: Window, accepted: set<nat>, n: nat, i: nat)
    requires Tracks(w, accepted) && i < WINDOW
    ensures var slid := Slide(w, n);
            slid.map_ < Pow2(WINDOW) && (Bit(slid.map_, i) <==> i <= slid.max && slid.max - i in accepted)
  {
    hide Bit;
    hide Pow2;
    BitOfZero(i);
    if w.max < n < w.max + WINDOW {
      BitShl(WINDOW, w.map_, n - w.max, i);
    }
  }

  class Bitmap {
    var map_: nat
    var maxSeqNum: nat

    ghost function Abs(): Window
      reads this
    {
      Window(map_, maxSeqNum)
    }

    constructor ()
      ensures Abs() == EMPTY_WINDOW
    {
      map_, maxSeqNum := 0, 0;
    }

    method Discards(seqNum: seq<byte>) returns (discard: bool)
      requires |seqNum| == 8
      ensures discard == ShouldDiscard(Abs(), FromBe(seqNum))
    {
      var n := ToU64(seqNum);
      if n > maxSeqNum {
        return false;
      }
      var idx := maxSeqNum - n;
      return idx >= WINDOW || And(map_, Shl(WINDOW, 1, idx)) != 0;
    }

    method Accept(seqNum: seq<byte>)
      requires |seqNum| == 8
      modifies this
      ensures Abs() == Record(old(Abs()), FromBe(seqNum))
    {
      var n := ToU64(seqNum);
      if n > maxSeqNum {
        var shift := n - maxSeqNum;
        if shift >= WINDOW {
          map_ := 0;
        } else {
          map_ := Shl(WINDOW, map_, shift);
        }
        maxSeqNum := n;
      }
      var idx := maxSeqNum - n;
      if idx < WINDOW {
        map_ := Or(map_, Shl(WINDOW, 1, idx));
      }
    }

    method Reset()
      modifies this
      ensures Abs() == EMPTY_WINDOW
    {
      map_, maxSeqNum := 0, 0;
    }
  }

  /** to_u64_be: shift in one octet at a time. */
  method ToU64(input: seq<byte>) returns (ret: nat)
    requires |input| == 8
    ensures ret == FromBe(input)
  {
    ret := 0;
    for i := 0 to 8
      invariant ret == FromBe(input[..i])
    {
      ShiftInOctet(input[..i], input[i]);
      assert input[..i + 1] == input[..i] + [input[i]];
      ret := Shl(64, ret, 8);
      ret := Or(ret, input[i]);
    }
    assert input[..8] == input;
  }

  /** Shifting an octet into a word with room for it appends the octet to the number's digits. */
  lemma ShiftInOctet(s: seq<byte>, b: byte)
    requires |s| < 8
    ensures Or(Shl(64, FromBe(s), 8), b) == FromBe(s + [b])
  {
    var x := FromBe(s);
    Pow256IsPow2(|s| + 1);
    Pow2Monotone(8 * (|s| + 1), 64);
    assert Pow2(8) == 256;
    ShlOr(64, x, 8, b);
    assert (s + [b])[..|s|] == s;
  }

  lemma {:induction false} Pow256IsPow2(len: nat)
    ensures Pow256(len) == Pow2(8 * len)
  {
    if len > 0 {
      Pow256IsPow2(len - 1);
      Pow2Add(8, 8 * (len - 1));
      assert Pow2(8) == 256;
    }
  }
}
