/**
 The scalar wire formats of Protocol Buffers as nanopb reads and writes them: varints, ZigZag and
 little-endian fixed-width integers.  A reader takes the octets still unread and gives the value
 and what is left, or None where the code reports an error.
 */
module PbWire {
  import opened Wrappers
  import opened Bits
  import opened Bytes

  const U32: int := 0x1_0000_0000
  const U64: int := 0x1_0000_0000_0000_0000
  const I64: int := 0x8000_0000_0000_0000

  type Read<T> = Option<(T, seq<byte>)>

  // ---- 64-bit varints -------------------------------------------------------------------------

  /** The canonical encoding: seven bits at a time, low first, the top bit marking continuation. */
  function Varint(v: nat): (s: seq<byte>)
    ensures |s| >= 1
  {
    if v < 128 then [v] else [v % 128 + 128] + Varint(v / 128)
  }

  /** The loop of pb_decode_varint from bit position bitpos on. */
  function VarintFrom(s: seq<byte>, bitpos: nat, acc: nat): (r: Read<nat>)
    ensures r.Some? ==> |r.value.1| < |s|
    decreases |s|
  {
    if bitpos >= 64 || s == [] then None
    else
      var acc' := Or(acc, Shl(64, s[0] % 128, bitpos));
      if s[0] < 128 then Some((acc', s[1..])) else VarintFrom(s[1..], bitpos + 7, acc')
  }

  function ReadVarint(s: seq<byte>): (r: Read<nat>)
    ensures r.Some? ==> |r.value.1| < |s|
  {
    VarintFrom(s, 0, 0)
  }

  /** The first octet of an encoding and what follows it. */
  lemma VarintFront(v: nat, rest: seq<byte>)
    ensures var s := Varint(v) + rest;
            if v < 128 then s[0] == v && s[1..] == rest
            else s[0] == v % 128 + 128 && s[1..] == Varint(v / 128) + rest
  {
    if v >= 128 {
      assert Varint(v) + rest == [v % 128 + 128] + (Varint(v / 128) + rest);
    }
  }

  /** v at a bit position. */
  function Place(v: nat, bitpos: nat): nat {
    v * Pow2(bitpos)
  }

  /** Adding a seven-bit group above the bits collected so far. */
  lemma AddGroup(width: nat, acc: nat, group: nat, bitpos: nat)
    requires acc < Pow2(bitpos) && group < 128 && Place(group, bitpos) < Pow2(width)
    ensures Or(acc, Shl(width, group, bitpos)) == acc + Place(group, bitpos) < Pow2(bitpos + 7)
  {
    OrCommutes(acc, Shl(width, group, bitpos));
    ShlOr(width, group, bitpos, acc);
    Pow2Add(bitpos, 7);
    assert Pow2(7) == 128;
    GroupBound(group, Pow2(bitpos));
  }

  lemma GroupBound(group: nat, p: nat)
    requires group < 128
    ensures group * p + p <= p * 128
  {
  }

  /** Splitting off the low group: v * p = (v mod 128) * p + (v / 128) * (p * 128). */
  lemma SplitGroup(v: nat, p: nat)
    ensures v * p == v % 128 * p + v / 128 * (p * 128)
    ensures v % 128 * p <= v * p
  {
    var q, r := v / 128, v % 128;
    assert v == q * 128 + r;
    Regroup(q, r, p);
  }

  lemma Regroup(q: nat, r: nat, p: nat)
    ensures (q * 128 + r) * p == r * p + q * (p * 128)
  {
  }

  /** The bit positions of the first groups. */
  lemma GroupPositions()
    ensures Pow2(7) == 0x80 && Pow2(14) == 0x4000 && Pow2(21) == 0x20_0000 && Pow2(28) == 0x1000_0000
  {
    var k: nat :| k == 7;
    assert Pow2(7) == 0x80;
    hide Pow2;
    Pow2Add(k, k);
    Pow2Add(2 * k, k);
    Pow2Add(3 * k, k);
  }

  /** One round of either loop, in arithmetic. */
  lemma Round(width: nat, v: nat, bitpos: nat, acc: nat)
    requires acc < Pow2(bitpos) && Place(v % 128, bitpos) < Pow2(width)
    ensures var acc' := Or(acc, Shl(width, v % 128, bitpos));
            && acc' == acc + Place(v % 128, bitpos) < Pow2(bitpos + 7)
            && acc' + Place(v / 128, bitpos + 7) == acc + Place(v, bitpos)
  {
    hide Or;
    hide Shl;
    SplitGroup(v, Pow2(bitpos));
    AddGroup(width, acc, v % 128, bitpos);
    Pow2Add(bitpos, 7);
    assert Pow2(7) == 128;
  }

  lemma {:induction false} VarintReads(v: nat, bitpos: nat, acc: nat, rest: seq<byte>)
    requires acc < Pow2(bitpos) && acc + Place(v, bitpos) < Pow2(64) && (v > 0 || bitpos < 64)
    ensures VarintFrom(Varint(v) + rest, bitpos, acc) == Some((acc + Place(v, bitpos), rest))
    decreases v
  {
    hide Or;
    hide Shl;
    hide Place;
    hide Pow2;
    PlaceFits(v, bitpos);
    VarintFront(v, rest);
    Round(64, v, bitpos, acc);
    if v >= 128 {
      VarintReads(v / 128, bitpos + 7, acc + Place(v % 128, bitpos), rest);
    } else {
      assert v % 128 == v;
    }
  }

  /** A value that fits 64 bits at a position starts below bit 64, and so does its low group. */
  lemma PlaceFits(v: nat, bitpos: nat)
    requires Place(v, bitpos) < Pow2(64) && (v > 0 || bitpos < 64)
    ensures bitpos < 64 && Place(v % 128, bitpos) < Pow2(64)
  {
    hide Pow2;
    if bitpos >= 64 {
      Pow2Monotone(64, bitpos);
      MulGrows(v, Pow2(bitpos));
    }
    SplitGroup(v, Pow2(bitpos));
  }

  /** Decoding undoes encoding for every 64-bit value. */
  lemma ReadOfVarint(v: nat, rest: seq<byte>)
    requires v < U64
    ensures ReadVarint(Varint(v) + rest) == Some((v, rest))
  {
    Pow2Words();
    assert Pow2(0) == 1;
    VarintReads(v, 0, 0, rest);
  }

  function Pow128(n: nat): (p: nat)
    ensures p >= 1
  {
    if n == 0 then 1 else 128 * Pow128(n - 1)
  }

  lemma {:induction false} VarintLength(v: nat, n: nat)
    requires n >= 1 && v < Pow128(n)
    ensures |Varint(v)| <= n
    decreases n
  {
    if v >= 128 {
      if n > 1 { VarintLength(v / 128, n - 1); }
    }
  }

  /** A 64-bit value takes at most ten octets, the size of the code's buffer. */
  lemma VarintFitsBuffer(v: nat)
    requires v < U64
    ensures |Varint(v)| <= 10
  {
    assert Pow128(5) == 0x8_0000_0000;
    assert Pow128(10) == 128 * 128 * 128 * 128 * 128 * Pow128(5);
    VarintLength(v, 10);
  }

  // ---- 32-bit varints -------------------------------------------------------------------------

  /** pb_decode_varint32_eof's loop: bitpos is an eight-bit counter, and high groups are only checked. */
  function Varint32From(s: seq<byte>, bitpos: nat, acc: nat): (r: Read<nat>)
    ensures r.Some? ==> |r.value.1| < |s|
    decreases |s|
  {
    if s == [] then None
    else
      var b := s[0];
      if bitpos >= 32 && b % 128 != 0 && (acc < 0x8000_0000 || b != SignOctet(bitpos)) then None
      else
        var acc' := if bitpos >= 32 then acc else Or(acc, Shl(32, b % 128, bitpos));
        var bitpos' := (bitpos + 7) % 256;
        if b >= 128 then Varint32From(s[1..], bitpos', acc')
        else if bitpos' == 35 && b / 16 % 8 != 0 then None
        else Some((acc', s[1..]))
  }

  /** What an octet of a sign extension must be at a bit position. */
  function SignOctet(bitpos: nat): byte {
    if bitpos < 63 then 0xff else 0x01
  }

  function ReadVarint32(s: seq<byte>): (r: Read<nat>)
    ensures r.Some? ==> |r.value.1| < |s|
  {
    if s == [] then None
    else if s[0] < 128 then Some((s[0], s[1..]))
    else Varint32From(s[1..], 7, s[0] % 128)
  }

  /** n groups that are each all zeros or all ones, then a final one. */
  predicate SignGroups(w: nat, n: nat) {
    if n == 0 then w == 1 else (w % 128 == 0 || w % 128 == 127) && SignGroups(w / 128, n - 1)
  }

  /**
   Which values the 32-bit reader accepts in their canonical encoding: those of 32 bits, and those
   with bit 31 set whose groups from bit 35 on look like a sign extension (bits 32 to 34 are not
   looked at, and a group of zeros passes for one of ones).
   */
  predicate Accepts32(v: nat) {
    v < U32 || (v / 0x8000_0000 % 2 == 1 && SignGroups(v / 0x8_0000_0000, 4))
  }

  lemma {:induction false} HighGroups(w: nat, n: nat, bitpos: nat, acc: nat, rest: seq<byte>)
    requires n <= 4 && bitpos == 63 - 7 * n && 1 <= w < 2 * Pow128(n)
    ensures Varint32From(Varint(w) + rest, bitpos, acc) ==
              if acc >= 0x8000_0000 && SignGroups(w, n) then Some((acc, rest)) else None
    decreases n
  {
    hide Varint;
    VarintFront(w, rest);
    if n > 0 {
      if w < 128 {
        SmallNotSign(w, n);
      } else {
        HighGroups(w / 128, n - 1, bitpos + 7, acc, rest);
      }
    }
  }

  lemma {:induction false} SmallNotSign(w: nat, n: nat)
    requires w < Pow128(n)
    ensures !SignGroups(w, n)
  {
    if n > 0 { SmallNotSign(w / 128, n - 1); }
  }

  lemma GroupFits(group: nat, bitpos: nat)
    requires group < 128 && bitpos <= 21
    ensures Place(group, bitpos) < Pow2(32)
  {
    hide Pow2;
    Pow2Monotone(bitpos, 21);
    GroupPositions();
    Pow2Words();
    GroupBound(group, Pow2(bitpos));
  }

  /** The rounds at bit positions 7, 14 and 21 collect whole groups. */
  lemma LowGroup(v: nat, bitpos: nat, acc: nat, rest: seq<byte>)
    requires bitpos <= 21 && acc < Pow2(bitpos)
    ensures var acc' := acc + Place(v % 128, bitpos);
            && acc' < Pow2(bitpos + 7)
            && Varint32From(Varint(v) + rest, bitpos, acc) ==
                 if v < 128 then Some((acc', rest)) else Varint32From(Varint(v / 128) + rest, bitpos + 7, acc')
  {
    hide Pow2;
    hide Varint;
    hide Or;
    hide Shl;
    hide SignOctet;
    hide Place;
    VarintFront(v, rest);
    GroupFits(v % 128, bitpos);
    Round(32, v, bitpos, acc);
  }

  /** Shifting a group to bit 28 in 32 bits keeps its low four bits. */
  lemma ShlModWidth(r: nat)
    requires r < 128
    ensures Shl(32, r, 28) == r % 16 * 0x1000_0000
  {
    hide Pow2;
    Pow2Words();
    GroupPositions();
    ModUnique(r * 0x1000_0000, 0x1_0000_0000, r / 16, r % 16 * 0x1000_0000);
  }

  lemma LastOr(acc: nat, r: nat)
    requires acc < 0x1000_0000 && r < 128
    ensures Or(acc, Shl(32, r, 28)) == acc + r % 16 * 0x1000_0000
  {
    hide *;
    ShlModWidth(r);
    GroupPositions();
    OrCommutes(acc, r % 16 * 0x1000_0000);
    OrDisjoint(acc, r % 16, 28);
  }

  /** The round at 28 keeps the low four bits of its group; anything above may only extend the sign. */
  lemma LastGroup(v: nat, bitpos: nat, acc: nat, rest: seq<byte>)
    requires bitpos == 28 && acc < 0x1000_0000 && v < 0x10_0000_0000
    ensures var acc' := acc + v % 128 % 16 * 0x1000_0000;
            Varint32From(Varint(v) + rest, bitpos, acc) ==
              if v < 16 then Some((acc', rest))
              else if v < 128 then None
              else if acc' >= 0x8000_0000 && SignGroups(v / 128, 4) then Some((acc', rest)) else None
  {
    hide Varint;
    hide Or;
    hide Shl;
    hide SignGroups;
    VarintFront(v, rest);
    LastOr(acc, v % 128);
    if v >= 128 {
      assert Pow128(4) == 0x1000_0000;
      HighGroups(v / 128, 4, 35, acc + v % 128 % 16 * 0x1000_0000, rest);
    }
  }

  /** The five groups the reader collects, and what is above them. */
  lemma Groups(v: nat, w1: nat, w2: nat, w3: nat, w4: nat)
    requires w1 == v / 128 && w2 == w1 / 128 && w3 == w2 / 128 && w4 == w3 / 128
    ensures v % U32 == v % 128 + w1 % 128 * 0x80 + w2 % 128 * 0x4000 + w3 % 128 * 0x20_0000 + w4 % 16 * 0x1000_0000
    ensures v / 0x8000_0000 % 2 == w4 / 8 % 2
    ensures v / 0x8_0000_0000 == w4 / 128
  {
    var low := v % 128 + w1 % 128 * 0x80 + w2 % 128 * 0x4000 + w3 % 128 * 0x20_0000;
    assert v == w4 * 0x1000_0000 + low && low < 0x1000_0000;
    HighPart(v, low, w4, 16);
    HighPart(v, low, w4, 8);
    HighPart(v, low, w4, 128);
  }

  lemma HighPart(v: nat, low: nat, w: nat, m: nat)
    requires v == w * 0x1000_0000 + low && low < 0x1000_0000 && m in {8, 16, 128}
    ensures v % (0x1000_0000 * m) == w % m * 0x1000_0000 + low && v / (0x1000_0000 * m) == w / m
  {
    ModUnique(v, 0x1000_0000 * m, w / m, w % m * 0x1000_0000 + low);
  }

  /** From bit 7 on: what has been collected once the reader stops, and whether it accepts. */
  lemma FromBit7(w1: nat, a0: nat, rest: seq<byte>)
    requires a0 < 128 && w1 < 0x200_0000_0000_0000
    ensures var w2 := w1 / 128;
            var w3 := w2 / 128;
            var w4 := w3 / 128;
            var low := a0 + w1 % 128 * 0x80 + w2 % 128 * 0x4000 + w3 % 128 * 0x20_0000 + w4 % 128 % 16 * 0x1000_0000;
            Varint32From(Varint(w1) + rest, 7, a0) ==
              if w4 < 16 || (w4 >= 128 && low >= 0x8000_0000 && SignGroups(w4 / 128, 4)) then Some((low, rest)) else None
  {
    hide Varint;
    hide Varint32From;
    hide SignGroups;
    hide Pow2;
    GroupPositions();
    var w2 := w1 / 128;
    var w3 := w2 / 128;
    var a1 := a0 + w1 % 128 * 0x80;
    var a2 := a1 + w2 % 128 * 0x4000;
    LowGroup(w1, 7, a0, rest);
    if w1 >= 128 {
      LowGroup(w2, 14, a1, rest);
      if w2 >= 128 {
        LowGroup(w3, 21, a2, rest);
        if w3 >= 128 {
          LastGroup(w3 / 128, 28, a2 + w3 % 128 * 0x20_0000, rest);
        }
      }
    }
  }

  /** The 32-bit reader on every canonical encoding of a 64-bit value: exactly what it accepts, and as what. */
  lemma Varint32Exact(v: nat, rest: seq<byte>)
    requires v < U64
    ensures ReadVarint32(Varint(v) + rest) == if Accepts32(v) then Some((v % U32, rest)) else None
  {
    hide Varint;
    hide Varint32From;
    hide Accepts32;
    hide SignGroups;
    VarintFront(v, rest);
    var w1 := v / 128;
    var w2 := w1 / 128;
    var w3 := w2 / 128;
    var w4 := w3 / 128;
    FromBit7(w1, v % 128, rest);
    Groups(v, w1, w2, w3, w4);
    HighBit(w4);
    WhichAccepted(v, w4, v % U32 - w4 % 16 * 0x1000_0000);
  }

  lemma HighBit(w: nat)
    ensures w / 8 % 2 == 1 <==> w % 16 >= 8
    ensures w % 128 % 16 == w % 16
  {
    var q, r := w / 16, w % 16;
    ModUnique(w, 8, 2 * q + r / 8, r % 8);
    ModUnique(w, 16, 8 * (w / 128) + w % 128 / 16, w % 128 % 16);
  }

  lemma WhichAccepted(v: nat, w: nat, low: int)
    requires v % U32 == low + w % 16 * 0x1000_0000 && 0 <= low < 0x1000_0000
    requires v / 0x8000_0000 % 2 == w / 8 % 2 && v / 0x8_0000_0000 == w / 128
    requires v >= U32 <==> w >= 16
    ensures Accepts32(v) <==> w < 16 || (w >= 128 && v % U32 >= 0x8000_0000 && SignGroups(w / 128, 4))
  {
    hide SignGroups;
    SmallNotSign(0, 4);
    HighBit(w);
  }

  /** In particular: small values exactly, sign-extended negatives modulo 2^32, nothing in between. */
  lemma Varint32Ranges(v: nat, rest: seq<byte>)
    requires v < U64
    ensures v < U32 ==> ReadVarint32(Varint(v) + rest) == Some((v, rest))
    ensures U32 <= v < I64 ==> ReadVarint32(Varint(v) + rest) == None
    ensures v >= U64 - 0x8000_0000 ==> ReadVarint32(Varint(v) + rest) == Some((v % U32, rest))
  {
    hide ReadVarint32;
    hide Varint;
    Varint32Exact(v, rest);
    if U32 <= v < I64 {
      BelowSign(v);
    } else if v >= U64 - 0x8000_0000 {
      AllOnes(v);
    }
  }

  /** A 64-bit value that no 32-bit field can hold, and that no negative value extends to, is accepted. */
  lemma GapAccepted(rest: seq<byte>)
    ensures ReadVarint32(Varint(0x8000_0000_8000_0000) + rest) == Some((0x8000_0000, rest))
  {
    hide ReadVarint32;
    hide Varint;
    var v := 0x8000_0000_8000_0000;
    Varint32Exact(v, rest);
    ModUnique(v, 0x8_0000_0000, 0x1000_0000, 0x8000_0000);
    SignBitAlone();
  }

  /** Groups of zeros pass for a sign extension as long as the sign bit itself is there. */
  lemma SignBitAlone()
    ensures SignGroups(0x1000_0000, 4)
  {
    assert SignGroups(0x4000, 2);
  }

  lemma BelowSign(v: nat)
    requires v < I64
    ensures !SignGroups(v / 0x8_0000_0000, 4)
  {
    assert Pow128(4) == 0x1000_0000;
    SmallNotSign(v / 0x8_0000_0000, 4);
  }

  lemma AllOnes(v: nat)
    requires U64 - 0x8000_0000 <= v < U64
    ensures v / 0x8000_0000 % 2 == 1 && SignGroups(v / 0x8_0000_0000, 4)
  {
    ModUnique(v, 0x8000_0000, 0x1_ffff_ffff, v - 0x1_ffff_ffff * 0x8000_0000);
    ModUnique(v, 0x8_0000_0000, 0x1fff_ffff, v - 0x1fff_ffff * 0x8_0000_0000);
    assert SignGroups(0x7fff, 2);
    assert SignGroups(0x1fff_ffff, 4);
  }

  // ---- ZigZag ---------------------------------------------------------------------------------

  /** The two's complement image of a signed value. */
  function ToU64(v: int): (u: nat)
    requires -I64 <= v < U64
    ensures u < U64
  {
    if v < 0 then v + U64 else v
  }

  function ToS64(u: nat): (v: int)
    requires u < U64
    ensures -I64 <= v < I64
  {
    if u < I64 then u else u - U64
  }

  function Not64(u: nat): (r: nat)
    requires u < U64
    ensures r < U64
  {
    U64 - 1 - u
  }

  /** pb_encode_svarint's mapping. */
  function ZigZag(v: int): (u: nat)
    requires -I64 <= v < I64
    ensures u < U64
  {
    if v < 0 then Not64(ToU64(v) * 2 % U64) else v * 2 % U64
  }

  /** pb_decode_svarint's mapping. */
  function UnZigZag(u: nat): (v: int)
    requires u < U64
    ensures -I64 <= v < I64
  {
    if u % 2 == 1 then ToS64(Not64(u / 2)) else ToS64(u / 2)
  }

  /** The two mappings are inverse, and small magnitudes map to small numbers. */
  lemma ZigZagInverse(v: int, u: nat)
    requires -I64 <= v < I64 && u < U64
    ensures UnZigZag(ZigZag(v)) == v && ZigZag(UnZigZag(u)) == u
    ensures ZigZag(v) == if v < 0 then -2 * v - 1 else 2 * v
  {
  }

  // ---- Fixed width ----------------------------------------------------------------------------

  /** Little-endian octets of n. */
  function Le(n: nat, len: nat): (s: seq<byte>)
    ensures |s| == len
  {
    if len == 0 then [] else [n % 256] + Le(n / 256, len - 1)
  }

  function FromLe(s: seq<byte>): (n: nat)
    ensures n < Pow256(|s|)
  {
    if s == [] then 0 else s[0] + 256 * FromLe(s[1..])
  }

  lemma {:induction false} FromLeOfLe(n: nat, len: nat)
    requires n < Pow256(len)
    ensures FromLe(Le(n, len)) == n
  {
    if len > 0 { FromLeOfLe(n / 256, len - 1); }
  }

  function ReadFixed(s: seq<byte>, len: nat): (r: Read<nat>)
    ensures r.Some? ==> |r.value.1| + len == |s|
  {
    if |s| < len then None else Some((FromLe(s[..len]), s[len..]))
  }

  lemma ReadOfFixed(n: nat, len: nat, rest: seq<byte>)
    requires n < Pow256(len)
    ensures ReadFixed(Le(n, len) + rest, len) == Some((n, rest))
  {
    assert (Le(n, len) + rest)[..len] == Le(n, len);
    FromLeOfLe(n, len);
  }
}
