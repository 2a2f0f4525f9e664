/**
 What a field makes of a number or of octets on the wire, for all of them: the number that the field's width
 has for it, or a refusal; and octets whole, or a refusal.
 */
module PbNumbers {
  import opened Wrappers
  import opened Bytes
  import opened PbWire
  import opened PbStream
  import opened PbTypes
  import opened PbEncode
  import opened PbDecode
  import opened PbNested

  // ---- Numbers ----------------------------------------------------------------------------------

  predicate InField(f: Field, n: int) {
    SignedLimit(f.dataSize).Some? && -SignedLimit(f.dataSize).value <= n < SignedLimit(f.dataSize).value
  }

  /** The two numbers agree in the bits that a signed field looks at: 64 of them for eight octets, else 32. */
  predicate Agree(f: Field, n: int, v: int) {
    if f.dataSize == 8 then (n - v) % U64 == 0 else (n - v) % U32 == 0
  }

  lemma AgreeOnce(f: Field, a: int, b: int, v: int)
    requires Agree(f, a, v) && Agree(f, b, v)
    requires if f.dataSize == 8 then -I64 <= a < I64 && -I64 <= b < I64
             else -0x8000_0000 <= a < 0x8000_0000 && -0x8000_0000 <= b < 0x8000_0000
    ensures a == b
  {
  }

  /** A signed field takes the number of its width that agrees with the one on the wire, and refuses if none does. */
  lemma SignedExact(f: Field, v: nat, rest: seq<byte>)
    requires f.kind.Signed? && v < U64
    ensures var r := ReadScalar(f, Varint(v) + rest);
            if r.Some? then r.value.1 == rest && InField(f, r.value.0) && Agree(f, r.value.0, v)
            else forall n: int | InField(f, n) :: !Agree(f, n, v)
  {
    hide ReadVarint, Varint;
    ReadOfVarint(v, rest);
    var w := if f.dataSize == 8 then ToS64(v) else ToS32(v % U32);
    assert Agree(f, w, v);
    forall n: int | InField(f, n) && Agree(f, n, v) ensures n == w { AgreeOnce(f, n, w, v); }
  }

  /**
   A negative number of a narrow field is read back whether the peer sent it in 64 bits, as it should, or cast
   to 32 bits first.
   */
  lemma BothEncodings(f: Field, n: int, rest: seq<byte>)
    requires f.kind.Signed? && InField(f, n)
    ensures ReadScalar(f, Varint(ToU64(n)) + rest) == Some((n, rest))
    ensures f.dataSize < 8 ==> ReadScalar(f, Varint(n % U32) + rest) == Some((n, rest))
  {
    hide ReadScalar, Varint;
    SignedExact(f, ToU64(n), rest);
    assert Agree(f, n, ToU64(n));
    forall m: int | InField(f, m) && Agree(f, m, ToU64(n)) ensures m == n { AgreeOnce(f, m, n, ToU64(n)); }
    if f.dataSize < 8 {
      SignedExact(f, n % U32, rest);
      assert Agree(f, n, n % U32);
      forall m: int | InField(f, m) && Agree(f, m, n % U32) ensures m == n { AgreeOnce(f, m, n, n % U32); }
    }
  }

  /** A signed field gets the number that was sent if and only if its width has that number. */
  lemma SentIsRead(f: Field, sent: int, rest: seq<byte>)
    requires f.kind.Signed? && -I64 <= sent < I64
    ensures ReadScalar(f, Varint(ToU64(sent)) + rest) == Some((sent, rest)) <==> InField(f, sent)
  {
    hide ReadScalar, Varint;
    if InField(f, sent) { BothEncodings(f, sent, rest); }
    SignedExact(f, ToU64(sent), rest);
  }

  /** The check for overflow does not see what the cast to 32 bits took away: 2^32 is read as zero. */
  lemma HighBitsLost(f: Field, rest: seq<byte>)
    requires f.kind.Signed? && f.dataSize in {1, 2, 4}
    ensures ReadScalar(f, Varint(U32) + rest) == Some((0, rest))
  {
    hide ReadVarint, Varint;
    ReadOfVarint(U32, rest);
  }

  /** An unsigned field and a ZigZag field take a number if and only if their width has it, and unchanged. */
  lemma UnsignedExact(f: Field, v: nat, rest: seq<byte>)
    requires f.kind.Unsigned? && v < U64
    ensures ReadScalar(f, Varint(v) + rest)
            == if f.dataSize in {1, 2, 4, 8} && v < Pow256(f.dataSize) then Some((v, rest)) else None
  {
    hide ReadVarint, Varint;
    ReadOfVarint(v, rest);
    assert Pow256(1) == 0x100 && Pow256(2) == 0x1_0000 && Pow256(4) == U32;
    assert Pow256(8) == 256 * 256 * 256 * 256 * Pow256(4);
  }

  lemma ZigZagExact(f: Field, n: int, rest: seq<byte>)
    requires f.kind.ZigZagged? && -I64 <= n < I64
    ensures ReadScalar(f, Varint(if n < 0 then -2 * n - 1 else 2 * n) + rest)
            == if InField(f, n) then Some((n, rest)) else None
  {
    hide ReadVarint, Varint, UnZigZag, ZigZag;
    ZigZagInverse(n, 0);
    ReadOfVarint(ZigZag(n), rest);
  }

  // ---- Octets -----------------------------------------------------------------------------------

  /** Whether octets of this length have room: a terminator or a length comes on top, or the length is fixed. */
  predicate HasRoom(f: Field, len: nat) {
    if f.kind.FixedBytes? then (len == 0 || len == f.dataSize) && len <= PB_SIZE_MAX
    else len < f.dataSize && (f.kind.ByteArray? ==> len <= PB_SIZE_MAX)
  }

  /** Octets are stored whole or refused, never cut; no octets at all clear a field of fixed length. */
  lemma OctetsWhole(f: Field, held: Value, body: seq<byte>, rest: seq<byte>)
    requires f.kind.ByteArray? || f.kind.CString? || f.kind.FixedBytes?
    requires |body| < U32
    ensures DecodeValue(f, held, Prefixed(body) + rest)
            == if !HasRoom(f, |body|) then None
               else if f.kind.FixedBytes? && body == [] then Some((Blob(Zeros(f.dataSize)), rest))
               else Some((Blob(body), rest))
  {
    hide ReadString;
    PrefixedGives(body, rest);
  }
}
