/** Octets and big-endian integers, as written by the CBB_add_u* and read by the CBS_get_u* helpers. */
module Bytes {
  type byte = b: int | 0 <= b < 256

  function Pow256(len: nat): (p: nat)
    ensures p >= 1
  {
    if len == 0 then 1 else 256 * Pow256(len - 1)
  }

  /** The big-endian encoding of n in len octets (n modulo 256^len). */
  function Be(n: nat, len: nat): (s: seq<byte>)
    ensures |s| == len
  {
    if len == 0 then [] else Be(n / 256, len - 1) + [n % 256]
  }

  function FromBe(s: seq<byte>): (n: nat)
    ensures n < Pow256(|s|)
  {
    if s == [] then 0 else FromBe(s[..|s| - 1]) * 256 + s[|s| - 1]
  }

  lemma {:induction false} FromBeOfBe(n: nat, len: nat)
    requires n < Pow256(len)
    ensures FromBe(Be(n, len)) == n
  {
    if len > 0 {
      FromBeOfBe(n / 256, len - 1);
      assert Be(n, len)[..len - 1] == Be(n / 256, len - 1);
    }
  }

  lemma {:induction false} BeOfFromBe(s: seq<byte>)
    ensures Be(FromBe(s), |s|) == s
  {
    if s != [] {
      var init := s[..|s| - 1];
      BeOfFromBe(init);
      assert FromBe(s) / 256 == FromBe(init);
      assert s == init + [s[|s| - 1]];
    }
  }

  lemma BeInjective(m: nat, n: nat, len: nat)
    requires m < Pow256(len) && n < Pow256(len) && Be(m, len) == Be(n, len)
    ensures m == n
  {
    FromBeOfBe(m, len);
    FromBeOfBe(n, len);
  }

  /** The value of a concatenation. */
  lemma {:induction false} FromBeConcat(s: seq<byte>, t: seq<byte>)
    ensures FromBe(s + t) == FromBe(s) * Pow256(|t|) + FromBe(t)
    decreases |t|
  {
    if t == [] {
      assert s + t == s;
    } else {
      var init, last := t[..|t| - 1], t[|t| - 1];
      FromBeConcat(s, init);
      assert (s + t)[..|s + t| - 1] == s + init;
      Horner(FromBe(s), Pow256(|init|), FromBe(init));
    }
  }

  lemma Horner(a: nat, p: nat, b: nat)
    ensures (a * p + b) * 256 == a * (256 * p) + b * 256
  {
  }

  /** memcpy of a sequence into an array. */
  method CopyInto(dst: array<byte>, at: nat, src: seq<byte>)
    requires at + |src| <= dst.Length
    modifies dst
    ensures forall j | 0 <= j < dst.Length ::
              dst[j] == if at <= j < at + |src| then src[j - at] else old(dst[j])
  {
    for i := 0 to |src|
      invariant forall j | 0 <= j < dst.Length ::
                  dst[j] == if at <= j < at + i then src[j - at] else old(dst[j])
    {
      dst[at + i] := src[i];
    }
  }
}
