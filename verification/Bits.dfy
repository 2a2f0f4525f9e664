/**
 Bitwise operators on natural numbers, least significant bit first.  The C code works on
 uint8_t, uint32_t and uint64_t words; a word of width w is a natural number below Pow2(w), a
 left shift is a multiplication followed by reduction modulo Pow2(w), and complement is
 Pow2(w) - 1 - x.
 */
module Bits {

  function Pow2(k: nat): (p: nat)
    ensures p >= 1
  {
    if k == 0 then 1 else 2 * Pow2(k - 1)
  }

  /** Whether bit i of x is set. */
  predicate Bit(x: nat, i: nat) {
    HalvesToOdd(x, i)
  }

  predicate HalvesToOdd(x: nat, i: nat)
    decreases i
  {
    if i == 0 then x % 2 == 1 else HalvesToOdd(x / 2, i - 1)
  }

  function And(x: nat, y: nat): nat {
    if x == 0 || y == 0 then 0
    else 2 * And(x / 2, y / 2) + (if x % 2 == 1 && y % 2 == 1 then 1 else 0)
  }

  function Or(x: nat, y: nat): nat
    decreases x + y
  {
    if x == 0 && y == 0 then 0
    else 2 * Or(x / 2, y / 2) + (if x % 2 == 1 || y % 2 == 1 then 1 else 0)
  }

  function Xor(x: nat, y: nat): nat
    decreases x + y
  {
    if x == 0 && y == 0 then 0
    else 2 * Xor(x / 2, y / 2) + (if x % 2 != y % 2 then 1 else 0)
  }

  /** Complement within a word of the given width. */
  function Not(width: nat, x: nat): nat
    requires x < Pow2(width)
  {
    Pow2(width) - 1 - x
  }

  /** Left shift within a word of the given width. */
  function Shl(width: nat, x: nat, k: nat): nat {
    x * Pow2(k) % Pow2(width)
  }

  lemma {:induction false} BitOfZero(i: nat)
    ensures !Bit(0, i)
  {
    if i > 0 { BitOfZero(i - 1); }
  }

  lemma {:induction false} BitAnd(x: nat, y: nat, i: nat)
    ensures Bit(And(x, y), i) <==> Bit(x, i) && Bit(y, i)
    decreases i
  {
    if x == 0 || y == 0 {
      BitOfZero(i);
    } else if i > 0 {
      BitAnd(x / 2, y / 2, i - 1);
      assert And(x, y) / 2 == And(x / 2, y / 2);
    }
  }

  lemma OrStep(x: nat, y: nat)
    requires x > 0 || y > 0
    ensures Or(x, y) / 2 == Or(x / 2, y / 2) && (Or(x, y) % 2 == 1 <==> x % 2 == 1 || y % 2 == 1)
  {
  }

  lemma {:induction false} BitOr(x: nat, y: nat, i: nat)
    ensures Bit(Or(x, y), i) <==> Bit(x, i) || Bit(y, i)
    decreases i
  {
    if x == 0 && y == 0 {
      BitOfZero(i);
    } else {
      OrStep(x, y);
      hide Or;
      if i > 0 { BitOr(x / 2, y / 2, i - 1); }
    }
  }

  lemma {:induction false} BitXor(x: nat, y: nat, i: nat)
    ensures Bit(Xor(x, y), i) <==> Bit(x, i) != Bit(y, i)
    decreases i
  {
    if x == 0 && y == 0 {
      BitOfZero(i);
    } else if i > 0 {
      BitXor(x / 2, y / 2, i - 1);
      assert Xor(x, y) / 2 == Xor(x / 2, y / 2);
    }
  }

  /** A number is determined by its bits. */
  lemma {:induction false} Extensional(x: nat, y: nat)
    requires forall i: nat :: Bit(x, i) == Bit(y, i)
    ensures x == y
    decreases x + y
  {
    assert Bit(x, 0) == Bit(y, 0);
    if x + y > 0 {
      forall i: nat ensures Bit(x / 2, i) == Bit(y / 2, i) {
        assert Bit(x, i + 1) == Bit(y, i + 1);
      }
      Extensional(x / 2, y / 2);
    }
  }

  lemma {:induction false} OrBound(x: nat, y: nat, k: nat)
    requires x < Pow2(k) && y < Pow2(k)
    ensures Or(x, y) < Pow2(k)
    decreases k
  {
    if k > 0 && (x > 0 || y > 0) { OrBound(x / 2, y / 2, k - 1); }
  }

  lemma {:induction false} XorBound(x: nat, y: nat, k: nat)
    requires x < Pow2(k) && y < Pow2(k)
    ensures Xor(x, y) < Pow2(k)
    decreases k
  {
    if k > 0 && (x > 0 || y > 0) { XorBound(x / 2, y / 2, k - 1); }
  }

  lemma {:induction false} AndBound(x: nat, y: nat)
    ensures And(x, y) <= y
  {
    if x > 0 && y > 0 { AndBound(x / 2, y / 2); }
  }

  /** Bits at or above the width of a word are clear. */
  lemma {:induction false} BitAboveWidth(x: nat, k: nat, i: nat)
    requires x < Pow2(k) && k <= i
    ensures !Bit(x, i)
    decreases i
  {
    if k == 0 {
      BitOfZero(i);
    } else {
      BitAboveWidth(x / 2, k - 1, i - 1);
    }
  }

  lemma {:induction false} Pow2Add(a: nat, b: nat)
    ensures Pow2(a + b) == Pow2(a) * Pow2(b)
  {
    if a > 0 {
      Pow2Add(a - 1, b);
      assert Pow2(a + b) == 2 * Pow2(a - 1 + b);
    }
  }

  lemma Pow2Monotone(a: nat, b: nat)
    requires a <= b
    ensures Pow2(a) <= Pow2(b)
  {
    Pow2Add(b - a, a);
    assert Pow2(b) == Pow2(b - a) * Pow2(a);
    MulGrows(Pow2(b - a), Pow2(a));
  }

  lemma MulGrows(m: nat, x: nat)
    requires m >= 1
    ensures x <= m * x
  {
    assert m * x == x + (m - 1) * x;
  }

  lemma {:induction false} BitMul(x: nat, k: nat, i: nat)
    ensures Bit(x * Pow2(k), i) <==> k <= i && Bit(x, i - k)
    decreases k
  {
    if k > 0 {
      assert x * Pow2(k) == 2 * (x * Pow2(k - 1));
      if i > 0 {
        assert x * Pow2(k) / 2 == x * Pow2(k - 1);
        BitMul(x, k - 1, i - 1);
      }
    } else {
      assert x * Pow2(0) == x;
    }
  }

  /** Half of a residue modulo an even number. */
  lemma HalfMod(x: nat, m: nat)
    requires m >= 1
    ensures x % (2 * m) / 2 == x / 2 % m
    ensures x % (2 * m) % 2 == x % 2
  {
    var q := x / (2 * m);
    var r := x % (2 * m);
    assert x == q * (2 * m) + r;
    assert q * (2 * m) == 2 * (q * m);
    assert x / 2 == q * m + r / 2;
    assert r / 2 < m;
    ModUnique(x / 2, m, q, r / 2);
  }

  /** A multiple of m strictly between -m and m is zero. */
  lemma SmallMultiple(a: int, m: nat)
    requires -(m as int) < a * m < m
    ensures a == 0
  {
    NegMul(a, m);
    if a >= 1 {
      MulGrows(a, m);
    } else if a <= -1 {
      MulGrows(-a, m);
    }
  }

  lemma NegMul(a: int, m: int)
    ensures (-a) * m == -(a * m)
  {
  }

  lemma ModUnique(x: nat, m: nat, q: nat, r: nat)
    requires m >= 1 && x == q * m + r && r < m
    ensures x % m == r && x / m == q
  {
    var a := q - x / m;
    assert x == x / m * m + x % m;
    assert a * m == q * m - x / m * m;
    SmallMultiple(a, m);
  }

  lemma {:induction false} BitMod(x: nat, k: nat, i: nat)
    ensures Bit(x % Pow2(k), i) <==> i < k && Bit(x, i)
    decreases k
  {
    if k == 0 {
      assert x % Pow2(0) == 0;
      BitOfZero(i);
    } else {
      HalfMod(x, Pow2(k - 1));
      if i > 0 { BitMod(x / 2, k - 1, i - 1); }
    }
  }

  lemma {:induction false} BitNot(width: nat, x: nat, i: nat)
    requires x < Pow2(width)
    ensures Bit(Not(width, x), i) <==> i < width && !Bit(x, i)
    decreases width
  {
    if width == 0 {
      BitOfZero(i);
    } else {
      assert x / 2 < Pow2(width - 1);
      assert Not(width, x) / 2 == Not(width - 1, x / 2);
      if i > 0 { BitNot(width - 1, x / 2, i - 1); }
    }
  }

  lemma Pow2Words()
    ensures Pow2(8) == 0x100 && Pow2(16) == 0x1_0000 && Pow2(32) == 0x1_0000_0000
    ensures Pow2(64) == 0x1_0000_0000_0000_0000
  {
    assert Pow2(8) == 0x100;
    Pow2Add(8, 8);
    Pow2Add(16, 16);
    Pow2Add(32, 32);
  }

  /** Complement of a 32-bit word. */
  function Not32(x: nat): nat
    requires x < 0x1_0000_0000
  {
    0xFFFF_FFFF - x
  }

  lemma BitNot32(x: nat, i: nat)
    requires x < 0x1_0000_0000
    ensures Bit(Not32(x), i) <==> i < 32 && !Bit(x, i)
  {
    Pow2Words();
    BitNot(32, x, i);
  }

  /** The bits of 2^k - 1 are exactly those below k. */
  lemma BitOnes(k: nat, i: nat)
    ensures Bit(Pow2(k) - 1, i) <==> i < k
  {
    BitOfZero(i);
    BitNot(k, 0, i);
    assert Not(k, 0) == Pow2(k) - 1;
  }

  lemma OnesUnique(x: nat, k: nat)
    requires forall i: nat :: Bit(x, i) <==> i < k
    ensures x == Pow2(k) - 1
  {
    forall i: nat ensures Bit(x, i) == Bit(Pow2(k) - 1, i) {
      BitOnes(k, i);
    }
    Extensional(x, Pow2(k) - 1);
  }

  /** The bits of a single-bit mask. */
  lemma BitPow2(k: nat, i: nat)
    ensures Bit(Pow2(k), i) <==> i == k
  {
    assert 1 * Pow2(k) == Pow2(k);
    BitMul(1, k, i);
    if i > k { BitAboveWidth(1, 1, i - k); }
  }

  /** Masking a word with a single bit tests that bit. */
  lemma AndPow2(x: nat, k: nat)
    ensures And(x, Pow2(k)) != 0 <==> Bit(x, k)
  {
    if And(x, Pow2(k)) == 0 {
      BitOfZero(k);
      BitAnd(x, Pow2(k), k);
      BitPow2(k, k);
    } else if !Bit(x, k) {
      forall i: nat ensures Bit(And(x, Pow2(k)), i) == Bit(0, i) {
        BitAnd(x, Pow2(k), i);
        BitPow2(k, i);
        BitOfZero(i);
      }
      Extensional(And(x, Pow2(k)), 0);
    }
  }

  /** A left shift moves every bit up and drops those that leave the word. */
  lemma BitShl(width: nat, x: nat, k: nat, i: nat)
    ensures Shl(width, x, k) < Pow2(width)
    ensures Bit(Shl(width, x, k), i) <==> k <= i < width && Bit(x, i - k)
  {
    BitMod(x * Pow2(k), width, i);
    BitMul(x, k, i);
  }

  /** A single bit shifted within a word. */
  lemma ShlOne(width: nat, k: nat)
    requires k < width
    ensures Shl(width, 1, k) == Pow2(k) < Pow2(width)
  {
    Pow2Monotone(k + 1, width);
    ModUnique(1 * Pow2(k), Pow2(width), 0, Pow2(k));
  }

  /** Or-ing disjoint bit ranges adds them. */
  lemma {:induction false} OrDisjoint(x: nat, y: nat, k: nat)
    requires x < Pow2(k)
    ensures Or(x, y * Pow2(k)) == x + y * Pow2(k)
    decreases k
  {
    if k == 0 {
      assert y * Pow2(0) == y;
      OrZero(y);
    } else {
      assert y * Pow2(k) == 2 * (y * Pow2(k - 1));
      OrDisjoint(x / 2, y, k - 1);
      assert y * Pow2(k) / 2 == y * Pow2(k - 1);
    }
  }

  /** Shifting a word that has room for it and or-ing in the low bits. */
  lemma ShlOr(width: nat, x: nat, k: nat, low: nat)
    requires low < Pow2(k) && x * Pow2(k) < Pow2(width)
    ensures Or(Shl(width, x, k), low) == x * Pow2(k) + low
  {
    ModUnique(x * Pow2(k), Pow2(width), 0, x * Pow2(k));
    OrCommutes(x * Pow2(k), low);
    OrDisjoint(low, x, k);
  }

  lemma {:induction false} OrCommutes(x: nat, y: nat)
    ensures Or(x, y) == Or(y, x)
    decreases x + y
  {
    if x + y > 0 { OrCommutes(x / 2, y / 2); }
  }

  lemma {:induction false} OrZero(y: nat)
    ensures Or(0, y) == y
  {
    if y > 0 { OrZero(y / 2); }
  }

  /** Xor with the same mask twice is the identity. */
  lemma XorInvolutive(x: nat, mask: nat)
    ensures Xor(Xor(x, mask), mask) == x
  {
    forall i: nat ensures Bit(Xor(Xor(x, mask), mask), i) == Bit(x, i) {
      BitXor(Xor(x, mask), mask, i);
      BitXor(x, mask, i);
    }
    Extensional(Xor(Xor(x, mask), mask), x);
  }
}
