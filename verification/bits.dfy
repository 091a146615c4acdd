/** Unsigned words as numbers, and their binary digits. */
module Bits {
  function Pow2(n: nat): (r: nat)
    ensures r > 0
  {
    if n == 0 then 1 else 2 * Pow2(n - 1)
  }

  /** Binary digit `i` of `x`. */
  predicate Bit(x: nat, i: nat) {
    if i == 0 then x % 2 == 1 else Bit(x / 2, i - 1)
  }

  function BitAnd(a: nat, b: nat): nat {
    if a == 0 || b == 0 then 0 else 2 * BitAnd(a / 2, b / 2) + (if a % 2 == 1 && b % 2 == 1 then 1 else 0)
  }

  function BitOr(a: nat, b: nat): nat {
    if a == 0 then b else if b == 0 then a else 2 * BitOr(a / 2, b / 2) + (if a % 2 == 1 || b % 2 == 1 then 1 else 0)
  }

  /** The complement of a word of `w` bits. */
  function BitNot(x: nat, w: nat): nat
    requires x < Pow2(w)
  {
    Pow2(w) - 1 - x
  }

  lemma {:induction false} ZeroBits(i: nat)
    ensures !Bit(0, i)
  {
    if i > 0 { ZeroBits(i - 1); }
  }

  /** The digits of a number are its last one and those of its half. */
  lemma BitStep(x: nat, i: nat)
    ensures Bit(x, i) <==> if i == 0 then x % 2 == 1 else Bit(x / 2, i - 1)
  {
  }

  lemma AndStep(a: nat, b: nat)
    requires a != 0 && b != 0
    ensures BitAnd(a, b) / 2 == BitAnd(a / 2, b / 2) && (BitAnd(a, b) % 2 == 1 <==> a % 2 == 1 && b % 2 == 1)
  {
  }

  lemma OrStep(a: nat, b: nat)
    requires a != 0 && b != 0
    ensures BitOr(a, b) / 2 == BitOr(a / 2, b / 2) && (BitOr(a, b) % 2 == 1 <==> a % 2 == 1 || b % 2 == 1)
  {
  }

  lemma {:induction false} AndBits(a: nat, b: nat, i: nat)
    ensures Bit(BitAnd(a, b), i) <==> Bit(a, i) && Bit(b, i)
  {
    hide Bit;
    if a == 0 || b == 0 {
      ZeroBits(i);
    } else {
      AndStep(a, b);
      BitStep(BitAnd(a, b), i);
      BitStep(a, i);
      BitStep(b, i);
      if i > 0 { AndBits(a / 2, b / 2, i - 1); }
    }
  }

  lemma {:induction false} OrBits(a: nat, b: nat, i: nat)
    ensures Bit(BitOr(a, b), i) <==> Bit(a, i) || Bit(b, i)
  {
    hide Bit;
    if a == 0 || b == 0 {
      ZeroBits(i);
    } else {
      OrStep(a, b);
      BitStep(BitOr(a, b), i);
      BitStep(a, i);
      BitStep(b, i);
      if i > 0 { OrBits(a / 2, b / 2, i - 1); }
    }
  }

  lemma {:induction false} NotBits(x: nat, w: nat, i: nat)
    requires x < Pow2(w) && i < w
    ensures Bit(BitNot(x, w), i) <==> !Bit(x, i)
  {
    if i > 0 {
      assert BitNot(x, w) / 2 == BitNot(x / 2, w - 1);
      NotBits(x / 2, w - 1, i - 1);
    }
  }

  lemma {:induction false} PowBits(n: nat, i: nat)
    ensures Bit(Pow2(n), i) <==> i == n
  {
    if n == 0 {
      if i > 0 { ZeroBits(i - 1); }
    } else if i > 0 {
      PowBits(n - 1, i - 1);
    }
  }

  /** A word of `w` bits has no other binary digits. */
  lemma {:induction false} WordBits(x: nat, w: nat, i: nat)
    requires x < Pow2(w) && i >= w
    ensures !Bit(x, i)
  {
    if w == 0 { ZeroBits(i); } else { WordBits(x / 2, w - 1, i - 1); }
  }

  /** Words with the same digits are equal. */
  lemma {:induction false} SameBits(x: nat, y: nat, w: nat)
    requires x < Pow2(w) && y < Pow2(w) && forall i :: 0 <= i < w ==> Bit(x, i) == Bit(y, i)
    ensures x == y
  {
    if w > 0 {
      assert Bit(x, 0) == Bit(y, 0);
      forall i | 0 <= i < w - 1 ensures Bit(x / 2, i) == Bit(y / 2, i) {
        assert Bit(x, i + 1) == Bit(y, i + 1);
      }
      SameBits(x / 2, y / 2, w - 1);
    }
  }

  lemma {:induction false} AndFits(a: nat, b: nat, w: nat)
    requires a < Pow2(w)
    ensures BitAnd(a, b) < Pow2(w) && BitAnd(b, a) < Pow2(w)
  {
    if w > 0 && a != 0 && b != 0 { AndFits(a / 2, b / 2, w - 1); }
  }

  lemma {:induction false} OrFits(a: nat, b: nat, w: nat)
    requires a < Pow2(w) && b < Pow2(w)
    ensures BitOr(a, b) < Pow2(w)
  {
    if w > 0 && a != 0 && b != 0 { OrFits(a / 2, b / 2, w - 1); }
  }

  function Rem(a: nat, m: nat): (r: nat)
    requires m > 0
    ensures r < m
  {
    a % m
  }

  /** Masking with 2^n - 1 is taking the remainder modulo 2^n. */
  lemma {:induction false} MaskIsRem(a: nat, n: nat)
    ensures BitAnd(a, Pow2(n) - 1) == Rem(a, Pow2(n))
  {
    hide Rem, BitAnd;
    if n == 0 || a == 0 {
      MaskEnds(a, Pow2(n) - 1);
    } else {
      var m := Pow2(n - 1);
      MaskIsRem(a / 2, n - 1);
      HalfRem(a, m);
      MaskStep(a, m);
    }
  }

  lemma MaskEnds(a: nat, b: nat)
    requires a == 0 || b == 0
    ensures BitAnd(a, b) == 0 && Rem(a, b + 1) == 0
  {
  }

  lemma MaskStep(a: nat, m: nat)
    requires a > 0 && m > 0
    ensures BitAnd(a, 2 * m - 1) == 2 * BitAnd(a / 2, m - 1) + a % 2
  {
    assert (2 * m - 1) / 2 == m - 1 && (2 * m - 1) % 2 == 1;
  }

  lemma HalfRem(a: nat, m: nat)
    requires m > 0
    ensures Rem(a, 2 * m) == 2 * Rem(a / 2, m) + a % 2
  {
    var q, r := (a / 2) / m, (a / 2) % m;
    assert a / 2 == m * q + r;
    Doubled(a, m, q, r);
    ModUnique(a, 2 * m, q, 2 * r + a % 2);
  }

  lemma Doubled(a: nat, m: nat, q: nat, r: nat)
    requires a / 2 == m * q + r
    ensures a == (2 * m) * q + (2 * r + a % 2)
  {
    assert (2 * m) * q == 2 * (m * q);
  }

  lemma ModUnique(a: int, m: nat, q: int, r: nat)
    requires m > 0 && a == m * q + r && r < m
    ensures a % m == r && a / m == q
  {
    var q', r' := a / m, a % m;
    assert a == m * q' + r';
    assert m * (q - q') == m * q - m * q';
    MulSign(m, q - q');
  }

  lemma MulSign(m: nat, d: int)
    requires m > 0
    ensures (d >= 1 ==> m * d >= m) && (d <= -1 ==> m * d + m <= 0) && (d == 0 ==> m * d == 0)
  {
  }

  lemma DivDiv(a: nat, m: nat, n: nat)
    requires m > 0 && n > 0
    ensures m * n > 0 && a / (m * n) == a / m / n
  {
    var q, r := a / m / n, a / m % n;
    var r' := a % m;
    MulSign(m, n);
    assert a == m * (n * q + r) + r';
    assert m * (n * q + r) == (m * n) * q + m * r;
    assert m * r + m <= m * n by { Scaled(m, r, n); }
    ModUnique(a, m * n, q, m * r + r');
  }

  lemma Scaled(m: nat, r: nat, n: nat)
    requires r < n
    ensures m * r + m <= m * n
  {
    assert m * n == m * r + m * (n - r);
    if m > 0 { MulSign(m, n - r); }
  }

  lemma {:induction false} PowMonotone(m: nat, n: nat)
    requires m <= n
    ensures Pow2(m) <= Pow2(n)
  {
    if m < n { PowMonotone(m, n - 1); }
  }
}
