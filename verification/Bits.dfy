/** Machine words read bit by bit.  A word is a natural number; a single-bit mask 1 << i is named by
  * its position, so that w & m, w | m and w & ~m become Bit, With and Without. */
module Bits {
  function Pow2(n: nat): (p: nat)
    ensures p > 0
  {
    if n == 0 then 1 else 2 * Pow2(n - 1)
  }

  lemma {:induction false} PowerOfSum(a: nat, b: nat)
    ensures Pow2(a + b) == Pow2(a) * Pow2(b)
    decreases a
  {
    if a > 0 {
      PowerOfSum(a - 1, b);
      assert Pow2(a + b) == 2 * Pow2(a - 1 + b);
      assert 2 * (Pow2(a - 1) * Pow2(b)) == (2 * Pow2(a - 1)) * Pow2(b);
    }
  }

  lemma {:induction false} PowMonotone(a: nat, b: nat)
    requires a <= b
    ensures Pow2(a) <= Pow2(b)
    decreases b
  {
    if a < b { PowMonotone(a, b - 1); }
  }

  predicate Bit(w: nat, i: nat) {
    if i == 0 then w % 2 == 1 else Bit(w / 2, i - 1)
  }

  function With(w: nat, i: nat): nat {
    if i == 0 then w - w % 2 + 1 else 2 * With(w / 2, i - 1) + w % 2
  }

  function Without(w: nat, i: nat): nat {
    if i == 0 then w - w % 2 else 2 * Without(w / 2, i - 1) + w % 2
  }

  lemma {:induction false} WithBits(w: nat, i: nat, j: nat)
    ensures Bit(With(w, i), j) <==> j == i || Bit(w, j)
    decreases i
  {
    if i > 0 && j > 0 { WithBits(w / 2, i - 1, j - 1); }
  }

  lemma {:induction false} WithoutBits(w: nat, i: nat, j: nat)
    ensures Bit(Without(w, i), j) <==> j != i && Bit(w, j)
    decreases i
  {
    if i > 0 && j > 0 { WithoutBits(w / 2, i - 1, j - 1); }
  }

  lemma {:induction false} WordBound(w: nat, i: nat, n: nat)
    requires w < Pow2(n) && i < n
    ensures With(w, i) < Pow2(n) && Without(w, i) < Pow2(n)
    decreases n
  {
    if i > 0 { WordBound(w / 2, i - 1, n - 1); }
  }

  lemma Shifted(w: nat, j: nat)
    ensures Bit(w, j + 1) <==> Bit(w / 2, j)
  {
  }

  lemma Lowest(w: nat, i: nat)
    requires i == 0
    ensures Bit(w, i) <==> w % 2 == 1
  {
  }

  /** A word of n bits is all ones exactly when no bit is clear. */
  lemma {:induction false} Saturated(w: nat, n: nat)
    requires w < Pow2(n)
    ensures w == Pow2(n) - 1 <==> forall j :: 0 <= j < n ==> Bit(w, j)
    decreases n
  {
    if n > 0 {
      Saturated(w / 2, n - 1);
      if w == Pow2(n) - 1 {
        forall j | 0 <= j < n ensures Bit(w, j) { OnesBits(n, j); }
      } else if w % 2 == 1 {
        assert w / 2 != Pow2(n - 1) - 1;
        var j :| 0 <= j < n - 1 && !Bit(w / 2, j);
        Shifted(w, j);
      } else {
        Lowest(w, 0);
      }
    }
  }

  /** A word of n bits is zero exactly when no bit is set. */
  lemma {:induction false} Vacant(w: nat, n: nat)
    requires w < Pow2(n)
    ensures w == 0 <==> forall j :: 0 <= j < n ==> !Bit(w, j)
    decreases n
  {
    if w == 0 {
      forall j | 0 <= j < n ensures !Bit(w, j) { NoBits(j); }
    } else if n > 0 && w % 2 == 0 {
      Vacant(w / 2, n - 1);
      var j :| 0 <= j < n - 1 && Bit(w / 2, j);
      Shifted(w, j);
    } else {
      Lowest(w, 0);
    }
  }

  /** The bits of 2^n - 1. */
  lemma {:induction false} OnesBits(n: nat, j: nat)
    ensures Bit(Pow2(n) - 1, j) <==> j < n
    decreases n
  {
    if n == 0 {
      NoBits(j);
    } else {
      assert (Pow2(n) - 1) / 2 == Pow2(n - 1) - 1 && (Pow2(n) - 1) % 2 == 1;
      if j > 0 { OnesBits(n - 1, j - 1); }
    }
  }

  lemma {:induction false} NoBits(j: nat)
    ensures !Bit(0, j)
    decreases j
  {
    if j > 0 { NoBits(j - 1); }
  }

  /** The upper part of a word, above its k lower bits. */
  lemma {:induction false} HighBits(high: nat, low: nat, k: nat, j: nat)
    requires low < Pow2(k)
    ensures Bit(high * Pow2(k) + low, k + j) <==> Bit(high, j)
    ensures With(high * Pow2(k) + low, k + j) == With(high, j) * Pow2(k) + low
    ensures Without(high * Pow2(k) + low, k + j) == Without(high, j) * Pow2(k) + low
    decreases k
  {
    if k > 0 {
      var w, p := high * Pow2(k) + low, Pow2(k - 1);
      assert Pow2(k) == 2 * p;
      Halve(high, p, low);
      Unfold(w, k + j);
      hide Pow2, Bit, With, Without;
      HighBits(high, low / 2, k - 1, j);
      Double(With(high, j), p, low);
      Double(Without(high, j), p, low);
    }
  }

  lemma Unfold(w: nat, i: nat)
    requires i > 0
    ensures Bit(w, i) == Bit(w / 2, i - 1)
    ensures With(w, i) == 2 * With(w / 2, i - 1) + w % 2 && Without(w, i) == 2 * Without(w / 2, i - 1) + w % 2
  {
  }

  lemma Halve(high: nat, p: nat, low: nat)
    ensures (high * (2 * p) + low) / 2 == high * p + low / 2
    ensures (high * (2 * p) + low) % 2 == low % 2
  {
    assert high * (2 * p) == 2 * (high * p);
  }

  lemma Double(x: nat, p: nat, low: nat)
    ensures 2 * (x * p + low / 2) + low % 2 == x * (2 * p) + low
  {
  }

  lemma HighLow(high: nat, low: nat, k: nat)
    requires low < Pow2(k)
    ensures (high * Pow2(k) + low) / Pow2(k) == high && (high * Pow2(k) + low) % Pow2(k) == low
  {
    Divide(high * Pow2(k) + low, Pow2(k), high, low);
  }

  lemma Divide(w: nat, p: nat, q: nat, r: nat)
    requires p > 0 && r < p && w == q * p + r
    ensures w / p == q && w % p == r
  {
    Unique(p, w / p, w % p, q, r);
  }

  lemma Unique(p: nat, a: nat, b: nat, q: nat, r: nat)
    requires b < p && r < p && a * p + b == q * p + r
    ensures a == q && b == r
  {
    if a < q {
      Gap(p, a, q);
    } else if q < a {
      Gap(p, q, a);
    }
  }

  lemma Gap(p: nat, a: nat, q: nat)
    requires a < q
    ensures a * p + p <= q * p
  {
    var d := q - a - 1;
    assert q * p == a * p + p + d * p by { assert q == a + 1 + d; }
    assert d * p >= 0;
  }
}
