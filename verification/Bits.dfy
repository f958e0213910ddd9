/** Shifts and masks, on natural numbers. */
module Bits {
  import opened Arith

  function Pow2(k: nat): (p: nat)
    ensures p > 0
  {
    if k == 0 then 1 else 2 * Pow2(k - 1)
  }

  /** The bitwise conjunction of two numbers. */
  function And(x: nat, y: nat): nat {
    if x == 0 || y == 0 then 0 else (if x % 2 == 1 && y % 2 == 1 then 1 else 0) + 2 * And(x / 2, y / 2)
  }

  /** `x` shifted to the right by `k` bits. */
  function ShiftRight(x: nat, k: nat): nat {
    if k == 0 then x else ShiftRight(x / 2, k - 1)
  }

  lemma HalfMod(x: nat, p: nat)
    requires p > 0
    ensures x % (2 * p) == x % 2 + 2 * (x / 2 % p) && x / (2 * p) == x / 2 / p
  {
    var q, m := x / 2 / p, x / 2 % p;
    DivMod(x / 2, p);
    assert x == 2 * (q * p + m) + x % 2;
    assert 2 * (q * p + m) == q * (2 * p) + 2 * m;
    DivModUnique(x, 2 * p, q, 2 * m + x % 2);
  }

  /** Masking with `2^k - 1` takes the remainder modulo `2^k`. */
  lemma {:induction false} MaskIsMod(x: nat, k: nat)
    ensures And(x, Pow2(k) - 1) == x % Pow2(k)
  {
    if k > 0 {
      var p := Pow2(k - 1);
      MaskIsMod(x / 2, k - 1);
      HalfMod(x, p);
      assert (2 * p - 1) / 2 == p - 1 && (2 * p - 1) % 2 == 1;
      if x == 0 {
        DivModUnique(0, 2 * p, 0, 0);
      }
    }
  }

  lemma {:induction false} ShiftIsDiv(x: nat, k: nat)
    ensures ShiftRight(x, k) == x / Pow2(k)
  {
    if k > 0 {
      ShiftIsDiv(x / 2, k - 1);
      HalfMod(x, Pow2(k - 1));
    }
  }

  /** A shift, and one more if the mask leaves a remainder, divides by `2^k` and rounds up. */
  lemma ShiftAndMaskIsCeil(n: nat, k: nat)
    ensures ShiftRight(n, k) + (if And(n, Pow2(k) - 1) != 0 then 1 else 0) == CeilDiv(n, Pow2(k))
  {
    hide Pow2, And, ShiftRight, CeilDiv;
    MaskIsMod(n, k);
    ShiftIsDiv(n, k);
    QuotientUp(n, Pow2(k));
  }

  lemma QuotientUp(n: nat, p: nat)
    requires p > 0
    ensures n / p + (if n % p != 0 then 1 else 0) == CeilDiv(n, p)
  {
    DivMod(n, p);
    assert (n / p + 1) * p == n / p * p + p;
    CeilDivUnique(n, p, if n % p != 0 then n / p + 1 else n / p);
  }
}
