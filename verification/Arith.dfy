/** Integer facts about blocks: quotients, remainders and ceilings by a block size. */
module Arith {

  type byte = b: nat | b < 256

  function Min(a: int, b: int): int {
    if a <= b then a else b
  }

  function Max(a: int, b: int): int {
    if a <= b then b else a
  }

  /** The number of blocks of size `r` that hold `n` bytes. */
  function CeilDiv(n: nat, r: nat): nat
    requires r > 0
  {
    (n + r - 1) / r
  }

  lemma MulMonotone(a: int, b: int, r: nat)
    requires a <= b
    ensures a * r <= b * r
  {
  }

  lemma MulNext(a: int, r: nat)
    ensures (a + 1) * r == a * r + r
  {
  }

  /** A quotient and remainder are the only ones. */
  lemma DivModUnique(n: nat, r: nat, q: nat, m: nat)
    requires m < r
    requires n == q * r + m
    ensures n / r == q && n % r == m
  {
    var q', m' := n / r, n % r;
    DivMod(n, r);
    if q > q' {
      MulMonotone(q' + 1, q, r);
    } else if q < q' {
      MulMonotone(q + 1, q', r);
    }
  }

  lemma DivMod(n: nat, r: nat)
    requires r > 0
    ensures n == (n / r) * r + n % r && 0 <= n % r < r
  {
  }

  /** `CeilDiv` is the only count whose blocks just cover `n`. */
  lemma CeilDivUnique(n: nat, r: nat, k: nat)
    requires r > 0
    requires n <= k * r
    requires k * r < n + r
    ensures CeilDiv(n, r) == k
  {
    DivModUnique(n + r - 1, r, k, n + r - 1 - k * r);
  }

  lemma CeilDivBounds(n: nat, r: nat)
    requires r > 0
    ensures n <= CeilDiv(n, r) * r < n + r
    ensures CeilDiv(n, r) == 0 <==> n == 0
    ensures n > 0 ==> CeilDiv(n, r) == (n - 1) / r + 1
  {
    DivMod(n + r - 1, r);
    if n > 0 {
      DivMod(n - 1, r);
      var k := (n - 1) / r + 1;
      assert k * r == (n - 1) / r * r + r;
      CeilDivUnique(n, r, k);
    } else {
      CeilDivUnique(0, r, 0);
    }
  }

  lemma CeilDivMonotone(a: nat, b: nat, r: nat)
    requires r > 0
    requires a <= b
    ensures CeilDiv(a, r) <= CeilDiv(b, r)
  {
    CeilDivBounds(a, r);
    CeilDivBounds(b, r);
    var x, y := CeilDiv(a, r), CeilDiv(b, r);
    if x > y {
      MulMonotone(y + 1, x, r);
    }
  }
}
