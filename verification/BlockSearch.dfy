/** The scan for the next free block, over any bitmap. */
module BlockSearch {
  import opened Bitmap
  import opened Wrappers

  /** The first number from `x + i` on, before `x + 8`, whose bit (taken modulo 8) is clear in `b`. */
  ghost function FirstClear(b: bv8, x: nat, i: nat): nat
    requires i <= 8
    decreases 8 - i
  {
    if i < 8 && TestAt(b, x + i) then FirstClear(b, x, i + 1) else x + i
  }

  /** What one sweep over the candidates `x..n`, with bitmap byte `p` at hand, finds. The byte at hand changes only at
      only at candidates that are one more than a multiple of 8; its bits are tested from the one before the
      candidate's on. */
  ghost function Sweep(bitmap: seq<bv8>, n: nat, x: nat, p: nat): Option<nat>
    decreases n - x
  {
    if x >= n then None
    else
      var q := if x % 8 == 1 then x / 8 else p;
      if q < |bitmap| && bitmap[q] & CandidateMask(x % 8) != CandidateMask(x % 8) then Some(FirstClear(bitmap[q], x, 0))
      else Sweep(bitmap, n, x + 1, q)
  }

  /** What the scan finds: a sweep that finds nothing is followed by one from the block after the number of the first
      data block, with the second byte at hand; if that finds nothing either, the scan never ends. */
  ghost function NextFree(bitmap: seq<bv8>, n: nat, dataStart: nat, x: nat, p: nat): Option<nat> {
    match Sweep(bitmap, n, x, p)
    case Some(y) => Some(y)
    case None => Sweep(bitmap, n, dataStart + 1, 1)
  }

  /** The scan, one round at a time: what `rounds` rounds find from candidate `x`, if they find anything. */
  ghost function Scan(bitmap: seq<bv8>, n: nat, dataStart: nat, x: nat, p: nat, rounds: nat): Option<nat>
    decreases rounds
  {
    if rounds == 0 then None
    else
      var mask := CandidateMask(x % 8);
      var q := if mask == 0xFF then x / 8 else p;
      if q >= |bitmap| then None
      else if bitmap[q] & mask != mask && x < n then Some(FirstClear(bitmap[q], x, 0))
      else if x >= n then Scan(bitmap, n, dataStart, dataStart + 1, 1, rounds - 1)
      else Scan(bitmap, n, dataStart, x + 1, q, rounds - 1)
  }

  /** The bitmap has room for `n` blocks, and the scan has one of its bytes at hand. */
  ghost predicate AtHand(bitmap: seq<bv8>, n: nat, x: nat, p: nat) {
    2 <= |bitmap| && n <= 8 * |bitmap| && x <= 8 * |bitmap| && p < |bitmap|
  }

  /** The scan ends if and only if one of its two sweeps finds something; then it has found that. */
  lemma ScanEnds(bitmap: seq<bv8>, n: nat, dataStart: nat, x: nat, p: nat)
    requires AtHand(bitmap, n, x, p)
    ensures (exists rounds :: Scan(bitmap, n, dataStart, x, p, rounds).Some?) <==>
              NextFree(bitmap, n, dataStart, x, p).Some?
    ensures forall rounds :: Scan(bitmap, n, dataStart, x, p, rounds).Some? ==>
              Scan(bitmap, n, dataStart, x, p, rounds) == NextFree(bitmap, n, dataStart, x, p)
  {
    if NextFree(bitmap, n, dataStart, x, p).Some? {
      var rounds := ScanFinds(bitmap, n, dataStart, x, p);
    }
    forall rounds ensures Scan(bitmap, n, dataStart, x, p, rounds).Some? ==>
        Scan(bitmap, n, dataStart, x, p, rounds) == NextFree(bitmap, n, dataStart, x, p)
    {
      ScanFindsNoOther(bitmap, n, dataStart, x, p, rounds);
    }
  }

  lemma {:induction false} ScanFinds(bitmap: seq<bv8>, n: nat, dataStart: nat, x: nat, p: nat) returns (rounds: nat)
    requires AtHand(bitmap, n, x, p) && NextFree(bitmap, n, dataStart, x, p).Some?
    ensures Scan(bitmap, n, dataStart, x, p, rounds) == NextFree(bitmap, n, dataStart, x, p)
    decreases Sweep(bitmap, n, x, p).None?, n - x
  {
    hide Scan, Sweep, CandidateMask, FirstClear;
    SweepRound(bitmap, n, x, p);
    var q := if x % 8 == 1 then x / 8 else p;
    if x >= n {
      SweepRound(bitmap, n, dataStart + 1, 1);
      var more := ScanFinds(bitmap, n, dataStart, dataStart + 1, 1);
      rounds := more + 1;
      ScanRound(bitmap, n, dataStart, x, p, more);
    } else if bitmap[q] & CandidateMask(x % 8) != CandidateMask(x % 8) {
      rounds := 1;
      ScanRound(bitmap, n, dataStart, x, p, 0);
    } else {
      var more := ScanFinds(bitmap, n, dataStart, x + 1, q);
      rounds := more + 1;
      ScanRound(bitmap, n, dataStart, x, p, more);
    }
  }

  /** One round of a sweep. */
  lemma SweepRound(bitmap: seq<bv8>, n: nat, x: nat, p: nat)
    ensures CandidateMask(x % 8) == 0xFF <==> x % 8 == 1
    ensures var q := if x % 8 == 1 then x / 8 else p;
      Sweep(bitmap, n, x, p)
      == if x >= n then None
         else if q < |bitmap| && bitmap[q] & CandidateMask(x % 8) != CandidateMask(x % 8) then
             Some(FirstClear(bitmap[q], x, 0))
         else Sweep(bitmap, n, x + 1, q)
  {
    MaskTable(x % 8);
  }

  /** What the scan finds from candidate `x` on, before and after it has started again. */
  ghost function Ahead(bitmap: seq<bv8>, n: nat, dataStart: nat, x: nat, p: nat, again: bool): Option<nat> {
    if again then Sweep(bitmap, n, x, p) else NextFree(bitmap, n, dataStart, x, p)
  }

  lemma AheadStart(bitmap: seq<bv8>, n: nat, dataStart: nat, x: nat, p: nat)
    ensures Ahead(bitmap, n, dataStart, x, p, false) == NextFree(bitmap, n, dataStart, x, p)
  {
  }

  lemma AheadRound(bitmap: seq<bv8>, n: nat, dataStart: nat, x: nat, p: nat, again: bool)
    ensures CandidateMask(x % 8) == 0xFF <==> x % 8 == 1
    ensures x >= n && again ==> Ahead(bitmap, n, dataStart, x, p, again) == None
    ensures x >= n && !again ==>
              Ahead(bitmap, n, dataStart, x, p, again) == Ahead(bitmap, n, dataStart, dataStart + 1, 1, true)
    ensures x >= n && Ahead(bitmap, n, dataStart, x, p, again).Some? ==> dataStart + 1 < n
    ensures var q := if x % 8 == 1 then x / 8 else p;
      x < n ==>
        Ahead(bitmap, n, dataStart, x, p, again)
        == if q < |bitmap| && bitmap[q] & CandidateMask(x % 8) != CandidateMask(x % 8) then
            Some(FirstClear(bitmap[q], x, 0))
           else Ahead(bitmap, n, dataStart, x + 1, q, again)
  {
    hide Sweep, FirstClear, CandidateMask;
    SweepRound(bitmap, n, x, p);
    SweepRound(bitmap, n, dataStart + 1, 1);
  }

  /** One round of the scan. */
  lemma ScanRound(bitmap: seq<bv8>, n: nat, dataStart: nat, x: nat, p: nat, more: nat)
    ensures var q := if x % 8 == 1 then x / 8 else p;
      Scan(bitmap, n, dataStart, x, p, more + 1)
      == if q >= |bitmap| then None
         else if x >= n then Scan(bitmap, n, dataStart, dataStart + 1, 1, more)
         else if bitmap[q] & CandidateMask(x % 8) != CandidateMask(x % 8) then Some(FirstClear(bitmap[q], x, 0))
         else Scan(bitmap, n, dataStart, x + 1, q, more)
  {
    MaskTable(x % 8);
  }

  lemma NoRounds(bitmap: seq<bv8>, n: nat, dataStart: nat, x: nat, p: nat)
    ensures Scan(bitmap, n, dataStart, x, p, 0) == None
  {
  }

  lemma {:induction false} ScanFindsNoOther(bitmap: seq<bv8>, n: nat, dataStart: nat, x: nat, p: nat, rounds: nat)
    requires 2 <= |bitmap|
    ensures Scan(bitmap, n, dataStart, x, p, rounds).Some? ==>
              Scan(bitmap, n, dataStart, x, p, rounds) == NextFree(bitmap, n, dataStart, x, p)
    decreases rounds
  {
    hide Scan, Sweep, FirstClear, CandidateMask;
    if rounds == 0 {
      NoRounds(bitmap, n, dataStart, x, p);
    } else {
      SweepRound(bitmap, n, x, p);
      ScanRound(bitmap, n, dataStart, x, p, rounds - 1);
      var q := if x % 8 == 1 then x / 8 else p;
      if x >= n {
        ScanFindsNoOther(bitmap, n, dataStart, dataStart + 1, 1, rounds - 1);
      } else {
        ScanFindsNoOther(bitmap, n, dataStart, x + 1, q, rounds - 1);
      }
    }
  }

  lemma {:induction false} FirstClearIs(b: bv8, x: nat, i: nat, z: nat)
    requires x + i <= z <= x + 8 && (forall y :: x + i <= y < z ==> TestAt(b, y))
    requires z == x + 8 || !TestAt(b, z)
    ensures FirstClear(b, x, i) == z
    decreases 8 - i
  {
    if x + i < z {
      FirstClearIs(b, x, i + 1, z);
    }
  }

  /** `z` is the first free block after `first` among the numbers that are no multiples of 8. */
  ghost predicate FirstFree(bitmap: seq<bv8>, first: nat, z: nat) {
    && first < z && z % 8 != 0 && z / 8 < |bitmap| && !Marked(bitmap, z)
    && forall y :: first < y < z && y % 8 != 0 ==> Marked(bitmap, y)
  }

  /** Byte `b` is the first one, behind that of `first` and before that of `z`, that is not full. */
  ghost predicate FirstGap(bitmap: seq<bv8>, first: nat, z: nat, b: nat) {
    && first / 8 < b < z / 8 < |bitmap| && bitmap[b] != 0xFF
    && forall a :: first / 8 < a < b ==> bitmap[a] == 0xFF
  }

  /** A byte passes the mask test at a candidate when its bits from the one before the candidate's on are set. */
  lemma MaskPasses(b: bv8, k: nat)
    requires 0 < k < 8 && forall m: nat :: k - 1 <= m < 8 ==> TestBit(b, m)
    ensures b & CandidateMask(k) == CandidateMask(k)
  {
    hide TestBit;
    MaskTable(k);
    forall m: nat | k - 1 <= m < 8 ensures b & [1, 2, 4, 8, 16, 32, 64, 128][m] != 0 {
      BitIsSet(b, m);
    }
    FullFrom(b, k);
  }

  lemma BitIsSet(b: bv8, m: nat)
    requires m < 8 && TestBit(b, m)
    ensures b & [1, 2, 4, 8, 16, 32, 64, 128][m] != 0
  {
    BitTable(m);
  }

  lemma FullFrom(b: bv8, k: nat)
    requires 0 < k < 8 && forall m: nat :: k - 1 <= m < 8 ==> b & [1, 2, 4, 8, 16, 32, 64, 128][m] != 0
    ensures b & [0, 0xFF, 0xFE, 0xFC, 0xF8, 0xF0, 0xE0, 0xC0][k] == [0, 0xFF, 0xFE, 0xFC, 0xF8, 0xF0, 0xE0, 0xC0][k]
  {
    var bits: seq<bv8> := [1, 2, 4, 8, 16, 32, 64, 128];
    assert b & bits[7] != 0 && b & bits[6] != 0;
    if k <= 6 { assert b & bits[5] != 0; }
    if k <= 5 { assert b & bits[4] != 0; }
    if k <= 4 { assert b & bits[3] != 0; }
    if k <= 3 { assert b & bits[2] != 0; }
    if k <= 2 { assert b & bits[1] != 0; }
    if k <= 1 { assert b & bits[0] != 0; }
    if k == 1 {} else if k == 2 {} else if k == 3 {} else if k == 4 {} else if k == 5 {} else if k == 6 {} else {}
  }

  /** The scan stops at a candidate whose byte, at hand, has a clear bit ahead; it finds the first one. */
  lemma StopsInByte(bitmap: seq<bv8>, n: nat, x: nat, p: nat, z: nat)
    requires x % 8 != 0 && x < n && x / 8 < |bitmap| && (p == x / 8 || x % 8 == 1)
    requires x <= z && x / 8 == z / 8 && !Marked(bitmap, z) && forall y :: x <= y < z ==> Marked(bitmap, y)
    ensures Sweep(bitmap, n, x, p) == Some(z)
  {
    MaskFindsFree(bitmap[x / 8], x % 8, z % 8);
    forall y | x <= y < z ensures TestAt(bitmap[x / 8], y) {
      assert Marked(bitmap, y) && y / 8 == x / 8;
    }
    FirstClearIs(bitmap[x / 8], x, 0, z);
  }

  lemma InByte(c: nat, m: nat)
    requires m < 8
    ensures (8 * c + m) / 8 == c && (8 * c + m) % 8 == m
  {
  }

  /** The bits of byte `c` from `m` on are those of its blocks. */
  lemma BitsOfByte(bitmap: seq<bv8>, c: nat, m: nat)
    requires c < |bitmap| && forall y :: 8 * c + m <= y < 8 * c + 8 ==> Marked(bitmap, y)
    ensures forall k: nat :: m <= k < 8 ==> TestBit(bitmap[c], k)
  {
    forall k: nat | m <= k < 8 ensures TestBit(bitmap[c], k) {
      InByte(c, k);
      assert Marked(bitmap, 8 * c + k);
    }
  }

  /** The scan passes over the rest of byte `c`, from bit `m` on, when its bits from the one before on are set. */
  lemma {:induction false} PassesBits(bitmap: seq<bv8>, n: nat, c: nat, m: nat)
    requires 0 < m <= 8 && 8 * c + 8 < n && c < |bitmap|
    requires forall k: nat :: m - 1 <= k < 8 ==> TestBit(bitmap[c], k)
    ensures Sweep(bitmap, n, 8 * c + m, c) == Sweep(bitmap, n, 8 * c + 8, c)
    decreases 8 - m
  {
    hide Sweep, FirstClear, CandidateMask, TestBit;
    if m < 8 {
      InByte(c, m);
      MaskPasses(bitmap[c], m);
      SweepRound(bitmap, n, 8 * c + m, c);
      PassesBits(bitmap, n, c, m + 1);
    }
  }

  lemma PassesByte(bitmap: seq<bv8>, n: nat, x: nat, c: nat)
    requires 8 * c < x <= 8 * c + 8 < n && c < |bitmap|
    requires forall y :: x - 1 <= y < 8 * c + 8 ==> Marked(bitmap, y)
    ensures Sweep(bitmap, n, x, c) == Sweep(bitmap, n, 8 * c + 8, c)
  {
    hide Sweep, Marked, TestBit;
    BitsOfByte(bitmap, c, x - 8 * c - 1);
    PassesBits(bitmap, n, c, x - 8 * c);
  }

  /** The scan enters the byte after `c`. */
  lemma EntersByte(bitmap: seq<bv8>, n: nat, c: nat)
    requires 8 * c + 9 < n && c < |bitmap|
    ensures Sweep(bitmap, n, 8 * c + 8, c) == Sweep(bitmap, n, 8 * c + 9, c)
    ensures Sweep(bitmap, n, 8 * c + 9, c) == Sweep(bitmap, n, 8 * c + 9, c + 1)
  {
    MaskTable(0);
    assert (8 * c + 8) % 8 == 0 && (8 * c + 9) % 8 == 1 && (8 * c + 9) / 8 == c + 1;
  }

  /** A byte of which only the lowest bit is clear stops the scan, which then finds the multiple of 8 behind it. */
  lemma StopsAtGap(bitmap: seq<bv8>, n: nat, b: nat)
    requires 8 * b + 1 < n && b < |bitmap| && bitmap[b] != 0xFF
    requires forall y :: 8 * b < y < 8 * b + 8 ==> Marked(bitmap, y)
    ensures Sweep(bitmap, n, 8 * b + 1, b) == Some(8 * b + 8)
  {
    hide FirstClear, Sweep, TestBit;
    InByte(b, 1);
    MaskTable(1);
    AllBits(bitmap[b]);
    BitsOfByte(bitmap, b, 1);
    forall y | 8 * b + 1 <= y < 8 * b + 8 ensures TestAt(bitmap[b], y) {
      InByte(b, y - 8 * b);
    }
    LowBitClear(bitmap, b);
    FirstClearIs(bitmap[b], 8 * b + 1, 0, 8 * b + 8);
    SweepRound(bitmap, n, 8 * b + 1, b);
  }

  lemma AllBits(b: bv8)
    ensures b & 0xFF == b
  {
  }

  lemma LowBitClear(bitmap: seq<bv8>, b: nat)
    requires b < |bitmap| && bitmap[b] != 0xFF
    requires forall y :: 8 * b < y < 8 * b + 8 ==> Marked(bitmap, y)
    ensures !TestAt(bitmap[b], 8 * b + 8) && (8 * b + 8) % 8 == 0
  {
    if TestBit(bitmap[b], 0) {
      forall m: nat | m < 8 ensures TestBit(bitmap[b], m) {
        assert m > 0 ==> Marked(bitmap, 8 * b + m) && (8 * b + m) / 8 == b;
      }
      AllBitsSet(bitmap[b]);
    }
  }

  /** What the scan that follows the taking of `first` finds, over any bitmap with a free block ahead that is no
      multiple of 8: the first such block if and only if all bytes between are full; otherwise the multiple of 8 that
      follows the first byte in between of which only the lowest bit is clear, whether or not it is free itself. */
  lemma ScanAnswers(bitmap: seq<bv8>, n: nat, first: nat, z: nat)
    requires Marked(bitmap, first) && FirstFree(bitmap, first, z) && z < n
    ensures Sweep(bitmap, n, first + 1, first / 8) == Some(z) <==>
              forall b :: first / 8 < b < z / 8 ==> bitmap[b] == 0xFF
    ensures forall b :: FirstGap(bitmap, first, z, b) ==> Sweep(bitmap, n, first + 1, first / 8) == Some(8 * b + 8)
  {
    hide Sweep, Marked, FirstFree;
    var gap := GapAhead(bitmap, n, first, z);
    assert gap < z / 8 ==> FirstGap(bitmap, first, z, gap);
    assert (8 * gap + 8) % 8 == 0 && z % 8 != 0 by {
      NoMultiple(bitmap, first, z);
    }
    forall b: nat | FirstGap(bitmap, first, z, b) ensures b == gap {
      assert !(first / 8 < b < gap);
    }
  }

  lemma NoMultiple(bitmap: seq<bv8>, first: nat, z: nat)
    requires FirstFree(bitmap, first, z)
    ensures z % 8 != 0 && z / 8 < |bitmap|
  {
  }

  /** The first byte behind that of `first` that is not full, if it comes before that of `z`, decides the answer. */
  lemma GapAhead(bitmap: seq<bv8>, n: nat, first: nat, z: nat) returns (gap: nat)
    requires Marked(bitmap, first) && FirstFree(bitmap, first, z) && z < n
    ensures z / 8 < |bitmap| && first / 8 <= z / 8
    ensures first / 8 <= gap <= z / 8 && forall a :: first / 8 < a < gap ==> bitmap[a] == 0xFF
    ensures gap < z / 8 ==> first / 8 < gap && bitmap[gap] != 0xFF
    ensures Sweep(bitmap, n, first + 1, first / 8) == Some(if gap < z / 8 then 8 * gap + 8 else z)
  {
    hide Sweep;
    var c := first / 8;
    gap := c;
    if z / 8 == c {
      StopsInByte(bitmap, n, first + 1, c, z);
    } else {
      assert 8 * c + 8 < z;
      forall y | first <= y < 8 * c + 8 ensures Marked(bitmap, y) {
        assert y > first ==> y % 8 != 0;
      }
      PassesByte(bitmap, n, first + 1, c);
      gap := BytesAhead(bitmap, n, first, z, c);
    }
  }

  /** The scan from the end of byte `c` on, all bytes since that of `first` being full. */
  lemma {:induction false} BytesAhead(bitmap: seq<bv8>, n: nat, first: nat, z: nat, c: nat) returns (gap: nat)
    requires FirstFree(bitmap, first, z) && z < n && first / 8 <= c < z / 8
    requires forall a :: first / 8 < a <= c ==> bitmap[a] == 0xFF
    ensures c < gap <= z / 8 && forall a :: first / 8 < a < gap ==> bitmap[a] == 0xFF
    ensures gap < z / 8 ==> bitmap[gap] != 0xFF
    ensures Sweep(bitmap, n, 8 * c + 8, c) == Some(if gap < z / 8 then 8 * gap + 8 else z)
    decreases z / 8 - c
  {
    hide Sweep;
    var b := c + 1;
    assert 8 * b <= z && 8 * b + 1 <= z;
    EntersByte(bitmap, n, c);
    if z / 8 == b {
      gap := b;
      StopsInByte(bitmap, n, 8 * b + 1, b, z);
    } else {
      forall y | 8 * b < y < 8 * b + 8 ensures Marked(bitmap, y) {
        assert y % 8 != 0;
      }
      if bitmap[b] != 0xFF {
        gap := b;
        StopsAtGap(bitmap, n, b);
      } else {
        FullByteMarked(bitmap, b);
        PassesByte(bitmap, n, 8 * b + 1, b);
        gap := BytesAhead(bitmap, n, first, z, b);
      }
    }
  }

  lemma FullByteMarked(bitmap: seq<bv8>, b: nat)
    requires b < |bitmap| && bitmap[b] == 0xFF
    ensures Marked(bitmap, 8 * b)
  {
    BitTable(0);
    assert 8 * b / 8 == b && 8 * b % 8 == 0;
  }
}
