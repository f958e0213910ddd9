/** The block bitmap: eight blocks to a byte. */
module Bitmap {

  /** The byte with only bit `k` set. */
  function Bit(k: nat): bv8
    requires k < 8
  {
    1 << k
  }

  predicate TestBit(b: bv8, k: nat)
    requires k < 8
  {
    b & Bit(k) != 0
  }

  /** The mask the block search lays over a byte for a candidate at bit `k`: the bits from `k - 1` up. At bit 0 the
      shift count is out of range and the mask is 0. */
  function CandidateMask(k: nat): bv8
    requires k < 8
  {
    if k == 0 then 0 else 0xFF << (k - 1)
  }

  lemma SetBit(b: bv8, k: nat, m: nat)
    requires k < 8 && m < 8
    ensures TestBit(b | Bit(k), m) <==> m == k || TestBit(b, m)
  {
    BitTable(k);
    BitTable(m);
  }

  lemma BitTable(k: nat)
    requires k < 8
    ensures Bit(k) == [1, 2, 4, 8, 16, 32, 64, 128][k]
  {
    if k == 0 {} else if k == 1 {} else if k == 2 {} else if k == 3 {}
    else if k == 4 {} else if k == 5 {} else if k == 6 {} else {}
  }

  /** A byte with a clear bit at or above a candidate fails the mask test of the search. */
  lemma MaskFindsFree(b: bv8, k: nat, m: nat)
    requires 0 < k <= m < 8
    requires !TestBit(b, m)
    ensures b & CandidateMask(k) != CandidateMask(k)
  {
    BitTable(m);
    MaskTable(k);
  }

  /** The bit that number `y` selects. */
  predicate TestAt(b: bv8, y: nat) {
    TestBit(b, y % 8)
  }

  /** Only the full byte passes eight consecutive bit tests, wherever they begin; it also passes every mask test. */
  lemma FullByte(b: bv8, x: nat)
    requires forall y :: x <= y < x + 8 ==> TestAt(b, y)
    ensures b == 0xFF
    ensures forall k :: 0 <= k < 8 ==> b & CandidateMask(k) == CandidateMask(k)
  {
    forall m: nat | m < 8 ensures TestBit(b, m) {
      var y := if x % 8 <= m then x / 8 * 8 + m else x / 8 * 8 + 8 + m;
      assert y % 8 == m && TestAt(b, y);
    }
    AllBitsSet(b);
    forall k: nat | k < 8 ensures b & CandidateMask(k) == CandidateMask(k) {
      MaskTable(k);
    }
  }

  lemma AllBitsSet(b: bv8)
    requires forall m: nat :: m < 8 ==> TestBit(b, m)
    ensures b == 0xFF
  {
    BitTable(0); BitTable(1); BitTable(2); BitTable(3);
    BitTable(4); BitTable(5); BitTable(6); BitTable(7);
    assert TestBit(b, 0) && TestBit(b, 1) && TestBit(b, 2) && TestBit(b, 3);
    assert TestBit(b, 4) && TestBit(b, 5) && TestBit(b, 6) && TestBit(b, 7);
  }

  /** The bits of a byte are all there is to it. */
  lemma SameBits(b: bv8, c: bv8)
    requires forall m: nat :: m < 8 ==> (TestBit(b, m) <==> TestBit(c, m))
    ensures b == c
  {
    BitTable(0); BitTable(1); BitTable(2); BitTable(3);
    BitTable(4); BitTable(5); BitTable(6); BitTable(7);
    assert (TestBit(b, 0) <==> TestBit(c, 0)) && (TestBit(b, 1) <==> TestBit(c, 1));
    assert (TestBit(b, 2) <==> TestBit(c, 2)) && (TestBit(b, 3) <==> TestBit(c, 3));
    assert (TestBit(b, 4) <==> TestBit(c, 4)) && (TestBit(b, 5) <==> TestBit(c, 5));
    assert (TestBit(b, 6) <==> TestBit(c, 6)) && (TestBit(b, 7) <==> TestBit(c, 7));
  }

  lemma MaskTable(k: nat)
    requires k < 8
    ensures CandidateMask(k) == [0, 0xFF, 0xFE, 0xFC, 0xF8, 0xF0, 0xE0, 0xC0][k]
  {
    if k == 0 {} else if k == 1 {} else if k == 2 {} else if k == 3 {}
    else if k == 4 {} else if k == 5 {} else if k == 6 {} else {}
  }

  predicate Marked(bitmap: seq<bv8>, b: nat) {
    b / 8 < |bitmap| && TestBit(bitmap[b / 8], b % 8)
  }

  /** The bitmap with block `b` marked as taken. */
  function Mark(bitmap: seq<bv8>, b: nat): seq<bv8>
    requires b / 8 < |bitmap|
  {
    bitmap[b / 8 := bitmap[b / 8] | Bit(b % 8)]
  }

  lemma MarkOne(bitmap: seq<bv8>, b: nat, x: nat)
    requires b / 8 < |bitmap|
    ensures Marked(Mark(bitmap, b), x) <==> x == b || Marked(bitmap, x)
  {
    if x / 8 == b / 8 {
      SetBit(bitmap[b / 8], b % 8, x % 8);
    }
  }

  /** The numbers of the marked blocks. */
  ghost function Taken(bitmap: seq<bv8>): set<nat> {
    set b: nat | b < 8 * |bitmap| && Marked(bitmap, b)
  }

  lemma TakenAfterMark(bitmap: seq<bv8>, b: nat)
    requires b < 8 * |bitmap|
    ensures Taken(Mark(bitmap, b)) == Taken(bitmap) + {b}
  {
    forall x: nat ensures Marked(Mark(bitmap, b), x) <==> x == b || Marked(bitmap, x) {
      MarkOne(bitmap, b, x);
    }
  }
}
