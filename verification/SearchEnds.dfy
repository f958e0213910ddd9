/** When the searches for free blocks end: on every volume that initialisation accepts, each scan does. */
module SearchEnds {
  import opened Arith
  import opened Wrappers
  import opened Bitmap
  import opened BlockSearch
  import opened BlockAllocator
  import opened Layout

  /** The first byte that a sweep from the candidate after `dataStart` takes up. */
  function StartByte(dataStart: nat): nat {
    (dataStart + 7) / 8
  }

  lemma {:induction false} FirstClearBounds(b: bv8, x: nat, i: nat)
    requires i <= 8
    ensures x + i <= FirstClear(b, x, i) <= x + 8
    ensures FirstClear(b, x, i) == x + 8 ==> forall y :: x + i <= y < x + 8 ==> TestAt(b, y)
    decreases 8 - i
  {
    if i < 8 && TestAt(b, x + i) {
      FirstClearBounds(b, x, i + 1);
    }
  }

  lemma HitBounds(b: bv8, x: nat)
    requires b & CandidateMask(x % 8) != CandidateMask(x % 8)
    ensures x <= FirstClear(b, x, 0) < x + 8
  {
    hide FirstClear, CandidateMask, TestAt;
    FirstClearBounds(b, x, 0);
    if FirstClear(b, x, 0) == x + 8 {
      FullByte(b, x);
    }
  }

  /** What a sweep finds is not behind its start, and not far behind the volume. */
  lemma {:induction false} SweepAhead(bitmap: seq<bv8>, n: nat, x: nat, p: nat)
    ensures Sweep(bitmap, n, x, p).Some? ==> x <= Sweep(bitmap, n, x, p).value <= n + 6
    decreases n - x
  {
    hide Sweep, FirstClear, CandidateMask;
    PastEnd(bitmap, n, x, p);
    if x < n {
      var q, hit := SweepStep(bitmap, n, x, p);
      if !hit {
        SweepAhead(bitmap, n, x + 1, q);
      }
    }
  }

  lemma PastEnd(bitmap: seq<bv8>, n: nat, x: nat, p: nat)
    ensures x >= n ==> Sweep(bitmap, n, x, p) == None
  {
  }

  lemma SweepStep(bitmap: seq<bv8>, n: nat, x: nat, p: nat) returns (q: nat, hit: bool)
    requires x < n
    ensures hit ==> Sweep(bitmap, n, x, p).Some? && x <= Sweep(bitmap, n, x, p).value < x + 8
    ensures !hit ==> Sweep(bitmap, n, x, p) == Sweep(bitmap, n, x + 1, q)
  {
    hide Sweep, FirstClear, CandidateMask;
    SweepRound(bitmap, n, x, p);
    q := if x % 8 == 1 then x / 8 else p;
    hit := q < |bitmap| && bitmap[q] & CandidateMask(x % 8) != CandidateMask(x % 8);
    if hit {
      HitBounds(bitmap[q], x);
    }
  }

  /** A sweep with a byte at hand of which all bits but the lowest are set passes on to the next byte it takes up. */
  lemma {:induction false} QuietUntil(bitmap: seq<bv8>, n: nat, x: nat, p: nat, b: nat)
    requires 8 * b < x + 7 && x <= 8 * b + 1 < n && p < |bitmap|
    requires forall k: nat :: 1 <= k < 8 ==> TestBit(bitmap[p], k)
    ensures Sweep(bitmap, n, x, p) == Sweep(bitmap, n, 8 * b + 1, p)
    decreases 8 * b + 1 - x
  {
    hide Sweep, FirstClear, CandidateMask, TestBit;
    if x < 8 * b + 1 {
      SweepRound(bitmap, n, x, p);
      assert x % 8 != 1;
      if x % 8 == 0 {
        MaskTable(0);
      } else {
        MaskPasses(bitmap[p], x % 8);
      }
      QuietUntil(bitmap, n, x + 1, p, b);
    }
  }

  lemma LowBitIsClear(bitmap: seq<bv8>, b: nat)
    requires b < |bitmap| && !Marked(bitmap, 8 * b)
    ensures bitmap[b] & 0xFF != 0xFF
  {
    BitTable(0);
    assert (8 * b) / 8 == b && (8 * b) % 8 == 0;
  }

  /** The bits of byte 1 are those of the blocks 8 to 15. */
  lemma SecondByte(bitmap: seq<bv8>, n: nat)
    requires 16 <= n <= 8 * |bitmap| && Exhausted(bitmap, n)
    ensures forall k: nat :: 1 <= k < 8 ==> TestBit(bitmap[1], k)
  {
    forall k: nat | 1 <= k < 8 ensures TestBit(bitmap[1], k) {
      assert Marked(bitmap, 8 + k) && (8 + k) / 8 == 1 && (8 + k) % 8 == k;
    }
  }

  /** In an exhausted volume the second sweep finds something as long as the first byte it takes up is not full. */
  lemma SecondSweep(bitmap: seq<bv8>, n: nat, dataStart: nat)
    requires 16 <= n <= 8 * |bitmap| && Exhausted(bitmap, n)
    requires 8 * StartByte(dataStart) + 1 < n && !Marked(bitmap, 8 * StartByte(dataStart))
    ensures Sweep(bitmap, n, dataStart + 1, 1) == Some(FirstClear(bitmap[StartByte(dataStart)],
                  8 * StartByte(dataStart) + 1, 0))
    ensures FirstClear(bitmap[StartByte(dataStart)], 8 * StartByte(dataStart) + 1, 0) > 8 * StartByte(dataStart)
  {
    hide Sweep, FirstClear, CandidateMask, TestBit, Marked;
    var b := StartByte(dataStart);
    SecondByte(bitmap, n);
    QuietUntil(bitmap, n, dataStart + 1, 1, b);
    SweepRound(bitmap, n, 8 * b + 1, 1);
    assert (8 * b + 1) % 8 == 1 && (8 * b + 1) / 8 == b;
    LowBitIsClear(bitmap, b);
    FirstClearBounds(bitmap[b], 8 * b + 1, 0);
  }

  /** The state of a search that has run off the end: all blocks that are no multiples of 8 are taken, but the one
      with which the second sweep begins never is, and the search is past it. */
  ghost predicate RanOff(n: nat, dataStart: nat, s: Pool) {
    && 16 <= n <= 8 * |s.bitmap| && 8 * StartByte(dataStart) + 1 < n
    && Exhausted(s.bitmap, n) && !Marked(s.bitmap, 8 * StartByte(dataStart)) && s.first > 8 * StartByte(dataStart)
  }

  /** A turn ends when the first candidate has a bit in the bitmap. */
  lemma TurnEnds(n: nat, dataStart: nat, s: Pool)
    requires s.first / 8 < |s.bitmap| && s.free > 0
    requires 16 <= n <= 8 * |s.bitmap| && 8 * StartByte(dataStart) + 1 < n
    requires Exhausted(Mark(s.bitmap, s.first), n) && !Marked(Mark(s.bitmap, s.first), 8 * StartByte(dataStart))
    requires s.first + 1 > 8 * StartByte(dataStart)
    ensures Turn(n, dataStart, s).Some? && RanOff(n, dataStart, Turn(n, dataStart, s).value)
  {
    hide Sweep, FirstClear, Exhausted, Marked;
    var bitmap := Mark(s.bitmap, s.first);
    SweepAhead(bitmap, n, s.first + 1, s.first / 8);
    SecondSweep(bitmap, n, dataStart);
  }

  /** A search that has run off the end goes on as long as its candidate has a bit in the bitmap. */
  lemma RunsOn(n: nat, dataStart: nat, s: Pool)
    requires RanOff(n, dataStart, s) && s.first / 8 < |s.bitmap| && s.free > 0
    ensures Turn(n, dataStart, s).Some? && RanOff(n, dataStart, Turn(n, dataStart, s).value)
  {
    hide Turn;
    StillExhausted(s.bitmap, n, s.first);
    MarkOne(s.bitmap, s.first, 8 * StartByte(dataStart));
    TurnEnds(n, dataStart, s);
  }

  lemma StillExhausted(bitmap: seq<bv8>, n: nat, first: nat)
    requires Exhausted(bitmap, n) && first / 8 < |bitmap|
    ensures Exhausted(Mark(bitmap, first), n)
  {
    forall b | 0 <= b < n && b % 8 != 0 ensures Marked(Mark(bitmap, first), b) {
      MarkOne(bitmap, first, b);
    }
  }

  /** The turn that takes the last block of a regular volume that is no multiple of 8 ends. */
  lemma RunsOff(n: nat, dataStart: nat, s: Pool)
    requires Regular(s.bitmap, n, s.first, s.free) && NextCandidate(s.first) >= n >= 16
    requires dataStart > 0 && 8 * StartByte(dataStart) + 1 < n
    ensures Turn(n, dataStart, s).Some? && RanOff(n, dataStart, Turn(n, dataStart, s).value)
  {
    var b := 8 * StartByte(dataStart);
    LastTaken(s.bitmap, n, s.first, s.free);
    assert b > 0 && b % 8 == 0 && b !in TakenBelow(s.first);
    MarkOne(s.bitmap, s.first, b);
    assert Marked(s.bitmap, b) ==> b in Taken(s.bitmap);
    FreeLeft(s.bitmap, n, s.first, s.free);
    TurnEnds(n, dataStart, s);
  }

  /** As long as its searches have not run off the end, a volume of more than one block has a free one. */
  lemma FreeLeft(bitmap: seq<bv8>, n: nat, first: nat, free: nat)
    requires Regular(bitmap, n, first, free) && n > 1
    ensures first < n && free > 0
  {
    hide Taken, TakenBelow;
    FreeTellsFirst(bitmap, n, first, free, 0);
  }

  /** In a small volume the turn that takes the last block that is no multiple of 8 ends too. */
  lemma RunsOffSmall(n: nat, dataStart: nat, s: Pool)
    requires Regular(s.bitmap, n, s.first, s.free) && NextCandidate(s.first) >= n && 9 <= n < 16
    requires 3 <= dataStart <= 6 && 2 <= |s.bitmap|
    ensures Turn(n, dataStart, s).Some?
  {
    hide Sweep, FirstClear, CandidateMask, Taken;
    FreeLeft(s.bitmap, n, s.first, s.free);
    var bitmap := Mark(s.bitmap, s.first);
    MarkOne(s.bitmap, s.first, 15);
    NotTaken(s.bitmap, 15);
    MaskFindsFree(bitmap[1], dataStart + 1, 7);
    SweepRound(bitmap, n, dataStart + 1, 1);
  }

  lemma NotTaken(bitmap: seq<bv8>, b: nat)
    ensures Marked(bitmap, b) <==> b in Taken(bitmap)
  {
  }

  /** What a layout must be like for searches to end: the byte with which the second sweep begins lies before the end
      of the volume; small volumes begin their data where that sweep looks at the end of the second byte. */
  predicate Roomy(n: nat, dataStart: nat, bytes: nat) {
    && 1 <= n <= 8 * bytes && 2 <= bytes && dataStart > 0
    && (n >= 16 ==> 8 * StartByte(dataStart) + 1 < n)
    && (9 <= n < 16 ==> 3 <= dataStart <= 6)
  }

  /** Every accepted layout is like that. */
  lemma AcceptedRoomy(blockSize: nat, n: nat)
    requires Accepted(blockSize, n)
    ensures var mb := GetInitialMasterBlock(blockSize, n); Roomy(n, mb.dataStartBlock, BitmapBytes(mb))
  {
    TablesLargeEnough(blockSize, n);
    FewBlocks(n, blockSize * 8, 8192);
    FewBlocks(n, blockSize / INODE_SIZE, 4);
    CeilDivBounds(n, blockSize * 8);
    CeilDivBounds(n, blockSize / INODE_SIZE);
  }

  lemma FewBlocks(n: nat, size: nat, least: nat)
    requires n > 0 && 0 < least <= size
    ensures (CeilDiv(n, size) - 1) * least < n && CeilDiv(n, size) >= 1
  {
    CeilDivBounds(n, size);
    var q := CeilDiv(n, size) - 1;
    assert (q + 1) * size == q * size + size;
    assert q * least <= q * size;
  }

  /** How far a search of a regular volume has come after `k` turns: it is still on the candidates of a regular
      volume, or it has run off the end; a small volume has no free block to hand out then. */
  ghost predicate OnCourse(n: nat, dataStart: nat, s: Pool, k: nat, t: Pool) {
    && |t.bitmap| == |s.bitmap| && t.free == s.free - k
    && if NthCandidate(s.first, k) < n then Regular(t.bitmap, n, t.first, t.free) && t.first == NthCandidate(s.first, k)
       else n >= 9 && (n >= 16 ==> RanOff(n, dataStart, t)) && (n < 16 ==> k == s.free - 1)
  }

  lemma SmallVolumeOut(n: nat, s: Pool, k: nat)
    requires Regular(s.bitmap, n, s.first, s.free) && k < s.free && NthCandidate(s.first, k) >= n && n < 16
    ensures n >= 9 && k == s.free - 1
  {
    hide Regular, NthCandidate;
    FreeTellsFirst(s.bitmap, n, s.first, s.free, k);
  }

  /** One more turn: it ends if and only if the candidate has a bit in the bitmap. */
  lemma CourseGoesOn(n: nat, dataStart: nat, s: Pool, k: nat, t: Pool)
    requires Regular(s.bitmap, n, s.first, s.free) && Roomy(n, dataStart, |s.bitmap|) && k + 1 < s.free
    requires OnCourse(n, dataStart, s, k, t)
    ensures Turn(n, dataStart, t).Some? <==> t.first < 8 * |s.bitmap|
    ensures Turn(n, dataStart, t).Some? ==> OnCourse(n, dataStart, s, k + 1, Turn(n, dataStart, t).value)
  {
    hide Turn, Regular, RanOff;
    FreeTellsFirst(s.bitmap, n, s.first, s.free, 0);
    var next := NthCandidate(s.first, k + 1);
    if NthCandidate(s.first, k) < n {
      FreeLeft(t.bitmap, n, t.first, t.free);
      if next < n {
        TurnFits(n, dataStart, t);
        MarkLength(t.bitmap, t.first);
      } else {
        RunOffTurn(n, dataStart, s, k, t);
      }
    } else {
      NthIncreasing(s.first, k, k + 1);
      if n < 16 {
        assert false;
      }
      RanOffTurn(n, dataStart, t);
    }
  }

  lemma RunOffTurn(n: nat, dataStart: nat, s: Pool, k: nat, t: Pool)
    requires Regular(s.bitmap, n, s.first, s.free) && Roomy(n, dataStart, |s.bitmap|) && k + 1 < s.free
    requires Regular(t.bitmap, n, t.first, t.free) && t.free == s.free - k && |t.bitmap| == |s.bitmap|
    requires t.first == NthCandidate(s.first, k) && NthCandidate(s.first, k + 1) >= n
    ensures Turn(n, dataStart, t).Some?
    ensures OnCourse(n, dataStart, s, k + 1, Turn(n, dataStart, t).value)
  {
    hide Regular, RanOff;
    if n < 16 {
      SmallVolumeOut(n, s, k + 1);
      RunsOffSmall(n, dataStart, t);
    } else {
      RunsOff(n, dataStart, t);
    }
  }

  lemma RanOffTurn(n: nat, dataStart: nat, t: Pool)
    requires RanOff(n, dataStart, t) && t.free > 0
    ensures Turn(n, dataStart, t).Some? <==> t.first < 8 * |t.bitmap|
    ensures Turn(n, dataStart, t).Some? ==>
              && RanOff(n, dataStart, Turn(n, dataStart, t).value)
              && Turn(n, dataStart, t).value.free == t.free - 1 && |Turn(n, dataStart, t).value.bitmap| == |t.bitmap|
  {
    hide RanOff, NextFree;
    if t.first / 8 < |t.bitmap| {
      RunsOn(n, dataStart, t);
    }
  }

  /** After any number of turns a search is on course. */
  lemma {:induction false} StaysOnCourse(n: nat, dataStart: nat, s: Pool, k: nat)
    requires Regular(s.bitmap, n, s.first, s.free) && Roomy(n, dataStart, |s.bitmap|) && k < s.free
    requires Turned(n, dataStart, s, k).Some?
    ensures OnCourse(n, dataStart, s, k, Turned(n, dataStart, s, k).value)
  {
    hide Turn, OnCourse, Regular;
    if k == 0 {
      StartsOnCourse(n, dataStart, s);
    } else {
      StaysOnCourse(n, dataStart, s, k - 1);
      CourseGoesOn(n, dataStart, s, k - 1, Turned(n, dataStart, s, k - 1).value);
    }
  }

  lemma StartsOnCourse(n: nat, dataStart: nat, s: Pool)
    requires Regular(s.bitmap, n, s.first, s.free) && s.free > 0
    ensures OnCourse(n, dataStart, s, 0, s)
  {
    hide Taken;
    FreeTellsFirst(s.bitmap, n, s.first, s.free, 0);
  }

  /** On every volume that initialisation accepts, each scan of a search that started regular ends; the only thing
      that stops the search is a candidate that has no bit in the bitmap. */
  lemma EveryScanEnds(blockSize: nat, n: nat, s: Pool, k: nat)
    requires Accepted(blockSize, n) && Regular(s.bitmap, n, s.first, s.free)
    requires var mb := GetInitialMasterBlock(blockSize, n); |s.bitmap| == BitmapBytes(mb)
    requires k + 1 < s.free && Turned(n, GetInitialMasterBlock(blockSize, n).dataStartBlock, s, k).Some?
    ensures var d := GetInitialMasterBlock(blockSize, n).dataStartBlock;
      Turned(n, d, s, k + 1).Some? <==> Turned(n, d, s, k).value.first < 8 * |s.bitmap|
  {
    hide Turn, OnCourse, Regular, Roomy;
    var d := GetInitialMasterBlock(blockSize, n).dataStartBlock;
    AcceptedRoomy(blockSize, n);
    StaysOnCourse(n, d, s, k);
    CourseGoesOn(n, d, s, k, Turned(n, d, s, k).value);
  }

  /** A search whose bitmap has a few bits more than the volume has blocks always ends. */
  lemma {:induction false} SpareBitsSuffice(blockSize: nat, n: nat, s: Pool, k: nat)
    requires Accepted(blockSize, n) && Regular(s.bitmap, n, s.first, s.free)
    requires var mb := GetInitialMasterBlock(blockSize, n); |s.bitmap| == BitmapBytes(mb) && n + 6 < 8 * |s.bitmap|
    requires k < s.free
    ensures Turned(n, GetInitialMasterBlock(blockSize, n).dataStartBlock, s, k).Some?
  {
    hide Turn, Regular;
    var d := GetInitialMasterBlock(blockSize, n).dataStartBlock;
    if k > 0 {
      SpareBitsSuffice(blockSize, n, s, k - 1);
      NotFarBehind(n, d, s, k - 1);
      EveryScanEnds(blockSize, n, s, k - 1);
    }
  }

  lemma NotFarBehind(n: nat, dataStart: nat, s: Pool, k: nat)
    requires Regular(s.bitmap, n, s.first, s.free) && Turned(n, dataStart, s, k).Some?
    ensures Turned(n, dataStart, s, k).value.first <= n + 6
  {
    hide Sweep;
    if k > 0 {
      var t := Turned(n, dataStart, s, k - 1).value;
      SweepAhead(Mark(t.bitmap, t.first), n, t.first + 1, t.first / 8);
      SweepAhead(Mark(t.bitmap, t.first), n, dataStart + 1, 1);
    }
  }

  /** The state of a search `i` turns after it has run off the end of a volume: it goes on with every second multiple
      of 8, and none from there on has been taken. */
  ghost predicate Striding(n: nat, dataStart: nat, s: Pool, i: nat) {
    && s.first == 8 * (StartByte(dataStart) + 1 + 2 * i) && 16 <= n <= 8 * |s.bitmap|
    && Exhausted(s.bitmap, n)
    && forall j :: StartByte(dataStart) + 2 * i <= j && 8 * j < n ==> !Marked(s.bitmap, 8 * j)
  }

  /** A byte of which only the lowest bit is clear stops a sweep, and sends the search to the block behind it. */
  lemma GapSends(bitmap: seq<bv8>, n: nat, p: nat, b: nat)
    requires n <= 8 * |bitmap| && 8 * b + 8 <= n && Exhausted(bitmap, n) && !Marked(bitmap, 8 * b)
    ensures Sweep(bitmap, n, 8 * b + 1, p) == Some(8 * b + 8)
  {
    hide Sweep, FirstClear, CandidateMask, TestBit, Marked;
    assert (8 * b + 1) % 8 == 1 && (8 * b + 1) / 8 == b;
    LowBitIsClear(bitmap, b);
    AllBits(bitmap[b]);
    StopsAtGap(bitmap, n, b);
    SweepRound(bitmap, n, 8 * b + 1, b);
    SweepRound(bitmap, n, 8 * b + 1, p);
  }

  lemma StrideStarts(n: nat, dataStart: nat, s: Pool)
    requires Regular(s.bitmap, n, s.first, s.free) && s.first + 1 == n && n >= 16 && n % 8 == 0
    requires dataStart > 0 && 8 * StartByte(dataStart) + 1 < n
    ensures Turn(n, dataStart, s).Some? && Striding(n, dataStart, Turn(n, dataStart, s).value, 0)
    ensures Turn(n, dataStart, s).value.free == s.free - 1 && |Turn(n, dataStart, s).value.bitmap| == |s.bitmap|
  {
    hide Sweep, FirstClear, CandidateMask, TestBit, Marked, Taken;
    var b, bitmap := StartByte(dataStart), Mark(s.bitmap, s.first);
    FreeLeft(s.bitmap, n, s.first, s.free);
    LastTaken(s.bitmap, n, s.first, s.free);
    forall j: nat | b <= j && 8 * j < n ensures !Marked(bitmap, 8 * j) {
      MarkOne(s.bitmap, s.first, 8 * j);
      NotTaken(s.bitmap, 8 * j);
    }
    SweepRound(bitmap, n, s.first + 1, s.first / 8);
    SecondByte(bitmap, n);
    QuietUntil(bitmap, n, dataStart + 1, 1, b);
    GapSends(bitmap, n, 1, b);
  }

  lemma StrideGoesOn(n: nat, dataStart: nat, s: Pool, i: nat)
    requires Striding(n, dataStart, s, i) && s.free > 0 && s.first + 16 <= n
    ensures Turn(n, dataStart, s).Some? && Striding(n, dataStart, Turn(n, dataStart, s).value, i + 1)
    ensures Turn(n, dataStart, s).value.free == s.free - 1 && |Turn(n, dataStart, s).value.bitmap| == |s.bitmap|
  {
    hide Sweep, FirstClear, CandidateMask, TestBit, Marked;
    var c, bitmap := s.first / 8, Mark(s.bitmap, s.first);
    StillExhausted(s.bitmap, n, s.first);
    forall j: nat | c < j && 8 * j < n ensures !Marked(bitmap, 8 * j) {
      MarkOne(s.bitmap, s.first, 8 * j);
    }
    MarkOne(s.bitmap, s.first, s.first);
    forall y | 8 * c <= y < 8 * c + 8 ensures Marked(bitmap, y) {
      assert y != s.first ==> y % 8 != 0;
    }
    PassesByte(bitmap, n, 8 * c + 1, c);
    EntersByte(bitmap, n, c);
    GapSends(bitmap, n, c + 1, c + 1);
  }

  /** A search that has run off the end of a volume whose bitmap has no bit more than the volume has blocks strides
      from the start of the second sweep to the end of the bitmap. */
  lemma {:induction false} StridesOn(n: nat, dataStart: nat, s: Pool, k: nat, i: nat)
    requires Turned(n, dataStart, s, k).Some? && Striding(n, dataStart, Turned(n, dataStart, s, k).value, 0)
    requires i < Turned(n, dataStart, s, k).value.free && 8 * (StartByte(dataStart) + 1 + 2 * i) <= n
    ensures Turned(n, dataStart, s, k + i).Some? && Striding(n, dataStart, Turned(n, dataStart, s, k + i).value, i)
    ensures Turned(n, dataStart, s, k + i).value.free == Turned(n, dataStart, s, k).value.free - i
  {
    hide Turn, Exhausted, Marked;
    if i > 0 {
      StridesOn(n, dataStart, s, k, i - 1);
      StrideGoesOn(n, dataStart, Turned(n, dataStart, s, k + i - 1).value, i - 1);
    }
  }

  /** A search can leave the bitmap: in a volume with as many blocks as its bitmap has bits it comes to the number
      behind the last block, if the byte with which the second sweep begins and the last byte are an even number
      apart. */
  lemma LeavesBitmap(n: nat, dataStart: nat, s: Pool) returns (k: nat)
    requires Regular(s.bitmap, n, s.first, s.free) && n == 8 * |s.bitmap| && Roomy(n, dataStart, |s.bitmap|)
    requires (|s.bitmap| - 1 - StartByte(dataStart)) % 2 == 0
    ensures k < s.free && Turned(n, dataStart, s, k).Some? && Turned(n, dataStart, s, k).value.first == n
  {
    hide Turn, Regular, Turned, Striding, Roomy, NthCandidate, StartByte;
    var off, i := LastTurn(n, dataStart, s);
    SearchFits(n, dataStart, s, off);
    StrideStarts(n, dataStart, Turned(n, dataStart, s, off).value);
    NextTurned(n, dataStart, s, off);
    StridesOn(n, dataStart, s, off + 1, i);
    StridingAt(n, dataStart, Turned(n, dataStart, s, off + 1 + i).value, i);
    k := off + 1 + i;
  }

  /** When such a search takes the last block that is no multiple of 8, and how many turns later it leaves. */
  lemma LastTurn(n: nat, dataStart: nat, s: Pool) returns (off: nat, i: nat)
    requires Regular(s.bitmap, n, s.first, s.free) && n == 8 * |s.bitmap| && Roomy(n, dataStart, |s.bitmap|)
    requires (|s.bitmap| - 1 - StartByte(dataStart)) % 2 == 0
    ensures off + 1 + i < s.free && NthCandidate(s.first, off) == n - 1
    ensures n >= 16 && n % 8 == 0 && dataStart > 0 && 8 * StartByte(dataStart) + 1 < n
    ensures 8 * (StartByte(dataStart) + 1 + 2 * i) == n
  {
    hide Regular, NthCandidate, Rank;
    var bytes := |s.bitmap|;
    FreeTellsFirst(s.bitmap, n, s.first, s.free, 0);
    FreeLeft(s.bitmap, n, s.first, s.free);
    LastPlace(bytes, n - s.free - 1);
    off := s.free - bytes;
    i := (bytes - 1 - StartByte(dataStart)) / 2;
    FreeTellsFirst(s.bitmap, n, s.first, s.free, off);
  }

  lemma NextTurned(n: nat, dataStart: nat, s: Pool, k: nat)
    requires Turned(n, dataStart, s, k).Some?
    ensures Turned(n, dataStart, s, k + 1) == Turn(n, dataStart, Turned(n, dataStart, s, k).value)
  {
  }

  lemma StridingAt(n: nat, dataStart: nat, s: Pool, i: nat)
    requires Striding(n, dataStart, s, i)
    ensures s.first == 8 * (StartByte(dataStart) + 1 + 2 * i)
  {
  }

  /** The last number below `8 * bytes` that is no multiple of 8 has the place `7 * bytes - 1`. */
  lemma LastPlace(bytes: nat, e: nat)
    requires bytes > 0
    ensures Rank(7 * bytes - 1) == 8 * bytes - 1
    ensures Rank(e) < 8 * bytes ==> e < 7 * bytes
  {
    assert 7 * bytes - 1 == 7 * (bytes - 1) + 6;
  }

  /** In a new volume of 8192 blocks of 1024 bytes a search for 7552 blocks comes to block number 8192, whose bit
      would lie behind the bitmap. */
  lemma CandidateBehindBitmap(bitmap: seq<bv8>)
    requires |bitmap| == 1024 && bitmap[0] == 1 && forall i :: 1 <= i < 1024 ==> bitmap[i] == 0
    ensures Accepted(1024, 8192) && BitmapBytes(GetInitialMasterBlock(1024, 8192)) == 1024
    ensures var d, s := GetInitialMasterBlock(1024, 8192).dataStartBlock, Pool(bitmap, 1, 8191);
      && Regular(bitmap, 8192, 1, 8191)
      && exists k :: k < 8191 && Turned(8192, d, s, k).Some? && Turned(8192, d, s, k).value.first == 8192
  {
    hide Turned, Taken;
    var d, s := GetInitialMasterBlock(1024, 8192).dataStartBlock, Pool(bitmap, 1, 8191);
    assert d == 2050;
    OneMark(bitmap[0 := 0], bitmap);
    var k := LeavesBitmap(8192, d, s);
  }
}
