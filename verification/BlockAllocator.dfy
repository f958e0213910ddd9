/** The search for free blocks. */
module BlockAllocator {
  import opened Bitmap
  import opened BlockSearch
  import opened Wrappers

  /** The candidate the search tries after `b`: the next number that is not a multiple of 8. */
  function NextCandidate(b: nat): nat {
    if (b + 1) % 8 == 0 then b + 2 else b + 1
  }

  /** The candidate `k` places after `first`. */
  function NthCandidate(first: nat, k: nat): nat {
    if k == 0 then first else NextCandidate(NthCandidate(first, k - 1))
  }

  /** The blocks a search that starts at `first` hands out while it stays inside the volume. */
  function Candidates(first: nat, k: nat): (s: seq<nat>)
    ensures |s| == k
  {
    seq(k, i requires 0 <= i < k => NthCandidate(first, i))
  }

  /** The `e`-th positive number that is not a multiple of 8. */
  function Rank(e: nat): nat {
    8 * (e / 7) + e % 7 + 1
  }

  lemma RankStep(e: nat)
    ensures NextCandidate(Rank(e)) == Rank(e + 1)
    ensures Rank(e) < Rank(e + 1) && Rank(e) % 8 != 0
  {
    var q, m := e / 7, e % 7;
    assert Rank(e) == 8 * q + m + 1;
    if m == 6 {
      assert e + 1 == 7 * (q + 1);
      assert Rank(e + 1) == 8 * (q + 1) + 1;
    } else {
      assert e + 1 == 7 * q + (m + 1);
      assert Rank(e + 1) == 8 * q + m + 2;
    }
  }

  /** The candidates from the `e`-th one on are the ranks from `e` on. */
  lemma {:induction false} NthIsRank(e: nat, k: nat)
    ensures NthCandidate(Rank(e), k) == Rank(e + k)
  {
    if k > 0 {
      NthIsRank(e, k - 1);
      RankStep(e + k - 1);
    }
  }

  lemma {:induction false} NthIncreasing(first: nat, i: nat, j: nat)
    requires i <= j
    ensures NthCandidate(first, i) + (j - i) <= NthCandidate(first, j)
    ensures first % 8 != 0 ==> NthCandidate(first, j) % 8 != 0
  {
    if i < j {
      NthIncreasing(first, i, j - 1);
    } else if i > 0 {
      NthIncreasing(first, i - 1, i - 1);
    }
  }

  /** The blocks a volume whose searches never ran off its end has handed out when `first` is the next candidate:
      block 0, and the smaller numbers except the multiples of 8, which every search skips. */
  ghost function TakenBelow(first: nat): set<nat> {
    set b: nat | b < first && (b == 0 || b % 8 != 0)
  }

  /** The search state of such a volume: the bitmap holds just those blocks, and the free count is the number of clear
      bits among the `n` blocks. */
  ghost predicate Regular(bitmap: seq<bv8>, n: nat, first: nat, free: nat) {
    && 1 <= n <= 8 * |bitmap|
    && first % 8 != 0 && (first < n || n == first == 1)
    && Taken(bitmap) == TakenBelow(first)
    && free == n - |Taken(bitmap)|
  }

  /** Every number that is no multiple of 8 has its place among them. */
  lemma PlaceOf(first: nat) returns (e: nat)
    requires first % 8 != 0
    ensures first == Rank(e)
  {
    e := 7 * (first / 8) + first % 8 - 1;
    var q, m := first / 8, first % 8;
    assert e == 7 * q + (m - 1) && e / 7 == q && e % 7 == m - 1;
  }

  /** As many blocks are handed out below the `e`-th candidate as its place says, and block 0. */
  lemma {:induction false} TakenBelowRank(e: nat)
    ensures |TakenBelow(Rank(e))| == e + 1
  {
    if e == 0 {
      assert TakenBelow(Rank(0)) == {0};
    } else {
      TakenBelowRank(e - 1);
      RankStep(e - 1);
      TakenBelowNext(Rank(e - 1));
      assert Rank(e - 1) !in TakenBelow(Rank(e - 1));
    }
  }

  lemma TakenBelowNext(first: nat)
    requires first % 8 != 0
    ensures TakenBelow(NextCandidate(first)) == TakenBelow(first) + {first}
  {
  }

  /** The free count alone tells which candidate is next, and so how many more blocks a search can find: `k` of them
      if and only if the candidate behind those is inside the volume. */
  lemma FreeTellsFirst(bitmap: seq<bv8>, n: nat, first: nat, free: nat, k: nat)
    requires Regular(bitmap, n, first, free)
    ensures free < n && first == Rank(n - free - 1) && NthCandidate(first, k) == Rank(n - free - 1 + k)
  {
    var e := PlaceOf(first);
    TakenBelowRank(e);
    NthIsRank(e, k);
  }

  lemma OneMark(blank: seq<bv8>, bitmap: seq<bv8>)
    requires |blank| > 0 && forall i :: 0 <= i < |blank| ==> blank[i] == 0
    requires bitmap == blank[0 := 1]
    ensures Taken(bitmap) == {0} == TakenBelow(1)
  {
    BitTable(0);
    assert bitmap == Mark(blank, 0);
    TakenAfterMark(blank, 0);
    forall b: nat | b < 8 * |blank| ensures !Marked(blank, b) {
    }
    assert Taken(blank) == {};
  }

  lemma MarkKeepsRegular(bitmap: seq<bv8>, n: nat, first: nat, free: nat)
    requires Regular(bitmap, n, first, free) && NextCandidate(first) < n
    ensures free > 0
    ensures Regular(Mark(bitmap, first), n, NextCandidate(first), free - 1)
  {
    hide Marked, Taken, TakenBelow, Mark;
    TakenAfterMark(bitmap, first);
    TakenBelowNext(first);
    MarkLength(bitmap, first);
    TakenBelowAdds(first);
    TakenBelowSize(NextCandidate(first));
  }

  lemma TakenBelowAdds(first: nat)
    requires first % 8 != 0
    ensures |TakenBelow(first) + {first}| == |TakenBelow(first)| + 1
  {
    assert first !in TakenBelow(first);
  }

  lemma {:induction false} TakenBelowSize(first: nat)
    ensures |TakenBelow(first)| <= first
  {
    if first > 0 {
      TakenBelowSize(first - 1);
      assert TakenBelow(first) <= TakenBelow(first - 1) + {first - 1};
      SubsetSize(TakenBelow(first), TakenBelow(first - 1) + {first - 1});
    } else {
      assert TakenBelow(0) == {};
    }
  }

  lemma {:induction false} SubsetSize(s: set<nat>, t: set<nat>)
    requires s <= t
    ensures |s| <= |t|
  {
    if s != {} {
      var x :| x in s;
      SubsetSize(s - {x}, t - {x});
    }
  }

  /** In a regular bitmap the scan that follows the taking of `first` finds the next candidate. */
  lemma ScanRegular(bitmap: seq<bv8>, n: nat, first: nat)
    requires first % 8 != 0 && NextCandidate(first) < n <= 8 * |bitmap|
    requires Taken(bitmap) == TakenBelow(NextCandidate(first))
    ensures Sweep(bitmap, n, first + 1, first / 8) == Some(NextCandidate(first))
  {
    var z := NextCandidate(first);
    forall y: nat | y < 8 * |bitmap| ensures Marked(bitmap, y) <==> y < z && (y == 0 || y % 8 != 0) {
      assert Marked(bitmap, y) <==> y in Taken(bitmap);
    }
    assert FirstFree(bitmap, first, z);
    ScanAnswers(bitmap, n, first, z);
    assert z / 8 <= first / 8 + 1;
  }

  /** The blocks handed out are distinct, increasing, in range and were free; afterwards exactly they are taken too. */
  lemma {:induction false} CandidatesAreFree(n: nat, first: nat, k: nat)
    requires first % 8 != 0 && NthCandidate(first, k) < n
    ensures forall i :: 0 <= i < k ==> first <= Candidates(first, k)[i] < n
    ensures forall i, j :: 0 <= i < j < k ==> Candidates(first, k)[i] < Candidates(first, k)[j]
    ensures forall i :: 0 <= i < k ==> Candidates(first, k)[i] !in TakenBelow(first)
    ensures TakenBelow(NthCandidate(first, k)) == TakenBelow(first) + set b | b in Candidates(first, k)
  {
    hide NextCandidate, TakenBelow;
    if k > 0 {
      var last := NthCandidate(first, k - 1);
      NthIncreasing(first, k - 1, k);
      NthIncreasing(first, 0, k - 1);
      CandidatesAreFree(n, first, k - 1);
      CandidatesSnoc(first, k);
      TakenBelowNext(last);
      NotBelow(first, last);
      forall i | 0 <= i < k - 1 ensures Candidates(first, k)[i] < last {
        NthIncreasing(first, i, k - 1);
      }
    }
  }

  lemma NotBelow(first: nat, b: nat)
    requires first <= b
    ensures b !in TakenBelow(first)
  {
  }

  /** In a volume of at most 8 blocks no search can run off the end. */
  lemma SmallVolumesFit(bitmap: seq<bv8>, n: nat, first: nat, free: nat, k: nat)
    requires Regular(bitmap, n, first, free) && n <= 8
    ensures free > k ==> NthCandidate(first, k) == first + k < n
  {
    hide Regular, NthCandidate;
    FreeTellsFirst(bitmap, n, first, free, k);
  }

  /** The state of a search: the bitmap, the next candidate and the free count. */
  datatype Pool = Pool(bitmap: seq<bv8>, first: nat, free: nat)

  /** One turn of the search takes `first` and scans for the next candidate; nothing if that lies outside the bitmap,
      or the scan never ends. */
  ghost function Turn(n: nat, dataStart: nat, s: Pool): Option<Pool> {
    if s.first / 8 >= |s.bitmap| || s.free == 0 then None
    else
      var bitmap := Mark(s.bitmap, s.first);
      match NextFree(bitmap, n, dataStart, s.first + 1, s.first / 8)
      case None => None
      case Some(next) => Some(Pool(bitmap, next, s.free - 1))
  }

  /** The state after `k` turns. */
  ghost function Turned(n: nat, dataStart: nat, s: Pool, k: nat): Option<Pool> {
    if k == 0 then Some(s)
    else match Turned(n, dataStart, s, k - 1) case None => None case Some(t) => Turn(n, dataStart, t)
  }

  /** The blocks that `k` turns hand out. */
  ghost function HandedOut(n: nat, dataStart: nat, s: Pool, k: nat): (blocks: seq<nat>)
    requires Turned(n, dataStart, s, k).Some?
    ensures |blocks| == k
  {
    if k == 0 then [] else HandedOut(n, dataStart, s, k - 1) + [Turned(n, dataStart, s, k - 1).value.first]
  }

  /** A regular search that stays inside the volume ends, leaves it regular, and hands out the candidates. */
  lemma {:induction false} SearchFits(n: nat, dataStart: nat, s: Pool, k: nat)
    requires Regular(s.bitmap, n, s.first, s.free) && NthCandidate(s.first, k) < n && k < s.free
    ensures var t := Turned(n, dataStart, s, k);
      && t.Some? && t.value.first == NthCandidate(s.first, k) && t.value.free == s.free - k
      && Regular(t.value.bitmap, n, t.value.first, t.value.free)
      && HandedOut(n, dataStart, s, k) == Candidates(s.first, k)
  {
    hide Regular, Turn, NextFree, Candidates;
    if k == 0 {
      assert Candidates(s.first, 0) == [];
    } else {
      NthIncreasing(s.first, k - 1, k);
      SearchFits(n, dataStart, s, k - 1);
      TurnFits(n, dataStart, Turned(n, dataStart, s, k - 1).value);
      CandidatesSnoc(s.first, k);
    }
  }

  lemma NoCandidates(first: nat)
    ensures Candidates(first, 0) == [] && NthCandidate(first, 0) == first
  {
  }

  lemma CandidatesSnoc(first: nat, k: nat)
    requires k > 0
    ensures Candidates(first, k) == Candidates(first, k - 1) + [NthCandidate(first, k - 1)]
  {
  }

  lemma RegularParts(bitmap: seq<bv8>, n: nat, first: nat, free: nat)
    requires Regular(bitmap, n, first, free) && NextCandidate(first) < n
    ensures first < n <= 8 * |bitmap| && first % 8 != 0 && first / 8 < |bitmap| && Taken(bitmap) == TakenBelow(first)
  {
  }

  lemma MarkLength(bitmap: seq<bv8>, b: nat)
    requires b / 8 < |bitmap|
    ensures |Mark(bitmap, b)| == |bitmap|
  {
  }

  lemma TurnFits(n: nat, dataStart: nat, s: Pool)
    requires Regular(s.bitmap, n, s.first, s.free) && NextCandidate(s.first) < n
    ensures s.first / 8 < |s.bitmap| && s.free > 0
    ensures Turn(n, dataStart, s) == Some(Pool(Mark(s.bitmap, s.first), NextCandidate(s.first), s.free - 1))
    ensures Regular(Mark(s.bitmap, s.first), n, NextCandidate(s.first), s.free - 1)
  {
    hide Regular, Taken, TakenBelow, Sweep, Mark, NextCandidate;
    RegularParts(s.bitmap, n, s.first, s.free);
    MarkKeepsRegular(s.bitmap, n, s.first, s.free);
    TakenAfterMark(s.bitmap, s.first);
    TakenBelowNext(s.first);
    MarkLength(s.bitmap, s.first);
    ScanRegular(Mark(s.bitmap, s.first), n, s.first);
  }

  /** Every block of the volume whose number is no multiple of 8 is marked. */
  ghost predicate Exhausted(bitmap: seq<bv8>, n: nat) {
    forall b :: 0 <= b < n && b % 8 != 0 ==> Marked(bitmap, b)
  }

  /** A volume whose search has run off its end is not regular any more, whatever the candidate and the count; what it
      hands out from then on lies outside the volume, is a multiple of 8, or is taken already. */
  lemma ExhaustedNotRegular(bitmap: seq<bv8>, n: nat, first: nat, free: nat)
    requires Exhausted(bitmap, n) && n > 1
    ensures !Regular(bitmap, n, first, free)
    ensures first >= n || first % 8 == 0 || Marked(bitmap, first)
  {
    if first < n && first % 8 != 0 {
      assert Marked(bitmap, first);
      assert first in Taken(bitmap) && first !in TakenBelow(first);
    }
  }

  /** The turn that takes the last candidate exhausts the volume. */
  lemma LastTaken(bitmap: seq<bv8>, n: nat, first: nat, free: nat)
    requires Regular(bitmap, n, first, free) && n > 1 && NextCandidate(first) >= n
    ensures Exhausted(Mark(bitmap, first), n)
  {
    forall b | 0 <= b < n && b % 8 != 0 ensures Marked(Mark(bitmap, first), b) {
      MarkOne(bitmap, first, b);
      assert b < first ==> b in Taken(bitmap);
    }
  }

  lemma TurnKeepsExhausted(n: nat, dataStart: nat, s: Pool)
    requires Exhausted(s.bitmap, n) && Turn(n, dataStart, s).Some?
    ensures Exhausted(Turn(n, dataStart, s).value.bitmap, n)
  {
    forall b | 0 <= b < n && b % 8 != 0 ensures Marked(Mark(s.bitmap, s.first), b) {
      MarkOne(s.bitmap, s.first, b);
    }
  }

  /** A search that does not stay inside the volume, if it ends, leaves it exhausted. */
  lemma {:induction false} SearchRunsOff(n: nat, dataStart: nat, s: Pool, k: nat)
    requires Regular(s.bitmap, n, s.first, s.free) && n > 1 && k < s.free
    requires NthCandidate(s.first, k) >= n && Turned(n, dataStart, s, k).Some?
    ensures Exhausted(Turned(n, dataStart, s, k).value.bitmap, n)
  {
    hide Regular, Exhausted, NextFree;
    FirstInside(s.bitmap, n, s.first, s.free);
    var t := Turned(n, dataStart, s, k - 1).value;
    if NthCandidate(s.first, k - 1) < n {
      SearchFits(n, dataStart, s, k - 1);
      LastTaken(t.bitmap, n, t.first, t.free);
    } else {
      SearchRunsOff(n, dataStart, s, k - 1);
      TurnKeepsExhausted(n, dataStart, t);
    }
  }

  lemma FirstInside(bitmap: seq<bv8>, n: nat, first: nat, free: nat)
    requires Regular(bitmap, n, first, free) && n > 1
    ensures first < n
  {
  }

  /** A search of a regular volume that is not refused, and ends, leaves it regular if and only if it stays inside. */
  lemma RegularIffFits(n: nat, dataStart: nat, s: Pool, k: nat)
    requires Regular(s.bitmap, n, s.first, s.free) && k < s.free && Turned(n, dataStart, s, k).Some?
    ensures var t := Turned(n, dataStart, s, k).value;
      && (Regular(t.bitmap, n, t.first, t.free) <==> NthCandidate(s.first, k) < n)
      && (NthCandidate(s.first, k) >= n ==> t.first >= n || t.first % 8 == 0 || Marked(t.bitmap, t.first))
  {
    hide Regular, Turned, Exhausted;
    FreeTellsFirst(s.bitmap, n, s.first, s.free, k);
    if NthCandidate(s.first, k) < n {
      SearchFits(n, dataStart, s, k);
    } else {
      SearchRunsOff(n, dataStart, s, k);
      var t := Turned(n, dataStart, s, k).value;
      ExhaustedNotRegular(t.bitmap, n, t.first, t.free);
    }
  }

  /** The first 20 blocks that a search of a new volume of 25 blocks hands out. */
  lemma TwentyTaken()
    ensures Turned(25, 4, Pool([0x01, 0, 0, 0], 1, 24), 20) == Some(Pool([0xFF, 0xFE, 0x7E, 0], 23, 4))
    ensures Regular([0xFF, 0xFE, 0x7E, 0], 25, 23, 4)
  {
    hide Turned, Taken, TakenBelow, Regular, NthCandidate, Rank;
    var s := Pool([0x01, 0, 0, 0], 1, 24);
    New25();
    TwentiethCandidate();
    SearchFits(25, 4, s, 20);
    var t := Turned(25, 4, s, 20).value;
    TurnedLength(25, 4, s, 20);
    SameTaken(t.bitmap);
  }

  lemma New25()
    ensures Regular([0x01, 0, 0, 0], 25, 1, 24)
  {
    hide Taken, TakenBelow;
    var blank: seq<bv8> := [0, 0, 0, 0];
    OneMark(blank, [0x01, 0, 0, 0]);
  }

  lemma TwentiethCandidate()
    ensures NthCandidate(1, 20) == 23
  {
    hide NthCandidate;
    NthIsRank(0, 20);
  }

  /** The bitmap of the 20 blocks is the only regular one. */
  lemma SameTaken(bitmap: seq<bv8>)
    requires |bitmap| == 4 && Regular(bitmap, 25, 23, 4)
    ensures bitmap == [0xFF, 0xFE, 0x7E, 0]
  {
    hide TakenBelow;
    TwentyMarked();
    TakenDetermines([0xFF, 0xFE, 0x7E, 0], bitmap);
  }

  lemma TwentyMarked()
    ensures Taken([0xFF, 0xFE, 0x7E, 0]) == TakenBelow(23)
  {
    var bitmap: seq<bv8> := [0xFF, 0xFE, 0x7E, 0];
    forall b: nat | b < 32 ensures Marked(bitmap, b) <==> b < 23 && (b == 0 || b % 8 != 0) {
      MarkedTable(bitmap, b / 8, b % 8);
    }
  }

  lemma MarkedTable(bitmap: seq<bv8>, i: nat, m: nat)
    requires i < 4 && m < 8 && bitmap == [0xFF, 0xFE, 0x7E, 0]
    ensures TestBit(bitmap[i], m) <==> 8 * i + m < 23 && (8 * i + m == 0 || m != 0)
  {
    BitTable(m);
    if i == 0 {} else if i == 1 {} else if i == 2 {} else {}
  }

  lemma {:induction false} TurnedLength(n: nat, dataStart: nat, s: Pool, k: nat)
    requires Turned(n, dataStart, s, k).Some?
    ensures |Turned(n, dataStart, s, k).value.bitmap| == |s.bitmap|
  {
    hide NextFree;
    if k > 0 {
      TurnedLength(n, dataStart, s, k - 1);
    }
  }

  lemma TakenDetermines(a: seq<bv8>, b: seq<bv8>)
    requires |a| == |b| && Taken(a) == Taken(b)
    ensures a == b
  {
    forall i | 0 <= i < |a| ensures a[i] == b[i] {
      forall m: nat | m < 8 ensures TestBit(a[i], m) <==> TestBit(b[i], m) {
        assert (8 * i + m) / 8 == i && (8 * i + m) % 8 == m;
        assert 8 * i + m in Taken(a) <==> 8 * i + m in Taken(b);
      }
      SameBits(a[i], b[i]);
    }
  }

  /** After block 24 the scan of that volume starts over, and stops at the second byte. */
  lemma WrapsTo16(bitmap: seq<bv8>)
    requires bitmap == [0xFF, 0xFE, 0xFE, 0] || bitmap == [0xFF, 0xFE, 0xFF, 0]
    ensures NextFree(bitmap, 25, 4, 24, 2) == Some(16)
    ensures bitmap[2] == 0xFF ==> NextFree(bitmap, 25, 4, 17, 2) == Some(16)
  {
    forall k: nat | k < 8 ensures CandidateMask(k) == [0, 0xFF, 0xFE, 0xFC, 0xF8, 0xF0, 0xE0, 0xC0][k] {
      MaskTable(k);
    }
    assert Sweep(bitmap, 25, 24, 2) == None;
    assert Sweep(bitmap, 25, 9, 1) == Some(16) by {
      StopsAtGap1(bitmap);
    }
    assert Sweep(bitmap, 25, 7, 1) == Some(16);
    assert Sweep(bitmap, 25, 5, 1) == Some(16);
    if bitmap[2] == 0xFF {
      assert Sweep(bitmap, 25, 22, 2) == None;
      assert Sweep(bitmap, 25, 20, 2) == None;
      assert Sweep(bitmap, 25, 18, 2) == None;
      assert Sweep(bitmap, 25, 17, 2) == None;
    }
  }

  lemma StopsAtGap1(bitmap: seq<bv8>)
    requires |bitmap| == 4 && bitmap[1] == 0xFE
    ensures Sweep(bitmap, 25, 9, 1) == Some(16)
  {
    forall y | 8 < y < 16 ensures Marked(bitmap, y) {
      BitTable(y % 8);
      assert y / 8 == 1;
    }
    StopsAtGap(bitmap, 25, 1);
  }

  /** In a volume of 25 blocks of 4096 bytes of which a first search has taken 20, a search for three hands out block
      16 twice. */
  lemma RunOffTakesTwice()
    ensures var s := Pool([0xFF, 0xFE, 0x7E, 0], 23, 4);
      && Turned(25, 4, Pool([0x01, 0, 0, 0], 1, 24), 20) == Some(s) && Regular(s.bitmap, 25, s.first, s.free)
      && Turned(25, 4, s, 3).Some? && HandedOut(25, 4, s, 3) == [23, 16, 16]
  {
    TwentyTaken();
    var s, full: seq<bv8> := Pool([0xFF, 0xFE, 0x7E, 0], 23, 4), [0xFF, 0xFE, 0xFF, 0];
    hide Turn, NextFree;
    TurnsTo16();
    assert Turned(25, 4, s, 0) == Some(s);
    assert Turned(25, 4, s, 1) == Some(Pool([0xFF, 0xFE, 0xFE, 0], 16, 3));
    assert Turned(25, 4, s, 2) == Some(Pool(full, 16, 2));
    assert Turned(25, 4, s, 3) == Some(Pool(full, 16, 1));
    assert HandedOut(25, 4, s, 0) == [];
    assert HandedOut(25, 4, s, 1) == [23];
    assert HandedOut(25, 4, s, 2) == [23, 16];
  }

  lemma TurnsTo16()
    ensures Turn(25, 4, Pool([0xFF, 0xFE, 0x7E, 0], 23, 4)) == Some(Pool([0xFF, 0xFE, 0xFE, 0], 16, 3))
    ensures Turn(25, 4, Pool([0xFF, 0xFE, 0xFE, 0], 16, 3)) == Some(Pool([0xFF, 0xFE, 0xFF, 0], 16, 2))
    ensures Turn(25, 4, Pool([0xFF, 0xFE, 0xFF, 0], 16, 2)) == Some(Pool([0xFF, 0xFE, 0xFF, 0], 16, 1))
  {
    hide NextFree;
    BitTable(7);
    BitTable(0);
    var first, last, full: seq<bv8> := [0xFF, 0xFE, 0x7E, 0], [0xFF, 0xFE, 0xFE, 0], [0xFF, 0xFE, 0xFF, 0];
    assert Mark(first, 23) == last && Mark(last, 16) == full && Mark(full, 16) == full;
    WrapsTo16(last);
    WrapsTo16(full);
  }

  class BlockAllocator {
    const numberOfBlocks: nat
    const dataStartBlock: nat
    const bitmap: array<bv8>
    var numberOfFreeBlocks: nat
    var firstFreeBlockNumber: nat

    /** The bitmap has a bit for every block, and a second byte, which the scan starts over with. */
    ghost predicate Sized() {
      2 <= bitmap.Length && numberOfBlocks <= 8 * bitmap.Length
    }

    ghost predicate Valid()
      reads this, bitmap
    {
      Sized() && Regular(bitmap[..], numberOfBlocks, firstFreeBlockNumber, numberOfFreeBlocks)
    }

    ghost function State(): Pool
      reads this, bitmap
    {
      Pool(bitmap[..], firstFreeBlockNumber, numberOfFreeBlocks)
    }

    /** The search state of a new volume: only block 0 is taken. */
    constructor (numberOfBlocks: nat, dataStartBlock: nat, bitmapBytes: nat)
      requires 1 <= numberOfBlocks <= 8 * bitmapBytes && 2 <= bitmapBytes
      ensures Valid() && fresh(bitmap)
      ensures this.numberOfBlocks == numberOfBlocks && this.dataStartBlock == dataStartBlock
      ensures firstFreeBlockNumber == 1 && numberOfFreeBlocks == numberOfBlocks - 1
      ensures Taken(bitmap[..]) == {0}
    {
      this.numberOfBlocks := numberOfBlocks;
      this.dataStartBlock := dataStartBlock;
      bitmap := new bv8[bitmapBytes](_ => 0);
      numberOfFreeBlocks := numberOfBlocks - 1;
      firstFreeBlockNumber := 1;
      new;
      ghost var blank := bitmap[..];
      bitmap[0] := 1;
      OneMark(blank, bitmap[..]);
    }

    /** A search for `k` blocks stays inside the volume. */
    predicate Fits(k: nat)
      reads this
    {
      NthCandidate(firstFreeBlockNumber, k) < numberOfBlocks
    }

    /** A search for `k` blocks is refused, or each of its scans ends. */
    ghost predicate Ends(k: nat)
      reads this, bitmap
    {
      numberOfFreeBlocks <= k || Turned(numberOfBlocks, dataStartBlock, State(), k).Some?
    }

    /** The scan for the next free block, from candidate `from` with bitmap byte `at` at hand, if it ends. */
    method ScanForFree(from: nat, at: nat) returns (candidate: nat)
      requires AtHand(bitmap[..], numberOfBlocks, from, at)
      requires exists rounds :: Scan(bitmap[..], numberOfBlocks, dataStartBlock, from, at, rounds).Some?
      ensures Some(candidate) == NextFree(bitmap[..], numberOfBlocks, dataStartBlock, from, at)
    {
      hide Scan, FirstClear, Sweep, NextFree, Ahead;
      ghost var bits, n, d := bitmap[..], numberOfBlocks, dataStartBlock;
      ScanEnds(bits, n, d, from, at);
      candidate := from;
      var byteIndex: nat := at;
      ghost var again := false;
      ghost var goal := Ahead(bits, n, d, from, at, again);
      AheadStart(bits, n, d, from, at);
      while true
        invariant byteIndex < bitmap.Length && candidate <= 8 * bitmap.Length
        invariant Ahead(bits, n, d, candidate, byteIndex, again) == goal
        decreases !again, n - candidate
      {
        AheadRound(bits, n, d, candidate, byteIndex, again);
        var mask := CandidateMask(candidate % 8);
        if mask == 0xFF {
          byteIndex := candidate / 8;
        }
        if bitmap[byteIndex] & mask != mask && candidate < numberOfBlocks {
          candidate := ParseByte(bitmap[byteIndex], candidate);
          return;
        } else if candidate >= numberOfBlocks {
          candidate := dataStartBlock + 1;
          byteIndex := 1;
          again := true;
        } else {
          candidate := candidate + 1;
        }
      }
    }

    /** The inner loop of the scan, over the bits of one byte. */
    method ParseByte(b: bv8, from: nat) returns (candidate: nat)
      requires b & CandidateMask(from % 8) != CandidateMask(from % 8)
      ensures candidate == FirstClear(b, from, 0)
    {
      hide FirstClear, CandidateMask, TestBit;
      candidate := from;
      while TestBit(b, candidate % 8)
        invariant from <= candidate < from + 8
        invariant forall y :: from <= y < candidate ==> TestAt(b, y)
        decreases from + 8 - candidate
      {
        assert TestAt(b, candidate);
        if candidate == from + 7 {
          FullByte(b, from);
        }
        candidate := candidate + 1;
      }
      FirstClearIs(b, from, 0, candidate);
    }

    /** Takes `k` free blocks and writes their numbers to `freeBlocks` from index `at` on; returns the first of them,
        or nothing when there are no more than `k` free blocks. The bitmap may be any; a regular one stays regular if
        and only if the search stays inside the volume. */
    method FindFreeBlocks(k: nat, freeBlocks: array<nat>, at: nat) returns (found: Option<nat>)
      requires Sized() && Ends(k)
      requires at + k <= freeBlocks.Length && freeBlocks as object != bitmap
      modifies this, bitmap, freeBlocks
      ensures found == if old(numberOfFreeBlocks) <= k then None else Some(old(firstFreeBlockNumber))
      ensures found.None? ==> unchanged(this) && unchanged(bitmap) && unchanged(freeBlocks)
      ensures found.Some? ==> Some(State()) == old(Turned(numberOfBlocks, dataStartBlock, State(), k))
      ensures found.Some? ==> freeBlocks[at..at + k] == old(HandedOut(numberOfBlocks, dataStartBlock, State(), k))
      ensures found.Some? && old(Valid()) ==> (Valid() <==> old(Fits(k)))
      ensures found.Some? && old(Valid() && Fits(k)) ==>
                && numberOfFreeBlocks == old(numberOfFreeBlocks) - k
                && firstFreeBlockNumber == NthCandidate(old(firstFreeBlockNumber), k)
                && freeBlocks[at..at + k] == Candidates(old(firstFreeBlockNumber), k)
      ensures forall x :: 0 <= x < freeBlocks.Length && !(at <= x < at + k) ==> freeBlocks[x] == old(freeBlocks[x])
    {
      hide Regular, Turn, NextFree;
      if numberOfFreeBlocks <= k {
        return None;
      }
      ghost var s, n, d := State(), numberOfBlocks, dataStartBlock;
      var saved := firstFreeBlockNumber;
      for i := 0 to k
        invariant Some(State()) == Turned(n, d, s, i)
        invariant freeBlocks[at..at + i] == HandedOut(n, d, s, i)
        invariant forall x :: 0 <= x < freeBlocks.Length && !(at <= x < at + k) ==> freeBlocks[x] == old(freeBlocks[x])
      {
        EarlierTurns(n, d, s, i + 1, k);
        freeBlocks[at + i] := firstFreeBlockNumber;
        assert freeBlocks[at..at + i + 1] == freeBlocks[at..at + i] + [firstFreeBlockNumber];
        TakeFirst();
      }
      if Regular(s.bitmap, n, s.first, s.free) {
        RegularIffFits(n, d, s, k);
        if NthCandidate(s.first, k) < n {
          SearchFits(n, d, s, k);
        }
      }
      return Some(saved);
    }

    /** One turn of the search: marks the first free block and looks for the next one. */
    method TakeFirst()
      requires Sized() && Turn(numberOfBlocks, dataStartBlock, State()).Some?
      modifies this, bitmap
      ensures Some(State()) == old(Turn(numberOfBlocks, dataStartBlock, State()))
    {
      hide NextFree, Scan, Mark;
      MarkFirst();
      numberOfFreeBlocks := numberOfFreeBlocks - 1;
      ScanEnds(bitmap[..], numberOfBlocks, dataStartBlock, firstFreeBlockNumber + 1, firstFreeBlockNumber / 8);
      firstFreeBlockNumber := ScanForFree(firstFreeBlockNumber + 1, firstFreeBlockNumber / 8);
    }

    method MarkFirst()
      requires firstFreeBlockNumber / 8 < bitmap.Length
      modifies bitmap
      ensures bitmap[..] == Mark(old(bitmap[..]), firstFreeBlockNumber)
    {
      var bitmapByte := firstFreeBlockNumber / 8;
      bitmap[bitmapByte] := bitmap[bitmapByte] | Bit(firstFreeBlockNumber % 8);
    }

    /** A search of a regular volume that stays inside it ends. */
    lemma FitsEnds(k: nat)
      requires Valid() && (numberOfFreeBlocks <= k || Fits(k))
      ensures Ends(k) && Sized()
    {
      hide Regular, Turned;
      if k < numberOfFreeBlocks {
        SearchFits(numberOfBlocks, dataStartBlock, State(), k);
      }
    }
  }

  /** A search whose turns all end has ended all earlier ones. */
  lemma {:induction false} EarlierTurns(n: nat, dataStart: nat, s: Pool, i: nat, k: nat)
    requires Turned(n, dataStart, s, k).Some? && i <= k
    ensures Turned(n, dataStart, s, i).Some?
  {
    hide Turn;
    if i < k {
      EarlierTurns(n, dataStart, s, i, k - 1);
    }
  }
}
