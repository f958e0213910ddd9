/** Writing a buffer over a table of blocks, and walking a chain. */
module BlockStore {
  import opened Arith
  import opened Wrappers
  import opened Chains

  /** The index, within its file, of the block that holds offset `off`. */
  function BlockIndex(r: nat, off: nat): nat
    requires r > 0
  {
    off / r
  }

  /** How many blocks the write loop visits for `len` bytes: the count ignores the offset inside the first block. */
  function BlocksVisited(r: nat, len: nat): nat
    requires r > 0 && len > 0
  {
    1 + (len - 1) / r
  }

  /** How many of the `len` bytes the write loop lays down when it starts at file offset `off`. */
  function WrittenLength(r: nat, off: nat, len: nat): (n: nat)
    requires r > 0 && len > 0
    ensures n <= len
  {
    VisitedBounds(r, off, len);
    Min(len, (BlockIndex(r, off) + BlocksVisited(r, len)) * r - off)
  }

  lemma VisitedBounds(r: nat, off: nat, len: nat)
    requires r > 0 && len > 0
    ensures (BlocksVisited(r, len) - 1) * r < len <= BlocksVisited(r, len) * r
    ensures (BlockIndex(r, off) + BlocksVisited(r, len)) * r == off - off % r + BlocksVisited(r, len) * r
    ensures (BlockIndex(r, off) + BlocksVisited(r, len)) * r > off
  {
    DivMod(len - 1, r);
    DivMod(off, r);
    var w := BlocksVisited(r, len);
    assert (w - 1) * r == (len - 1) / r * r;
    assert w * r == (w - 1) * r + r;
    assert (BlockIndex(r, off) + w) * r == BlockIndex(r, off) * r + w * r;
  }

  /** The write loop lays down the whole buffer exactly when its block count was right; otherwise it loses as many
      bytes at the end as that count leaves no room for. */
  lemma WrittenInFull(r: nat, off: nat, len: nat)
    requires r > 0 && len > 0
    ensures WrittenLength(r, off, len) == len <==> off % r + (len - 1) % r < r
    ensures len - WrittenLength(r, off, len) == Max(0, off % r + (len - 1) % r + 1 - r)
  {
    VisitedBounds(r, off, len);
    DivMod(len - 1, r);
    var w := BlocksVisited(r, len);
    assert w * r == (len - 1) / r * r + r;
  }

  /** A buffer of `r` bytes written one byte into a block loses its last byte. */
  lemma WrittenShort()
    ensures WrittenLength(1016, 1, 1016) == 1015
  {
  }

  /** The blocks a file needs to hold `end` bytes are enough for the write loop that ends there. */
  lemma VisitedFit(r: nat, off: nat, len: nat)
    requires r > 0 && len > 0
    ensures BlockIndex(r, off) + BlocksVisited(r, len) <= CeilDiv(off + len, r)
    ensures CeilDiv(off + len, r) <= BlockIndex(r, off) + BlocksVisited(r, len) + 1
  {
    VisitedBounds(r, off, len);
    DivMod(off, r);
    CeilDivBounds(off + len, r);
    var n, s, w := CeilDiv(off + len, r), BlockIndex(r, off), BlocksVisited(r, len);
    assert (s + w) * r == s * r + w * r;
    assert (w - 1) * r == w * r - r;
    assert (s + w - 1) * r == s * r + (w - 1) * r;
    assert (s + w + 2) * r == s * r + w * r + 2 * r;
    if n < s + w {
      MulMonotone(n, s + w - 1, r);
    }
    if n > s + w + 1 {
      MulMonotone(s + w + 2, n, r);
    }
  }

  /** What the write loop has done to the disk after laying down `n` bytes over the blocks `lo..hi` of `c`. */
  ghost predicate Laid(r: nat, was: seq<Block>, now: seq<Block>, c: seq<nat>, d: seq<byte>, off: nat, lo: int, hi: int)
    requires InRange(was, c)
  {
    && |now| == |was| && BlocksOk(r, now)
    && (forall b :: 0 <= b < |was| && b !in c ==> now[b] == was[b])
    && (forall i :: 0 <= i < |c| ==> now[c[i]].next == if lo <= i < hi then NextIn(c, i) else was[c[i]].next)
    && off + |d| <= |Flat(was, c)|
    && Flat(now, c) == Splice(Flat(was, c), off, d)
  }

  lemma LaidStart(r: nat, was: seq<Block>, now: seq<Block>, c: seq<nat>, off: nat, s: nat)
    requires BlocksOk(r, was) && InRange(was, c) && Distinct(c)
    requires s < |c| && off <= |Flat(was, c)|
    requires now == LinkedBefore(was, c, s)
    ensures Laid(r, was, now, c, [], off, s - 1, s)
  {
    hide Flat, Splice;
    FlatFrame(was, now, c);
    SpliceNothing(Flat(was, c), off);
  }

  lemma LaidStep(r: nat, was: seq<Block>, now: seq<Block>, c: seq<nat>, d: seq<byte>, off: nat, lo: int, j: nat,
                 at: nat, e: seq<byte>, then': seq<Block>)
    requires InRange(was, c) && Distinct(c)
    requires Laid(r, was, now, c, d, off, lo, j)
    requires lo <= j < |c|
    requires off + |d| == j * r + at && at + |e| <= r
    requires then' == now[c[j] := Block(Splice(now[c[j]].data, at, e), NextIn(c, j))]
    ensures Laid(r, was, then', c, d + e, off, lo, j + 1)
  {
    FlatWrite(r, now, c, j, at, e, NextIn(c, j));
    SpliceTwice(Flat(was, c), off, d, e);
  }

  /** Where the write loop stands before its turn `j`: `done` bytes laid, the next one at offset `at` of its block. */
  ghost predicate Cursor(r: nat, off: nat, len: nat, end: nat, j: nat, at: nat, done: nat) {
    && j <= end && at < r && done <= len
    && (j < end ==> off + done == j * r + at)
    && (j == end ==> done == Min(len, end * r - off))
  }

  function ChunkLength(r: nat, at: nat, left: nat): nat
    requires at < r
  {
    if left < r - at then left else r - at
  }

  /** The turns `s..end` of the write loop begin in the block of offset `off` and lay `n` of `len` bytes. */
  ghost predicate Span(r: nat, off: nat, len: nat, s: nat, end: nat, n: nat) {
    s * r <= off && (end - s - 1) * r < len && n == Min(len, end * r - off)
  }

  lemma CursorStep(r: nat, off: nat, len: nat, s: nat, end: nat, n: nat, j: nat, at: nat, done: nat)
    requires s <= j < end && Span(r, off, len, s, end, n)
    requires Cursor(r, off, len, end, j, at, done)
    ensures off + done == j * r + at && at < r
    ensures Cursor(r, off, len, end, j + 1, 0, done + ChunkLength(r, at, len - done))
  {
    assert (j + 1) * r == j * r + r;
    if j + 1 < end {
      MulMonotone(j + 1, end - 1, r);
      assert (end - 1) * r == s * r + (end - s - 1) * r;
    }
  }

  lemma CursorEnd(r: nat, off: nat, len: nat, s: nat, end: nat, n: nat, j: nat, at: nat, done: nat)
    requires Span(r, off, len, s, end, n) && Cursor(r, off, len, end, j, at, done)
    ensures at < r && done <= len && (j == end ==> done == n)
  {
  }

  lemma CursorStart(r: nat, off: nat, len: nat, blocks: nat)
    requires r > 0 && len > 0
    requires BlockIndex(r, off) + BlocksVisited(r, len) <= blocks
    ensures off <= blocks * r && BlocksVisited(r, len) > 0
    ensures var s, w := BlockIndex(r, off), BlocksVisited(r, len);
      Span(r, off, len, s, s + w, WrittenLength(r, off, len))
    ensures Cursor(r, off, len, BlockIndex(r, off) + BlocksVisited(r, len), BlockIndex(r, off), off % r, 0)
  {
    DivMod(off, r);
    VisitedBounds(r, off, len);
    MulMonotone(BlockIndex(r, off) + BlocksVisited(r, len), blocks, r);
  }

  /** The disk with part of the `j`-th block of `c` filled and that block linked to the next one. */
  function Filled(disk: seq<Block>, c: seq<nat>, j: nat, at: nat, e: seq<byte>): seq<Block>
    requires InRange(disk, c) && j < |c| && at + |e| <= |disk[c[j]].data|
  {
    disk[c[j] := Block(Splice(disk[c[j]].data, at, e), NextIn(c, j))]
  }

  /** The disk with the block before the `s`-th one of `c`, if any, linked to it. */
  function LinkedBefore(disk: seq<Block>, c: seq<nat>, s: nat): seq<Block>
    requires InRange(disk, c) && s < |c|
  {
    if s == 0 then disk else disk[c[s - 1] := Block(disk[c[s - 1]].data, c[s])]
  }

  /** The disk after the turns `j..end` of the write loop. */
  ghost function Turns(r: nat, disk: seq<Block>, c: seq<nat>, data: seq<byte>, end: nat, j: nat, at: nat,
                       done: nat): seq<Block>
    requires at < r && end <= |c| && done <= |data|
    requires BlocksOk(r, disk) && InRange(disk, c)
    decreases end - j
  {
    if j >= end then disk
    else
      var length := ChunkLength(r, at, |data| - done);
      Turns(r, Filled(disk, c, j, at, data[done..done + length]), c, data, end, j + 1, 0, done + length)
  }

  /** The disk after `data` is written at file offset `off` over the blocks of `c`. */
  ghost function Saved(r: nat, disk: seq<Block>, c: seq<nat>, data: seq<byte>, off: nat): seq<Block>
    requires r > 0 && |data| > 0
    requires BlocksOk(r, disk) && InRange(disk, c)
    requires BlockIndex(r, off) + BlocksVisited(r, |data|) <= |c|
  {
    var s := BlockIndex(r, off);
    Turns(r, LinkedBefore(disk, c, s), c, data, s + BlocksVisited(r, |data|), s, off % r, 0)
  }

  lemma TurnsUnfold(r: nat, now: seq<Block>, c: seq<nat>, data: seq<byte>, end: nat, j: nat, at: nat, done: nat)
    requires at < r && j < end <= |c| && done <= |data|
    requires BlocksOk(r, now) && InRange(now, c)
    ensures Turns(r, now, c, data, end, j, at, done)
         == Turns(r, Filled(now, c, j, at, data[done..done + ChunkLength(r, at, |data| - done)]), c, data, end, j + 1,
             0,
                  done + ChunkLength(r, at, |data| - done))
  {
  }

  lemma LaidBlocks(r: nat, was: seq<Block>, now: seq<Block>, c: seq<nat>, d: seq<byte>, off: nat, lo: int, hi: int)
    requires InRange(was, c) && Laid(r, was, now, c, d, off, lo, hi)
    ensures |now| == |was| && BlocksOk(r, now) && InRange(now, c)
  {
  }

  lemma Chunks(data: seq<byte>, done: nat, length: nat)
    requires done + length <= |data|
    ensures data[..done] + data[done..done + length] == data[..done + length]
  {
  }

  lemma TurnsStop(r: nat, now: seq<Block>, c: seq<nat>, data: seq<byte>, end: nat, at: nat, done: nat)
    requires at < r && end <= |c| && done <= |data|
    requires BlocksOk(r, now) && InRange(now, c)
    ensures Turns(r, now, c, data, end, end, at, done) == now
  {
  }

  /** One turn of the write loop. */
  lemma TurnLaid(r: nat, was: seq<Block>, now: seq<Block>, c: seq<nat>, data: seq<byte>, off: nat, s: nat,
                 end: nat, n: nat, j: nat, at: nat, done: nat)
    requires s <= j < end <= |c| && Span(r, off, |data|, s, end, n)
    requires InRange(was, c) && Distinct(c)
    requires Cursor(r, off, |data|, end, j, at, done)
    requires Laid(r, was, now, c, data[..done], off, s - 1, j)
    ensures var length := ChunkLength(r, at, |data| - done);
      && done + length <= |data| && BlocksOk(r, now) && InRange(now, c)
      && var then' := Filled(now, c, j, at, data[done..done + length]);
         && Cursor(r, off, |data|, end, j + 1, 0, done + length)
         && Laid(r, was, then', c, data[..done + length], off, s - 1, j + 1)
         && BlocksOk(r, then') && InRange(then', c)
  {
    hide Laid, Turns, Flat, NextIn, Splice, Cursor, Span;
    CursorEnd(r, off, |data|, s, end, n, j, at, done);
    CursorStep(r, off, |data|, s, end, n, j, at, done);
    LaidBlocks(r, was, now, c, data[..done], off, s - 1, j);
    var length := ChunkLength(r, at, |data| - done);
    var e := data[done..done + length];
    var then' := Filled(now, c, j, at, e);
    LaidStep(r, was, now, c, data[..done], off, s - 1, j, at, e, then');
    Chunks(data, done, length);
    LaidBlocks(r, was, then', c, data[..done + length], off, s - 1, j + 1);
  }

  lemma {:induction false} TurnsLaid(r: nat, was: seq<Block>, now: seq<Block>, c: seq<nat>, data: seq<byte>, off: nat,
                                     s: nat,
                                     end: nat, j: nat, at: nat, done: nat, n: nat)
    requires s <= j <= end <= |c| && Span(r, off, |data|, s, end, n)
    requires InRange(was, c) && Distinct(c)
    requires Cursor(r, off, |data|, end, j, at, done)
    requires Laid(r, was, now, c, data[..done], off, s - 1, j)
    ensures Laid(r, was, Turns(r, now, c, data, end, j, at, done), c, data[..n], off, s - 1, end)
    decreases end - j
  {
    hide Laid, Turns, Flat, NextIn, Splice, Cursor, Span, BlocksOk, Filled;
    CursorEnd(r, off, |data|, s, end, n, j, at, done);
    LaidBlocks(r, was, now, c, data[..done], off, s - 1, j);
    if j == end {
      TurnsStop(r, now, c, data, end, at, done);
    } else {
      var length := ChunkLength(r, at, |data| - done);
      TurnLaid(r, was, now, c, data, off, s, end, n, j, at, done);
      TurnsUnfold(r, now, c, data, end, j, at, done);
      TurnsLaid(r, was, Filled(now, c, j, at, data[done..done + length]), c, data, off, s, end, j + 1, 0,
          done + length, n);
    }
  }

  /** The write loop splices what it lays down into the file's flat bytes, links the blocks it visits and the one
      before them, and touches no other block. */
  lemma SavedLaid(r: nat, disk: seq<Block>, c: seq<nat>, data: seq<byte>, off: nat)
    requires r > 0 && |data| > 0
    requires BlocksOk(r, disk) && InRange(disk, c) && Distinct(c)
    requires BlockIndex(r, off) + BlocksVisited(r, |data|) <= |c|
    ensures Laid(r, disk, Saved(r, disk, c, data, off), c, data[..WrittenLength(r, off, |data|)], off,
                 BlockIndex(r, off) - 1, BlockIndex(r, off) + BlocksVisited(r, |data|))
  {
    hide Laid, Turns, Flat, Cursor, Span, BlocksOk, BlockIndex, BlocksVisited, WrittenLength;
    var s, end, n := BlockIndex(r, off), BlockIndex(r, off) + BlocksVisited(r, |data|), WrittenLength(r, off, |data|);
    CursorStart(r, off, |data|, |c|);
    FlatLength(r, disk, c);
    var now := LinkedBefore(disk, c, s);
    LaidStart(r, disk, now, c, off, s);
    assert data[..0] == [];
    TurnsLaid(r, disk, now, c, data, off, s, end, s, off % r, 0, n);
  }

  /** The entries of a block table that a write up to block `end` may look at are those of `c`: they are its first
      ones, and either there are no others or the last block written is not the last one of `c`. */
  ghost predicate Covers(table: seq<nat>, c: seq<nat>, end: nat) {
    c <= table && end <= |c| && (|c| == |table| || end < |c|)
  }

  /** Writes `data` at file offset `off` over the blocks of `table`, of which only those of `c` need be filled in. */
  method SaveBufferToFile(r: nat, disk: array<Block>, table: seq<nat>, data: seq<byte>, off: nat, ghost c: seq<nat>)
    requires r > 0 && |data| > 0
    requires BlocksOk(r, disk[..]) && InRange(disk[..], c)
    requires Covers(table, c, BlockIndex(r, off) + BlocksVisited(r, |data|))
    modifies disk
    ensures disk[..] == Saved(r, old(disk[..]), c, data, off)
  {
    var blockToStart := BlockIndex(r, off);
    LinkPreviousBlock(disk, table, blockToStart, c);
    WriteBlocks(r, disk, table, data, blockToStart + BlocksVisited(r, |data|), blockToStart, off % r, c);
  }

  /** The write loop proper, from offset `offset` of block `start`. */
  method WriteBlocks(r: nat, disk: array<Block>, table: seq<nat>, data: seq<byte>, end: nat, start: nat, offset: nat,
                     ghost c: seq<nat>)
    requires offset < r && start <= end && Covers(table, c, end)
    requires BlocksOk(r, disk[..]) && InRange(disk[..], c)
    modifies disk
    ensures disk[..] == Turns(r, old(disk[..]), c, data, end, start, offset, 0)
  {
    hide Filled;
    var j: nat := start;
    var at: nat := offset;
    var done: nat := 0;
    ghost var final := Turns(r, disk[..], c, data, end, j, at, 0);
    while j < end
      invariant at < r && done <= |data|
      invariant BlocksOk(r, disk[..])
      invariant Turns(r, disk[..], c, data, end, j, at, done) == final
    {
      var length := r - at;
      if |data| - done < r - at {
        length := |data| - done;
      }
      ghost var before := disk[..];
      WriteToBlock(r, disk, table, j, at, data[done..done + length], c);
      TurnsUnfold(r, before, c, data, end, j, at, done);
      at := 0;
      done := done + length;
      j := j + 1;
    }
    TurnsStop(r, disk[..], c, data, end, at, done);
  }

  /** Records block `j` of the table as the successor of the block before it, if there is one. */
  method LinkPreviousBlock(disk: array<Block>, table: seq<nat>, j: nat, ghost c: seq<nat>)
    requires InRange(disk[..], c) && c <= table && j < |c|
    modifies disk
    ensures disk[..] == LinkedBefore(old(disk[..]), c, j)
  {
    if j > 0 {
      var previous := table[j - 1];
      assert previous == c[j - 1] < |disk[..]|;
      disk[previous] := disk[previous].(next := table[j]);
    }
  }

  /** Fills part of block `j` of the table and records the number of the next block after its payload. */
  method WriteToBlock(r: nat, disk: array<Block>, table: seq<nat>, j: nat, at: nat, chunk: seq<byte>, ghost c: seq<nat>)
    requires InRange(disk[..], c) && Covers(table, c, j + 1)
    requires BlocksOk(r, disk[..]) && at + |chunk| <= r
    modifies disk
    ensures BlocksOk(r, disk[..])
    ensures disk[..] == Filled(old(disk[..]), c, j, at, chunk)
  {
    var number := table[j];
    assert number == c[j] < |disk[..]| && |disk[..][number].data| == r;
    disk[number] := disk[number].(data := Splice(disk[number].data, at, chunk));
    if j != |table| - 1 {
      disk[number] := disk[number].(next := table[j + 1]);
    } else {
      disk[number] := disk[number].(next := 0);
    }
  }

  /** A block table with one entry more than the chain has blocks, and what a search may have added behind it: the
      link of the last block becomes that entry if and only if the write reaches the last block; otherwise the write
      is the one over the chain alone, whatever the entry holds. */
  lemma UnfilledEntry(r: nat, disk: seq<Block>, c: seq<nat>, x: nat, more: seq<nat>, data: seq<byte>, off: nat)
    requires r > 0 && |data| > 0 && c != []
    requires BlocksOk(r, disk) && InRange(disk, c) && InRange(disk, c + [x] + more) && disk[c[|c| - 1]].next == 0
    requires BlockIndex(r, off) <= |c|
    requires BlockIndex(r, off) + BlocksVisited(r, |data|) <= |c| + 1 + |more|
    ensures var end := BlockIndex(r, off) + BlocksVisited(r, |data|);
      && (end < |c| ==> Saved(r, disk, c + [x] + more, data, off) == Saved(r, disk, c, data, off))
      && (Distinct(c + [x] + more) && x != 0 ==>
            |Saved(r, disk, c + [x] + more, data, off)| == |disk|
            && (Saved(r, disk, c + [x] + more, data, off)[c[|c| - 1]].next == x <==> end >= |c|))
  {
    hide Saved, BlockIndex, BlocksVisited, Flat, WrittenLength;
    var t, n, end := c + [x] + more, |c|, BlockIndex(r, off) + BlocksVisited(r, |data|);
    if Distinct(t) {
      SavedLaid(r, disk, t, data, off);
      assert t[n - 1] == c[n - 1] && NextIn(t, n - 1) == x;
    }
    if end < n {
      SameSaved(r, disk, t, c, data, off);
    }
  }

  /** The write loop does not look behind the block after the last one it writes. */
  lemma SameSaved(r: nat, disk: seq<Block>, t: seq<nat>, c: seq<nat>, data: seq<byte>, off: nat)
    requires r > 0 && |data| > 0 && BlocksOk(r, disk) && InRange(disk, t) && InRange(disk, c)
    requires c <= t && BlockIndex(r, off) + BlocksVisited(r, |data|) < |c|
    ensures Saved(r, disk, t, data, off) == Saved(r, disk, c, data, off)
  {
    var s := BlockIndex(r, off);
    SameTurns(r, LinkedBefore(disk, c, s), t, c, data, s + BlocksVisited(r, |data|), s, off % r, 0);
  }

  lemma {:induction false} SameTurns(r: nat, disk: seq<Block>, t: seq<nat>, c: seq<nat>, data: seq<byte>, end: nat,
                                     j: nat, at: nat, done: nat)
    requires at < r && done <= |data| && BlocksOk(r, disk) && InRange(disk, t) && InRange(disk, c)
    requires c <= t && end < |c|
    ensures Turns(r, disk, t, data, end, j, at, done) == Turns(r, disk, c, data, end, j, at, done)
    decreases end - j
  {
    if j < end {
      var length := ChunkLength(r, at, |data| - done);
      assert t[j] == c[j] && NextIn(t, j) == NextIn(c, j);
      SameTurns(r, Filled(disk, c, j, at, data[done..done + length]), t, c, data, end, j + 1, 0, done + length);
    }
  }
}
