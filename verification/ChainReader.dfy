/** Reading bytes from a chain of blocks. */
module ChainReader {
  import opened Arith
  import opened Chains
  import opened BlockStore

  /** How many bytes a read of `len` at `pos <= size` delivers: in the last block the clip at the end of the file is
      right; a read that starts earlier is clipped by the number of bytes read so far. */
  function ReadLength(r: nat, size: nat, pos: nat, len: nat): (n: nat)
    requires r > 0 && pos <= size
  {
    CeilDivBounds(size, r);
    if pos == size then 0
    else if BlockIndex(r, pos) + 1 == CeilDiv(size, r) then Min(len, size - pos)
    else Min(len, Min(size, CeilDiv(size, r) * r - pos))
  }

  /** A read stops where the file or the request ends exactly when it starts at 0, ends inside the file, starts in the
      last block, or the last block is full. */
  lemma ReadExact(r: nat, size: nat, pos: nat, len: nat)
    requires r > 0 && pos <= size
    ensures ReadLength(r, size, pos, len) == Min(len, size - pos)
       <==> pos == 0 || pos + len <= size || size % r == 0 || BlockIndex(r, pos) >= BlockIndex(r, size - 1)
  {
    if pos < size {
      CeilDivBounds(size, r);
      FullBlocks(size, r);
      LastBlock(size, r, pos);
      ClipExact(size, pos, len, CeilDiv(size, r) * r);
    } else if pos > 0 {
      LastBlock(pos + 1, r, size - 1);
    }
  }

  /** Otherwise a read delivers more than there is: it is not longer than the request or the whole file, does not go
      past the last block, and meets one of these bounds. */
  lemma ReadTooLong(r: nat, size: nat, pos: nat, len: nat)
    requires r > 0 && 0 < pos < size < pos + len && size % r != 0 && BlockIndex(r, pos) < BlockIndex(r, size - 1)
    ensures var n := ReadLength(r, size, pos, len);
      && size - pos < n <= len && n <= size && pos + n <= CeilDiv(size, r) * r
      && (n == len || n == size || pos + n == CeilDiv(size, r) * r)
  {
    hide CeilDiv, BlockIndex;
    CeilDivBounds(size, r);
    FullBlocks(size, r);
    LastBlock(size, r, pos);
  }

  lemma ClipExact(size: nat, pos: nat, len: nat, capacity: nat)
    requires pos < size <= capacity
    ensures Min(len, Min(size, capacity - pos)) == Min(len, size - pos)
       <==> pos == 0 || pos + len <= size || capacity == size
  {
  }

  lemma FullBlocks(size: nat, r: nat)
    requires r > 0
    ensures size % r == 0 <==> CeilDiv(size, r) * r == size
  {
    DivMod(size, r);
    CeilDivBounds(size, r);
    if size % r == 0 {
      CeilDivUnique(size, r, size / r);
    } else if CeilDiv(size, r) * r == size {
      DivModUnique(size, r, CeilDiv(size, r), 0);
    }
  }

  lemma LastBlock(size: nat, r: nat, pos: nat)
    requires r > 0 && pos < size
    ensures BlockIndex(r, pos) + 1 <= CeilDiv(size, r)
    ensures BlockIndex(r, size - 1) + 1 == CeilDiv(size, r)
  {
    CeilDivBounds(size, r);
    CeilDivBounds(pos + 1, r);
    CeilDivMonotone(pos + 1, size, r);
  }

  /** A read near the end of the first of two blocks runs 20 bytes past a file of 1026 bytes. */
  lemma ReadPastEnd()
    ensures ReadLength(1016, 1026, 1010, 36) == 36 && 1010 + 36 > 1026
  {
  }

  /** Where the second loop of a read stands: `got` bytes read from `pos` on, block `j` next. */
  ghost predicate Reading(r: nat, flat: seq<byte>, size: nat, pos: nat, len: nat, j: nat, at: nat, got: seq<byte>)
    requires r > 0 && pos <= size
  {
    && at == pos + |got| <= |flat|
    && got == flat[pos..at]
    && |got| <= len
    && (if at < size && |got| < len then at == j * r && j > BlockIndex(r, pos)
       else |got| == ReadLength(r, size, pos, len))
  }

  /** The first block of a read: what it takes, when it takes all there is to take. `more` tells that blocks follow,
      and `capacity` what all blocks hold. */
  lemma FirstEnds(r: nat, size: nat, pos: nat, len: nat, start: nat, capacity: nat, more: bool, portion: nat)
    requires start <= pos <= size <= capacity && pos < start + r
    requires if more then start + r < size else capacity == start + r
    requires portion == Min(size - pos, Min(len, r - (pos - start)))
    ensures pos + portion >= size || portion >= len ==>
              portion == if pos == size then 0
                         else if more then Min(len, Min(size, capacity - pos)) else Min(len, size - pos)
    ensures pos + portion < size && portion < len ==> pos + portion == start + r
  {
  }

  /** What the number of blocks says about the end of block `j`. */
  lemma BlockEnds(r: nat, size: nat, j: nat)
    requires r > 0 && j < CeilDiv(size, r)
    ensures size <= CeilDiv(size, r) * r && (j + 1) * r == j * r + r
    ensures j + 1 < CeilDiv(size, r) ==> j * r + r < size
  {
    CeilDivBounds(size, r);
    hide CeilDiv;
    MulNext(j, r);
    if j + 1 < CeilDiv(size, r) {
      MulNext(j + 1, r);
      MulMonotone(j + 2, CeilDiv(size, r), r);
    }
  }

  lemma FirstPortion(r: nat, flat: seq<byte>, size: nat, pos: nat, len: nat, j: nat, start: nat, portion: nat,
                     got: seq<byte>)
    requires r > 0 && pos <= size <= |flat| == CeilDiv(size, r) * r
    requires j == BlockIndex(r, pos) < CeilDiv(size, r) && start == j * r && start <= pos < start + r
    requires portion == Min(size - pos, Min(len, r - (pos - start)))
    requires pos + portion <= |flat| && got == flat[pos..pos + portion]
    ensures Reading(r, flat, size, pos, len, j + 1, pos + portion, got)
  {
    hide CeilDiv, BlockIndex;
    BlockEnds(r, size, j);
    FirstEnds(r, size, pos, len, start, |flat|, j + 1 < CeilDiv(size, r), portion);
  }

  /** A later block of a read: what it takes of the blocks after the first. */
  lemma NextEnds(r: nat, size: nat, pos: nat, len: nat, at: nat, got: nat, capacity: nat, more: bool, portion: nat)
    requires at == pos + got && pos < size <= capacity && at < size && got < len
    requires if more then at + r < size else capacity == at + r
    requires portion == Min(Min(r, size - got), len - got)
    ensures at + portion < size && got + portion < len ==> portion == r
    ensures at + portion >= size || got + portion >= len ==> got + portion == Min(len, Min(size, capacity - pos))
  {
  }

  /** A later block of a read. */
  lemma NextPortion(r: nat, flat: seq<byte>, size: nat, pos: nat, len: nat, j: nat, at: nat, got: seq<byte>,
                    portion: nat, more: seq<byte>)
    requires r > 0 && pos <= size <= |flat| == CeilDiv(size, r) * r
    requires Reading(r, flat, size, pos, len, j, at, got)
    requires at < size && |got| < len && j < CeilDiv(size, r)
    requires portion == Min(Min(r, size - |got|), len - |got|)
    requires at + portion <= |flat| && more == flat[at..at + portion]
    ensures Reading(r, flat, size, pos, len, j + 1, at + portion, got + more)
  {
    hide CeilDiv, BlockIndex;
    BlockEnds(r, size, j);
    NextEnds(r, size, pos, len, at, |got|, |flat|, j + 1 < CeilDiv(size, r), portion);
  }

  /** The number in hand after `j` links of the chain `c`. */
  ghost predicate AtBlock(c: seq<nat>, j: nat, number: nat) {
    j <= |c| && number == if j < |c| then c[j] else 0
  }

  /** Skips the blocks that lie wholly before `pos`. */
  method SkipBlocks(r: nat, disk: array<Block>, first: nat, size: nat, pos: nat, ghost c: seq<nat>)
      returns (number: nat, position: nat, ghost j: nat)
    requires r > 0 && pos <= size
    requires Linked(disk[..], c) && first == First(c) && |c| == CeilDiv(size, r)
    ensures AtBlock(c, j, number)
    ensures position == j * r && j == BlockIndex(r, pos)
    ensures position <= pos < position + r
  {
    number, position, j := first, 0, 0;
    CeilDivBounds(size, r);
    while position + r <= pos && number != 0 && position + r <= size
      invariant AtBlock(c, j, number)
      invariant position == j * r <= pos
      decreases |c| - j
    {
      assert disk[..][c[j]].next == NextIn(c, j);
      number := disk[number].next;
      position := position + r;
      assert (j + 1) * r == j * r + r;
      j := j + 1;
    }
    DivModUnique(pos, r, j, pos - j * r);
  }

  /** The part of the first block that a read takes. */
  method ReadFirstBlock(r: nat, block: Block, size: nat, pos: nat, len: nat, position: nat) returns (part: seq<byte>)
    requires |block.data| == r && position <= pos <= size && pos - position <= r
    ensures |part| == Min(size - pos, Min(len, r - (pos - position)))
    ensures part == block.data[pos - position..pos - position + |part|]
  {
    var skip := if pos == position then 0 else pos - position;
    var portion := r - skip;
    if portion > len {
      portion := len;
    }
    if pos + portion > size {
      portion := size - pos;
    }
    part := block.data[skip..skip + portion];
  }

  /** The part of a later block that a read takes, after `got` bytes. */
  method ReadNextBlock(r: nat, block: Block, size: nat, len: nat, got: nat) returns (part: seq<byte>)
    requires |block.data| == r && got <= len && got <= size
    ensures |part| == Min(Min(r, size - got), len - got)
    ensures part == block.data[..|part|]
  {
    var portion := r;
    if got + portion > size {
      portion := size - got;
    }
    if got + portion > len {
      portion := len - got;
    }
    part := block.data[..portion];
  }

  lemma NumberInHand(d: seq<Block>, c: seq<nat>, j: nat, number: nat)
    requires Linked(d, c) && AtBlock(c, j, number)
    ensures number == 0 <==> j == |c|
  {
  }

  lemma FirstBlock(r: nat, d: seq<Block>, c: seq<nat>, j: nat)
    requires BlocksOk(r, d) && Linked(d, c) && j < |c|
    ensures InRange(d, c) && c[j] < |d| && |d[c[j]].data| == r && d[c[j]].next == NextIn(c, j)
  {
  }

  /** After the first block of a read, the second loop begins. */
  lemma ReadStart(r: nat, d: seq<Block>, c: seq<nat>, size: nat, pos: nat, len: nat, j: nat, start: nat, buf: seq<byte>)
    requires r > 0 && start <= pos <= size && pos < start + r
    requires BlocksOk(r, d) && Linked(d, c) && |c| == CeilDiv(size, r)
    requires j == BlockIndex(r, pos) < |c| && start == j * r
    requires |buf| == Min(size - pos, Min(len, r - (pos - start)))
    requires |d[c[j]].data| == r && buf == d[c[j]].data[pos - start..pos - start + |buf|]
    ensures Reading(r, Flat(d, c), size, pos, len, j + 1, pos + |buf|, buf)
  {
    hide Flat, CeilDiv, BlockIndex, Reading;
    FlatLength(r, d, c);
    CeilDivBounds(size, r);
    FlatAt(r, d, c, j, pos - start, pos - start + |buf|);
    assert j * r + (pos - start) == pos;
    FirstPortion(r, Flat(d, c), size, pos, len, j, start, |buf|, buf);
  }

  /** One turn of the second loop of a read. */
  lemma ReadStep(r: nat, d: seq<Block>, c: seq<nat>, size: nat, pos: nat, len: nat, j: nat, at: nat, got: seq<byte>)
    requires r > 0 && pos <= size
    requires BlocksOk(r, d) && Linked(d, c) && |c| == CeilDiv(size, r)
    requires Reading(r, Flat(d, c), size, pos, len, j, at, got)
    requires j < |c| && at < size && |got| < len
    ensures |got| <= size && |d[c[j]].data| == r && d[c[j]].next == NextIn(c, j)
    ensures var part := d[c[j]].data[..Min(Min(r, size - |got|), len - |got|)];
            Reading(r, Flat(d, c), size, pos, len, j + 1, at + |part|, got + part)
  {
    hide Flat, CeilDiv;
    FlatLength(r, d, c);
    CeilDivBounds(size, r);
    var portion := Min(Min(r, size - |got|), len - |got|);
    FlatAt(r, d, c, j, 0, portion);
    NextPortion(r, Flat(d, c), size, pos, len, j, at, got, portion, d[c[j]].data[..portion]);
  }

  /** A read that stops has delivered what `ReadLength` says. */
  lemma ReadingEnds(r: nat, d: seq<Block>, c: seq<nat>, size: nat, pos: nat, len: nat, j: nat, at: nat, got: seq<byte>)
    requires r > 0 && pos <= size
    requires BlocksOk(r, d) && Linked(d, c) && |c| == CeilDiv(size, r)
    requires Reading(r, Flat(d, c), size, pos, len, j, at, got)
    requires j >= |c| || |got| >= len || at >= size
    ensures pos + ReadLength(r, size, pos, len) <= |Flat(d, c)|
    ensures got == Flat(d, c)[pos..pos + ReadLength(r, size, pos, len)]
  {
    CeilDivBounds(size, r);
    if j >= |c| {
      MulMonotone(|c|, j, r);
    }
  }

  /** A read that takes no block delivers nothing. */
  lemma ReadingNothing(r: nat, d: seq<Block>, c: seq<nat>, size: nat, pos: nat, len: nat)
    requires r > 0 && pos <= size
    requires BlocksOk(r, d) && Linked(d, c) && |c| == CeilDiv(size, r)
    requires BlockIndex(r, pos) >= |c| || len == 0 || BlockIndex(r, pos) * r >= size
    ensures ReadLength(r, size, pos, len) == 0
    ensures pos <= |Flat(d, c)|
  {
    DivMod(pos, r);
    CeilDivBounds(size, r);
    FlatLength(r, d, c);
    if BlockIndex(r, pos) >= |c| {
      MulMonotone(|c|, BlockIndex(r, pos), r);
    }
  }

  /** Reads up to `len` bytes at `pos` from the chain of a file of `size` bytes. */
  method ReadChain(r: nat, disk: array<Block>, first: nat, size: nat, pos: nat, len: nat, ghost c: seq<nat>)
      returns (buf: seq<byte>)
    requires r > 0 && pos <= size
    requires BlocksOk(r, disk[..]) && Linked(disk[..], c) && first == First(c) && |c| == CeilDiv(size, r)
    ensures pos + ReadLength(r, size, pos, len) <= |Flat(disk[..], c)|
    ensures buf == Flat(disk[..], c)[pos..pos + ReadLength(r, size, pos, len)]
  {
    hide Flat, Reading, ReadLength, CeilDiv, BlockIndex, Linked, BlocksOk;
    var number: nat, position: nat, j: nat := SkipBlocks(r, disk, first, size, pos, c);
    buf := [];
    NumberInHand(disk[..], c, j, number);
    if number == 0 || len == 0 || position >= size {
      ReadingNothing(r, disk[..], c, size, pos, len);
      return;
    }
    FirstBlock(r, disk[..], c, j);
    buf := ReadFirstBlock(r, disk[number], size, pos, len, position);
    ReadStart(r, disk[..], c, size, pos, len, j, position, buf);
    buf := ReadBlocks(r, disk, size, pos, len, disk[number].next, pos + |buf|, buf, j + 1, c, Flat(disk[..], c));
  }

  /** The rest of a read, from the block `number` on; `buf` holds what has been read so far. */
  method ReadBlocks(r: nat, disk: array<Block>, size: nat, pos: nat, len: nat, first: nat, start: nat, taken: seq<byte>,
                    ghost index: nat, ghost c: seq<nat>, ghost flat: seq<byte>)
      returns (buf: seq<byte>)
    requires r > 0 && pos <= size
    requires BlocksOk(r, disk[..]) && Linked(disk[..], c) && |c| == CeilDiv(size, r) && flat == Flat(disk[..], c)
    requires AtBlock(c, index, first)
    requires Reading(r, flat, size, pos, len, index, start, taken)
    ensures pos + ReadLength(r, size, pos, len) <= |flat|
    ensures buf == flat[pos..pos + ReadLength(r, size, pos, len)]
  {
    hide Flat, Reading, ReadLength, CeilDiv, Linked, BlocksOk, BlockIndex;
    ghost var d := disk[..];
    var number: nat, position: nat := first, start;
    ghost var j: nat := index;
    buf := taken;
    while number != 0 && |buf| < len && position < size
      invariant AtBlock(c, j, number)
      invariant Reading(r, flat, size, pos, len, j, position, buf)
      decreases |c| - j
    {
      NumberInHand(d, c, j, number);
      FirstBlock(r, d, c, j);
      ReadStep(r, d, c, size, pos, len, j, position, buf);
      var part := ReadNextBlock(r, disk[number], size, len, |buf|);
      buf := buf + part;
      position := position + |part|;
      number := disk[number].next;
      j := j + 1;
    }
    NumberInHand(d, c, j, number);
    ReadingEnds(r, d, c, size, pos, len, j, position, buf);
  }
}
