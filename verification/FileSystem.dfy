/** The operations of the file system. */
module FileSystem {
  import opened Arith
  import opened Wrappers
  import opened Bitmap
  import opened BlockAllocator
  import opened Chains
  import opened BlockStore
  import opened InodeTable
  import opened Store
  import opened Signature
  import opened Directory
  import opened Paths
  import opened FsState
  import opened ChainReader
  import opened Layout

  datatype WriteResult = WriteOk | WrongMode | NoFreeBlocks | DuplicateName

  /** The block count that a write computes for a file of `size` bytes. */
  function TakenBlocks(r: nat, size: nat): nat
    requires r > 0
  {
    if size == 0 then 0 else size / r + 1
  }

  /** How many new blocks a write of `len` bytes at `off` takes. */
  function NewBlocks(r: nat, size: nat, off: nat, len: nat): nat
    requires r > 0
  {
    if CeilDiv(off + len, r) <= TakenBlocks(r, size) then 0 else CeilDiv(off + len, r) - TakenBlocks(r, size)
  }

  /** Whether the block table of a write is right as far as the write looks at it: the last block of the file is not
      full, or the write does not reach it. */
  predicate TableSuffices(r: nat, size: nat, off: nat, len: nat)
    requires r > 0
  {
    size == 0 || size % r != 0 || (len > 0 && BlockIndex(r, off) + BlocksVisited(r, len) < CeilDiv(size, r))
  }

  /** The block count a write computes from the size is one too many exactly for full last blocks. */
  lemma TakenCount(r: nat, size: nat)
    requires r > 0
    ensures TakenBlocks(r, size) == CeilDiv(size, r) <==> size == 0 || size % r != 0
    ensures TakenBlocks(r, size) != CeilDiv(size, r) ==> TakenBlocks(r, size) == CeilDiv(size, r) + 1
  {
    hide CeilDiv;
    CountOf(r, size);
    NothingDivided(r);
  }

  /** What a write takes is what the file then has more than before, less one if its last block was full and it grows
      by blocks. */
  lemma BlocksTaken(r: nat, size: nat, off: nat, len: nat)
    requires r > 0
    ensures var before, after := CeilDiv(size, r), CeilDiv(Max(size, off + len), r);
      NewBlocks(r, size, off, len)
          == after - before - if size != 0 && size % r == 0 && after > before then 1 else 0
  {
    hide CeilDiv;
    TakenCount(r, size);
    if off + len < size {
      CeilDivMonotone(off + len, size, r);
    } else {
      CeilDivMonotone(size, off + len, r);
    }
  }

  /** A file that fills two blocks of 1016 bytes: ten bytes can be written at its start, but not into its last block. */
  lemma FullBlockWrites()
    ensures TakenBlocks(1016, 2032) == 3 && CeilDiv(2032, 1016) == 2
    ensures TableSuffices(1016, 2032, 0, 10) && !TableSuffices(1016, 2032, 1016, 10)
  {
  }

  lemma NothingDivided(r: nat)
    requires r > 0
    ensures 0 / r == 0 && 0 % r == 0
  {
    DivModUnique(0, r, 0, 0);
  }

  lemma CountOf(r: nat, size: nat)
    requires r > 0
    ensures CeilDiv(size, r) == if size % r == 0 then size / r else size / r + 1
  {
    hide CeilDiv;
    DivMod(size, r);
    CountParts(r, size, size / r, size % r);
  }

  lemma CountParts(r: nat, size: nat, q: nat, m: nat)
    requires size == q * r + m && m < r
    ensures CeilDiv(size, r) == if m == 0 then q else q + 1
  {
    MulNext(q, r);
    CeilDivUnique(size, r, if m == 0 then q else q + 1);
  }

  lemma RemainderBelow(size: nat, r: nat)
    requires r > 0
    ensures 0 <= size % r < r && size / r >= 0
  {
    DivMod(size, r);
  }

  /** Where an append goes: behind the content, or at the start of the next block if it does not fit in the last one. */
  method PlanAppend(r: nat, size: nat, len: nat) returns (offset: nat)
    requires r > 0
    ensures offset == AppendOffset(r, size, len)
  {
    RemainderBelow(size, r);
    offset := size;
    var diff := r - size % r;
    if diff < len {
      offset := offset + diff;
    }
  }

  /** The blocks of a file of `size` bytes, and those of one of `end` bytes. */
  method PlanBlocks(r: nat, size: nat, end: nat) returns (taken: nat, needed: nat)
    requires r > 0 && end > 0
    ensures taken == TakenBlocks(r, size)
    ensures needed == CeilDiv(end, r) > 0
  {
    hide CeilDiv;
    CeilDivBounds(end, r);
    NothingDivided(r);
    RemainderBelow(size, r);
    RemainderBelow(end - 1, r);
    taken := size / r;
    if size != 0 {
      taken := taken + 1;
    }
    needed := 1 + (end - 1) / r;
  }

  /** Walks the chain that starts at `first`, recording its block numbers in `blocksTable`; stops and answers false at
      a block that has `checkName`, if one is given. */
  method GetBlocksNumbersTakenByFile(blockSize: nat, disk: array<Block>, first: nat, checkName: Option<seq<byte>>,
                                     blocksTable: array<nat>, ghost c: seq<nat>)
      returns (ok: bool)
    requires blockSize >= 256 && BlocksOk(blockSize - 8, disk[..]) && Linked(disk[..], c)
    requires c != [] && first == c[0] && |c| <= blocksTable.Length
    requires checkName.Some? ==> blockSize / SIGNATURE_SIZE == SlotsPerBlock(blockSize - 8)
    requires blocksTable as object != disk
    modifies blocksTable
    ensures ok <==> checkName.None? || LookupFrom(blockSize - 8, disk[..], c, checkName.value, 0) == 0
    ensures ok ==> blocksTable[..|c|] == c
    ensures forall x :: |c| <= x < blocksTable.Length ==> blocksTable[x] == old(blocksTable[x])
  {
    ghost var d := disk[..];
    var number := first;
    var i := 0;
    while true
      invariant 0 <= i < |c| && number == c[i]
      invariant disk[..] == d
      invariant blocksTable[..i] == c[..i]
      invariant checkName.Some? ==>
                  LookupFrom(blockSize - 8, d, c, checkName.value, i)
                      == LookupFrom(blockSize - 8, d, c, checkName.value, 0)
      invariant forall x :: |c| <= x < blocksTable.Length ==> blocksTable[x] == old(blocksTable[x])
      decreases |c| - i
    {
      assert |d[c[i]].data| == blockSize - 8 && d[c[i]].next == NextIn(c, i);
      var block := disk[number];
      if checkName.Some? {
        var isNew := CheckDuplicateFileNamesInBlock(block.data, blockSize, checkName.value);
        if !isNew {
          return false;
        }
      }
      blocksTable[i] := number;
      i := i + 1;
      number := block.next;
      if number == 0 {
        break;
      }
    }
    return true;
  }

  /** The blocks a search hands out for a write are free, distinct, in range and just enough. */
  lemma PlanIsWritable(r: nat, v: Volume, open: OpenFiles, i: nat, first: nat, k: nat, data: seq<byte>, off: nat)
    requires StoreOk(r, v, open) && i < |v.inodes| && |data| > 0
    requires r > 0 && TableSuffices(r, v.inodes[i].size, off, |data|)
    requires first % 8 != 0 && v.taken == TakenBelow(first)
    requires k == NewBlocks(r, v.inodes[i].size, off, |data|)
    requires k > 0 ==> NthCandidate(first, k) < |v.disk|
    requires off <= |v.chains[i]| * r || off == AppendOffset(r, v.inodes[i].size, |data|)
    ensures Writable(r, v, i, Candidates(first, k), data, off)
  {
    hide CeilDiv, BlockIndex, BlocksVisited, AppendOffset, NewBlocks, TableSuffices, NthCandidate;
    assert FileOk(r, v.disk, v.inodes[i], v.chains[i]);
    PlanCounts(r, v.inodes[i].size, off, |data|, |v.chains[i]|, k);
    SearchTakes(|v.disk|, first, k);
  }

  lemma SearchTakes(n: nat, first: nat, k: nat)
    requires first % 8 != 0 && (k > 0 ==> NthCandidate(first, k) < n)
    ensures TakenBelow(first) + (set b | b in Candidates(first, k)) == TakenBelow(NthCandidate(first, k))
    ensures |Candidates(first, k)| == k && Distinct(Candidates(first, k))
    ensures forall i :: 0 <= i < k ==> Candidates(first, k)[i] < n && Candidates(first, k)[i] !in TakenBelow(first)
  {
    if k > 0 {
      CandidatesAreFree(n, first, k);
    } else {
      assert Candidates(first, k) == [];
    }
  }

  lemma PlanCounts(r: nat, size: nat, off: nat, len: nat, blocks: nat, k: nat)
    requires r > 0 && len > 0 && blocks == CeilDiv(size, r)
    requires TableSuffices(r, size, off, len)
    requires k == NewBlocks(r, size, off, len)
    requires off <= blocks * r || off == AppendOffset(r, size, len)
    ensures blocks + k == Max(blocks, CeilDiv(off + len, r))
    ensures BlockIndex(r, off) <= Max(blocks, 1)
    ensures BlockIndex(r, off) + BlocksVisited(r, len) <= blocks + k
  {
    hide CeilDiv, BlockIndex, BlocksVisited, AppendOffset;
    VisitedFit(r, off, len);
    TakenCount(r, size);
    if size == 0 || size % r != 0 {
      AppendInReach(r, size, off, len, blocks);
    } else {
      FewerVisited(r, off, len, blocks);
    }
  }

  lemma AppendInReach(r: nat, size: nat, off: nat, len: nat, blocks: nat)
    requires r > 0 && blocks == CeilDiv(size, r) && (size == 0 || size % r != 0)
    requires off <= blocks * r || off == AppendOffset(r, size, len)
    ensures BlockIndex(r, off) <= Max(blocks, 1)
  {
    hide CeilDiv, BlockIndex;
    BlockEnds(r, size, blocks);
    IndexWithin(r, off, Max(blocks, 1));
  }

  lemma IndexWithin(r: nat, off: nat, blocks: nat)
    requires r > 0 && off <= blocks * r
    ensures BlockIndex(r, off) <= blocks
  {
    DivMod(off, r);
    MulNext(blocks, r);
    if off / r > blocks {
      MulMonotone(blocks + 1, off / r, r);
    }
  }

  /** Neither the content of a file nor the start of the block behind it goes beyond its last block, or the first
      one. */
  lemma BlockEnds(r: nat, size: nat, blocks: nat)
    requires r > 0 && blocks == CeilDiv(size, r) && (size == 0 || size % r != 0)
    ensures size <= Max(blocks, 1) * r && size + (r - size % r) <= Max(blocks, 1) * r
            && blocks * r <= Max(blocks, 1) * r
  {
    hide CeilDiv;
    CountOf(r, size);
    NothingDivided(r);
    LastEnds(r, size, size / r, size % r);
  }

  lemma LastEnds(r: nat, size: nat, q: nat, m: nat)
    requires r > 0 && q == size / r && m == size % r
    ensures size + (r - m) == (q + 1) * r && m < r
  {
    DivMod(size, r);
    MulNext(q, r);
  }

  lemma FewerVisited(r: nat, off: nat, len: nat, blocks: nat)
    requires r > 0 && len > 0 && BlockIndex(r, off) + BlocksVisited(r, len) < blocks
    ensures BlockIndex(r, off) < blocks
  {
  }

  /** A volume that holds nothing but the empty root and the empty `.lock`. */
  ghost predicate BlankVolume(r: nat, v: Volume) {
    && r >= SIGNATURE_SIZE && |v.disk| > 0
    && (forall b :: 0 <= b < |v.disk| ==> v.disk[b] == Block(Zeros(r), 0))
    && 4 <= |v.inodes| <= Pow256(8) && v.inodes[0].kind == Dir && v.inodes[1].kind == File
    && (forall i :: 2 <= i < |v.inodes| ==> v.inodes[i].kind == Kind.Empty)
    && (forall i :: 0 <= i < |v.inodes| ==> v.inodes[i].size == 0 && v.inodes[i].firstBlock == 0)
    && |v.chains| == |v.inodes| && (forall i :: 0 <= i < |v.inodes| ==> v.chains[i] == [])
    && v.taken == {0}
  }

  lemma BlankVolumeOk(r: nat, v: Volume)
    requires BlankVolume(r, v)
    ensures StoreOk(r, v, map[])
    ensures TreeOk(r, v, Tree(map[0 := []], map[]))
  {
    CeilDivBounds(0, r);
  }

  /** Looks for a name in the directory blocks that start at `first`. An empty directory has no blocks; the lookup
      then reads block 0, whose records are all out of use. */
  method LookupInBlocks(blockSize: nat, disk: array<Block>, first: nat, name: seq<byte>, ghost c: seq<nat>)
      returns (inodeNo: nat)
    requires blockSize >= 256 && BlocksOk(blockSize - 8, disk[..]) && Linked(disk[..], c) && first == First(c)
    requires disk.Length > 0 && disk[0].next == 0 && forall p :: 4 <= p < |disk[0].data| ==> disk[0].data[p] == 0
    ensures inodeNo == LookupFrom(blockSize - 8, disk[..], c, name, 0)
  {
    hide FirstMatch;
    ghost var d := disk[..];
    assert |d[0].data| == blockSize - 8;
    var number := first;
    ghost var j: nat := 0;
    while true
      invariant if c == [] then j == 0 && number == 0 else j < |c| && number == c[j]
      invariant LookupFrom(blockSize - 8, d, c, name, j) == LookupFrom(blockSize - 8, d, c, name, 0)
      decreases |c| - j
    {
      assert c != [] ==> |d[c[j]].data| == blockSize - 8 && d[c[j]].next == NextIn(c, j);
      var block := disk[number];
      inodeNo := FindInBlock(block.data, blockSize, name);
      if c == [] {
        LockBlock(block.data, name, 0, SlotsPerBlock(blockSize - 8));
      }
      if inodeNo != 0 || block.next == 0 {
        return;
      }
      number := block.next;
      j := j + 1;
    }
  }

  /** No record of a block that is zero after its first four bytes is in use. */
  lemma {:induction false} LockBlock(data: seq<byte>, name: seq<byte>, t: nat, n: nat)
    requires n * SIGNATURE_SIZE <= |data| && forall p :: 4 <= p < |data| ==> data[p] == 0
    requires t <= n
    ensures FirstMatch(data, name, t, n) == 0
    decreases n - t
  {
    if t < n {
      assert Slot(data, t)[NAME_AREA..] == Zeros(8);
      BlankMatchesNothing(Slot(data, t), name);
      LockBlock(data, name, t + 1, n);
    }
  }

  /** The part of a path from `index` up to the next slash. */
  method TakePart(path: seq<byte>, index: nat) returns (part: seq<byte>, end: nat)
    requires index <= |path|
    ensures part == FirstPart(path[index..]) && end == index + |part| <= |path|
  {
    part := [];
    end := index;
    while end < |path| && path[end] != SLASH
      invariant index <= end <= |path|
      invariant part == path[index..end]
      invariant forall i :: index <= i < end ==> path[i] != SLASH
    {
      part := part + [path[end]];
      end := end + 1;
    }
    PartOf(path, index, end);
    FirstPartUnique(part, path[index..]);
  }

  lemma PartOf(path: seq<byte>, index: nat, end: nat)
    requires index <= end <= |path|
    ensures path[index..][..end - index] == path[index..end]
    ensures end < |path| ==> path[index..][end - index] == path[end]
  {
  }

  lemma SuffixOfSuffix(s: seq<byte>, i: nat, j: nat)
    requires i + j <= |s|
    ensures s[i..][j..] == s[i + j..]
  {
  }

  /** Following the components of a string: the first one, then the rest. */
  lemma FollowComponents(dirs: Dirs, from: nat, s: seq<byte>)
    ensures Follow(dirs, from, Components(s)) == match FindIn(dirs, from, FirstPart(s))
      case None => None
      case Some(next) => if |FirstPart(s)| == |s| then Some(next)
         else Follow(dirs, next, Components(s[|FirstPart(s)| + 1..]))
  {
    hide FirstPart, Components, FindIn;
    ComponentsOf(s);
    var part := FirstPart(s);
    assert Components(s)[0] == part;
    if |part| == |s| {
      assert Components(s)[1..] == [];
    } else {
      assert Components(s)[1..] == Components(s[|part| + 1..]);
    }
  }

  /** What a directory entry names is a live inode. */
  lemma FoundIsNamed(kinds: seq<Kind>, dirs: Dirs, d: nat, name: seq<byte>)
    requires DirsShape(kinds, dirs) && d in dirs && FindFrom(dirs[d], name, 0) != 0
    ensures Named(kinds, dirs, FindFrom(dirs[d], name, 0))
  {
    EntryFound(dirs[d], name, 0);
  }

  lemma {:induction false} EntryFound(entries: seq<Entry>, name: seq<byte>, k: nat)
    requires FindFrom(entries, name, k) != 0
    ensures exists i :: 0 <= i < |entries| && entries[i].inodeNo == FindFrom(entries, name, k)
    decreases |entries| - k
  {
    if entries[k].name != name {
      EntryFound(entries, name, k + 1);
    }
  }

  lemma OpenInode(r: nat, v: Volume, open: OpenFiles, fd: nat)
    requires StoreOk(r, v, open) && fd in open
    ensures open[fd].inodeNo < |v.inodes| && v.inodes[open[fd].inodeNo].kind != Kind.Empty
  {
  }

  lemma OpenedOk(r: nat, v: Volume, open: OpenFiles, fd: nat, file: OpenFile)
    requires StoreOk(r, v, open) && file.inodeNo < |v.inodes|
    requires v.inodes[file.inodeNo].kind != Kind.Empty
    requires file.position <= v.inodes[file.inodeNo].size
    ensures StoreOk(r, v, open[fd := file])
  {
    assert FileOk(r, v.disk, v.inodes[file.inodeNo], v.chains[file.inodeNo]);
    CeilDivBounds(v.inodes[file.inodeNo].size, r);
  }

  lemma {:induction false} InitialSegment(keys: set<nat>, n: nat)
    requires forall i: nat :: i < n ==> i in keys
    ensures n <= |keys|
  {
    if n > 0 {
      InitialSegment(keys - {n - 1}, n - 1);
    }
  }

  /** The least descriptor not in use. */
  method LeastUnused(open: OpenFiles) returns (i: nat)
    ensures i !in open && forall j: nat :: j < i ==> j in open
  {
    i := 0;
    while i in open
      invariant forall j: nat :: j < i ==> j in open
      decreases |open.Keys| - i
    {
      InitialSegment(open.Keys, i + 1);
      i := i + 1;
    }
  }

  /** `buf` is what stands in a file at `pos`, with zeros past its end. */
  ghost predicate Delivered(buf: seq<byte>, content: seq<byte>, pos: nat) {
    forall p :: 0 <= p < |buf| ==> buf[p] == if pos + p < |content| then content[pos + p] else 0
  }

  /** What a read takes from the flat bytes of a file, in terms of its content. */
  lemma ReadIsContent(r: nat, v: Volume, open: OpenFiles, fd: nat, len: nat, buf: seq<byte>)
    requires StoreOk(r, v, open) && fd in open
    requires open[fd].position <= v.inodes[open[fd].inodeNo].size
    requires |buf| == ReadLength(r, v.inodes[open[fd].inodeNo].size, open[fd].position, len)
    requires open[fd].position + |buf| <= |Flat(v.disk, v.chains[open[fd].inodeNo])|
    requires buf == Flat(v.disk, v.chains[open[fd].inodeNo])[open[fd].position..open[fd].position + |buf|]
    ensures Delivered(buf, Content(r, v, open[fd].inodeNo), open[fd].position)
    ensures StoreOk(r, v, Moved(open, fd, |buf|))
  {
    var i := open[fd].inodeNo;
    assert FileOk(r, v.disk, v.inodes[i], v.chains[i]);
    FlatLength(r, v.disk, v.chains[i]);
  }

  function Clamp(x: int, size: nat): nat {
    if x < 0 then 0 else if x > size then size else x
  }

  /** Where a seek ends. */
  function SeekTarget(position: nat, size: nat, whence: int, offset: int): (target: nat)
    ensures target <= size
  {
    Clamp(offset + (if whence == SEEK_CUR then position else if whence == SEEK_END then size else 0), size)
  }

  /** `target` is where a seek goes that asks for `asked`: there, if that is inside the file, and otherwise to the
      nearer end. */
  predicate Reaches(target: nat, asked: int, size: nat) {
    && (0 <= asked <= size ==> target == asked)
    && (asked < 0 ==> target == 0)
    && (asked > size ==> target == size)
  }

  lemma SeekReaches(position: nat, size: nat, whence: int, offset: int)
    ensures whence == SEEK_SET ==> Reaches(SeekTarget(position, size, whence, offset), offset, size)
    ensures whence == SEEK_CUR ==> Reaches(SeekTarget(position, size, whence, offset), position + offset, size)
    ensures whence == SEEK_END ==> Reaches(SeekTarget(position, size, whence, offset), size + offset, size)
  {
  }

  method SeekPosition(position: nat, fileSize: nat, whence: int, offset: int) returns (target: Option<nat>)
    ensures target.Some? <==> whence == SEEK_SET || whence == SEEK_CUR || whence == SEEK_END
    ensures target.Some? ==> target.value == SeekTarget(position, fileSize, whence, offset)
  {
    var effective := 0;
    if whence == SEEK_SET {
      effective := offset;
    } else if whence == SEEK_CUR {
      effective := position + offset;
    } else if whence == SEEK_END {
      effective := fileSize + offset;
    } else {
      return None;
    }
    if effective < 0 {
      effective := 0;
    } else if effective > fileSize {
      effective := fileSize;
    }
    target := Some(effective);
  }

  lemma ClosedOk(r: nat, v: Volume, open: OpenFiles, fd: nat)
    requires StoreOk(r, v, open)
    ensures StoreOk(r, v, open - {fd})
  {
  }

  const SEEK_SET: int := 0
  const SEEK_CUR: int := 1
  const SEEK_END: int := 2
  const FD_NOT_FOUND: int := -4

  /** The length of a path up to and including its last slash. */
  function ParentLength(path: seq<byte>): (n: nat)
    ensures n <= |path|
    ensures n > 0 ==> path[n - 1] == SLASH
    ensures forall i :: n <= i < |path| ==> path[i] != SLASH
  {
    if path == [] || path[|path| - 1] == SLASH then |path| else ParentLength(path[..|path| - 1])
  }

  /** The path of the parent directory: without the slash at its end, unless that slash is all there is. */
  function ParentPath(path: seq<byte>): seq<byte>
    requires path != [] && path[0] == SLASH
  {
    if ParentLength(path) == 1 then path[..1] else path[..ParentLength(path) - 1]
  }

  /** The last component of a path. */
  function BaseName(path: seq<byte>): seq<byte> {
    path[ParentLength(path)..]
  }

  /** A lookup in the blocks of a directory agrees with its entries. */
  lemma LookupIsFind(r: nat, v: Volume, open: OpenFiles, dirs: Dirs, d: nat, name: seq<byte>)
    requires StoreOk(r, v, open) && DirsHold(r, v, dirs) && d in dirs
    ensures LookupFrom(r, v.disk, v.chains[d], name, 0) == FindFrom(dirs[d], name, 0)
  {
    assert FileOk(r, v.disk, v.inodes[d], v.chains[d]);
    DirSlots(r, v.disk, v.chains[d], v.inodes[d].size, dirs[d]);
    LookupAgrees(r, v.disk, v.chains[d], dirs[d], name, 0);
  }

  class FileSystem {
    const blockSize: nat
    const allocator: BlockAllocator
    const table: InodeTable
    const disk: array<Block>
    var openFiles: OpenFiles
    ghost var chains: seq<seq<nat>>
    ghost var tree: Tree

    /** The payload of a block: what its link field leaves. */
    function PayloadSize(): nat
    {
      if blockSize < 8 then 0 else blockSize - 8
    }

    /** The blocks, inodes, chains and taken blocks of the volume. */
    ghost function View(): Volume
      reads this`chains, allocator.bitmap, table.inodes, disk
    {
      Volume(disk[..], table.inodes[..], chains, Bitmap.Taken(allocator.bitmap[..]))
    }

    /** The sizes agree, and the parts of the volume do not overlap. */
    ghost predicate Shape() {
      && blockSize >= 1024 && blockSize % 256 == 0
      && allocator.numberOfBlocks == disk.Length
      && allocator.bitmap as object != table.inodes && allocator.bitmap as object != disk
      && table.inodes as object != disk
    }

    /** The volume is well formed, whatever its names. */
    ghost predicate StoreValid()
      reads this`openFiles, this`chains, allocator, allocator.bitmap, table, table.inodes, disk
    {
      Shape() && allocator.Valid() && table.Valid() && StoreOk(PayloadSize(), View(), openFiles)
    }

    ghost predicate Valid()
      reads this`openFiles, this`chains, this`tree, allocator, allocator.bitmap, table, table.inodes, disk
    {
      StoreValid() && TreeOk(PayloadSize(), View(), tree)
    }

    /** There is room for `k` more blocks before the search runs off the end, or the volume is too full for them
        anyway. */
    predicate Room(k: nat)
      reads allocator
    {
      k == 0 || TooFull(k) || allocator.Fits(k)
    }

    /** The search for `k` blocks gives up because no more than `k` blocks are free. */
    predicate TooFull(k: nat)
      reads allocator
    {
      k > 0 && allocator.numberOfFreeBlocks <= k
    }

    /** The blocks the next search for `k` blocks hands out. */
    ghost function NextBlocks(k: nat): seq<nat>
      reads allocator
    {
      Candidates(allocator.firstFreeBlockNumber, k)
    }

    /** A new volume: an empty root directory, the `.lock` file and block 0, which holds the lock counter. */
    constructor (blockSize: nat, numberOfBlocks: nat)
      requires Accepted(blockSize, numberOfBlocks)
      requires blockSize < 0x1_0000_0000 && numberOfBlocks < 0x1_0000_0000
      ensures this.blockSize == blockSize && allocator.numberOfBlocks == numberOfBlocks
      ensures Valid()
      ensures openFiles == map[] && tree == Tree(map[0 := []], map[])
      ensures allocator.numberOfFreeBlocks == numberOfBlocks - 1 && allocator.firstFreeBlockNumber == 1
      ensures table.firstFreeInode == 2 && BlankVolume(PayloadSize(), View())
      ensures |View().disk| == numberOfBlocks <= |View().inodes|
      ensures fresh(allocator) && fresh(allocator.bitmap) && fresh(table) && fresh(table.inodes) && fresh(disk)
    {
      hide StoreOk, VolumeOk, TreeOk, Regular, BitmapBytes, InodeCount, GetInitialMasterBlock, LeastEmpty;
      TablesLargeEnough(blockSize, numberOfBlocks);
      var masterBlock := GetInitialMasterBlock(blockSize, numberOfBlocks);
      this.blockSize := blockSize;
      allocator := new BlockAllocator(numberOfBlocks, masterBlock.dataStartBlock, BitmapBytes(masterBlock));
      table := new InodeTable(InodeCount(masterBlock));
      disk := new Block[numberOfBlocks](_ => Block(Zeros(blockSize - 8), 0));
      openFiles := map[];
      chains := seq(InodeCount(masterBlock), _ => []);
      tree := Tree(map[0 := []], map[]);
      new;
      BlankVolumeOk(PayloadSize(), View());
    }

    /** Allocates the block table of a write and the new blocks it needs. */
    method TakeBlocks(i: nat, taken: nat, needed: nat) returns (blocksTable: array<nat>, ok: bool)
      requires Shape() && allocator.Valid() && i < table.inodes.Length
      requires needed > 0
      requires Room(if needed > taken then needed - taken else 0)
      requires table.inodes[i].firstBlock == 0 ==> taken == 0
      modifies allocator, allocator.bitmap, table.inodes
      ensures fresh(blocksTable) && allocator.Valid()
      ensures var k := if needed > taken then needed - taken else 0;
        && blocksTable.Length == taken + k
        && (!ok <==> old(TooFull(k)))
        && (!ok ==> unchanged(allocator) && unchanged(allocator.bitmap) && unchanged(table.inodes))
        && (ok ==> blocksTable[taken..] == old(NextBlocks(k)))
        && (ok ==> allocator.numberOfFreeBlocks == old(allocator.numberOfFreeBlocks) - k)
        && (ok ==> allocator.firstFreeBlockNumber == NthCandidate(old(allocator.firstFreeBlockNumber), k))
        && (ok ==> table.inodes[..] == old(table.inodes[..])[i := old(table.inodes[i]).(firstBlock :=
              if old(table.inodes[i]).firstBlock == 0 then old(allocator.firstFreeBlockNumber)
                 else old(table.inodes[i]).firstBlock)])
    {
      hide Regular, Turned, HandedOut, Candidates, NthCandidate;
      blocksTable := new nat[if taken >= needed then taken else needed];
      ok := true;
      if needed <= taken {
        NoCandidates(allocator.firstFreeBlockNumber);
      }
      if needed > taken || table.inodes[i].firstBlock == 0 {
        allocator.FitsEnds(needed - taken);
        var found := allocator.FindFreeBlocks(needed - taken, blocksTable, taken);
        if found.None? {
          ok := false;
        } else if table.inodes[i].firstBlock == 0 {
          table.inodes[i] := table.inodes[i].(firstBlock := found.value);
        }
      }
    }

    /** The blocks of inode `dir` can be looked through. */
    ghost predicate Searchable(dir: nat)
      reads this`chains, table, table.inodes, disk
    {
      && blockSize >= 256 && dir < table.inodes.Length == |chains|
      && BlocksOk(blockSize - 8, disk[..]) && Linked(disk[..], chains[dir])
         && table.inodes[dir].firstBlock == First(chains[dir])
      && disk.Length > 0 && disk[0].next == 0 && forall p :: 4 <= p < |disk[0].data| ==> disk[0].data[p] == 0
    }

    lemma StoreSearchable(dir: nat)
      requires StoreValid() && dir < table.inodes.Length
      ensures Searchable(dir)
    {
      assert FileOk(PayloadSize(), View().disk, View().inodes[dir], chains[dir]);
      assert View().disk[0] == disk[0];
    }

    /** The inode that `name` denotes in the directory with inode `dir`; 0 if there is none. */
    method GetInodeInDir(dir: nat, name: seq<byte>) returns (inodeNo: nat)
      requires Searchable(dir)
      ensures inodeNo == if table.inodes[dir].kind != Dir then 0
              else LookupFrom(blockSize - 8, disk[..], chains[dir], name, 0)
    {
      if table.inodes[dir].kind != Dir {
        return 0;
      }
      inodeNo := LookupInBlocks(blockSize, disk, table.inodes[dir].firstBlock, name, chains[dir]);
    }

    /** The directories of the tree, as far as they go, are those on the volume. */
    ghost predicate NamesHold()
      reads this`openFiles, this`chains, this`tree, allocator, allocator.bitmap, table, table.inodes, disk
    {
      StoreValid() && DirsShape(Kinds(table.inodes[..]), tree.dirs) && DirsHold(PayloadSize(), View(), tree.dirs)
    }

    lemma ValidNames()
      requires Valid()
      ensures NamesHold()
    {
    }

    /** One step of a path: the lookup in a directory finds what the tree says. */
    lemma StepAgrees(dir: nat, name: seq<byte>)
      requires NamesHold() && dir < table.inodes.Length
      requires table.inodes[dir].kind == Dir <==> dir in tree.dirs
      ensures Searchable(dir)
      ensures var found := if table.inodes[dir].kind != Dir then 0
              else LookupFrom(blockSize - 8, disk[..], chains[dir], name, 0);
        && FindIn(tree.dirs, dir, name) == (if found == 0 then None else Some(found))
        && (found != 0 ==> found < table.inodes.Length && table.inodes[found].kind != Kind.Empty)
        && (found != 0 ==> (table.inodes[found].kind == Dir <==> found in tree.dirs))
    {
      StoreSearchable(dir);
      if dir in tree.dirs {
        LookupIsFind(PayloadSize(), View(), openFiles, tree.dirs, dir, name);
        if FindFrom(tree.dirs[dir], name, 0) != 0 {
          FoundIsNamed(Kinds(table.inodes[..]), tree.dirs, dir, name);
        }
      }
    }

    /** The inode that `path` denotes: what the tree of names says. */
    method GetInodeByPath(path: seq<byte>) returns (found: Option<nat>)
      requires NamesHold()
      ensures found == Resolve(tree.dirs, path)
      ensures found.Some? ==> found.value < table.inodes.Length && table.inodes[found.value].kind != Kind.Empty
      ensures found.Some? ==> (table.inodes[found.value].kind == Dir <==> found.value in tree.dirs)
    {
      if |path| == 0 || path[0] != SLASH {
        return None;
      }
      assert Kinds(table.inodes[..])[0] == Dir;
      if |path| == 1 {
        return Some(0);
      }
      found := FollowPath(path);
    }

    /** One step along a path; an empty inode counts as missing. */
    method StepInto(dir: nat, name: seq<byte>) returns (next: Option<nat>)
      requires NamesHold() && dir < table.inodes.Length
      requires table.inodes[dir].kind == Dir <==> dir in tree.dirs
      ensures next == FindIn(tree.dirs, dir, name)
      ensures next.Some? ==> next.value < table.inodes.Length && table.inodes[next.value].kind != Kind.Empty
      ensures next.Some? ==> (table.inodes[next.value].kind == Dir <==> next.value in tree.dirs)
    {
      StepAgrees(dir, name);
      var inodeNo := GetInodeInDir(dir, name);
      if inodeNo == 0 || table.inodes[inodeNo].kind == Kind.Empty {
        return None;
      }
      return Some(inodeNo);
    }

    /** Follows the components of `path` from the root. */
    method FollowPath(path: seq<byte>) returns (found: Option<nat>)
      requires NamesHold() && |path| > 1 && table.inodes.Length > 0 && table.inodes[0].kind == Dir && 0 in tree.dirs
      ensures found == Follow(tree.dirs, 0, Components(path[1..]))
      ensures found.Some? ==> found.value < table.inodes.Length && table.inodes[found.value].kind != Kind.Empty
      ensures found.Some? ==> (table.inodes[found.value].kind == Dir <==> found.value in tree.dirs)
    {
      hide StoreOk, VolumeOk, DirsShape, DirsHold;
      var index: nat := 1;
      var current: nat := 0;
      ghost var rest := path[1..];
      ghost var goal := Follow(tree.dirs, 0, Components(rest));
      while true
        invariant 1 <= index <= |path| && rest == path[index..]
        invariant current < table.inodes.Length && (table.inodes[current].kind == Dir <==> current in tree.dirs)
        invariant Follow(tree.dirs, current, Components(rest)) == goal
        decreases |path| - index
      {
        var end;
        found, end := FollowPart(path, index, current);
        if found.None? || end == |path| {
          return;
        }
        rest := path[end + 1..];
        current := found.value;
        index := end + 1;
      }
    }

    /** Follows one component of `path`, from `index` up to the next slash. */
    method FollowPart(path: seq<byte>, index: nat, current: nat) returns (found: Option<nat>, end: nat)
      requires NamesHold() && current < table.inodes.Length && index <= |path|
      requires table.inodes[current].kind == Dir <==> current in tree.dirs
      ensures index <= end <= |path|
      ensures Follow(tree.dirs, current, Components(path[index..]))
           == match found
              case None => None
              case Some(next) => if end == |path| then Some(next)
                 else Follow(tree.dirs, next, Components(path[end + 1..]))
      ensures found.Some? ==> found.value < table.inodes.Length && table.inodes[found.value].kind != Kind.Empty
      ensures found.Some? ==> (table.inodes[found.value].kind == Dir <==> found.value in tree.dirs)
    {
      hide StoreOk, VolumeOk, DirsShape, DirsHold, Components, Follow, FindIn, FirstPart;
      var part;
      part, end := TakePart(path, index);
      FollowComponents(tree.dirs, current, path[index..]);
      if end < |path| {
        SuffixOfSuffix(path, index, |part| + 1);
      }
      found := StepInto(current, part);
    }

    /** Opens the file that `name` denotes, under the least descriptor not in use. */
    method Open(name: seq<byte>, mode: Mode) returns (fd: Option<nat>)
      requires NamesHold()
      modifies this`openFiles
      ensures StoreValid()
      ensures fd.Some? <==> Resolve(tree.dirs, name).Some?
      ensures fd.None? ==> openFiles == old(openFiles)
      ensures fd.Some? ==>
                && fd.value !in old(openFiles) && (forall j: nat :: j < fd.value ==> j in old(openFiles))
                && openFiles == old(openFiles)[fd.value := OpenFile(Resolve(tree.dirs, name).value, 0, mode)]
    {
      var inodeNo := GetInodeByPath(name);
      if inodeNo.None? {
        return None;
      }
      var i := LeastUnused(openFiles);
      OpenedOk(PayloadSize(), View(), openFiles, i, OpenFile(inodeNo.value, 0, mode));
      SetOpenFiles(openFiles[i := OpenFile(inodeNo.value, 0, mode)]);
      return Some(i);
    }

    /** Closes a descriptor; answers false if it is not in use. */
    method Close(fd: nat) returns (known: bool)
      requires StoreValid()
      modifies this`openFiles
      ensures StoreValid()
      ensures known == (fd in old(openFiles))
      ensures openFiles == old(openFiles) - {fd}
    {
      if fd !in openFiles {
        return false;
      }
      ClosedOk(PayloadSize(), View(), openFiles, fd);
      SetOpenFiles(openFiles - {fd});
      return true;
    }

    /** Moves the position of an open file to an offset from its start, its position or its end, kept inside the
        file. */
    method LseekUnsafe(fd: nat, whence: int, offset: int) returns (code: int)
      requires StoreValid()
      modifies this`openFiles
      ensures StoreValid()
      ensures fd !in old(openFiles) ==> code == FD_NOT_FOUND && openFiles == old(openFiles)
      ensures fd in old(openFiles) && whence != SEEK_SET && whence != SEEK_CUR && whence != SEEK_END ==>
                code == -1 && openFiles == old(openFiles)
      ensures fd in old(openFiles) && (whence == SEEK_SET || whence == SEEK_CUR || whence == SEEK_END) ==>
                code == 0 && openFiles == old(openFiles)[fd := old(openFiles[fd]).(position :=
                  SeekTarget(old(openFiles[fd]).position, table.inodes[old(openFiles[fd]).inodeNo].size, whence,
                      offset))]
      ensures fd in old(openFiles) ==>
                var pos, size := old(openFiles[fd].position), table.inodes[old(openFiles[fd]).inodeNo].size;
                && (whence == SEEK_SET ==> Reaches(openFiles[fd].position, offset, size))
                && (whence == SEEK_CUR ==> Reaches(openFiles[fd].position, pos + offset, size))
                && (whence == SEEK_END ==> Reaches(openFiles[fd].position, size + offset, size))
    {
      hide StoreOk, SeekTarget;
      if fd !in openFiles {
        return FD_NOT_FOUND;
      }
      var file := openFiles[fd];
      OpenInode(PayloadSize(), View(), openFiles, fd);
      var position := SeekPosition(file.position, table.inodes[file.inodeNo].size, whence, offset);
      if position.None? {
        return -1;
      }
      SeekReaches(file.position, table.inodes[file.inodeNo].size, whence, offset);
      OpenedOk(PayloadSize(), View(), openFiles, fd, file.(position := position.value));
      SetOpenFiles(openFiles[fd := file.(position := position.value)]);
      code := 0;
    }

    /** The seek that callers use: it answers 0 however it ends. */
    method Lseek(fd: nat, whence: int, offset: int) returns (code: int)
      requires StoreValid()
      modifies this`openFiles
      ensures StoreValid() && code == 0
      ensures fd !in old(openFiles) || (whence != SEEK_SET && whence != SEEK_CUR && whence != SEEK_END) ==>
                openFiles == old(openFiles)
      ensures fd in old(openFiles) && (whence == SEEK_SET || whence == SEEK_CUR || whence == SEEK_END) ==>
                openFiles == old(openFiles)[fd := old(openFiles[fd]).(position :=
                  SeekTarget(old(openFiles[fd]).position, table.inodes[old(openFiles[fd]).inodeNo].size, whence,
                      offset))]
      ensures fd in old(openFiles) ==>
                var pos, size := old(openFiles[fd].position), table.inodes[old(openFiles[fd]).inodeNo].size;
                && (whence == SEEK_SET ==> Reaches(openFiles[fd].position, offset, size))
                && (whence == SEEK_CUR ==> Reaches(openFiles[fd].position, pos + offset, size))
                && (whence == SEEK_END ==> Reaches(openFiles[fd].position, size + offset, size))
    {
      hide StoreOk;
      var ignored := LseekUnsafe(fd, whence, offset);
      code := 0;
    }

    method SetOpenFiles(open: OpenFiles)
      requires Shape() && allocator.Valid() && table.Valid() && StoreOk(PayloadSize(), View(), open)
      modifies this`openFiles
      ensures StoreValid() && openFiles == open
    {
      openFiles := open;
    }

    /** The contents of all files. */
    ghost function Contents(): seq<seq<byte>>
      reads this`chains, allocator.bitmap, table.inodes, disk
    {
      Store.Contents(PayloadSize(), View())
    }

    /** The size of a file is the length of its content. */
    lemma InodeSize(i: nat)
      requires StoreValid() && i < table.inodes.Length
      ensures PayloadSize() > 0 && |Contents()| == table.inodes.Length && |Contents()[i]| == table.inodes[i].size
    {
      assert FileOk(PayloadSize(), View().disk, View().inodes[i], View().chains[i]);
    }

    lemma ContentSize(fd: nat)
      requires StoreValid() && fd in openFiles
      ensures PayloadSize() > 0 && openFiles[fd].inodeNo < table.inodes.Length == |Contents()|
      ensures |Contents()[openFiles[fd].inodeNo]| == table.inodes[openFiles[fd].inodeNo].size
    {
      InodeSize(openFiles[fd].inodeNo);
    }

    /** Reads up to `len` bytes at the position of an open file and moves the position on by what was read. What is
        read is the content there, or, past the end of a file that does not fill its last block, zeros. */
    method Read(fd: nat, len: nat) returns (buf: seq<byte>)
      requires StoreValid() && fd in openFiles
      requires openFiles[fd].position <= table.inodes[openFiles[fd].inodeNo].size
      modifies this`openFiles
      ensures StoreValid()
      ensures |buf| == ReadLength(PayloadSize(), table.inodes[old(openFiles)[fd].inodeNo].size,
              old(openFiles)[fd].position, len)
      ensures Delivered(buf, Contents()[old(openFiles)[fd].inodeNo], old(openFiles)[fd].position)
      ensures openFiles == Moved(old(openFiles), fd, |buf|)
      ensures openFiles[fd].position == old(openFiles[fd].position) + |buf|
    {
      buf := ReadData(fd, len);
      SetOpenFiles(Moved(openFiles, fd, |buf|));
    }

    /** The bytes that a read delivers. */
    method ReadData(fd: nat, len: nat) returns (buf: seq<byte>)
      requires StoreValid() && fd in openFiles
      requires openFiles[fd].position <= table.inodes[openFiles[fd].inodeNo].size
      ensures |buf| == ReadLength(PayloadSize(), table.inodes[openFiles[fd].inodeNo].size, openFiles[fd].position, len)
      ensures Delivered(buf, Contents()[openFiles[fd].inodeNo], openFiles[fd].position)
      ensures StoreOk(PayloadSize(), View(), Moved(openFiles, fd, |buf|))
    {
      var file := openFiles[fd];
      ReadReady(fd);
      buf := ReadChain(PayloadSize(), disk, table.inodes[file.inodeNo].firstBlock, table.inodes[file.inodeNo].size,
                       file.position, len, chains[file.inodeNo]);
      ReadIsContent(PayloadSize(), View(), openFiles, fd, len, buf);
    }

    lemma ReadReady(fd: nat)
      requires StoreValid() && fd in openFiles
      ensures PayloadSize() > 0 && BlocksOk(PayloadSize(), disk[..])
      ensures openFiles[fd].inodeNo < table.inodes.Length == |chains|
      ensures Linked(disk[..], chains[openFiles[fd].inodeNo])
      ensures table.inodes[openFiles[fd].inodeNo].firstBlock == First(chains[openFiles[fd].inodeNo])
      ensures |chains[openFiles[fd].inodeNo]| == CeilDiv(table.inodes[openFiles[fd].inodeNo].size, PayloadSize())
    {
      assert FileOk(PayloadSize(), View().disk, View().inodes[openFiles[fd].inodeNo], chains[openFiles[fd].inodeNo]);
    }

    /** The descriptor is open on a file, not on a directory. */
    predicate OnFile(fd: nat)
      reads this`openFiles, table, table.inodes
    {
      fd in openFiles && openFiles[fd].inodeNo < table.inodes.Length && table.inodes[openFiles[fd].inodeNo].kind == File
    }

    /** Writes `data` at the position of an open file; nothing if the descriptor is not in use. Only a write to a
        directory can upset the names. */
    method Write(fd: nat, data: seq<byte>) returns (result: Option<WriteResult>)
      requires StoreValid() && (fd in openFiles ==> CanWrite(fd, |data|, false, None))
      modifies this`openFiles, this`chains, allocator, allocator.bitmap, table.inodes, disk
      ensures StoreValid()
      ensures old(Valid()) && (result != Some(WriteOk) || old(OnFile(fd))) ==> Valid()
      ensures result.None? <==> fd !in old(openFiles)
      ensures result.Some? ==> result.value == old(WriteOutcome(fd, |data|, false, None))
      ensures Kinds(View().inodes) == old(Kinds(View().inodes))
      ensures result != Some(WriteOk) ==> View() == old(View()) && openFiles == old(openFiles) && unchanged(allocator)
      ensures result == Some(WriteOk) ==>
                View() == old(AfterWrite(fd, data, false)) && openFiles == Moved(old(openFiles), fd, |data|)
                && openFiles[fd].position == old(openFiles[fd].position) + |data|
      ensures result == Some(WriteOk) ==>
                Contents() == old(Overwrite(PayloadSize(), Contents(), openFiles[fd].inodeNo, openFiles[fd].position,
                    data))
      ensures result == Some(WriteOk) ==>
                allocator.numberOfFreeBlocks == old(allocator.numberOfFreeBlocks - BlocksFor(fd, |data|, false))
    {
      hide StoreOk, VolumeOk, TreeOk, TreeShape, DirsHold;
      if fd !in openFiles {
        return None;
      }
      ghost var named := Valid();
      ghost var w := WriteKeepsNames(fd, data);
      ghost var stands := named && (w == View() || OnFile(fd));
      var written := WriteFile(fd, data, w);
      if stands {
        NamesKept(w);
      }
      result := Some(written);
    }

    lemma NamesKept(w: Volume)
      requires StoreValid() && View() == w && TreeOk(PayloadSize(), w, tree)
      ensures Valid()
    {
    }

    method WriteFile(fd: nat, data: seq<byte>, ghost w: Volume) returns (result: WriteResult)
      requires StoreValid() && CanWrite(fd, |data|, false, None)
      requires w == if WriteOutcome(fd, |data|, false, None) == WriteOk then AfterWrite(fd, data, false) else View()
      modifies this`openFiles, this`chains, allocator, allocator.bitmap, table.inodes, disk
      ensures StoreValid() && View() == w
      ensures result == old(WriteOutcome(fd, |data|, false, None)) && result != DuplicateName
      ensures result != WriteOk ==> openFiles == old(openFiles) && unchanged(allocator)
      ensures result == WriteOk ==> openFiles == Moved(old(openFiles), fd, |data|)
      ensures result == WriteOk ==>
                allocator.numberOfFreeBlocks == old(allocator.numberOfFreeBlocks - BlocksFor(fd, |data|, false))
    {
      result := WriteUnsafe(fd, data, false, None);
    }

    lemma WriteKeepsNames(fd: nat, data: seq<byte>) returns (w: Volume)
      requires StoreValid() && CanWrite(fd, |data|, false, None)
      ensures w == if WriteOutcome(fd, |data|, false, None) == WriteOk then AfterWrite(fd, data, false) else View()
      ensures Kinds(w.inodes) == Kinds(View().inodes)
      ensures Valid() && (w == View() || OnFile(fd)) ==> TreeOk(PayloadSize(), w, tree)
      ensures WriteOutcome(fd, |data|, false, None) == WriteOk ==>
                Store.Contents(PayloadSize(), w)
                    == Overwrite(PayloadSize(), Contents(), openFiles[fd].inodeNo, openFiles[fd].position, data)
    {
      hide StoreOk, VolumeOk, TreeOk, Writable, Written;
      w := View();
      if WriteOutcome(fd, |data|, false, None) == WriteOk {
        w := AfterWrite(fd, data, false);
        var i, added := openFiles[fd].inodeNo, NextBlocks(BlocksFor(fd, |data|, false));
        WritePrepared(fd, data, false, None);
        if Valid() && OnFile(fd) {
          FileWriteKeepsTree(PayloadSize(), View(), tree, i, added, data, Offset(fd, |data|, false));
        }
        KindsWritten(PayloadSize(), View(), i, added, data, Offset(fd, |data|, false));
        ContentsOverwritten(PayloadSize(), View(), i, added, data, Offset(fd, |data|, false));
      }
    }

    /** Where a write of `len` bytes through an open file goes. */
    function WriteOffset(file: OpenFile, size: nat, len: nat, append: bool): nat
      requires PayloadSize() > 0
    {
      if append then AppendOffset(PayloadSize(), size, len) else file.position
    }

    /** A write to an open file with a buffer that is not empty. */
    predicate Opened(fd: nat, len: nat)
      reads this`openFiles, table
    {
      fd in openFiles && len > 0 && PayloadSize() > 0 && openFiles[fd].inodeNo < table.inodes.Length
    }

    /** What a write must be able to assume, unless its mode stops it: room before the end of the volume and, unless
        the volume is too full, that the walk over the blocks can check names and finds the name, or that the block
        table is right as far as the write looks at it. Besides, for an append, a position inside the file. */
    ghost predicate CanWrite(fd: nat, len: nat, append: bool, checkName: Option<seq<byte>>)
      reads this`openFiles, this`chains, allocator, table, table.inodes, disk
    {
      && Opened(fd, len)
      && (append ==> openFiles[fd].position <= table.inodes[openFiles[fd].inodeNo].size)
      && (openFiles[fd].mode == ReadMode || WriteGoesOn(fd, len, append, checkName))
    }

    ghost predicate WriteGoesOn(fd: nat, len: nat, append: bool, checkName: Option<seq<byte>>)
      requires Opened(fd, len)
      reads this`openFiles, this`chains, allocator, table, table.inodes, disk
    {
      && Room(BlocksFor(fd, len, append))
      && (TooFull(BlocksFor(fd, len, append))
          || ((checkName.Some? ==> blockSize / SIGNATURE_SIZE == SlotsPerBlock(PayloadSize()))
              && (MeetsName(fd, checkName) || TableOfWriteSuffices(fd, len, append))))
    }

    predicate TableOfWriteSuffices(fd: nat, len: nat, append: bool)
      requires Opened(fd, len)
      reads this`openFiles, table, table.inodes
    {
      TableSuffices(PayloadSize(), table.inodes[openFiles[fd].inodeNo].size, Offset(fd, len, append), len)
    }

    /** A name is to be checked, and the file has it. */
    ghost predicate MeetsName(fd: nat, checkName: Option<seq<byte>>)
      reads this`openFiles, this`chains, disk
    {
      checkName.Some? && fd in openFiles && HasName(openFiles[fd].inodeNo, checkName.value)
    }

    /** The file is empty or its last block is not full. */
    predicate LastBlockOpen(i: nat)
      requires i < table.inodes.Length && PayloadSize() > 0
      reads table, table.inodes
    {
      table.inodes[i].size == 0 || table.inodes[i].size % PayloadSize() != 0
    }

    /** How many new blocks a write needs. */
    function BlocksFor(fd: nat, len: nat, append: bool): nat
      requires fd in openFiles && PayloadSize() > 0 && openFiles[fd].inodeNo < table.inodes.Length
      reads this`openFiles, table, table.inodes
    {
      var size := table.inodes[openFiles[fd].inodeNo].size;
      NewBlocks(PayloadSize(), size, WriteOffset(openFiles[fd], size, len, append), len)
    }

    /** Some directory record in the blocks of inode `i` is in use for `name`. */
    ghost predicate HasName(i: nat, name: seq<byte>)
      reads this`chains, disk
    {
      i < |chains| && BlocksOk(PayloadSize(), disk[..]) && InRange(disk[..], chains[i])
      && LookupFrom(PayloadSize(), disk[..], chains[i], name, 0) != 0
    }

    /** How a write ends: the mode is checked first, then the free blocks, then the name. */
    ghost function WriteOutcome(fd: nat, len: nat, append: bool, checkName: Option<seq<byte>>): WriteResult
      requires Opened(fd, len)
      reads this`openFiles, this`chains, allocator, table, table.inodes, disk
    {
      if openFiles[fd].mode == ReadMode then WrongMode
      else if TooFull(BlocksFor(fd, len, append)) then NoFreeBlocks
      else if MeetsName(fd, checkName) then DuplicateName
      else WriteOk
    }

    /** The offset of a write and the block counts of the file before and after it. */
    method PlanWrite(file: OpenFile, len: nat, append: bool) returns (offset: nat, taken: nat, needed: nat)
      requires PayloadSize() > 0 && len > 0 && file.inodeNo < table.inodes.Length
      ensures offset == WriteOffset(file, table.inodes[file.inodeNo].size, len, append)
      ensures taken == TakenBlocks(PayloadSize(), table.inodes[file.inodeNo].size)
      ensures needed == CeilDiv(offset + len, PayloadSize()) > 0
    {
      hide CeilDiv, AppendOffset;
      var r, size := PayloadSize(), table.inodes[file.inodeNo].size;
      if append {
        offset := PlanAppend(r, size, len);
      } else {
        offset := file.position;
      }
      taken, needed := PlanBlocks(r, size, offset + len);
    }

    /** The second half of a write, once its new blocks have been taken: the table is filled from the chain and the
        names are checked; then size, data and position are written. `walked` is the chain so far, or the first new
        block of an empty file; `t` is the chain after a write that goes through. */
    method FinishWrite(fd: nat, data: seq<byte>, offset: nat, blocksTable: array<nat>, checkName: Option<seq<byte>>,
                       ghost t: seq<nat>, ghost walked: seq<nat>)
        returns (isNew: bool)
      requires Shape() && fd in openFiles && openFiles[fd].inodeNo < table.inodes.Length && |data| > 0
      requires BlocksOk(PayloadSize(), disk[..])
      requires Linked(disk[..], walked) && walked != [] && table.inodes[openFiles[fd].inodeNo].firstBlock == walked[0]
      requires |walked| <= blocksTable.Length && blocksTable as object != disk && blocksTable as object != table.inodes
      requires (checkName.Some? && LookupFrom(PayloadSize(), disk[..], walked, checkName.value, 0) != 0)
               || TableReady(PayloadSize(), disk[..], walked, t, blocksTable[|walked|..], |data|, offset)
      requires checkName.Some? ==> blockSize / SIGNATURE_SIZE == SlotsPerBlock(PayloadSize())
      modifies this`openFiles, table.inodes, disk, blocksTable
      ensures isNew <==> checkName.None? || LookupFrom(PayloadSize(), old(disk[..]), walked, checkName.value, 0) == 0
      ensures !isNew ==>
                openFiles == old(openFiles) && disk[..] == old(disk[..]) && table.inodes[..] == old(table.inodes[..])
      ensures isNew ==> disk[..] == Saved(PayloadSize(), old(disk[..]), t, data, offset)
      ensures isNew ==> table.inodes[..] == Sized(old(table.inodes[..]), old(openFiles)[fd].inodeNo, offset + |data|)
      ensures isNew ==> openFiles == Moved(old(openFiles), fd, |data|)
      ensures isNew ==> openFiles[fd].position == old(openFiles[fd].position) + |data|
    {
      var first := table.inodes[openFiles[fd].inodeNo].firstBlock;
      isNew := GetBlocksNumbersTakenByFile(blockSize, disk, first, checkName, blocksTable, walked);
      if isNew {
        TableFilled(t, walked, blocksTable[..],
            BlockIndex(PayloadSize(), offset) + BlocksVisited(PayloadSize(), |data|));
        CommitWrite(fd, data, offset, blocksTable[..], t);
      }
    }

    /** A write with its offset and block counts known: takes the new blocks and does the rest. */
    method TakeAndFinish(fd: nat, data: seq<byte>, offset: nat, taken: nat, needed: nat, checkName: Option<seq<byte>>,
                         ghost c: seq<nat>, ghost k: nat, ghost added: seq<nat>)
        returns (result: WriteResult)
      requires Shape() && allocator.Valid() && table.Valid()
      requires fd in openFiles && openFiles[fd].inodeNo < table.inodes.Length && |data| > 0
      requires |c| <= taken && (c == [] ==> taken == 0) && needed > 0
               && k == (if needed > taken then needed - taken else 0)
               && added == NextBlocks(k)
      requires table.inodes[openFiles[fd].inodeNo].firstBlock == First(c) && (c != [] ==> c[0] != 0)
      requires Room(k)
      requires TooFull(k)
               || BlocksReady(PayloadSize(), disk[..], c, added, taken, |data|, offset, blockSize / SIGNATURE_SIZE,
                   checkName)
      modifies this`openFiles, allocator, allocator.bitmap, table.inodes, disk
      ensures allocator.Valid() && table.Valid()
      ensures result == if old(TooFull(k)) then NoFreeBlocks
                        else if checkName.Some?
                           && LookupFrom(PayloadSize(), old(disk[..]), Walked(c, added), checkName.value, 0) != 0
                        then DuplicateName else WriteOk
      ensures result == NoFreeBlocks ==> unchanged(allocator) && unchanged(allocator.bitmap)
      ensures result != NoFreeBlocks ==>
                allocator.firstFreeBlockNumber == NthCandidate(old(allocator.firstFreeBlockNumber), k)
      ensures result != NoFreeBlocks ==> allocator.numberOfFreeBlocks == old(allocator.numberOfFreeBlocks) - k
      ensures result != WriteOk ==> openFiles == old(openFiles) && disk[..] == old(disk[..])
      ensures result != WriteOk && (c != [] || result == NoFreeBlocks) ==> table.inodes[..] == old(table.inodes[..])
      ensures result == WriteOk ==> disk[..] == Saved(PayloadSize(), old(disk[..]), c + added, data, offset)
      ensures result == WriteOk ==>
                table.inodes[..] == Sized(FirstBlockSet(old(table.inodes[..]), old(openFiles)[fd].inodeNo,
                    First(c + added)), old(openFiles)[fd].inodeNo, offset + |data|)
      ensures result == WriteOk ==> openFiles == Moved(old(openFiles), fd, |data|)
    {
      hide LookupFrom, BlockIndex, BlocksVisited, Saved, Distinct, NextIn, Regular, LeastEmpty;
      ghost var inodes := table.inodes[..];
      ghost var i := openFiles[fd].inodeNo;
      var blocksTable, ok := TakeBlocks(openFiles[fd].inodeNo, taken, needed);
      if !ok {
        return NoFreeBlocks;
      }
      assert table.inodes[..] == FirstBlockSet(inodes, i, First(c + added));
      TableAfterSearch(PayloadSize(), disk[..], c, added, taken, blocksTable[..], |data|, offset,
          blockSize / SIGNATURE_SIZE,
          checkName);
      var isNew := FinishWrite(fd, data, offset, blocksTable, checkName, c + added, Walked(c, added));
      result := if isNew then WriteOk else DuplicateName;
      SameKindsLeastEmpty(inodes, table.inodes[..], table.firstFreeInode);
    }

    /** What a well-formed volume offers to a write that its mode does not stop. */
    lemma WritePrepared(fd: nat, data: seq<byte>, append: bool, checkName: Option<seq<byte>>)
      requires StoreValid() && CanWrite(fd, |data|, append, checkName) && openFiles[fd].mode != ReadMode
      ensures var i, k := openFiles[fd].inodeNo, BlocksFor(fd, |data|, append);
        && |chains| == table.inodes.Length && |chains[i]| == CeilDiv(table.inodes[i].size, PayloadSize())
        && table.inodes[i].firstBlock == First(chains[i]) && (chains[i] != [] ==> chains[i][0] != 0)
        && (!TooFull(k) ==>
              && View().taken + (set b | b in NextBlocks(k))
                  == TakenBelow(NthCandidate(allocator.firstFreeBlockNumber, k))
              && BlocksReady(PayloadSize(), disk[..], chains[i], NextBlocks(k),
                     TakenBlocks(PayloadSize(), table.inodes[i].size), |data|, Offset(fd, |data|, append),
                     blockSize / SIGNATURE_SIZE, checkName)
              && (MeetsName(fd, checkName) <==> FoundOnWalk(i, NextBlocks(k), checkName))
              && (MeetsName(fd, checkName) ==> chains[i] != [])
              && (!MeetsName(fd, checkName) ==> WriteReady(fd, data, append)))
    {
      var r, v, i, k := PayloadSize(), View(), openFiles[fd].inodeNo, BlocksFor(fd, |data|, append);
      assert FileOk(r, v.disk, v.inodes[i], v.chains[i]);
      if !TooFull(k) {
        SearchTakes(|v.disk|, allocator.firstFreeBlockNumber, k);
        if TableOfWriteSuffices(fd, |data|, append) {
          PlanIsWritable(r, v, openFiles, i, allocator.firstFreeBlockNumber, k, data, Offset(fd, |data|, append));
          WalkedChain(r, v, i, NextBlocks(k), data, Offset(fd, |data|, append));
          ReadyBlocks(r, v, i, NextBlocks(k), data, Offset(fd, |data|, append), blockSize / SIGNATURE_SIZE, checkName);
        } else {
          NoBlocks(r, v.disk, checkName.value);
        }
      }
    }

    /** The walk of a write finds the name to be checked. */
    ghost predicate FoundOnWalk(i: nat, added: seq<nat>, checkName: Option<seq<byte>>)
      requires i < |chains|
      reads this`chains, disk
    {
      && checkName.Some? && BlocksOk(PayloadSize(), disk[..]) && InRange(disk[..], Walked(chains[i], added))
      && LookupFrom(PayloadSize(), disk[..], Walked(chains[i], added), checkName.value, 0) != 0
    }

    /** Writes `data` through an open file: at its position, or appended. With `checkName`, the blocks of the file are
        searched for that name first, and the write fails if one has it. */
    method WriteUnsafe(fd: nat, data: seq<byte>, append: bool, checkName: Option<seq<byte>>)
        returns (result: WriteResult)
      requires StoreValid() && CanWrite(fd, |data|, append, checkName)
      modifies this`openFiles, this`chains, allocator, allocator.bitmap, table.inodes, disk
      ensures StoreValid()
      ensures result == old(WriteOutcome(fd, |data|, append, checkName))
      ensures result == WrongMode || result == NoFreeBlocks ==> View() == old(View()) && unchanged(allocator)
      ensures result == DuplicateName ==>
                View() == old(View()).(taken := View().taken) && old(View()).taken <= View().taken
      ensures result == DuplicateName || result == WriteOk ==>
                allocator.numberOfFreeBlocks == old(allocator.numberOfFreeBlocks - BlocksFor(fd, |data|, append))
      ensures result != WriteOk ==> openFiles == old(openFiles)
      ensures result == WriteOk ==> View() == old(AfterWrite(fd, data, append))
      ensures result == WriteOk ==> openFiles == Moved(old(openFiles), fd, |data|)
      ensures result == WriteOk ==> openFiles[fd].position == old(openFiles[fd].position) + |data|
    {
      hide StoreOk, VolumeOk, TreeOk, TreeShape, DirsHold;
      ghost var v, open, i, added := View(), openFiles, openFiles[fd].inodeNo,
          NextBlocks(BlocksFor(fd, |data|, append));
      ghost var offset := Offset(fd, |data|, append);
      result := WriteVolume(fd, data, append, checkName, v, i, added, offset);
      WriteSettled(result, PayloadSize(), v, View(), open, openFiles, i, added, data, offset, fd);
    }

    /** The steps of a write on a well-formed volume `v`, and what it becomes. */
    method WriteVolume(fd: nat, data: seq<byte>, append: bool, checkName: Option<seq<byte>>,
                       ghost v: Volume, ghost i: nat, ghost added: seq<nat>, ghost offset: nat)
        returns (result: WriteResult)
      requires StoreValid() && CanWrite(fd, |data|, append, checkName)
      requires v == View() && i == openFiles[fd].inodeNo && added == NextBlocks(BlocksFor(fd, |data|, append))
      requires offset == Offset(fd, |data|, append)
      modifies this`openFiles, this`chains, allocator, allocator.bitmap, table.inodes, disk
      ensures allocator.Valid() && table.Valid()
      ensures result == old(WriteOutcome(fd, |data|, append, checkName))
      ensures result == WrongMode || result == NoFreeBlocks ==> View() == v && unchanged(allocator)
      ensures result == DuplicateName ==> v.taken <= View().taken
      ensures result == DuplicateName || result == WriteOk ==>
                allocator.numberOfFreeBlocks == old(allocator.numberOfFreeBlocks - BlocksFor(fd, |data|, append))
      ensures result != WriteOk ==> View().(taken := v.taken) == v && openFiles == old(openFiles)
      ensures result == WriteOk ==> Writable(PayloadSize(), v, i, added, data, offset)
      ensures result == WriteOk ==>
                View().(taken := v.taken) == SavedVolume(PayloadSize(), v, i, v.chains[i] + added, data, offset)
      ensures result == WriteOk ==> View().taken == v.taken + (set b | b in added)
      ensures result == WriteOk ==> openFiles == Moved(old(openFiles), fd, |data|)
    {
      if openFiles[fd].mode != ReadMode {
        WritePrepared(fd, data, append, checkName);
      }
      result := WriteBody(fd, data, append, checkName, v, chains[i], BlocksFor(fd, |data|, append), added);
    }

    /** The steps of a write, for callers that know what the volume offers to it. */
    method WriteBody(fd: nat, data: seq<byte>, append: bool, checkName: Option<seq<byte>>,
                     ghost v: Volume, ghost c: seq<nat>, ghost k: nat, ghost added: seq<nat>)
        returns (result: WriteResult)
      requires Shape() && allocator.Valid() && table.Valid() && Opened(fd, |data|)
      requires v.disk == disk[..] && v.inodes == table.inodes[..] && v.chains == chains
               && |chains| == table.inodes.Length && c == chains[openFiles[fd].inodeNo]
      requires k == BlocksFor(fd, |data|, append) && added == NextBlocks(k)
      requires openFiles[fd].mode != ReadMode ==>
                 && |c| == CeilDiv(table.inodes[openFiles[fd].inodeNo].size, PayloadSize())
                 && table.inodes[openFiles[fd].inodeNo].firstBlock == First(c) && (c != [] ==> c[0] != 0)
                 && Room(k)
                 && (TooFull(k)
                     || BlocksReady(PayloadSize(), disk[..], c, added,
                            TakenBlocks(PayloadSize(), table.inodes[openFiles[fd].inodeNo].size), |data|,
                            Offset(fd, |data|, append), blockSize / SIGNATURE_SIZE, checkName))
      modifies this`openFiles, this`chains, allocator, allocator.bitmap, table.inodes, disk
      ensures allocator.Valid() && table.Valid()
      ensures result == if old(openFiles)[fd].mode == ReadMode then WrongMode
                        else if old(TooFull(k)) then NoFreeBlocks
                        else if checkName.Some?
                           && LookupFrom(PayloadSize(), v.disk, Walked(c, added), checkName.value, 0) != 0
                        then DuplicateName else WriteOk
      ensures result == WrongMode || result == NoFreeBlocks ==> unchanged(allocator) && unchanged(allocator.bitmap)
      ensures result == DuplicateName || result == WriteOk ==>
                && allocator.firstFreeBlockNumber == NthCandidate(old(allocator.firstFreeBlockNumber), k)
                && allocator.numberOfFreeBlocks == old(allocator.numberOfFreeBlocks) - k
      ensures result != WriteOk ==> openFiles == old(openFiles) && chains == old(chains) && disk[..] == v.disk
      ensures result != WriteOk && (c != [] || result != DuplicateName) ==> table.inodes[..] == v.inodes
      ensures result == WriteOk ==> openFiles == Moved(old(openFiles), fd, |data|)
      ensures result == WriteOk ==>
                Volume(disk[..], table.inodes[..], chains, v.taken)
                == SavedVolume(PayloadSize(), v, old(openFiles)[fd].inodeNo, c + added, data,
                    old(Offset(fd, |data|, append)))
    {
      hide Saved, CeilDiv, LookupFrom, Linked, Walked, AppendOffset, Candidates, NthCandidate;
      if openFiles[fd].mode == ReadMode {
        return WrongMode;
      }
      var offset, taken, needed := PlanWrite(openFiles[fd], |data|, append);
      TakenCount(PayloadSize(), table.inodes[openFiles[fd].inodeNo].size);
      ghost var i := openFiles[fd].inodeNo;
      result := TakeAndFinish(fd, data, offset, taken, needed, checkName, c, k, added);
      if result == WriteOk {
        chains := chains[i := c + added];
      }
    }

    /** The new blocks of a write, if any, are there. */
    ghost predicate WriteReady(fd: nat, data: seq<byte>, append: bool)
      reads this`openFiles, this`chains, allocator, allocator.bitmap, table, table.inodes, disk
    {
      Opened(fd, |data|)
      && Writable(PayloadSize(), View(), openFiles[fd].inodeNo, NextBlocks(BlocksFor(fd, |data|, append)), data,
          Offset(fd, |data|, append))
    }

    /** The volume after a write that goes through; there is no other case, by `WritePrepared`. */
    ghost function AfterWrite(fd: nat, data: seq<byte>, append: bool): Volume
      reads this`openFiles, this`chains, allocator, allocator.bitmap, table, table.inodes, disk
    {
      if !WriteReady(fd, data, append) then View()
      else Written(PayloadSize(), View(), openFiles[fd].inodeNo, NextBlocks(BlocksFor(fd, |data|, append)), data,
          Offset(fd, |data|, append))
    }

    /** Where a write through an open file goes. */
    function Offset(fd: nat, len: nat, append: bool): nat
      requires Opened(fd, len)
      reads this`openFiles, table, table.inodes
    {
      WriteOffset(openFiles[fd], table.inodes[openFiles[fd].inodeNo].size, len, append)
    }

    /** Records the new size of the file, writes the data over the blocks of the table and moves the position. */
    method CommitWrite(fd: nat, data: seq<byte>, offset: nat, blocksTable: seq<nat>, ghost t: seq<nat>)
      requires Shape() && fd in openFiles && openFiles[fd].inodeNo < table.inodes.Length && |data| > 0
      requires BlocksOk(PayloadSize(), disk[..]) && InRange(disk[..], t)
      requires Covers(blocksTable, t, BlockIndex(PayloadSize(), offset) + BlocksVisited(PayloadSize(), |data|))
      modifies this`openFiles, table.inodes, disk
      ensures disk[..] == Saved(PayloadSize(), old(disk[..]), t, data, offset)
      ensures table.inodes[..] == Sized(old(table.inodes[..]), old(openFiles)[fd].inodeNo, offset + |data|)
      ensures openFiles == Moved(old(openFiles), fd, |data|)
      ensures openFiles[fd].position == old(openFiles[fd].position) + |data|
    {
      var i := openFiles[fd].inodeNo;
      var size := table.inodes[i].size;
      if size < offset + |data| {
        table.inodes[i] := table.inodes[i].(size := offset + |data|);
      }
      SaveBufferToFile(PayloadSize(), disk, blocksTable, data, offset, t);
      openFiles := openFiles[fd := openFiles[fd].(position := openFiles[fd].position + |data|)];
    }
  }

  lemma KindsWritten(r: nat, v: Volume, i: nat, added: seq<nat>, data: seq<byte>, off: nat)
    requires Writable(r, v, i, added, data, off)
    ensures Kinds(Written(r, v, i, added, data, off).inodes) == Kinds(v.inodes)
  {
    hide VolumeOk, Saved;
  }

  /** The inodes once file `i` reaches at least up to `end`. */
  ghost function Sized(inodes: seq<Inode>, i: nat, end: nat): seq<Inode>
    requires i < |inodes|
  {
    inodes[i := inodes[i].(size := Max(inodes[i].size, end))]
  }

  /** The open files once the position of `fd` has moved on by `len`. */
  function Moved(open: OpenFiles, fd: nat, len: nat): OpenFiles
    requires fd in open
  {
    open[fd := open[fd].(position := open[fd].position + len)]
  }

  ghost function FirstBlockSet(inodes: seq<Inode>, i: nat, first: nat): seq<Inode>
    requires i < |inodes|
  {
    inodes[i := inodes[i].(firstBlock := first)]
  }

  /** The chain that a write walks before linking its new blocks: the file's own, or the first new block of an empty
      file. */
  ghost function Walked(c: seq<nat>, added: seq<nat>): seq<nat> {
    if c == [] && added != [] then added[..1] else c
  }

  /** The volume with the file `i`, whose chain is now `t`, written. */
  ghost function SavedVolume(r: nat, v: Volume, i: nat, t: seq<nat>, data: seq<byte>, off: nat): Volume
    requires r > 0 && |data| > 0 && i < |v.inodes| == |v.chains|
    requires BlocksOk(r, v.disk) && InRange(v.disk, t)
    requires BlockIndex(r, off) + BlocksVisited(r, |data|) <= |t|
  {
    v.(disk := Saved(r, v.disk, t, data, off),
       inodes := Sized(FirstBlockSet(v.inodes, i, First(t)), i, off + |data|),
       chains := v.chains[i := t])
  }

  lemma WriteConcluded(r: nat, v: Volume, w: Volume, open: OpenFiles, i: nat, added: seq<nat>, data: seq<byte>,
                       off: nat, fd: nat)
    requires StoreOk(r, v, open) && Writable(r, v, i, added, data, off)
    requires fd in open && open[fd].inodeNo == i && open[fd].position <= off
    requires w.taken == v.taken + set b | b in added
    requires w.(taken := v.taken) == SavedVolume(r, v, i, v.chains[i] + added, data, off)
    ensures w == Written(r, v, i, added, data, off)
    ensures StoreOk(r, w, Moved(open, fd, |data|))
  {
    WriteKeepsStore(r, v, open, i, added, data, off);
  }

  /** However a write ends, the store stays well formed. */
  lemma WriteSettled(result: WriteResult, r: nat, v: Volume, w: Volume, open: OpenFiles, open': OpenFiles,
                     i: nat, added: seq<nat>, data: seq<byte>, off: nat, fd: nat)
    requires StoreOk(r, v, open) && fd in open && open[fd].inodeNo == i
    requires result == WriteOk ==>
               && Writable(r, v, i, added, data, off) && open[fd].position <= off
               && w.taken == v.taken + (set b | b in added)
               && w.(taken := v.taken) == SavedVolume(r, v, i, v.chains[i] + added, data, off)
               && open' == Moved(open, fd, |data|)
    requires result == DuplicateName ==> v.taken <= w.taken
    requires result == WrongMode || result == NoFreeBlocks ==> v.taken == w.taken
    requires result != WriteOk ==> w.(taken := v.taken) == v && open' == open
    ensures StoreOk(r, w, open')
    ensures result == WriteOk ==> w == Written(r, v, i, added, data, off)
  {
    if result == WriteOk {
      WriteConcluded(r, v, w, open, i, added, data, off, fd);
    } else if result == DuplicateName {
      LeakKeepsStore(r, v, open, w.taken);
      assert w == v.(taken := w.taken);
    } else {
      assert w == v;
    }
  }

  /** The unfilled rest `rest` of a block table and the blocks `walked` in front of it make up a table that is right
      as far as the write looks at it, for the chain `t`. */
  ghost predicate TableReady(r: nat, disk: seq<Block>, walked: seq<nat>, t: seq<nat>, rest: seq<nat>, len: nat,
                             offset: nat) {
    && r > 0 && len > 0 && InRange(disk, t)
    && Covers(walked + rest, t, BlockIndex(r, offset) + BlocksVisited(r, len))
  }

  /** What the blocks of a write must be like: the file's chain `c`, for which `taken` entries of the table are meant,
      and the new blocks `added`. Either the walk finds the name, or the table will be right as far as the write looks
      at it. */
  ghost predicate BlocksReady(r: nat, disk: seq<Block>, c: seq<nat>, added: seq<nat>, taken: nat, len: nat, offset: nat,
                              records: nat, checkName: Option<seq<byte>>) {
    && r > 0 && len > 0
    && BlocksOk(r, disk)
    && Linked(disk, Walked(c, added)) && Walked(c, added) != [] && Walked(c, added)[0] == First(c + added)
    && (checkName.Some? ==> records == SlotsPerBlock(r))
    && ((checkName.Some? && LookupFrom(r, disk, Walked(c, added), checkName.value, 0) != 0)
        || (InRange(disk, c + added) && BlockIndex(r, offset) + BlocksVisited(r, len) <= |c + added|
            && (taken == |c| || (added == [] && BlockIndex(r, offset) + BlocksVisited(r, len) < |c|))))
  }

  /** A blank block holds no record with a file's number. */
  lemma BlankLookup(r: nat, disk: seq<Block>, b: nat, name: seq<byte>)
    requires r >= SIGNATURE_SIZE && BlocksOk(r, disk) && b < |disk|
    requires disk[b] == Block(Zeros(r), 0)
    ensures LookupFrom(r, disk, [b], name, 0) == 0
  {
    LockBlock(Zeros(r), name, 0, SlotsPerBlock(r));
    assert LookupFrom(r, disk, [b], name, 1) == 0;
  }

  /** The walked chain is linked. */
  lemma WalkedLinked(disk: seq<Block>, c: seq<nat>, added: seq<nat>)
    requires Linked(disk, c) && InRange(disk, added) && c + added != []
    requires forall k :: 0 <= k < |added| ==> added[k] != 0 && disk[added[k]].next == 0
    ensures Linked(disk, Walked(c, added)) && Walked(c, added) != [] && Walked(c, added)[0] == First(c + added)
  {
  }

  lemma WalkedChain(r: nat, v: Volume, i: nat, added: seq<nat>, data: seq<byte>, off: nat)
    requires r >= SIGNATURE_SIZE && Writable(r, v, i, added, data, off)
    ensures Linked(v.disk, Walked(v.chains[i], added)) && Walked(v.chains[i], added) != []
    ensures Walked(v.chains[i], added)[0] == First(v.chains[i] + added)
    ensures forall name ::
              LookupFrom(r, v.disk, Walked(v.chains[i], added), name, 0) == LookupFrom(r, v.disk, v.chains[i], name, 0)
    ensures v.chains[i] == [] ==> forall name :: LookupFrom(r, v.disk, v.chains[i], name, 0) == 0
  {
    hide LookupFrom, Linked, Distinct, CeilDiv, BlockIndex, BlocksVisited;
    var c := v.chains[i];
    AddedBlank(r, v, i, added, data, off);
    CeilDivBounds(off + |data|, r);
    WalkedLinked(v.disk, c, added);
    if c == [] {
      forall name ensures LookupFrom(r, v.disk, Walked(c, added), name, 0) == LookupFrom(r, v.disk, c, name, 0) == 0 {
        BlankLookup(r, v.disk, added[0], name);
        NoBlocks(r, v.disk, name);
        assert Walked(c, added) == [added[0]];
      }
    }
  }

  /** The blocks of a write that goes through are as it needs them. */
  lemma ReadyBlocks(r: nat, v: Volume, i: nat, added: seq<nat>, data: seq<byte>, off: nat, records: nat,
                    checkName: Option<seq<byte>>)
    requires r >= SIGNATURE_SIZE && Writable(r, v, i, added, data, off)
    requires TableSuffices(r, v.inodes[i].size, off, |data|) && |added| == NewBlocks(r, v.inodes[i].size, off, |data|)
    requires checkName.Some? ==> records == SlotsPerBlock(r)
    ensures BlocksReady(r, v.disk, v.chains[i], added, TakenBlocks(r, v.inodes[i].size), |data|, off, records,
            checkName)
  {
    hide LookupFrom, Linked, Distinct, CeilDiv, BlockIndex, BlocksVisited;
    WalkedChain(r, v, i, added, data, off);
    assert FileOk(r, v.disk, v.inodes[i], v.chains[i]);
    TakenCount(r, v.inodes[i].size);
    VisitedFit(r, off, |data|);
  }

  /** The table of a write after the search for new blocks is right as far as the write will look at it. */
  lemma TableAfterSearch(r: nat, disk: seq<Block>, c: seq<nat>, added: seq<nat>, taken: nat, blocksTable: seq<nat>,
                         len: nat, offset: nat, records: nat, checkName: Option<seq<byte>>)
    requires BlocksReady(r, disk, c, added, taken, len, offset, records, checkName)
    requires |c| <= taken && (c == [] ==> taken == 0)
    requires |blocksTable| == taken + |added| && blocksTable[taken..] == added
    ensures |Walked(c, added)| <= |blocksTable|
    ensures (checkName.Some? && LookupFrom(r, disk, Walked(c, added), checkName.value, 0) != 0)
            || TableReady(r, disk, Walked(c, added), c + added, blocksTable[|Walked(c, added)|..], len, offset)
  {
    hide LookupFrom, Linked, BlockIndex, BlocksVisited;
    var walked := Walked(c, added);
    if taken == |c| {
      assert walked + blocksTable[|walked|..] == c + added;
    } else {
      assert added == [] ==> c + added == c && c <= c + blocksTable[|c|..];
    }
  }

  lemma NoBlocks(r: nat, disk: seq<Block>, name: seq<byte>)
    requires BlocksOk(r, disk)
    ensures LookupFrom(r, disk, [], name, 0) == 0
  {
  }

  /** The table of a write, once the walk has filled its front, is right as far as the write looks at it. */
  lemma TableFilled(t: seq<nat>, walked: seq<nat>, blocksTable: seq<nat>, end: nat)
    requires |walked| <= |blocksTable| && blocksTable[..|walked|] == walked
    requires Covers(walked + blocksTable[|walked|..], t, end)
    ensures Covers(blocksTable, t, end)
  {
    assert blocksTable == blocksTable[..|walked|] + blocksTable[|walked|..];
  }
}
