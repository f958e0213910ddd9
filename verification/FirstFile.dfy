/** The way of a first file through a new volume, by the contracts of the operations alone. */
module FirstFile {
  import opened Arith
  import opened Wrappers
  import opened BlockAllocator
  import opened InodeTable
  import opened Store
  import opened Signature
  import opened Layout
  import opened Directory
  import opened Paths
  import opened FsState
  import opened FileSystem
  import opened Creation
  import opened Runs

  /** In a new volume with room for it, a file is created in the root, opened, written and read back, and nothing
      fails. */
  method CreateWriteRead(blockSize: nat, numberOfBlocks: nat, base: seq<byte>, data: seq<byte>)
      returns (back: seq<byte>)
    requires Accepted(blockSize, numberOfBlocks) && blockSize % 7936 != 0
    requires blockSize < 0x1_0000_0000 && numberOfBlocks < 0x1_0000_0000
    requires base != [] && GoodName(base) && SLASH !in base && data != []
    requires NthCandidate(2, CeilDiv(|data|, blockSize - 8)) < numberOfBlocks
    ensures back == data
  {
    hide StoreOk, VolumeOk, TreeOk, TreeShape, DirsHold, BlankVolume, NewBlocks, RootCanTake, WithEntry, CeilDiv,
        Store.Contents, NthCandidate;
    RoomBeforeEnd(blockSize - 8, |data|, numberOfBlocks);
    var fs := new FileSystem(blockSize, numberOfBlocks);
    RootReady(fs, base);
    CreateInRoot(fs, base);
    var fd := OpenInRoot(fs, base);
    FileReady(fs, fd, data);
    var written;
    written, back := WriteThenRead(fs, fd, data);
  }

  lemma RoomBeforeEnd(r: nat, len: nat, numberOfBlocks: nat)
    requires r > 0 && len > 0 && NthCandidate(2, CeilDiv(len, r)) < numberOfBlocks
    ensures CeilDiv(len, r) > 0 && CeilDiv(len, r) + 2 < numberOfBlocks
  {
    CeilDivBounds(len, r);
    NthIncreasing(2, 0, CeilDiv(len, r));
  }

  /** The root is ready to take a first record. */
  ghost predicate RootCanTake(fs: FileSystem, base: seq<byte>)
    reads fs`chains, fs`tree, fs.allocator, fs.allocator.bitmap, fs.table, fs.table.inodes, fs.disk
  {
    && base != [] && GoodName(base) && SLASH !in base
    && fs.tree == Tree(map[0 := []], map[]) && fs.table.firstFreeInode == 2
    && CanEnter(fs, 0, base) && RecordBlocks(fs, 0) == 1 && !fs.TooFull(1)
    && |fs.Contents()| > 2 && fs.Contents()[2] == []
  }

  lemma RootReady(fs: FileSystem, base: seq<byte>)
    requires fs.Valid() && fs.tree == Tree(map[0 := []], map[]) && BlankVolume(fs.PayloadSize(), fs.View())
    requires fs.blockSize % 7936 != 0
    requires base != [] && GoodName(base) && SLASH !in base
    requires fs.table.firstFreeInode == 2 && fs.allocator.firstFreeBlockNumber == 1
    requires fs.allocator.numberOfFreeBlocks == fs.allocator.numberOfBlocks - 1 > 1
    ensures RootCanTake(fs, base)
  {
    hide StoreOk, VolumeOk, TreeOk, NewBlocks, AppendOffset;
    BlankState(fs.PayloadSize(), fs.View());
    OneRecord(fs.PayloadSize());
    assert fs.View().inodes[0].size == 0;
  }

  lemma OneRecord(r: nat)
    requires r >= SIGNATURE_SIZE
    ensures NewBlocks(r, 0, AppendOffset(r, 0, SIGNATURE_SIZE), SIGNATURE_SIZE) == 1
  {
    DivModUnique(0, r, 0, 0);
    CeilDivUnique(0, r, 0);
    CeilDivUnique(SIGNATURE_SIZE, r, 1);
  }

  /** The parent of a name in the root, and the name itself. */
  lemma InRoot(base: seq<byte>)
    requires SLASH !in base
    ensures ParentPath([SLASH] + base) == [SLASH] && BaseName([SLASH] + base) == base
  {
    hide ParentLength;
    var name := [SLASH] + base;
    assert name[0] == SLASH;
    assert ParentLength(name) == 1;
  }

  method CreateInRoot(fs: FileSystem, base: seq<byte>)
    requires fs.Valid() && RootCanTake(fs, base)
    modifies fs`openFiles, fs`chains, fs`tree, fs.allocator, fs.allocator.bitmap, fs.table, fs.table.inodes, fs.disk
    ensures fs.Valid() && fs.tree == WithEntry(Tree(map[0 := []], map[]), 0, base, 2, false)
    ensures fs.openFiles == old(fs.openFiles)
    ensures fs.allocator.numberOfFreeBlocks == old(fs.allocator.numberOfFreeBlocks) - 1
    ensures |fs.Contents()| > 2 && fs.Contents()[2] == [] && fs.table.inodes.Length > 2
            && fs.table.inodes[2].kind == File
  {
    hide StoreOk, VolumeOk, TreeOk, TreeShape, DirsHold, NewBlocks, ParentPath, BaseName, Store.Contents;
    InRoot(base);
    var created := CreateFileOrDir(fs, [SLASH] + base, false);
    assert Kinds(fs.View().inodes)[2] == File;
  }

  method OpenInRoot(fs: FileSystem, base: seq<byte>) returns (fd: nat)
    requires fs.Valid() && fs.tree == WithEntry(Tree(map[0 := []], map[]), 0, base, 2, false)
    requires base != [] && SLASH !in base
    modifies fs`openFiles
    ensures fs.Valid() && fd in fs.openFiles && fs.openFiles[fd] == OpenFile(2, 0, ReadAndWrite)
  {
    hide StoreOk, VolumeOk, TreeOk, TreeShape, DirsHold;
    ResolveChild(fs.tree.dirs, [SLASH], base);
    assert fs.tree.dirs[0] == [Entry(base, 2)];
    fs.ValidNames();
    var opened' := fs.Open([SLASH] + base, ReadAndWrite);
    fs.NamesKept(fs.View());
    fd := opened'.value;
  }

  /** The first file of a new volume can be written. */
  lemma FileReady(fs: FileSystem, fd: nat, data: seq<byte>)
    requires fs.StoreValid() && fd in fs.openFiles && fs.openFiles[fd] == OpenFile(2, 0, ReadAndWrite) && data != []
    requires |fs.Contents()| > 2 && fs.Contents()[2] == []
    requires fs.allocator.numberOfFreeBlocks == fs.allocator.numberOfBlocks - 2
    requires NthCandidate(2, CeilDiv(|data|, fs.PayloadSize())) < fs.allocator.numberOfBlocks
    ensures fs.CanWrite(fd, |data|, false, None) && fs.WriteOutcome(fd, |data|, false, None) == WriteOk
    ensures fs.table.inodes[2].size == 0
  {
    hide StoreOk, VolumeOk, NewBlocks, CeilDiv, TakenBelow;
    fs.ContentSize(fd);
    RoomBeforeEnd(fs.PayloadSize(), |data|, fs.allocator.numberOfBlocks);
    FirstFromFree(fs.allocator.bitmap[..], fs.allocator.numberOfBlocks, fs.allocator.firstFreeBlockNumber);
    AllNew(fs.PayloadSize(), |data|);
  }

  lemma AllNew(r: nat, len: nat)
    requires r > 0
    ensures NewBlocks(r, 0, 0, len) == CeilDiv(len, r)
  {
    CeilDivUnique(0, r, 0);
  }

  /** When two blocks are taken, block 2 is next. */
  lemma FirstFromFree(bitmap: seq<bv8>, n: nat, first: nat)
    requires n >= 2 && Regular(bitmap, n, first, n - 2)
    ensures first == 2
  {
    FreeTellsFirst(bitmap, n, first, n - 2, 0);
  }
}
