/** A creation that fails and loses a block, by the contracts of the operations alone. */
module RepeatedName {
  import opened Arith
  import opened BlockAllocator
  import opened InodeTable
  import opened Store
  import opened Signature
  import opened Directory
  import opened Paths
  import opened FsState
  import opened FileSystem
  import opened Creation
  import opened Runs
  import opened FirstFile

  const NAMES: seq<seq<byte>> := [[97], [98], [99], [100]]

  /** In a new volume of 100 blocks of 1024 bytes, four files fill the first block of the root; creating the first of
      them again then fails, changes no name and no content, and loses a block. */
  method LoseBlock() returns (fs: FileSystem, result: CreateResult, ghost before: State)
    ensures fs.Valid() && result == FileAlreadyExists
    ensures Observed(fs) == before.(free := 97) && before.free == 98
  {
    hide StoreOk, VolumeOk, TreeOk, TreeShape, DirsHold, BlankVolume, NewBlocks, RootHas;
    fs := new FileSystem(1024, 100);
    StartsEmpty(fs);
    for i := 0 to |NAMES|
      invariant RootHas(fs, NAMES[..i]) && fresh(fs)
      invariant fresh(fs.allocator) && fresh(fs.allocator.bitmap) && fresh(fs.table) && fresh(fs.table.inodes)
                && fresh(fs.disk)
    {
      NextName(i);
      CreateAnother(fs, NAMES[..i], NAMES[i]);
    }
    assert NAMES[..4] == NAMES;
    before := Observed(fs);
    result := CreateAgain(fs, NAMES[0]);
  }

  lemma NextName(i: nat)
    requires i < |NAMES|
    ensures NAMES[..i + 1] == NAMES[..i] + [NAMES[i]]
    ensures NAMES[i] !in NAMES[..i] && NAMES[i] != [] && GoodName(NAMES[i]) && SLASH !in NAMES[i]
  {
  }

  /** The root has files of those names, in that order, and there is nothing else. */
  ghost predicate RootHas(fs: FileSystem, names: seq<seq<byte>>)
    reads fs`openFiles, fs`chains, fs`tree, fs.allocator, fs.allocator.bitmap, fs.table, fs.table.inodes, fs.disk
  {
    && fs.Valid() && fs.blockSize == 1024 && fs.allocator.numberOfBlocks == 100 && |names| <= 4
    && 0 in fs.tree.dirs && |fs.tree.dirs[0]| == |names|
    && (forall k :: 0 <= k < |names| ==> fs.tree.dirs[0][k].name == names[k])
    && fs.allocator.numberOfFreeBlocks == (if names == [] then 99 else 98)
    && |Kinds(fs.View().inodes)| >= 100 && fs.table.firstFreeInode == 2 + |names|
    && forall i :: 2 + |names| <= i < |Kinds(fs.View().inodes)| ==> Kinds(fs.View().inodes)[i] == Kind.Empty
  }

  lemma StartsEmpty(fs: FileSystem)
    requires fs.Valid() && fs.tree == Tree(map[0 := []], map[]) && BlankVolume(fs.PayloadSize(), fs.View())
    requires fs.blockSize == 1024 && fs.allocator.numberOfBlocks == 100 && fs.allocator.numberOfFreeBlocks == 99
    requires fs.table.firstFreeInode == 2 && 100 <= |fs.View().inodes|
    ensures RootHas(fs, NAMES[..0])
  {
    hide StoreOk, VolumeOk, TreeOk;
  }

  /** One more record fits into the root, and takes a new block if there are no or four records yet. */
  lemma RootTakes(fs: FileSystem, names: seq<seq<byte>>, base: seq<byte>)
    requires RootHas(fs, names) && base != [] && GoodName(base) && SLASH !in base
    ensures CanCreate(fs, [SLASH] + base) && CanEnter(fs, 0, base)
    ensures CreationBlocks(fs, [SLASH] + base) == RecordBlocks(fs, 0) == if |names| % 4 == 0 then 1 else 0
    ensures CreateOutcome(fs, [SLASH] + base) == if base in names then FileAlreadyExists else Created
    ensures ParentPath([SLASH] + base) == [SLASH] && BaseName([SLASH] + base) == base
  {
    hide StoreOk, VolumeOk, TreeOk, NewBlocks, AppendOffset, DirSize, FindFrom, ParentPath, BaseName, Rank,
        NthCandidate;
    InRoot(base);
    RootSize(fs, names);
    RootRoom(fs, names);
    NameInRoot(fs, names, base);
  }

  lemma RootSize(fs: FileSystem, names: seq<seq<byte>>)
    requires RootHas(fs, names)
    ensures 0 < fs.table.inodes.Length && fs.PayloadSize() > 0 && fs.LastBlockOpen(0)
    ensures RecordBlocks(fs, 0) == if |names| % 4 == 0 then 1 else 0
  {
    hide StoreOk, VolumeOk, TreeOk, NewBlocks, AppendOffset, DirSize;
    fs.ValidNames();
    DirectorySize(fs.PayloadSize(), fs.View(), fs.openFiles, fs.tree.dirs, 0);
    DirectoryOpen(fs, 0);
    RecordGrows(fs.PayloadSize(), |names|);
    assert SlotsPerBlock(1016) == 4;
  }

  lemma RootRoom(fs: FileSystem, names: seq<seq<byte>>)
    requires RootHas(fs, names)
    ensures fs.Room(1) && !fs.TooFull(1)
  {
    hide StoreOk, VolumeOk, TreeOk, Regular, NthCandidate;
    FreeTellsFirst(fs.allocator.bitmap[..], 100, fs.allocator.firstFreeBlockNumber, fs.allocator.numberOfFreeBlocks, 1);
  }

  lemma NameInRoot(fs: FileSystem, names: seq<seq<byte>>, base: seq<byte>)
    requires RootHas(fs, names)
    ensures FindFrom(fs.tree.dirs[0], base, 0) != 0 <==> base in names
  {
    hide StoreOk, VolumeOk, DirsHold, DirsShape;
    fs.ValidNames();
    RootEntries(fs.PayloadSize(), fs.View(), fs.openFiles, fs.tree.dirs);
    FoundIffPresent(fs.tree.dirs[0], base, 0);
  }

  lemma RootEntries(r: nat, v: Volume, open: OpenFiles, dirs: Dirs)
    requires StoreOk(r, v, open) && DirsHold(r, v, dirs) && 0 in dirs
    ensures GoodEntries(dirs[0])
  {
    assert DirHolds(r, Content(r, v, 0), dirs[0]);
  }

  /** Creates a file under a new name in the root. */
  method CreateAnother(fs: FileSystem, names: seq<seq<byte>>, base: seq<byte>)
    requires RootHas(fs, names) && |names| < 4 && base !in names
    requires base != [] && GoodName(base) && SLASH !in base
    modifies fs`openFiles, fs`chains, fs`tree, fs.allocator, fs.allocator.bitmap, fs.table, fs.table.inodes, fs.disk
    ensures RootHas(fs, names + [base])
  {
    hide StoreOk, VolumeOk, TreeOk, TreeShape, DirsHold, NewBlocks, Store.Contents, CanCreate, RecordBlocks;
    RootTakes(fs, names, base);
    ghost var kinds, x := Kinds(fs.View().inodes), fs.table.firstFreeInode;
    var result := CreateFileOrDir(fs, [SLASH] + base, false);
    NextEmpty(fs.table.inodes[..], kinds, x, fs.table.firstFreeInode);
  }

  /** Creates a file in the full root under a name that is there. */
  method CreateAgain(fs: FileSystem, base: seq<byte>) returns (result: CreateResult)
    requires RootHas(fs, NAMES) && base in NAMES && base != [] && GoodName(base) && SLASH !in base
    modifies fs`openFiles, fs`chains, fs`tree, fs.allocator, fs.allocator.bitmap, fs.table, fs.table.inodes, fs.disk
    ensures fs.Valid() && result == FileAlreadyExists
    ensures old(Observed(fs)).free == 98 && Observed(fs) == old(Observed(fs)).(free := 97)
  {
    hide StoreOk, VolumeOk, TreeOk, TreeShape, DirsHold, NewBlocks, Store.Contents, CanCreate, RecordBlocks;
    RootTakes(fs, NAMES, base);
    result := CreateFileOrDir(fs, [SLASH] + base, false);
  }

  lemma NextEmpty(inodes: seq<Inode>, kinds: seq<Kind>, x: nat, next: nat)
    requires LeastEmpty(inodes, next) && 2 <= x && x + 1 < |kinds| && Kinds(inodes) == kinds[x := File]
    requires forall i :: 2 <= i < x ==> kinds[i] != Kind.Empty
    requires forall i :: x <= i < |kinds| ==> kinds[i] == Kind.Empty
    ensures next == x + 1
  {
    assert Kinds(inodes)[x + 1] == Kind.Empty && Kinds(inodes)[x] == File;
    assert next != 0 ==> Kinds(inodes)[next] == Kind.Empty;
  }
}
