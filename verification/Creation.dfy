/** Making files and directories. */
module Creation {
  import opened Arith
  import opened Wrappers
  import opened Chains
  import opened InodeTable
  import opened Store
  import opened Signature
  import opened Layout
  import opened Directory
  import opened Paths
  import opened FsState
  import opened FileSystem

  datatype CreateResult = Created | FileAlreadyExists | DirDoesntExist | NameTooLong | OutOfBlocks | OutOfInodes

  /** The volume once the empty inode `x` has been filled. */
  ghost function WithInode(v: Volume, x: nat, inode: Inode): Volume
    requires x < |v.inodes|
  {
    v.(inodes := v.inodes[x := inode])
  }

  /** Filling an empty inode, or emptying it again, leaves the files as they are. */
  lemma InodeFilled(r: nat, v: Volume, open: OpenFiles, x: nat, inode: Inode)
    requires StoreOk(r, v, open) && 2 <= x < |v.inodes| && v.inodes[x].kind == Kind.Empty
    requires inode.size == 0 && inode.firstBlock == 0
    ensures StoreOk(r, WithInode(v, x, inode), open) && VolumeOk(r, v) && VolumeOk(r, WithInode(v, x, inode))
    ensures forall j :: 0 <= j < |v.inodes| ==> Content(r, WithInode(v, x, inode), j) == Content(r, v, j)
    ensures Contents(r, WithInode(v, x, inode)) == Contents(r, v)
    ensures Kinds(WithInode(v, x, inode).inodes) == Kinds(v.inodes)[x := inode.kind]
  {
    hide VolumeOk, Content;
    InodeKeepsStore(r, v, open, x, inode);
    KindsFilled(v.inodes, x, inode);
  }

  lemma KindsFilled(inodes: seq<Inode>, x: nat, inode: Inode)
    requires x < |inodes|
    ensures Kinds(inodes[x := inode]) == Kinds(inodes)[x := inode.kind]
  {
  }

  /** Filling an empty inode outside the tree leaves the directories and their entries in place. */
  lemma InodeAdded(r: nat, v: Volume, open: OpenFiles, tree: Tree, x: nat, inode: Inode)
    requires StoreOk(r, v, open) && TreeOk(r, v, tree)
    requires 2 <= x < |v.inodes| && v.inodes[x].kind == Kind.Empty
    requires inode.kind != Kind.Empty && inode.size == 0 && inode.firstBlock == 0
    ensures StoreOk(r, WithInode(v, x, inode), open)
    ensures DirsShape(Kinds(WithInode(v, x, inode).inodes), tree.dirs) && DirsHold(r, WithInode(v, x, inode), tree.dirs)
    ensures Contents(r, WithInode(v, x, inode)) == Contents(r, v)
  {
    hide StoreOk, VolumeOk, Content, DirsShape, DirHolds;
    InodeFilled(r, v, open, x, inode);
    NewInodeKeepsDirs(Kinds(v.inodes), tree, x, inode.kind);
  }

  /** The store stays well formed when a just filled inode is emptied again, even with some blocks lost. */
  lemma EmptiedOk(r: nat, v: Volume, w: Volume, open: OpenFiles, x: nat, inode: Inode)
    requires StoreOk(r, v, open)
    requires 2 <= x < |v.inodes| && v.inodes[x].kind == inode.kind == Kind.Empty
    requires inode.size == 0 && inode.firstBlock == 0
    requires v.taken <= w.taken && w == WithInode(v, x, inode).(taken := w.taken)
    ensures StoreOk(r, w, open)
    ensures forall j :: 0 <= j < |v.inodes| ==> Content(r, w, j) == Content(r, v, j)
  {
    hide StoreOk, VolumeOk, Content;
    InodeFilled(r, v, open, x, inode);
    LeakKeepsStore(r, WithInode(v, x, inode), open, w.taken);
  }

  /** Taking a just filled inode back leaves files, contents and names as they were. */
  lemma InodeTakenBack(r: nat, v: Volume, w: Volume, open: OpenFiles, tree: Tree, x: nat, inode: Inode)
    requires StoreOk(r, v, open) && TreeOk(r, v, tree)
    requires 2 <= x < |v.inodes| && v.inodes[x].kind == inode.kind == Kind.Empty
    requires inode.size == 0 && inode.firstBlock == 0
    requires v.taken <= w.taken && w == WithInode(v, x, inode).(taken := w.taken)
    ensures TreeOk(r, w, tree)
    ensures Contents(r, w) == Contents(r, v) && Kinds(w.inodes) == Kinds(v.inodes)
  {
    EmptiedOk(r, v, w, open, x, inode);
    SameNames(r, v, w, tree);
  }

  /** The contents of all files once the record of `e` has been appended to directory `p`. */
  ghost function WithRecord(r: nat, contents: seq<seq<byte>>, p: nat, e: Entry): seq<seq<byte>> {
    if r == 0 || p >= |contents| || |e.name| > FILE_NAME_LENGTH then contents
    else contents[p := Overlay(contents[p], AppendOffset(r, |contents[p]|, SIGNATURE_SIZE), SIGNATURE_SIZE, Encode(e))]
  }

  /** Volumes whose files have the same content, but for directory `p`, which has one more record. */
  lemma ContentsRecorded(r: nat, v: Volume, w: Volume, p: nat, e: Entry)
    requires VolumeOk(r, v) && VolumeOk(r, w) && p < |v.inodes| == |w.inodes| && |e.name| <= FILE_NAME_LENGTH
    requires forall j :: 0 <= j < |v.inodes| && j != p ==> Content(r, w, j) == Content(r, v, j)
    requires Content(r, w, p)
          == Overlay(Content(r, v, p), AppendOffset(r, |Content(r, v, p)|, SIGNATURE_SIZE), SIGNATURE_SIZE, Encode(e))
    ensures Contents(r, w) == WithRecord(r, Contents(r, v), p, e)
  {
  }

  lemma DirectoryThere(r: nat, v: Volume, tree: Tree, p: nat)
    requires TreeOk(r, v, tree) && p in tree.dirs
    ensures p < |v.inodes| && v.inodes[p].kind == Dir && DirHolds(r, Content(r, v, p), tree.dirs[p])
            && r >= SIGNATURE_SIZE
    ensures forall d :: d in tree.dirs ==> d < |v.inodes|
  {
  }

  /** Writing the record of a just filled inode gives the volume with that entry. */
  lemma RecordWritten(r: nat, v: Volume, v1: Volume, tree: Tree, p: nat, e: Entry, kind: Kind, added: seq<nat>,
                      off: nat)
    requires VolumeOk(r, v) && TreeOk(r, v, tree)
    requires p in tree.dirs && GoodEntry(e) && 2 <= e.inodeNo < |v.inodes| && v.inodes[e.inodeNo].kind == Kind.Empty
             && kind != Kind.Empty
    requires |v1.inodes| == |v.inodes| && Kinds(v1.inodes) == Kinds(v.inodes)[e.inodeNo := kind]
             && v1.inodes[e.inodeNo].size == 0
    requires VolumeOk(r, v1) && forall j :: 0 <= j < |v.inodes| ==> Content(r, v1, j) == Content(r, v, j)
    requires FindFrom(tree.dirs[p], e.name, 0) == 0
    requires off == AppendOffset(r, v1.inodes[p].size, SIGNATURE_SIZE)
    requires Writable(r, v1, p, added, Encode(e), off)
    ensures var w := Written(r, v1, p, added, Encode(e), off);
      && TreeOk(r, w, WithEntry(tree, p, e.name, e.inodeNo, kind == Dir))
      && Kinds(w.inodes) == Kinds(v1.inodes)
      && Contents(r, w) == WithRecord(r, Contents(r, v), p, e)
  {
    hide VolumeOk, TreeShape, DirsHold, DirHolds, Writable;
    DirectoryThere(r, v, tree, p);
    RecordAppended(r, v1, p, tree.dirs[p], e, added, off);
    var w := Written(r, v1, p, added, Encode(e), off);
    CreateSucceeds(r, v, w, tree, p, e, kind);
    ContentsRecorded(r, v, w, p, e);
  }

  /** Splits a path at its last slash: the parent directory and the name in it. */
  method SplitPath(name: seq<byte>) returns (path: seq<byte>, fileName: seq<byte>)
    requires name != [] && name[0] == SLASH
    ensures path == ParentPath(name) && fileName == BaseName(name)
  {
    var pathLength := |name|;
    while pathLength > 0 && name[pathLength - 1] != SLASH
      invariant 0 < pathLength <= |name|
      invariant forall i :: pathLength <= i < |name| ==> name[i] != SLASH
    {
      pathLength := pathLength - 1;
    }
    assert ParentLength(name) == pathLength;
    path := name[..pathLength];
    fileName := name[pathLength..];
    if pathLength != 1 && path[pathLength - 1] == SLASH {
      path := name[..pathLength - 1];
    }
  }

  /** How many new blocks one more record takes in directory `p`. */
  function RecordBlocks(fs: FileSystem, p: nat): nat
    reads fs.table, fs.table.inodes
  {
    if p >= fs.table.inodes.Length || fs.PayloadSize() == 0 then 0
    else
      var r, size := fs.PayloadSize(), fs.table.inodes[p].size;
      NewBlocks(r, size, AppendOffset(r, size, SIGNATURE_SIZE), SIGNATURE_SIZE)
  }

  /** A record with name `base` can be appended to directory `p`, however that ends: the search for a new block stays
      inside the volume; and, unless the volume is too full, the duplicate check counts the records of a block right,
      and finds the name, or the last block of the directory is not full. */
  ghost predicate CanEnter(fs: FileSystem, p: nat, base: seq<byte>)
    reads fs`tree, fs.allocator, fs.table, fs.table.inodes
  {
    && p in fs.tree.dirs && p < fs.table.inodes.Length && fs.PayloadSize() > 0 && fs.Room(RecordBlocks(fs, p))
    && (fs.TooFull(RecordBlocks(fs, p))
        || (fs.blockSize % 7936 != 0 && (fs.LastBlockOpen(p) || FindFrom(fs.tree.dirs[p], base, 0) != 0)))
  }

  /** What a creation must be able to assume: an absolute path. If the name is not too long, its parent exists and
      there is a free inode, then a record is appended to the parent, and that must be possible. */
  ghost predicate CanCreate(fs: FileSystem, name: seq<byte>)
    reads fs`tree, fs.allocator, fs.table, fs.table.inodes
  {
    && name != [] && name[0] == SLASH && (forall i :: 0 <= i < |name| ==> name[i] != 0)
    && (|BaseName(name)| > FILE_NAME_LENGTH || fs.table.firstFreeInode == 0
        || match Resolve(fs.tree.dirs, ParentPath(name))
           case None => true
           case Some(p) => CanEnter(fs, p, BaseName(name)))
  }

  /** How the append of a record with name `base` to directory `p` ends. */
  ghost function RecordOutcome(fs: FileSystem, p: nat, base: seq<byte>): WriteResult
    reads fs`tree, fs.allocator, fs.table, fs.table.inodes
  {
    if fs.TooFull(RecordBlocks(fs, p)) then NoFreeBlocks
    else if FindIn(fs.tree.dirs, p, base).Some? then DuplicateName
    else WriteOk
  }

  /** How the creation of `base` in directory `p` ends. */
  ghost function EntryOutcome(fs: FileSystem, p: nat, base: seq<byte>): CreateResult
    reads fs`tree, fs.allocator, fs.table, fs.table.inodes
  {
    if fs.table.firstFreeInode == 0 then OutOfInodes
    else
      match RecordOutcome(fs, p, base)
      case NoFreeBlocks => OutOfBlocks
      case DuplicateName => FileAlreadyExists
      case _ => Created
  }

  /** When the last block of a directory is full: the payload is a whole number of records, and the entries fill whole
      blocks. */
  lemma DirectoryOpen(fs: FileSystem, p: nat)
    requires fs.Valid() && p in fs.tree.dirs && fs.PayloadSize() > 0 && p < fs.table.inodes.Length
    ensures fs.LastBlockOpen(p) <==>
              fs.tree.dirs[p] == [] || fs.blockSize % 7936 != 256
              || |fs.tree.dirs[p]| % SlotsPerBlock(fs.PayloadSize()) != 0
  {
    hide StoreOk, VolumeOk, DirsHold, SlotsPerBlock, TreeShape;
    DirectorySize(fs.PayloadSize(), fs.View(), fs.openFiles, fs.tree.dirs, p);
    WholeRecords(fs.blockSize);
    if fs.tree.dirs[p] != [] {
      FullDirectory(fs.PayloadSize(), |fs.tree.dirs[p]|);
    }
  }

  lemma DirectorySize(r: nat, v: Volume, open: OpenFiles, dirs: Dirs, p: nat)
    requires StoreOk(r, v, open) && DirsHold(r, v, dirs) && p in dirs
    ensures r >= SIGNATURE_SIZE && p < |v.inodes| && v.inodes[p].size == DirSize(r, |dirs[p]|)
  {
    assert FileOk(r, v.disk, v.inodes[p], v.chains[p]);
    assert DirHolds(r, Content(r, v, p), dirs[p]);
  }

  /** Fills the first free inode and opens the parent directory. */
  method OpenParent(fs: FileSystem, path: seq<byte>, inode: Inode, ghost p: nat) returns (x: nat, fd: nat)
    requires fs.Valid() && Resolve(fs.tree.dirs, path) == Some(p)
    requires inode.kind != Kind.Empty && inode.size == 0 && inode.firstBlock == 0
    modifies fs.table, fs.table.inodes, fs`openFiles
    ensures x == old(fs.table.firstFreeInode)
    ensures x == 0 ==> fs.Valid() && fs.table.firstFreeInode == 0
    ensures x == 0 ==> fs.View() == old(fs.View()) && fs.openFiles == old(fs.openFiles)
    ensures x != 0 ==> fs.StoreValid()
    ensures x != 0 ==> 2 <= x < fs.table.inodes.Length && old(fs.table.inodes[x]).kind == Kind.Empty
    ensures x != 0 ==> fs.View() == WithInode(old(fs.View()), x, inode)
    ensures x != 0 ==> fd !in old(fs.openFiles)
    ensures x != 0 ==> fs.openFiles == old(fs.openFiles)[fd := OpenFile(p, 0, ReadAndWrite)]
  {
    hide StoreOk, VolumeOk, TreeOk, TreeShape, DirsHold;
    ghost var r, v := fs.PayloadSize(), fs.View();
    x := fs.table.InsertNewInode(inode);
    fd := 0;
    if x == 0 {
      return;
    }
    InodeAdded(r, v, fs.openFiles, fs.tree, x, inode);
    assert fs.View() == WithInode(v, x, inode);
    var opened' := fs.Open(path, ReadAndWrite);
    fd := opened'.value;
  }

  /** A record can be appended through `fd`, opened on directory `p`, and how that ends is known beforehand. */
  lemma RecordReady(fs: FileSystem, fd: nat, p: nat, e: Entry)
    requires fs.StoreValid() && DirsHold(fs.PayloadSize(), fs.View(), fs.tree.dirs)
    requires CanEnter(fs, p, e.name) && fd in fs.openFiles && fs.openFiles[fd] == OpenFile(p, 0, ReadAndWrite)
    ensures fs.CanWrite(fd, SIGNATURE_SIZE, true, Some(e.name))
    ensures fs.BlocksFor(fd, SIGNATURE_SIZE, true) == RecordBlocks(fs, p)
    ensures fs.WriteOutcome(fd, SIGNATURE_SIZE, true, Some(e.name)) == RecordOutcome(fs, p, e.name)
  {
    hide StoreOk, DirsHold, DirHolds, FindFrom, LookupFrom, SlotsPerBlock, AppendOffset, NewBlocks;
    if fs.blockSize % 7936 != 0 {
      RecordsCounted(fs.blockSize);
    }
    LookupIsFind(fs.PayloadSize(), fs.View(), fs.openFiles, fs.tree.dirs, p, e.name);
    ChainInRange(fs.PayloadSize(), fs.View(), fs.openFiles, p);
  }

  /** How many records the duplicate check looks at. */
  lemma RecordsCounted(blockSize: nat)
    requires blockSize >= 1024 && blockSize % INODE_SIZE == 0 && blockSize % 7936 != 0
    ensures blockSize / SIGNATURE_SIZE == SlotsPerBlock(blockSize - 8)
  {
    RecordCount(blockSize);
  }

  lemma ChainInRange(r: nat, v: Volume, open: OpenFiles, p: nat)
    requires StoreOk(r, v, open) && p < |v.inodes|
    ensures |v.chains| == |v.inodes| && BlocksOk(r, v.disk) && InRange(v.disk, v.chains[p])
  {
    assert FileOk(r, v.disk, v.inodes[p], v.chains[p]);
  }

  /** The volume `w` is `v` with one more entry in directory `p`. */
  ghost predicate Entered(r: nat, v: Volume, w: Volume, tree: Tree, p: nat, e: Entry, kind: Kind) {
    && p in tree.dirs && e.inodeNo < |v.inodes|
    && TreeOk(r, w, WithEntry(tree, p, e.name, e.inodeNo, kind == Dir))
    && Kinds(w.inodes) == Kinds(v.inodes)[e.inodeNo := kind]
    && Contents(r, w) == WithRecord(r, Contents(r, v), p, e)
  }

  /** The append of the record of a just filled inode, if it goes through, enters it in the directory. */
  lemma RecordEnters(fs: FileSystem, fd: nat, p: nat, e: Entry, v: Volume, open: OpenFiles, inode: Inode)
    requires StoreOk(fs.PayloadSize(), v, open) && TreeOk(fs.PayloadSize(), v, fs.tree) && p in fs.tree.dirs
    requires GoodEntry(e) && 2 <= e.inodeNo < |v.inodes| && v.inodes[e.inodeNo].kind == Kind.Empty
    requires inode.kind != Kind.Empty && inode.size == 0 && inode.firstBlock == 0
    requires fs.View() == WithInode(v, e.inodeNo, inode)
    requires fs.CanWrite(fd, SIGNATURE_SIZE, true, Some(e.name)) && fs.openFiles[fd].inodeNo == p
    requires fs.WriteReady(fd, Encode(e), true) && FindFrom(fs.tree.dirs[p], e.name, 0) == 0
    ensures Entered(fs.PayloadSize(), v, fs.AfterWrite(fd, Encode(e), true), fs.tree, p, e, inode.kind)
  {
    hide StoreOk, VolumeOk, TreeOk, Writable, Written, Entered;
    FilledThenWritten(fs.PayloadSize(), v, open, fs.tree, p, e, inode,
                      fs.NextBlocks(fs.BlocksFor(fd, SIGNATURE_SIZE, true)), fs.Offset(fd, SIGNATURE_SIZE, true));
  }

  lemma FilledThenWritten(r: nat, v: Volume, open: OpenFiles, tree: Tree, p: nat, e: Entry, inode: Inode,
                          added: seq<nat>, off: nat)
    requires StoreOk(r, v, open) && TreeOk(r, v, tree) && p in tree.dirs && p < |v.inodes|
    requires GoodEntry(e) && 2 <= e.inodeNo < |v.inodes| && v.inodes[e.inodeNo].kind == Kind.Empty
    requires inode.kind != Kind.Empty && inode.size == 0 && inode.firstBlock == 0
    requires FindFrom(tree.dirs[p], e.name, 0) == 0
    requires off == AppendOffset(r, WithInode(v, e.inodeNo, inode).inodes[p].size, SIGNATURE_SIZE)
    requires Writable(r, WithInode(v, e.inodeNo, inode), p, added, Encode(e), off)
    ensures Entered(r, v, Written(r, WithInode(v, e.inodeNo, inode), p, added, Encode(e), off), tree, p, e, inode.kind)
  {
    hide StoreOk, VolumeOk, TreeOk, Writable, Written;
    InodeFilled(r, v, open, e.inodeNo, inode);
    RecordWritten(r, v, WithInode(v, e.inodeNo, inode), tree, p, e, inode.kind, added, off);
  }

  /** How the append of the record of a just filled inode ends, and what it leads to if it goes through. */
  lemma RecordForeseen(fs: FileSystem, fd: nat, p: nat, e: Entry, v: Volume, open: OpenFiles, inode: Inode)
    requires fs.StoreValid() && StoreOk(fs.PayloadSize(), v, open) && TreeOk(fs.PayloadSize(), v, fs.tree)
    requires GoodEntry(e) && 2 <= e.inodeNo < |v.inodes| && v.inodes[e.inodeNo].kind == Kind.Empty
    requires inode.kind != Kind.Empty && inode.size == 0 && inode.firstBlock == 0
    requires fs.View() == WithInode(v, e.inodeNo, inode)
    requires CanEnter(fs, p, e.name) && fd in fs.openFiles && fs.openFiles[fd] == OpenFile(p, 0, ReadAndWrite)
    ensures fs.CanWrite(fd, SIGNATURE_SIZE, true, Some(e.name))
    ensures fs.BlocksFor(fd, SIGNATURE_SIZE, true) == RecordBlocks(fs, p)
    ensures fs.WriteOutcome(fd, SIGNATURE_SIZE, true, Some(e.name)) == RecordOutcome(fs, p, e.name)
    ensures fs.WriteOutcome(fd, SIGNATURE_SIZE, true, Some(e.name)) == WriteOk ==>
              Entered(fs.PayloadSize(), v, fs.AfterWrite(fd, Encode(e), true), fs.tree, p, e, inode.kind)
  {
    InodeAdded(fs.PayloadSize(), v, open, fs.tree, e.inodeNo, inode);
    RecordReady(fs, fd, p, e);
    if fs.WriteOutcome(fd, SIGNATURE_SIZE, true, Some(e.name)) == WriteOk {
      fs.WritePrepared(fd, Encode(e), true, Some(e.name));
      RecordEnters(fs, fd, p, e, v, open, inode);
    }
  }

  /** Takes back an inode whose record was not written. */
  method TakeBack(fs: FileSystem, x: nat, ghost v: Volume, ghost inode: Inode)
    requires fs.StoreValid() && StoreOk(fs.PayloadSize(), v, fs.openFiles)
    requires 2 <= x < |v.inodes| && v.inodes[x].kind == Kind.Empty && inode.size == 0 && inode.firstBlock == 0
    requires v.taken <= fs.View().taken && fs.View() == WithInode(v, x, inode).(taken := fs.View().taken)
    modifies fs.table, fs.table.inodes
    ensures fs.StoreValid()
    ensures fs.View() == WithInode(v, x, inode.(kind := Kind.Empty)).(taken := old(fs.View()).taken)
  {
    hide StoreOk, VolumeOk, TreeOk, TreeShape, DirsHold;
    ghost var taken := fs.View().taken;
    fs.table.MarkInodeAsEmpty(x);
    ghost var w := WithInode(v, x, inode.(kind := Kind.Empty)).(taken := taken);
    assert fs.View() == w;
    EmptiedOk(fs.PayloadSize(), v, w, fs.openFiles, x, inode.(kind := Kind.Empty));
  }

  /** Opening a file, with or without moving its position, and closing it restores the open files. */
  lemma OpenedThenClosed(open: OpenFiles, fd: nat, file: OpenFile, len: nat)
    requires fd !in open
    ensures open[fd := file] - {fd} == open && Moved(open[fd := file], fd, len) - {fd} == open
  {
  }

  /** Appends the record of a just filled inode, or takes the inode back, and closes the directory. */
  method EnterOrTakeBack(fs: FileSystem, fd: nat, e: Entry, ghost v: Volume, ghost open: OpenFiles, ghost inode: Inode)
      returns (written: WriteResult)
    requires fs.StoreValid() && StoreOk(fs.PayloadSize(), v, fs.openFiles)
    requires |e.name| <= FILE_NAME_LENGTH && 2 <= e.inodeNo < |v.inodes| && v.inodes[e.inodeNo].kind == Kind.Empty
    requires inode.size == 0 && inode.firstBlock == 0 && fs.View() == WithInode(v, e.inodeNo, inode)
    requires fs.CanWrite(fd, SIGNATURE_SIZE, true, Some(e.name))
    requires fd !in open && fs.openFiles == open[fd := fs.openFiles[fd]] && fs.openFiles[fd].mode != ReadMode
    modifies fs`openFiles, fs`chains, fs.allocator, fs.allocator.bitmap, fs.table, fs.table.inodes, fs.disk
    ensures fs.StoreValid() && fs.openFiles == open
    ensures written == old(fs.WriteOutcome(fd, SIGNATURE_SIZE, true, Some(e.name)))
    ensures written == NoFreeBlocks ==> unchanged(fs.allocator)
    ensures written != NoFreeBlocks ==>
              fs.allocator.numberOfFreeBlocks
                  == old(fs.allocator.numberOfFreeBlocks - fs.BlocksFor(fd, SIGNATURE_SIZE, true))
    ensures written == WriteOk ==> fs.View() == old(fs.AfterWrite(fd, Encode(e), true))
    ensures written != WriteOk ==>
              && v.taken <= fs.View().taken
              && fs.View() == WithInode(v, e.inodeNo, inode.(kind := Kind.Empty)).(taken := fs.View().taken)
  {
    hide StoreOk, VolumeOk, TreeOk, TreeShape, DirsHold;
    OpenedThenClosed(open, fd, fs.openFiles[fd], SIGNATURE_SIZE);
    written := fs.WriteUnsafe(fd, Encode(e), true, Some(e.name));
    if written != WriteOk {
      TakeBack(fs, e.inodeNo, v, inode);
    }
    var known := fs.Close(fd);
  }

  /** Records a new entry in the tree of names. */
  ghost method NameEntry(fs: FileSystem, v: Volume, p: nat, e: Entry, kind: Kind)
    requires fs.StoreValid() && Entered(fs.PayloadSize(), v, fs.View(), fs.tree, p, e, kind)
    modifies fs`tree
    ensures fs.Valid()
    ensures p in old(fs.tree).dirs && fs.tree == WithEntry(old(fs.tree), p, e.name, e.inodeNo, kind == Dir)
    ensures e.inodeNo < |v.inodes| && Kinds(fs.View().inodes) == Kinds(v.inodes)[e.inodeNo := kind]
    ensures fs.Contents() == WithRecord(fs.PayloadSize(), Contents(fs.PayloadSize(), v), p, e)
  {
    hide StoreOk, VolumeOk, TreeOk, TreeShape, DirsHold;
    fs.tree := WithEntry(fs.tree, p, e.name, e.inodeNo, kind == Dir);
    fs.NamesKept(fs.View());
  }

  /** A volume whose just filled inode was taken back has the names, contents and free inodes it had. */
  lemma NothingNamed(fs: FileSystem, v: Volume, x: nat, inode: Inode)
    requires fs.StoreValid() && StoreOk(fs.PayloadSize(), v, fs.openFiles) && TreeOk(fs.PayloadSize(), v, fs.tree)
    requires 2 <= x < |v.inodes| && v.inodes[x].kind == Kind.Empty && LeastEmpty(v.inodes, x)
    requires inode.size == 0 && inode.firstBlock == 0 && v.taken <= fs.View().taken
    requires fs.View() == WithInode(v, x, inode.(kind := Kind.Empty)).(taken := fs.View().taken)
    ensures fs.Valid()
    ensures Kinds(fs.View().inodes) == Kinds(v.inodes) && fs.Contents() == Contents(fs.PayloadSize(), v)
    ensures fs.table.firstFreeInode == x
  {
    InodeTakenBack(fs.PayloadSize(), v, fs.View(), fs.openFiles, fs.tree, x, inode.(kind := Kind.Empty));
    fs.NamesKept(fs.View());
    LeastEmptyUnique(v.inodes, fs.View().inodes, x, fs.table.firstFreeInode);
  }

  /** All that a creation needs to know once it has filled an inode and opened the directory through `fd`: how the
      append of the record ends, and what it leads to. */
  ghost predicate Prepared(fs: FileSystem, fd: nat, e: Entry, p: nat, v: Volume, open: OpenFiles, kind: Kind,
                           outcome: WriteResult)
    reads fs`openFiles, fs`chains, fs`tree, fs.allocator, fs.allocator.bitmap, fs.table, fs.table.inodes, fs.disk
  {
    && fs.CanWrite(fd, SIGNATURE_SIZE, true, Some(e.name))
    && fd !in open && fs.openFiles == open[fd := fs.openFiles[fd]] && fs.openFiles[fd].mode != ReadMode
    && |e.name| <= FILE_NAME_LENGTH && 2 <= e.inodeNo < |v.inodes| && v.inodes[e.inodeNo].kind == Kind.Empty
       && LeastEmpty(v.inodes, e.inodeNo)
    && fs.View() == WithInode(v, e.inodeNo, Inode(e.name, kind, 0, 0))
    && outcome == fs.WriteOutcome(fd, SIGNATURE_SIZE, true, Some(e.name))
    && (outcome == WriteOk ==> Entered(fs.PayloadSize(), v, fs.AfterWrite(fd, Encode(e), true), fs.tree, p, e, kind))
  }

  lemma DirectoryInode(fs: FileSystem, p: nat)
    requires fs.Valid() && p in fs.tree.dirs
    ensures p < fs.table.inodes.Length <= Pow256(8) && fs.table.inodes[p].kind == Dir
  {
    assert Kinds(fs.View().inodes)[p] == Dir;
  }

  /** Fills the first free inode and opens the directory. */
  method PrepareRecord(fs: FileSystem, path: seq<byte>, base: seq<byte>, kind: Kind, ghost p: nat, ghost v: Volume,
                       ghost open: OpenFiles)
      returns (x: nat, fd: nat)
    requires fs.Valid() && Resolve(fs.tree.dirs, path) == Some(p)
    requires fs.table.firstFreeInode == 0 || CanEnter(fs, p, base)
    requires GoodName(base) && kind != Kind.Empty && v == fs.View() && open == fs.openFiles
    modifies fs.table, fs.table.inodes, fs`openFiles
    ensures x == old(fs.table.firstFreeInode)
    ensures x == 0 ==> fs.Valid() && fs.View() == v && fs.openFiles == open && fs.table.firstFreeInode == 0
    ensures x != 0 ==> fs.StoreValid() && StoreOk(fs.PayloadSize(), v, fs.openFiles)
    ensures x != 0 ==> Prepared(fs, fd, Entry(base, x), p, v, open, kind, old(RecordOutcome(fs, p, base)))
    ensures x != 0 ==> fs.BlocksFor(fd, SIGNATURE_SIZE, true) == old(RecordBlocks(fs, p))
  {
    hide StoreOk, VolumeOk, TreeOk, TreeShape, DirsHold;
    ghost var outcome := RecordOutcome(fs, p, base);
    if fs.table.firstFreeInode != 0 {
      DirectoryInode(fs, p);
    }
    x, fd := OpenParent(fs, path, Inode(base, kind, 0, 0), p);
    if x != 0 {
      assert RecordOutcome(fs, p, base) == outcome;
      RecordForeseen(fs, fd, p, Entry(base, x), v, open, Inode(base, kind, 0, 0));
      OpenedOk(fs.PayloadSize(), v, open, fd, OpenFile(p, 0, ReadAndWrite));
    }
  }

  /** Finishes a creation whose inode has been filled and whose directory is open. */
  method EnterRecord(fs: FileSystem, fd: nat, e: Entry, ghost p: nat, ghost v: Volume, ghost open: OpenFiles,
                     ghost kind: Kind,
                     ghost outcome: WriteResult)
      returns (written: WriteResult)
    requires fs.StoreValid() && StoreOk(fs.PayloadSize(), v, open) && TreeOk(fs.PayloadSize(), v, fs.tree)
    requires StoreOk(fs.PayloadSize(), v, fs.openFiles) && Prepared(fs, fd, e, p, v, open, kind, outcome)
    modifies fs`openFiles, fs`chains, fs`tree, fs.allocator, fs.allocator.bitmap, fs.table, fs.table.inodes, fs.disk
    ensures fs.Valid() && fs.openFiles == open
    ensures written == outcome
    ensures written == NoFreeBlocks ==> unchanged(fs.allocator)
    ensures written != NoFreeBlocks ==>
              fs.allocator.numberOfFreeBlocks
                  == old(fs.allocator.numberOfFreeBlocks - fs.BlocksFor(fd, SIGNATURE_SIZE, true))
    ensures written == WriteOk ==>
              p in old(fs.tree).dirs && fs.tree == WithEntry(old(fs.tree), p, e.name, e.inodeNo, kind == Dir)
    ensures written == WriteOk ==>
              e.inodeNo < |v.inodes| && Kinds(fs.View().inodes) == Kinds(v.inodes)[e.inodeNo := kind]
    ensures written == WriteOk ==> fs.Contents() == WithRecord(fs.PayloadSize(), Contents(fs.PayloadSize(), v), p, e)
    ensures written != WriteOk ==> fs.tree == old(fs.tree) && Kinds(fs.View().inodes) == Kinds(v.inodes)
    ensures written != WriteOk ==>
              fs.Contents() == Contents(fs.PayloadSize(), v) && fs.table.firstFreeInode == e.inodeNo
  {
    hide StoreOk, VolumeOk, TreeOk, TreeShape, DirsHold;
    written := EnterOrTakeBack(fs, fd, e, v, open, Inode(e.name, kind, 0, 0));
    if written == WriteOk {
      NameEntry(fs, v, p, e, kind);
    } else {
      NothingNamed(fs, v, e.inodeNo, Inode(e.name, kind, 0, 0));
    }
  }

  /** The tree with an entry in `p`, if that is a directory. */
  ghost function WithName(tree: Tree, p: nat, base: seq<byte>, x: nat, isDir: bool): Tree {
    if p in tree.dirs then WithEntry(tree, p, base, x, isDir) else tree
  }

  ghost function WithKind(kinds: seq<Kind>, x: nat, kind: Kind): seq<Kind> {
    if x < |kinds| then kinds[x := kind] else kinds
  }

  /** Makes `base`, a file or a directory, in the directory that `path` denotes. */
  method CreateIn(fs: FileSystem, path: seq<byte>, base: seq<byte>, kind: Kind, ghost p: nat, ghost x: nat,
                  ghost kinds: seq<Kind>, ghost contents: seq<seq<byte>>)
      returns (result: CreateResult)
    requires fs.Valid() && Resolve(fs.tree.dirs, path) == Some(p)
    requires x == fs.table.firstFreeInode && (x == 0 || CanEnter(fs, p, base))
    requires kinds == Kinds(fs.View().inodes) && contents == fs.Contents()
    requires GoodName(base) && kind != Kind.Empty
    modifies fs`openFiles, fs`chains, fs`tree, fs.allocator, fs.allocator.bitmap, fs.table, fs.table.inodes, fs.disk
    ensures fs.openFiles == old(fs.openFiles)
    ensures result == old(EntryOutcome(fs, p, base))
    ensures result != Created && result != FileAlreadyExists ==> unchanged(fs.allocator)
    ensures result == Created || result == FileAlreadyExists ==>
              fs.allocator.numberOfFreeBlocks == old(fs.allocator.numberOfFreeBlocks - RecordBlocks(fs, p))
    ensures fs.tree == if result == Created then WithName(old(fs.tree), p, base, x, kind == Dir) else old(fs.tree)
    ensures Kinds(fs.View().inodes) == if result == Created then WithKind(kinds, x, kind) else kinds
    ensures fs.Contents()
         == if result == Created then WithRecord(fs.PayloadSize(), contents, p, Entry(base, x)) else contents
    ensures result != Created ==> fs.table.firstFreeInode == x
    ensures fs.Valid()
  {
    hide StoreOk, VolumeOk, TreeOk, TreeShape, DirsHold;
    ghost var v, open, outcome := fs.View(), fs.openFiles, RecordOutcome(fs, p, base);
    var inodeNo, fd := PrepareRecord(fs, path, base, kind, p, v, open);
    if inodeNo == 0 {
      return OutOfInodes;
    }
    var written := EnterRecord(fs, fd, Entry(base, inodeNo), p, v, open, kind, outcome);
    result := match written case NoFreeBlocks => OutOfBlocks case DuplicateName => FileAlreadyExists case _ => Created;
  }

  /** How the creation of `name` ends. */
  ghost function CreateOutcome(fs: FileSystem, name: seq<byte>): CreateResult
    requires name != [] && name[0] == SLASH
    reads fs`tree, fs.allocator, fs.table, fs.table.inodes
  {
    if |BaseName(name)| > FILE_NAME_LENGTH then NameTooLong
    else
      match Resolve(fs.tree.dirs, ParentPath(name))
      case None => DirDoesntExist
      case Some(p) => EntryOutcome(fs, p, BaseName(name))
  }

  /** How many new blocks the creation of `name` takes. */
  ghost function CreationBlocks(fs: FileSystem, name: seq<byte>): nat
    requires name != [] && name[0] == SLASH
    reads fs`tree, fs.allocator, fs.table, fs.table.inodes
  {
    match Resolve(fs.tree.dirs, ParentPath(name)) case None => 0 case Some(p) => RecordBlocks(fs, p)
  }

  /** One more record takes a new block if and only if the entries of the directory fill whole blocks and do not fill
      the last one to its end: behind a full block the block count of the directory is one too many, so no block is
      missed. */
  lemma RecordGrows(r: nat, n: nat)
    requires r >= SIGNATURE_SIZE
    ensures NewBlocks(r, DirSize(r, n), AppendOffset(r, DirSize(r, n), SIGNATURE_SIZE), SIGNATURE_SIZE)
         == if n % SlotsPerBlock(r) == 0 && (n == 0 || DirSize(r, n) % r != 0) then 1 else 0
    ensures n > 0 ==> DirSize(r, n) > 0
  {
    hide SlotsPerBlock, AppendOffset, RecordOffset, CeilDiv, TakenBlocks;
    PlacesPositive(r);
    AppendHitsNextRecord(r, n);
    RecordBlocksCount(r, n);
    TakenCount(r, DirSize(r, n));
    if n > 0 {
      RecordBlocksCount(r, n - 1);
      SpotAfter(n - 1, SlotsPerBlock(r));
    } else {
      CeilDivBounds(0, r);
      DivModUnique(0, SlotsPerBlock(r), 0, 0);
    }
  }

  /** The blocks of a directory up to its `k`-th record. */
  lemma RecordBlocksCount(r: nat, k: nat)
    requires r >= SIGNATURE_SIZE && SlotsPerBlock(r) > 0
    ensures CeilDiv(RecordOffset(r, k) + SIGNATURE_SIZE, r) == k / SlotsPerBlock(r) + 1
  {
    hide SlotsPerBlock, RecordOffset;
    RecordEnd(r, k);
    var q, t := k / SlotsPerBlock(r), k % SlotsPerBlock(r);
    assert (q + 1) * r == q * r + r;
    CeilDivUnique(RecordOffset(r, k) + SIGNATURE_SIZE, r, q + 1);
  }

  /** A creation that fails because the name exists loses a block if and only if the entries of the directory fill
      whole blocks and its last block is not full: then a block was taken for the record before the name was found. */
  lemma DuplicateCosts(fs: FileSystem, name: seq<byte>, p: nat)
    requires fs.Valid() && CanCreate(fs, name) && Resolve(fs.tree.dirs, ParentPath(name)) == Some(p)
    requires CreateOutcome(fs, name) == FileAlreadyExists
    ensures p in fs.tree.dirs && p < fs.table.inodes.Length && fs.PayloadSize() > 0
    ensures CreationBlocks(fs, name)
         == if |fs.tree.dirs[p]| % SlotsPerBlock(fs.PayloadSize()) == 0 && fs.LastBlockOpen(p) then 1 else 0
  {
    hide StoreOk, VolumeOk, TreeOk, DirsHold, NewBlocks, AppendOffset, SlotsPerBlock;
    fs.ValidNames();
    DirectorySize(fs.PayloadSize(), fs.View(), fs.openFiles, fs.tree.dirs, p);
    RecordGrows(fs.PayloadSize(), |fs.tree.dirs[p]|);
  }

  /** The tree with an entry for `name`, if its parent exists. */
  ghost function TreeWith(tree: Tree, name: seq<byte>, x: nat, isDir: bool): Tree
    requires name != [] && name[0] == SLASH
  {
    match Resolve(tree.dirs, ParentPath(name))
    case None => tree
    case Some(p) => WithName(tree, p, BaseName(name), x, isDir)
  }

  /** The contents of all files with the record of `name` in its parent, if that exists. */
  ghost function ContentsWith(r: nat, tree: Tree, contents: seq<seq<byte>>, name: seq<byte>, x: nat): seq<seq<byte>>
    requires name != [] && name[0] == SLASH
  {
    match Resolve(tree.dirs, ParentPath(name))
    case None => contents
    case Some(p) => WithRecord(r, contents, p, Entry(BaseName(name), x))
  }

  /** Creates the file or directory `name`. On success one inode comes to life and one entry names it; on failure no
      inode, name or content changes. */
  method CreateFileOrDir(fs: FileSystem, name: seq<byte>, isDir: bool) returns (result: CreateResult)
    requires fs.Valid() && CanCreate(fs, name)
    modifies fs`openFiles, fs`chains, fs`tree, fs.allocator, fs.allocator.bitmap, fs.table, fs.table.inodes, fs.disk
    ensures fs.Valid() && fs.openFiles == old(fs.openFiles)
    ensures result == old(CreateOutcome(fs, name))
    ensures result != Created && result != FileAlreadyExists ==> unchanged(fs.allocator)
    ensures result == Created || result == FileAlreadyExists ==>
              fs.allocator.numberOfFreeBlocks == old(fs.allocator.numberOfFreeBlocks - CreationBlocks(fs, name))
    ensures result == Created ==> fs.tree == old(TreeWith(fs.tree, name, fs.table.firstFreeInode, isDir))
    ensures result == Created ==>
              Kinds(fs.View().inodes)
                  == old(Kinds(fs.View().inodes))[old(fs.table.firstFreeInode) := if isDir then Dir else File]
    ensures result == Created ==>
              fs.Contents()
                  == old(ContentsWith(fs.PayloadSize(), fs.tree, fs.Contents(), name, fs.table.firstFreeInode))
    ensures result != Created ==> fs.tree == old(fs.tree) && Kinds(fs.View().inodes) == old(Kinds(fs.View().inodes))
    ensures result != Created ==>
              fs.Contents() == old(fs.Contents()) && fs.table.firstFreeInode == old(fs.table.firstFreeInode)
  {
    hide StoreOk, VolumeOk, TreeOk, TreeShape, DirsHold, EntryOutcome, RecordBlocks;
    fs.ValidNames();
    var path, fileName := SplitPath(name);
    if |fileName| > FILE_NAME_LENGTH {
      return NameTooLong;
    }
    var parent := fs.GetInodeByPath(path);
    if parent.None? {
      return DirDoesntExist;
    }
    result := CreateIn(fs, path, fileName, if isDir then Dir else File, parent.value, fs.table.firstFreeInode,
                       Kinds(fs.View().inodes), fs.Contents());
  }

  /** A path is its parent, a slash and its last component, except right below the root. */
  lemma PathParts(name: seq<byte>)
    requires name != [] && name[0] == SLASH
    ensures 1 <= ParentLength(name) <= |name| && SLASH !in BaseName(name)
    ensures ParentLength(name) == 1 ==> ParentPath(name) == [SLASH] && name == ParentPath(name) + BaseName(name)
    ensures ParentLength(name) > 1 ==> name == ParentPath(name) + [SLASH] + BaseName(name)
    ensures ParentLength(name) > 1 ==> |ParentPath(name)| == ParentLength(name) - 1 && ParentPath(name)[0] == SLASH
    ensures ParentLength(name) == 2 ==> ParentPath(name) == [SLASH] && name == [SLASH, SLASH] + BaseName(name)
  {
    hide ParentLength;
    SplitAtSlash(name, ParentLength(name), ParentPath(name), BaseName(name));
  }

  lemma SplitAtSlash(name: seq<byte>, n: nat, parent: seq<byte>, base: seq<byte>)
    requires 1 <= n <= |name| && name[0] == name[n - 1] == SLASH && base == name[n..]
    requires parent == if n == 1 then name[..1] else name[..n - 1]
    ensures n == 1 ==> parent == [SLASH] && name == parent + base
    ensures n > 1 ==> name == parent + [SLASH] + base && |parent| == n - 1 && parent[0] == SLASH
    ensures n == 2 ==> parent == [SLASH] && name == [SLASH, SLASH] + base
  {
  }

  /** Adding an entry under a new name keeps every lookup that found something. */
  lemma EntryExtends(dirs: Dirs, p: nat, e: Entry, more: Dirs)
    requires p in dirs && GoodEntries(dirs[p]) && FindFrom(dirs[p], e.name, 0) == 0 && e.inodeNo != 0
    requires more.Keys >= dirs.Keys && more[p] == dirs[p] + [e]
    requires forall d :: d in dirs && d != p ==> more[d] == dirs[d]
    ensures Extends(dirs, more) && FindIn(more, p, e.name) == Some(e.inodeNo)
  {
    forall d, name | FindIn(dirs, d, name).Some? ensures FindIn(more, d, name) == FindIn(dirs, d, name) {
      if d == p {
        FindAppended(dirs[p], e, name, 0);
      }
    }
    FindAppended(dirs[p], e, e.name, 0);
  }

  /** Every path that denoted something goes on denoting it when a file or directory is created. */
  lemma CreationKeepsPaths(tree: Tree, p: nat, base: seq<byte>, x: nat, isDir: bool, path: seq<byte>)
    requires p in tree.dirs && GoodEntries(tree.dirs[p]) && FindFrom(tree.dirs[p], base, 0) == 0
    requires x != 0 && x !in tree.dirs
    ensures Resolve(tree.dirs, path).Some? ==>
              Resolve(WithEntry(tree, p, base, x, isDir).dirs, path) == Resolve(tree.dirs, path)
  {
    var after := WithEntry(tree, p, base, x, isDir);
    EntryExtends(tree.dirs, p, Entry(base, x), after.dirs);
    if path != [] {
      FollowExtends(tree.dirs, after.dirs, 0, Components(path[1..]));
    }
  }

  lemma CreatedBelow(tree: Tree, parent: seq<byte>, base: seq<byte>, p: nat, x: nat, isDir: bool)
    requires parent != [] && parent[0] == SLASH && SLASH !in base && Resolve(tree.dirs, parent) == Some(p)
    requires p in tree.dirs && GoodEntries(tree.dirs[p]) && FindFrom(tree.dirs[p], base, 0) == 0
    requires x != 0 && x !in tree.dirs
    ensures x in WithEntry(tree, p, base, x, isDir).owner && WithEntry(tree, p, base, x, isDir).owner[x].0 == p
    ensures |parent| > 1 ==> Resolve(WithEntry(tree, p, base, x, isDir).dirs, parent + [SLASH] + base) == Some(x)
    ensures |parent| == 1 && base != [] ==> Resolve(WithEntry(tree, p, base, x, isDir).dirs, parent + base) == Some(x)
  {
    var after := WithEntry(tree, p, base, x, isDir);
    EntryExtends(tree.dirs, p, Entry(base, x), after.dirs);
    ResolveChild(after.dirs, parent, base);
    CreationKeepsPaths(tree, p, base, x, isDir, parent);
    assert |parent| == 1 ==> parent == [SLASH];
  }

  /** A path just created denotes the new inode, except for the path of the root itself and for names in the root that
      are written with two slashes: there the creation and the lookup do not mean the same directory. */
  lemma CreatedResolves(kinds: seq<Kind>, tree: Tree, name: seq<byte>, p: nat, x: nat, isDir: bool)
    requires name != [] && name[0] == SLASH && Resolve(tree.dirs, ParentPath(name)) == Some(p)
    requires p in tree.dirs && GoodEntries(tree.dirs[p]) && FindFrom(tree.dirs[p], BaseName(name), 0) == 0
    requires x != 0 && x !in tree.dirs && TreeShape(kinds, WithEntry(tree, p, BaseName(name), x, isDir))
    ensures Resolve(WithEntry(tree, p, BaseName(name), x, isDir).dirs, name) == Some(x) <==>
              |name| > 1 && ParentLength(name) != 2
  {
    hide ParentLength, TreeShape, Components, Follow, WithEntry, FindFrom, FindIn, GoodEntries,
      BaseName, ParentPath;
    var n, parent, base := ParentLength(name), ParentPath(name), BaseName(name);
    var after := WithEntry(tree, p, base, x, isDir);
    PathParts(name);
    CreatedBelow(tree, parent, base, p, x, isDir);
    if n == 2 {
      TwoSlashes(kinds, after, base, x, p);
    } else if n > 2 {
      assert Resolve(after.dirs, name) == Some(x);
    }
  }

  /** A name in the root, written with two slashes, does not denote an inode that only the root has an entry for. */
  lemma TwoSlashes(kinds: seq<Kind>, tree: Tree, base: seq<byte>, x: nat, p: nat)
    requires TreeShape(kinds, tree) && SLASH !in base && p == 0
    requires x in tree.owner && tree.owner[x].0 == p
    ensures Resolve(tree.dirs, [SLASH, SLASH] + base) != Some(x)
  {
    var path := [SLASH, SLASH] + base;
    assert path[1..] == [] + [SLASH] + base;
    ComponentsSnoc([], base);
    assert FirstPart([]) == [] && Components([]) == [[]];
    FollowSnoc(tree.dirs, 0, [[]], base);
    assert Follow(tree.dirs, 0, [[]]) == FindIn(tree.dirs, 0, []);
    if FindIn(tree.dirs, 0, []).Some? {
      var d := FindIn(tree.dirs, 0, []).value;
      EntryFound(tree.dirs[0], [], 0);
      if d in tree.dirs && FindFrom(tree.dirs[d], base, 0) == x {
        EntryFound(tree.dirs[d], base, 0);
      }
    }
  }
}
