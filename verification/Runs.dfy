/** Whole runs of the file system: every run is a run of flat files under a tree of names. */
module Runs {
  import opened Arith
  import opened Wrappers
  import opened BlockStore
  import opened InodeTable
  import opened Store
  import opened Signature
  import opened Directory
  import opened Paths
  import opened FsState
  import opened ChainReader
  import opened FileSystem
  import opened Creation
  import opened Layout

  datatype Op =
    | CreateOp(name: seq<byte>, isDir: bool)
    | OpenOp(name: seq<byte>, mode: Mode)
    | CloseOp(fd: nat)
    | SeekOp(fd: nat, whence: int, offset: int)
    | ReadOp(fd: nat, len: nat)
    | WriteOp(fd: nat, data: seq<byte>)

  /** What an operation answers. */
  datatype Answer =
    | CreateAnswer(created: CreateResult)
    | OpenAnswer(fd: Option<nat>)
    | CloseAnswer(known: bool)
    | SeekAnswer(code: int)
    | ReadAnswer(buf: seq<byte>)
    | WriteAnswer(written: Option<WriteResult>)

  /** What a caller of the file system can observe: the names, the kinds and contents of the inodes, the open files,
      and how many blocks are free. */
  datatype State = State(tree: Tree, kinds: seq<Kind>, contents: seq<seq<byte>>, open: OpenFiles, free: nat)

  ghost function Observed(fs: FileSystem): State
    reads fs`openFiles, fs`chains, fs`tree, fs.allocator, fs.allocator.bitmap, fs.table.inodes, fs.disk
  {
    State(fs.tree, Kinds(fs.View().inodes), fs.Contents(), fs.openFiles, fs.allocator.numberOfFreeBlocks)
  }

  /** The steps of a file system of flat files: what one operation answers, and what it does to the state. */
  ghost predicate Next(r: nat, s: State, op: Op, answer: Answer, t: State) {
    match op
    case CreateOp(name, isDir) => exists x :: CreatedFrom(r, s, name, isDir, x, answer, t)
    case OpenOp(name, mode) => OpenedFrom(s, name, mode, answer, t)
    case CloseOp(fd) => answer == CloseAnswer(fd in s.open) && t == s.(open := s.open - {fd})
    case SeekOp(fd, whence, offset) => SoughtFrom(s, fd, whence, offset, answer, t)
    case ReadOp(fd, len) => ReadFrom(r, s, fd, len, answer, t)
    case WriteOp(fd, data) => WrittenFrom(r, s, fd, data, answer, t)
  }

  /** `x` is the least empty inode after the root and `.lock`, or 0 if there is none. */
  ghost predicate FirstEmpty(kinds: seq<Kind>, x: nat) {
    && (x != 0 ==> 2 <= x < |kinds| && kinds[x] == Kind.Empty)
    && (forall i :: 2 <= i < |kinds| && (x == 0 || i < x) ==> kinds[i] != Kind.Empty)
  }

  /** No more than `k` blocks are free, and some are needed. */
  ghost predicate Full(s: State, k: nat) {
    0 < k && s.free <= k
  }

  /** How many new blocks one more record takes in directory `p`. */
  ghost function BlocksForRecord(r: nat, s: State, p: nat): nat {
    if r == 0 || p >= |s.contents| then 0
    else NewBlocks(r, |s.contents[p]|, AppendOffset(r, |s.contents[p]|, SIGNATURE_SIZE), SIGNATURE_SIZE)
  }

  /** How the creation of `base` in directory `p` ends when `x` is the first empty inode. */
  ghost function EntryOutcomeIn(r: nat, s: State, p: nat, base: seq<byte>, x: nat): CreateResult {
    if x == 0 then OutOfInodes
    else if Full(s, BlocksForRecord(r, s, p)) then OutOfBlocks
    else if FindIn(s.tree.dirs, p, base).Some? then FileAlreadyExists
    else Created
  }

  /** The creation of a file or directory. On success the first empty inode has become it, one entry names it, and
      only its parent's content is another. An existing name may cost a block, and nothing else; any other failure
      costs nothing. */
  ghost predicate CreatedFrom(r: nat, s: State, name: seq<byte>, isDir: bool, x: nat, answer: Answer, t: State) {
    && name != [] && name[0] == SLASH && FirstEmpty(s.kinds, x)
    && if |BaseName(name)| > FILE_NAME_LENGTH then answer == CreateAnswer(NameTooLong) && t == s
       else match Resolve(s.tree.dirs, ParentPath(name))
         case None => answer == CreateAnswer(DirDoesntExist) && t == s
         case Some(p) =>
           && answer == CreateAnswer(EntryOutcomeIn(r, s, p, BaseName(name), x))
           && match answer.created
              case Created =>
                && x < |s.kinds| && p in s.tree.dirs
                && t == State(TreeWith(s.tree, name, x, isDir), s.kinds[x := if isDir then Dir else File],
                              ContentsWith(r, s.tree, s.contents, name, x), s.open, s.free - BlocksForRecord(r, s, p))
              case FileAlreadyExists => t == s.(free := s.free - BlocksForRecord(r, s, p))
              case _ => t == s
  }

  /** Which answer a creation gets, and what it costs: the checks come in the order of the name's length, the parent,
      the inodes, the blocks, and the name itself. */
  lemma CreationAnswered(r: nat, s: State, name: seq<byte>, isDir: bool, answer: Answer, t: State)
    requires Next(r, s, CreateOp(name, isDir), answer, t)
    ensures name != [] && name[0] == SLASH && answer.CreateAnswer?
    ensures var parent, free := Resolve(s.tree.dirs, ParentPath(name)),
              exists i :: 2 <= i < |s.kinds| && s.kinds[i] == Kind.Empty;
      var k := if parent.Some? then BlocksForRecord(r, s, parent.value) else 0;
      var full := 0 < k && s.free <= k;
      var known := parent.Some? && FindIn(s.tree.dirs, parent.value, BaseName(name)).Some?;
      && (answer.created == NameTooLong <==> |BaseName(name)| > FILE_NAME_LENGTH)
      && (answer.created == DirDoesntExist <==> |BaseName(name)| <= FILE_NAME_LENGTH && parent.None?)
      && (answer.created == OutOfInodes <==> |BaseName(name)| <= FILE_NAME_LENGTH && parent.Some? && !free)
      && (answer.created == OutOfBlocks <==> |BaseName(name)| <= FILE_NAME_LENGTH && parent.Some? && free && full)
      && (answer.created == FileAlreadyExists
          <==> |BaseName(name)| <= FILE_NAME_LENGTH && parent.Some? && free && !full && known)
      && (answer.created == Created
          <==> |BaseName(name)| <= FILE_NAME_LENGTH && parent.Some? && free && !full && !known)
      && (answer.created != Created && answer.created != FileAlreadyExists ==> t == s)
      && (answer.created == Created || answer.created == FileAlreadyExists ==> t.free == s.free - k)
  {
    hide BlocksForRecord, Resolve, ParentPath, BaseName, FindIn, TreeWith, ContentsWith;
    var x :| CreatedFrom(r, s, name, isDir, x, answer, t);
  }

  ghost predicate OpenedFrom(s: State, name: seq<byte>, mode: Mode, answer: Answer, t: State) {
    match Resolve(s.tree.dirs, name)
    case None => answer == OpenAnswer(None) && t == s
    case Some(i) =>
      && answer.OpenAnswer? && answer.fd.Some? && answer.fd.value !in s.open
      && (forall j: nat :: j < answer.fd.value ==> j in s.open)
      && t == s.(open := s.open[answer.fd.value := OpenFile(i, 0, mode)])
  }

  ghost predicate SoughtFrom(s: State, fd: nat, whence: int, offset: int, answer: Answer, t: State) {
    && answer == SeekAnswer(0)
    && if fd !in s.open || (whence != SEEK_SET && whence != SEEK_CUR && whence != SEEK_END) then t == s
       else
         && s.open[fd].inodeNo < |s.contents|
         && t == s.(open := s.open[fd := s.open[fd].(position :=
                   SeekTarget(s.open[fd].position, |s.contents[s.open[fd].inodeNo]|, whence, offset))])
  }

  ghost predicate ReadFrom(r: nat, s: State, fd: nat, len: nat, answer: Answer, t: State) {
    && fd in s.open && s.open[fd].inodeNo < |s.contents| && r > 0
    && var content, pos := s.contents[s.open[fd].inodeNo], s.open[fd].position;
      && pos <= |content| && answer.ReadAnswer?
      && |answer.buf| == ReadLength(r, |content|, pos, len) && Delivered(answer.buf, content, pos)
      && t == s.(open := Moved(s.open, fd, |answer.buf|))
  }

  ghost predicate WrittenFrom(r: nat, s: State, fd: nat, data: seq<byte>, answer: Answer, t: State) {
    if fd !in s.open then answer == WriteAnswer(None) && t == s
    else
      && s.open[fd].inodeNo < |s.contents| && r > 0
      && var i, pos := s.open[fd].inodeNo, s.open[fd].position;
        var k := NewBlocks(r, |s.contents[i]|, pos, |data|);
        if s.open[fd].mode == ReadMode then answer == WriteAnswer(Some(WrongMode)) && t == s
        else if Full(s, k) then answer == WriteAnswer(Some(NoFreeBlocks)) && t == s
        else
          && answer == WriteAnswer(Some(WriteOk)) && k <= s.free
          && t == s.(contents := Overwrite(r, s.contents, i, pos, data), open := Moved(s.open, fd, |data|),
              free := s.free - k)
  }

  /** Which answer a write gets: the descriptor, its mode and the free blocks are checked, in that order. Only a write
      that goes through changes anything; it takes what the file grows by in blocks, or one less if its last block was
      full and it grows. */
  lemma WriteAnswered(r: nat, s: State, fd: nat, data: seq<byte>, answer: Answer, t: State)
    requires r > 0 && data != [] && Next(r, s, WriteOp(fd, data), answer, t)
    ensures answer == WriteAnswer(None) <==> fd !in s.open
    ensures answer != WriteAnswer(Some(WriteOk)) ==> t == s
    ensures fd in s.open ==>
              && s.open[fd].inodeNo < |s.contents|
              && var size, end := |s.contents[s.open[fd].inodeNo]|, s.open[fd].position + |data|;
                var before, after := CeilDiv(size, r), CeilDiv(Max(size, end), r);
                var k := after - before - if size != 0 && size % r == 0 && after > before then 1 else 0;
                && (answer == WriteAnswer(Some(WrongMode)) <==> s.open[fd].mode == ReadMode)
                && (answer == WriteAnswer(Some(NoFreeBlocks)) <==> s.open[fd].mode != ReadMode && 0 < k && s.free <= k)
                && (answer == WriteAnswer(Some(WriteOk)) <==> s.open[fd].mode != ReadMode && (k <= 0 || k < s.free))
                && (answer == WriteAnswer(Some(WriteOk)) ==>
                      t.free == s.free - k && fd in t.open && t.open[fd].position == end
                      && |t.contents| == |s.contents| && |t.contents[s.open[fd].inodeNo]| == Max(size, end))
  {
    hide NewBlocks, CeilDiv, WrittenLength, Overlay;
    if fd in s.open {
      var content, pos := s.contents[s.open[fd].inodeNo], s.open[fd].position;
      BlocksTaken(r, |content|, pos, |data|);
      OverlayAt(content, pos, |data|, data[..WrittenLength(r, pos, |data|)], 0);
    }
  }

  /** The flat file system determines the answer of an operation and the state after it. */
  lemma NextDetermined(r: nat, s: State, op: Op, a: Answer, t: State, b: Answer, u: State)
    requires Next(r, s, op, a, t) && Next(r, s, op, b, u)
    ensures a == b && t == u
  {
    hide CreatedFrom, TreeWith, Overwrite, NewBlocks, Resolve;
    match op
    case CreateOp(name, isDir) =>
      var x :| CreatedFrom(r, s, name, isDir, x, a, t);
      var y :| CreatedFrom(r, s, name, isDir, y, b, u);
      CreationDetermined(r, s, name, isDir, x, y, a, t, b, u);
    case OpenOp(_, _) =>
      assert a.fd.Some? && b.fd.Some? ==> !(a.fd.value < b.fd.value) && !(b.fd.value < a.fd.value);
    case ReadOp(_, _) =>
      assert a.buf == b.buf;
    case _ =>
  }

  lemma CreationDetermined(r: nat, s: State, name: seq<byte>, isDir: bool, x: nat, y: nat, a: Answer, t: State,
                           b: Answer, u: State)
    requires CreatedFrom(r, s, name, isDir, x, a, t) && CreatedFrom(r, s, name, isDir, y, b, u)
    ensures a == b && t == u
  {
    hide TreeWith, ContentsWith, BlocksForRecord, Resolve, ParentPath, BaseName, FindIn;
    assert x == y;
  }

  /** What an operation must be able to assume. */
  ghost predicate Allowed(fs: FileSystem, op: Op)
    reads fs`openFiles, fs`chains, fs`tree, fs.allocator, fs.table, fs.table.inodes, fs.disk
  {
    match op
    case CreateOp(name, _) => CanCreate(fs, name)
    case ReadOp(fd, _) =>
      fd in fs.openFiles && fs.openFiles[fd].inodeNo < fs.table.inodes.Length
      && fs.openFiles[fd].position <= fs.table.inodes[fs.openFiles[fd].inodeNo].size
    case WriteOp(fd, data) =>
      fd in fs.openFiles ==> fs.CanWrite(fd, |data|, false, None) && fs.OnFile(fd)
    case _ => true
  }

  /** One operation takes a well-formed volume to a well-formed volume, by a step of the flat file system. */
  method Step(fs: FileSystem, op: Op) returns (answer: Answer)
    requires fs.Valid() && Allowed(fs, op)
    modifies fs`openFiles, fs`chains, fs`tree, fs.allocator, fs.allocator.bitmap, fs.table, fs.table.inodes, fs.disk
    ensures fs.Valid() && Next(fs.PayloadSize(), old(Observed(fs)), op, answer, Observed(fs))
  {
    hide StoreOk, VolumeOk, TreeOk, TreeShape, DirsHold;
    match op
    case CreateOp(name, isDir) =>
      answer := CreateStep(fs, name, isDir);
    case WriteOp(fd, data) =>
      answer := WriteStep(fs, fd, data);
    case _ =>
      answer := OpenFilesStep(fs, op);
  }

  method CreateStep(fs: FileSystem, name: seq<byte>, isDir: bool) returns (answer: Answer)
    requires fs.Valid() && CanCreate(fs, name)
    modifies fs`openFiles, fs`chains, fs`tree, fs.allocator, fs.allocator.bitmap, fs.table, fs.table.inodes, fs.disk
    ensures fs.Valid()
    ensures exists x :: CreatedFrom(fs.PayloadSize(), old(Observed(fs)), name, isDir, x, answer, Observed(fs))
  {
    hide StoreOk, VolumeOk, TreeOk, TreeShape, DirsHold;
    ghost var s, x := Observed(fs), fs.table.firstFreeInode;
    FirstEmptyInode(fs.table.inodes[..], x);
    CreationForeseen(fs, name);
    var result := CreateFileOrDir(fs, name, isDir);
    answer := CreateAnswer(result);
    assert CreatedFrom(fs.PayloadSize(), s, name, isDir, x, answer, Observed(fs));
  }

  /** How a creation ends, in terms of what can be observed. */
  lemma CreationForeseen(fs: FileSystem, name: seq<byte>)
    requires fs.Valid() && name != [] && name[0] == SLASH
    ensures Resolve(fs.tree.dirs, ParentPath(name)).None? ==> CreationBlocks(fs, name) == 0
    ensures match Resolve(fs.tree.dirs, ParentPath(name))
            case None => true
            case Some(p) =>
              && CreationBlocks(fs, name) == BlocksForRecord(fs.PayloadSize(), Observed(fs), p)
              && EntryOutcome(fs, p, BaseName(name))
                 == EntryOutcomeIn(fs.PayloadSize(), Observed(fs), p, BaseName(name), fs.table.firstFreeInode)
  {
    hide StoreOk, VolumeOk, TreeOk, NewBlocks, AppendOffset, FindFrom;
    RootInode(fs.PayloadSize(), fs.View(), fs.openFiles);
    fs.InodeSize(0);
    match Resolve(fs.tree.dirs, ParentPath(name))
    case None =>
    case Some(p) =>
      if p < fs.table.inodes.Length {
        fs.InodeSize(p);
      }
  }

  lemma RootInode(r: nat, v: Volume, open: OpenFiles)
    requires StoreOk(r, v, open)
    ensures 0 < |v.inodes|
  {
  }

  lemma FirstEmptyInode(inodes: seq<Inode>, first: nat)
    requires LeastEmpty(inodes, first)
    ensures FirstEmpty(Kinds(inodes), first)
  {
  }

  method WriteStep(fs: FileSystem, fd: nat, data: seq<byte>) returns (answer: Answer)
    requires fs.Valid() && Allowed(fs, WriteOp(fd, data))
    modifies fs`openFiles, fs`chains, fs.allocator, fs.allocator.bitmap, fs.table.inodes, fs.disk
    ensures fs.Valid() && WrittenFrom(fs.PayloadSize(), old(Observed(fs)), fd, data, answer, Observed(fs))
  {
    hide StoreOk, VolumeOk, TreeOk, TreeShape, DirsHold, NewBlocks, Overwrite, Store.Contents, Writable, Written, Kinds;
    if fd in fs.openFiles {
      WriteForeseen(fs, fd, data);
    }
    var result := fs.Write(fd, data);
    answer := WriteAnswer(result);
  }

  /** How a write ends, in terms of what can be observed. */
  lemma WriteForeseen(fs: FileSystem, fd: nat, data: seq<byte>)
    requires fs.Valid() && fs.CanWrite(fd, |data|, false, None)
    ensures fs.openFiles[fd].inodeNo < |fs.Contents()| && fs.PayloadSize() > 0
    ensures fs.BlocksFor(fd, |data|, false)
         == NewBlocks(fs.PayloadSize(), |fs.Contents()[fs.openFiles[fd].inodeNo]|, fs.openFiles[fd].position, |data|)
    ensures fs.WriteOutcome(fd, |data|, false, None)
         == if fs.openFiles[fd].mode == ReadMode then WrongMode
            else if Full(Observed(fs), fs.BlocksFor(fd, |data|, false)) then NoFreeBlocks else WriteOk
  {
    hide StoreOk, VolumeOk, TreeOk, NewBlocks;
    fs.ContentSize(fd);
  }

  /** The operations that change nothing but the open files. */
  method OpenFilesStep(fs: FileSystem, op: Op) returns (answer: Answer)
    requires fs.Valid() && Allowed(fs, op) && !op.CreateOp? && !op.WriteOp?
    modifies fs`openFiles
    ensures fs.Valid() && Next(fs.PayloadSize(), old(Observed(fs)), op, answer, Observed(fs))
  {
    hide StoreOk, VolumeOk, TreeOk, TreeShape, DirsHold;
    match op
    case OpenOp(name, mode) =>
      fs.ValidNames();
      var fd := fs.Open(name, mode);
      answer := OpenAnswer(fd);
    case CloseOp(fd) =>
      var known := fs.Close(fd);
      answer := CloseAnswer(known);
    case SeekOp(fd, whence, offset) =>
      if fd in fs.openFiles {
        fs.ContentSize(fd);
      }
      var code := fs.Lseek(fd, whence, offset);
      answer := SeekAnswer(code);
    case ReadOp(fd, len) =>
      fs.ContentSize(fd);
      var buf := fs.Read(fd, len);
      answer := ReadAnswer(buf);
  }

  /** Checks what an operation must be able to assume. */
  method Permitted(fs: FileSystem, op: Op) returns (ok: bool)
    requires fs.Valid()
    ensures ok == Allowed(fs, op)
  {
    hide StoreOk, VolumeOk, TreeOk, TreeShape, DirsHold;
    match op
    case CreateOp(name, _) =>
      ok := CreationPermitted(fs, name);
    case ReadOp(fd, _) =>
      ok := fd in fs.openFiles && fs.openFiles[fd].inodeNo < fs.table.inodes.Length
            && fs.openFiles[fd].position <= fs.table.inodes[fs.openFiles[fd].inodeNo].size;
    case WriteOp(fd, data) =>
      ok := fd in fs.openFiles ==>
          && fs.Opened(fd, |data|) && fs.OnFile(fd)
          && (fs.openFiles[fd].mode == ReadMode
              || (fs.Room(fs.BlocksFor(fd, |data|, false))
                  && (fs.TooFull(fs.BlocksFor(fd, |data|, false)) || fs.TableOfWriteSuffices(fd, |data|, false))));
    case _ =>
      ok := true;
  }

  method CreationPermitted(fs: FileSystem, name: seq<byte>) returns (ok: bool)
    requires fs.Valid()
    ensures ok == CanCreate(fs, name)
  {
    hide StoreOk, VolumeOk, TreeOk, TreeShape, DirsHold;
    if name == [] || name[0] != SLASH || 0 in name {
      return false;
    }
    fs.ValidNames();
    var path, fileName := SplitPath(name);
    var parent := fs.GetInodeByPath(path);
    if |fileName| > FILE_NAME_LENGTH || fs.table.firstFreeInode == 0 || parent.None? {
      return true;
    }
    var p := parent.value;
    fs.StepAgrees(p, fileName);
    var found := fs.GetInodeInDir(p, fileName);
    ok := fs.table.inodes[p].kind == Dir && fs.PayloadSize() > 0 && fs.Room(RecordBlocks(fs, p))
          && (fs.TooFull(RecordBlocks(fs, p))
              || (fs.blockSize % 7936 != 0 && (fs.LastBlockOpen(p) || found != 0)));
  }

  /** The answers and the states of a run of the flat file system. */
  ghost predicate IsRun(r: nat, ops: seq<Op>, answers: seq<Answer>, states: seq<State>) {
    && |answers| == |ops| && |states| == |ops| + 1
    && forall i :: 0 <= i < |ops| ==> Next(r, states[i], ops[i], answers[i], states[i + 1])
  }

  /** Performs operations one after the other, as long as each may assume what it must: the volume stays well formed,
      and what is answered and can be observed is that of a run of the flat file system. */
  method Run(fs: FileSystem, ops: seq<Op>) returns (answers: seq<Answer>, ghost states: seq<State>)
    requires fs.Valid()
    modifies fs`openFiles, fs`chains, fs`tree, fs.allocator, fs.allocator.bitmap, fs.table, fs.table.inodes, fs.disk
    ensures fs.Valid()
    ensures |answers| <= |ops| && (|answers| < |ops| ==> !Allowed(fs, ops[|answers|]))
    ensures IsRun(fs.PayloadSize(), ops[..|answers|], answers, states)
    ensures states[0] == old(Observed(fs)) && states[|answers|] == Observed(fs)
  {
    hide StoreOk, VolumeOk, TreeOk, TreeShape, DirsHold, Next;
    var done := 0;
    answers, states := [], [Observed(fs)];
    while done < |ops|
      invariant done == |answers| <= |ops| && fs.Valid()
      invariant IsRun(fs.PayloadSize(), ops[..done], answers, states)
      invariant states[0] == old(Observed(fs)) && states[done] == Observed(fs)
    {
      var ok := Permitted(fs, ops[done]);
      if !ok {
        return;
      }
      var answer := Step(fs, ops[done]);
      answers, states := answers + [answer], states + [Observed(fs)];
      done := done + 1;
    }
  }

  /** Every well-formed volume: the chains of the files are pairwise disjoint, cross no block twice and never block 0;
      their blocks are marked in the bitmap; each is just long enough for the size of its file; and the free count is
      the number of blocks that are not marked. */
  lemma VolumeInvariant(fs: FileSystem)
    requires fs.Valid()
    ensures |fs.chains| == fs.table.inodes.Length
    ensures forall i :: 0 <= i < |fs.chains| ==> ChainOk(fs, i)
    ensures forall i, j :: 0 <= i < j < |fs.chains| ==> Disjoint(fs.chains[i], fs.chains[j])
    ensures fs.allocator.numberOfFreeBlocks == fs.allocator.numberOfBlocks - |fs.View().taken|
  {
    forall i | 0 <= i < |fs.chains| ensures ChainOk(fs, i) {
      assert FileOk(fs.PayloadSize(), fs.View().disk, fs.View().inodes[i], fs.View().chains[i]);
    }
  }

  /** The chain of inode `i`: where it starts, how it is linked, and how long it is. */
  ghost predicate ChainOk(fs: FileSystem, i: nat)
    reads fs`chains, fs.allocator.bitmap, fs.table.inodes, fs.disk
  {
    && i < |fs.chains| && i < fs.table.inodes.Length && fs.PayloadSize() > 0
    && var c := fs.chains[i];
      && (forall k :: 0 <= k < |c| ==> 0 < c[k] < fs.disk.Length && c[k] in fs.View().taken)
      && (forall k, m :: 0 <= k < m < |c| ==> c[k] != c[m])
      && (c == [] ==> fs.table.inodes[i].firstBlock == 0)
      && (c != [] ==> fs.table.inodes[i].firstBlock == c[0] && fs.disk[c[|c| - 1]].next == 0)
      && (forall k :: 0 <= k < |c| - 1 ==> fs.disk[c[k]].next == c[k + 1])
      && |c| == CeilDiv(fs.table.inodes[i].size, fs.PayloadSize())
  }

  const FILE_ALREADY_EXISTS: int := -1
  const BLOCK_SIZE_TOO_SMALL: int := -2
  const NUMBER_OF_BLOCKS_ZERO: int := -3
  const WRONG_BLOCK_SIZE: int := -4

  /** The names, inodes and files of a new volume: an empty root directory, `.lock`, and nothing else. */
  ghost predicate IsBlank(s: State) {
    && s.tree == Tree(map[0 := []], map[]) && s.open == map[]
    && |s.kinds| == |s.contents| >= 4 && s.kinds[0] == Dir && s.kinds[1] == File
    && (forall i :: 2 <= i < |s.kinds| ==> s.kinds[i] == Kind.Empty)
    && (forall i :: 0 <= i < |s.contents| ==> s.contents[i] == [])
  }

  /** Initialises a volume in a host file that must not exist yet. */
  method Init(blockSize: nat, numberOfBlocks: nat, hostFileExists: bool) returns (code: int, fs: FileSystem?)
    requires blockSize < 0x1_0000_0000 && numberOfBlocks < 0x1_0000_0000
    ensures code == if blockSize < 1024 then BLOCK_SIZE_TOO_SMALL
                    else if blockSize % INODE_SIZE != 0 then WRONG_BLOCK_SIZE
                    else if numberOfBlocks == 0 then NUMBER_OF_BLOCKS_ZERO
                    else if hostFileExists then FILE_ALREADY_EXISTS else 0
    ensures (fs != null) == (code == 0)
    ensures fs != null ==> fs.Valid() && IsBlank(Observed(fs))
    ensures fs != null ==> |fs.View().disk| == numberOfBlocks <= |Observed(fs).kinds|
    ensures fs != null ==> Observed(fs).free == numberOfBlocks - 1
    ensures fs != null ==> fs.View().taken == {0} && fs.table.firstFreeInode == 2
  {
    if blockSize < 1024 {
      return BLOCK_SIZE_TOO_SMALL, null;
    }
    if blockSize % INODE_SIZE != 0 {
      return WRONG_BLOCK_SIZE, null;
    }
    if numberOfBlocks == 0 {
      return NUMBER_OF_BLOCKS_ZERO, null;
    }
    if hostFileExists {
      return FILE_ALREADY_EXISTS, null;
    }
    fs := new FileSystem(blockSize, numberOfBlocks);
    BlankState(fs.PayloadSize(), fs.View());
    code := 0;
  }

  lemma BlankState(r: nat, v: Volume)
    requires BlankVolume(r, v)
    ensures |Contents(r, v)| == |Kinds(v.inodes)| && forall i :: 0 <= i < |Contents(r, v)| ==> Contents(r, v)[i] == []
  {
    BlankVolumeOk(r, v);
  }

  /** A buffer written to an empty file, from its start, is read back in full after a seek to the start. */
  method WriteThenRead(fs: FileSystem, fd: nat, data: seq<byte>) returns (written: bool, back: seq<byte>)
    requires fs.Valid() && fs.CanWrite(fd, |data|, false, None) && fs.OnFile(fd)
    requires fs.openFiles[fd].position == 0 && fs.table.inodes[fs.openFiles[fd].inodeNo].size == 0
    modifies fs`openFiles, fs`chains, fs.allocator, fs.allocator.bitmap, fs.table.inodes, fs.disk
    ensures fs.Valid()
    ensures written <==> old(fs.WriteOutcome(fd, |data|, false, None)) == WriteOk
    ensures written ==> back == data && fs.openFiles == Moved(old(fs.openFiles), fd, |data|)
  {
    hide StoreOk, VolumeOk, TreeOk, TreeShape, DirsHold, Overwrite, ReadLength, SeekTarget;
    fs.ContentSize(fd);
    FreshWrite(fs.PayloadSize(), fs.Contents(), fs.openFiles[fd].inodeNo, data);
    var result := fs.Write(fd, data);
    written := result == Some(WriteOk);
    back := [];
    if written {
      back := ReadBack(fs, fd, data);
    }
  }

  /** Seeks to the start of an open file and reads all of it. */
  method ReadBack(fs: FileSystem, fd: nat, data: seq<byte>) returns (back: seq<byte>)
    requires fs.Valid() && fd in fs.openFiles && fs.openFiles[fd].inodeNo < |fs.Contents()|
    requires fs.Contents()[fs.openFiles[fd].inodeNo] == data
    modifies fs`openFiles
    ensures fs.Valid() && back == data
    ensures fs.openFiles == old(fs.openFiles)[fd := old(fs.openFiles[fd]).(position := |data|)]
  {
    hide StoreOk, VolumeOk, TreeOk, TreeShape, DirsHold, ReadLength;
    fs.ContentSize(fd);
    ReadExact(fs.PayloadSize(), |data|, 0, |data|);
    var code := fs.Lseek(fd, SEEK_SET, 0);
    back := fs.Read(fd, |data|);
  }

  lemma FreshWrite(r: nat, contents: seq<seq<byte>>, i: nat, data: seq<byte>)
    requires r > 0 && i < |contents| && contents[i] == [] && data != []
    ensures Overwrite(r, contents, i, 0, data) == contents[i := data]
  {
    DivModUnique(0, r, 0, 0);
    DivMod(|data| - 1, r);
    WrittenInFull(r, 0, |data|);
    assert data[..|data|] == data;
    assert Overlay([], 0, |data|, data) == data;
  }
}
