/** The whole volume: blocks, inodes, open files and the tree of names, and what keeps it well formed. */
module FsState {
  import opened Arith
  import opened BlockStore
  import opened InodeTable
  import opened Store
  import opened Signature
  import opened Directory
  import opened Paths

  datatype Mode = ReadMode | WriteMode | ReadAndWrite

  datatype OpenFile = OpenFile(inodeNo: nat, position: nat, mode: Mode)

  type OpenFiles = map<nat, OpenFile>

  /** The names on the volume: the entries of every directory, and for every named inode the entry that names it. */
  datatype Tree = Tree(dirs: Dirs, owner: map<nat, (nat, nat)>)

  /** Open files are live, and their positions lie within the blocks of the file. */
  ghost predicate OpenOk(r: nat, v: Volume, open: OpenFiles) {
    forall fd :: fd in open ==>
      && open[fd].inodeNo < |v.inodes| == |v.chains|
      && v.inodes[open[fd].inodeNo].kind != Empty
      && open[fd].position <= |v.chains[open[fd].inodeNo]| * r
  }

  /** The volume without its names: inode 0 is the root directory, empty inodes have no blocks, and block 0 is blank
      after the four bytes of the lock counter. */
  ghost predicate StoreOk(r: nat, v: Volume, open: OpenFiles) {
    && VolumeOk(r, v)
    && r >= SIGNATURE_SIZE
    && 0 in v.taken && |v.disk| > 0
    && v.disk[0].next == 0 && (forall p :: 4 <= p < |v.disk[0].data| ==> v.disk[0].data[p] == 0)
    && 2 <= |v.inodes| <= Pow256(8)
    && v.inodes[0].kind == Dir
    && (forall i :: 0 <= i < |v.inodes| && v.inodes[i].kind == Empty ==> v.inodes[i].size == 0)
    && OpenOk(r, v, open)
  }

  /** The kinds of the inodes. */
  ghost function Kinds(inodes: seq<Inode>): (kinds: seq<Kind>)
    ensures |kinds| == |inodes| && forall i :: 0 <= i < |inodes| ==> kinds[i] == inodes[i].kind
  {
    seq(|inodes|, i requires 0 <= i < |inodes| => inodes[i].kind)
  }

  /** An inode an entry may name. */
  ghost predicate Named(kinds: seq<Kind>, dirs: Dirs, i: nat) {
    && 2 <= i < |kinds| && kinds[i] != Empty
    && (kinds[i] == Dir <==> i in dirs)
  }

  /** The directories of the tree are inodes of that kind, and their entries name live inodes. */
  ghost predicate DirsShape(kinds: seq<Kind>, dirs: Dirs) {
    && 0 in dirs
    && (forall d :: d in dirs ==> d < |kinds| && kinds[d] == Dir)
    && (forall d, k :: d in dirs && 0 <= k < |dirs[d]| ==> Named(kinds, dirs, dirs[d][k].inodeNo))
  }

  /** The tree accounts for every live inode: names are distinct within a directory, and each live inode but the root
      and `.lock` is named by exactly one entry. */
  ghost predicate TreeShape(kinds: seq<Kind>, tree: Tree) {
    && DirsShape(kinds, tree.dirs)
    && |kinds| >= 2 && kinds[1] == File
    && (forall d :: d in tree.dirs ==> DistinctNames(tree.dirs[d]))
    && (forall d, k :: d in tree.dirs && 0 <= k < |tree.dirs[d]| ==> OwnedBy(tree.owner, tree.dirs[d][k].inodeNo, d, k))
    && (forall i :: i in tree.owner ==> OwnerOk(tree, i))
    && (forall i :: 2 <= i < |kinds| ==> (kinds[i] != Empty <==> i in tree.owner))
    && (forall i :: 2 <= i < |kinds| && kinds[i] == Dir ==> i in tree.dirs)
  }

  ghost predicate OwnedBy(owner: map<nat, (nat, nat)>, i: nat, d: nat, k: nat) {
    i in owner && owner[i] == (d, k)
  }

  /** The entry recorded as the owner of inode `i` is there and names it. */
  ghost predicate OwnerOk(tree: Tree, i: nat)
    requires i in tree.owner
  {
    var (d, k) := tree.owner[i];
    d in tree.dirs && k < |tree.dirs[d]| && tree.dirs[d][k].inodeNo == i
  }

  /** Every directory of the tree is on the volume with just its entries. */
  ghost predicate DirsHold(r: nat, v: Volume, dirs: Dirs)
    requires VolumeOk(r, v)
  {
    forall d :: d in dirs ==> d < |v.inodes| && DirHolds(r, Content(r, v, d), dirs[d])
  }

  /** The tree is the names on a well-formed volume. */
  ghost predicate TreeOk(r: nat, v: Volume, tree: Tree) {
    VolumeOk(r, v) && TreeShape(Kinds(v.inodes), tree) && DirsHold(r, v, tree.dirs)
  }

  /** Writing to a file keeps the store well formed. */
  lemma WriteKeepsStore(r: nat, v: Volume, open: OpenFiles, i: nat, added: seq<nat>, data: seq<byte>, off: nat)
    requires StoreOk(r, v, open) && Writable(r, v, i, added, data, off)
    requires v.inodes[i].kind != Empty
    ensures StoreOk(r, Written(r, v, i, added, data, off), open)
    ensures off + |data| <= |v.chains[i] + added| * r
  {
    hide VolumeOk, Saved, CeilDiv, Writable, OpenOk;
    WritableChain(r, v, i, added, data, off);
    WriteRefinesOverlay(r, v, i, added, data, off);
    FirstBlockStays(r, v, i, added, data, off);
    OpenStays(r, v, Written(r, v, i, added, data, off), open, i);
  }

  /** Open files stay so when chains only grow. */
  lemma OpenStays(r: nat, v: Volume, w: Volume, open: OpenFiles, i: nat)
    requires OpenOk(r, v, open) && |w.inodes| == |w.chains| == |v.inodes| == |v.chains| && i < |v.chains|
    requires forall j :: 0 <= j < |v.inodes| ==> w.inodes[j].kind == v.inodes[j].kind
    requires forall j :: 0 <= j < |v.chains| && j != i ==> w.chains[j] == v.chains[j]
    requires |v.chains[i]| * r <= |w.chains[i]| * r
    ensures OpenOk(r, w, open)
  {
  }

  /** The chain of a file that is to be written avoids block 0 and is long enough. */
  lemma WritableChain(r: nat, v: Volume, i: nat, added: seq<nat>, data: seq<byte>, off: nat)
    requires Writable(r, v, i, added, data, off)
    ensures r > 0 && |data| > 0 && i < |v.inodes| == |v.chains| && 0 !in v.chains[i] + added
    ensures off + |data| <= |v.chains[i] + added| * r && |v.chains[i]| * r <= |v.chains[i] + added| * r
  {
    assert FileOk(r, v.disk, v.inodes[i], v.chains[i]);
    ChainCovers(r, off + |data|, |v.chains[i]|, |v.chains[i] + added|);
  }

  lemma FirstBlockStays(r: nat, v: Volume, i: nat, added: seq<nat>, data: seq<byte>, off: nat)
    requires Writable(r, v, i, added, data, off) && |v.disk| > 0
    ensures |Written(r, v, i, added, data, off).disk| == |v.disk|
            && Written(r, v, i, added, data, off).disk[0] == v.disk[0]
  {
    hide Writable, Saved;
    WritableChain(r, v, i, added, data, off);
    WrittenFile(r, v, i, added, data, off);
  }

  lemma ChainCovers(r: nat, end: nat, before: nat, blocks: nat)
    requires r > 0 && before <= blocks && CeilDiv(end, r) <= blocks
    ensures end <= blocks * r && before * r <= blocks * r
  {
    CeilDivBounds(end, r);
    MulMonotone(CeilDiv(end, r), blocks, r);
    MulMonotone(before, blocks, r);
  }

  /** A volume with the same inode kinds and the same directory contents has the same names. */
  lemma SameNames(r: nat, v: Volume, w: Volume, tree: Tree)
    requires VolumeOk(r, v) && VolumeOk(r, w) && TreeOk(r, v, tree)
    requires Kinds(w.inodes) == Kinds(v.inodes)
    requires forall d :: d in tree.dirs ==> Content(r, w, d) == Content(r, v, d)
    ensures TreeOk(r, w, tree)
  {
  }

  /** Marking more blocks as taken keeps the store well formed: they are only lost. */
  lemma LeakKeepsStore(r: nat, v: Volume, open: OpenFiles, taken: set<nat>)
    requires StoreOk(r, v, open)
    requires v.taken <= taken
    ensures StoreOk(r, v.(taken := taken), open)
    ensures forall j :: 0 <= j < |v.inodes| ==> Content(r, v.(taken := taken), j) == Content(r, v, j)
  {
  }

  /** Filling an empty inode, or emptying it again, keeps the store well formed and changes no content. */
  lemma InodeKeepsStore(r: nat, v: Volume, open: OpenFiles, x: nat, new': Inode)
    requires StoreOk(r, v, open)
    requires 2 <= x < |v.inodes| && v.inodes[x].size == 0
    requires new'.size == 0 && new'.firstBlock == 0
    requires new'.kind == Empty ==> forall fd :: fd in open ==> open[fd].inodeNo != x
    ensures StoreOk(r, v.(inodes := v.inodes[x := new']), open)
    ensures forall j :: 0 <= j < |v.inodes| ==> Content(r, v.(inodes := v.inodes[x := new']), j) == Content(r, v, j)
  {
    CeilDivBounds(0, r);
    assert v.chains[x] == [];
  }

  /** The tree with a new entry for inode `x` in directory `p`. */
  ghost function WithEntry(tree: Tree, p: nat, name: seq<byte>, x: nat, isDir: bool): Tree
    requires p in tree.dirs
  {
    var grown := tree.dirs[p := tree.dirs[p] + [Entry(name, x)]];
    Tree(if isDir then grown[x := []] else grown, tree.owner[x := (p, |tree.dirs[p]|)])
  }

  /** The new entry, among the old ones. */
  lemma GrownEntries(kinds: seq<Kind>, tree: Tree, p: nat, name: seq<byte>, x: nat, kind: Kind, d: nat, k: nat)
    requires TreeShape(kinds, tree)
    requires p in tree.dirs && 2 <= x < |kinds| && kinds[x] == Empty && kind != Empty
    requires d in WithEntry(tree, p, name, x, kind == Dir).dirs
    requires k < |WithEntry(tree, p, name, x, kind == Dir).dirs[d]|
    ensures var after := WithEntry(tree, p, name, x, kind == Dir);
      && Named(kinds[x := kind], after.dirs, after.dirs[d][k].inodeNo)
      && OwnedBy(after.owner, after.dirs[d][k].inodeNo, d, k)
  {
    assert x !in tree.owner && x !in tree.dirs;
    if d in tree.dirs && k < |tree.dirs[d]| {
      assert Named(kinds, tree.dirs, tree.dirs[d][k].inodeNo) && OwnedBy(tree.owner, tree.dirs[d][k].inodeNo, d, k);
    }
  }

  lemma GrownOwners(kinds: seq<Kind>, tree: Tree, p: nat, name: seq<byte>, x: nat, kind: Kind, i: nat)
    requires TreeShape(kinds, tree)
    requires p in tree.dirs && 2 <= x < |kinds| && kinds[x] == Empty && kind != Empty
    requires i in WithEntry(tree, p, name, x, kind == Dir).owner
    ensures OwnerOk(WithEntry(tree, p, name, x, kind == Dir), i)
  {
    assert x !in tree.dirs;
    if i != x {
      assert OwnerOk(tree, i);
    }
  }

  lemma GrownNames(tree: Tree, p: nat, name: seq<byte>, x: nat, isDir: bool, d: nat)
    requires p in tree.dirs && d in WithEntry(tree, p, name, x, isDir).dirs
    requires d in tree.dirs ==> DistinctNames(tree.dirs[d])
    requires forall k :: 0 <= k < |tree.dirs[p]| ==> tree.dirs[p][k].name != name
    ensures DistinctNames(WithEntry(tree, p, name, x, isDir).dirs[d])
  {
  }

  /** Which inodes are live, and which are directories. */
  lemma GrownKinds(kinds: seq<Kind>, tree: Tree, p: nat, name: seq<byte>, x: nat, kind: Kind)
    requires TreeShape(kinds, tree)
    requires p in tree.dirs && 2 <= x < |kinds| && kinds[x] == Empty && kind != Empty
    ensures var now, after := kinds[x := kind], WithEntry(tree, p, name, x, kind == Dir);
      && 0 in after.dirs && (forall d :: d in after.dirs ==> d < |now| && now[d] == Dir)
      && (forall i :: 2 <= i < |now| ==> (now[i] != Empty <==> i in after.owner))
      && (forall i :: 2 <= i < |now| && now[i] == Dir ==> i in after.dirs)
      && (forall d :: d in after.dirs && d !in tree.dirs ==> d == x)
  {
  }

  /** A tree with a new entry, under a new name, for an inode that has just come to life, accounts for that inode
      too. */
  lemma GrownShape(kinds: seq<Kind>, tree: Tree, p: nat, name: seq<byte>, x: nat, kind: Kind)
    requires TreeShape(kinds, tree)
    requires p in tree.dirs && 2 <= x < |kinds| && kinds[x] == Empty && kind != Empty
    requires forall k :: 0 <= k < |tree.dirs[p]| ==> tree.dirs[p][k].name != name
    ensures TreeShape(kinds[x := kind], WithEntry(tree, p, name, x, kind == Dir))
  {
    hide WithEntry, Named, OwnedBy, OwnerOk, DistinctNames;
    GrownKinds(kinds, tree, p, name, x, kind);
    var now, after := kinds[x := kind], WithEntry(tree, p, name, x, kind == Dir);
    forall d, k | d in after.dirs && 0 <= k < |after.dirs[d]|
      ensures Named(now, after.dirs, after.dirs[d][k].inodeNo)
      ensures OwnedBy(after.owner, after.dirs[d][k].inodeNo, d, k)
    {
      GrownEntries(kinds, tree, p, name, x, kind, d, k);
    }
    forall i | i in after.owner ensures OwnerOk(after, i) {
      GrownOwners(kinds, tree, p, name, x, kind, i);
    }
    forall d | d in after.dirs ensures DistinctNames(after.dirs[d]) {
      GrownNames(tree, p, name, x, kind == Dir, d);
    }
  }

  /** Writing to a file that is not a directory keeps the tree of names. */
  lemma FileWriteKeepsTree(r: nat, v: Volume, tree: Tree, i: nat, added: seq<nat>, data: seq<byte>, off: nat)
    requires TreeOk(r, v, tree) && Writable(r, v, i, added, data, off)
    requires v.inodes[i].kind == File
    ensures TreeOk(r, Written(r, v, i, added, data, off), tree)
    ensures Kinds(Written(r, v, i, added, data, off).inodes) == Kinds(v.inodes)
  {
    WriteRefinesOverlay(r, v, i, added, data, off);
    SameNames(r, v, Written(r, v, i, added, data, off), tree);
  }

  /** The names of a volume still hold when an empty inode outside the tree comes to life. */
  lemma NewInodeKeepsDirs(kinds: seq<Kind>, tree: Tree, x: nat, kind: Kind)
    requires TreeShape(kinds, tree)
    requires 2 <= x < |kinds| && kinds[x] == Empty
    ensures DirsShape(kinds[x := kind], tree.dirs)
  {
    forall d, k | d in tree.dirs && 0 <= k < |tree.dirs[d]|
      ensures Named(kinds[x := kind], tree.dirs, tree.dirs[d][k].inodeNo)
    {
      assert Named(kinds, tree.dirs, tree.dirs[d][k].inodeNo);
    }
  }

  /** Appending a record to a directory adds the entry, and leaves every other content alone. */
  lemma RecordAppended(r: nat, v: Volume, p: nat, entries: seq<Entry>, e: Entry, added: seq<nat>, off: nat)
    requires r >= SIGNATURE_SIZE && VolumeOk(r, v) && p < |v.inodes| && GoodEntry(e)
    requires DirHolds(r, Content(r, v, p), entries)
    requires off == AppendOffset(r, v.inodes[p].size, SIGNATURE_SIZE)
    requires Writable(r, v, p, added, Encode(e), off)
    ensures VolumeOk(r, Written(r, v, p, added, Encode(e), off))
    ensures DirHolds(r, Content(r, Written(r, v, p, added, Encode(e), off), p), entries + [e])
    ensures Content(r, Written(r, v, p, added, Encode(e), off), p)
         == Overlay(Content(r, v, p), AppendOffset(r, |Content(r, v, p)|, SIGNATURE_SIZE), SIGNATURE_SIZE, Encode(e))
    ensures forall j :: 0 <= j < |v.inodes| && j != p ==>
              Content(r, Written(r, v, p, added, Encode(e), off), j) == Content(r, v, j)
  {
    WriteRefinesOverlay(r, v, p, added, Encode(e), off);
    RecordWrittenInFull(r, |Content(r, v, p)|, |entries|);
    AppendHolds(r, Content(r, v, p), entries, e);
    assert Encode(e)[..SIGNATURE_SIZE] == Encode(e);
  }

  /** A volume with one more entry in `p`, for the empty file or directory `x`, has the tree with that entry. */
  lemma CreateSucceeds(r: nat, v: Volume, w: Volume, tree: Tree, p: nat, e: Entry, kind: Kind)
    requires VolumeOk(r, v) && TreeOk(r, v, tree) && VolumeOk(r, w)
    requires p in tree.dirs && GoodEntry(e) && 2 <= e.inodeNo < |v.inodes| == |w.inodes|
    requires v.inodes[e.inodeNo].kind == Empty && kind != Empty
    requires Kinds(w.inodes) == Kinds(v.inodes)[e.inodeNo := kind]
    requires w.inodes[e.inodeNo].size == 0
    requires forall j :: j in tree.dirs && j != p ==> Content(r, w, j) == Content(r, v, j)
    requires DirHolds(r, Content(r, w, p), tree.dirs[p] + [e])
    requires FindFrom(tree.dirs[p], e.name, 0) == 0
    ensures TreeOk(r, w, WithEntry(tree, p, e.name, e.inodeNo, kind == Dir))
  {
    hide VolumeOk, TreeShape, DirHolds, FindFrom, WithEntry;
    NameIsNew(r, v, tree, p, e);
    GrownShape(Kinds(v.inodes), tree, p, e.name, e.inodeNo, kind);
    GrownHolds(r, v, w, tree, p, e, kind == Dir);
  }

  /** Neither the name nor the inode of a new entry is in the tree yet. */
  lemma NameIsNew(r: nat, v: Volume, tree: Tree, p: nat, e: Entry)
    requires TreeOk(r, v, tree) && p in tree.dirs && FindFrom(tree.dirs[p], e.name, 0) == 0
    requires e.inodeNo < |v.inodes| && v.inodes[e.inodeNo].kind == Empty
    ensures e.inodeNo !in tree.dirs && forall k :: 0 <= k < |tree.dirs[p]| ==> tree.dirs[p][k].name != e.name
  {
    hide VolumeOk;
    assert DirHolds(r, Content(r, v, p), tree.dirs[p]);
    FoundIffPresent(tree.dirs[p], e.name, 0);
  }

  lemma GrownHolds(r: nat, v: Volume, w: Volume, tree: Tree, p: nat, e: Entry, isDir: bool)
    requires VolumeOk(r, v) && VolumeOk(r, w) && DirsHold(r, v, tree.dirs)
    requires p in tree.dirs && e.inodeNo !in tree.dirs && e.inodeNo < |v.inodes| == |w.inodes|
    requires w.inodes[e.inodeNo].size == 0
    requires forall j :: j in tree.dirs && j != p ==> Content(r, w, j) == Content(r, v, j)
    requires DirHolds(r, Content(r, w, p), tree.dirs[p] + [e])
    ensures DirsHold(r, w, WithEntry(tree, p, e.name, e.inodeNo, isDir).dirs)
  {
    var dirs := WithEntry(tree, p, e.name, e.inodeNo, isDir).dirs;
    assert Entry(e.name, e.inodeNo) == e;
    forall d | d in dirs ensures d < |w.inodes| && DirHolds(r, Content(r, w, d), dirs[d]) {
      if d == e.inodeNo {
        assert Content(r, w, d) == [];
      } else if d == p {
        assert dirs[d] == tree.dirs[p] + [e];
      } else {
        assert dirs[d] == tree.dirs[d] && DirHolds(r, Content(r, v, d), tree.dirs[d]);
      }
    }
  }

  /** The write loop lays a directory record down in full. */
  lemma RecordWrittenInFull(r: nat, size: nat, n: nat)
    requires r >= SIGNATURE_SIZE && size == DirSize(r, n)
    ensures WrittenLength(r, AppendOffset(r, size, SIGNATURE_SIZE), SIGNATURE_SIZE) == SIGNATURE_SIZE
  {
    AppendHitsNextRecord(r, n);
    RecordSpot(r, n);
    WrittenInFull(r, RecordOffset(r, n), SIGNATURE_SIZE);
    DivModUnique(SIGNATURE_SIZE - 1, r, 0, SIGNATURE_SIZE - 1);
  }
}
