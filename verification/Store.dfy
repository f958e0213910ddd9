/** The files of a volume as flat byte sequences, and what a write does to them. */
module Store {
  import opened Arith
  import opened Wrappers
  import opened Chains
  import opened BlockStore
  import opened InodeTable

  /** What is on the disk: blocks, inodes and the set of taken blocks; `chains[i]` is the chain of inode `i`. */
  datatype Volume = Volume(disk: seq<Block>, inodes: seq<Inode>, chains: seq<seq<nat>>, taken: set<nat>)

  /** An inode's chain is well formed, just long enough for its size, and zero past the end of the file. */
  ghost predicate FileOk(r: nat, disk: seq<Block>, inode: Inode, c: seq<nat>)
    requires r > 0
  {
    && Linked(disk, c)
    && inode.firstBlock == First(c)
    && |c| == CeilDiv(inode.size, r)
    && inode.size <= |Flat(disk, c)|
    && (forall p :: inode.size <= p < |Flat(disk, c)| ==> Flat(disk, c)[p] == 0)
  }

  ghost predicate Taken(taken: set<nat>, c: seq<nat>) {
    forall i :: 0 <= i < |c| ==> c[i] in taken
  }

  ghost predicate Disjoint(c: seq<nat>, d: seq<nat>) {
    forall b :: b in c ==> b !in d
  }

  /** Every file is well formed, files share no blocks, their blocks are marked as taken, and free blocks are blank. */
  ghost predicate VolumeOk(r: nat, v: Volume) {
    && r > 0
    && BlocksOk(r, v.disk)
    && |v.chains| == |v.inodes|
    && (forall i :: 0 <= i < |v.inodes| ==> FileOk(r, v.disk, v.inodes[i], v.chains[i]) && Taken(v.taken, v.chains[i]))
    && (forall i, j :: 0 <= i < |v.inodes| && 0 <= j < |v.inodes| && i != j ==> Disjoint(v.chains[i], v.chains[j]))
    && (forall b :: 0 <= b < |v.disk| && b !in v.taken ==> v.disk[b] == Block(Zeros(r), 0))
  }

  /** The flat content of file `i`. */
  ghost function Content(r: nat, v: Volume, i: nat): seq<byte>
    requires VolumeOk(r, v) && i < |v.inodes|
  {
    Flat(v.disk, v.chains[i])[..v.inodes[i].size]
  }

  /** `d` laid over `s` at `off`, in a file extended with zeros to hold `len` bytes from there. */
  function Overlay(s: seq<byte>, off: nat, len: nat, d: seq<byte>): seq<byte>
    requires |d| <= len
  {
    Splice(s + Zeros(Max(0, off + len - |s|)), off, d)
  }

  /** Every byte of such a file is one laid over it, one it had before, or zero. */
  lemma OverlayAt(s: seq<byte>, off: nat, len: nat, d: seq<byte>, p: nat)
    requires |d| <= len
    ensures |Overlay(s, off, len, d)| == if off + len <= |s| then |s| else off + len
    ensures p < |Overlay(s, off, len, d)| ==>
              Overlay(s, off, len, d)[p]
                  == if off <= p < off + |d| then d[p - off] else if p < |s| then s[p] else 0
  {
  }

  /** The chain of a file that grows by the blocks `added` is linked after the turns `s..hi` of the write loop. */
  lemma GrownLinked(r: nat, disk: seq<Block>, now: seq<Block>, c: seq<nat>, added: seq<nat>, off: nat, d: seq<byte>,
                    s: nat, hi: nat)
    requires BlocksOk(r, disk) && Linked(disk, c) && InRange(disk, added) && Distinct(c + added)
    requires forall i :: 0 <= i < |added| ==> added[i] != 0 && disk[added[i]].next == 0
    requires s <= Max(|c|, 1) && (|c + added| == |c| || |c + added| <= hi + 1)
    requires Laid(r, disk, now, c + added, d, off, s - 1, hi)
    ensures Linked(now, c + added)
  {
    var t := c + added;
    forall i | 0 <= i < |t| ensures now[t[i]].next == NextIn(t, i) {
      if i < |c| {
        assert t[i] == c[i] && disk[c[i]].next == NextIn(c, i);
      } else {
        assert t[i] == added[i - |c|];
      }
    }
  }

  lemma {:induction false} FreshFlat(r: nat, disk: seq<Block>, c: seq<nat>)
    requires BlocksOk(r, disk) && InRange(disk, c)
    requires forall i :: 0 <= i < |c| ==> disk[c[i]].data == Zeros(r)
    ensures Flat(disk, c) == Zeros(|c| * r)
  {
    if c == [] {
      assert Flat(disk, c) == Zeros(0);
    } else {
      FreshFlat(r, disk, c[1..]);
      assert |c| * r == r + (|c| - 1) * r;
      assert Zeros(r) + Zeros((|c| - 1) * r) == Zeros(|c| * r);
    }
  }

  lemma GrownLength(r: nat, size: nat, end: nat, blocks: nat)
    requires r > 0
    requires blocks == Max(CeilDiv(size, r), CeilDiv(end, r))
    ensures blocks == CeilDiv(Max(size, end), r)
    ensures Max(size, end) <= blocks * r
  {
    CeilDivMonotone(size, Max(size, end), r);
    CeilDivMonotone(end, Max(size, end), r);
    CeilDivBounds(Max(size, end), r);
  }

  /** A chain extended with blank blocks holds the file's content followed by zeros. */
  lemma GrownFlat(r: nat, disk: seq<Block>, inode: Inode, c: seq<nat>, added: seq<nat>)
    requires r > 0
    requires BlocksOk(r, disk) && FileOk(r, disk, inode, c) && InRange(disk, added)
    requires forall i :: 0 <= i < |added| ==> disk[added[i]].data == Zeros(r)
    ensures InRange(disk, c + added)
    ensures inode.size <= |Flat(disk, c + added)| == |c + added| * r
    ensures Flat(disk, c + added)
         == Flat(disk, c)[..inode.size] + Zeros(|Flat(disk, c + added)| - inode.size)
  {
    FlatConcat(disk, c, added);
    FreshFlat(r, disk, added);
    FlatLength(r, disk, c + added);
  }

  lemma OverlayPrefix(content: seq<byte>, rest: nat, off: nat, len: nat, d: seq<byte>)
    requires |d| <= len && Max(|content|, off + len) <= |content| + rest
    ensures var t := Splice(content + Zeros(rest), off, d);
      && t[..Max(|content|, off + len)] == Overlay(content, off, len, d)
      && forall p :: Max(|content|, off + len) <= p < |t| ==> t[p] == 0
  {
    var size := Max(|content|, off + len);
    assert (content + Zeros(rest))[..size] == content + Zeros(size - |content|);
  }

  /** What the file's chain holds after the write loop: its old content, extended with zeros, under the bytes laid
      down. */
  lemma GrownContent(r: nat, disk: seq<Block>, now: seq<Block>, inode: Inode, c: seq<nat>, added: seq<nat>,
                     len: nat, off: nat, d: seq<byte>, lo: int, hi: int)
    requires r > 0 && len > 0 && |d| <= len
    requires BlocksOk(r, disk) && FileOk(r, disk, inode, c) && InRange(disk, added)
    requires forall i :: 0 <= i < |added| ==> disk[added[i]].data == Zeros(r)
    requires |c + added| == Max(|c|, CeilDiv(off + len, r))
    requires Laid(r, disk, now, c + added, d, off, lo, hi)
    ensures Max(inode.size, off + len) <= |Flat(now, c + added)|
    ensures Flat(now, c + added)[..Max(inode.size, off + len)]
         == Overlay(Flat(disk, c)[..inode.size], off, len, d)
    ensures forall p :: Max(inode.size, off + len) <= p < |Flat(now, c + added)| ==> Flat(now, c + added)[p] == 0
  {
    hide Flat, CeilDiv, Overlay, Splice, First, BlocksOk, Distinct, NextIn;
    GrownLength(r, inode.size, off + len, |c + added|);
    GrownFlat(r, disk, inode, c, added);
    var content, rest := Flat(disk, c)[..inode.size], |Flat(disk, c + added)| - inode.size;
    assert Flat(now, c + added) == Splice(content + Zeros(rest), off, d);
    OverlayPrefix(content, rest, off, len, d);
  }

  /** A file that grows by the blank blocks `added` is well formed after the turns `s..hi` of the write loop. */
  lemma GrownFile(r: nat, disk: seq<Block>, now: seq<Block>, inode: Inode, c: seq<nat>, added: seq<nat>,
                  len: nat, off: nat, d: seq<byte>, s: nat, hi: nat)
    requires r > 0 && 0 < len && |d| <= len
    requires BlocksOk(r, disk) && FileOk(r, disk, inode, c) && InRange(disk, added) && Distinct(c + added)
    requires forall i :: 0 <= i < |added| ==> added[i] != 0 && disk[added[i]] == Block(Zeros(r), 0)
    requires |c + added| == Max(|c|, CeilDiv(off + len, r))
    requires s <= Max(|c|, 1) && CeilDiv(off + len, r) <= hi + 1
    requires Laid(r, disk, now, c + added, d, off, s - 1, hi)
    ensures FileOk(r, now, inode.(size := Max(inode.size, off + len), firstBlock := First(c + added)), c + added)
    ensures InRange(now, c + added) && Max(inode.size, off + len) <= |Flat(now, c + added)|
    ensures Flat(now, c + added)[..Max(inode.size, off + len)]
         == Overlay(Flat(disk, c)[..inode.size], off, len, d)
  {
    hide Flat, CeilDiv, Overlay, Splice, Laid, Linked, First;
    GrownLinked(r, disk, now, c, added, off, d, s, hi);
    GrownLength(r, inode.size, off + len, |c + added|);
    GrownContent(r, disk, now, inode, c, added, len, off, d, s - 1, hi);
  }

  /** Files that keep their blocks keep their content. */
  lemma OtherFileOk(r: nat, disk: seq<Block>, now: seq<Block>, inode: Inode, c: seq<nat>)
    requires r > 0 && |now| == |disk|
    requires FileOk(r, disk, inode, c)
    requires forall i :: 0 <= i < |c| ==> now[c[i]] == disk[c[i]]
    ensures FileOk(r, now, inode, c)
    ensures Flat(now, c) == Flat(disk, c)
  {
    FlatFrame(disk, now, c);
  }

  /** The volume after file `i`, grown by the blocks `added`, is written. */
  ghost function Written(r: nat, v: Volume, i: nat, added: seq<nat>, data: seq<byte>, off: nat): Volume
    requires Writable(r, v, i, added, data, off)
  {
    var t := v.chains[i] + added;
    v.(disk := Saved(r, v.disk, t, data, off),
       inodes := v.inodes[i := v.inodes[i].(size := Max(v.inodes[i].size, off + |data|), firstBlock := First(t))],
       chains := v.chains[i := t],
       taken := v.taken + set b | b in added)
  }

  /** The blocks `added` are free and just enough to hold `data` at `off` in file `i`. */
  ghost predicate Writable(r: nat, v: Volume, i: nat, added: seq<nat>, data: seq<byte>, off: nat) {
    && VolumeOk(r, v) && i < |v.inodes| && |data| > 0
    && 0 in v.taken
    && InRange(v.disk, added) && Distinct(added)
    && (forall k :: 0 <= k < |added| ==> added[k] !in v.taken)
    && |v.chains[i] + added| == Max(|v.chains[i]|, CeilDiv(off + |data|, r))
    && BlockIndex(r, off) <= Max(|v.chains[i]|, 1)
    && BlockIndex(r, off) + BlocksVisited(r, |data|) <= |v.chains[i] + added|
    && InRange(v.disk, v.chains[i] + added)
  }

  /** A write lays what the loop covers of the buffer over the file's content, leaves every other file alone and keeps
      the volume well formed. */
  lemma WriteRefinesOverlay(r: nat, v: Volume, i: nat, added: seq<nat>, data: seq<byte>, off: nat)
    requires Writable(r, v, i, added, data, off)
    ensures VolumeOk(r, Written(r, v, i, added, data, off))
    ensures Content(r, Written(r, v, i, added, data, off), i)
         == Overlay(Content(r, v, i), off, |data|, data[..WrittenLength(r, off, |data|)])
    ensures forall j :: 0 <= j < |v.inodes| && j != i ==>
              Content(r, Written(r, v, i, added, data, off), j) == Content(r, v, j)
  {
    WrittenFile(r, v, i, added, data, off);
    OtherFiles(r, v, Written(r, v, i, added, data, off).disk, i, added);
  }

  /** The contents of all files of a well-formed volume. */
  ghost function Contents(r: nat, v: Volume): (contents: seq<seq<byte>>)
    ensures VolumeOk(r, v) ==> |contents| == |v.inodes|
  {
    if VolumeOk(r, v) then seq(|v.inodes|, i requires VolumeOk(r, v) && 0 <= i < |v.inodes| => Content(r, v, i)) else []
  }

  /** The contents of all files once as much of `data` as the write loop covers is laid over file `i` at `off`. */
  ghost function Overwrite(r: nat, contents: seq<seq<byte>>, i: nat, off: nat, data: seq<byte>): seq<seq<byte>> {
    if r == 0 || data == [] || i >= |contents| then contents
    else contents[i := Overlay(contents[i], off, |data|, data[..WrittenLength(r, off, |data|)])]
  }

  lemma ContentsOverwritten(r: nat, v: Volume, i: nat, added: seq<nat>, data: seq<byte>, off: nat)
    requires Writable(r, v, i, added, data, off)
    ensures Contents(r, Written(r, v, i, added, data, off)) == Overwrite(r, Contents(r, v), i, off, data)
  {
    WriteRefinesOverlay(r, v, i, added, data, off);
  }

  /** A file that grows by the blank blocks `added`, after the whole write. */
  lemma SavedFile(r: nat, disk: seq<Block>, now: seq<Block>, inode: Inode, c: seq<nat>, added: seq<nat>, len: nat,
                  off: nat, d: seq<byte>)
    requires r > 0 && len > 0 && |d| <= len
    requires BlocksOk(r, disk) && FileOk(r, disk, inode, c) && InRange(disk, added) && Distinct(c + added)
    requires forall i :: 0 <= i < |added| ==> added[i] != 0 && disk[added[i]] == Block(Zeros(r), 0)
    requires |c + added| == Max(|c|, CeilDiv(off + len, r))
    requires BlockIndex(r, off) <= Max(|c|, 1)
    requires Laid(r, disk, now, c + added, d, off, BlockIndex(r, off) - 1, BlockIndex(r, off) + BlocksVisited(r, len))
    ensures BlocksOk(r, now) && |now| == |disk|
    ensures forall b :: 0 <= b < |now| && b !in c + added ==> now[b] == disk[b]
    ensures FileOk(r, now, inode.(size := Max(inode.size, off + len), firstBlock := First(c + added)), c + added)
    ensures InRange(now, c + added) && Max(inode.size, off + len) <= |Flat(now, c + added)|
    ensures Flat(now, c + added)[..Max(inode.size, off + len)] == Overlay(Flat(disk, c)[..inode.size], off, len, d)
  {
    VisitedFit(r, off, len);
    GrownFile(r, disk, now, inode, c, added, len, off, d, BlockIndex(r, off),
        BlockIndex(r, off) + BlocksVisited(r, len));
  }

  /** What a write stores in the volume, part by part. */
  lemma WrittenParts(r: nat, v: Volume, i: nat, added: seq<nat>, data: seq<byte>, off: nat)
    requires Writable(r, v, i, added, data, off)
    ensures i < |v.chains| == |v.inodes|
    ensures var w, t := Written(r, v, i, added, data, off), v.chains[i] + added;
      && |w.chains| == |w.inodes| == |v.inodes|
      && w.disk == Saved(r, v.disk, t, data, off) && w.chains[i] == t
      && w.inodes[i] == v.inodes[i].(size := Max(v.inodes[i].size, off + |data|), firstBlock := First(t))
  {
    hide Saved, First, FileOk, CeilDiv;
  }

  /** The written file itself, and what becomes of the blocks. */
  lemma WrittenFile(r: nat, v: Volume, i: nat, added: seq<nat>, data: seq<byte>, off: nat)
    requires Writable(r, v, i, added, data, off)
    ensures var w := Written(r, v, i, added, data, off);
      && BlocksOk(r, w.disk) && |w.disk| == |v.disk|
      && (forall b :: 0 <= b < |w.disk| && b !in w.chains[i] ==> w.disk[b] == v.disk[b])
      && FileOk(r, w.disk, w.inodes[i], w.chains[i])
      && Flat(w.disk, w.chains[i])[..w.inodes[i].size]
         == Overlay(Content(r, v, i), off, |data|, data[..WrittenLength(r, off, |data|)])
  {
    hide Flat, Saved, Laid, CeilDiv, FileOk, Overlay, WrittenLength, BlocksOk, Distinct, Written, First;
    WrittenParts(r, v, i, added, data, off);
    AddedBlank(r, v, i, added, data, off);
    SavedLaid(r, v.disk, v.chains[i] + added, data, off);
    SavedFile(r, v.disk, Saved(r, v.disk, v.chains[i] + added, data, off), v.inodes[i], v.chains[i], added, |data|, off,
              data[..WrittenLength(r, off, |data|)]);
  }

  /** The other files when only the blocks of file `i` and free blocks `added` may change. */
  lemma OtherFiles(r: nat, v: Volume, now: seq<Block>, i: nat, added: seq<nat>)
    requires VolumeOk(r, v) && i < |v.inodes| && |now| == |v.disk|
    requires forall k :: 0 <= k < |added| ==> added[k] !in v.taken
    requires forall b :: 0 <= b < |now| && b !in v.chains[i] + added ==> now[b] == v.disk[b]
    ensures forall j :: 0 <= j < |v.inodes| && j != i ==>
              && FileOk(r, now, v.inodes[j], v.chains[j])
              && Flat(now, v.chains[j]) == Flat(v.disk, v.chains[j])
              && Disjoint(v.chains[i] + added, v.chains[j])
              && Disjoint(v.chains[j], v.chains[i] + added)
  {
    forall j | 0 <= j < |v.inodes| && j != i
      ensures FileOk(r, now, v.inodes[j], v.chains[j])
      ensures Flat(now, v.chains[j]) == Flat(v.disk, v.chains[j])
      ensures Disjoint(v.chains[i] + added, v.chains[j])
      ensures Disjoint(v.chains[j], v.chains[i] + added)
    {
      assert Disjoint(v.chains[i], v.chains[j]) && Taken(v.taken, v.chains[j]);
      OtherFileOk(r, v.disk, now, v.inodes[j], v.chains[j]);
    }
  }

  lemma AddedBlank(r: nat, v: Volume, i: nat, added: seq<nat>, data: seq<byte>, off: nat)
    requires Writable(r, v, i, added, data, off)
    ensures FileOk(r, v.disk, v.inodes[i], v.chains[i])
    ensures forall k :: 0 <= k < |added| ==> added[k] != 0 && v.disk[added[k]] == Block(Zeros(r), 0)
    ensures Distinct(v.chains[i] + added)
  {
    assert Taken(v.taken, v.chains[i]);
  }
}
