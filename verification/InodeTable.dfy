/** The inode table and its record of the first free inode. */
module InodeTable {
  import opened Arith

  datatype Kind = Empty | File | Dir

  datatype Inode = Inode(filename: seq<byte>, kind: Kind, size: nat, firstBlock: nat)

  /** `first` is the least empty inode after the root and `.lock`, or 0 if there is none. */
  ghost predicate LeastEmpty(inodes: seq<Inode>, first: nat) {
    && first < |inodes|
    && (first != 0 ==> first >= 2 && inodes[first].kind == Empty)
    && (forall i :: 2 <= i < |inodes| && (first == 0 || i < first) ==> inodes[i].kind != Empty)
  }

  /** The kinds alone determine the first free inode. */
  lemma LeastEmptyUnique(s: seq<Inode>, t: seq<Inode>, x: nat, y: nat)
    requires |s| == |t| && forall i :: 2 <= i < |s| ==> s[i].kind == t[i].kind
    requires LeastEmpty(s, x) && LeastEmpty(t, y)
    ensures x == y
  {
  }

  lemma SameKindsLeastEmpty(s: seq<Inode>, t: seq<Inode>, first: nat)
    requires |s| == |t| && forall i :: 0 <= i < |s| ==> s[i].kind == t[i].kind
    requires LeastEmpty(s, first)
    ensures LeastEmpty(t, first)
  {
  }

  /** Marking a just inserted inode as empty again restores the free inodes and the first of them. */
  lemma InsertThenMark(s: seq<Inode>, first: nat, new': Inode, second: nat, third: nat)
    requires LeastEmpty(s, first) && first != 0
    requires LeastEmpty(s[first := new'], second)
    requires LeastEmpty(s[first := new'][first := new'.(kind := Empty)], third)
    ensures third == first
    ensures forall i :: 0 <= i < |s| ==> s[first := new'][first := new'.(kind := Empty)][i].kind == s[i].kind
  {
    LeastEmptyUnique(s, s[first := new'][first := new'.(kind := Empty)], first, third);
  }

  class InodeTable {
    const inodes: array<Inode>
    var firstFreeInode: nat

    ghost predicate Valid()
      reads this, inodes
    {
      LeastEmpty(inodes[..], firstFreeInode)
    }

    /** The table of a new volume: the root directory `/`, the file `.lock`, and empty inodes. */
    constructor (count: nat)
      requires count >= 4
      ensures Valid() && fresh(inodes) && inodes.Length == count && firstFreeInode == 2
      ensures inodes[0] == Inode([47], Dir, 0, 0) && inodes[1] == Inode([46, 108, 111, 99, 107], File, 0, 0)
      ensures forall i :: 2 <= i < count ==> inodes[i] == Inode([], Empty, 0, 0)
    {
      inodes := new Inode[count](_ => Inode([], Empty, 0, 0));
      firstFreeInode := 2;
      new;
      inodes[0] := Inode([47], Dir, 0, 0);
      inodes[1] := Inode([46, 108, 111, 99, 107], File, 0, 0);
    }

    /** Puts `newInode` in the first free place and returns its number, or 0 when the table is full. */
    method InsertNewInode(newInode: Inode) returns (inodeNo: nat)
      requires Valid()
      requires newInode.kind != Empty
      modifies this, inodes
      ensures Valid()
      ensures inodeNo == old(firstFreeInode)
      ensures inodeNo == 0 ==> inodes[..] == old(inodes[..]) && firstFreeInode == 0
      ensures inodeNo != 0 ==> inodeNo >= 2 && old(inodes[inodeNo]).kind == Empty
      ensures inodeNo != 0 ==> inodes[..] == old(inodes[..])[inodeNo := newInode]
    {
      inodeNo := firstFreeInode;
      if inodeNo == 0 {
        return;
      }
      inodes[inodeNo] := newInode;
      var i := inodeNo + 1;
      while i < inodes.Length
        invariant inodeNo < i <= inodes.Length
        invariant forall j :: inodeNo < j < i ==> inodes[j].kind != Empty
      {
        if inodes[i].kind == Empty {
          firstFreeInode := i;
          return;
        }
        i := i + 1;
      }
      firstFreeInode := 0;
    }

    method MarkInodeAsEmpty(inodeNo: nat)
      requires Valid()
      requires 2 <= inodeNo < inodes.Length
      modifies this, inodes
      ensures Valid()
      ensures inodes[..] == old(inodes[..])[inodeNo := old(inodes[inodeNo]).(kind := Empty)]
    {
      inodes[inodeNo] := inodes[inodeNo].(kind := Empty);
      if inodeNo < firstFreeInode || firstFreeInode == 0 {
        firstFreeInode := inodeNo;
      }
    }
  }
}
