/** Files as chains of disk blocks: the flat bytes of a chain, and what writing one block does to them. */
module Chains {
  import opened Arith
  import opened Wrappers

  /** A data block: its payload and the number of the block that follows it (0 at the end of a chain). */
  datatype Block = Block(data: seq<byte>, next: nat)

  function Zeros(n: nat): (z: seq<byte>)
    ensures |z| == n && forall i :: 0 <= i < n ==> z[i] == 0
  {
    seq(n, i => 0)
  }

  /** `d` laid over `s` starting at `at`. */
  function Splice(s: seq<byte>, at: nat, d: seq<byte>): (t: seq<byte>)
    requires at + |d| <= |s|
    ensures |t| == |s|
  {
    s[..at] + d + s[at + |d|..]
  }

  /** Every block of the disk has a payload of `r` bytes. */
  ghost predicate BlocksOk(r: nat, disk: seq<Block>) {
    forall b :: 0 <= b < |disk| ==> |disk[b].data| == r
  }

  ghost predicate InRange(disk: seq<Block>, c: seq<nat>) {
    forall i :: 0 <= i < |c| ==> c[i] < |disk|
  }

  /** The number stored in the link field of the `i`-th block of `c`. */
  function NextIn(c: seq<nat>, i: nat): nat
    requires i < |c|
  {
    if i + 1 < |c| then c[i + 1] else 0
  }

  /** `c` is an acyclic chain on the disk that avoids block 0. */
  ghost predicate Linked(disk: seq<Block>, c: seq<nat>) {
    && InRange(disk, c)
    && Distinct(c)
    && (forall i :: 0 <= i < |c| ==> c[i] != 0)
    && (forall i :: 0 <= i < |c| ==> disk[c[i]].next == NextIn(c, i))
  }

  /** The block number at the front of a chain (0 for the empty chain). */
  function First(c: seq<nat>): nat {
    if c == [] then 0 else c[0]
  }

  /** The payloads of a chain, end to end. */
  ghost function Flat(disk: seq<Block>, c: seq<nat>): seq<byte>
    requires InRange(disk, c)
  {
    if c == [] then [] else disk[c[0]].data + Flat(disk, c[1..])
  }

  /** The disk alone determines the chain that starts at a block. */
  lemma {:induction false} LinkedUnique(disk: seq<Block>, c: seq<nat>, d: seq<nat>)
    requires Linked(disk, c) && Linked(disk, d)
    requires First(c) == First(d)
    ensures c == d
  {
    if c == [] || d == [] {
    } else {
      TailLinked(disk, c);
      TailLinked(disk, d);
      assert NextIn(c, 0) == NextIn(d, 0);
      LinkedUnique(disk, c[1..], d[1..]);
    }
  }

  lemma TailLinked(disk: seq<Block>, c: seq<nat>)
    requires Linked(disk, c)
    requires c != []
    ensures Linked(disk, c[1..])
    ensures First(c[1..]) == NextIn(c, 0)
  {
    var d := c[1..];
    forall i | 0 <= i < |d| ensures disk[d[i]].next == NextIn(d, i) {
      assert d[i] == c[i + 1];
      assert NextIn(c, i + 1) == NextIn(d, i);
    }
  }

  lemma {:induction false} FlatLength(r: nat, disk: seq<Block>, c: seq<nat>)
    requires BlocksOk(r, disk) && InRange(disk, c)
    ensures |Flat(disk, c)| == |c| * r
  {
    if c != [] {
      FlatLength(r, disk, c[1..]);
      assert |c| * r == (|c| - 1) * r + r;
    }
  }

  lemma {:induction false} FlatConcat(disk: seq<Block>, c: seq<nat>, d: seq<nat>)
    requires InRange(disk, c) && InRange(disk, d)
    ensures InRange(disk, c + d)
    ensures Flat(disk, c + d) == Flat(disk, c) + Flat(disk, d)
  {
    if c == [] {
      assert c + d == d;
    } else {
      assert (c + d)[1..] == c[1..] + d;
      FlatConcat(disk, c[1..], d);
    }
  }

  /** The flat bytes split at block `j`: what precedes it, its payload, what follows it. */
  lemma FlatSplit(r: nat, disk: seq<Block>, c: seq<nat>, j: nat)
    requires BlocksOk(r, disk) && InRange(disk, c)
    requires j < |c|
    ensures InRange(disk, c[..j]) && InRange(disk, c[j + 1..])
    ensures Flat(disk, c) == Flat(disk, c[..j]) + disk[c[j]].data + Flat(disk, c[j + 1..])
    ensures |Flat(disk, c[..j])| == j * r
  {
    assert c == c[..j] + c[j..];
    FlatConcat(disk, c[..j], c[j..]);
    assert c[j..][1..] == c[j + 1..];
    FlatLength(r, disk, c[..j]);
  }

  /** The bytes `a..b` of the `j`-th block, seen in the flat bytes. */
  lemma FlatAt(r: nat, disk: seq<Block>, c: seq<nat>, j: nat, a: nat, b: nat)
    requires BlocksOk(r, disk) && InRange(disk, c)
    requires j < |c|
    requires a <= b <= r
    ensures j * r + b <= |Flat(disk, c)|
    ensures Flat(disk, c)[j * r + a..j * r + b] == disk[c[j]].data[a..b]
  {
    FlatSplit(r, disk, c, j);
    var p, d, q := Flat(disk, c[..j]), disk[c[j]].data, Flat(disk, c[j + 1..]);
    assert Flat(disk, c) == p + d + q;
  }

  /** Disks that agree on a chain have the same flat bytes for it. */
  lemma {:induction false} FlatFrame(disk: seq<Block>, disk': seq<Block>, c: seq<nat>)
    requires InRange(disk, c) && InRange(disk', c)
    requires forall i :: 0 <= i < |c| ==> disk[c[i]].data == disk'[c[i]].data
    ensures Flat(disk, c) == Flat(disk', c)
  {
    if c != [] {
      FlatFrame(disk, disk', c[1..]);
    }
  }

  /** Writing `d` at offset `at` of the `j`-th block splices `d` into the flat bytes. */
  lemma FlatWrite(r: nat, disk: seq<Block>, c: seq<nat>, j: nat, at: nat, d: seq<byte>, next: nat)
    requires BlocksOk(r, disk) && InRange(disk, c) && Distinct(c)
    requires j < |c|
    requires at + |d| <= r
    ensures InRange(disk[c[j] := Block(Splice(disk[c[j]].data, at, d), next)], c)
    ensures j * r + at + |d| <= |Flat(disk, c)|
    ensures Flat(disk[c[j] := Block(Splice(disk[c[j]].data, at, d), next)], c)
         == Splice(Flat(disk, c), j * r + at, d)
  {
    var old', new' := disk[c[j]].data, Splice(disk[c[j]].data, at, d);
    var disk' := disk[c[j] := Block(new', next)];
    FlatSplit(r, disk, c, j);
    FlatSplit(r, disk', c, j);
    FlatFrame(disk, disk', c[..j]);
    FlatFrame(disk, disk', c[j + 1..]);
    var p, q := Flat(disk, c[..j]), Flat(disk, c[j + 1..]);
    assert Flat(disk, c) == p + old' + q;
    assert Flat(disk', c) == p + new' + q;
    SpliceMiddle(p, old', q, at, d);
  }

  lemma SpliceMiddle(p: seq<byte>, s: seq<byte>, q: seq<byte>, at: nat, d: seq<byte>)
    requires at + |d| <= |s|
    ensures Splice(p + s + q, |p| + at, d) == p + Splice(s, at, d) + q
  {
  }

  lemma SpliceNothing(s: seq<byte>, at: nat)
    requires at <= |s|
    ensures Splice(s, at, []) == s
  {
  }

  /** Two adjacent splices are one. */
  lemma SpliceTwice(s: seq<byte>, at: nat, d: seq<byte>, e: seq<byte>)
    requires at + |d| + |e| <= |s|
    ensures Splice(Splice(s, at, d), at + |d|, e) == Splice(s, at, d + e)
  {
  }
}
