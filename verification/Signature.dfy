/** File signatures: the 248-byte directory records that name an inode. */
module Signature {
  import opened Arith
  import opened Chains

  const SIGNATURE_SIZE: nat := 248
  const NAME_AREA: nat := 240
  const FILE_NAME_LENGTH: nat := 238

  /** The longest prefix of `s` without a NUL: what string functions see in a character array. */
  function CString(s: seq<byte>): (n: seq<byte>)
    ensures |n| <= |s| && forall i :: 0 <= i < |n| ==> n[i] != 0
  {
    if s == [] || s[0] == 0 then [] else [s[0]] + CString(s[1..])
  }

  lemma {:induction false} CStringPadded(n: seq<byte>, k: nat)
    requires forall i :: 0 <= i < |n| ==> n[i] != 0
    ensures CString(n + Zeros(k)) == n
  {
    if n != [] {
      assert (n + Zeros(k))[1..] == n[1..] + Zeros(k);
      CStringPadded(n[1..], k);
    }
  }

  function Pow256(k: nat): nat {
    if k == 0 then 1 else 256 * Pow256(k - 1)
  }

  /** The `k` low bytes of `n`, least significant first. */
  function LittleEndian(n: nat, k: nat): (s: seq<byte>)
    ensures |s| == k
  {
    if k == 0 then [] else [n % 256] + LittleEndian(n / 256, k - 1)
  }

  function FromLittleEndian(s: seq<byte>): nat {
    if s == [] then 0 else s[0] + 256 * FromLittleEndian(s[1..])
  }

  lemma {:induction false} LittleEndianRoundTrip(n: nat, k: nat)
    requires n < Pow256(k)
    ensures FromLittleEndian(LittleEndian(n, k)) == n
  {
    if k > 0 {
      LittleEndianRoundTrip(n / 256, k - 1);
    }
  }

  lemma Pow256Positive(k: nat)
    ensures Pow256(k) > 0
  {
  }

  /** Byte `j` of a number is what is left of it after division by 256 to the `j`, modulo 256. */
  lemma {:induction false} LittleEndianAt(n: nat, k: nat, j: nat)
    requires j < k
    ensures Pow256(j) > 0 && LittleEndian(n, k)[j] == n / Pow256(j) % 256
  {
    Pow256Positive(j);
    if j > 0 {
      LittleEndianAt(n / 256, k - 1, j - 1);
      DividedTwice(n, Pow256(j - 1));
    }
  }

  lemma DividedTwice(n: nat, m: nat)
    requires m > 0
    ensures n / 256 / m == n / (256 * m)
  {
    var q, a, b := n / 256 / m, n / 256 % m, n % 256;
    DivMod(n / 256, m);
    assert n == 256 * (q * m + a) + b == q * (256 * m) + (256 * a + b);
    DivModUnique(n, 256 * m, q, 256 * a + b);
  }

  lemma {:induction false} ZerosAreZero(k: nat)
    ensures FromLittleEndian(Zeros(k)) == 0
  {
    if k > 0 {
      assert Zeros(k)[1..] == Zeros(k - 1);
      ZerosAreZero(k - 1);
    }
  }

  ghost predicate GoodName(name: seq<byte>) {
    |name| <= FILE_NAME_LENGTH && forall i :: 0 <= i < |name| ==> name[i] != 0
  }

  datatype Entry = Entry(name: seq<byte>, inodeNo: nat)

  /** An entry that a signature can hold. */
  ghost predicate GoodEntry(e: Entry) {
    GoodName(e.name) && 0 < e.inodeNo < Pow256(8)
  }

  /** The record written for an entry: the name, padded with zeros, and the inode number. */
  function Encode(e: Entry): (s: seq<byte>)
    requires |e.name| <= FILE_NAME_LENGTH
    ensures |s| == SIGNATURE_SIZE
  {
    e.name + Zeros(NAME_AREA - |e.name|) + LittleEndian(e.inodeNo, 8)
  }

  /** The bytes of a record: the name, zeros up to byte 240, and the inode number, least significant byte first. */
  lemma RecordBytes(e: Entry, k: nat)
    requires |e.name| <= FILE_NAME_LENGTH && k < 248
    ensures k < |e.name| ==> Encode(e)[k] == e.name[k]
    ensures |e.name| <= k < 240 ==> Encode(e)[k] == 0
    ensures k >= 240 ==> Pow256(k - 240) > 0 && Encode(e)[k] == e.inodeNo / Pow256(k - 240) % 256
  {
    if k >= 240 {
      LittleEndianAt(e.inodeNo, 8, k - 240);
    }
  }

  function NameOf(s: seq<byte>): seq<byte>
    requires |s| == SIGNATURE_SIZE
  {
    CString(s[..NAME_AREA])
  }

  function InodeOf(s: seq<byte>): nat
    requires |s| == SIGNATURE_SIZE
  {
    FromLittleEndian(s[NAME_AREA..])
  }

  /** Reading a record back gives the entry. */
  lemma EncodeRoundTrip(e: Entry)
    requires GoodEntry(e)
    ensures NameOf(Encode(e)) == e.name && InodeOf(Encode(e)) == e.inodeNo
  {
    var s := Encode(e);
    assert s[..NAME_AREA] == e.name + Zeros(NAME_AREA - |e.name|);
    assert s[NAME_AREA..] == LittleEndian(e.inodeNo, 8);
    CStringPadded(e.name, NAME_AREA - |e.name|);
    LittleEndianRoundTrip(e.inodeNo, 8);
  }

  /** Two entries with the same record are the same entry. */
  lemma EncodeInjective(e: Entry, f: Entry)
    requires GoodEntry(e) && GoodEntry(f)
    requires Encode(e) == Encode(f)
    ensures e == f
  {
    EncodeRoundTrip(e);
    EncodeRoundTrip(f);
  }

  /** A record is in use for `name`. */
  predicate Matches(s: seq<byte>, name: seq<byte>)
    requires |s| == SIGNATURE_SIZE
  {
    NameOf(s) == name && InodeOf(s) != 0
  }

  lemma BlankMatchesNothing(s: seq<byte>, name: seq<byte>)
    requires |s| == SIGNATURE_SIZE
    requires s[NAME_AREA..] == Zeros(8)
    ensures !Matches(s, name)
  {
    ZerosAreZero(8);
  }

  /** The `t`-th record of a block's payload. */
  function Slot(data: seq<byte>, t: nat): (s: seq<byte>)
    requires (t + 1) * SIGNATURE_SIZE <= |data|
    ensures |s| == SIGNATURE_SIZE
  {
    data[t * SIGNATURE_SIZE..(t + 1) * SIGNATURE_SIZE]
  }

  /** The inode number of the first record from `t` on, among the first `n`, that is in use for `name`; 0 if there is
      none. */
  function FirstMatch(data: seq<byte>, name: seq<byte>, t: nat, n: nat): nat
    requires n * SIGNATURE_SIZE <= |data|
    decreases n - t
  {
    if t >= n then 0
    else if Matches(Slot(data, t), name) then InodeOf(Slot(data, t))
    else FirstMatch(data, name, t + 1, n)
  }

  /** Looks through the records of a directory block, byte offset by byte offset. */
  method FindInBlock(data: seq<byte>, blockSize: nat, name: seq<byte>) returns (inodeNo: nat)
    requires blockSize >= 256 && |data| == blockSize - 8
    ensures inodeNo == FirstMatch(data, name, 0, |data| / SIGNATURE_SIZE)
  {
    var i := 0;
    ghost var t: nat := 0;
    while i <= blockSize - SIGNATURE_SIZE - 8
      invariant i == t * SIGNATURE_SIZE && t <= |data| / SIGNATURE_SIZE
      invariant FirstMatch(data, name, t, |data| / SIGNATURE_SIZE) == FirstMatch(data, name, 0, |data| / SIGNATURE_SIZE)
      decreases |data| - i
    {
      var signature := data[i..i + SIGNATURE_SIZE];
      assert signature == Slot(data, t);
      if NameOf(signature) == name && InodeOf(signature) != 0 {
        return InodeOf(signature);
      }
      i := i + SIGNATURE_SIZE;
      t := t + 1;
    }
    return 0;
  }

  /** Tells whether no record of a block is in use for `name`. The count of records comes from the whole block, link
      field included, so the block size must not make it one too many. */
  method CheckDuplicateFileNamesInBlock(data: seq<byte>, blockSize: nat, name: seq<byte>) returns (isNew: bool)
    requires blockSize >= 256 && |data| == blockSize - 8
    requires blockSize / SIGNATURE_SIZE == |data| / SIGNATURE_SIZE
    ensures isNew <==> FirstMatch(data, name, 0, |data| / SIGNATURE_SIZE) == 0
  {
    for i := 0 to blockSize / SIGNATURE_SIZE
      invariant FirstMatch(data, name, i, |data| / SIGNATURE_SIZE) == FirstMatch(data, name, 0, |data| / SIGNATURE_SIZE)
    {
      var signature := Slot(data, i);
      if InodeOf(signature) == 0 {
        continue;
      }
      if NameOf(signature) == name {
        return false;
      }
    }
    return true;
  }
}
