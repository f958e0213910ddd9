/** Directories: where their records lie, and how a lookup finds them. */
module Directory {
  import opened Arith
  import opened Chains
  import opened Store
  import opened Signature

  /** How many records a block of `r` payload bytes holds. */
  function SlotsPerBlock(r: nat): nat {
    r / SIGNATURE_SIZE
  }

  /** The file offset of the `k`-th record. */
  function RecordOffset(r: nat, k: nat): nat
    requires r >= SIGNATURE_SIZE
  {
    k / SlotsPerBlock(r) * r + k % SlotsPerBlock(r) * SIGNATURE_SIZE
  }

  /** The size of a directory of `n` records. */
  function DirSize(r: nat, n: nat): nat
    requires r >= SIGNATURE_SIZE
  {
    if n == 0 then 0 else RecordOffset(r, n - 1) + SIGNATURE_SIZE
  }

  /** Where an append of `len` bytes to a file of `size` bytes goes: a record that does not fit in the rest of the
      last block starts a new one. */
  function AppendOffset(r: nat, size: nat, len: nat): nat
    requires r > 0
  {
    if r - size % r < len then size + (r - size % r) else size
  }

  /** An append goes to the first place behind the content from which the buffer fits into one block. */
  lemma AppendFits(r: nat, size: nat, len: nat)
    requires 0 < len <= r
    ensures var off := AppendOffset(r, size, len);
      && size <= off && off % r + len <= r
      && forall p :: size <= p < off ==> p % r + len > r
  {
    DivMod(size, r);
    var q, m := size / r, size % r;
    MulNext(q, r);
    if r - m < len {
      DivModUnique(q * r + r, r, q + 1, 0);
      forall p | size <= p < q * r + r ensures p % r + len > r {
        DivModUnique(p, r, q, p - q * r);
      }
    }
  }

  lemma RecordSpot(r: nat, k: nat)
    requires r >= SIGNATURE_SIZE
    ensures k == k / SlotsPerBlock(r) * SlotsPerBlock(r) + k % SlotsPerBlock(r)
    ensures 0 <= k % SlotsPerBlock(r) < SlotsPerBlock(r)
    ensures (k % SlotsPerBlock(r) + 1) * SIGNATURE_SIZE <= r < (SlotsPerBlock(r) + 1) * SIGNATURE_SIZE
    ensures RecordOffset(r, k) % r == k % SlotsPerBlock(r) * SIGNATURE_SIZE
    ensures RecordOffset(r, k) / r == k / SlotsPerBlock(r)
  {
    DivMod(k, SlotsPerBlock(r));
    DivModUnique(RecordOffset(r, k), r, k / SlotsPerBlock(r), k % SlotsPerBlock(r) * SIGNATURE_SIZE);
  }

  /** Consecutive records: the next slot of the same block, or the first of the next block. */
  lemma NextRecord(r: nat, k: nat)
    requires r >= SIGNATURE_SIZE
    ensures if k % SlotsPerBlock(r) + 1 < SlotsPerBlock(r) then
              RecordOffset(r, k + 1) == RecordOffset(r, k) + SIGNATURE_SIZE
            else
              k % SlotsPerBlock(r) + 1 == SlotsPerBlock(r)
              && RecordOffset(r, k + 1) == (k / SlotsPerBlock(r) + 1) * r
  {
    hide SlotsPerBlock;
    PlacesPositive(r);
    SpotAfter(k, SlotsPerBlock(r));
  }

  lemma PlacesPositive(r: nat)
    requires r >= SIGNATURE_SIZE
    ensures SlotsPerBlock(r) > 0
  {
  }

  /** Counting on by one in rows of `s`. */
  lemma SpotAfter(k: nat, s: nat)
    requires s > 0
    ensures if k % s + 1 < s then (k + 1) / s == k / s && (k + 1) % s == k % s + 1
            else k % s + 1 == s && (k + 1) / s == k / s + 1 && (k + 1) % s == 0
  {
    DivMod(k, s);
    SpotNext(k, s, k / s, k % s);
  }

  lemma SpotNext(k: nat, s: nat, q: nat, m: nat)
    requires m < s && k == q * s + m
    ensures m + 1 < s ==> (k + 1) / s == q && (k + 1) % s == m + 1
    ensures m + 1 == s ==> (k + 1) / s == q + 1 && (k + 1) % s == 0
  {
    MulNext(q, s);
    if m + 1 < s {
      DivModUnique(k + 1, s, q, m + 1);
    } else {
      DivModUnique(k + 1, s, q + 1, 0);
    }
  }

  /** An append to a directory of `n` records lands on the spot of record `n`. */
  lemma AppendHitsNextRecord(r: nat, n: nat)
    requires r >= SIGNATURE_SIZE
    ensures AppendOffset(r, DirSize(r, n), SIGNATURE_SIZE) == RecordOffset(r, n)
  {
    if n == 0 {
      DivModUnique(0, SlotsPerBlock(r), 0, 0);
      DivModUnique(0, r, 0, 0);
    } else {
      RecordEnd(r, n - 1);
      NextRecord(r, n - 1);
      RecordSpot(r, n - 1);
      hide SlotsPerBlock, RecordOffset, AppendOffset;
      NextPlace(r, SlotsPerBlock(r), (n - 1) / SlotsPerBlock(r), (n - 1) % SlotsPerBlock(r), DirSize(r, n));
    }
  }

  /** An append behind record `t` of block `q` goes to the next place there, if there is one, or else to the next
      block. */
  lemma NextPlace(r: nat, s: nat, q: nat, t: nat, size: nat)
    requires t < s && s * SIGNATURE_SIZE <= r < (s + 1) * SIGNATURE_SIZE
    requires size == q * r + (t + 1) * SIGNATURE_SIZE
    requires size % r == if (t + 1) * SIGNATURE_SIZE == r then 0 else (t + 1) * SIGNATURE_SIZE
    ensures AppendOffset(r, size, SIGNATURE_SIZE) == if t + 1 < s then size else (q + 1) * r
  {
    assert (q + 1) * r == q * r + r;
  }

  /** The end of a record, relative to its block. */
  lemma RecordEnd(r: nat, k: nat)
    requires r >= SIGNATURE_SIZE
    ensures var t := k % SlotsPerBlock(r);
      && (t + 1) * SIGNATURE_SIZE <= r
      && RecordOffset(r, k) + SIGNATURE_SIZE == k / SlotsPerBlock(r) * r + (t + 1) * SIGNATURE_SIZE
      && (RecordOffset(r, k) + SIGNATURE_SIZE) % r == if (t + 1) * SIGNATURE_SIZE == r then 0
         else (t + 1) * SIGNATURE_SIZE
  {
    RecordSpot(r, k);
    var q, t := k / SlotsPerBlock(r), k % SlotsPerBlock(r);
    if (t + 1) * SIGNATURE_SIZE == r {
      assert RecordOffset(r, k) + SIGNATURE_SIZE == (q + 1) * r;
      DivModUnique(RecordOffset(r, k) + SIGNATURE_SIZE, r, q + 1, 0);
    } else {
      DivModUnique(RecordOffset(r, k) + SIGNATURE_SIZE, r, q, (t + 1) * SIGNATURE_SIZE);
    }
  }

  /** A directory of `n` records fills its blocks exactly, which the block count of a write gets wrong, only when the
      payload is a whole number of records and the last block is full. */
  lemma FullDirectory(r: nat, n: nat)
    requires r >= SIGNATURE_SIZE && n > 0
    ensures DirSize(r, n) % r == 0 <==> r % SIGNATURE_SIZE == 0 && n % SlotsPerBlock(r) == 0
  {
    hide RecordOffset;
    RecordEnd(r, n - 1);
    var s, t := SlotsPerBlock(r), (n - 1) % SlotsPerBlock(r);
    PlacesPositive(r);
    SpotAfter(n - 1, s);
    PayloadParts(r, s, t);
  }

  /** The records of a block and what they leave. */
  lemma PayloadParts(r: nat, s: nat, t: nat)
    requires s == SlotsPerBlock(r) && t < s
    ensures (t + 1) * SIGNATURE_SIZE == r <==> r % SIGNATURE_SIZE == 0 && t + 1 == s
  {
    assert r == s * SIGNATURE_SIZE + r % SIGNATURE_SIZE;
  }

  lemma {:induction false} RecordsIncrease(r: nat, i: nat, j: nat)
    requires r >= SIGNATURE_SIZE && i < j
    ensures RecordOffset(r, i) + SIGNATURE_SIZE <= RecordOffset(r, j)
  {
    RecordSpot(r, j - 1);
    NextRecord(r, j - 1);
    MulNext((j - 1) / SlotsPerBlock(r), r);
    if i < j - 1 {
      RecordsIncrease(r, i, j - 1);
    }
  }

  ghost predicate GoodEntries(entries: seq<Entry>) {
    forall k :: 0 <= k < |entries| ==> GoodEntry(entries[k])
  }

  /** The bytes of a directory are the records of its entries, each on its spot. */
  ghost predicate DirHolds(r: nat, content: seq<byte>, entries: seq<Entry>) {
    && r >= SIGNATURE_SIZE && GoodEntries(entries)
    && |content| == DirSize(r, |entries|)
    && forall k :: 0 <= k < |entries| ==> RecordAt(r, content, k) == Encode(entries[k])
  }

  /** What stands on the spot of record `k`. */
  ghost function RecordAt(r: nat, content: seq<byte>, k: nat): seq<byte>
    requires r >= SIGNATURE_SIZE
  {
    if RecordOffset(r, k) + SIGNATURE_SIZE <= |content| then
        content[RecordOffset(r, k)..RecordOffset(r, k) + SIGNATURE_SIZE] else []
  }

  /** What stands in slot `k % SlotsPerBlock` of block `k / SlotsPerBlock` of a chain. */
  ghost function SlotOfChain(r: nat, disk: seq<Block>, c: seq<nat>, k: nat): seq<byte>
    requires r >= SIGNATURE_SIZE && BlocksOk(r, disk) && InRange(disk, c)
    requires k / SlotsPerBlock(r) < |c|
  {
    RecordSpot(r, k);
    Slot(disk[c[k / SlotsPerBlock(r)]].data, k % SlotsPerBlock(r))
  }

  lemma SlotAt(r: nat, disk: seq<Block>, c: seq<nat>, j: nat, t: nat)
    requires BlocksOk(r, disk) && InRange(disk, c) && j < |c| && (t + 1) * SIGNATURE_SIZE <= r
    ensures var at := j * r + t * SIGNATURE_SIZE;
      at + SIGNATURE_SIZE <= |Flat(disk, c)| && Slot(disk[c[j]].data, t) == Flat(disk, c)[at..at + SIGNATURE_SIZE]
  {
    hide Flat;
    FlatAt(r, disk, c, j, t * SIGNATURE_SIZE, (t + 1) * SIGNATURE_SIZE);
  }

  /** A slot of the chain is the record on that spot of the flat bytes. */
  lemma SlotIsRecord(r: nat, disk: seq<Block>, c: seq<nat>, k: nat)
    requires r >= SIGNATURE_SIZE && BlocksOk(r, disk) && InRange(disk, c)
    requires k / SlotsPerBlock(r) < |c|
    ensures SlotOfChain(r, disk, c, k) == RecordAt(r, Flat(disk, c), k)
  {
    RecordSpot(r, k);
    SlotAt(r, disk, c, k / SlotsPerBlock(r), k % SlotsPerBlock(r));
    hide Flat, SlotsPerBlock, Slot;
  }

  /** The slots of a chain hold the records of `entries` and then nothing. */
  ghost predicate SlotsHold(r: nat, disk: seq<Block>, c: seq<nat>, entries: seq<Entry>) {
    && r >= SIGNATURE_SIZE && BlocksOk(r, disk) && InRange(disk, c) && GoodEntries(entries)
    && |entries| <= |c| * SlotsPerBlock(r)
    && forall k: nat :: k / SlotsPerBlock(r) < |c| ==>
         SlotOfChain(r, disk, c, k) == if k < |entries| then Encode(entries[k]) else Zeros(SIGNATURE_SIZE)
  }

  /** A directory file whose content holds the entries has slots that hold them. */
  lemma DirSlots(r: nat, disk: seq<Block>, c: seq<nat>, size: nat, entries: seq<Entry>)
    requires BlocksOk(r, disk) && InRange(disk, c)
    requires r >= SIGNATURE_SIZE && |c| == CeilDiv(size, r)
    requires size <= |Flat(disk, c)| && forall p :: size <= p < |Flat(disk, c)| ==> Flat(disk, c)[p] == 0
    requires DirHolds(r, Flat(disk, c)[..size], entries)
    ensures SlotsHold(r, disk, c, entries)
  {
    hide Flat, CeilDiv, Encode;
    var flat, s := Flat(disk, c), SlotsPerBlock(r);
    FlatLength(r, disk, c);
    forall k: nat | k / s < |c|
      ensures SlotOfChain(r, disk, c, k) == if k < |entries| then Encode(entries[k]) else Zeros(SIGNATURE_SIZE)
    {
      SlotIsRecord(r, disk, c, k);
      RecordInChain(r, |c|, k);
      if k < |entries| {
        assert RecordAt(r, flat[..size], k) == Encode(entries[k]);
        if k < |entries| - 1 {
          RecordsIncrease(r, k, |entries| - 1);
        }
      } else if |entries| > 0 {
        RecordsIncrease(r, |entries| - 1, k);
      }
    }
    EntriesFit(r, |entries|, |c|);
  }

  lemma RecordInChain(r: nat, blocks: nat, k: nat)
    requires r >= SIGNATURE_SIZE && k / SlotsPerBlock(r) < blocks
    ensures RecordOffset(r, k) + SIGNATURE_SIZE <= blocks * r
  {
    RecordSpot(r, k);
    RecordEnd(r, k);
    MulMonotone(k / SlotsPerBlock(r) + 1, blocks, r);
  }

  lemma EntriesFit(r: nat, n: nat, blocks: nat)
    requires r >= SIGNATURE_SIZE
    requires blocks == CeilDiv(DirSize(r, n), r)
    ensures n <= blocks * SlotsPerBlock(r)
  {
    if n > 0 {
      hide CeilDiv, SlotsPerBlock, DirSize;
      var q, t := LastPlace(r, n);
      CeilDivBounds(DirSize(r, n), r);
      PlacesInBlocks(r, SlotsPerBlock(r), q, t, n, DirSize(r, n), blocks);
    }
  }

  /** The block of the last of `n` records, and its place there. */
  lemma LastPlace(r: nat, n: nat) returns (q: nat, t: nat)
    requires r >= SIGNATURE_SIZE && n > 0
    ensures n == q * SlotsPerBlock(r) + t + 1 && t < SlotsPerBlock(r)
    ensures DirSize(r, n) == q * r + (t + 1) * SIGNATURE_SIZE
  {
    RecordEnd(r, n - 1);
    RecordSpot(r, n - 1);
    q, t := (n - 1) / SlotsPerBlock(r), (n - 1) % SlotsPerBlock(r);
  }

  lemma PlacesInBlocks(r: nat, s: nat, q: nat, t: nat, n: nat, size: nat, blocks: nat)
    requires n == q * s + t + 1 && t < s && size == q * r + (t + 1) * SIGNATURE_SIZE && size <= blocks * r
    ensures n <= blocks * s
  {
    if blocks <= q {
      MulMonotone(blocks, q, r);
    }
    assert (q + 1) * s == q * s + s;
    MulMonotone(q + 1, blocks, s);
  }

  /** The inode number of the first entry from `k` on with that name; 0 if there is none. */
  ghost function FindFrom(entries: seq<Entry>, name: seq<byte>, k: nat): nat
    decreases |entries| - k
  {
    if k >= |entries| then 0
    else if entries[k].name == name then entries[k].inodeNo
    else FindFrom(entries, name, k + 1)
  }

  /** The entries have inode numbers. */
  ghost predicate Numbered(entries: seq<Entry>) {
    forall k :: 0 <= k < |entries| ==> entries[k].inodeNo != 0
  }

  /** A name is found exactly when some entry has it; if names are distinct, what is found is that entry's inode. */
  lemma {:induction false} FoundIffPresent(entries: seq<Entry>, name: seq<byte>, k: nat)
    requires Numbered(entries)
    ensures FindFrom(entries, name, k) != 0 <==> exists i :: k <= i < |entries| && entries[i].name == name
    ensures forall i :: k <= i < |entries| && entries[i].name == name && DistinctNames(entries) ==>
              FindFrom(entries, name, k) == entries[i].inodeNo
    decreases |entries| - k
  {
    if k < |entries| && entries[k].name != name {
      FoundIffPresent(entries, name, k + 1);
    }
  }

  ghost predicate DistinctNames(entries: seq<Entry>) {
    forall i, j :: 0 <= i < j < |entries| ==> entries[i].name != entries[j].name
  }

  /** The first use of `name` in the blocks of `c` from the `b`-th on. */
  ghost function LookupFrom(r: nat, disk: seq<Block>, c: seq<nat>, name: seq<byte>, b: nat): nat
    requires BlocksOk(r, disk) && InRange(disk, c)
    decreases |c| - b
  {
    if b >= |c| then 0
    else
      var found := FirstMatch(disk[c[b]].data, name, 0, SlotsPerBlock(r));
      if found != 0 then found else LookupFrom(r, disk, c, name, b + 1)
  }

  /** The scan of one block agrees with the entries whose records it holds. */
  lemma {:induction false} BlockAgrees(r: nat, disk: seq<Block>, c: seq<nat>, entries: seq<Entry>, name: seq<byte>,
                                       b: nat, t: nat)
    requires SlotsHold(r, disk, c, entries)
    requires b < |c| && t <= SlotsPerBlock(r)
    ensures var found := FirstMatch(disk[c[b]].data, name, t, SlotsPerBlock(r));
      FindFrom(entries, name, b * SlotsPerBlock(r) + t)
      == if found != 0 then found else FindFrom(entries, name, (b + 1) * SlotsPerBlock(r))
    decreases SlotsPerBlock(r) - t
  {
    hide Encode, NameOf, InodeOf;
    var s := SlotsPerBlock(r);
    assert (b + 1) * s == b * s + s;
    if t < s {
      var k := b * s + t;
      DivModUnique(k, s, b, t);
      assert SlotOfChain(r, disk, c, k) == Slot(disk[c[b]].data, t);
      if k < |entries| {
        assert GoodEntry(entries[k]);
        EncodeRoundTrip(entries[k]);
      } else {
        BlankMatchesNothing(Zeros(SIGNATURE_SIZE), name);
      }
      BlockAgrees(r, disk, c, entries, name, b, t + 1);
    }
  }

  /** Looking a name up in the blocks of a directory finds what its entries say. */
  lemma {:induction false} LookupAgrees(r: nat, disk: seq<Block>, c: seq<nat>, entries: seq<Entry>, name: seq<byte>,
                                        b: nat)
    requires SlotsHold(r, disk, c, entries)
    requires b <= |c|
    ensures LookupFrom(r, disk, c, name, b) == FindFrom(entries, name, b * SlotsPerBlock(r))
    decreases |c| - b
  {
    if b < |c| {
      BlockAgrees(r, disk, c, entries, name, b, 0);
      LookupAgrees(r, disk, c, entries, name, b + 1);
    }
  }

  /** An overlay past the end keeps what was there and puts the new bytes after it. */
  lemma OverlayPastEnd(s: seq<byte>, off: nat, d: seq<byte>)
    requires |s| <= off
    ensures |Overlay(s, off, |d|, d)| == off + |d|
    ensures Overlay(s, off, |d|, d)[off..off + |d|] == d
    ensures Overlay(s, off, |d|, d)[..|s|] == s
  {
  }

  lemma SamePiece(s: seq<byte>, t: seq<byte>, a: nat, b: nat)
    requires a <= b <= |s| <= |t| && t[..|s|] == s
    ensures t[a..b] == s[a..b]
  {
    forall i | 0 <= i < b - a ensures t[a..b][i] == s[a..b][i] {
      assert t[..|s|][a + i] == s[a + i];
    }
  }

  /** Records before the end of a directory's content stay as they are when something is laid over it behind. */
  lemma RecordStays(r: nat, content: seq<byte>, entries: seq<Entry>, now: seq<byte>, k: nat)
    requires DirHolds(r, content, entries) && k < |entries|
    requires |content| <= |now| && now[..|content|] == content
    ensures RecordAt(r, now, k) == Encode(entries[k])
  {
    hide Encode, RecordOffset;
    var n := |entries|;
    if k < n - 1 {
      RecordsIncrease(r, k, n - 1);
    }
    assert RecordAt(r, content, k) == Encode(entries[k]);
    SamePiece(content, now, RecordOffset(r, k), RecordOffset(r, k) + SIGNATURE_SIZE);
  }

  /** Laying the record of `e` over a directory's content at the append offset adds the entry. */
  lemma AppendHolds(r: nat, content: seq<byte>, entries: seq<Entry>, e: Entry)
    requires DirHolds(r, content, entries) && GoodEntry(e)
    ensures DirHolds(r, Overlay(content, AppendOffset(r, |content|, SIGNATURE_SIZE), SIGNATURE_SIZE, Encode(e)),
            entries + [e])
  {
    hide RecordOffset, Overlay, AppendOffset;
    var n := |entries|;
    AppendHitsNextRecord(r, n);
    if n > 0 {
      RecordsIncrease(r, n - 1, n);
    }
    var off := RecordOffset(r, n);
    var now := Overlay(content, off, SIGNATURE_SIZE, Encode(e));
    OverlayPastEnd(content, off, Encode(e));
    forall k | 0 <= k < n ensures RecordAt(r, now, k) == Encode(entries[k]) {
      RecordStays(r, content, entries, now, k);
    }
    assert RecordAt(r, now, n) == Encode(e);
  }
}
