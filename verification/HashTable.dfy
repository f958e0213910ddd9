/** The hash table: a list of items in the order of insertion, threaded through buckets that double on demand. */
module HashTable {
  import opened Arith
  import opened Wrappers
  import opened Bits
  import opened Bitmap
  import opened MergeSort
  import opened HashItems
  import opened ListSort
  import opened Buckets

  const HASH_INITIAL_NUM_BUCKETS: nat := 32
  const HASH_INITIAL_NUM_BUCKETS_LOG2: nat := 5
  const HASH_BKT_CAPACITY_THRESH: nat := 10

  /** The bit of the Bloom filter for a hash value. */
  function BloomBit(nbits: nat, hashv: nat): nat {
    And(hashv, Pow2(nbits) - 1)
  }

  /** The filter has a bit for every index, and those of the items are set. */
  ghost predicate Filtered(h: HashFunction, nbits: Option<nat>, bloom: seq<bv8>, items: seq<Item>) {
    nbits.Some? ==>
      && Pow2(nbits.value) <= 8 * |bloom|
      && forall k :: 0 <= k < |items| ==> Marked(bloom, BloomBit(nbits.value, h(items[k].key)))
  }

  /** Links an item behind the last one. */
  method AppendItem(x: Item, tail: Item?, ghost items: seq<Item>)
    requires Listed(items) && tail == At(items, |items| - 1) && x !in items && Distinct(items)
    modifies x`next, x`prev, Just(tail)`next
    ensures Listed(items + [x])
  {
    x.next := null;
    if tail != null {
      tail.next := x;
    }
    x.prev := tail;
    ghost var all, n := items + [x], |items|;
    forall k | 0 <= k <= n ensures all[k].next == At(all, k + 1) && all[k].prev == At(all, k - 1) {
      assert k < n ==> all[k] == items[k] && items[k] != x;
      assert k < n - 1 ==> items[k] != items[n - 1];
    }
  }

  /** Takes an item out of the list: its neighbours are linked to each other. */
  method RemoveItem(x: Item, ghost items: seq<Item>, ghost k: nat)
    requires Listed(items) && k < |items| && x == items[k] && Distinct(items)
    modifies Just(At(items, k - 1))`next, Just(At(items, k + 1))`prev
    ensures Listed(Without(items, k))
  {
    assert x.next == At(items, k + 1) && x.prev == At(items, k - 1);
    if x.prev != null {
      x.prev.next := x.next;
    }
    if x.next != null {
      x.next.prev := x.prev;
    }
    ghost var rest := Without(items, k);
    forall i | 0 <= i < |rest| ensures rest[i].next == At(rest, i + 1) && rest[i].prev == At(rest, i - 1) {
      NeighboursWithout(items, k, i);
    }
  }

  /** Adding a hash value to the filter sets its bit and keeps the others. */
  method BloomAdd(bloom: array<bv8>, nbits: nat, hashv: nat)
    requires Pow2(nbits) <= 8 * bloom.Length
    modifies bloom
    ensures forall b: nat :: Marked(bloom[..], b) <==> b == hashv % Pow2(nbits) || Marked(old(bloom[..]), b)
  {
    MaskIsMod(hashv, nbits);
    var bit := BloomBit(nbits, hashv);
    ghost var was := bloom[..];
    bloom[bit / 8] := bloom[bit / 8] | Bit(bit % 8);
    assert bloom[..] == Mark(was, bit);
    forall b: nat ensures Marked(bloom[..], b) <==> b == bit || Marked(was, b) {
      MarkOne(was, bit, b);
    }
  }

  class HashTable {
    const hash: HashFunction
    const bloomNbits: Option<nat>
    var head: Item?
    var tail: Item?
    var buckets: array<Bucket>
    var numBuckets: nat
    var log2NumBuckets: nat
    var numItems: nat
    var idealChainMaxlen: nat
    var nonidealItems: nat
    var ineffExpands: nat
    var noexpand: bool
    var bloom: array<bv8>
    ghost var items: seq<Item>
    ghost var chains: seq<seq<Item>>

    /** The list of the items in the order of insertion. */
    ghost predicate ListOk()
      reads this`items, this`head, this`tail, items`next, items`prev
    {
      Distinct(items) && Listed(items) && head == At(items, 0) && tail == At(items, |items| - 1)
    }

    /** The sizes of the bucket array and of the table. */
    ghost predicate SizesOk()
      reads this`numItems, this`numBuckets, this`log2NumBuckets, this`buckets, this`bloom, this`items, this`chains
    {
      && numItems == |items|
      && numBuckets == buckets.Length == |chains| == Pow2(log2NumBuckets)
      && buckets as object != bloom
    }

    /** The buckets and the filter of a table that is not empty; an empty table has none. */
    ghost predicate TableOk()
      reads this`numItems, this`numBuckets, this`log2NumBuckets, this`buckets, this`bloom, this`items, this`chains
      reads items`hhNext, items`hhPrev, items`hashv, buckets, bloom
    {
      && SizesOk() && Hashed(hash, items)
      && BucketsOk(hash, buckets[..], chains, items) && Complete(hash, chains, items)
      && Filtered(hash, bloomNbits, bloom[..], items)
    }

    /** The table, but for its last item, which is not in its bucket and in the filter yet. */
    ghost predicate LastMissing()
      reads this`numItems, this`numBuckets, this`log2NumBuckets, this`buckets, this`bloom, this`items, this`chains
      reads items`hhNext, items`hhPrev, items`hashv, buckets, bloom
    {
      && items != [] && SizesOk() && Hashed(hash, items)
      && BucketsOk(hash, buckets[..], chains, items) && Complete(hash, chains, items[..|items| - 1])
      && (forall b :: 0 <= b < |chains| ==> items[|items| - 1] !in chains[b])
      && Filtered(hash, bloomNbits, bloom[..], items[..|items| - 1])
      && (bloomNbits.Some? ==> Pow2(bloomNbits.value) <= 8 * bloom.Length)
    }

    ghost predicate Valid()
      reads this, items, buckets, bloom
    {
      ListOk() && (items != [] ==> TableOk())
    }

    /** A table without items. */
    constructor (hash: HashFunction, bloomNbits: Option<nat>)
      ensures Valid() && items == [] && this.hash == hash && this.bloomNbits == bloomNbits
    {
      this.hash, this.bloomNbits := hash, bloomNbits;
      head, tail := null, null;
      buckets := new Bucket[0](_ => Bucket(null, 0, 0));
      bloom := new bv8[0];
      numBuckets, log2NumBuckets, numItems := 0, 0, 0;
      idealChainMaxlen, nonidealItems, ineffExpands, noexpand := 0, 0, 0, false;
      items, chains := [], [];
    }

    /** The first item with a key, if there is one: the Bloom filter is asked first. */
    method Find(key: seq<byte>) returns (out: Item?)
      requires Valid()
      ensures out != null <==> exists x :: x in items && x.key == key
      ensures out != null ==> out in items && out.key == key
    {
      hide BucketsOk, Complete, Filtered, Hashed, Listed, Distinct, And, Pow2, FirstWithKey, Chained;
      out := null;
      if head != null {
        var hashv := hash(key);
        var bkt := And(hashv, numBuckets - 1);
        KeyInBucket(hash, buckets[..], chains, items, key, log2NumBuckets);
        var maybe := true;
        if bloomNbits.Some? {
          maybe := BloomTest(hashv);
        }
        if maybe {
          out := FindInBucket(buckets[bkt].hhHead, key, chains[bkt]);
        }
        FirstWithKeyFound(chains[bkt], key);
      }
    }

    /** Tests the filter for a hash value; it answers yes for every item of the table. */
    method BloomTest(hashv: nat) returns (maybe: bool)
      requires TableOk() && bloomNbits.Some?
      ensures maybe == Marked(bloom[..], hashv % Pow2(bloomNbits.value))
      ensures !maybe ==> forall x :: x in items ==> hash(x.key) != hashv
    {
      MaskIsMod(hashv, bloomNbits.value);
      var bit := BloomBit(bloomNbits.value, hashv);
      maybe := TestBit(bloom[bit / 8], bit % 8);
      assert maybe == Marked(bloom[..], bit);
    }

    /** Adds an item at the end of the list and to its bucket; the first one makes the table. */
    method Add(add: Item)
      requires Valid() && add !in items
      modifies this, add, items, buckets, bloom
      ensures Valid() && items == old(items) + [add]
      ensures old(items) != [] ==> (buckets == old(buckets) || fresh(buckets)) && bloom == old(bloom)
      ensures old(items) == [] ==> fresh(buckets) && fresh(bloom)
      ensures old(items) == [] ==> numBuckets == HASH_INITIAL_NUM_BUCKETS
      ensures bloomNbits.Some? ==> forall b: nat ::
                (Marked(bloom[..], b)
                 <==> b == hash(add.key) % Pow2(bloomNbits.value) || (old(items) != [] && Marked(old(bloom[..]), b)))
    {
      hide BucketsOk, Complete, Filtered, Hashed, Listed, Distinct;
      if head == null {
        MakeTable(add);
        InsertLast(add);
      } else {
        LinkLast(add);
        InsertLast(add);
      }
    }

    /** Deletes an item; with the last one goes the table. */
    method Delete(x: Item)
      requires Valid() && x in items
      modifies this`head, this`tail, this`numItems, this`items, this`chains, items, buckets
      ensures Valid() && items == Without(old(items), IndexOf(old(items), x))
      ensures forall b :: 0 <= b < buckets.Length ==> buckets[b].expandMult == old(buckets[b].expandMult)
    {
      hide BucketsOk, Complete, Filtered, Hashed, Listed, Distinct, IndexOf;
      ghost var k := IndexOf(items, x);
      ListedAt(items, k);
      if x.prev == null && x.next == null {
        NothingListed(items, k);
        head, tail := null, null;
        items := Without(items, k);
      } else {
        DropFromList(x, k);
        DropFromBucket(x, k);
      }
    }

    /** Takes an item out of the list; the record of the items follows later. */
    method DropFromList(x: Item, ghost k: nat)
      requires ListOk() && k < |items| && x == items[k] && |items| > 1
      modifies this`head, this`tail, items`next, items`prev
      ensures Distinct(Without(items, k)) && Listed(Without(items, k))
      ensures head == At(Without(items, k), 0) && tail == At(Without(items, k), |items| - 2)
    {
      hide Listed;
      ListedAt(items, k);
      if x == tail {
        LastIs(items, k);
        tail := x.prev;
      }
      if x.prev == null {
        head := x.next;
      }
      RemoveItem(x, items, k);
      WithoutDistinct(items, k);
    }

    /** Takes an item, already out of the list, out of its bucket and of the count. */
    method DropFromBucket(x: Item, ghost k: nat)
      requires TableOk() && k < |items| && x == items[k] && |items| > 1 && Distinct(items)
      requires Distinct(Without(items, k)) && Listed(Without(items, k))
      requires head == At(Without(items, k), 0) && tail == At(Without(items, k), |items| - 2)
      modifies this`numItems, this`items, this`chains, items`hhNext, items`hhPrev, buckets
      ensures Valid() && items == Without(old(items), k)
      ensures forall b :: 0 <= b < buckets.Length ==> buckets[b].expandMult == old(buckets[b].expandMult)
    {
      hide BucketsOk, Listed, Complete, Filtered, Hashed, Distinct, Pow2;
      TakeFromChain(x, k);
      numItems := numItems - 1;
      FewerHashed(hash, bloomNbits, bloom[..], items, k);
      items := Without(items, k);
    }

    /** Takes an item out of the chain of its bucket. */
    method TakeFromChain(x: Item, ghost k: nat)
      requires TableOk() && k < |items| && x == items[k] && Distinct(items)
      modifies this`chains, items`hhNext, items`hhPrev, buckets
      ensures |chains| == buckets.Length
      ensures BucketsOk(hash, buckets[..], chains, Without(items, k)) && Complete(hash, chains, Without(items, k))
      ensures forall b :: 0 <= b < buckets.Length ==> buckets[b].expandMult == old(buckets[b].expandMult)
    {
      hide Agree, Slotted, Complete, Filtered, Hashed, Distinct, And, Pow2, IndexOf;
      HashedAt(hash, items, k);
      var bkt := And(x.hashv, numBuckets - 1);
      MaskIsMod(x.hashv, log2NumBuckets);
      InItsChain(hash, chains, items, k);
      ghost var j := IndexOf(chains[bkt], x);
      Buckets.DelInBucket(hash, buckets, bkt, x, chains, items, j);
      OneLess(hash, buckets[..], chains, items, k, bkt, j);
      chains := chains[bkt := Without(chains[bkt], j)];
    }

    /** Replaces the item with the key of `add`, if there is one, which is answered; then adds `add`. */
    method Replace(add: Item) returns (replaced: Item?)
      requires Valid() && add !in items
      modifies this, add, items, buckets, bloom
      ensures Valid()
      ensures replaced != null <==> exists x :: x in old(items) && x.key == add.key
      ensures replaced != null ==> replaced in old(items) && replaced.key == add.key
      ensures (buckets == old(buckets) || fresh(buckets)) && (bloom == old(bloom) || fresh(bloom))
      ensures replaced == null ==> items == old(items) + [add]
      ensures replaced != null ==> items == Without(old(items), IndexOf<Item>(old(items), replaced)) + [add]
    {
      hide BucketsOk, Complete, Filtered, Hashed, Listed, Distinct;
      replaced := Find(add.key);
      if replaced != null {
        WithoutDistinct(items, IndexOf<Item>(items, replaced));
        Delete(replaced);
      }
      Add(add);
    }

    /** Sorts the list by a comparison function, in place; the buckets stay as they are. */
    method Sort(cmp: (Item, Item) -> int)
      requires Valid()
      modifies this`head, this`tail, this`items, items`next, items`prev
      ensures Valid() && items == Sorted(cmp, old(items), 1)
    {
      hide BucketsOk, Complete, Filtered, Hashed, Listed, Distinct, Sorted, Pow2;
      ghost var was := items;
      SortedPermutes(cmp, was, 1);
      if head != null {
        SortedTable(hash, bloomNbits, buckets[..], chains, bloom[..], was, cmp);
        items := Sorted(cmp, was, 1);
        head, tail := SortList(head, cmp, was);
      }
    }

    /** Makes a table for its first item. */
    method MakeTable(add: Item)
      requires Valid() && items == []
      modifies this, add
      ensures ListOk() && LastMissing() && items == [add] && fresh(buckets) && fresh(bloom)
      ensures buckets.Length == HASH_INITIAL_NUM_BUCKETS && ineffExpands == 0 && !noexpand
      ensures forall b :: 0 <= b < buckets.Length ==> buckets[b] == Bucket(null, 0, 0)
      ensures forall b: nat :: !Marked(bloom[..], b)
    {
      hide LastMissing, Marked, ListOk, Pow2, CeilDiv;
      var newBuckets := new Bucket[HASH_INITIAL_NUM_BUCKETS](_ => Bucket(null, 0, 0));
      var bits := new bv8[if bloomNbits.Some? then CeilDiv(Pow2(bloomNbits.value), 8) else 0](_ => 0);
      if bloomNbits.Some? {
        CeilDivBounds(Pow2(bloomNbits.value), 8);
      }
      ghost var none: seq<seq<Item>> := seq(HASH_INITIAL_NUM_BUCKETS, _ => []);
      add.next, add.prev, add.hashv := null, null, hash(add.key);
      idealChainMaxlen, nonidealItems, ineffExpands, noexpand := 0, 0, 0, false;
      SetTable(add, newBuckets, bits, none);
      NothingMarked(bloom[..]);
    }

    /** Fills in the fields of a new table. */
    method SetTable(add: Item, newBuckets: array<Bucket>, bits: array<bv8>, ghost none: seq<seq<Item>>)
      requires add.next == null && add.prev == null && add.hashv == hash(add.key)
      requires newBuckets.Length == |none| == HASH_INITIAL_NUM_BUCKETS && newBuckets as object != bits
      requires forall b :: 0 <= b < |none| ==> newBuckets[b] == Bucket(null, 0, 0) && none[b] == []
      requires bloomNbits.Some? ==> Pow2(bloomNbits.value) <= 8 * bits.Length
      modifies this`head, this`tail, this`numItems, this`numBuckets, this`log2NumBuckets, this`buckets, this`bloom,
               this`items, this`chains
      ensures ListOk() && LastMissing() && items == [add] && buckets == newBuckets && bloom == bits
    {
      hide BucketsOk, Complete, Pow2, Slot, Filtered, Listed, Distinct;
      Pow2Of5();
      NothingFiltered(hash, bloomNbits, bits[..]);
      head, tail, numItems := add, add, 1;
      numBuckets, log2NumBuckets := HASH_INITIAL_NUM_BUCKETS, HASH_INITIAL_NUM_BUCKETS_LOG2;
      buckets, bloom := newBuckets, bits;
      items, chains := [add], none;
      OneListed(add);
      BlankBuckets(hash, buckets[..], chains, add);
      assert items[..0] == [];
    }

    /** Puts an item behind the last one of the list. */
    method LinkLast(add: Item)
      requires Valid() && items != [] && add !in items
      modifies this`items, this`tail, this`numItems, add`next, add`prev, add`hashv, tail`next
      ensures ListOk() && LastMissing() && items == old(items) + [add]
    {
      hide BucketsOk, Complete, BloomBit, Marked, Listed, Distinct, Pow2;
      ghost var was := items;
      assert (items + [add])[..|items|] == items;
      DistinctWith(was, add);
      OneMore(hash, buckets[..], chains, was, add);
      add.hashv := hash(add.key);
      AppendItem(add, tail, was);
      tail := add;
      items := items + [add];
      numItems := numItems + 1;
    }

    /** Puts the last item of the list where the key and the filter want it. */
    method InsertLast(add: Item)
      requires ListOk() && LastMissing() && add == items[|items| - 1]
      modifies this`buckets, this`chains, this`numBuckets, this`log2NumBuckets, this`idealChainMaxlen,
               this`nonidealItems, this`ineffExpands, this`noexpand, buckets, bloom, items`hhNext, items`hhPrev
      ensures ListOk() && TableOk()
      ensures buckets == old(buckets) || fresh(buckets)
      ensures old(forall b :: 0 <= b < buckets.Length ==> buckets[b].count == 0) ==> numBuckets == old(numBuckets)
      ensures bloomNbits.Some? ==> forall b: nat ::
                Marked(bloom[..], b) <==> b == hash(add.key) % Pow2(bloomNbits.value) || Marked(old(bloom[..]), b)
    {
      hide BucketsOk, Complete, Listed, Filtered, Distinct, And, Pow2, Marked;
      MaskIsMod(add.hashv, log2NumBuckets);
      HashedAt(hash, items, |items| - 1);
      ghost var before := bloom[..];
      AddToBkt(And(add.hashv, numBuckets - 1), add);
      if bloomNbits.Some? {
        BloomAdd(bloom, bloomNbits.value, add.hashv);
        OneMoreFiltered(hash, bloomNbits, before, bloom[..], items);
      }
      NoneFiltered(hash, bloomNbits, bloom[..], items);
    }

    /** Puts the last item of the list into its bucket, and doubles the buckets if that one has become too long. */
    method AddToBkt(bkt: nat, x: Item)
      requires LastMissing() && x == items[|items| - 1] && bkt == Slot(hash, x, |chains|)
      modifies this`buckets, this`chains, this`numBuckets, this`log2NumBuckets, this`idealChainMaxlen,
               this`nonidealItems, this`ineffExpands, this`noexpand, buckets, items`hhNext, items`hhPrev
      ensures SizesOk() && Hashed(hash, items)
      ensures BucketsOk(hash, buckets[..], chains, items) && Complete(hash, chains, items)
      ensures buckets == old(buckets) || fresh(buckets)
      ensures numBuckets
           == if old(buckets[bkt].count + 1 >= (buckets[bkt].expandMult + 1) * HASH_BKT_CAPACITY_THRESH && !noexpand)
              then 2 * old(numBuckets) else old(numBuckets)
      ensures buckets == old(buckets) ==>
                forall b :: 0 <= b < buckets.Length ==> buckets[b].expandMult == old(buckets[b].expandMult)
      ensures numBuckets == old(numBuckets) ==>
                chains == old(chains)[bkt := [x] + old(chains)[bkt]] && buckets == old(buckets)
    {
      hide BucketsOk, Filtered, Listed;
      ghost var added := chains[bkt := [x] + chains[bkt]];
      AddedComplete(hash, chains, items, x);
      Buckets.AddToBucket(hash, buckets, bkt, x, buckets[bkt].expandMult, chains, items);
      chains := added;
      if buckets[bkt].count >= (buckets[bkt].expandMult + 1) * HASH_BKT_CAPACITY_THRESH && !noexpand {
        ExpandBuckets();
      }
    }

    /** Doubles the buckets. Expansion stops for good when two in a row have left more than half of the items beyond
        the ideal chain length. */
    method ExpandBuckets()
      requires items != [] && SizesOk() && Hashed(hash, items)
      requires BucketsOk(hash, buckets[..], chains, items) && Complete(hash, chains, items)
      modifies this`buckets, this`chains, this`numBuckets, this`log2NumBuckets, this`idealChainMaxlen,
               this`nonidealItems, this`ineffExpands, this`noexpand, items`hhNext, items`hhPrev
      ensures SizesOk() && Hashed(hash, items) && fresh(buckets)
      ensures BucketsOk(hash, buckets[..], chains, items) && Complete(hash, chains, items)
      ensures numBuckets == 2 * old(numBuckets) && log2NumBuckets == old(log2NumBuckets) + 1
      ensures idealChainMaxlen == CeilDiv(numItems, numBuckets) > 0 && Multiplied(buckets[..], idealChainMaxlen)
      ensures forall b :: 0 <= b < numBuckets ==>
                var n, mult := buckets[b].count, buckets[b].expandMult;
                if n > idealChainMaxlen then idealChainMaxlen * mult <= n < idealChainMaxlen * (mult + 1) else mult == 0
      ensures nonidealItems == Excesses(chains, idealChainMaxlen)
      ensures Distinct(items) ==> nonidealItems + WithinIdeal(chains, idealChainMaxlen) == numItems
      ensures ineffExpands == if nonidealItems > numItems / 2 then old(ineffExpands) + 1 else 0
      ensures noexpand == (old(noexpand) || ineffExpands > 1)
    {
      hide BucketsOk, Complete, Multiplied, CeilDiv, Excesses, WithinIdeal, Hashed, Distinct;
      DoubleBuckets();
      AllBounded(buckets[..], idealChainMaxlen);
      if Distinct(items) {
        AddUp(hash, buckets[..], chains, items, idealChainMaxlen);
      }
      ShiftIsDiv(numItems, 1);
      ineffExpands := if nonidealItems > ShiftRight(numItems, 1) then ineffExpands + 1 else 0;
      if ineffExpands > 1 {
        noexpand := true;
      }
    }

    method DoubleBuckets()
      requires items != [] && SizesOk() && Hashed(hash, items)
      requires BucketsOk(hash, buckets[..], chains, items) && Complete(hash, chains, items)
      modifies this`buckets, this`chains, this`numBuckets, this`log2NumBuckets, this`idealChainMaxlen,
               this`nonidealItems, items`hhNext, items`hhPrev
      ensures SizesOk() && Hashed(hash, items) && fresh(buckets)
      ensures BucketsOk(hash, buckets[..], chains, items) && Complete(hash, chains, items)
      ensures numBuckets == 2 * old(numBuckets) && log2NumBuckets == old(log2NumBuckets) + 1
      ensures idealChainMaxlen == CeilDiv(numItems, numBuckets) > 0 && Multiplied(buckets[..], idealChainMaxlen)
      ensures nonidealItems == Excesses(chains, idealChainMaxlen)
    {
      hide BucketsOk, Complete, Multiplied, CeilDiv, Excesses, Hashed;
      var newBuckets, ideal, nonideal;
      ghost var new';
      newBuckets, ideal, nonideal, new' := Buckets.Expand(hash, buckets, log2NumBuckets, numItems, chains, items);
      idealChainMaxlen, nonidealItems := ideal, nonideal;
      numBuckets, log2NumBuckets := numBuckets * 2, log2NumBuckets + 1;
      buckets, chains := newBuckets, new';
    }
  }

  /** A sorted list has the same items, so the buckets and the filter are in order for it too. */
  lemma SortedTable(h: HashFunction, nbits: Option<nat>, buckets: seq<Bucket>, chains: seq<seq<Item>>, bloom: seq<bv8>,
                    items: seq<Item>,
                    cmp: (Item, Item) -> int)
    requires |chains| > 0 && BucketsOk(h, buckets, chains, items) && Complete(h, chains, items)
    requires Hashed(h, items) && Filtered(h, nbits, bloom, items)
    ensures BucketsOk(h, buckets, chains, Sorted(cmp, items, 1)) && Complete(h, chains, Sorted(cmp, items, 1))
    ensures Hashed(h, Sorted(cmp, items, 1)) && Filtered(h, nbits, bloom, Sorted(cmp, items, 1))
    ensures |Sorted(cmp, items, 1)| == |items|
  {
    hide Sorted, BucketsOk, Complete, Hashed, Filtered;
    var after := Sorted(cmp, items, 1);
    SortedPermutes(cmp, items, 1);
    forall x ensures x in after <==> x in items {
      assert x in multiset(after) <==> x in multiset(items);
    }
    SameItemsChained(h, buckets, chains, items, after);
    SameItemsHashed(h, nbits, bloom, items, after);
  }

  lemma SameItemsChained(h: HashFunction, buckets: seq<Bucket>, chains: seq<seq<Item>>, items: seq<Item>,
                         after: seq<Item>)
    requires |chains| > 0 && BucketsOk(h, buckets, chains, items) && Complete(h, chains, items)
    requires forall x :: x in after <==> x in items
    ensures BucketsOk(h, buckets, chains, after) && Complete(h, chains, after)
  {
    forall b | 0 <= b < |chains|
      ensures SlottedChain(h, chains[b], b, |chains|, after) && BucketOk(buckets[b], chains[b])
    {
      assert SlottedChain(h, chains[b], b, |chains|, items) && BucketOk(buckets[b], chains[b]);
    }
  }

  lemma SameItemsHashed(h: HashFunction, nbits: Option<nat>, bloom: seq<bv8>, items: seq<Item>, after: seq<Item>)
    requires Hashed(h, items) && Filtered(h, nbits, bloom, items)
    requires forall x :: x in after <==> x in items
    ensures Hashed(h, after) && Filtered(h, nbits, bloom, after)
  {
    forall k | 0 <= k < |after|
      ensures after[k].hashv == h(after[k].key)
      ensures nbits.Some? ==> Marked(bloom, BloomBit(nbits.value, h(after[k].key)))
    {
      assert after[k] in items;
      var i :| 0 <= i < |items| && items[i] == after[k];
    }
  }

  /** An item is in the chain of its bucket, which holds no item twice. */
  lemma InItsChain(h: HashFunction, chains: seq<seq<Item>>, items: seq<Item>, k: nat)
    requires |chains| > 0 && Slotted(h, chains, items) && Complete(h, chains, items) && k < |items|
    ensures var c := chains[Slot(h, items[k], |chains|)];
      Distinct(c) && items[k] in c && IndexOf(c, items[k]) < |c| && c[IndexOf(c, items[k])] == items[k]
  {
    var b := Slot(h, items[k], |chains|);
    assert items[k] in items;
    assert SlottedChain(h, chains[b], b, |chains|, items);
  }

  lemma NothingListed(items: seq<Item>, k: nat)
    requires k < |items| == 1
    ensures Without(items, k) == [] && Distinct(Without(items, k)) && Listed(Without(items, k))
  {
  }

  lemma ListedAt(items: seq<Item>, k: nat)
    requires Listed(items) && k < |items|
    ensures items[k].next == At(items, k + 1) && items[k].prev == At(items, k - 1)
  {
  }

  lemma LastIs(items: seq<Item>, k: nat)
    requires Distinct(items) && k < |items| && items[k] == items[|items| - 1]
    ensures k == |items| - 1
  {
  }

  lemma WithoutDistinct(items: seq<Item>, k: nat)
    requires Distinct(items) && k < |items|
    ensures Distinct(Without(items, k)) && items[k] !in Without(items, k)
    ensures forall x :: x in Without(items, k) <==> x in items && x != items[k]
  {
    assert items == items[..k] + [items[k]] + items[k + 1..];
  }

  lemma HashedAt(h: HashFunction, items: seq<Item>, k: nat)
    requires Hashed(h, items) && k < |items|
    ensures items[k].hashv == h(items[k].key)
  {
  }

  lemma FewerHashed(h: HashFunction, nbits: Option<nat>, bloom: seq<bv8>, items: seq<Item>, k: nat)
    requires Hashed(h, items) && Filtered(h, nbits, bloom, items) && k < |items|
    ensures |Without(items, k)| == |items| - 1
    ensures Hashed(h, Without(items, k)) && Filtered(h, nbits, bloom, Without(items, k))
  {
    var rest := Without(items, k);
    forall i | 0 <= i < |rest| ensures rest[i] == items[if i < k then i else i + 1] {
    }
  }

  /** Without an item in its bucket and in the list, the buckets are in order for the rest. */
  lemma OneLess(h: HashFunction, buckets: seq<Bucket>, chains: seq<seq<Item>>, items: seq<Item>, k: nat, b: nat, j: nat)
    requires b < |chains| && j < |chains[b]| && k < |items| && chains[b][j] == items[k] && Distinct(items)
             && Distinct(chains[b])
    requires b == Slot(h, items[k], |chains|) && Complete(h, chains, items) && Slotted(h, chains, items)
    requires Agree(buckets, chains[b := Without(chains[b], j)], items)
    ensures BucketsOk(h, buckets, chains[b := Without(chains[b], j)], Without(items, k))
    ensures Complete(h, chains[b := Without(chains[b], j)], Without(items, k))
  {
    var after := chains[b := Without(chains[b], j)];
    LessSlotted(h, chains, items, k, b, j);
    forall a | 0 <= a < |after| ensures Within(after[a], Without(items, k)) && BucketOk(buckets[a], after[a]) {
      assert SlottedChain(h, after[a], a, |after|, Without(items, k)) && BucketOk(buckets[a], after[a]);
    }
  }

  lemma Pow2Of5()
    ensures Pow2(HASH_INITIAL_NUM_BUCKETS_LOG2) == HASH_INITIAL_NUM_BUCKETS
  {
  }

  /** Buckets without items are in order. */
  lemma BlankBuckets(h: HashFunction, buckets: seq<Bucket>, chains: seq<seq<Item>>, x: Item)
    requires |buckets| == |chains| > 0
    requires forall b :: 0 <= b < |chains| ==> buckets[b] == Bucket(null, 0, 0) && chains[b] == []
    ensures BucketsOk(h, buckets, chains, [x]) && Complete(h, chains, [])
  {
  }

  /** One more item outside all chains leaves the buckets in order. */
  lemma OneMore(h: HashFunction, buckets: seq<Bucket>, chains: seq<seq<Item>>, items: seq<Item>, x: Item)
    requires BucketsOk(h, buckets, chains, items) && x !in items
    ensures BucketsOk(h, buckets, chains, items + [x]) && forall b :: 0 <= b < |chains| ==> x !in chains[b]
  {
    forall b | 0 <= b < |chains|
      ensures SlottedChain(h, chains[b], b, |chains|, items + [x]) && BucketOk(buckets[b], chains[b]) && x !in chains[b]
    {
      assert SlottedChain(h, chains[b], b, |chains|, items) && BucketOk(buckets[b], chains[b]);
    }
  }

  lemma OneListed(x: Item)
    requires x.next == null && x.prev == null
    ensures Listed([x]) && Distinct([x])
  {
  }

  lemma DistinctWith(items: seq<Item>, x: Item)
    requires Distinct(items) && x !in items
    ensures Distinct(items + [x])
  {
  }

  /** With one more bit set, the filter is right for one more item. */
  lemma OneMoreFiltered(h: HashFunction, nbits: Option<nat>, before: seq<bv8>, after: seq<bv8>, items: seq<Item>)
    requires nbits.Some? && |before| == |after| && items != []
    requires Filtered(h, nbits, before, items[..|items| - 1])
    requires forall b: nat ::
               Marked(after, b) <==> b == h(items[|items| - 1].key) % Pow2(nbits.value) || Marked(before, b)
    ensures Filtered(h, nbits, after, items)
  {
    hide Marked, Pow2, And;
    MaskIsMod(h(items[|items| - 1].key), nbits.value);
    forall k | 0 <= k < |items| ensures Marked(after, BloomBit(nbits.value, h(items[k].key))) {
      assert k < |items| - 1 ==> items[..|items| - 1][k] == items[k];
    }
  }

  /** Without a filter there is nothing to be right. */
  lemma NoneFiltered(h: HashFunction, nbits: Option<nat>, bloom: seq<bv8>, items: seq<Item>)
    ensures nbits.None? ==> Filtered(h, nbits, bloom, items)
  {
  }

  lemma NothingMarked(bloom: seq<bv8>)
    requires forall i :: 0 <= i < |bloom| ==> bloom[i] == 0
    ensures forall b: nat :: !Marked(bloom, b)
  {
  }

  lemma NothingFiltered(h: HashFunction, nbits: Option<nat>, bloom: seq<bv8>)
    requires nbits.Some? ==> Pow2(nbits.value) <= 8 * |bloom|
    ensures Filtered(h, nbits, bloom, [])
  {
  }

  /** With one more item in its bucket, all are. */
  lemma AddedComplete(h: HashFunction, chains: seq<seq<Item>>, items: seq<Item>, x: Item)
    requires |chains| > 0 && items != [] && x == items[|items| - 1] && Complete(h, chains, items[..|items| - 1])
    ensures var b := Slot(h, x, |chains|); Complete(h, chains[b := [x] + chains[b]], items)
  {
    assert items == items[..|items| - 1] + [x];
  }

  /** An item with a key is in the table exactly when it is in the bucket that the key selects. */
  lemma FoundInChain(h: HashFunction, chains: seq<seq<Item>>, items: seq<Item>, key: seq<byte>)
    requires |chains| > 0 && Slotted(h, chains, items) && Complete(h, chains, items)
    ensures (exists x :: x in items && x.key == key) <==> exists x :: x in chains[h(key) % |chains|] && x.key == key
  {
    var b := h(key) % |chains|;
    assert SlottedChain(h, chains[b], b, |chains|, items);
    forall x | x in items && x.key == key ensures x in chains[b] {
      assert Slot(h, x, |chains|) == b;
    }
  }

  /** The masked hash value selects the bucket where an item with the key is, if there is one. */
  lemma KeyInBucket(h: HashFunction, buckets: seq<Bucket>, chains: seq<seq<Item>>, items: seq<Item>, key: seq<byte>,
                    k: nat)
    requires |chains| == Pow2(k) && BucketsOk(h, buckets, chains, items) && Complete(h, chains, items)
    ensures var b := And(h(key), |chains| - 1);
      && b < |chains| == |buckets| && BucketOk(buckets[b], chains[b])
      && (forall x :: x in chains[b] ==> x in items)
      && ((exists x :: x in items && x.key == key) <==> exists x :: x in chains[b] && x.key == key)
  {
    hide Complete, And, Pow2, BucketOk;
    MaskIsMod(h(key), k);
    FoundInChain(h, chains, items, key);
    var b := h(key) % |chains|;
    assert Within(chains[b], items) && BucketOk(buckets[b], chains[b]);
  }

  /** What the list stands for: every key with the last item that has it. */
  ghost function AsMap(items: seq<Item>): map<seq<byte>, Item> {
    if items == [] then map[] else AsMap(items[..|items| - 1])[items[|items| - 1].key := items[|items| - 1]]
  }

  ghost predicate UniqueKeys(items: seq<Item>) {
    forall i, j :: 0 <= i < j < |items| ==> items[i].key != items[j].key
  }

  /** With unique keys the map has just the keys of the items, each with its item. */
  lemma {:induction false} AsMapEntries(items: seq<Item>, key: seq<byte>)
    requires UniqueKeys(items)
    ensures key in AsMap(items) <==> exists x :: x in items && x.key == key
    ensures forall x :: x in items ==> x.key in AsMap(items) && AsMap(items)[x.key] == x
    ensures key in AsMap(items) ==> AsMap(items)[key] in items && AsMap(items)[key].key == key
  {
    if items != [] {
      var last, front := items[|items| - 1], items[..|items| - 1];
      assert items == front + [last];
      AsMapEntries(front, key);
    }
  }

  /** Deleting the item with a key takes the key out of the map. */
  lemma {:induction false} AsMapWithout(items: seq<Item>, k: nat)
    requires UniqueKeys(items) && k < |items|
    ensures AsMap(Without(items, k)) == AsMap(items) - {items[k].key} && UniqueKeys(Without(items, k))
    decreases |items|
  {
    var last, front := items[|items| - 1], items[..|items| - 1];
    StillUnique(items, k);
    if k == |items| - 1 {
      assert Without(items, k) == front;
      AsMapEntries(front, last.key);
    } else {
      WithoutFront(items, k);
      AsMapWithout(front, k);
      hide UniqueKeys, Without;
    }
  }

  lemma WithoutFront(items: seq<Item>, k: nat)
    requires UniqueKeys(items) && k < |items| - 1
    ensures var rest := Without(items, k);
      && rest != [] && rest[..|rest| - 1] == Without(items[..|items| - 1], k) && rest[|rest| - 1] == items[|items| - 1]
    ensures items[|items| - 1].key != items[k].key && items[..|items| - 1][k] == items[k]
            && UniqueKeys(items[..|items| - 1])
  {
  }

  lemma StillUnique(items: seq<Item>, k: nat)
    requires UniqueKeys(items) && k < |items|
    ensures UniqueKeys(Without(items, k))
  {
    var rest := Without(items, k);
    forall i, j | 0 <= i < j < |rest| ensures rest[i].key != rest[j].key {
      assert rest[i] == items[if i < k then i else i + 1] && rest[j] == items[if j < k then j else j + 1];
    }
  }

  /** An item with a new key adds an entry to the map. */
  lemma AsMapAdded(items: seq<Item>, x: Item)
    requires UniqueKeys(items) && x.key !in AsMap(items)
    ensures UniqueKeys(items + [x]) && AsMap(items + [x]) == AsMap(items)[x.key := x]
  {
    hide UniqueKeys;
    AsMapEntries(items, x.key);
    assert (items + [x])[..|items|] == items;
    UniqueWith(items, x);
  }

  lemma UniqueWith(items: seq<Item>, x: Item)
    requires UniqueKeys(items) && forall y :: y in items ==> y.key != x.key
    ensures UniqueKeys(items + [x])
  {
    forall i | 0 <= i < |items| ensures items[i].key != x.key {
      assert items[i] in items;
    }
  }

  /** Replacing gives the key its new item. */
  lemma AsMapReplaced(items: seq<Item>, x: Item, replaced: Item?)
    requires UniqueKeys(items)
    requires replaced != null <==> exists y :: y in items && y.key == x.key
    requires replaced != null ==> replaced in items && replaced.key == x.key
    ensures var after := (if replaced == null then items else Without(items, IndexOf<Item>(items, replaced))) + [x];
      UniqueKeys(after) && AsMap(after) == AsMap(items)[x.key := x]
  {
    hide UniqueKeys, AsMap, IndexOf;
    AsMapEntries(items, x.key);
    if replaced == null {
      AsMapAdded(items, x);
    } else {
      var k := IndexOf<Item>(items, replaced);
      AsMapWithout(items, k);
      AsMapAdded(Without(items, k), x);
    }
  }

  datatype Op = AddOp(item: Item) | ReplaceOp(item: Item) | DeleteOp(key: seq<byte>)

  /** The plain map after an operation; an add of a key that is there already is refused. */
  ghost function Apply(m: map<seq<byte>, Item>, op: Op): map<seq<byte>, Item> {
    match op
    case AddOp(x) => if x.key in m then m else m[x.key := x]
    case ReplaceOp(x) => m[x.key := x]
    case DeleteOp(key) => m - {key}
  }

  ghost function ApplyAll(m: map<seq<byte>, Item>, ops: seq<Op>): map<seq<byte>, Item> {
    if ops == [] then m else Apply(ApplyAll(m, ops[..|ops| - 1]), ops[|ops| - 1])
  }

  ghost function Brought(op: Op): set<Item> {
    match op case AddOp(x) => {x} case ReplaceOp(x) => {x} case DeleteOp(_) => {}
  }

  /** What is looked up is what the map says. */
  method Lookup(t: HashTable, key: seq<byte>) returns (out: Item?)
    requires t.Valid() && UniqueKeys(t.items)
    ensures out == if key in AsMap(t.items) then AsMap(t.items)[key] else null
  {
    AsMapEntries(t.items, key);
    out := t.Find(key);
  }

  /** One operation does to the table what it does to the map. */
  method Perform(t: HashTable, op: Op)
    requires t.Valid() && UniqueKeys(t.items) && (forall x :: x in Brought(op) ==> x !in t.items)
    modifies t, Brought(op), t.items, t.buckets, t.bloom
    ensures t.Valid() && UniqueKeys(t.items) && AsMap(t.items) == Apply(old(AsMap(t.items)), op)
    ensures (t.buckets == old(t.buckets) || fresh(t.buckets)) && (t.bloom == old(t.bloom) || fresh(t.bloom))
    ensures forall k :: 0 <= k < |t.items| ==> t.items[k] in old(t.items) || t.items[k] in Brought(op)
  {
    hide BucketsOk, Complete, Filtered, Hashed, Listed, Distinct, UniqueKeys, AsMap, IndexOf;
    ghost var was := t.items;
    match op
    case AddOp(x) =>
      AsMapEntries(was, x.key);
      var found := t.Find(x.key);
      if found == null {
        AsMapAdded(was, x);
        t.Add(x);
      }
    case ReplaceOp(x) =>
      var replaced := t.Replace(x);
      AsMapReplaced(was, x, replaced);
    case DeleteOp(key) =>
      AsMapEntries(was, key);
      var found := t.Find(key);
      if found != null {
        AsMapWithout(was, IndexOf<Item>(was, found));
        t.Delete(found);
      }
  }

  /** The items that operations bring in, which must be new to the table. */
  ghost predicate BringNew(ops: seq<Op>, items: seq<Item>) {
    && (forall i, x :: 0 <= i < |ops| && x in Brought(ops[i]) ==> x !in items)
    && (forall i, j, x :: 0 <= i < j < |ops| && x in Brought(ops[i]) ==> x !in Brought(ops[j]))
  }

  /** Over any run of adds, replacements and deletions, across any number of expansions, the table is the plain map. */
  method PerformAll(t: HashTable, ops: seq<Op>)
    requires t.Valid() && UniqueKeys(t.items) && BringNew(ops, t.items)
    modifies t, t.items, t.buckets, t.bloom, set i, x | 0 <= i < |ops| && x in Brought(ops[i]) :: x
    ensures t.Valid() && UniqueKeys(t.items) && AsMap(t.items) == ApplyAll(old(AsMap(t.items)), ops)
  {
    hide BucketsOk, Complete, Filtered, Hashed, Listed, Distinct, UniqueKeys, AsMap;
    assert ops[..0] == [];
    for k := 0 to |ops|
      invariant t.Valid() && UniqueKeys(t.items) && AsMap(t.items) == ApplyAll(old(AsMap(t.items)), ops[..k])
      invariant (t.buckets == old(t.buckets) || fresh(t.buckets)) && (t.bloom == old(t.bloom) || fresh(t.bloom))
      invariant forall i :: 0 <= i < |t.items| ==>
                t.items[i] in old(t.items) || exists j :: 0 <= j < k && t.items[i] in Brought(ops[j])
    {
      assert ops[..k + 1] == ops[..k] + [ops[k]];
      Perform(t, ops[k]);
    }
    assert ops[..|ops|] == ops;
  }

  lemma WithinSome(c: seq<Item>, items: seq<Item>)
    requires Within(c, items)
    ensures c != [] ==> items != []
  {
    if c != [] {
      assert c[0] in items;
    }
  }

  /** The counts of the buckets add up to the number of items. */
  lemma {:induction false} CountsAddUp(h: HashFunction, chains: seq<seq<Item>>, items: seq<Item>)
    requires |chains| > 0 && Slotted(h, chains, items) && Complete(h, chains, items) && Distinct(items)
    ensures Excesses(chains, 0) == |items|
    decreases |items|
  {
    if items == [] {
      forall b | 0 <= b < |chains| ensures chains[b] == [] {
        assert SlottedChain(h, chains[b], b, |chains|, items);
        WithinSome(chains[b], items);
      }
      assert chains == seq(|chains|, _ => []);
      NoExcesses(|chains|, 0);
    } else {
      var k := |items| - 1;
      var b := Slot(h, items[k], |chains|);
      InItsChain(h, chains, items, k);
      var j := IndexOf(chains[b], items[k]);
      LessSlotted(h, chains, items, k, b, j);
      CountsAddUp(h, chains[b := Without(chains[b], j)], Without(items, k));
      ExcessesAfter(chains, 0, b, Without(chains[b], j));
    }
  }

  /** Beyond the ideal length of their chains or within it, all items are counted. */
  lemma AddUp(h: HashFunction, buckets: seq<Bucket>, chains: seq<seq<Item>>, items: seq<Item>, ideal: nat)
    requires |chains| > 0 && BucketsOk(h, buckets, chains, items) && Complete(h, chains, items) && Distinct(items)
    ensures Excesses(chains, ideal) + WithinIdeal(chains, ideal) == |items|
  {
    hide Slotted, Agree, Complete, Distinct;
    CountsAddUp(h, chains, items);
    WithinOrBeyond(chains, ideal);
  }

  /** Without an item in its bucket and in the list, the chains are in place for the rest. */
  lemma LessSlotted(h: HashFunction, chains: seq<seq<Item>>, items: seq<Item>, k: nat, b: nat, j: nat)
    requires b < |chains| && j < |chains[b]| && k < |items| && chains[b][j] == items[k] && Distinct(items)
             && Distinct(chains[b])
    requires b == Slot(h, items[k], |chains|) && Complete(h, chains, items) && Slotted(h, chains, items)
    ensures Slotted(h, chains[b := Without(chains[b], j)], Without(items, k))
    ensures Complete(h, chains[b := Without(chains[b], j)], Without(items, k))
    ensures Distinct(Without(items, k))
  {
    var after, rest := chains[b := Without(chains[b], j)], Without(items, k);
    ShorterSlotted(h, chains, items, b, j);
    WithoutDistinct(items, k);
    WithoutDistinct(chains[b], j);
    forall a | 0 <= a < |after| ensures SlottedChain(h, after[a], a, |after|, rest) {
      assert SlottedChain(h, after[a], a, |after|, items);
      forall i | 0 <= i < |after[a]| ensures after[a][i] in rest {
        assert Slot(h, after[a][i], |after|) == a;
      }
    }
  }

  /** Walks a chain and checks the links back; counts its items. */
  method CheckChain(head: Item?, ghost c: seq<Item>) returns (ok: bool, count: nat)
    requires Chained(c) && head == At(c, 0)
    ensures ok && count == |c|
  {
    var thh, prev: Item? := head, null;
    count := 0;
    while thh != null
      invariant count <= |c| && thh == At(c, count) && prev == At(c, count - 1)
      decreases |c| - count
    {
      if prev != thh.hhPrev {
        return false, count;
      }
      count := count + 1;
      prev := thh;
      thh := thh.hhNext;
    }
    ok := true;
  }

  /** Walks the list of items and checks the links back; counts the items. */
  method CheckList(head: Item?, ghost items: seq<Item>) returns (ok: bool, count: nat)
    requires Listed(items) && head == At(items, 0)
    ensures ok && count == |items|
  {
    var thh, prev: Item? := head, null;
    count := 0;
    while thh != null
      invariant count <= |items| && thh == At(items, count) && prev == At(items, count - 1)
      decreases |items| - count
    {
      if prev != thh.prev {
        return false, count;
      }
      count := count + 1;
      prev := thh;
      thh := thh.next;
    }
    ok := true;
  }

  lemma {:induction false} ExcessesSnoc(chains: seq<seq<Item>>, b: nat)
    requires b < |chains|
    ensures Excesses(chains[..b + 1], 0) == Excesses(chains[..b], 0) + |chains[b]|
  {
    if b == 0 {
      assert chains[..1][1..] == [] && chains[..0] == [];
    } else {
      assert chains[..b + 1][1..] == chains[1..][..b] && chains[..b][1..] == chains[1..][..b - 1];
      ExcessesSnoc(chains[1..], b - 1);
    }
  }

  /** Checks every bucket, its chain and its count; adds up the items. */
  method CheckBuckets(t: HashTable) returns (ok: bool, count: nat)
    requires t.TableOk()
    ensures ok && count == Excesses(t.chains, 0)
  {
    hide Slotted, Complete, Filtered, Hashed, Pow2, Excesses, Chained;
    ok, count := true, 0;
    ghost var chains := t.chains;
    NoChains(chains);
    for b := 0 to t.numBuckets
      invariant ok && count == Excesses(chains[..b], 0)
    {
      assert BucketOk(t.buckets[b], chains[b]);
      var sound, length := CheckChain(t.buckets[b].hhHead, chains[b]);
      if !sound || t.buckets[b].count != length {
        return false, count;
      }
      ExcessesSnoc(chains, b);
      count := count + length;
    }
  }

  lemma NoChains(chains: seq<seq<Item>>)
    ensures Excesses(chains[..0], 0) == 0 && chains[..|chains|] == chains
  {
  }

  /** The integrity check of the table never complains. */
  method Fsck(t: HashTable) returns (ok: bool)
    requires t.Valid()
    ensures ok
  {
    hide Slotted, Agree, Filtered, Hashed, Pow2, Excesses;
    if t.head != null {
      var sound, count := CheckBuckets(t);
      CountsAddUp(t.hash, t.chains, t.items);
      if !sound || count != t.numItems {
        return false;
      }
      var sound', length := CheckList(t.head, t.items);
      if !sound' || length != t.numItems {
        return false;
      }
    }
    ok := true;
  }
}
