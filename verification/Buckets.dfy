/** The buckets of a hash table: chains of items that the low bits of their hash values put together. */
module Buckets {
  import opened Arith
  import opened Wrappers
  import opened Bits
  import opened HashItems

  /** A bucket: the head of its chain, the length of it, and a multiplier that delays expansion. */
  datatype Bucket = Bucket(hhHead: Item?, count: nat, expandMult: nat)

  type HashFunction = seq<byte> -> nat

  /** The bucket that an item belongs to, out of `m`. */
  function Slot(h: HashFunction, x: Item, m: nat): (b: nat)
    requires m > 0
    ensures b < m
  {
    h(x.key) % m
  }

  /** Every item carries the hash value of its key. */
  ghost predicate Hashed(h: HashFunction, items: seq<Item>)
    reads items`hashv
  {
    forall k :: 0 <= k < |items| ==> items[k].hashv == h(items[k].key)
  }

  /** A bucket and its chain agree. */
  ghost predicate BucketOk(b: Bucket, c: seq<Item>)
    reads c`hhNext, c`hhPrev
  {
    b.hhHead == At(c, 0) && b.count == |c| && Chained(c)
  }

  /** The chains hold only items of `items`, each in the bucket that its hash value selects, and once. */
  ghost predicate Slotted(h: HashFunction, chains: seq<seq<Item>>, items: seq<Item>) {
    forall b :: 0 <= b < |chains| ==> SlottedChain(h, chains[b], b, |chains|, items)
  }

  ghost predicate SlottedChain(h: HashFunction, c: seq<Item>, b: nat, m: nat, items: seq<Item>)
    requires m > 0
  {
    Within(c, items) && Distinct(c) && forall k :: 0 <= k < |c| ==> Slot(h, c[k], m) == b
  }

  ghost predicate Within(c: seq<Item>, items: seq<Item>) {
    forall k :: 0 <= k < |c| ==> c[k] in items
  }

  /** Every bucket agrees with its chain. */
  ghost predicate Agree(buckets: seq<Bucket>, chains: seq<seq<Item>>, items: seq<Item>)
    reads items`hhNext, items`hhPrev
  {
    |buckets| == |chains| && forall b :: 0 <= b < |chains| ==>
        Within(chains[b], items) && BucketOk(buckets[b], chains[b])
  }

  /** The buckets, with the chains in their places. */
  ghost predicate BucketsOk(h: HashFunction, buckets: seq<Bucket>, chains: seq<seq<Item>>, items: seq<Item>)
    reads items`hhNext, items`hhPrev
  {
    Slotted(h, chains, items) && Agree(buckets, chains, items)
  }

  /** Every item of `items` is in the chain of its bucket. */
  ghost predicate Complete(h: HashFunction, chains: seq<seq<Item>>, items: seq<Item>)
    requires |chains| > 0
  {
    forall x :: x in items ==> x in chains[Slot(h, x, |chains|)]
  }

  /** Links an item in front of a chain. */
  method LinkFirst(x: Item, head: Item?, ghost c: seq<Item>)
    requires Chained(c) && head == At(c, 0) && x !in c && Distinct(c)
    modifies x`hhNext, x`hhPrev, Just(head)`hhPrev
    ensures Chained([x] + c)
    ensures x.hhNext == head
  {
    x.hhNext := head;
    x.hhPrev := null;
    if head != null {
      head.hhPrev := x;
    }
  }

  /** Items of different buckets are different. */
  lemma ChainsApart(h: HashFunction, chains: seq<seq<Item>>, items: seq<Item>, a: nat, b: nat, k: nat, l: nat)
    requires Slotted(h, chains, items) && a < |chains| && b < |chains| && a != b
    requires k < |chains[a]| && l < |chains[b]|
    ensures chains[a][k] != chains[b][l]
  {
    assert SlottedChain(h, chains[a], a, |chains|, items) && SlottedChain(h, chains[b], b, |chains|, items);
  }

  lemma LongerSlotted(h: HashFunction, chains: seq<seq<Item>>, items: seq<Item>, b: nat, x: Item)
    requires Slotted(h, chains, items) && b < |chains| && x in items && x !in chains[b] && Slot(h, x, |chains|) == b
    ensures Slotted(h, chains[b := [x] + chains[b]], items)
  {
    assert SlottedChain(h, chains[b], b, |chains|, items);
  }

  /** The chains other than `b` are not touched when `x` is put in front of chain `b`. */
  lemma OtherChains(h: HashFunction, chains: seq<seq<Item>>, items: seq<Item>, b: nat, x: Item)
    requires Slotted(h, chains, items) && b < |chains| && Slot(h, x, |chains|) == b
    ensures forall a, k :: 0 <= a < |chains| && a != b && 0 <= k < |chains[a]| ==>
              chains[a][k] != x && chains[a][k] != At(chains[b], 0)
  {
    forall a, k | 0 <= a < |chains| && a != b && 0 <= k < |chains[a]|
      ensures chains[a][k] != x && chains[a][k] != At(chains[b], 0)
    {
      assert SlottedChain(h, chains[a], a, |chains|, items);
      if chains[b] != [] {
        ChainsApart(h, chains, items, a, b, k, 0);
      }
    }
  }

  /** Puts an item at the head of a bucket. */
  method AddToBucket(h: HashFunction, buckets: array<Bucket>, b: nat, x: Item, expandMult: nat,
                     ghost chains: seq<seq<Item>>, ghost items: seq<Item>)
    requires BucketsOk(h, buckets[..], chains, items) && x in items
    requires b < |chains| && Slot(h, x, |chains|) == b && x !in chains[b]
    modifies buckets, x`hhNext, items`hhPrev
    ensures BucketsOk(h, buckets[..], chains[b := [x] + chains[b]], items)
    ensures buckets[..] == old(buckets[..])[b := Bucket(x, old(buckets[b]).count + 1, expandMult)]
  {
    hide Slotted, SlottedChain, Distinct;
    LongerSlotted(h, chains, items, b, x);
    OtherChains(h, chains, items, b, x);
    assert Within(chains[b], items) && BucketOk(buckets[b], chains[b]);
    ChainParts(h, chains, items, b);
    LinkFirst(x, buckets[b].hhHead, chains[b]);
    buckets[b] := Bucket(x, buckets[b].count + 1, expandMult);
    ghost var after := chains[b := [x] + chains[b]];
    assert Within(after[b], items);
    forall a | 0 <= a < |after| ensures Within(after[a], items) && BucketOk(buckets[a], after[a]) {
      if a != b {
        assert old(BucketOk(buckets[a], chains[a]));
      }
    }
  }

  lemma ChainParts(h: HashFunction, chains: seq<seq<Item>>, items: seq<Item>, b: nat)
    requires Slotted(h, chains, items) && b < |chains|
    ensures Distinct(chains[b])
  {
    assert SlottedChain(h, chains[b], b, |chains|, items);
  }

  /** By how much a chain of `n` items exceeds the ideal length. */
  function Excess(n: nat, ideal: nat): nat {
    if n > ideal then n - ideal else 0
  }

  /** How many items lie beyond the ideal length of their chains; with an ideal length of 0, how many items there
      are. */
  ghost function Excesses(chains: seq<seq<Item>>, ideal: nat): nat {
    if chains == [] then 0 else Excess(|chains[0]|, ideal) + Excesses(chains[1..], ideal)
  }

  lemma {:induction false} ExcessesAfter(chains: seq<seq<Item>>, ideal: nat, b: nat, c: seq<Item>)
    requires b < |chains|
    ensures Excesses(chains[b := c], ideal) + Excess(|chains[b]|, ideal) == Excesses(chains, ideal) + Excess(|c|, ideal)
  {
    if b > 0 {
      assert chains[b := c][1..] == chains[1..][b - 1 := c];
      ExcessesAfter(chains[1..], ideal, b - 1, c);
    } else {
      assert chains[b := c][1..] == chains[1..];
    }
  }

  lemma {:induction false} NoExcesses(n: nat, ideal: nat)
    ensures Excesses(seq(n, _ => []), ideal) == 0
  {
    if n > 0 {
      assert seq(n, _ => [])[1..] == seq<seq<Item>>(n - 1, _ => []);
      NoExcesses(n - 1, ideal);
    }
  }

  /** The multiplier of a bucket after an expansion. */
  function Multiplier(count: nat, ideal: nat): nat
    requires ideal > 0
  {
    if count > ideal then count / ideal else 0
  }

  ghost predicate Multiplied(buckets: seq<Bucket>, ideal: nat)
    requires ideal > 0
  {
    forall b :: 0 <= b < |buckets| ==> buckets[b].expandMult == Multiplier(buckets[b].count, ideal)
  }

  /** A bucket whose chain is longer than the ideal length has the number of times that this fits into its chain as
      its multiplier; the others have 0. */
  lemma ChainsBounded(buckets: seq<Bucket>, ideal: nat, b: nat)
    requires ideal > 0 && Multiplied(buckets, ideal) && b < |buckets|
    ensures var n, mult := buckets[b].count, buckets[b].expandMult;
      if n > ideal then ideal * mult <= n < ideal * (mult + 1) else mult == 0
  {
    var n := buckets[b].count;
    DivMod(n, ideal);
    assert ideal * (n / ideal) == n / ideal * ideal;
    assert ideal * (n / ideal + 1) == n / ideal * ideal + ideal;
  }

  lemma AllBounded(buckets: seq<Bucket>, ideal: nat)
    requires ideal > 0 && Multiplied(buckets, ideal)
    ensures forall b :: 0 <= b < |buckets| ==>
              var n, mult := buckets[b].count, buckets[b].expandMult;
              if n > ideal then ideal * mult <= n < ideal * (mult + 1) else mult == 0
  {
    hide Multiplied;
    forall b | 0 <= b < |buckets|
      ensures var n, mult := buckets[b].count, buckets[b].expandMult;
        if n > ideal then ideal * mult <= n < ideal * (mult + 1) else mult == 0
    {
      ChainsBounded(buckets, ideal, b);
    }
  }

  /** How many items lie within the ideal length of their chains. */
  ghost function WithinIdeal(chains: seq<seq<Item>>, ideal: nat): nat {
    if chains == [] then 0
    else (if |chains[0]| < ideal then |chains[0]| else ideal) + WithinIdeal(chains[1..], ideal)
  }

  /** Every item lies within the ideal length or beyond it. */
  lemma {:induction false} WithinOrBeyond(chains: seq<seq<Item>>, ideal: nat)
    ensures Excesses(chains, ideal) + WithinIdeal(chains, ideal) == Excesses(chains, 0)
  {
    if chains != [] {
      WithinOrBeyond(chains[1..], ideal);
    }
  }

  /** The items moved so far: those of the chains before `i`, and the first `r` of chain `i`. */
  ghost predicate Moved(h: HashFunction, chains: seq<seq<Item>>, i: nat, r: nat, x: Item)
    requires |chains| > 0
  {
    var b := Slot(h, x, |chains|);
    b < i || (b == i && r <= |chains[i]| && x in chains[i][..r])
  }

  /** The items moved so far are those in the new chains. */
  ghost predicate Redistributed(h: HashFunction, chains: seq<seq<Item>>, items: seq<Item>, i: nat, r: nat,
                                new': seq<seq<Item>>)
    requires |chains| > 0 && |new'| > 0
  {
    forall x :: x in items ==> (x in new'[Slot(h, x, |new'|)] <==> Moved(h, chains, i, r, x))
  }

  /** The items not moved yet still lead to the next ones of their chains. */
  ghost predicate Untouched(chains: seq<seq<Item>>, items: seq<Item>, i: nat, r: nat)
    reads items`hhNext
  {
    forall a, k :: i <= a < |chains| && (if a == i then r else 0) <= k < |chains[a]| ==>
      chains[a][k] in items && chains[a][k].hhNext == At(chains[a], k + 1)
  }

  /** Where an expansion stands: the new buckets are in order, and hold the items moved so far. */
  ghost predicate Expanding(h: HashFunction, chains: seq<seq<Item>>, items: seq<Item>, i: nat, r: nat,
                            buckets: seq<Bucket>, new': seq<seq<Item>>, ideal: nat, nonideal: nat)
    reads items`hhNext, items`hhPrev
  {
    && |chains| > 0 && |new'| == 2 * |chains| && ideal > 0
    && BucketsOk(h, buckets, new', items) && Multiplied(buckets, ideal)
    && nonideal == Excesses(new', ideal)
    && Redistributed(h, chains, items, i, r, new') && Untouched(chains, items, i, r)
  }

  /** The next item to move is not in the new chains yet, and stands apart from those to be moved after it. */
  lemma NextToMove(h: HashFunction, chains: seq<seq<Item>>, items: seq<Item>, i: nat, r: nat, new': seq<seq<Item>>)
    requires |chains| > 0 && |new'| > 0 && Slotted(h, chains, items) && i < |chains| && r < |chains[i]|
    requires Redistributed(h, chains, items, i, r, new')
    ensures var x := chains[i][r];
      && x in items && x !in new'[Slot(h, x, |new'|)]
      && (forall a, k :: i <= a < |chains| && (if a == i then r + 1 else 0) <= k < |chains[a]| ==> chains[a][k] != x)
      && (forall y :: y in items ==> (Moved(h, chains, i, r + 1, y) <==> y == x || Moved(h, chains, i, r, y)))
  {
    var x := chains[i][r];
    assert SlottedChain(h, chains[i], i, |chains|, items);
    assert chains[i][..r + 1] == chains[i][..r] + [x];
    forall a, k | i <= a < |chains| && (if a == i then r + 1 else 0) <= k < |chains[a]| ensures chains[a][k] != x {
      if a != i {
        ChainsApart(h, chains, items, a, i, k, r);
      }
    }
  }

  /** Adding the next item to its new chain moves it. */
  lemma MovedOn(h: HashFunction, chains: seq<seq<Item>>, items: seq<Item>, i: nat, r: nat, new': seq<seq<Item>>)
    requires |chains| > 0 && |new'| > 0 && Slotted(h, chains, items) && i < |chains| && r < |chains[i]|
    requires Redistributed(h, chains, items, i, r, new')
    ensures var b := Slot(h, chains[i][r], |new'|);
      Redistributed(h, chains, items, i, r + 1, new'[b := [chains[i][r]] + new'[b]])
  {
    hide Slotted;
    NextToMove(h, chains, items, i, r, new');
  }

  /** Moves the next item of chain `i` to its new bucket. */
  method MoveItem(h: HashFunction, x: Item, buckets: array<Bucket>, ideal: nat, nonideal0: nat,
                  ghost chains: seq<seq<Item>>, ghost items: seq<Item>,
                  ghost i: nat, ghost r: nat, ghost new0: seq<seq<Item>>)
      returns (nonideal: nat, ghost new': seq<seq<Item>>)
    requires Expanding(h, chains, items, i, r, buckets[..], new0, ideal, nonideal0)
    requires Slotted(h, chains, items) && i < |chains| && r < |chains[i]| && x == chains[i][r] && x.hashv == h(x.key)
    requires exists k: nat :: buckets.Length == Pow2(k)
    modifies buckets, x`hhNext, items`hhPrev
    ensures Expanding(h, chains, items, i, r + 1, buckets[..], new', ideal, nonideal)
  {
    hide Slotted, Redistributed, SlottedChain, BucketOk, Moved;
    NextToMove(h, chains, items, i, r, new0);
    MovedOn(h, chains, items, i, r, new0);
    var b := And(x.hashv, buckets.Length - 1);
    MaskIsSlot(h, x, buckets.Length);
    var count := buckets[b].count + 1;
    var expandMult := buckets[b].expandMult;
    nonideal := nonideal0;
    if count > ideal {
      nonideal := nonideal + 1;
      expandMult := count / ideal;
    }
    new' := new0[b := [x] + new0[b]];
    ExcessesAfter(new0, ideal, b, [x] + new0[b]);
    CountIsLength(buckets[..], new0, items, b);
    AddToBucket(h, buckets, b, x, expandMult, new0, items);
  }

  lemma MaskIsSlot(h: HashFunction, x: Item, m: nat)
    requires exists k: nat :: m == Pow2(k)
    ensures m > 0 && And(h(x.key), m - 1) == Slot(h, x, m)
  {
    var k: nat :| m == Pow2(k);
    MaskIsMod(h(x.key), k);
  }

  lemma CountIsLength(buckets: seq<Bucket>, chains: seq<seq<Item>>, items: seq<Item>, b: nat)
    requires Agree(buckets, chains, items) && b < |buckets|
    ensures buckets[b].count == |chains[b]|
  {
    assert BucketOk(buckets[b], chains[b]);
  }

  /** Once chain `i` has been moved, the next chain is up. */
  lemma ChainMoved(h: HashFunction, chains: seq<seq<Item>>, items: seq<Item>, i: nat, buckets: seq<Bucket>,
                   new': seq<seq<Item>>,
                   ideal: nat, nonideal: nat)
    requires i < |chains| && Slotted(h, chains, items) && Complete(h, chains, items)
    requires Expanding(h, chains, items, i, |chains[i]|, buckets, new', ideal, nonideal)
    ensures Expanding(h, chains, items, i + 1, 0, buckets, new', ideal, nonideal)
  {
    hide BucketsOk, Multiplied;
    assert chains[i][..|chains[i]|] == chains[i];
  }

  /** Moves the items of chain `i`, one after the other, to their new buckets. */
  method MoveChain(h: HashFunction, head: Item?, buckets: array<Bucket>, ideal: nat, nonideal0: nat,
                   ghost chains: seq<seq<Item>>, ghost items: seq<Item>,
                   ghost i: nat, ghost new0: seq<seq<Item>>)
      returns (nonideal: nat, ghost new': seq<seq<Item>>)
    requires Expanding(h, chains, items, i, 0, buckets[..], new0, ideal, nonideal0)
    requires Slotted(h, chains, items) && Complete(h, chains, items) && i < |chains| && head == At(chains[i], 0)
    requires Hashed(h, items)
    requires exists k: nat :: buckets.Length == Pow2(k)
    modifies buckets, items`hhNext, items`hhPrev
    ensures Expanding(h, chains, items, i + 1, 0, buckets[..], new', ideal, nonideal)
  {
    hide BucketsOk, Multiplied, Redistributed, Complete;
    var thh := head;
    ghost var r: nat := 0;
    nonideal, new' := nonideal0, new0;
    while thh != null
      invariant r <= |chains[i]| && thh == At(chains[i], r)
      invariant Expanding(h, chains, items, i, r, buckets[..], new', ideal, nonideal)
      decreases |chains[i]| - r
    {
      assert thh == chains[i][r] && thh in items && thh.hhNext == At(chains[i], r + 1);
      var hhNxt := thh.hhNext;
      nonideal, new' := MoveItem(h, thh, buckets, ideal, nonideal, chains, items, i, r, new');
      thh := hhNxt;
      r := r + 1;
    }
    ChainMoved(h, chains, items, i, buckets[..], new', ideal, nonideal);
  }

  /** New, empty buckets, before anything has been moved. */
  lemma StartExpanding(h: HashFunction, chains: seq<seq<Item>>, items: seq<Item>, old': seq<Bucket>,
                       buckets: seq<Bucket>, ideal: nat)
    requires |chains| > 0 && ideal > 0 && |buckets| == 2 * |chains|
    requires BucketsOk(h, old', chains, items)
    requires forall b :: 0 <= b < |buckets| ==> buckets[b] == Bucket(null, 0, 0)
    ensures Expanding(h, chains, items, 0, 0, buckets, seq(2 * |chains|, _ => []), ideal, 0)
  {
    NoExcesses(2 * |chains|, ideal);
    forall a, k | 0 <= a < |chains| && 0 <= k < |chains[a]|
      ensures chains[a][k] in items && chains[a][k].hhNext == At(chains[a], k + 1)
    {
      assert Within(chains[a], items) && BucketOk(old'[a], chains[a]);
    }
  }

  /** Doubles the buckets and distributes the items over them. Answers the ideal chain length, the number of items
      beyond it, and the new chains. */
  method Expand(h: HashFunction, buckets: array<Bucket>, log2NumBuckets: nat, numItems: nat,
                ghost chains: seq<seq<Item>>, ghost items: seq<Item>)
      returns (newBuckets: array<Bucket>, ideal: nat, nonideal: nat, ghost new': seq<seq<Item>>)
    requires buckets.Length == |chains| == Pow2(log2NumBuckets) && numItems == |items| > 0
    requires BucketsOk(h, buckets[..], chains, items) && Complete(h, chains, items)
    requires Hashed(h, items)
    modifies items`hhNext, items`hhPrev
    ensures fresh(newBuckets) && newBuckets.Length == |new'| == Pow2(log2NumBuckets + 1)
    ensures BucketsOk(h, newBuckets[..], new', items) && Complete(h, new', items)
    ensures ideal == CeilDiv(numItems, newBuckets.Length) > 0
    ensures nonideal == Excesses(new', ideal) && Multiplied(newBuckets[..], ideal)
    ensures forall b :: 0 <= b < newBuckets.Length ==>
              var n, mult := newBuckets[b].count, newBuckets[b].expandMult;
              if n > ideal then ideal * mult <= n < ideal * (mult + 1) else mult == 0
  {
    hide BucketsOk, Multiplied, Redistributed, Complete, Slotted, Untouched, Expanding;
    var numBuckets := buckets.Length;
    newBuckets := new Bucket[2 * numBuckets](_ => Bucket(null, 0, 0));
    ideal := ShiftRight(numItems, log2NumBuckets + 1) + if And(numItems, numBuckets * 2 - 1) != 0 then 1 else 0;
    ShiftAndMaskIsCeil(numItems, log2NumBuckets + 1);
    CeilDivBounds(numItems, 2 * numBuckets);
    nonideal := 0;
    new' := seq(2 * |chains|, _ => []);
    ghost var was := buckets[..];
    StartExpanding(h, chains, items, was, newBuckets[..], ideal);
    HeadsInOrder(h, was, chains, items);
    for i := 0 to numBuckets
      invariant Expanding(h, chains, items, i, 0, newBuckets[..], new', ideal, nonideal)
      invariant buckets[..] == was
    {
      nonideal, new' := MoveChain(h, buckets[i].hhHead, newBuckets, ideal, nonideal, chains, items, i, new');
    }
    AllMoved(h, chains, items, newBuckets[..], new', ideal, nonideal);
    AllBounded(newBuckets[..], ideal);
  }

  lemma HeadsInOrder(h: HashFunction, buckets: seq<Bucket>, chains: seq<seq<Item>>, items: seq<Item>)
    requires BucketsOk(h, buckets, chains, items)
    ensures |buckets| == |chains| && Slotted(h, chains, items) && forall b :: 0 <= b < |chains| ==>
              buckets[b].hhHead == At(chains[b], 0)
  {
    forall b | 0 <= b < |chains| ensures buckets[b].hhHead == At(chains[b], 0) {
      assert BucketOk(buckets[b], chains[b]);
    }
  }

  lemma AllMoved(h: HashFunction, chains: seq<seq<Item>>, items: seq<Item>, buckets: seq<Bucket>, new': seq<seq<Item>>,
                 ideal: nat, nonideal: nat)
    requires Expanding(h, chains, items, |chains|, 0, buckets, new', ideal, nonideal)
    ensures BucketsOk(h, buckets, new', items) && Complete(h, new', items) && |new'| == |buckets| == 2 * |chains|
    ensures nonideal == Excesses(new', ideal) && Multiplied(buckets, ideal)
  {
  }

  /** The chain `c` without its `k`-th item. */
  function Without(c: seq<Item>, k: nat): seq<Item>
    requires k < |c|
  {
    c[..k] + c[k + 1..]
  }

  /** The neighbours of an item once the `k`-th one has been taken out. */
  lemma NeighboursWithout(c: seq<Item>, k: nat, i: nat)
    requires k < |c| && i < |c| - 1 && Distinct(c)
    ensures var rest, j := Without(c, k), if i < k then i else i + 1;
      && rest[i] == c[j] && c[j] != c[k]
      && At(rest, i + 1) == (if j + 1 == k then At(c, k + 1) else At(c, j + 1))
      && At(rest, i - 1) == (if j == k + 1 then At(c, k - 1) else At(c, j - 1))
      && (c[j] == At(c, k - 1) <==> j + 1 == k) && (c[j] == At(c, k + 1) <==> j == k + 1)
  {
  }

  /** Takes an item out of its chain: its neighbours are linked to each other. */
  method Unlink(x: Item, ghost c: seq<Item>, ghost k: nat)
    requires Chained(c) && k < |c| && x == c[k] && Distinct(c)
    modifies Just(At(c, k - 1))`hhNext, Just(At(c, k + 1))`hhPrev
    ensures Chained(Without(c, k))
  {
    assert x.hhNext == At(c, k + 1) && x.hhPrev == At(c, k - 1);
    if x.hhPrev != null {
      x.hhPrev.hhNext := x.hhNext;
    }
    if x.hhNext != null {
      x.hhNext.hhPrev := x.hhPrev;
    }
    ghost var rest := Without(c, k);
    forall i | 0 <= i < |rest| ensures rest[i].hhNext == At(rest, i + 1) && rest[i].hhPrev == At(rest, i - 1) {
      NeighboursWithout(c, k, i);
    }
  }

  lemma ShorterSlotted(h: HashFunction, chains: seq<seq<Item>>, items: seq<Item>, b: nat, k: nat)
    requires Slotted(h, chains, items) && b < |chains| && k < |chains[b]|
    ensures Slotted(h, chains[b := Without(chains[b], k)], items)
  {
    assert SlottedChain(h, chains[b], b, |chains|, items);
    ghost var d := Without(chains[b], k);
    forall i | 0 <= i < |d| ensures d[i] == chains[b][if i < k then i else i + 1] {
    }
  }

  /** The chains other than `b` are apart from the items of chain `b`. */
  lemma ApartFromChain(h: HashFunction, chains: seq<seq<Item>>, items: seq<Item>, b: nat)
    requires Slotted(h, chains, items) && b < |chains|
    ensures forall a, k, l :: 0 <= a < |chains| && a != b && 0 <= k < |chains[a]| ==> chains[a][k] != At(chains[b], l)
  {
    forall a, k, l | 0 <= a < |chains| && a != b && 0 <= k < |chains[a]| ensures chains[a][k] != At(chains[b], l) {
      if 0 <= l < |chains[b]| {
        ChainsApart(h, chains, items, a, b, k, l);
      }
    }
  }

  /** A bucket after an item has been taken out of its chain. */
  method Cut(bucket: Bucket, x: Item, ghost c: seq<Item>, ghost k: nat) returns (after: Bucket)
    requires BucketOk(bucket, c) && k < |c| && x == c[k] && Distinct(c)
    modifies Just(At(c, k - 1))`hhNext, Just(At(c, k + 1))`hhPrev
    ensures BucketOk(after, Without(c, k)) && after.expandMult == bucket.expandMult
  {
    after := bucket.(count := bucket.count - 1);
    if after.hhHead == x {
      FirstOnly(c, k);
      after := after.(hhHead := x.hhNext);
    }
    Unlink(x, c, k);
  }

  /** Takes an item out of its bucket. */
  method DelInBucket(h: HashFunction, buckets: array<Bucket>, b: nat, x: Item, ghost chains: seq<seq<Item>>,
                     ghost items: seq<Item>, ghost k: nat)
    requires BucketsOk(h, buckets[..], chains, items)
    requires b < |chains| && k < |chains[b]| && x == chains[b][k]
    modifies buckets, items`hhNext, items`hhPrev
    ensures BucketsOk(h, buckets[..], chains[b := Without(chains[b], k)], items)
    ensures forall a :: 0 <= a < buckets.Length ==> buckets[a].expandMult == old(buckets[a].expandMult)
  {
    hide Slotted, SlottedChain, Distinct, BucketOk;
    ghost var after := chains[b := Without(chains[b], k)];
    ShorterSlotted(h, chains, items, b, k);
    ApartFromChain(h, chains, items, b);
    ChainParts(h, chains, items, b);
    assert Within(chains[b], items) && Within(after[b], items) && BucketOk(buckets[b], chains[b]);
    var bucket := Cut(buckets[b], x, chains[b], k);
    buckets[b] := bucket;
    forall a | 0 <= a < |after| ensures Within(after[a], items) && BucketOk(buckets[a], after[a]) {
      if a != b {
        assert old(BucketOk(buckets[a], chains[a]));
      }
    }
  }

  lemma FirstOnly(c: seq<Item>, k: nat)
    requires Distinct(c) && k < |c| && c[0] == c[k]
    ensures k == 0
  {
  }

  /** The first item of a chain with that key. */
  ghost function FirstWithKey(c: seq<Item>, key: seq<byte>): Item? {
    if c == [] then null else if c[0].key == key then c[0] else FirstWithKey(c[1..], key)
  }

  lemma {:induction false} FirstWithKeyFound(c: seq<Item>, key: seq<byte>)
    ensures FirstWithKey(c, key) != null <==> exists x :: x in c && x.key == key
    ensures FirstWithKey(c, key) != null ==> FirstWithKey(c, key) in c && FirstWithKey(c, key).key == key
  {
    if c != [] {
      FirstWithKeyFound(c[1..], key);
      assert c == [c[0]] + c[1..];
    }
  }

  /** Looks for a key along the chain of a bucket. */
  method FindInBucket(head: Item?, key: seq<byte>, ghost c: seq<Item>) returns (out: Item?)
    requires Chained(c) && head == At(c, 0)
    ensures out == FirstWithKey(c, key)
  {
    out := head;
    ghost var k: nat := 0;
    while out != null
      invariant k <= |c| && out == At(c, k)
      invariant FirstWithKey(c[k..], key) == FirstWithKey(c, key)
      decreases |c| - k
    {
      if |out.key| == |key| {
        if out.key == key {
          break;
        }
      }
      assert c[k..][1..] == c[k + 1..];
      out := out.hhNext;
      k := k + 1;
    }
  }
}
