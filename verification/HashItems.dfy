/** The items of a hash table, and the links that thread them. */
module HashItems {
  import opened Arith

  /** An item with its hash handle: one pair of links for the order of insertion, one for the chain of its bucket. */
  class Item {
    const key: seq<byte>
    var next: Item?
    var prev: Item?
    var hhNext: Item?
    var hhPrev: Item?
    var hashv: nat

    constructor (key: seq<byte>)
      ensures this.key == key
    {
      this.key := key;
      next, prev, hhNext, hhPrev, hashv := null, null, null, null, 0;
    }
  }

  /** The `k`-th item; none outside the sequence. */
  ghost function At(s: seq<Item>, k: int): Item? {
    if 0 <= k < |s| then s[k] else null
  }

  /** An item, if there is one. */
  ghost function Just(x: Item?): set<Item> {
    if x == null then {} else {x}
  }

  /** The items of `s` are linked in both directions in the order of insertion. */
  ghost predicate Listed(s: seq<Item>)
    reads s`next, s`prev
  {
    forall k :: 0 <= k < |s| ==> s[k].next == At(s, k + 1) && s[k].prev == At(s, k - 1)
  }

  /** The items of `s` are linked in both directions as the chain of a bucket. */
  ghost predicate Chained(s: seq<Item>)
    reads s`hhNext, s`hhPrev
  {
    forall k :: 0 <= k < |s| ==> s[k].hhNext == At(s, k + 1) && s[k].hhPrev == At(s, k - 1)
  }
}
