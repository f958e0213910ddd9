/** Bottom-up merge sort of the insertion-order list of a hash table, in place. */
module ListSort {
  import opened Arith
  import opened Wrappers
  import opened HashItems
  import opened MergeSort

  /** From index `lo` up to `hi`, the items of `s` still lead to the next one. */
  ghost predicate Leads(s: seq<Item>, lo: nat, hi: nat)
    reads s`next
  {
    hi <= |s| && forall k :: lo <= k < hi ==> s[k].next == At(s, k + 1)
  }

  /** The items emitted so far are linked, except for what the last one leads to. */
  ghost predicate Emitted(out: seq<Item>, list: Item?, tail: Item?)
    reads out`next, out`prev
  {
    && list == At(out, 0) && tail == At(out, |out| - 1)
    && (forall k :: 0 <= k < |out| ==> out[k].prev == At(out, k - 1))
    && (forall k :: 0 <= k < |out| - 1 ==> out[k].next == out[k + 1])
  }

  /** Puts `e` behind the items emitted so far. */
  method Emit(e: Item, list: Item?, tail: Item?, ghost out: seq<Item>) returns (list': Item?, tail': Item?)
    requires Emitted(out, list, tail) && e !in out && Distinct(out)
    modifies Just(tail)`next, e`prev
    ensures Emitted(out + [e], list', tail') && Distinct(out + [e])
  {
    list' := list;
    if tail != null {
      tail.next := e;
    } else {
      list' := e;
    }
    e.prev := tail;
    tail' := e;
  }

  /** Steps over up to `n` items from `p` on: how many there were, and what stands behind them. */
  method SkipRun(p: Item, n: nat, ghost s: seq<Item>, ghost i: nat) returns (size: nat, q: Item?)
    requires n > 0 && i < |s| && p == s[i] && Leads(s, i, |s|)
    ensures size == Min(n, |s| - i) && q == At(s, i + size)
  {
    size := 0;
    q := p;
    var k := 0;
    while k < n
      invariant k == size <= n && i + size < |s| && q == s[i + size]
    {
      size := size + 1;
      q := q.next;
      if q == null {
        break;
      }
      k := k + 1;
    }
  }

  /** The heads of two runs, and what a merge does with them. */
  lemma MergeUnfold(cmp: (Item, Item) -> int, s: seq<Item>, i: nat, m: nat, j: nat, hi: nat)
    requires i <= m <= j <= hi <= |s|
    ensures i < m && (j == hi || cmp(s[i], s[j]) <= 0) ==>
              Merge(cmp, s[i..m], s[j..hi]) == [s[i]] + Merge(cmp, s[i + 1..m], s[j..hi])
    ensures j < hi && (i == m || cmp(s[i], s[j]) > 0) ==>
              Merge(cmp, s[i..m], s[j..hi]) == [s[j]] + Merge(cmp, s[i..m], s[j + 1..hi])
  {
    var a, b := s[i..m], s[j..hi];
    assert i < m ==> a[1..] == s[i + 1..m] && a == [s[i]] + s[i + 1..m];
    assert j < hi ==> b[1..] == s[j + 1..hi] && b == [s[j]] + s[j + 1..hi];
  }

  /** Where the merge of the runs `i..m` and `j..hi` of `s` stands: the items emitted are apart from those still to
      come, and together they will be `goal`. */
  ghost predicate Merging(cmp: (Item, Item) -> int, s: seq<Item>, i: nat, m: nat, j: nat, hi: nat, out: seq<Item>,
                          goal: seq<Item>)
    reads s`next
  {
    && i <= m <= j <= hi <= |s|
    && Leads(s, i, m) && Leads(s, j, |s|)
    && Distinct(out) && (forall x :: x in out ==> x in s)
    && (forall k :: i <= k < m || j <= k < |s| ==> s[k] !in out)
    && out + Merge(cmp, s[i..m], s[j..hi]) == goal
  }

  /** Emits the head of one of two runs: the one a merge takes first. */
  method EmitHead(e: Item, list: Item?, tail: Item?, cmp: (Item, Item) -> int, ghost s: seq<Item>, ghost i: nat,
                  ghost m: nat,
                  ghost j: nat, ghost hi: nat, ghost out: seq<Item>, ghost goal: seq<Item>, ghost first: bool)
      returns (list': Item?, tail': Item?)
    requires Merging(cmp, s, i, m, j, hi, out, goal) && Emitted(out, list, tail) && Distinct(s)
    requires first ==> i < m && e == s[i] && (j == hi || cmp(s[i], s[j]) <= 0)
    requires !first ==> j < hi && e == s[j] && (i == m || cmp(s[i], s[j]) > 0)
    modifies s`next, s`prev
    ensures Merging(cmp, s, if first then i + 1 else i, m, if first then j else j + 1, hi, out + [e], goal)
    ensures Emitted(out + [e], list', tail')
  {
    hide Merge;
    MergeUnfold(cmp, s, i, m, j, hi);
    assert tail != null ==> tail in out;
    list', tail' := Emit(e, list, tail, out);
    ghost var rest := if first then Merge(cmp, s[i + 1..m], s[j..hi]) else Merge(cmp, s[i..m], s[j + 1..hi]);
    BehindLast(out, e, rest);
  }

  lemma BehindLast(out: seq<Item>, e: Item, rest: seq<Item>)
    ensures out + ([e] + rest) == (out + [e]) + rest
  {
  }

  /** Takes the head of one of two runs, the one a merge takes first, and moves on in that run. */
  method TakeHead(p0: Item?, q0: Item?, psize0: nat, qsize0: nat, cmp: (Item, Item) -> int,
                  ghost s: seq<Item>, ghost i: nat, ghost m: nat, ghost j: nat, ghost hi: nat)
      returns (e: Item, p: Item?, q: Item?, psize: nat, qsize: nat, ghost first: bool)
    requires i <= m <= j <= hi <= |s| && Leads(s, i, m) && Leads(s, j, |s|)
    requires psize0 == m - i && (psize0 > 0 ==> p0 == s[i]) && q0 == At(s, j) && (qsize0 > 0 && q0 != null <==> j < hi)
    requires psize0 > 0 || (qsize0 > 0 && q0 != null)
    ensures first ==> i < m && e == s[i] && (j == hi || cmp(s[i], s[j]) <= 0)
    ensures first ==> p == At(s, i + 1) && psize == psize0 - 1 && q == q0 && qsize == qsize0
    ensures !first ==> j < hi && e == s[j] && (i == m || cmp(s[i], s[j]) > 0)
    ensures !first ==> q == At(s, j + 1) && qsize == qsize0 - 1 && p == p0 && psize == psize0
  {
    p, q, psize, qsize := p0, q0, psize0, qsize0;
    first := psize > 0 && (qsize == 0 || q == null || cmp(p, q) <= 0);
    if psize == 0 {
      e := q;
      q := q.next;
      qsize := qsize - 1;
    } else if qsize == 0 || q == null {
      e := p;
      p := p.next;
      psize := psize - 1;
    } else if cmp(p, q) <= 0 {
      e := p;
      p := p.next;
      psize := psize - 1;
    } else {
      e := q;
      q := q.next;
      qsize := qsize - 1;
    }
  }

  /** Merges the run that starts with `p0` and the run that starts with `q0`, and puts the result behind the items
      emitted so far; answers what stands behind the second run. */
  method MergeRuns(p0: Item, q0: Item?, psize0: nat, n: nat, cmp: (Item, Item) -> int, list0: Item?, tail0: Item?,
                   ghost s: seq<Item>, ghost i0: nat, ghost out0: seq<Item>, ghost goal: seq<Item>)
      returns (q: Item?, list: Item?, tail: Item?, ghost out: seq<Item>)
    requires n > 0 && i0 < |s| && p0 == s[i0] && psize0 == Min(n, |s| - i0) && q0 == At(s, i0 + psize0) && Distinct(s)
    requires Merging(cmp, s, i0, i0 + psize0, i0 + psize0, Min(i0 + psize0 + n, |s|), out0, goal)
    requires Emitted(out0, list0, tail0)
    modifies s`next, s`prev
    ensures var hi := Min(i0 + psize0 + n, |s|);
      && q == At(s, hi) && Merging(cmp, s, i0 + psize0, i0 + psize0, hi, hi, out, goal)
    ensures Emitted(out, list, tail)
  {
    hide Merge, Distinct, Emitted;
    ghost var i: nat := i0;
    ghost var m: nat := i0 + psize0;
    ghost var j: nat := m;
    ghost var hi := Min(i0 + psize0 + n, |s|);
    var p: Item? := p0;
    var psize, qsize := psize0, n;
    q, list, tail, out := q0, list0, tail0, out0;
    while psize > 0 || (qsize > 0 && q != null)
      invariant Merging(cmp, s, i, m, j, hi, out, goal)
      invariant psize == m - i && qsize == n - (j - m) && q == At(s, j) && (psize > 0 ==> p == s[i])
      invariant Emitted(out, list, tail)
      decreases psize + qsize
    {
      var e: Item;
      ghost var first: bool;
      e, p, q, psize, qsize, first := TakeHead(p, q, psize, qsize, cmp, s, i, m, j, hi);
      list, tail := EmitHead(e, list, tail, cmp, s, i, m, j, hi, out, goal, first);
      i, j, out := if first then i + 1 else i, if first then j else j + 1, out + [e];
    }
    assert i == m && j == hi;
  }

  /** Where a pass stands before the merge that starts at index `i`. */
  ghost predicate Passing(cmp: (Item, Item) -> int, s: seq<Item>, i: nat, n: nat, out: seq<Item>)
    reads s`next
  {
    && n > 0 && i <= |s|
    && Leads(s, i, |s|)
    && Distinct(out) && (forall x :: x in out ==> x in s)
    && (forall k :: i <= k < |s| ==> s[k] !in out)
    && out + Pass(cmp, s[i..], n) == Pass(cmp, s, n)
  }

  /** What the merge that starts at index `i` is to emit. */
  ghost function Goal(cmp: (Item, Item) -> int, s: seq<Item>, i: nat, n: nat, out: seq<Item>): seq<Item>
    requires i <= |s|
  {
    var m := i + Min(n, |s| - i);
    out + Merge(cmp, s[i..m], s[m..Min(m + n, |s|)])
  }

  lemma StartMerge(cmp: (Item, Item) -> int, s: seq<Item>, i: nat, n: nat, out: seq<Item>)
    requires Passing(cmp, s, i, n, out) && i < |s|
    ensures var m := i + Min(n, |s| - i);
      Merging(cmp, s, i, m, m, Min(m + n, |s|), out, Goal(cmp, s, i, n, out))
  {
    hide Merge, Distinct, Pass;
  }

  lemma EndMerge(cmp: (Item, Item) -> int, s: seq<Item>, i: nat, n: nat, out: seq<Item>, out': seq<Item>)
    requires n > 0 && i < |s| && out + Pass(cmp, s[i..], n) == Pass(cmp, s, n)
    requires var m := i + Min(n, |s| - i);
      Merging(cmp, s, m, m, Min(m + n, |s|), Min(m + n, |s|), out', Goal(cmp, s, i, n, out))
    ensures Passing(cmp, s, Min(i + Min(n, |s| - i) + n, |s|), n, out')
  {
    hide Merge, Distinct, Pass;
    var m, hi := i + Min(n, |s| - i), Min(i + Min(n, |s| - i) + n, |s|);
    NothingToMerge(cmp, s, m, hi);
    PassUnfold(cmp, s, i, n);
    Regroup(out, Merge(cmp, s[i..m], s[m..hi]), Pass(cmp, s[hi..], n), out');
  }

  lemma Regroup(out: seq<Item>, merged: seq<Item>, rest: seq<Item>, out': seq<Item>)
    requires out' + [] == out + merged
    ensures out' + rest == out + (merged + rest)
  {
    assert out' + [] == out';
  }

  lemma NothingToMerge(cmp: (Item, Item) -> int, s: seq<Item>, m: nat, hi: nat)
    requires m <= hi <= |s|
    ensures Merge(cmp, s[m..m], s[hi..hi]) == []
  {
  }

  /** One pass: merges the runs of `n` items two by two, over the whole list. Tells how many merges that took, up to
      two. */
  method PassList(head: Item, n: nat, cmp: (Item, Item) -> int, ghost s: seq<Item>)
      returns (list: Item, tail: Item, nmerges: nat)
    requires n > 0 && s != [] && head == s[0] && Leads(s, 0, |s|) && Distinct(s)
    modifies s`next, s`prev
    ensures |Pass(cmp, s, n)| == |s| && Listed(Pass(cmp, s, n)) && Distinct(Pass(cmp, s, n))
    ensures list == Pass(cmp, s, n)[0] && tail == Pass(cmp, s, n)[|s| - 1]
    ensures nmerges <= 1 <==> |s| <= 2 * n
  {
    hide Merge, Pass, Distinct, Emitted, Leads, Listed, Passing;
    var first, last;
    ghost var out;
    first, last, nmerges, out := MergeAll(head, n, cmp, s);
    EndPass(cmp, s, n, out, first, last);
    Terminate(first, last, out);
    list, tail := first, last;
  }

  /** The merges of a pass, one pair of runs after the other. */
  method MergeAll(head: Item, n: nat, cmp: (Item, Item) -> int, ghost s: seq<Item>)
      returns (first: Item?, last: Item?, nmerges: nat, ghost out: seq<Item>)
    requires n > 0 && s != [] && head == s[0] && Leads(s, 0, |s|) && Distinct(s)
    modifies s`next, s`prev
    ensures Passing(cmp, s, |s|, n, out) && Emitted(out, first, last)
    ensures nmerges <= 1 <==> |s| <= 2 * n
  {
    hide Merge, Pass, Distinct, Emitted, Leads, MergeCount, Passing, Min;
    NextMerge(0, 0, n, |s|);
    StartPass(cmp, s, n);
    var p: Item? := head;
    ghost var i: nat := 0;
    first, last, nmerges, out := null, null, 0, [];
    while p != null
      invariant i <= |s| && Passing(cmp, s, i, n, out) && p == At(s, i) && Emitted(out, first, last)
      invariant MergeCount(nmerges, i, n, |s|)
      decreases |s| - i
    {
      NextMerge(nmerges, i, n, |s|);
      nmerges := nmerges + 1;
      i, p, first, last, out := PassTurn(p, n, cmp, first, last, s, i, out);
    }
    NextMerge(nmerges, i, n, |s|);
  }

  /** How many merges of runs of `n` it takes to get to index `i`, as far as that matters. */
  ghost predicate MergeCount(count: nat, i: nat, n: nat, len: nat) {
    && (count == 0 <==> i == 0)
    && (count == 1 ==> i == Min(2 * n, len))
    && (count >= 2 ==> len > 2 * n)
  }

  lemma NextMerge(count: nat, i: nat, n: nat, len: nat)
    requires n > 0 && len > 0 && i <= len
    ensures MergeCount(0, 0, n, len)
    ensures MergeCount(count, i, n, len) && i < len ==> MergeCount(count + 1, Min(i + Min(n, len - i) + n, len), n, len)
    ensures MergeCount(count, i, n, len) && i == len ==> (count <= 1 <==> len <= 2 * n)
  {
  }

  lemma StartPass(cmp: (Item, Item) -> int, s: seq<Item>, n: nat)
    requires n > 0 && Leads(s, 0, |s|)
    ensures Passing(cmp, s, 0, n, []) && Emitted([], null, null)
  {
    assert s[0..] == s;
  }

  lemma EndPass(cmp: (Item, Item) -> int, s: seq<Item>, n: nat, out: seq<Item>, first: Item?, last: Item?)
    requires Passing(cmp, s, |s|, n, out) && Emitted(out, first, last) && s != []
    ensures out == Pass(cmp, s, n) && |out| == |s| && Distinct(out)
    ensures first == out[0] && last == out[|out| - 1] && last in s
  {
    PassLength(cmp, s, n);
    assert s[|s|..] == [] && Pass(cmp, s[|s|..], n) == [];
    assert out + [] == out;
    assert out[|out| - 1] in out;
  }

  /** Ends the list of the items emitted. */
  method Terminate(first: Item, last: Item, ghost out: seq<Item>)
    requires Emitted(out, first, last) && Distinct(out)
    modifies last`next
    ensures Listed(out)
  {
    last.next := null;
  }

  /** One merge of a pass: finds its two runs and merges them. */
  method PassTurn(p0: Item, n: nat, cmp: (Item, Item) -> int, first0: Item?, last0: Item?, ghost s: seq<Item>,
                  ghost i0: nat, ghost out0: seq<Item>)
      returns (ghost i: nat, p: Item?, first: Item?, last: Item?, ghost out: seq<Item>)
    requires Passing(cmp, s, i0, n, out0) && i0 < |s| && p0 == s[i0] && Emitted(out0, first0, last0) && Distinct(s)
    modifies s`next, s`prev
    ensures i0 < i <= |s|
    ensures Passing(cmp, s, i, n, out) && i == Min(i0 + Min(n, |s| - i0) + n, |s|) && p == At(s, i)
            && Emitted(out, first, last)
  {
    hide Merge, Distinct, Pass, Emitted, Merging, Goal, Leads;
    var psize, q := SkipRun(p0, n, s, i0);
    StartMerge(cmp, s, i0, n, out0);
    p, first, last, out := MergeRuns(p0, q, psize, n, cmp, first0, last0, s, i0, out0, Goal(cmp, s, i0, n, out0));
    EndMerge(cmp, s, i0, n, out0, out);
    i := Min(i0 + psize + n, |s|);
  }

  lemma PassUnfold(cmp: (Item, Item) -> int, s: seq<Item>, i: nat, n: nat)
    requires n > 0 && i < |s|
    ensures var m, hi := i + Min(n, |s| - i), Min(i + Min(n, |s| - i) + n, |s|);
      m <= hi <= |s| && Pass(cmp, s[i..], n) == Merge(cmp, s[i..m], s[m..hi]) + Pass(cmp, s[hi..], n)
  {
    hide Merge;
    var a, b := Min(n, |s| - i), Min(2 * n, |s| - i);
    Slices(s, i, 0, a);
    Slices(s, i, a, b);
    assert s[i..][..a] == s[i..][0..a];
  }

  lemma Slices(s: seq<Item>, i: nat, a: nat, b: nat)
    requires a <= b && i + b <= |s|
    ensures s[i..][a..b] == s[i + a..i + b] && s[i..][b..] == s[i + b..]
  {
  }

  lemma SortUnfold(cmp: (Item, Item) -> int, s: seq<Item>, n: nat)
    requires n > 0
    ensures forall k :: 0 <= k < |Pass(cmp, s, n)| ==> Pass(cmp, s, n)[k] in s
    ensures Sorted(cmp, s, n) == if |s| <= 2 * n then Pass(cmp, s, n) else Sorted(cmp, Pass(cmp, s, n), n * 2)
  {
    hide Pass, Merge;
    PassLength(cmp, s, n);
    PassItems(cmp, s, n);
  }

  lemma PassItems(cmp: (Item, Item) -> int, s: seq<Item>, n: nat)
    requires n > 0
    ensures forall k :: 0 <= k < |Pass(cmp, s, n)| ==> Pass(cmp, s, n)[k] in s
  {
    forall k | 0 <= k < |Pass(cmp, s, n)| ensures Pass(cmp, s, n)[k] in s {
      PassElements(cmp, s, n, Pass(cmp, s, n)[k]);
    }
  }

  /** Sorts the list in place; answers its new first and last items. */
  method SortList(head: Item, cmp: (Item, Item) -> int, ghost items: seq<Item>) returns (first: Item, last: Item)
    requires items != [] && head == items[0] && Listed(items) && Distinct(items)
    modifies items`next, items`prev
    ensures |Sorted(cmp, items, 1)| == |items| && Listed(Sorted(cmp, items, 1)) && Distinct(Sorted(cmp, items, 1))
    ensures first == Sorted(cmp, items, 1)[0] && last == Sorted(cmp, items, 1)[|items| - 1]
  {
    hide Merge, Pass, Distinct, Sorted;
    SortedPermutes(cmp, items, 1);
    var insize: nat := 1;
    var looping := true;
    ghost var s := items;
    first, last := head, head;
    while looping
      invariant insize > 0 && s != [] && |s| == |items| && Distinct(s) && Listed(s)
      invariant forall k :: 0 <= k < |s| ==> s[k] in items
      invariant looping ==> first == s[0] && Sorted(cmp, s, insize) == Sorted(cmp, items, 1)
      invariant !looping ==> first == s[0] && last == s[|s| - 1] && s == Sorted(cmp, items, 1)
      decreases looping, |items| - insize
    {
      var nmerges;
      SortUnfold(cmp, s, insize);
      first, last, nmerges := PassList(first, insize, cmp, s);
      s := Pass(cmp, s, insize);
      if nmerges <= 1 {
        looping := false;
      }
      insize := insize * 2;
    }
  }
}
