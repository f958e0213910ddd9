/** Bottom-up merge sort, on sequences. */
module MergeSort {
  import opened Arith
  import opened Wrappers

  /** Merges two runs; where neither element must come first, the one from the first run does. */
  function Merge<T>(cmp: (T, T) -> int, a: seq<T>, b: seq<T>): seq<T>
    decreases |a| + |b|
  {
    if a == [] then b
    else if b == [] then a
    else if cmp(a[0], b[0]) <= 0 then [a[0]] + Merge(cmp, a[1..], b)
    else [b[0]] + Merge(cmp, a, b[1..])
  }

  /** Merges the runs of `n` elements two by two. */
  function Pass<T>(cmp: (T, T) -> int, s: seq<T>, n: nat): seq<T>
    requires n > 0
    decreases |s|
  {
    if s == [] then []
    else Merge(cmp, s[..Min(n, |s|)], s[Min(n, |s|)..Min(2 * n, |s|)]) + Pass(cmp, s[Min(2 * n, |s|)..], n)
  }

  /** Passes over runs of `n`, `2n`, `4n`, ... elements, up to the one that needs at most one merge. */
  function Sorted<T>(cmp: (T, T) -> int, s: seq<T>, n: nat): seq<T>
    requires n > 0
    decreases |s| - n
  {
    PassLength(cmp, s, n);
    if |s| <= 2 * n then Pass(cmp, s, n) else Sorted(cmp, Pass(cmp, s, n), 2 * n)
  }

  lemma {:induction false} MergePermutes<T>(cmp: (T, T) -> int, a: seq<T>, b: seq<T>)
    ensures multiset(Merge(cmp, a, b)) == multiset(a) + multiset(b) && |Merge(cmp, a, b)| == |a| + |b|
    decreases |a| + |b|
  {
    if a != [] && b != [] {
      assert a == [a[0]] + a[1..] && b == [b[0]] + b[1..];
      if cmp(a[0], b[0]) <= 0 {
        MergePermutes(cmp, a[1..], b);
      } else {
        MergePermutes(cmp, a, b[1..]);
      }
    }
  }

  lemma ThreeParts<T>(s: seq<T>, i: nat, j: nat)
    requires i <= j <= |s|
    ensures multiset(s) == multiset(s[..i]) + multiset(s[i..j]) + multiset(s[j..])
  {
    assert s == s[..i] + s[i..j] + s[j..];
  }

  lemma {:induction false} PassLength<T>(cmp: (T, T) -> int, s: seq<T>, n: nat)
    requires n > 0
    ensures multiset(Pass(cmp, s, n)) == multiset(s) && |Pass(cmp, s, n)| == |s|
    decreases |s|
  {
    if s != [] {
      hide Merge;
      var i, j := Min(n, |s|), Min(2 * n, |s|);
      MergePermutes(cmp, s[..i], s[i..j]);
      PassLength(cmp, s[j..], n);
      ThreeParts(s, i, j);
    }
  }

  /** Sorting rearranges, whatever the comparison function. */
  lemma {:induction false} SortedPermutes<T>(cmp: (T, T) -> int, s: seq<T>, n: nat)
    requires n > 0
    ensures multiset(Sorted(cmp, s, n)) == multiset(s) && |Sorted(cmp, s, n)| == |s|
    decreases |s| - n
  {
    PassLength(cmp, s, n);
    if |s| > 2 * n {
      SortedPermutes(cmp, Pass(cmp, s, n), 2 * n);
    }
  }

  /** Where `x` first stands in `s`. */
  ghost function IndexOf<T>(s: seq<T>, x: T): (i: nat)
    ensures i <= |s| && (i < |s| ==> s[i] == x)
    ensures x in s ==> i < |s|
  {
    if s == [] || s[0] == x then 0 else 1 + IndexOf(s[1..], x)
  }

  lemma {:induction false} IndexOfAt<T>(s: seq<T>, i: nat)
    requires Distinct(s) && i < |s|
    ensures IndexOf(s, s[i]) == i
  {
    if i > 0 {
      assert s[1..][i - 1] == s[i];
      IndexOfAt(s[1..], i - 1);
    }
  }

  /** The comparison function orders any two elements of `s`, transitively; elements may be equivalent. */
  ghost predicate TotalPreorder<T>(cmp: (T, T) -> int, s: seq<T>) {
    && (forall x, y :: x in s && y in s ==> cmp(x, y) <= 0 || cmp(y, x) <= 0)
    && (forall x, y, z :: x in s && y in s && z in s && cmp(x, y) <= 0 && cmp(y, z) <= 0 ==> cmp(x, z) <= 0)
  }

  /** `x` may stand before `y`: it is no greater, and if it stood behind `y` in `orig`, it is less. */
  ghost predicate MayPrecede<T>(cmp: (T, T) -> int, orig: seq<T>, x: T, y: T) {
    if IndexOf(orig, x) < IndexOf(orig, y) then cmp(x, y) <= 0 else cmp(y, x) > 0
  }

  ghost predicate InOrder<T>(cmp: (T, T) -> int, orig: seq<T>, s: seq<T>) {
    forall i, j :: 0 <= i < j < |s| ==> MayPrecede(cmp, orig, s[i], s[j])
  }

  /** Every element of `a` stands before every element of `b` in `orig`. */
  ghost predicate Ahead<T>(orig: seq<T>, a: seq<T>, b: seq<T>) {
    forall x, y :: x in a && y in b ==> IndexOf(orig, x) < IndexOf(orig, y)
  }

  /** An element that may precede all of a run in order makes a longer run in order. */
  lemma ConsInOrder<T>(cmp: (T, T) -> int, orig: seq<T>, x: T, s: seq<T>)
    requires InOrder(cmp, orig, s) && forall y :: y in s ==> MayPrecede(cmp, orig, x, y)
    ensures InOrder(cmp, orig, [x] + s)
  {
  }

  lemma MergeElements<T>(cmp: (T, T) -> int, a: seq<T>, b: seq<T>, x: T)
    ensures x in Merge(cmp, a, b) <==> x in a || x in b
  {
    MergePermutes(cmp, a, b);
    assert x in multiset(Merge(cmp, a, b)) <==> x in multiset(a) + multiset(b);
  }

  /** The smaller head of two runs in order may precede everything else. */
  lemma HeadFirst<T>(cmp: (T, T) -> int, orig: seq<T>, a: seq<T>, b: seq<T>, y: T)
    requires a != [] && b != [] && TotalPreorder(cmp, orig) && (forall x :: x in a + b ==> x in orig)
    requires InOrder(cmp, orig, a) && InOrder(cmp, orig, b) && Ahead(orig, a, b)
    ensures cmp(a[0], b[0]) <= 0 && (y in a[1..] || y in b) ==> MayPrecede(cmp, orig, a[0], y)
    ensures cmp(a[0], b[0]) > 0 && (y in a || y in b[1..]) ==> MayPrecede(cmp, orig, b[0], y)
  {
    assert a[0] in a + b && b[0] in a + b;
    if y in a[1..] {
      var i :| 0 <= i < |a| - 1 && a[1..][i] == y;
      assert MayPrecede(cmp, orig, a[0], a[i + 1]);
    }
    if y in b[1..] {
      var j :| 0 <= j < |b| - 1 && b[1..][j] == y;
      assert MayPrecede(cmp, orig, b[0], b[j + 1]);
    }
    if y in a || y in b {
      assert y in a + b;
    }
  }

  /** Merging two runs in order, the first ahead of the second, gives a run in order. */
  lemma {:induction false} MergeInOrder<T>(cmp: (T, T) -> int, orig: seq<T>, a: seq<T>, b: seq<T>)
    requires TotalPreorder(cmp, orig) && (forall x :: x in a + b ==> x in orig)
    requires InOrder(cmp, orig, a) && InOrder(cmp, orig, b) && Ahead(orig, a, b)
    ensures InOrder(cmp, orig, Merge(cmp, a, b))
    decreases |a| + |b|
  {
    if a != [] && b != [] {
      var first := cmp(a[0], b[0]) <= 0;
      var x, rest := if first then a[0] else b[0], if first then Merge(cmp, a[1..], b) else Merge(cmp, a, b[1..]);
      if first {
        MergeInOrder(cmp, orig, a[1..], b);
      } else {
        MergeInOrder(cmp, orig, a, b[1..]);
      }
      forall y | y in rest ensures MayPrecede(cmp, orig, x, y) {
        if first {
          MergeElements(cmp, a[1..], b, y);
        } else {
          MergeElements(cmp, a, b[1..], y);
        }
        HeadFirst(cmp, orig, a, b, y);
      }
      ConsInOrder(cmp, orig, x, rest);
    }
  }

  /** Runs of `n` elements: each in order, and ahead of the ones behind it. */
  ghost predicate Runs<T>(cmp: (T, T) -> int, orig: seq<T>, s: seq<T>, n: nat)
    requires n > 0
    decreases |s|
  {
    s == []
    || (InOrder(cmp, orig, s[..Min(n, |s|)]) && Ahead(orig, s[..Min(n, |s|)], s[Min(n, |s|)..])
        && Runs(cmp, orig, s[Min(n, |s|)..], n))
  }

  lemma PassElements<T>(cmp: (T, T) -> int, s: seq<T>, n: nat, x: T)
    requires n > 0
    ensures x in Pass(cmp, s, n) <==> x in s
  {
    PassLength(cmp, s, n);
    assert x in multiset(Pass(cmp, s, n)) <==> x in multiset(s);
  }

  /** The first two runs and what is behind them. */
  lemma FirstRuns<T>(cmp: (T, T) -> int, orig: seq<T>, s: seq<T>, n: nat)
    requires n > 0 && s != [] && Runs(cmp, orig, s, n)
    ensures var i, j := Min(n, |s|), Min(2 * n, |s|);
      && InOrder(cmp, orig, s[..i]) && InOrder(cmp, orig, s[i..j]) && Ahead(orig, s[..i], s[i..j])
      && Ahead(orig, s[..i] + s[i..j], s[j..]) && Runs(cmp, orig, s[j..], n)
  {
    var i, j := Min(n, |s|), Min(2 * n, |s|);
    var rest := s[i..];
    if rest != [] {
      var k := Min(n, |rest|);
      assert rest[..k] == s[i..j] && rest[k..] == s[j..];
      assert forall y :: y in s[j..] ==> y in rest;
      assert forall y :: y in s[i..j] ==> y in rest;
    }
  }

  /** A pass over runs of `n` elements leaves runs of `2n`. */
  lemma {:induction false} PassDoubles<T>(cmp: (T, T) -> int, orig: seq<T>, s: seq<T>, n: nat)
    requires n > 0 && TotalPreorder(cmp, orig) && (forall x :: x in s ==> x in orig)
    requires Runs(cmp, orig, s, n)
    ensures Runs(cmp, orig, Pass(cmp, s, n), 2 * n)
    decreases |s|
  {
    hide Merge, InOrder, Ahead;
    if s != [] {
      var i, j := Min(n, |s|), Min(2 * n, |s|);
      var a, b, rest := s[..i], s[i..j], s[j..];
      FirstRuns(cmp, orig, s, n);
      MergePermutes(cmp, a, b);
      MergeInOrder(cmp, orig, a, b);
      PassDoubles(cmp, orig, rest, n);
      PassLength(cmp, rest, n);
      MergedAhead(cmp, orig, a, b, rest, n);
      RunsBehind(cmp, orig, Merge(cmp, a, b), Pass(cmp, rest, n), 2 * n);
    }
  }

  lemma MergedAhead<T>(cmp: (T, T) -> int, orig: seq<T>, a: seq<T>, b: seq<T>, rest: seq<T>, n: nat)
    requires n > 0 && Ahead(orig, a + b, rest)
    ensures Ahead(orig, Merge(cmp, a, b), Pass(cmp, rest, n))
  {
    hide Merge, Pass;
    forall x, y | x in Merge(cmp, a, b) && y in Pass(cmp, rest, n) ensures IndexOf(orig, x) < IndexOf(orig, y) {
      MergeElements(cmp, a, b, x);
      PassElements(cmp, rest, n, y);
      assert x in a + b;
    }
  }

  lemma RunsBehind<T>(cmp: (T, T) -> int, orig: seq<T>, first: seq<T>, rest: seq<T>, n: nat)
    requires n > 0 && first != [] && |first| == Min(n, |first| + |rest|)
    requires InOrder(cmp, orig, first) && Ahead(orig, first, rest) && Runs(cmp, orig, rest, n)
    ensures Runs(cmp, orig, first + rest, n)
  {
    assert (first + rest)[..|first|] == first && (first + rest)[|first|..] == rest;
  }

  /** Single elements are runs. */
  lemma {:induction false} SingleRuns<T>(cmp: (T, T) -> int, orig: seq<T>, k: nat)
    requires Distinct(orig) && k <= |orig|
    ensures Runs(cmp, orig, orig[k..], 1)
    decreases |orig| - k
  {
    if k < |orig| {
      SingleRuns(cmp, orig, k + 1);
      assert orig[k..][1..] == orig[k + 1..];
      forall x, y | x in orig[k..][..1] && y in orig[k..][1..] ensures IndexOf(orig, x) < IndexOf(orig, y) {
        var j :| 0 <= j < |orig| - k - 1 && orig[k + 1..][j] == y;
        assert x == orig[k] && y == orig[k + 1 + j];
        IndexOfAt(orig, k);
        IndexOfAt(orig, k + 1 + j);
      }
    }
  }

  lemma {:induction false} SortedInOrder<T>(cmp: (T, T) -> int, orig: seq<T>, s: seq<T>, n: nat)
    requires n > 0 && TotalPreorder(cmp, orig) && (forall x :: x in s ==> x in orig)
    requires Runs(cmp, orig, s, n)
    ensures InOrder(cmp, orig, Sorted(cmp, s, n))
    decreases |s| - n
  {
    PassDoubles(cmp, orig, s, n);
    PassLength(cmp, s, n);
    var t := Pass(cmp, s, n);
    if |s| <= 2 * n {
      assert t != [] ==> t[..Min(2 * n, |t|)] == t;
    } else {
      forall x | x in t ensures x in orig {
        PassElements(cmp, s, n, x);
      }
      SortedInOrder(cmp, orig, t, 2 * n);
    }
  }

  /** For a total preorder the sort is a sorted permutation that keeps the order of equivalent elements. */
  lemma StableSort<T>(cmp: (T, T) -> int, s: seq<T>)
    requires Distinct(s) && TotalPreorder(cmp, s)
    ensures multiset(Sorted(cmp, s, 1)) == multiset(s) && |Sorted(cmp, s, 1)| == |s|
    ensures forall i, j :: 0 <= i < j < |s| ==> cmp(Sorted(cmp, s, 1)[i], Sorted(cmp, s, 1)[j]) <= 0
    ensures forall i, j :: 0 <= i < j < |s| && cmp(Sorted(cmp, s, 1)[j], Sorted(cmp, s, 1)[i]) <= 0 ==>
              IndexOf(s, Sorted(cmp, s, 1)[i]) < IndexOf(s, Sorted(cmp, s, 1)[j])
  {
    var t := Sorted(cmp, s, 1);
    SingleRuns(cmp, s, 0);
    assert s[0..] == s;
    SortedPermutes(cmp, s, 1);
    SortedInOrder(cmp, s, s, 1);
    forall i, j | 0 <= i < j < |t|
      ensures cmp(t[i], t[j]) <= 0
      ensures cmp(t[j], t[i]) <= 0 ==> IndexOf(s, t[i]) < IndexOf(s, t[j])
    {
      assert MayPrecede(cmp, s, t[i], t[j]);
      assert t[i] in multiset(t) && t[j] in multiset(t);
    }
  }
}
