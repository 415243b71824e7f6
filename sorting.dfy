/** `Array.prototype.sort` with a comparator, which ECMAScript 2019 requires to be
    stable: modelled by a stable insertion sort. `cmp(a, b) <= 0` means that `a`
    may stay before `b`; an element is inserted before the first element it does
    not sort after, so equal elements keep their input order. */
module Sorting {
  import opened SeqUtil

  function Insert<T>(x: T, ys: seq<T>, cmp: (T, T) -> int): (r: seq<T>)
    ensures |r| == |ys| + 1 && multiset(r) == multiset([x] + ys)
    decreases |ys|
  {
    if ys == [] || cmp(x, ys[0]) <= 0 then [x] + ys
    else
      var rest := Insert(x, ys[1..], cmp);
      assert ys == [ys[0]] + ys[1..];
      [ys[0]] + rest
  }

  function Sort<T>(s: seq<T>, cmp: (T, T) -> int): (r: seq<T>)
    ensures |r| == |s| && multiset(r) == multiset(s)
    decreases |s|
  {
    if s == [] then []
    else
      assert s == [s[0]] + s[1..];
      Insert(s[0], Sort(s[1..], cmp), cmp)
  }

  /** The comparator orders every pair and is transitive: what a JavaScript
      comparator must be for `sort` to have a defined result. */
  ghost predicate TotalPreorder<T(!new)>(cmp: (T, T) -> int) {
    && (forall a, b :: cmp(a, b) <= 0 || cmp(b, a) <= 0)
    && (forall a, b, c {:trigger cmp(a, b), cmp(b, c), cmp(a, c)} :: cmp(a, b) <= 0 && cmp(b, c) <= 0 ==> cmp(a, c) <= 0)
  }

  ghost predicate Antisymmetric<T(!new)>(cmp: (T, T) -> int) {
    forall a, b :: cmp(a, b) == -cmp(b, a)
  }

  ghost predicate SortedBy<T>(s: seq<T>, cmp: (T, T) -> int) {
    forall i, j :: 0 <= i < j < |s| ==> cmp(s[i], s[j]) <= 0
  }

  /** Sorted, and elements the comparator ties are in ascending `tie` order. */
  ghost predicate SortedWithTies<T>(s: seq<T>, cmp: (T, T) -> int, tie: T -> int) {
    forall i, j :: 0 <= i < j < |s| ==>
      cmp(s[i], s[j]) <= 0 && (cmp(s[j], s[i]) <= 0 ==> tie(s[i]) < tie(s[j]))
  }

  ghost predicate StrictlyAscending<T>(s: seq<T>, key: T -> int) {
    forall i, j :: 0 <= i < j < |s| ==> key(s[i]) < key(s[j])
  }

  lemma {:induction false} InsertSorted<T(!new)>(x: T, ys: seq<T>, cmp: (T, T) -> int)
    requires TotalPreorder(cmp) && SortedBy(ys, cmp)
    ensures SortedBy(Insert(x, ys, cmp), cmp)
    decreases |ys|
  {
    var r := Insert(x, ys, cmp);
    if ys == [] {
    } else if cmp(x, ys[0]) <= 0 {
      assert r == [x] + ys;
      forall j | 0 < j < |r| ensures cmp(x, r[j]) <= 0 {
        assert r[j] == ys[j - 1];
        assert cmp(ys[0], ys[j - 1]) <= 0 || j == 1;
      }
    } else {
      InsertSorted(x, ys[1..], cmp);
      var rest := Insert(x, ys[1..], cmp);
      assert r == [ys[0]] + rest;
      forall j | 0 <= j < |rest| ensures cmp(ys[0], rest[j]) <= 0 {
        assert rest[j] in multiset([x] + ys[1..]);
        if rest[j] != x {
          assert rest[j] in ys[1..];
        }
      }
    }
  }

  /** The result is sorted whenever the comparator is a total preorder. */
  lemma {:induction false} SortIsSorted<T(!new)>(s: seq<T>, cmp: (T, T) -> int)
    requires TotalPreorder(cmp)
    ensures SortedBy(Sort(s, cmp), cmp)
    decreases |s|
  {
    if s != [] {
      SortIsSorted(s[1..], cmp);
      InsertSorted(s[0], Sort(s[1..], cmp), cmp);
    }
  }

  lemma PrependWithTies<T>(h: T, rest: seq<T>, cmp: (T, T) -> int, tie: T -> int)
    requires SortedWithTies(rest, cmp, tie)
    requires forall z :: z in rest ==> cmp(h, z) <= 0 && (cmp(z, h) <= 0 ==> tie(h) < tie(z))
    ensures SortedWithTies([h] + rest, cmp, tie)
  {
    var r := [h] + rest;
    forall i, j | 0 <= i < j < |r|
      ensures cmp(r[i], r[j]) <= 0 && (cmp(r[j], r[i]) <= 0 ==> tie(r[i]) < tie(r[j]))
    {
      assert r[j] == rest[j - 1];
      if i > 0 {
        assert r[i] == rest[i - 1];
      }
    }
  }

  /** `x` sorts no later than the head of a sorted `ys`, hence than all of it. */
  lemma FrontWithTies<T(!new)>(x: T, ys: seq<T>, cmp: (T, T) -> int, tie: T -> int)
    requires TotalPreorder(cmp) && SortedWithTies(ys, cmp, tie)
    requires forall y :: y in ys ==> tie(x) < tie(y)
    requires ys != [] && cmp(x, ys[0]) <= 0
    ensures SortedWithTies([x] + ys, cmp, tie)
  {
    forall z | z in ys ensures cmp(x, z) <= 0 {
      var k :| 0 <= k < |ys| && ys[k] == z;
      assert k == 0 || cmp(ys[0], ys[k]) <= 0;
    }
    PrependWithTies(x, ys, cmp, tie);
  }

  /** The head of `ys` sorts before `x` and before the rest of `ys`. */
  lemma BehindHeadWithTies<T(!new)>(x: T, ys: seq<T>, rest: seq<T>, cmp: (T, T) -> int, tie: T -> int)
    requires TotalPreorder(cmp) && SortedWithTies(ys, cmp, tie)
    requires ys != [] && cmp(x, ys[0]) > 0
    requires SortedWithTies(rest, cmp, tie) && multiset(rest) == multiset([x] + ys[1..])
    ensures SortedWithTies([ys[0]] + rest, cmp, tie)
  {
    forall z | z in rest
      ensures cmp(ys[0], z) <= 0 && (cmp(z, ys[0]) <= 0 ==> tie(ys[0]) < tie(z))
    {
      assert z in multiset([x] + ys[1..]);
      if z != x {
        var k :| 0 <= k < |ys[1..]| && ys[1..][k] == z;
        assert ys[k + 1] == z;
      }
    }
    PrependWithTies(ys[0], rest, cmp, tie);
  }

  lemma {:induction false} InsertWithTies<T(!new)>(x: T, ys: seq<T>, cmp: (T, T) -> int, tie: T -> int)
    requires TotalPreorder(cmp) && SortedWithTies(ys, cmp, tie)
    requires forall y :: y in ys ==> tie(x) < tie(y)
    ensures SortedWithTies(Insert(x, ys, cmp), cmp, tie)
    decreases |ys|
  {
    if ys == [] {
    } else if cmp(x, ys[0]) <= 0 {
      FrontWithTies(x, ys, cmp, tie);
    } else {
      InsertWithTies(x, ys[1..], cmp, tie);
      BehindHeadWithTies(x, ys, Insert(x, ys[1..], cmp), cmp, tie);
    }
  }

  /** Stability: when the input is strictly ascending in `tie`, elements that the
      comparator ties come out in ascending `tie` order. */
  lemma {:induction false} SortBreaksTiesByInputOrder<T(!new)>(s: seq<T>, cmp: (T, T) -> int, tie: T -> int)
    requires TotalPreorder(cmp) && StrictlyAscending(s, tie)
    ensures SortedWithTies(Sort(s, cmp), cmp, tie)
    decreases |s|
  {
    if s != [] {
      SortBreaksTiesByInputOrder(s[1..], cmp, tie);
      var rest := Sort(s[1..], cmp);
      forall y | y in rest ensures tie(s[0]) < tie(y) {
        assert y in multiset(s[1..]);
      }
      InsertWithTies(s[0], rest, cmp, tie);
    }
  }

  /** Negating an antisymmetric total preorder (the 'desc' direction) gives one. */
  lemma NegatedIsTotalPreorder<T(!new)>(cmp: (T, T) -> int, neg: (T, T) -> int)
    requires TotalPreorder(cmp) && Antisymmetric(cmp)
    requires forall a, b :: neg(a, b) == -cmp(a, b)
    ensures TotalPreorder(neg) && Antisymmetric(neg)
  {
    forall a, b, c | neg(a, b) <= 0 && neg(b, c) <= 0 ensures neg(a, c) <= 0 {
      assert cmp(c, b) <= 0 && cmp(b, a) <= 0;
    }
  }

  /** `s.slice(0, end)`: a negative `end` counts from the back. */
  function SliceTo<T>(s: seq<T>, end: int): (r: seq<T>)
    ensures end >= 0 ==> |r| == if end < |s| then end else |s|
    ensures end < 0 ==> |r| == if |s| + end > 0 then |s| + end else 0
    ensures r == s[..|r|]
  {
    if end >= 0 then (if end < |s| then s[..end] else s)
    else if |s| + end > 0 then s[..|s| + end] else []
  }

  /** Filtering keeps a strictly ascending sequence strictly ascending. */
  lemma {:induction false} FilterKeepsAscending<T(!new)>(s: seq<T>, p: T -> bool, key: T -> int)
    requires StrictlyAscending(s, key)
    ensures StrictlyAscending(Filter(s, p), key)
    decreases |s|
  {
    if s != [] {
      var q := s[..|s| - 1];
      FilterKeepsAscending(q, p, key);
      FilterMembers(q, p);
      forall x | x in Filter(q, p) ensures key(x) < key(s[|s| - 1]) {
        var k :| 0 <= k < |q| && q[k] == x;
      }
    }
  }

  /** A prefix of a sequence sorted with ties is sorted with ties. */
  lemma PrefixWithTies<T>(s: seq<T>, n: nat, cmp: (T, T) -> int, tie: T -> int)
    requires SortedWithTies(s, cmp, tie) && n <= |s|
    ensures SortedWithTies(s[..n], cmp, tie)
  {
    forall i, j | 0 <= i < j < n
      ensures cmp(s[..n][i], s[..n][j]) <= 0 && (cmp(s[..n][j], s[..n][i]) <= 0 ==> tie(s[..n][i]) < tie(s[..n][j]))
    {
      assert s[..n][i] == s[i] && s[..n][j] == s[j];
    }
  }
  /** In a sequence sorted with ties, any other element sorts after the first and
      before the last one; when it ties with one of them it lies on the inner side
      in `tie` order. */
  lemma SortedEnds<T>(s: seq<T>, cmp: (T, T) -> int, tie: T -> int, x: T)
    requires SortedWithTies(s, cmp, tie) && x in s
    ensures x != s[0] ==> cmp(s[0], x) <= 0 && (cmp(x, s[0]) <= 0 ==> tie(s[0]) < tie(x))
    ensures x != s[|s| - 1] ==> cmp(x, s[|s| - 1]) <= 0 && (cmp(s[|s| - 1], x) <= 0 ==> tie(x) < tie(s[|s| - 1]))
  {
    var j :| 0 <= j < |s| && s[j] == x;
  }
  /** The first element of the sorted result comes from the input and sorts no
      later than any input element; among those it ties with, it has the least
      `tie` when the input is strictly ascending in `tie`. */
  lemma SortFirstIsLeast<T(!new)>(s: seq<T>, cmp: (T, T) -> int, tie: T -> int, x: T)
    requires TotalPreorder(cmp) && StrictlyAscending(s, tie) && x in s
    ensures Sort(s, cmp)[0] in s
    ensures var first := Sort(s, cmp)[0];
      cmp(first, x) <= 0 && (cmp(x, first) <= 0 ==> tie(first) <= tie(x))
  {
    var r := Sort(s, cmp);
    SortBreaksTiesByInputOrder(s, cmp, tie);
    assert r[0] in multiset(s);
    assert x in multiset(r);
    SortedEnds(r, cmp, tie, x);
  }

  /** Symmetrically, the last element of the sorted result sorts no earlier than
      any input element and has the greatest `tie` among those it ties with. */
  lemma SortLastIsGreatest<T(!new)>(s: seq<T>, cmp: (T, T) -> int, tie: T -> int, x: T)
    requires TotalPreorder(cmp) && StrictlyAscending(s, tie) && x in s
    ensures Sort(s, cmp)[|s| - 1] in s
    ensures var last := Sort(s, cmp)[|s| - 1];
      cmp(x, last) <= 0 && (cmp(last, x) <= 0 ==> tie(x) <= tie(last))
  {
    var r := Sort(s, cmp);
    SortBreaksTiesByInputOrder(s, cmp, tie);
    assert r[|s| - 1] in multiset(s);
    assert x in multiset(r);
    SortedEnds(r, cmp, tie, x);
  }

  /** An element of the input that is not among the first `n` sorted elements
      sorts no earlier than the last of them. */
  lemma SortPrefixCutoff<T(!new)>(s: seq<T>, cmp: (T, T) -> int, n: nat, x: T)
    requires TotalPreorder(cmp) && 0 < n <= |s| && x in s && x !in Sort(s, cmp)[..n]
    ensures cmp(Sort(s, cmp)[n - 1], x) <= 0
  {
    var r := Sort(s, cmp);
    SortIsSorted(s, cmp);
    assert x in multiset(r);
    var j :| 0 <= j < |r| && r[j] == x;
  }

  /** Sorting neither adds nor drops an element. */
  lemma SortSameElements<T>(s: seq<T>, cmp: (T, T) -> int, x: T)
    ensures x in Sort(s, cmp) <==> x in s
  {
    assert x in Sort(s, cmp) <==> x in multiset(Sort(s, cmp));
  }

  /** No two different elements of `s` are tied by the comparator. */
  ghost predicate NoTies<T>(s: seq<T>, cmp: (T, T) -> int) {
    forall i, j :: 0 <= i < |s| && 0 <= j < |s| && s[i] != s[j] ==> cmp(s[i], s[j]) != 0
  }

  /** Two sorted arrangements of the same elements without ties start alike. */
  lemma SortedHeads<T(!new)>(a: seq<T>, b: seq<T>, cmp: (T, T) -> int)
    requires Antisymmetric(cmp) && NoTies(a, cmp)
    requires multiset(a) == multiset(b) && SortedBy(a, cmp) && SortedBy(b, cmp) && a != [] && b != []
    ensures a[0] == b[0]
  {
    var x, y := a[0], b[0];
    assert x in multiset(b) && y in multiset(a);
    var m :| 0 <= m < |b| && b[m] == x;
    var k :| 0 <= k < |a| && a[k] == y;
    assert x != y ==> cmp(y, x) <= 0;
    assert x != y ==> cmp(x, y) <= 0;
    assert x != y ==> cmp(x, y) != 0;
  }

  lemma TailSortedWithoutTies<T>(s: seq<T>, cmp: (T, T) -> int)
    requires s != [] && SortedBy(s, cmp)
    ensures SortedBy(s[1..], cmp)
    ensures NoTies(s, cmp) ==> NoTies(s[1..], cmp)
  {
    forall i, j | 0 <= i < j < |s| - 1 ensures cmp(s[1..][i], s[1..][j]) <= 0 {
      assert s[1..][i] == s[i + 1] && s[1..][j] == s[j + 1];
    }
  }

  /** Without ties, two sorted arrangements of the same elements are the same
      sequence: the sorted order is unique. */
  lemma {:induction false} SortedUnique<T(!new)>(a: seq<T>, b: seq<T>, cmp: (T, T) -> int)
    requires Antisymmetric(cmp) && NoTies(a, cmp)
    requires multiset(a) == multiset(b) && SortedBy(a, cmp) && SortedBy(b, cmp)
    ensures a == b
    decreases |a|
  {
    assert |a| == |multiset(a)| == |multiset(b)| == |b|;
    if a != [] {
      SortedHeads(a, b, cmp);
      assert a == [a[0]] + a[1..] && b == [b[0]] + b[1..];
      assert multiset(a[1..]) == multiset(a) - multiset{a[0]};
      assert multiset(b[1..]) == multiset(b) - multiset{b[0]};
      TailSortedWithoutTies(a, cmp);
      TailSortedWithoutTies(b, cmp);
      SortedUnique(a[1..], b[1..], cmp);
    }
  }

  /** Reversing a sequence sorted by `cmp` sorts it by the converse comparator. */
  lemma ReverseSortedByConverse<T>(s: seq<T>, cmp: (T, T) -> int, conv: (T, T) -> int)
    requires SortedBy(s, cmp) && forall a, b :: conv(a, b) == cmp(b, a)
    ensures SortedBy(Reverse(s), conv)
  {
    var r := Reverse(s);
    forall i, j | 0 <= i < j < |r| ensures conv(r[i], r[j]) <= 0 {
      assert cmp(s[|s| - 1 - j], s[|s| - 1 - i]) <= 0;
    }
  }

  /** Without ties, sorting by the negated comparator is sorting by the
      comparator and reversing. */
  lemma SortNegatedIsReverse<T(!new)>(s: seq<T>, cmp: (T, T) -> int, neg: (T, T) -> int)
    requires TotalPreorder(cmp) && Antisymmetric(cmp) && NoTies(s, cmp)
    requires forall a, b :: neg(a, b) == -cmp(a, b)
    ensures Sort(s, neg) == Reverse(Sort(s, cmp))
  {
    var down := Sort(s, neg);
    NegatedIsTotalPreorder(cmp, neg);
    SortIsSorted(s, cmp);
    SortIsSorted(s, neg);
    ReverseSortedByConverse(Sort(s, cmp), cmp, neg);
    ReverseSameElements(Sort(s, cmp));
    forall i, j | 0 <= i < |down| && 0 <= j < |down| && down[i] != down[j] ensures neg(down[i], down[j]) != 0 {
      assert down[i] in multiset(s) && down[j] in multiset(s);
      var p :| 0 <= p < |s| && s[p] == down[i];
      var q :| 0 <= q < |s| && s[q] == down[j];
    }
    SortedUnique(down, Reverse(Sort(s, cmp)), neg);
  }
}
