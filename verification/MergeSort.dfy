/**
 The bottom-up mergesort of src/uthash/include/uthash/utlist.h as a function on sequences, and the
 proof that it is the stable sort. The list macros are proved against these functions in `Utlist`.
 */
module MergeSort {

  /** A list element: the links are rewritten by the macros, the payload is not. */
  class Node<T> {
    const data: T
    var next: Node?<T>
    var prev: Node?<T>

    constructor (data: T)
      ensures this.data == data && next == null && prev == null
    {
      this.data := data;
      next, prev := null, null;
    }
  }

  type Cmp<!T> = (T, T) -> int

  predicate Before<T>(cmp: Cmp<T>, x: Node<T>, y: Node<T>) {
    cmp(x.data, y.data) <= 0
  }

  /** What sorting needs of `cmp`: `cmp(x, y) <= 0` is total and transitive. */
  ghost predicate TotalPreorder<T(!new)>(cmp: Cmp<T>) {
    && (forall x, y :: cmp(x, y) <= 0 || cmp(y, x) <= 0)
    && (forall x, y, z :: cmp(x, y) <= 0 && cmp(y, z) <= 0 ==> cmp(x, z) <= 0)
  }

  ghost predicate Sorted<T>(s: seq<Node<T>>, cmp: Cmp<T>) {
    forall i, j :: 0 <= i < j < |s| ==> Before(cmp, s[i], s[j])
  }

  predicate Ties<T>(cmp: Cmp<T>, k: T, n: Node<T>) {
    cmp(k, n.data) <= 0 && cmp(n.data, k) <= 0
  }

  /** The elements that compare equal to `k`, in list order. */
  function Class<T>(s: seq<Node<T>>, k: T, cmp: Cmp<T>): seq<Node<T>> {
    if s == [] then []
    else (if Ties(cmp, k, s[0]) then [s[0]] else []) + Class(s[1..], k, cmp)
  }

  /** `r` is `s` sorted, with the elements of every tie in their old order. */
  ghost predicate StableSortOf<T(!new)>(r: seq<Node<T>>, s: seq<Node<T>>, cmp: Cmp<T>) {
    Sorted(r, cmp) && forall k :: Class(r, k, cmp) == Class(s, k, cmp)
  }

  // The algorithm

  function Merge<T>(xs: seq<Node<T>>, ys: seq<Node<T>>, cmp: Cmp<T>): (r: seq<Node<T>>)
    ensures |r| == |xs| + |ys|
    decreases |xs| + |ys|
  {
    if xs == [] then ys
    else if ys == [] then xs
    else if Before(cmp, xs[0], ys[0]) then [xs[0]] + Merge(xs[1..], ys, cmp)
    else [ys[0]] + Merge(xs, ys[1..], cmp)
  }

  function Min(a: nat, b: nat): nat { if a <= b then a else b }

  /** One pass: neighbouring runs of length `k` are merged two by two. */
  function Pass<T>(s: seq<Node<T>>, k: nat, cmp: Cmp<T>): (r: seq<Node<T>>)
    requires k >= 1
    ensures |r| == |s|
    decreases |s|
  {
    if s == [] then []
    else
      var mid, end := Min(k, |s|), Min(2 * k, |s|);
      Merge(s[..mid], s[mid..end], cmp) + Pass(s[end..], k, cmp)
  }

  function Passes<T>(s: seq<Node<T>>, k: nat, cmp: Cmp<T>): (r: seq<Node<T>>)
    requires k >= 1
    ensures |r| == |s|
    decreases if |s| > 2 * k then |s| - k else 0
  {
    if |s| <= 2 * k then Pass(s, k, cmp) else Passes(Pass(s, k, cmp), 2 * k, cmp)
  }

  function Sort<T>(s: seq<Node<T>>, cmp: Cmp<T>): seq<Node<T>> {
    if s == [] then [] else Passes(s, 1, cmp)
  }

  // Permutation

  lemma MultisetHead<E>(s: seq<E>)
    requires s != []
    ensures multiset(s) == multiset{s[0]} + multiset(s[1..])
  {
    assert s == [s[0]] + s[1..];
  }

  lemma MultisetConcat<E>(a: seq<E>, b: seq<E>)
    ensures multiset(a + b) == multiset(a) + multiset(b)
  {
  }

  lemma Multiset3<E>(s: seq<E>, a: seq<E>, b: seq<E>, c: seq<E>)
    requires s == a + b + c
    ensures multiset(s) == multiset(a) + multiset(b) + multiset(c)
  {
  }

  lemma {:induction false} MergePermutes<T>(xs: seq<Node<T>>, ys: seq<Node<T>>, cmp: Cmp<T>)
    ensures multiset(Merge(xs, ys, cmp)) == multiset(xs) + multiset(ys)
    decreases |xs| + |ys|
  {
    hide Before;
    if xs == [] || ys == [] {
    } else if Before(cmp, xs[0], ys[0]) {
      MergePermutes(xs[1..], ys, cmp);
      MultisetHead(xs);
      assert multiset([xs[0]] + Merge(xs[1..], ys, cmp)) == multiset{xs[0]} + multiset(Merge(xs[1..], ys, cmp));
    } else {
      MergePermutes(xs, ys[1..], cmp);
      MultisetHead(ys);
      assert multiset([ys[0]] + Merge(xs, ys[1..], cmp)) == multiset{ys[0]} + multiset(Merge(xs, ys[1..], cmp));
    }
  }

  lemma Cut3<E>(s: seq<E>, i: nat, j: nat)
    requires i <= j <= |s|
    ensures s == s[..i] + s[i..j] + s[j..]
  {
  }

  lemma PassSplit<T>(s: seq<Node<T>>, k: nat, cmp: Cmp<T>)
    requires k >= 1 && s != []
    ensures var mid, end := Min(k, |s|), Min(2 * k, |s|);
            Pass(s, k, cmp) == Merge(s[..mid], s[mid..end], cmp) + Pass(s[end..], k, cmp)
  {
    hide Merge;
  }

  lemma {:induction false} PassPermutes<T>(s: seq<Node<T>>, k: nat, cmp: Cmp<T>)
    requires k >= 1
    ensures multiset(Pass(s, k, cmp)) == multiset(s)
    decreases |s|
  {
    if s == [] {
    } else {
      var mid, end := Min(k, |s|), Min(2 * k, |s|);
      PassSplit(s, k, cmp);
      Cut3(s, mid, end);
      hide Merge, Pass;
      var a, b, c := s[..mid], s[mid..end], s[end..];
      MergePermutes(a, b, cmp);
      PassPermutes(c, k, cmp);
      Multiset3(s, a, b, c);
      MultisetConcat(Merge(a, b, cmp), Pass(c, k, cmp));
    }
  }

  lemma {:induction false} PassesPermute<T>(s: seq<Node<T>>, k: nat, cmp: Cmp<T>)
    requires k >= 1
    ensures multiset(Passes(s, k, cmp)) == multiset(s)
    decreases if |s| > 2 * k then |s| - k else 0
  {
    PassPermutes(s, k, cmp);
    if |s| > 2 * k {
      PassesPermute(Pass(s, k, cmp), 2 * k, cmp);
    }
  }

  // Order

  /** Every aligned run of length `k` is sorted. */
  ghost predicate RunsSorted<T>(s: seq<Node<T>>, k: nat, cmp: Cmp<T>)
    requires k >= 1
    decreases |s|
  {
    s == [] || (Sorted(s[..Min(k, |s|)], cmp) && RunsSorted(s[Min(k, |s|)..], k, cmp))
  }

  lemma SecondRun<T>(s: seq<Node<T>>, k: nat, cmp: Cmp<T>)
    requires k >= 1 && RunsSorted(s, k, cmp)
    ensures var mid, end := Min(k, |s|), Min(2 * k, |s|);
            Sorted(s[..mid], cmp) && Sorted(s[mid..end], cmp) && RunsSorted(s[end..], k, cmp)
  {
    var mid, end := Min(k, |s|), Min(2 * k, |s|);
    var rest := s[mid..];
    if rest != [] {
      assert rest[..Min(k, |rest|)] == s[mid..end] && rest[Min(k, |rest|)..] == s[end..];
    }
  }

  lemma FirstIsLeast<T(!new)>(s: seq<Node<T>>, cmp: Cmp<T>)
    requires TotalPreorder(cmp) && Sorted(s, cmp) && s != []
    ensures forall n :: n in s ==> Before(cmp, s[0], n)
  {
  }

  lemma {:induction false} MergeSorted<T(!new)>(xs: seq<Node<T>>, ys: seq<Node<T>>, cmp: Cmp<T>)
    requires TotalPreorder(cmp) && Sorted(xs, cmp) && Sorted(ys, cmp)
    ensures Sorted(Merge(xs, ys, cmp), cmp)
    decreases |xs| + |ys|
  {
    if xs == [] || ys == [] {
    } else if Before(cmp, xs[0], ys[0]) {
      FirstIsLeast(xs, cmp);
      FirstIsLeast(ys, cmp);
      MergeSorted(xs[1..], ys, cmp);
      MergeElements(xs[1..], ys, cmp);
      forall n | n in Merge(xs[1..], ys, cmp)
        ensures Before(cmp, xs[0], n)
      {
        assert n in xs || Before(cmp, ys[0], n);
      }
      SortedCons(xs[0], Merge(xs[1..], ys, cmp), cmp);
    } else {
      FirstIsLeast(xs, cmp);
      FirstIsLeast(ys, cmp);
      MergeSorted(xs, ys[1..], cmp);
      MergeElements(xs, ys[1..], cmp);
      forall n | n in Merge(xs, ys[1..], cmp)
        ensures Before(cmp, ys[0], n)
      {
        assert n in ys || Before(cmp, xs[0], n);
      }
      SortedCons(ys[0], Merge(xs, ys[1..], cmp), cmp);
    }
  }

  lemma MergeElements<T>(xs: seq<Node<T>>, ys: seq<Node<T>>, cmp: Cmp<T>)
    ensures forall n :: n in Merge(xs, ys, cmp) <==> n in xs || n in ys
  {
    MergePermutes(xs, ys, cmp);
    forall n
      ensures n in Merge(xs, ys, cmp) <==> n in xs || n in ys
    {
      assert n in multiset(Merge(xs, ys, cmp)) <==> n in multiset(xs) || n in multiset(ys);
    }
  }

  lemma SortedCons<T>(x: Node<T>, s: seq<Node<T>>, cmp: Cmp<T>)
    requires Sorted(s, cmp) && forall n :: n in s ==> Before(cmp, x, n)
    ensures Sorted([x] + s, cmp)
  {
  }

  /** A pass with run length `k` leaves every aligned run of length 2k sorted. */
  lemma {:induction false} PassDoublesRuns<T(!new)>(s: seq<Node<T>>, k: nat, cmp: Cmp<T>)
    requires k >= 1 && TotalPreorder(cmp) && RunsSorted(s, k, cmp)
    ensures RunsSorted(Pass(s, k, cmp), 2 * k, cmp)
    decreases |s|
  {
    if s == [] {
    } else {
      var mid, end := Min(k, |s|), Min(2 * k, |s|);
      SecondRun(s, k, cmp);
      MergeSorted(s[..mid], s[mid..end], cmp);
      PassDoublesRuns(s[end..], k, cmp);
      var m, p, r := Merge(s[..mid], s[mid..end], cmp), Pass(s[end..], k, cmp), Pass(s, k, cmp);
      assert r[..Min(2 * k, |r|)] == m && r[Min(2 * k, |r|)..] == p;
    }
  }

  lemma {:induction false} SingletonRuns<T>(s: seq<Node<T>>, cmp: Cmp<T>)
    ensures RunsSorted(s, 1, cmp)
  {
    if s != [] {
      SingletonRuns(s[1..], cmp);
    }
  }

  // Stability

  lemma {:induction false} ClassConcat<T>(a: seq<Node<T>>, b: seq<Node<T>>, k: T, cmp: Cmp<T>)
    ensures Class(a + b, k, cmp) == Class(a, k, cmp) + Class(b, k, cmp)
  {
    hide Ties;
    if a == [] {
      assert a + b == b;
    } else {
      ClassConcat(a[1..], b, k, cmp);
      assert (a + b)[1..] == a[1..] + b;
    }
  }

  /** No element of a run lies in the class of something strictly smaller than its first element. */
  lemma {:induction false} ClassBelow<T(!new)>(xs: seq<Node<T>>, y: Node<T>, k: T, cmp: Cmp<T>)
    requires TotalPreorder(cmp) && Ties(cmp, k, y)
    requires forall n :: n in xs ==> !Before(cmp, n, y)
    ensures Class(xs, k, cmp) == []
  {
    if xs == [] {
    } else {
      ClassBelow(xs[1..], y, k, cmp);
      assert xs[0] in xs;
    }
  }

  lemma {:induction false} MergeStable<T(!new)>(xs: seq<Node<T>>, ys: seq<Node<T>>, k: T, cmp: Cmp<T>)
    requires TotalPreorder(cmp) && Sorted(xs, cmp)
    ensures Class(Merge(xs, ys, cmp), k, cmp) == Class(xs, k, cmp) + Class(ys, k, cmp)
    decreases |xs| + |ys|
  {
    if xs == [] || ys == [] {
    } else if Before(cmp, xs[0], ys[0]) {
      MergeStable(xs[1..], ys, k, cmp);
      ClassConcat([xs[0]], Merge(xs[1..], ys, cmp), k, cmp);
      ClassConcat([xs[0]], xs[1..], k, cmp);
      assert xs == [xs[0]] + xs[1..];
    } else {
      MergeStable(xs, ys[1..], k, cmp);
      ClassConcat([ys[0]], Merge(xs, ys[1..], cmp), k, cmp);
      ClassConcat([ys[0]], ys[1..], k, cmp);
      assert ys == [ys[0]] + ys[1..];
      if Ties(cmp, k, ys[0]) {
        forall n | n in xs
          ensures !Before(cmp, n, ys[0])
        {
          assert n == xs[0] || Before(cmp, xs[0], n);
        }
        ClassBelow(xs, ys[0], k, cmp);
      }
    }
  }

  lemma {:induction false} PassStable<T(!new)>(s: seq<Node<T>>, k: nat, key: T, cmp: Cmp<T>)
    requires k >= 1 && TotalPreorder(cmp) && RunsSorted(s, k, cmp)
    ensures Class(Pass(s, k, cmp), key, cmp) == Class(s, key, cmp)
    decreases |s|
  {
    if s == [] {
    } else {
      PassSplit(s, k, cmp);
      hide Class, Merge, Sorted, Pass, RunsSorted;
      var mid, end := Min(k, |s|), Min(2 * k, |s|);
      Cut3(s, mid, end);
      SecondRun(s, k, cmp);
      MergeStable(s[..mid], s[mid..end], key, cmp);
      PassStable(s[end..], k, key, cmp);
      ClassConcat(Merge(s[..mid], s[mid..end], cmp), Pass(s[end..], k, cmp), key, cmp);
      ClassConcat(s[..mid], s[mid..end], key, cmp);
      ClassConcat(s[..mid] + s[mid..end], s[end..], key, cmp);
    }
  }

  lemma {:induction false} PassesStableSort<T(!new)>(s: seq<Node<T>>, k: nat, cmp: Cmp<T>)
    requires k >= 1 && TotalPreorder(cmp) && RunsSorted(s, k, cmp)
    ensures StableSortOf(Passes(s, k, cmp), s, cmp)
    decreases if |s| > 2 * k then |s| - k else 0
  {
    var p := Pass(s, k, cmp);
    PassDoublesRuns(s, k, cmp);
    forall key
      ensures Class(p, key, cmp) == Class(s, key, cmp)
    {
      PassStable(s, k, key, cmp);
    }
    if |s| > 2 * k {
      PassesStableSort(p, 2 * k, cmp);
    } else if s != [] {
      assert p[..Min(2 * k, |p|)] == p;
    }
  }

  /** The sort is a stable sort and a permutation, for every total preorder. */
  lemma SortIsStableSort<T(!new)>(s: seq<Node<T>>, cmp: Cmp<T>)
    requires TotalPreorder(cmp)
    ensures StableSortOf(Sort(s, cmp), s, cmp)
    ensures multiset(Sort(s, cmp)) == multiset(s)
  {
    if s != [] {
      SingletonRuns(s, cmp);
      PassesStableSort(s, 1, cmp);
      PassesPermute(s, 1, cmp);
    }
  }

  // A stable sort is unique, so the algorithm could not return anything else.

  lemma {:induction false} ClassMembers<T>(s: seq<Node<T>>, k: T, cmp: Cmp<T>)
    ensures forall n :: n in Class(s, k, cmp) <==> n in s && Ties(cmp, k, n)
  {
    if s != [] {
      ClassMembers(s[1..], k, cmp);
      assert s == [s[0]] + s[1..];
    }
  }

  lemma SameEmptiness<T(!new)>(r: seq<Node<T>>, r': seq<Node<T>>, cmp: Cmp<T>)
    requires TotalPreorder(cmp) && r != []
    requires forall k :: Class(r, k, cmp) == Class(r', k, cmp)
    ensures r' != []
  {
    ClassMembers(r, r[0].data, cmp);
    ClassMembers(r', r[0].data, cmp);
    assert r[0] in Class(r', r[0].data, cmp);
  }

  lemma {:induction false} StableSortUnique<T(!new)>(r: seq<Node<T>>, r': seq<Node<T>>, cmp: Cmp<T>)
    requires TotalPreorder(cmp) && Sorted(r, cmp) && Sorted(r', cmp)
    requires forall k :: Class(r, k, cmp) == Class(r', k, cmp)
    ensures r == r'
    decreases |r|
  {
    if r' != [] {
      SameEmptiness(r', r, cmp);
    }
    if r != [] {
      SameEmptiness(r, r', cmp);
      var x := r[0];
      ClassMembers(r, x.data, cmp);
      ClassMembers(r', x.data, cmp);
      assert x in Class(r', x.data, cmp);
      var y := r'[0];
      ClassMembers(r, y.data, cmp);
      ClassMembers(r', y.data, cmp);
      assert y in Class(r, y.data, cmp);
      assert Ties(cmp, x.data, y);
      assert Class(r, x.data, cmp)[0] == x && Class(r', x.data, cmp)[0] == y;
      forall k
        ensures Class(r[1..], k, cmp) == Class(r'[1..], k, cmp)
      {
        assert Class(r, k, cmp) == Class(r', k, cmp);
        var t := if Ties(cmp, k, x) then 1 else 0;
        assert Class(r, k, cmp)[t..] == Class(r[1..], k, cmp);
        assert Class(r', k, cmp)[t..] == Class(r'[1..], k, cmp);
      }
      StableSortUnique(r[1..], r'[1..], cmp);
      assert r == [x] + r[1..] && r' == [y] + r'[1..];
    }
  }
}
