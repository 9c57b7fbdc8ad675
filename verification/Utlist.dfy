/**
 The list macros of src/uthash/include/uthash/utlist.h on heap nodes. A ghost sequence of nodes says
 which list the links form; every macro is proved against an operation on that sequence.
 */
module Utlist {
  import opened MergeSort

  /** LL_ macros use `next` only; DL_ and CDL_ also keep `prev`; CDL_ lists close on their head. */
  datatype Kind = Singly | Doubly | Circular

  ghost predicate NoDup<T>(s: seq<Node<T>>) {
    forall i, j :: 0 <= i < j < |s| ==> s[i] != s[j]
  }

  ghost function NextOf<T>(kind: Kind, s: seq<Node<T>>, i: nat): Node?<T>
    requires i < |s|
  {
    if i + 1 < |s| then s[i + 1] else if kind == Circular then s[0] else null
  }

  ghost function PrevOf<T>(s: seq<Node<T>>, i: nat): Node<T>
    requires i < |s|
  {
    if i == 0 then s[|s| - 1] else s[i - 1]
  }

  /** The links starting at `head` are exactly the list `s`. */
  ghost predicate IsList<T>(kind: Kind, head: Node?<T>, s: seq<Node<T>>)
    reads s
  {
    && NoDup(s)
    && head == (if s == [] then null else s[0])
    && (forall i :: 0 <= i < |s| ==> s[i].next == NextOf(kind, s, i))
    && (kind != Singly ==> forall i :: 0 <= i < |s| ==> s[i].prev == PrevOf(s, i))
  }

  // Sorting

  /** The list built so far in a pass: linked, but not yet terminated. */
  ghost predicate Output<T>(kind: Kind, list: Node?<T>, tail: Node?<T>, out: seq<Node<T>>)
    reads out
  {
    && NoDup(out)
    && list == (if out == [] then null else out[0])
    && tail == (if out == [] then null else out[|out| - 1])
    && (forall i :: 0 <= i < |out| - 1 ==> out[i].next == out[i + 1])
    && (kind != Singly ==> forall i :: 0 < i < |out| ==> out[i].prev == out[i - 1])
  }

  /** Positions `a..mid` and `b..` of `s` are still to be consumed: their links are untouched, and
      they are not in the output. */
  ghost predicate Pending<T>(kind: Kind, s: seq<Node<T>>, a: nat, mid: nat, b: nat, out: seq<Node<T>>)
    requires a <= mid <= b <= |s|
    reads s
  {
    && NoDup(s)
    && (forall i :: a <= i < mid || b <= i < |s| ==> s[i].next == NextOf(kind, s, i) && s[i] !in out)
    && (forall j :: 0 <= j < |out| ==> out[j] in s)
  }

  ghost function At<T>(s: seq<Node<T>>, i: nat): Node?<T> {
    if i < |s| then s[i] else null
  }

  /** The successor of an unconsumed node; the circular form stops at the head the pass started from. */
  method Advance<T>(kind: Kind, x: Node<T>, oldHead: Node<T>, ghost s: seq<Node<T>>, ghost i: nat)
    returns (y: Node?<T>)
    requires i < |s| && x == s[i] && oldHead == s[0] && NoDup(s) && x.next == NextOf(kind, s, i)
    ensures y == At(s, i + 1)
  {
    y := x.next;
    if kind == Circular && y == oldHead {
      y := null;
    }
  }

  /** Links `e` behind `tail`. */
  method Link<T>(kind: Kind, list: Node?<T>, tail: Node?<T>, e: Node<T>, ghost out: seq<Node<T>>)
    returns (list': Node<T>, tail': Node<T>)
    requires Output(kind, list, tail, out) && e !in out
    modifies if out == [] then {e} else {e, out[|out| - 1]}
    ensures Output(kind, list', tail', out + [e])
    ensures e.next == old(e.next)
    ensures out != [] ==> out[|out| - 1].prev == old(out[|out| - 1].prev)
    ensures kind == Singly ==> e.prev == old(e.prev)
  {
    if tail != null {
      tail.next := e;
      list' := list;
    } else {
      list' := e;
    }
    if kind != Singly {
      e.prev := tail;
    }
    tail' := e;
  }

  /** What the output will be once the two runs are merged. */
  ghost function Outcome<T>(out: seq<Node<T>>, s: seq<Node<T>>, a: nat, mid: nat, b: nat, end: nat,
                            cmp: Cmp<T>): seq<Node<T>>
    requires a <= mid <= b <= end <= |s|
  {
    out + Merge(s[a..mid], s[b..end], cmp)
  }

  ghost predicate FirstRunNext<T>(s: seq<Node<T>>, a: nat, mid: nat, b: nat, end: nat, cmp: Cmp<T>)
    requires a <= mid <= b <= end <= |s|
  {
    a < mid && (b == end || Before(cmp, s[a], s[b]))
  }

  lemma OutcomeStep<T>(out: seq<Node<T>>, s: seq<Node<T>>, a: nat, mid: nat, b: nat, end: nat, cmp: Cmp<T>)
    requires a <= mid <= b <= end <= |s| && (a < mid || b < end)
    ensures Outcome(out, s, a, mid, b, end, cmp)
         == if FirstRunNext(s, a, mid, b, end, cmp) then Outcome(out + [s[a]], s, a + 1, mid, b, end, cmp)
            else Outcome(out + [s[b]], s, a, mid, b + 1, end, cmp)
  {
    hide Before;
    if a < mid {
      assert s[a..mid][1..] == s[a + 1..mid];
    }
    if b < end {
      assert s[b..end][1..] == s[b + 1..end];
    }
    if FirstRunNext(s, a, mid, b, end, cmp) {
      if b == end {
        assert s[a..mid] == [s[a]] + s[a + 1..mid];
      }
      ConcatAssociates(out, [s[a]], Merge(s[a + 1..mid], s[b..end], cmp));
    } else {
      if a == mid {
        assert s[b..end] == [s[b]] + s[b + 1..end];
      }
      ConcatAssociates(out, [s[b]], Merge(s[a..mid], s[b + 1..end], cmp));
    }
  }

  lemma ConcatAssociates<E>(a: seq<E>, b: seq<E>, c: seq<E>)
    ensures a + (b + c) == (a + b) + c
  {
  }

  /** Moves the next unconsumed node, at position `a` or at position `b`, to the output. */
  method Move<T>(kind: Kind, e: Node<T>, list: Node?<T>, tail: Node?<T>,
                 ghost s: seq<Node<T>>, ghost a: nat, ghost mid: nat, ghost b: nat, ghost first: bool,
                 ghost out: seq<Node<T>>)
    returns (list': Node<T>, tail': Node<T>)
    requires a <= mid <= b <= |s| && Pending(kind, s, a, mid, b, out) && Output(kind, list, tail, out)
    requires if first then a < mid && e == s[a] else b < |s| && e == s[b]
    modifies s
    ensures Output(kind, list', tail', out + [e])
    ensures if first then Pending(kind, s, a + 1, mid, b, out + [e]) else Pending(kind, s, a, mid, b + 1, out + [e])
    ensures kind == Singly ==> forall n :: n in s ==> n.prev == old(n.prev)
  {
    assert out != [] ==> out[|out| - 1] in s;
    list', tail' := Link(kind, list, tail, e, out);
  }

  /** One turn of the merge loop: picks a node, advances past it, and moves it to the output. */
  method MergeStep<T>(kind: Kind, cmp: Cmp<T>, p0: Node?<T>, psize0: nat, q0: Node?<T>, qsize0: nat, oldHead: Node<T>,
                      list0: Node?<T>, tail0: Node?<T>,
                      ghost s: seq<Node<T>>, ghost a: nat, ghost mid: nat, ghost b: nat, ghost end: nat,
                      ghost out: seq<Node<T>>)
    returns (p: Node?<T>, psize: nat, q: Node?<T>, qsize: nat, list: Node?<T>, tail: Node?<T>, ghost e: Node<T>)
    requires a <= mid <= b <= end <= |s| && psize0 == mid - a && end == Min(b + qsize0, |s|) && (a < mid || b < end)
    requires (a < mid ==> p0 == s[a]) && q0 == At(s, b) && oldHead == s[0]
    requires Pending(kind, s, a, mid, b, out) && Output(kind, list0, tail0, out)
    modifies s
    ensures Output(kind, list, tail, out + [e])
    ensures if FirstRunNext(s, a, mid, b, end, cmp)
            then e == s[a] && Pending(kind, s, a + 1, mid, b, out + [e])
                 && psize == psize0 - 1 && p == At(s, a + 1) && q == q0 && qsize == qsize0
            else e == s[b] && Pending(kind, s, a, mid, b + 1, out + [e])
                 && psize == psize0 && p == p0 && q == At(s, b + 1) && qsize == qsize0 - 1
    ensures kind == Singly ==> forall n :: n in s ==> n.prev == old(n.prev)
  {
    hide Output, Pending;
    p, psize, q, qsize := p0, psize0, q0, qsize0;
    var x: Node<T>;
    if psize == 0 {
      x := q;
      q := AdvancePending(kind, q, oldHead, s, a, mid, b, b, out);
      qsize := qsize - 1;
    } else if qsize == 0 || q == null {
      x := p;
      p := AdvancePending(kind, p, oldHead, s, a, mid, b, a, out);
      psize := psize - 1;
    } else if cmp(p.data, q.data) <= 0 {
      x := p;
      p := AdvancePending(kind, p, oldHead, s, a, mid, b, a, out);
      psize := psize - 1;
    } else {
      x := q;
      q := AdvancePending(kind, q, oldHead, s, a, mid, b, b, out);
      qsize := qsize - 1;
    }
    e := x;
    list, tail := Move(kind, x, list0, tail0, s, a, mid, b, FirstRunNext(s, a, mid, b, end, cmp), out);
  }

  /** Merges the run s[start..mid] with the run behind it into the output. */
  method MergeRuns<T>(kind: Kind, cmp: Cmp<T>, insize: nat, p0: Node?<T>, psize0: nat, q0: Node?<T>, oldHead: Node<T>,
                      list0: Node?<T>, tail0: Node?<T>, ghost s: seq<Node<T>>, ghost start: nat,
                      ghost out0: seq<Node<T>>)
    returns (q: Node?<T>, list: Node?<T>, tail: Node?<T>, ghost end: nat, ghost out: seq<Node<T>>)
    requires psize0 > 0 && start + psize0 <= |s| && oldHead == s[0]
    requires p0 == At(s, start) && q0 == At(s, start + psize0)
    requires Pending(kind, s, start, start + psize0, start + psize0, out0) && Output(kind, list0, tail0, out0)
    modifies s
    ensures end == Min(start + psize0 + insize, |s|) && q == At(s, end)
    ensures Output(kind, list, tail, out) && Pending(kind, s, end, end, end, out)
    ensures out == out0 + Merge(s[start..start + psize0], s[start + psize0..end], cmp)
    ensures kind == Singly ==> forall n :: n in s ==> n.prev == old(n.prev)
  {
    hide Output, Pending, Outcome, FirstRunNext, Merge;
    ghost var mid := start + psize0;
    end := Min(mid + insize, |s|);
    var p, psize, qsize := p0, psize0, insize;
    q, list, tail, out := q0, list0, tail0, out0;
    ghost var a, b := start, mid;
    while psize > 0 || (qsize > 0 && q != null)
      invariant start <= a <= mid <= b <= end
      invariant psize == mid - a && end == Min(b + qsize, |s|)
      invariant (a < mid ==> p == s[a]) && q == At(s, b)
      invariant Output(kind, list, tail, out) && Pending(kind, s, a, mid, b, out)
      invariant Outcome(out, s, a, mid, b, end, cmp) == Outcome(out0, s, start, mid, mid, end, cmp)
      invariant kind == Singly ==> forall n :: n in s ==> n.prev == old(n.prev)
      decreases psize + end - b
    {
      OutcomeStep(out, s, a, mid, b, end, cmp);
      ghost var first := FirstRunNext(s, a, mid, b, end, cmp);
      ghost var e;
      FirstRunBounds(s, a, mid, b, end, cmp);
      p, psize, q, qsize, list, tail, e := MergeStep(kind, cmp, p, psize, q, qsize, oldHead, list, tail, s, a, mid,
                                                     b, end, out);
      out := out + [e];
      if first {
        a := a + 1;
      } else {
        b := b + 1;
      }
    }
    OutcomeEnds(out0, out, s, start, mid, end, cmp);
    PendingDone(kind, s, mid, end, out);
  }

  lemma PendingDone<T>(kind: Kind, s: seq<Node<T>>, mid: nat, end: nat, out: seq<Node<T>>)
    requires mid <= end <= |s| && Pending(kind, s, mid, mid, end, out)
    ensures Pending(kind, s, end, end, end, out)
  {
  }

  lemma OutcomeEnds<T>(out0: seq<Node<T>>, out: seq<Node<T>>, s: seq<Node<T>>, start: nat, mid: nat, end: nat,
                       cmp: Cmp<T>)
    requires start <= mid <= end <= |s|
    ensures Outcome(out, s, mid, mid, end, end, cmp) == out
    ensures Outcome(out0, s, start, mid, mid, end, cmp) == out0 + Merge(s[start..mid], s[mid..end], cmp)
  {
    assert s[mid..mid] == [] && s[end..end] == [];
  }

  lemma FirstRunBounds<T>(s: seq<Node<T>>, a: nat, mid: nat, b: nat, end: nat, cmp: Cmp<T>)
    requires a <= mid <= b <= end <= |s| && (a < mid || b < end)
    ensures if FirstRunNext(s, a, mid, b, end, cmp) then a < mid else b < end
  {
  }

  method AdvancePending<T>(kind: Kind, x: Node<T>, oldHead: Node<T>, ghost s: seq<Node<T>>,
                           ghost a: nat, ghost mid: nat, ghost b: nat, ghost i: nat, ghost out: seq<Node<T>>)
    returns (y: Node?<T>)
    requires a <= mid <= b <= |s| && Pending(kind, s, a, mid, b, out)
    requires i < |s| && (a <= i < mid || b <= i) && x == s[i] && oldHead == s[0]
    ensures y == At(s, i + 1)
  {
    y := Advance(kind, x, oldHead, s, i);
  }

  /** Walks from `p` over at most `insize` nodes: the length of the first run, and the node behind it. */
  method FirstRun<T>(kind: Kind, insize: nat, p: Node<T>, oldHead: Node<T>, ghost s: seq<Node<T>>, ghost c: nat,
                     ghost out: seq<Node<T>>)
    returns (q: Node?<T>, psize: nat)
    requires insize >= 1 && c < |s| && p == s[c] && oldHead == s[0] && Pending(kind, s, c, c, c, out)
    ensures psize == Min(insize, |s| - c) && q == At(s, c + psize)
  {
    hide Pending;
    q, psize := p, 0;
    for i := 0 to insize
      invariant psize == i && c + psize < |s| && q == s[c + psize]
    {
      psize := psize + 1;
      q := AdvancePending(kind, q, oldHead, s, c, c, c, c + i, out);
      if q == null {
        return;
      }
    }
  }

  lemma StartRun<T>(kind: Kind, s: seq<Node<T>>, c: nat, mid: nat, out: seq<Node<T>>)
    requires c <= mid <= |s| && Pending(kind, s, c, c, c, out)
    ensures Pending(kind, s, c, mid, mid, out)
  {
  }

  lemma PassStep<T>(s: seq<Node<T>>, c: nat, k: nat, cmp: Cmp<T>)
    requires k >= 1 && c < |s|
    ensures var mid := c + Min(k, |s| - c); var end := Min(mid + k, |s|);
            Pass(s[c..], k, cmp) == Merge(s[c..mid], s[mid..end], cmp) + Pass(s[end..], k, cmp)
  {
    hide Pass, Merge;
    var mid := c + Min(k, |s| - c);
    var end := Min(mid + k, |s|);
    PassSplit(s[c..], k, cmp);
    SubSlices(s, c, mid, end);
  }

  lemma SubSlices<E>(s: seq<E>, c: nat, mid: nat, end: nat)
    requires c <= mid <= end <= |s|
    ensures s[c..][..mid - c] == s[c..mid] && s[c..][mid - c..end - c] == s[mid..end] && s[c..][end - c..] == s[end..]
  {
  }

  ghost predicate Counted(nmerges: nat, c: nat, k: nat, n: nat) {
    && (nmerges == 0 ==> c == 0)
    && (nmerges == 1 ==> c == Min(2 * k, n))
    && (nmerges > 1 ==> n > 2 * k)
  }

  lemma CountStart(k: nat, n: nat)
    ensures Counted(0, 0, k, n)
  {
  }

  lemma CountStep(nmerges: nat, c: nat, k: nat, n: nat)
    requires k >= 1 && Counted(nmerges, c, k, n) && c <= n
    ensures c == n && n > 0 ==> (nmerges <= 1 <==> n <= 2 * k)
    ensures c < n ==> Counted(nmerges + 1, Min(c + 2 * k, n), k, n)
  {
  }

  /** One turn of the pass: the two runs from position `c` on. */
  method MergePair<T>(kind: Kind, cmp: Cmp<T>, insize: nat, p: Node<T>, head: Node<T>, list0: Node?<T>, tail0: Node?<T>,
                      ghost s: seq<Node<T>>, ghost c0: nat, ghost out0: seq<Node<T>>)
    returns (q: Node?<T>, list: Node?<T>, tail: Node?<T>, ghost c: nat, ghost out: seq<Node<T>>)
    requires insize >= 1 && c0 < |s| && p == s[c0] && head == s[0]
    requires Output(kind, list0, tail0, out0) && Pending(kind, s, c0, c0, c0, out0)
    modifies s
    ensures c == Min(c0 + 2 * insize, |s|) && q == At(s, c)
    ensures Output(kind, list, tail, out) && Pending(kind, s, c, c, c, out)
    ensures out + Pass(s[c..], insize, cmp) == out0 + Pass(s[c0..], insize, cmp)
    ensures kind == Singly ==> forall n :: n in s ==> n.prev == old(n.prev)
  {
    hide Output, Pending, Merge, Pass;
    var psize;
    q, psize := FirstRun(kind, insize, p, head, s, c0, out0);
    StartRun(kind, s, c0, c0 + psize, out0);
    q, list, tail, c, out := MergeRuns(kind, cmp, insize, p, psize, q, head, list0, tail0, s, c0, out0);
    PassStep(s, c0, insize, cmp);
    ConcatAssociates(out0, Merge(s[c0..c0 + psize], s[c0 + psize..c], cmp), Pass(s[c..], insize, cmp));
  }

  /** The merging part of one pass: every pair of neighbouring runs. */
  method MergeAllRuns<T>(kind: Kind, cmp: Cmp<T>, insize: nat, head: Node<T>, ghost s: seq<Node<T>>)
    returns (list: Node?<T>, tail: Node?<T>, nmerges: nat)
    requires insize >= 1 && s != [] && IsList(kind, head, s)
    modifies s
    ensures Output(kind, list, tail, Pass(s, insize, cmp))
    ensures nmerges <= 1 <==> |s| <= 2 * insize
    ensures kind == Singly ==> forall n :: n in s ==> n.prev == old(n.prev)
  {
    hide Output, Pending, Merge, Pass, IsList, Counted;
    StartPass(kind, head, s);
    CountStart(insize, |s|);
    var p: Node?<T> := head;
    list, tail, nmerges := null, null, 0;
    ghost var out: seq<Node<T>>, c: nat := [], 0;
    PassDone([], s, insize, cmp);
    while p != null
      invariant c <= |s| && p == At(s, c)
      invariant Output(kind, list, tail, out) && Pending(kind, s, c, c, c, out)
      invariant out + Pass(s[c..], insize, cmp) == Pass(s, insize, cmp)
      invariant Counted(nmerges, c, insize, |s|)
      invariant kind == Singly ==> forall n :: n in s ==> n.prev == old(n.prev)
      decreases |s| - c
    {
      CountStep(nmerges, c, insize, |s|);
      nmerges := nmerges + 1;
      p, list, tail, c, out := MergePair(kind, cmp, insize, p, head, list, tail, s, c, out);
    }
    PassDone(out, s, insize, cmp);
    CountStep(nmerges, c, insize, |s|);
  }

  lemma StartPass<T>(kind: Kind, head: Node?<T>, s: seq<Node<T>>)
    requires IsList(kind, head, s)
    ensures Output<T>(kind, null, null, []) && Pending(kind, s, 0, 0, 0, [])
    ensures head == At(s, 0)
  {
  }

  lemma PassDone<T>(out: seq<Node<T>>, s: seq<Node<T>>, k: nat, cmp: Cmp<T>)
    requires k >= 1
    ensures out + Pass(s[|s|..], k, cmp) == out
    ensures [] + Pass(s[0..], k, cmp) == Pass(s, k, cmp)
  {
    assert s[0..] == s;
  }

  lemma PassKeepsNodes<T>(s: seq<Node<T>>, k: nat, cmp: Cmp<T>)
    requires k >= 1
    ensures forall j :: 0 <= j < |s| ==> Pass(s, k, cmp)[j] in s
    ensures forall n :: n in s ==> n in Pass(s, k, cmp)
  {
    hide Pass;
    PassPermutes(s, k, cmp);
    forall j | 0 <= j < |s|
      ensures Pass(s, k, cmp)[j] in s
    {
      assert Pass(s, k, cmp)[j] in multiset(Pass(s, k, cmp));
    }
    forall n | n in s
      ensures n in Pass(s, k, cmp)
    {
      assert n in multiset(s);
    }
  }

  /** One pass: the merged list is closed in the way its kind asks for. */
  method OnePass<T>(kind: Kind, cmp: Cmp<T>, insize: nat, head: Node<T>, ghost s: seq<Node<T>>)
    returns (list: Node<T>, nmerges: nat)
    requires insize >= 1 && s != [] && IsList(kind, head, s)
    modifies s
    ensures IsList(kind, list, Pass(s, insize, cmp))
    ensures nmerges <= 1 <==> |s| <= 2 * insize
    ensures kind == Singly ==> forall n :: n in s ==> n.prev == old(n.prev)
  {
    hide Pass, Output, IsList;
    var tail;
    ghost var out := Pass(s, insize, cmp);
    PassKeepsNodes(s, insize, cmp);
    assert out[0] in s && out[|out| - 1] in s;
    var first;
    first, tail, nmerges := MergeAllRuns(kind, cmp, insize, head, s);
    list := Close(kind, first, tail, out);
  }

  /** Ends the output list: the last node's `next`, and the head's `prev`. */
  method Close<T>(kind: Kind, first: Node?<T>, tail: Node?<T>, ghost out: seq<Node<T>>) returns (list: Node<T>)
    requires out != [] && Output(kind, first, tail, out)
    modifies {out[0], out[|out| - 1]}
    ensures IsList(kind, list, out)
    ensures kind == Singly ==> forall n :: n in out ==> n.prev == old(n.prev)
  {
    list := first;
    if kind != Singly {
      list.prev := tail;
    }
    tail.next := if kind == Circular then list else null;
  }

  lemma PassesStep<T>(s: seq<Node<T>>, k: nat, cmp: Cmp<T>)
    requires k >= 1
    ensures Passes(s, k, cmp) == if |s| <= 2 * k then Pass(s, k, cmp) else Passes(Pass(s, k, cmp), 2 * k, cmp)
  {
  }

  ghost predicate SameNodes<T>(a: seq<Node<T>>, b: seq<Node<T>>) {
    && |a| == |b|
    && (forall j :: 0 <= j < |a| ==> a[j] in b)
    && (forall j :: 0 <= j < |b| ==> b[j] in a)
  }

  /** One turn of the sort loop, on the list `cur` of the nodes of `s`. */
  method SortStep<T>(kind: Kind, cmp: Cmp<T>, insize: nat, head: Node<T>, ghost cur: seq<Node<T>>,
                     ghost s: seq<Node<T>>)
    returns (list: Node<T>, looping: bool)
    requires insize >= 1 && cur != [] && IsList(kind, head, cur) && SameNodes(cur, s)
    modifies s
    ensures IsList(kind, list, Pass(cur, insize, cmp)) && SameNodes(Pass(cur, insize, cmp), s)
    ensures looping <==> |s| > 2 * insize
    ensures kind == Singly ==> forall n :: n in s ==> n.prev == old(n.prev)
  {
    hide Pass, IsList;
    var nmerges;
    list, nmerges := OnePass(kind, cmp, insize, head, cur);
    PassKeepsNodes(cur, insize, cmp);
    looping := !(nmerges <= 1);
  }

  lemma SameNodesRefl<T>(s: seq<Node<T>>)
    ensures SameNodes(s, s)
  {
  }

  /** LL_SORT2, DL_SORT2 and CDL_SORT2 on a list that is not empty. */
  method SortNonEmpty<T>(kind: Kind, cmp: Cmp<T>, head: Node<T>, ghost s: seq<Node<T>>) returns (list: Node<T>)
    requires s != [] && IsList(kind, head, s)
    modifies s
    ensures IsList(kind, list, Passes(s, 1, cmp))
    ensures kind == Singly ==> forall n :: n in s ==> n.prev == old(n.prev)
  {
    hide IsList, Pass, Passes, SameNodes;
    SameNodesRefl(s);
    list := head;
    var insize, looping := 1, true;
    ghost var cur := s;
    while looping
      invariant insize >= 1 && |cur| == |s|
      invariant SameNodes(cur, s) && IsList(kind, list, cur)
      invariant if looping then Passes(cur, insize, cmp) == Passes(s, 1, cmp) && |s| >= insize
                else cur == Passes(s, 1, cmp)
      invariant kind == Singly ==> forall n :: n in s ==> n.prev == old(n.prev)
      decreases looping, |s| - insize
    {
      PassesStep(cur, insize, cmp);
      list, looping := SortStep(kind, cmp, insize, list, cur, s);
      cur := Pass(cur, insize, cmp);
      insize := insize * 2;
    }
  }

  /** LL_SORT2, DL_SORT2 and CDL_SORT2: the nodes of `s`, in the order of their stable sort. */
  method SortList<T(!new)>(kind: Kind, cmp: Cmp<T>, head: Node?<T>, ghost s: seq<Node<T>>)
    returns (list: Node?<T>, ghost sorted: seq<Node<T>>)
    requires TotalPreorder(cmp) && IsList(kind, head, s)
    modifies s
    ensures IsList(kind, list, sorted)
    ensures StableSortOf(sorted, s, cmp) && multiset(sorted) == multiset(s)
    ensures kind == Singly ==> forall n :: n in s ==> n.prev == old(n.prev)
  {
    SortIsStableSort(s, cmp);
    sorted := Sort(s, cmp);
    list := head;
    if list != null {
      list := SortNonEmpty(kind, cmp, list, s);
    }
  }
}
