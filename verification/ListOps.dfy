/**
 The append, delete, in-order insert and concatenation macros of utlist.h, each proved against the
 sequence operation it stands for.
 */
module ListOps {
  import opened MergeSort
  import opened Utlist

  /** LL_APPEND2 */
  method Append<T>(head: Node?<T>, add: Node<T>, ghost s: seq<Node<T>>) returns (head': Node<T>)
    requires IsList(Singly, head, s) && add !in s
    modifies s`next, add`next
    ensures IsList(Singly, head', s + [add])
  {
    add.next := null;
    if head != null {
      var tmp, i := head, 0;
      while tmp.next != null
        invariant i < |s| && tmp == s[i]
        decreases |s| - i
      {
        tmp := tmp.next;
        i := i + 1;
      }
      tmp.next := add;
      head' := head;
    } else {
      head' := add;
    }
  }

  ghost function RemoveAt<T>(s: seq<Node<T>>, k: nat): (r: seq<Node<T>>)
    requires k < |s|
    ensures |r| == |s| - 1
    ensures forall i :: 0 <= i < |r| ==> r[i] == if i < k then s[i] else s[i + 1]
  {
    s[..k] + s[k + 1..]
  }

  ghost function InsertAt<T>(s: seq<Node<T>>, k: nat, n: Node<T>): (r: seq<Node<T>>)
    requires k <= |s|
    ensures |r| == |s| + 1
    ensures forall i :: 0 <= i < |r| ==> r[i] == if i < k then s[i] else if i == k then n else s[i - 1]
  {
    s[..k] + [n] + s[k..]
  }

  /** The list without a node, which is there at most once; unchanged when it is not there. */
  ghost function Without<T>(s: seq<Node<T>>, del: Node<T>): seq<Node<T>> {
    if s == [] then [] else if s[0] == del then s[1..] else [s[0]] + Without(s[1..], del)
  }

  lemma RemoveAtTail<T>(s: seq<Node<T>>, k: nat)
    requires 0 < k < |s|
    ensures [s[0]] + RemoveAt(s[1..], k - 1) == RemoveAt(s, k)
  {
  }

  lemma {:induction false} WithoutAt<T>(s: seq<Node<T>>, k: nat)
    requires NoDup(s) && k < |s|
    ensures Without(s, s[k]) == RemoveAt(s, k)
  {
    if k == 0 {
      assert s[..0] + s[1..] == s[1..];
    } else {
      WithoutAt(s[1..], k - 1);
      RemoveAtTail(s, k);
      hide RemoveAt;
    }
  }

  lemma {:induction false} WithoutAbsent<T>(s: seq<Node<T>>, del: Node<T>)
    requires del !in s
    ensures Without(s, del) == s
  {
    if s != [] {
      WithoutAbsent(s[1..], del);
    }
  }

  /** Forward links that skip position `k` of `s`, read off on the positions of `s` itself. */
  ghost predicate NextSkips<T>(s: seq<Node<T>>, k: nat)
    requires 0 < k < |s|
    reads s`next
  {
    && (forall i :: 0 <= i < |s| && i != k - 1 && i != k ==> s[i].next == At(s, i + 1))
    && s[k - 1].next == At(s, k + 1)
  }

  ghost predicate PrevSkips<T>(s: seq<Node<T>>, k: nat)
    requires 0 < k < |s|
    reads s`prev
  {
    && (forall i :: 0 < i < |s| && i != k && i != k + 1 ==> s[i].prev == s[i - 1])
    && (k + 1 < |s| ==> s[k + 1].prev == s[k - 1])
    && s[0].prev == if k == |s| - 1 then s[k - 1] else s[|s| - 1]
  }

  lemma SkipNext<T>(s: seq<Node<T>>, k: nat, i: nat)
    requires 0 < k < |s| && i < |s| - 1 && NextSkips(s, k)
    ensures var r := RemoveAt(s, k); r[i].next == At(r, i + 1)
  {
    var r := RemoveAt(s, k);
    if i + 1 < |r| {
      assert r[i + 1] == if i + 1 < k then s[i + 1] else s[i + 2];
    }
  }

  lemma SkipPrev<T>(s: seq<Node<T>>, k: nat, i: nat)
    requires 0 < k < |s| && i < |s| - 1 && PrevSkips(s, k)
    ensures var r := RemoveAt(s, k); r[i].prev == PrevOf(r, i)
  {
    var r := RemoveAt(s, k);
    assert r[|r| - 1] == if k == |s| - 1 then s[k - 1] else s[|s| - 1];
    if i > 0 {
      assert r[i - 1] == if i - 1 < k then s[i - 1] else s[i];
    }
  }

  lemma SkipForms<T>(kind: Kind, head: Node<T>, s: seq<Node<T>>, k: nat)
    requires kind != Circular && NoDup(s) && 0 < k < |s| && head == s[0]
    requires NextSkips(s, k) && (kind == Doubly ==> PrevSkips(s, k))
    ensures IsList(kind, head, RemoveAt(s, k))
  {
    var r := RemoveAt(s, k);
    assert NoDup(r);
    hide NextSkips, PrevSkips, RemoveAt;
    forall i | 0 <= i < |r|
      ensures r[i].next == NextOf(kind, r, i)
      ensures kind == Doubly ==> r[i].prev == PrevOf(r, i)
    {
      SkipNext(s, k, i);
      if kind == Doubly {
        SkipPrev(s, k, i);
      }
    }
    assert head == r[0];
  }

  method Unlink<T>(head: Node<T>, tmp: Node<T>, del: Node<T>, ghost s: seq<Node<T>>, ghost k: nat)
    requires IsList(Singly, head, s) && 0 < k < |s| && tmp == s[k - 1] && del == s[k]
    modifies tmp`next
    ensures IsList(Singly, head, RemoveAt(s, k))
  {
    hide RemoveAt;
    tmp.next := del.next;
    SkipForms(Singly, head, s, k);
  }

  /** LL_DELETE2: a node that is not in the list is ignored. */
  method Delete<T>(head: Node<T>, del: Node<T>, ghost s: seq<Node<T>>) returns (head': Node?<T>)
    requires IsList(Singly, head, s)
    modifies s`next
    ensures IsList(Singly, head', Without(s, del))
    ensures del in s ==> del.next == old(del.next)
  {
    hide Without;
    if head == del {
      head' := head.next;
      WithoutAt(s, 0);
    } else {
      var tmp, i := head, 0;
      while tmp.next != null && tmp.next != del
        invariant i < |s| && tmp == s[i] && forall j :: 0 <= j <= i ==> s[j] != del
        decreases |s| - i
      {
        tmp := tmp.next;
        i := i + 1;
      }
      if tmp.next != null {
        Unlink(head, tmp, del, s, i + 1);
        WithoutAt(s, i + 1);
      } else {
        WithoutAbsent(s, del);
      }
      head' := head;
    }
  }

  /** The sign convention of a comparison callback. */
  ghost predicate Comparison<T(!new)>(cmp: Cmp<T>) {
    && TotalPreorder(cmp)
    && forall x, y :: cmp(x, y) >= 0 <==> cmp(y, x) <= 0
  }

  /** `k` is the lower bound of `like` in `s`: everything before is strictly less, and not what follows. */
  ghost predicate LowerBoundAt<T>(s: seq<Node<T>>, k: nat, like: Node<T>, cmp: Cmp<T>) {
    && k <= |s|
    && (forall j :: 0 <= j < k ==> cmp(s[j].data, like.data) < 0)
    && (k < |s| ==> cmp(s[k].data, like.data) >= 0)
  }

  /** LL_LOWER_BOUND2: the last node before the lower bound, or null. */
  method LowerBound<T>(head: Node?<T>, like: Node<T>, cmp: Cmp<T>, ghost s: seq<Node<T>>)
    returns (elt: Node?<T>, ghost k: nat)
    requires IsList(Singly, head, s)
    ensures LowerBoundAt(s, k, like, cmp) && elt == (if k == 0 then null else s[k - 1])
  {
    if head == null || cmp(head.data, like.data) >= 0 {
      return null, 0;
    }
    elt, k := head, 1;
    while elt.next != null
      invariant 1 <= k <= |s| && elt == s[k - 1] && forall j :: 0 <= j < k ==> cmp(s[j].data, like.data) < 0
      decreases |s| - k
    {
      if cmp(elt.next.data, like.data) >= 0 {
        break;
      }
      elt := elt.next;
      k := k + 1;
    }
  }

  /** LL_APPEND_ELEM2: behind `elt`, or in front of everything. */
  method AppendElem<T>(head: Node<T>, elt: Node?<T>, add: Node<T>, ghost s: seq<Node<T>>, ghost k: nat)
    returns (head': Node<T>)
    requires IsList(Singly, head, s) && add !in s
    requires k <= |s| && elt == (if k == 0 then null else s[k - 1])
    modifies s`next, add`next
    ensures IsList(Singly, head', InsertAt(s, k, add))
  {

    if elt != null {
      add.next := elt.next;
      elt.next := add;
      head' := head;
    } else {
      add.next := head;
      head' := add;
    }
    InsertForms(head', s, k, add);
  }

  lemma InsertForms<T>(head: Node<T>, s: seq<Node<T>>, k: nat, add: Node<T>)
    requires NoDup(s) && add !in s && k <= |s| && head == (if k == 0 then add else s[0])
    requires add.next == At(s, k) && (k > 0 ==> s[k - 1].next == add)
    requires forall i :: 0 <= i < |s| && i != k - 1 ==> s[i].next == At(s, i + 1)
    ensures IsList(Singly, head, InsertAt(s, k, add))
  {
    var r := InsertAt(s, k, add);
    assert NoDup(r);
    forall i | 0 <= i < |r|
      ensures r[i].next == NextOf(Singly, r, i)
    {
      if i + 1 < |r| {
        assert r[i + 1] == if i + 1 < k then s[i + 1] else if i + 1 == k then add else s[i];
      }
    }
  }

  /** LL_INSERT_INORDER2 */
  method InsertInOrder<T(!new)>(head: Node?<T>, add: Node<T>, cmp: Cmp<T>, ghost s: seq<Node<T>>)
    returns (head': Node<T>, ghost k: nat)
    requires IsList(Singly, head, s) && add !in s
    modifies s`next, add`next
    ensures LowerBoundAt(s, k, add, cmp)
    ensures IsList(Singly, head', InsertAt(s, k, add))
    ensures Comparison(cmp) && Sorted(s, cmp) ==> Sorted(InsertAt(s, k, add), cmp)
  {
    hide Sorted, Comparison;
    if head != null {
      var elt;
      elt, k := LowerBound(head, add, cmp, s);
      head' := AppendElem(head, elt, add, s, k);
    } else {
      k := 0;
      head' := add;
      add.next := null;
    }
    if Comparison(cmp) && Sorted(s, cmp) {
      InsertKeepsOrder(s, k, add, cmp);
    }
  }

  lemma InsertKeepsOrder<T(!new)>(s: seq<Node<T>>, k: nat, add: Node<T>, cmp: Cmp<T>)
    requires Comparison(cmp) && Sorted(s, cmp) && LowerBoundAt(s, k, add, cmp)
    ensures Sorted(InsertAt(s, k, add), cmp)
  {
    forall j | 0 <= j < |s|
      ensures if j < k then Before(cmp, s[j], add) else Before(cmp, add, s[j])
    {
      if j > k {
        assert Before(cmp, s[k], s[j]);
      }
    }
  }

  /** DL_APPEND2: the head's back link finds the tail, so no walk is needed. */
  method AppendDoubly<T>(head: Node?<T>, add: Node<T>, ghost s: seq<Node<T>>) returns (head': Node<T>)
    requires IsList(Doubly, head, s) && add !in s
    modifies s, add
    ensures IsList(Doubly, head', s + [add])
  {
    if head != null {
      assert head.prev == s[|s| - 1];
      add.prev := head.prev;
      head.prev.next := add;
      head.prev := add;
      add.next := null;
      head' := head;
      JoinForms(head, s, [add]);
    } else {
      head' := add;
      head'.prev := head';
      head'.next := null;
    }
  }

  /** DL_CONCAT2 */
  method ConcatDoubly<T>(head1: Node?<T>, head2: Node?<T>, ghost s: seq<Node<T>>, ghost t: seq<Node<T>>)
    returns (head: Node?<T>)
    requires IsList(Doubly, head1, s) && IsList(Doubly, head2, t)
    requires forall i, j :: 0 <= i < |s| && 0 <= j < |t| ==> s[i] != t[j]
    modifies s, t
    ensures IsList(Doubly, head, s + t)
  {
    head := head1;
    if head2 != null {
      if head1 != null {
        assert head1.prev == s[|s| - 1] && head2.prev == t[|t| - 1];
        var tmp := head2.prev;
        head2.prev := head1.prev;
        head1.prev.next := head2;
        head1.prev := tmp;
        JoinForms(head1, s, t);
      } else {
        head := head2;
        assert s + t == t;
      }
    } else {
      assert s + t == s;
    }
  }

  lemma JoinForms<T>(head: Node<T>, s: seq<Node<T>>, t: seq<Node<T>>)
    requires s != [] && t != [] && NoDup(s) && NoDup(t) && head == s[0]
    requires forall i, j :: 0 <= i < |s| && 0 <= j < |t| ==> s[i] != t[j]
    requires (forall i :: 0 <= i < |s| - 1 ==> s[i].next == s[i + 1]) && s[|s| - 1].next == t[0]
    requires forall i :: 0 <= i < |t| ==> t[i].next == At(t, i + 1)
    requires (forall i :: 0 < i < |s| ==> s[i].prev == s[i - 1]) && s[0].prev == t[|t| - 1]
    requires (forall i :: 0 < i < |t| ==> t[i].prev == t[i - 1]) && t[0].prev == s[|s| - 1]
    ensures IsList(Doubly, head, s + t)
  {
    var r := s + t;
    assert NoDup(r);
    forall i | 0 <= i < |r|
      ensures r[i].next == NextOf(Doubly, r, i) && r[i].prev == PrevOf(r, i)
    {
      assert r[|r| - 1] == t[|t| - 1];
      if i < |s| {
        assert r[i] == s[i];
        assert i + 1 < |s| ==> r[i + 1] == s[i + 1];
        assert i + 1 == |s| ==> r[i + 1] == t[0];
        assert i > 0 ==> r[i - 1] == s[i - 1];
      } else {
        var j := i - |s|;
        assert r[i] == t[j];
        assert j + 1 < |t| ==> r[i + 1] == t[j + 1];
        assert r[i - 1] == if j == 0 then s[|s| - 1] else t[j - 1];
      }
    }
  }

  /** DL_DELETE2: `del` must be in the list. */
  method DeleteDoubly<T>(head: Node<T>, del: Node<T>, ghost s: seq<Node<T>>, ghost k: nat) returns (head': Node?<T>)
    requires IsList(Doubly, head, s) && k < |s| && s[k] == del
    modifies s
    ensures IsList(Doubly, head', Without(s, del))
  {
    hide Without;
    WithoutAt(s, k);
    if del.prev == del {
      assert PrevOf(s, k) == s[k];
      head' := null;
    } else if del == head {
      head' := DeleteFirst(head, s);
    } else {
      DeleteLater(head, del, s, k);
      head' := head;
    }
  }

  method DeleteFirst<T>(head: Node<T>, ghost s: seq<Node<T>>) returns (head': Node<T>)
    requires IsList(Doubly, head, s) && |s| > 1
    modifies s
    ensures IsList(Doubly, head', RemoveAt(s, 0))
  {
    assert s[1].prev == s[0] && s[0].prev == s[|s| - 1];
    head.next.prev := head.prev;
    head' := head.next;
  }

  method DeleteLater<T>(head: Node<T>, del: Node<T>, ghost s: seq<Node<T>>, ghost k: nat)
    requires IsList(Doubly, head, s) && 0 < k < |s| && s[k] == del
    modifies s
    ensures IsList(Doubly, head, RemoveAt(s, k))
  {
    assert del.prev == PrevOf(s, k) && del.next == NextOf(Doubly, s, k);
    RelinkForward(del, s, k);
    RelinkBack(head, del, s, k);
    assert NextSkips(s, k);
    SkipForms(Doubly, head, s, k);
  }

  method RelinkForward<T>(del: Node<T>, ghost s: seq<Node<T>>, ghost k: nat)
    requires NoDup(s) && 0 < k < |s| && s[k] == del && del.prev == s[k - 1]
    requires forall i :: 0 <= i < |s| ==> s[i].next == At(s, i + 1)
    modifies s`next
    ensures NextSkips(s, k) && del.next == At(s, k + 1)
  {
    del.prev.next := del.next;
  }

  method RelinkBack<T>(head: Node<T>, del: Node<T>, ghost s: seq<Node<T>>, ghost k: nat)
    requires NoDup(s) && 0 < k < |s| && s[k] == del && head == s[0] && del.next == At(s, k + 1)
    requires forall i :: 0 <= i < |s| ==> s[i].prev == PrevOf(s, i)
    modifies s`prev
    ensures PrevSkips(s, k)
  {
    assert del.prev == s[k - 1];
    if del.next != null {
      del.next.prev := del.prev;
    } else {
      head.prev := del.prev;
    }
  }
}
