/**
  Bottom-up merge sort on sequences: the specification of the in-place sort of
  intrusive lists, with its properties.
 */
module MergeSort {

  /** A list element; lists link the elements, which carry a key for the comparison. */
  class Node {
    const key: int
    var next: Node?
    var prev: Node?

    constructor (k: int)
      ensures key == k && next == this && prev == this
    {
      key := k;
      next := this;
      prev := this;
    }
  }

  type Compare = (int, int) -> int

  /** The comparison is a total preorder. */
  ghost predicate Preorder(cmp: Compare) {
    && (forall x, y :: cmp(x, y) <= 0 || cmp(y, x) <= 0)
    && (forall x, y, z :: cmp(x, y) <= 0 && cmp(y, z) <= 0 ==> cmp(x, z) <= 0)
  }

  function Merge(cmp: Compare, a: seq<Node>, b: seq<Node>): (r: seq<Node>)
    ensures |r| == |a| + |b|
    decreases |a| + |b|
  {
    if a == [] then b
    else if b == [] then a
    else if cmp(a[0].key, b[0].key) <= 0 then [a[0]] + Merge(cmp, a[1..], b)
    else [b[0]] + Merge(cmp, a, b[1..])
  }

  function Min(a: int, b: int): int {
    if a < b then a else b
  }

  /** Merge neighbouring runs of length k. */
  function Pass(cmp: Compare, s: seq<Node>, k: nat): (r: seq<Node>)
    requires k >= 1
    ensures |r| == |s|
    decreases |s|
  {
    if s == [] then []
    else
      var m, e := Min(k, |s|), Min(2 * k, |s|);
      Merge(cmp, s[..m], s[m..e]) + Pass(cmp, s[e..], k)
  }

  /** Passes with runs of length k, 2k, 4k, ... until a pass needs a single merge. */
  function SortFrom(cmp: Compare, s: seq<Node>, k: nat): (r: seq<Node>)
    requires k >= 1
    ensures |r| == |s|
    decreases if 2 * k >= |s| then 0 else |s| - k
  {
    if 2 * k >= |s| then Pass(cmp, s, k) else SortFrom(cmp, Pass(cmp, s, k), 2 * k)
  }

  // ------------------------------------------------------------------ permutation

  lemma AppendMultiset(s: seq<Node>, t: seq<Node>)
    ensures multiset(s + t) == multiset(s) + multiset(t)
  {}

  lemma ConsMultiset(x: Node, s: seq<Node>)
    ensures multiset([x] + s) == multiset{x} + multiset(s)
  {}

  lemma {:induction false} MergePermutes(cmp: Compare, a: seq<Node>, b: seq<Node>)
    ensures multiset(Merge(cmp, a, b)) == multiset(a) + multiset(b)
    decreases |a| + |b|
  {
    if a != [] && b != [] {
      if cmp(a[0].key, b[0].key) <= 0 {
        MergePermutes(cmp, a[1..], b);
        ConsMultiset(a[0], Merge(cmp, a[1..], b));
        ConsMultiset(a[0], a[1..]);
        assert a == [a[0]] + a[1..];
      } else {
        MergePermutes(cmp, a, b[1..]);
        ConsMultiset(b[0], Merge(cmp, a, b[1..]));
        ConsMultiset(b[0], b[1..]);
        assert b == [b[0]] + b[1..];
      }
    }
  }

  lemma PassUnfold(cmp: Compare, t: seq<Node>, k: nat)
    requires k >= 1 && t != []
    ensures var m, e := Min(k, |t|), Min(2 * k, |t|);
            Pass(cmp, t, k) == Merge(cmp, t[..m], t[m..e]) + Pass(cmp, t[e..], k)
  {}

  lemma CutTwice(s: seq<Node>, m: nat, e: nat)
    requires m <= e <= |s|
    ensures multiset(s) == multiset(s[..m]) + multiset(s[m..e]) + multiset(s[e..])
  {
    assert s == s[..m] + s[m..e] + s[e..];
  }

  lemma {:induction false} PassPermutes(cmp: Compare, s: seq<Node>, k: nat)
    requires k >= 1
    ensures multiset(Pass(cmp, s, k)) == multiset(s)
    decreases |s|
  {
    if s != [] {
      var m, e := Min(k, |s|), Min(2 * k, |s|);
      hide Pass, Merge;
      PassUnfold(cmp, s, k);
      MergePermutes(cmp, s[..m], s[m..e]);
      PassPermutes(cmp, s[e..], k);
      AppendMultiset(Merge(cmp, s[..m], s[m..e]), Pass(cmp, s[e..], k));
      CutTwice(s, m, e);
    }
  }

  lemma {:induction false} SortPermutes(cmp: Compare, s: seq<Node>, k: nat)
    requires k >= 1
    ensures multiset(SortFrom(cmp, s, k)) == multiset(s)
    decreases if 2 * k >= |s| then 0 else |s| - k
  {
    PassPermutes(cmp, s, k);
    if 2 * k < |s| {
      SortPermutes(cmp, Pass(cmp, s, k), 2 * k);
    }
  }

  // -------------------------------------------------------------------- sortedness

  ghost predicate Sorted(cmp: Compare, s: seq<Node>) {
    forall i, j :: 0 <= i < j < |s| ==> cmp(s[i].key, s[j].key) <= 0
  }

  /** x comes before everything in s. */
  ghost predicate Below(cmp: Compare, x: Node, s: seq<Node>) {
    forall i :: 0 <= i < |s| ==> cmp(x.key, s[i].key) <= 0
  }

  lemma {:induction false} MergeBelow(cmp: Compare, x: Node, a: seq<Node>, b: seq<Node>)
    requires Below(cmp, x, a) && Below(cmp, x, b)
    ensures Below(cmp, x, Merge(cmp, a, b))
    decreases |a| + |b|
  {
    if a != [] && b != [] {
      if cmp(a[0].key, b[0].key) <= 0 {
        MergeBelow(cmp, x, a[1..], b);
      } else {
        MergeBelow(cmp, x, a, b[1..]);
      }
    }
  }

  lemma SortedCons(cmp: Compare, x: Node, s: seq<Node>)
    requires Sorted(cmp, s) && Below(cmp, x, s)
    ensures Sorted(cmp, [x] + s)
  {}

  lemma {:induction false} MergeSorted(cmp: Compare, a: seq<Node>, b: seq<Node>)
    requires Preorder(cmp) && Sorted(cmp, a) && Sorted(cmp, b)
    ensures Sorted(cmp, Merge(cmp, a, b))
    decreases |a| + |b|
  {
    hide Sorted, Below;
    if a != [] && b != [] {
      SortedUncons(cmp, a);
      SortedUncons(cmp, b);
      if cmp(a[0].key, b[0].key) <= 0 {
        MergeSorted(cmp, a[1..], b);
        HeadBelow(cmp, a[0], b);
        MergeBelow(cmp, a[0], a[1..], b);
        SortedCons(cmp, a[0], Merge(cmp, a[1..], b));
      } else {
        MergeSorted(cmp, a, b[1..]);
        HeadBelow(cmp, b[0], a);
        MergeBelow(cmp, b[0], a, b[1..]);
        SortedCons(cmp, b[0], Merge(cmp, a, b[1..]));
      }
    }
  }

  lemma SortedUncons(cmp: Compare, s: seq<Node>)
    requires Sorted(cmp, s) && s != []
    ensures Sorted(cmp, s[1..]) && Below(cmp, s[0], s[1..])
  {}

  lemma HeadBelow(cmp: Compare, x: Node, s: seq<Node>)
    requires Preorder(cmp) && Sorted(cmp, s) && s != [] && cmp(x.key, s[0].key) <= 0
    ensures Below(cmp, x, s)
  {
    forall i | 0 <= i < |s| ensures cmp(x.key, s[i].key) <= 0 {
      assert i == 0 || cmp(s[0].key, s[i].key) <= 0;
    }
  }

  /** Runs of length k, the last one possibly shorter, are sorted. */
  ghost predicate RunsSorted(cmp: Compare, s: seq<Node>, k: nat)
    requires k >= 1
    decreases |s|
  {
    if |s| <= k then Sorted(cmp, s) else Sorted(cmp, s[..k]) && RunsSorted(cmp, s[k..], k)
  }

  lemma {:induction false} SingletonsSorted(cmp: Compare, s: seq<Node>)
    ensures RunsSorted(cmp, s, 1)
    decreases |s|
  {
    if |s| > 1 {
      SingletonsSorted(cmp, s[1..]);
    }
  }

  lemma EmptySorted(cmp: Compare, k: nat)
    requires k >= 1
    ensures Sorted(cmp, []) && RunsSorted(cmp, [], k)
  {}

  lemma {:induction false} FirstRuns(cmp: Compare, s: seq<Node>, k: nat)
    requires k >= 1 && RunsSorted(cmp, s, k) && s != []
    ensures var m, e := Min(k, |s|), Min(2 * k, |s|);
            Sorted(cmp, s[..m]) && Sorted(cmp, s[m..e]) && RunsSorted(cmp, s[e..], k)
  {
    hide Sorted;
    var m, e := Min(k, |s|), Min(2 * k, |s|);
    EmptySorted(cmp, k);
    if |s| <= k {
      assert s[..m] == s && s[m..e] == [] && s[e..] == [];
    } else {
      var t := s[k..];
      if |t| <= k {
        assert s[m..e] == t && s[e..] == [];
      } else {
        assert s[m..e] == t[..k];
        assert s[e..] == t[k..];
      }
    }
  }

  lemma {:induction false} PassSorts(cmp: Compare, s: seq<Node>, k: nat)
    requires k >= 1 && Preorder(cmp) && RunsSorted(cmp, s, k)
    ensures RunsSorted(cmp, Pass(cmp, s, k), 2 * k)
    decreases |s|
  {
    if s != [] {
      var m, e := Min(k, |s|), Min(2 * k, |s|);
      FirstRuns(cmp, s, k);
      var r, t := Merge(cmp, s[..m], s[m..e]), Pass(cmp, s[e..], k);
      MergeSorted(cmp, s[..m], s[m..e]);
      PassSorts(cmp, s[e..], k);
      if e == |s| {
        assert r + t == r;
      } else {
        assert (r + t)[..2 * k] == r;
        assert (r + t)[2 * k..] == t;
      }
    }
  }

  lemma {:induction false} SortSorts(cmp: Compare, s: seq<Node>, k: nat)
    requires k >= 1 && Preorder(cmp) && RunsSorted(cmp, s, k)
    ensures Sorted(cmp, SortFrom(cmp, s, k))
    decreases if 2 * k >= |s| then 0 else |s| - k
  {
    PassSorts(cmp, s, k);
    if 2 * k < |s| {
      SortSorts(cmp, Pass(cmp, s, k), 2 * k);
    }
  }

  // ---------------------------------------------------------------------- stability

  /** [x] if x compares equal to v. */
  ghost function Tag(cmp: Compare, x: Node, v: int): seq<Node> {
    if cmp(x.key, v) <= 0 && cmp(v, x.key) <= 0 then [x] else []
  }

  /** The elements that compare equal to v, in order. */
  ghost function Equals(cmp: Compare, s: seq<Node>, v: int): seq<Node> {
    if s == [] then [] else Tag(cmp, s[0], v) + Equals(cmp, s[1..], v)
  }

  lemma {:induction false} EqualsAppend(cmp: Compare, a: seq<Node>, b: seq<Node>, v: int)
    ensures Equals(cmp, a + b, v) == Equals(cmp, a, v) + Equals(cmp, b, v)
    decreases |a|
  {
    if a == [] {
      assert a + b == b;
    } else {
      assert (a + b)[1..] == a[1..] + b;
      EqualsAppend(cmp, a[1..], b, v);
    }
  }

  /** Nothing in a sorted sequence is equal to v once its first element is above v. */
  lemma {:induction false} NoEqualsAbove(cmp: Compare, s: seq<Node>, v: int)
    requires Preorder(cmp) && Sorted(cmp, s)
    requires s != [] ==> cmp(s[0].key, v) > 0
    ensures Equals(cmp, s, v) == []
    decreases |s|
  {
    if |s| > 1 {
      assert cmp(s[0].key, s[1].key) <= 0;
      NoEqualsAbove(cmp, s[1..], v);
    }
  }

  /** If x has to give way to y, then nothing in a run starting with x is equal to y. */
  lemma GiveWay(cmp: Compare, a: seq<Node>, y: Node, v: int)
    requires Preorder(cmp) && Sorted(cmp, a) && a != [] && cmp(a[0].key, y.key) > 0
    ensures Tag(cmp, y, v) == [] || Equals(cmp, a, v) == []
  {
    if Tag(cmp, y, v) != [] {
      assert cmp(v, y.key) <= 0;
      assert cmp(a[0].key, v) > 0;
      NoEqualsAbove(cmp, a, v);
    }
  }

  lemma SortedTail(cmp: Compare, s: seq<Node>)
    requires Sorted(cmp, s) && s != []
    ensures Sorted(cmp, s[1..])
  {}

  lemma {:induction false} MergeStable(cmp: Compare, a: seq<Node>, b: seq<Node>, v: int)
    requires Preorder(cmp) && Sorted(cmp, a) && Sorted(cmp, b)
    ensures Equals(cmp, Merge(cmp, a, b), v) == Equals(cmp, a, v) + Equals(cmp, b, v)
    decreases |a| + |b|
  {
    hide Preorder, Sorted, Tag, Merge, Equals;
    MergeUnfold(cmp, a, b);
    EqualsOfNothing(cmp, v);
    if a != [] && b != [] {
      assert a == [a[0]] + a[1..] && b == [b[0]] + b[1..];
      EqualsCons(cmp, a[0], a[1..], v);
      EqualsCons(cmp, b[0], b[1..], v);
      if cmp(a[0].key, b[0].key) <= 0 {
        SortedTail(cmp, a);
        MergeStable(cmp, a[1..], b, v);
        EqualsCons(cmp, a[0], Merge(cmp, a[1..], b), v);
      } else {
        SortedTail(cmp, b);
        MergeStable(cmp, a, b[1..], v);
        EqualsCons(cmp, b[0], Merge(cmp, a, b[1..]), v);
        GiveWay(cmp, a, b[0], v);
      }
    }
  }

  lemma MergeUnfold(cmp: Compare, a: seq<Node>, b: seq<Node>)
    ensures a == [] ==> Merge(cmp, a, b) == b
    ensures b == [] ==> Merge(cmp, a, b) == a
    ensures a != [] && b != [] ==>
      Merge(cmp, a, b) == if cmp(a[0].key, b[0].key) <= 0 then [a[0]] + Merge(cmp, a[1..], b) else [b[0]] + Merge(cmp, a, b[1..])
  {}

  lemma EqualsOfNothing(cmp: Compare, v: int)
    ensures Equals(cmp, [], v) == []
  {}

  lemma EqualsCons(cmp: Compare, x: Node, s: seq<Node>, v: int)
    ensures Equals(cmp, [x] + s, v) == Tag(cmp, x, v) + Equals(cmp, s, v)
  {
    assert ([x] + s)[1..] == s;
  }

  lemma {:induction false} PassStable(cmp: Compare, s: seq<Node>, k: nat, v: int)
    requires k >= 1 && Preorder(cmp) && RunsSorted(cmp, s, k)
    ensures Equals(cmp, Pass(cmp, s, k), v) == Equals(cmp, s, v)
    decreases |s|
  {
    hide Preorder, Sorted, Equals, Merge, RunsSorted;
    if s != [] {
      var m, e := Min(k, |s|), Min(2 * k, |s|);
      FirstRuns(cmp, s, k);
      MergeStable(cmp, s[..m], s[m..e], v);
      PassStable(cmp, s[e..], k, v);
      EqualsAppend(cmp, Merge(cmp, s[..m], s[m..e]), Pass(cmp, s[e..], k), v);
      EqualsAppend(cmp, s[..m], s[m..e], v);
      EqualsAppend(cmp, s[..m] + s[m..e], s[e..], v);
      assert s == s[..m] + s[m..e] + s[e..];
    }
  }

  lemma {:induction false} SortStable(cmp: Compare, s: seq<Node>, k: nat, v: int)
    requires k >= 1 && Preorder(cmp) && RunsSorted(cmp, s, k)
    ensures Equals(cmp, SortFrom(cmp, s, k), v) == Equals(cmp, s, v)
    decreases if 2 * k >= |s| then 0 else |s| - k
  {
    PassStable(cmp, s, k, v);
    if 2 * k < |s| {
      PassSorts(cmp, s, k);
      SortStable(cmp, Pass(cmp, s, k), 2 * k, v);
    }
  }
}
