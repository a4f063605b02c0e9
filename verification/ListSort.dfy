/** The intrusive circular lists and their in-place merge sort. */
module ListSort {
  import opened MergeSort

  // ----------------------------------------------------------------------- rings

  ghost predicate Distinct(s: seq<Node>) {
    forall i, j :: 0 <= i < j < |s| ==> s[i] != s[j]
  }

  /** The successor of s[j] on the ring s. */
  ghost function Succ(s: seq<Node>, j: int): Node
    requires 0 <= j < |s|
  {
    if j + 1 < |s| then s[j + 1] else s[0]
  }

  /** s is a ring: next goes round it forwards and prev backwards. */
  ghost predicate Ring(s: seq<Node>)
    reads s
  {
    && Distinct(s)
    && forall j :: 0 <= j < |s| ==> s[j].next == Succ(s, j) && Succ(s, j).prev == s[j]
  }

  // ----------------------------------------------------------------- a merge pass

  /** The forward links of s[lo..hi] are still those of the ring s. */
  ghost predicate Intact(s: seq<Node>, lo: int, hi: int)
    requires 0 <= lo && hi <= |s|
    reads s
  {
    forall j :: lo <= j < hi ==> s[j].next == Succ(s, j)
  }

  /** No node of `out` is among s[lo..hi]. */
  ghost predicate Fresh(out: seq<Node>, s: seq<Node>, lo: int, hi: int)
    requires 0 <= lo && hi <= |s|
  {
    forall i, j :: 0 <= i < |out| && lo <= j < hi ==> out[i] != s[j]
  }

  /** `out` is a doubly linked list that starts at `list` and ends at `tail`. */
  ghost predicate Linked(out: seq<Node>, list: Node?, tail: Node?)
    reads out
  {
    && Distinct(out)
    && (if out == [] then list == null && tail == null
        else list == out[0] && tail == out[|out| - 1] && out[0].prev == null)
    && forall i :: 0 <= i < |out| - 1 ==> out[i].next == out[i + 1] && out[i + 1].prev == out[i]
  }

  /** `tail->next = e` (or `list = e`), then `e->prev = tail`. */
  method Append(e: Node, list: Node?, tail: Node?, ghost out: seq<Node>) returns (list': Node?)
    requires Linked(out, list, tail) && e !in out
    modifies out, e
    ensures Linked(out + [e], list', e)
    ensures forall x :: x in out && x != tail ==> x.next == old(x.next)
    ensures e.next == old(e.next)
  {
    list' := list;
    if tail != null {
      tail.next := e;
    } else {
      list' := e;
    }
    e.prev := tail;
  }

  /** The node behind x, or null at the end of the ring that starts at oldhead. */
  method Advance(x: Node, oldhead: Node, ghost s: seq<Node>, ghost j: int) returns (y: Node?)
    requires 0 <= j < |s| && s[j] == x && s[0] == oldhead && Distinct(s) && x.next == Succ(s, j)
    ensures y == if j + 1 < |s| then s[j + 1] else null
  {
    y := x.next;
    if y == oldhead {
      y := null;
    }
  }

  /** Count off the first run, of at most insize nodes, and find the start of the second one. */
  method SkipRun(p: Node, oldhead: Node, insize: nat, ghost s: seq<Node>, ghost b: nat) returns (q: Node?, psize: nat)
    requires insize >= 1 && b < |s| && s[b] == p && s[0] == oldhead && Distinct(s) && Intact(s, b, |s|)
    ensures psize == Min(insize, |s| - b)
    ensures q == if b + psize < |s| then s[b + psize] else null
  {
    hide Distinct;
    q, psize := p, 0;
    var i := 0;
    while i < insize && q != null
      invariant psize == i <= insize && b + psize <= |s|
      invariant q == if b + psize < |s| then s[b + psize] else null
      invariant i > 0 || q == p
    {
      psize := psize + 1;
      q := Advance(q, oldhead, s, b + psize - 1);
      i := i + 1;
    }
  }

  /**
    In the middle of a merge: s[pi..m] and s[qi..] are still to be taken, and
    `out` links the nodes taken so far.
   */
  ghost predicate Merging(s: seq<Node>, out: seq<Node>, pi: int, m: int, qi: int, list: Node?, tail: Node?)
    requires 0 <= pi <= m <= qi <= |s|
    reads s, out
  {
    && Distinct(s) && Linked(out, list, tail)
    && (forall i :: 0 <= i < |out| ==> out[i] in s)
    && Fresh(out, s, pi, m) && Fresh(out, s, qi, |s|)
    && Intact(s, pi, m) && Intact(s, qi, |s|)
  }

  /** Move the first node of one of the two runs to the end of the output. */
  method Take(e: Node, list: Node?, tail: Node?, ghost s: seq<Node>, ghost out: seq<Node>,
              ghost pi: int, ghost m: int, ghost qi: int, ghost fromP: bool) returns (list': Node?)
    requires 0 <= pi <= m <= qi <= |s|
    requires if fromP then pi < m && e == s[pi] else qi < |s| && e == s[qi]
    requires Merging(s, out, pi, m, qi, list, tail)
    modifies s
    ensures if fromP then Merging(s, out + [e], pi + 1, m, qi, list', e) else Merging(s, out + [e], pi, m, qi + 1, list', e)
  {
    list' := Append(e, list, tail, out);
    ghost var out', pi', qi' := out + [e], if fromP then pi + 1 else pi, if fromP then qi else qi + 1;
    assert Fresh(out', s, pi', m) && Fresh(out', s, qi', |s|);
    assert Intact(s, pi', m) && Intact(s, qi', |s|) by {
      forall j | pi' <= j < m || qi' <= j < |s| ensures s[j].next == Succ(s, j) {
        assert s[j] != e;
      }
    }
  }

  /** The two read positions of a merge and the nodes left in either run. */
  datatype Cursor = Cursor(p: Node?, q: Node?, psize: nat, qsize: nat)

  /** The cursor stands for the positions pi and qi; the second run ends at e. */
  ghost predicate At(c: Cursor, s: seq<Node>, pi: int, m: int, qi: int, e: int) {
    && 0 <= pi <= m <= qi <= e <= |s|
    && c.psize == m - pi && (c.psize > 0 ==> c.p == s[pi])
    && c.q == (if qi < |s| then s[qi] else null)
    && e == qi + Min(c.qsize, |s| - qi)
  }

  /** One round of the merge loop: choose a run, step over its first node and append it. */
  method MergeStep(cmp: Compare, c: Cursor, oldhead: Node, list: Node?, tail: Node?, ghost s: seq<Node>, ghost out: seq<Node>,
                   ghost pi: int, ghost m: int, ghost qi: int, ghost e: int)
    returns (c': Cursor, list': Node?, node: Node, ghost pi': int, ghost qi': int)
    requires At(c, s, pi, m, qi, e) && 0 < |s| && s[0] == oldhead
    requires c.psize > 0 || (c.qsize > 0 && c.q != null)
    requires Merging(s, out, pi, m, qi, list, tail)
    modifies s
    ensures At(c', s, pi', m, qi', e) && (m - pi') + (e - qi') < (m - pi) + (e - qi)
    ensures Merging(s, out + [node], pi', m, qi', list', node)
    ensures Merge(cmp, s[pi..m], s[qi..e]) == [node] + Merge(cmp, s[pi'..m], s[qi'..e])
  {
    hide Merge, Merging, Distinct, Intact;
    MergingFacts(s, out, pi, m, qi, list, tail);
    var fromP := if c.psize == 0 then false
                 else if c.qsize == 0 || c.q == null then true
                 else cmp(c.p.key, c.q.key) <= 0;
    if fromP {
      MergeTakesP(cmp, s, pi, m, qi, e);
      node := c.p;
      var p := Advance(node, oldhead, s, pi);
      c' := c.(p := p, psize := c.psize - 1);
      pi', qi' := pi + 1, qi;
    } else {
      MergeTakesQ(cmp, s, pi, m, qi, e);
      node := c.q;
      var q := Advance(node, oldhead, s, qi);
      c' := c.(q := q, qsize := c.qsize - 1);
      pi', qi' := pi, qi + 1;
    }
    list' := Take(node, list, tail, s, out, pi, m, qi, fromP);
  }

  /** With `out` done, what is left to append is the merge of the rests of the two runs. */
  ghost predicate MergeAt(cmp: Compare, s: seq<Node>, out: seq<Node>, pi: int, m: int, qi: int, e: int, goal: seq<Node>) {
    0 <= pi <= m <= qi <= e <= |s| && out + Merge(cmp, s[pi..m], s[qi..e]) == goal
  }

  lemma MergeAtStep(cmp: Compare, s: seq<Node>, out: seq<Node>, pi: int, m: int, qi: int, e: int, goal: seq<Node>,
                    node: Node, pi': int, qi': int)
    requires MergeAt(cmp, s, out, pi, m, qi, e, goal) && 0 <= pi' <= m <= qi' <= e
    requires Merge(cmp, s[pi..m], s[qi..e]) == [node] + Merge(cmp, s[pi'..m], s[qi'..e])
    ensures MergeAt(cmp, s, out + [node], pi', m, qi', e, goal)
  {
    AppendAssociates(out, node, Merge(cmp, s[pi'..m], s[qi'..e]));
  }

  lemma MergeAtStart(cmp: Compare, s: seq<Node>, out: seq<Node>, b: int, m: int, e: int)
    requires 0 <= b <= m <= e <= |s|
    ensures MergeAt(cmp, s, out, b, m, m, e, out + Merge(cmp, s[b..m], s[m..e]))
  {}

  lemma MergeAtEnd(cmp: Compare, s: seq<Node>, out: seq<Node>, m: int, e: int, goal: seq<Node>)
    requires MergeAt(cmp, s, out, m, m, e, e, goal)
    ensures out == goal
  {
    MergeNothing(cmp, out);
  }

  /** Merge the run of at most insize nodes that starts at p with the one behind it. */
  method MergeRuns(cmp: Compare, p0: Node, oldhead: Node, insize: nat, list0: Node?, tail0: Node?,
                   ghost s: seq<Node>, ghost b: nat, ghost out0: seq<Node>)
    returns (p: Node?, list: Node?, tail: Node?, ghost out: seq<Node>)
    requires insize >= 1 && b < |s| && s[b] == p0 && s[0] == oldhead
    requires Merging(s, out0, b, b, b, list0, tail0)
    modifies s
    ensures var m, e := b + Min(insize, |s| - b), b + Min(2 * insize, |s| - b);
            && out == out0 + Merge(cmp, s[b..m], s[m..e])
            && Merging(s, out, e, e, e, list, tail)
            && p == if e < |s| then s[e] else null
  {
    hide Merge, MergeAt, Merging, Distinct, Intact;
    list, tail, out := list0, tail0, out0;
    MergingFacts(s, out, b, b, b, list, tail);
    var q, psize := SkipRun(p0, oldhead, insize, s, b);
    ghost var m, e := b + psize, b + Min(2 * insize, |s| - b);
    ghost var pi, qi, goal := b, m, out0 + Merge(cmp, s[b..m], s[m..e]);
    MergingSplit(s, out, b, m, list, tail);
    MergeAtStart(cmp, s, out, b, m, e);
    var c := Cursor(p0, q, psize, insize);
    while c.psize > 0 || (c.qsize > 0 && c.q != null)
      invariant At(c, s, pi, m, qi, e)
      invariant Merging(s, out, pi, m, qi, list, tail)
      invariant MergeAt(cmp, s, out, pi, m, qi, e, goal)
      decreases (m - pi) + (e - qi)
    {
      var node;
      ghost var pi', qi';
      c, list, node, pi', qi' := MergeStep(cmp, c, oldhead, list, tail, s, out, pi, m, qi, e);
      MergeAtStep(cmp, s, out, pi, m, qi, e, goal, node, pi', qi');
      pi, qi, tail, out := pi', qi', node, out + [node];
    }
    MergeAtEnd(cmp, s, out, m, e, goal);
    MergingJoin(s, out, m, e, list, tail);
    p := c.q;
  }

  lemma AppendAssociates(out: seq<Node>, node: Node, rest: seq<Node>)
    ensures out + ([node] + rest) == out + [node] + rest
  {}

  lemma MergingFacts(s: seq<Node>, out: seq<Node>, pi: int, m: int, qi: int, list: Node?, tail: Node?)
    requires 0 <= pi <= m <= qi <= |s| && Merging(s, out, pi, m, qi, list, tail)
    ensures Distinct(s) && Intact(s, qi, |s|)
    ensures pi < m ==> s[pi].next == Succ(s, pi)
    ensures qi < |s| ==> s[qi].next == Succ(s, qi)
  {}

  /** Before a merge the rest of the ring is cut in two, after it in one again. */
  lemma MergingSplit(s: seq<Node>, out: seq<Node>, b: int, m: int, list: Node?, tail: Node?)
    requires 0 <= b <= m <= |s| && Merging(s, out, b, b, b, list, tail)
    ensures Merging(s, out, b, m, m, list, tail)
  {}

  lemma MergingJoin(s: seq<Node>, out: seq<Node>, m: int, e: int, list: Node?, tail: Node?)
    requires 0 <= m <= e <= |s| && Merging(s, out, m, m, e, list, tail)
    ensures Merging(s, out, e, e, e, list, tail)
  {}

  lemma MergeNothing(cmp: Compare, out: seq<Node>)
    ensures out + Merge(cmp, [], []) == out
  {}

  lemma MergeTakesP(cmp: Compare, s: seq<Node>, pi: int, m: int, qi: int, e: int)
    requires 0 <= pi < m <= qi <= e <= |s|
    requires qi == e || cmp(s[pi].key, s[qi].key) <= 0
    ensures Merge(cmp, s[pi..m], s[qi..e]) == [s[pi]] + Merge(cmp, s[pi + 1..m], s[qi..e])
  {
    assert s[pi..m][1..] == s[pi + 1..m];
    assert s[pi..m] == [s[pi]] + s[pi + 1..m];
  }

  lemma MergeTakesQ(cmp: Compare, s: seq<Node>, pi: int, m: int, qi: int, e: int)
    requires 0 <= pi <= m <= qi < e <= |s|
    requires pi == m || cmp(s[pi].key, s[qi].key) > 0
    ensures Merge(cmp, s[pi..m], s[qi..e]) == [s[qi]] + Merge(cmp, s[pi..m], s[qi + 1..e])
  {
    assert s[qi..e][1..] == s[qi + 1..e];
    assert s[qi..e] == [s[qi]] + s[qi + 1..e];
  }

  // ------------------------------------------------------------------ passes and sort

  lemma SliceOfSuffix(s: seq<Node>, b: nat, m: nat, e: nat)
    requires b <= m <= e <= |s|
    ensures s[b..][..m - b] == s[b..m] && s[b..][m - b..e - b] == s[m..e] && s[b..][e - b..] == s[e..]
  {}

  /** One merge of a pass, at position b. */
  lemma PassStep(cmp: Compare, s: seq<Node>, b: nat, k: nat, out: seq<Node>)
    requires k >= 1 && b < |s|
    ensures var m, e := b + Min(k, |s| - b), b + Min(2 * k, |s| - b);
            out + Pass(cmp, s[b..], k) == out + Merge(cmp, s[b..m], s[m..e]) + Pass(cmp, s[e..], k)
  {
    hide Merge, Pass;
    var m, e := b + Min(k, |s| - b), b + Min(2 * k, |s| - b);
    PassUnfold(cmp, s[b..], k);
    SliceOfSuffix(s, b, m, e);
  }

  /** Close the list into a ring: `tail->next = list; list->prev = tail`. */
  method Close(list: Node, tail: Node, ghost out: seq<Node>)
    requires out != [] && Linked(out, list, tail)
    modifies list, tail
    ensures Ring(out)
  {
    tail.next := list;
    list.prev := tail;
  }

  /** With `out` done, what is left of a pass is the pass over the rest. */
  ghost predicate PassAt(cmp: Compare, s: seq<Node>, b: int, k: nat, out: seq<Node>)
    requires k >= 1
  {
    0 <= b <= |s| && out + Pass(cmp, s[b..], k) == Pass(cmp, s, k)
  }

  lemma PassAtStart(cmp: Compare, s: seq<Node>, k: nat)
    requires k >= 1
    ensures PassAt(cmp, s, 0, k, [])
  {
    assert s[0..] == s;
  }

  lemma PassAtStep(cmp: Compare, s: seq<Node>, b: nat, k: nat, out: seq<Node>)
    requires k >= 1 && b < |s| && PassAt(cmp, s, b, k, out)
    ensures var m, e := b + Min(k, |s| - b), b + Min(2 * k, |s| - b);
            PassAt(cmp, s, e, k, out + Merge(cmp, s[b..m], s[m..e]))
  {
    hide Merge, Pass;
    PassStep(cmp, s, b, k, out);
  }

  lemma PassAtEnd(cmp: Compare, s: seq<Node>, k: nat, out: seq<Node>)
    requires k >= 1 && PassAt(cmp, s, |s|, k, out)
    ensures out == Pass(cmp, s, k)
  {
    PassOfNothing(cmp, s, k, out);
  }

  /** One pass over the ring s with runs of insize nodes. */
  method MergePass(cmp: Compare, oldhead: Node, insize: nat, ghost s: seq<Node>)
    returns (list: Node, nmerges: nat, ghost out: seq<Node>)
    requires insize >= 1 && s != [] && s[0] == oldhead && Ring(s)
    modifies s
    ensures out == Pass(cmp, s, insize) && Ring(out) && list == out[0]
    ensures forall i :: 0 <= i < |out| ==> out[i] in s
    ensures nmerges <= 1 <==> |s| <= 2 * insize
  {
    hide Merge, Pass, PassAt, Merging, Linked, Intact, Ring, Distinct;
    var p: Node?, first: Node?, tail: Node? := oldhead, null, null;
    nmerges, out := 0, [];
    ghost var b := 0;
    MergingStart(s);
    PassAtStart(cmp, s, insize);
    while p != null
      invariant b <= |s| && p == if b < |s| then s[b] else null
      invariant Merging(s, out, b, b, b, first, tail)
      invariant PassAt(cmp, s, b, insize, out)
      invariant (nmerges == 0 <==> b == 0) && (nmerges <= 1 <==> b <= 2 * insize)
      invariant nmerges >= 1 ==> b >= Min(2 * insize, |s|)
      decreases |s| - b
    {
      PassAtStep(cmp, s, b, insize, out);
      nmerges := nmerges + 1;
      p, first, tail, out := MergeRuns(cmp, p, oldhead, insize, first, tail, s, b, out);
      b := b + Min(2 * insize, |s| - b);
    }
    PassAtEnd(cmp, s, insize, out);
    MergingEnd(s, out, first, tail);
    list := first;
    Close(list, tail, out);
  }

  lemma MergingStart(s: seq<Node>)
    requires s != [] && Ring(s)
    ensures Merging(s, [], 0, 0, 0, null, null)
  {}

  lemma MergingEnd(s: seq<Node>, out: seq<Node>, list: Node?, tail: Node?)
    requires Merging(s, out, |s|, |s|, |s|, list, tail)
    ensures Linked(out, list, tail) && forall i :: 0 <= i < |out| ==> out[i] in s
    ensures out != [] ==> list != null && tail != null && list == out[0] && tail in out
  {}

  lemma PassOfNothing(cmp: Compare, s: seq<Node>, k: nat, out: seq<Node>)
    requires k >= 1
    ensures out + Pass(cmp, s[|s|..], k) == out
  {}

  /** Unlink the head: what is left is a ring, and the head is an empty one. */
  method RemoveHead(head: Node, ghost ns: seq<Node>)
    requires Ring([head] + ns) && ns != []
    modifies head, ns
    ensures Ring(ns) && Ring([head])
  {
    forall i, j | 0 <= i < j < |ns| ensures ns[i] != ns[j] && ns[i] != head {
      assert ([head] + ns)[i + 1] == ns[i] && ([head] + ns)[j + 1] == ns[j] && ([head] + ns)[0] == head;
    }
    assert ([head] + ns)[1] == ns[0];
    assert ([head] + ns)[|ns|] == ns[|ns| - 1];
    forall j | 0 <= j < |ns| - 1
      ensures ns[j].next == ns[j + 1] && ns[j + 1].prev == ns[j]
    {
      assert ([head] + ns)[j + 1] == ns[j] && ([head] + ns)[j + 2] == ns[j + 1];
    }
    assert Succ([head] + ns, 0) == ns[0] && Succ([head] + ns, |ns|) == head;
    head.next.prev := head.prev;
    head.prev.next := head.next;
    head.next := head;
    head.prev := head;
  }

  /** Link the head in again, in front of `list`. */
  method InsertHead(head: Node, list: Node, ghost ns: seq<Node>)
    requires ns != [] && list == ns[0] && Ring(ns) && head !in ns
    modifies head, ns
    ensures Ring([head] + ns)
  {
    assert Succ(ns, |ns| - 1) == list;
    head.next := list;
    head.prev := list.prev;
    list.prev.next := head;
    list.prev := head;
    ghost var r := [head] + ns;
    forall j | 0 <= j < |r| ensures r[j].next == Succ(r, j) && Succ(r, j).prev == r[j] {
      if 0 < j < |ns| {
        assert r[j] == ns[j - 1] && Succ(r, j) == ns[j];
      }
    }
  }

  lemma RingHead(head: Node, ns: seq<Node>)
    requires Ring([head] + ns)
    ensures head !in ns
    ensures head.next == if ns == [] then head else ns[0]
  {
    var r := [head] + ns;
    assert r[0] == head && Succ(r, 0) == if ns == [] then head else ns[0];
    forall i | 0 <= i < |ns| ensures ns[i] != head {
      assert r[i + 1] == ns[i];
    }
  }

  /** The passes over the ring without its head, until one needs a single merge. */
  method SortRing(first: Node, cmp: Compare, ghost ns: seq<Node>) returns (list: Node, ghost sorted: seq<Node>)
    requires ns != [] && first == ns[0] && Ring(ns)
    modifies ns
    ensures sorted == SortFrom(cmp, ns, 1) && Ring(sorted) && list == sorted[0]
    ensures forall i :: 0 <= i < |sorted| ==> sorted[i] in ns
  {
    hide SortFrom, Ring, Pass;
    list, sorted := first, ns;
    var insize, nmerges := 1, 2;
    while nmerges > 1
      invariant insize >= 1 && sorted != [] && list == sorted[0] && Ring(sorted)
      invariant forall i :: 0 <= i < |sorted| ==> sorted[i] in ns
      invariant if nmerges > 1 then SortFrom(cmp, sorted, insize) == SortFrom(cmp, ns, 1) else sorted == SortFrom(cmp, ns, 1)
      decreases nmerges > 1, |sorted| - insize
    {
      SortFromStep(cmp, sorted, insize);
      list, nmerges, sorted := MergePass(cmp, list, insize, sorted);
      if nmerges > 1 {
        insize := insize * 2;
      }
    }
  }

  /** The in-place sort: the same nodes, stably sorted, in a well-formed ring again. */
  method Sort(head: Node, cmp: Compare, ghost ns: seq<Node>) returns (ghost sorted: seq<Node>)
    requires Ring([head] + ns)
    modifies head, ns
    ensures sorted == SortFrom(cmp, ns, 1) && Ring([head] + sorted)
  {
    hide Ring;
    RingHead(head, ns);
    if head.next == head {
      sorted := ns;
      return;
    }
    var list := head.next;
    RemoveHead(head, ns);
    list, sorted := SortRing(list, cmp, ns);
    InsertHead(head, list, sorted);
  }

  lemma SortFromStep(cmp: Compare, s: seq<Node>, k: nat)
    requires k >= 1
    ensures SortFrom(cmp, s, k) == if |s| <= 2 * k then Pass(cmp, s, k) else SortFrom(cmp, Pass(cmp, s, k), 2 * k)
  {}

  /** What the sort computes, for a comparison that is a total preorder. */
  lemma SortIsStableSort(cmp: Compare, ns: seq<Node>)
    requires Preorder(cmp)
    ensures Sorted(cmp, SortFrom(cmp, ns, 1))
    ensures multiset(SortFrom(cmp, ns, 1)) == multiset(ns)
    ensures forall v :: Equals(cmp, SortFrom(cmp, ns, 1), v) == Equals(cmp, ns, v)
  {
    SingletonsSorted(cmp, ns);
    SortSorts(cmp, ns, 1);
    SortPermutes(cmp, ns, 1);
    forall v ensures Equals(cmp, SortFrom(cmp, ns, 1), v) == Equals(cmp, ns, v) {
      SortStable(cmp, ns, 1, v);
    }
  }
}
