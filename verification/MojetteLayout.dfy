/**
  The layouts: which angles a layout uses, how many bins it keeps of each
  projection, and why that is enough for every choice of surviving projections.
 */
module MojetteLayout {
  import opened MojetteGeometry
  import opened MojetteProjection
  import opened Mojette128

  // ------------------------------------------------------------- effective sizes

  /** The angles of a layout that lie farther from 0 than p on the same side. */
  ghost function FartherAngles(angles: seq<int>, p: int): set<int> {
    set a | a in angles && (if p < 0 then a < p else a > p)
  }

  /** Bins to keep of the projection of angle p. */
  ghost function EffectiveSize(angles: seq<int>, cols: int, p: int): int {
    cols + Times(|FartherAngles(angles, p)|, Abs(p))
  }

  /** j - i different slopes of a set: the set has at least that many elements. */
  lemma {:induction false} DistinctSlopesCount(ps: seq<int>, i: int, j: int, s: set<int>)
    requires Descending(ps) && 0 <= i <= j <= |ps| && forall x :: i <= x < j ==> ps[x] in s
    ensures j - i <= |s|
    decreases j - i
  {
    if i < j {
      DistinctSlopesCount(ps, i, j - 1, s - {ps[j - 1]});
    }
  }

  lemma TimesMonotone(n: int, m: int, p: int)
    requires 0 <= n <= m && 0 <= p
    ensures Times(n, p) <= Times(m, p)
  {
    TimesIsProduct(n, p);
    TimesIsProduct(m, p);
    MulMonotone(n, m, p);
  }

  /** Whatever angles of the layout are selected, no bin past the effective size is ever read. */
  lemma EffectiveSizeSuffices(angles: seq<int>, ps: seq<int>, cols: int, i: int)
    requires Descending(ps) && 0 <= i < |ps| && forall j :: 0 <= j < |ps| ==> ps[j] in angles
    ensures ReadBound(|ps|, cols, ps[i], i) <= EffectiveSize(angles, cols, ps[i])
  {
    var p, rows := ps[i], |ps|;
    RowShift(rows, p, i);
    if p < 0 {
      DistinctSlopesCount(ps, i + 1, rows, FartherAngles(angles, p));
      TimesMonotone(rows - 1 - i, |FartherAngles(angles, p)|, Abs(p));
    } else {
      DistinctSlopesCount(ps, 0, i, FartherAngles(angles, p));
      TimesMonotone(i, |FartherAngles(angles, p)|, Abs(p));
    }
  }

  // ------------------------------------------------------- layouts of consecutive angles

  /** Angle i of a layout with `forward` projections. */
  function AngleAt(forward: nat, i: int): int {
    i - forward / 2
  }

  function Angles(forward: nat): (r: seq<int>)
    ensures |r| == forward && forall i :: 0 <= i < forward ==> r[i] == AngleAt(forward, i)
  {
    seq(forward, i => AngleAt(forward, i))
  }

  /** Bins kept on top of the columns: there are i angles below angle i and forward - 1 - i above. */
  function ExtraBins(forward: nat, i: int): int {
    var p := AngleAt(forward, i);
    Times(if p < 0 then i else forward - 1 - i, Abs(p))
  }

  /** The closed form of the effective size. */
  function KeptBins(forward: nat, cols: int, i: int): int {
    cols + ExtraBins(forward, i)
  }

  /** The closed form for the angles from angle i on. */
  function KeptRow(forward: nat, cols: int, i: nat): (r: seq<int>)
    requires i <= forward
    ensures |r| == forward - i && forall j :: 0 <= j < |r| ==> r[j] == KeptBins(forward, cols, i + j)
    decreases forward - i
  {
    if i == forward then [] else [KeptBins(forward, cols, i)] + KeptRow(forward, cols, i + 1)
  }

  ghost function Range(lo: int, hi: int): set<int>
    decreases hi - lo
  {
    if lo >= hi then {} else Range(lo, hi - 1) + {hi - 1}
  }

  lemma {:induction false} RangeElements(lo: int, hi: int)
    requires lo <= hi
    ensures forall a :: a in Range(lo, hi) <==> lo <= a < hi
    ensures |Range(lo, hi)| == hi - lo
    decreases hi - lo
  {
    if lo < hi {
      RangeElements(lo, hi - 1);
    }
  }

  lemma FartherAnglesCount(forward: nat, i: int)
    requires 0 <= i < forward
    ensures |FartherAngles(Angles(forward), AngleAt(forward, i))| == if AngleAt(forward, i) < 0 then i else forward - 1 - i
  {
    var half, p := forward / 2, AngleAt(forward, i);
    var lo, hi := if p < 0 then -half else p + 1, if p < 0 then p else forward - half;
    RangeElements(lo, hi);
    forall a | lo <= a < hi ensures a in Angles(forward) {
      assert Angles(forward)[a + half] == a;
    }
    assert FartherAngles(Angles(forward), p) == Range(lo, hi);
  }

  lemma KeptBinsIsEffectiveSize(forward: nat, cols: int, i: int)
    requires 0 <= i < forward
    ensures KeptBins(forward, cols, i) == EffectiveSize(Angles(forward), cols, AngleAt(forward, i))
  {
    FartherAnglesCount(forward, i);
  }

  /** The `rows` angles from `top` downwards. */
  function Window(top: int, rows: nat): (r: seq<int>)
    ensures |r| == rows && forall j :: 0 <= j < rows ==> r[j] == top - j
  {
    seq(rows, j => top - j)
  }

  /** No smaller size would do: some selection reads the very last kept bin of every projection. */
  lemma KeptBinsAreNeeded(forward: nat, rows: nat, cols: int, i: int) returns (ps: seq<int>, j: int)
    requires 0 <= i < forward && forward / 2 < rows <= forward
    ensures Descending(ps) && |ps| == rows && forall x :: 0 <= x < rows ==> ps[x] in Angles(forward)
    ensures 0 <= j < rows && ps[j] == AngleAt(forward, i)
    ensures ReadBound(rows, cols, ps[j], j) == KeptBins(forward, cols, i)
  {
    var p := AngleAt(forward, i);
    if p < 0 {
      ps, j := Window(AngleAt(forward, rows - 1), rows), rows - 1 - i;
    } else {
      ps, j := Window(AngleAt(forward, forward - 1), rows), forward - 1 - i;
    }
    RowShift(rows, p, j);
    forall x | 0 <= x < rows ensures ps[x] in Angles(forward) {
      assert Angles(forward)[ps[x] + forward / 2] == ps[x];
    }
  }

  // ------------------------------------------------------------ width of the image

  /** 1 + 2 + ... + n. */
  function Triangle(n: int): int {
    if n <= 0 then 0 else Triangle(n - 1) + n
  }

  lemma {:induction false} TriangleMonotone(n: int, m: int)
    requires n <= m
    ensures 0 <= Triangle(n) <= Triangle(m)
    decreases m
  {
    if m > 0 {
      if n < m {
        TriangleMonotone(n, m - 1);
      } else {
        TriangleMonotone(n - 1, m - 1);
      }
    }
  }

  lemma TriangleNonNegative(n: int)
    ensures Triangle(n) >= 0
  {}

  lemma {:induction false} NegSumBound(ps: seq<int>, i: int, j: int)
    requires Descending(ps) && 0 <= i < j <= |ps|
    ensures NegSum(ps, i, j) <= Triangle(-ps[j - 1])
    decreases j - i
  {
    TriangleNonNegative(-ps[j - 1]);
    TriangleNonNegative(-ps[j - 1] - 1);
    if i < j - 1 {
      NegSumBound(ps, i, j - 1);
      TriangleMonotone(-ps[j - 2], -ps[j - 1] - 1);
    }
  }

  lemma {:induction false} PosSumBound(ps: seq<int>, i: int, j: int)
    requires Descending(ps) && 0 <= i < j <= |ps|
    ensures PosSum(ps, i, j) + Triangle(ps[j - 1] - 1) <= Triangle(ps[i])
    decreases j - i
  {
    if i < j - 1 {
      PosSumBound(ps, i, j - 1);
      TriangleMonotone(ps[j - 1], ps[j - 2] - 1);
    }
  }

  lemma {:induction false} StartPrefix(ps: seq<int>, i: int)
    requires 0 <= i < |ps|
    ensures Start(ps, i) + PosSum(ps, 1, i + 1) - NegSum(ps, 1, i + 1) ==
            BaseStart(ps) + PosSum(ps, 1, |ps|) - NegSum(ps, 1, |ps|)
    decreases |ps| - i
  {
    if i < |ps| - 1 {
      StartPrefix(ps, i + 1);
    }
  }

  /** The largest start column in terms of the slopes after the first one. */
  lemma MaxStartValue(ps: seq<int>)
    requires 2 <= |ps|
    ensures var neg, pos := NegSum(ps, 1, |ps|), PosSum(ps, 1, |ps|);
            MaxStart(ps) == Max(Max(neg, pos), 2 * pos - neg)
  {
    StartPrefix(ps, 0);
    StartPrefix(ps, |ps| - 1);
    NegSumNonNegative(ps, 1, |ps|);
  }

  /** Selections of the angles lo..hi never need more than this many columns. */
  lemma MaxStartBound(ps: seq<int>, lo: int, hi: int)
    requires Descending(ps) && 2 <= |ps| && forall i :: 0 <= i < |ps| ==> lo <= ps[i] <= hi
    ensures MaxStart(ps) <= Max(Triangle(-lo), 2 * Triangle(hi - 1))
  {
    MaxStartValue(ps);
    NegSumNonNegative(ps, 1, |ps|);
    NegSumBound(ps, 1, |ps|);
    PosSumBound(ps, 1, |ps|);
    TriangleMonotone(-ps[|ps| - 1], -lo);
    assert ps[0] > ps[1];
    TriangleMonotone(ps[1], hi - 1);
    TriangleNonNegative(ps[|ps| - 1] - 1);
  }
}
