/**
  Geometry of the Mojette transform: which bin a pixel falls into, at which
  column the inverse transform starts on each row, and in which order it visits
  the pixels.  Nothing in this module depends on the contents of the words.

  A pixel is a pair (l, c) of a row and a column.  A projection of angle (p, 1)
  gathers in one bin all the pixels with the same value of c + l * p; there is
  at most one such pixel per row.
 */
module MojetteGeometry {

  function Max(a: int, b: int): int {
    if a > b then a else b
  }

  function Abs(a: int): int {
    if a < 0 then -a else a
  }

  /**
    The product n * p, as a repeated addition.  Positions of pixels and bins are
    written with it; TimesIsProduct links it to the products that the code computes.
   */
  function Times(n: int, p: int): int
    decreases Abs(n)
  {
    if n == 0 then 0 else if n > 0 then Times(n - 1, p) + p else Times(n + 1, p) - p
  }

  lemma {:induction false} TimesIsProduct(n: int, p: int)
    ensures Times(n, p) == n * p
    decreases Abs(n)
  {
    if n > 0 {
      TimesIsProduct(n - 1, p);
      assert n * p == (n - 1) * p + p;
    } else if n < 0 {
      TimesIsProduct(n + 1, p);
      assert n * p == (n + 1) * p - p;
    }
  }

  lemma {:induction false} TimesSubtract(n: int, m: int, p: int)
    requires 0 <= m <= n
    ensures Times(n - m, p) == Times(n, p) - Times(m, p)
    decreases n
  {
    if m < n {
      TimesSubtract(n - 1, m, p);
    }
  }

  /** Strictly decreasing slopes, the order left by the sort of the inverse transform. */
  ghost predicate Descending(ps: seq<int>) {
    forall i, j :: 0 <= i < j < |ps| ==> ps[i] > ps[j]
  }

  predicate InImage(rows: int, cols: int, l: int, c: int) {
    0 <= l < rows && 0 <= c < cols
  }

  /** Position of pixel (l, c) in the row-major support buffer. */
  function Flat(cols: int, l: int, c: int): int {
    Times(l, cols) + c
  }

  lemma FlatInRange(rows: int, cols: int, l: int, c: int)
    requires InImage(rows, cols, l, c)
    ensures 0 <= Flat(cols, l, c) < rows * cols
  {
    TimesIsProduct(l, cols);
    MulMonotone(0, l, cols);
    MulMonotone(l + 1, rows, cols);
  }

  lemma FlatInjective(cols: int, l: int, c: int, l': int, c': int)
    requires 0 <= c < cols && 0 <= c' < cols && 0 <= l && 0 <= l'
    requires Flat(cols, l, c) == Flat(cols, l', c')
    ensures l == l' && c == c'
  {
    if l < l' {
      FlatNextRow(cols, l, l');
    } else if l' < l {
      FlatNextRow(cols, l', l);
    }
  }

  lemma FlatNextRow(cols: int, l: int, l': int)
    requires 0 <= l < l' && 0 <= cols
    ensures Times(l, cols) + cols <= Times(l', cols)
  {
    TimesIsProduct(l + 1, cols);
    TimesIsProduct(l', cols);
    MulMonotone(l + 1, l', cols);
  }

  // ---------------------------------------------------------------- bins

  /** Smallest value of c + l * p over the image: index 0 of the bins. */
  function Offset(rows: int, p: int): int {
    if p < 0 then Times(rows - 1, p) else 0
  }

  function Bin(rows: int, p: int, l: int, c: int): int {
    c + Times(l, p) - Offset(rows, p)
  }

  /** Number of bins of an untruncated projection. */
  function LineCount(rows: int, cols: int, p: int): int {
    cols + Times(rows - 1, Abs(p))
  }

  /** How far row l is shifted inside the projection of angle p. */
  lemma RowShift(rows: int, p: int, l: int)
    requires 0 <= l < rows
    ensures Times(l, p) - Offset(rows, p) == if p < 0 then Times(rows - 1 - l, Abs(p)) else Times(l, Abs(p))
    ensures 0 <= Times(l, p) - Offset(rows, p) <= Times(rows - 1, Abs(p))
  {
    TimesIsProduct(l, p);
    TimesIsProduct(rows - 1, p);
    TimesIsProduct(rows - 1, Abs(p));
    if p < 0 {
      TimesIsProduct(rows - 1 - l, -p);
      assert l * p - (rows - 1) * p == (rows - 1 - l) * -p;
      MulMonotone(0, rows - 1 - l, -p);
      MulMonotone(rows - 1 - l, rows - 1, -p);
    } else {
      MulMonotone(0, l, p);
      MulMonotone(l, rows - 1, p);
    }
  }

  lemma MulMonotone(a: int, b: int, p: int)
    requires a <= b && 0 <= p
    ensures a * p <= b * p
  {
    assert 0 <= (b - a) * p;
    assert b * p == a * p + (b - a) * p;
  }

  lemma BinInRange(rows: int, cols: int, p: int, l: int, c: int)
    requires InImage(rows, cols, l, c)
    ensures 0 <= Bin(rows, p, l, c) < LineCount(rows, cols, p)
  {
    RowShift(rows, p, l);
  }

  // ------------------------------------------------- start columns (k_offsets)

  /** Sum of max(0, -ps[x]) for i <= x < j. */
  function NegSum(ps: seq<int>, i: int, j: int): int
    requires 0 <= i && j <= |ps|
    decreases j - i
  {
    if i >= j then 0 else NegSum(ps, i, j - 1) + Max(0, -ps[j - 1])
  }

  /** Sum of max(0, ps[x]) for i <= x < j. */
  function PosSum(ps: seq<int>, i: int, j: int): int
    requires 0 <= i && j <= |ps|
    decreases j - i
  {
    if i >= j then 0 else PosSum(ps, i, j - 1) + Max(0, ps[j - 1])
  }

  /** Start column of the last row, the rendez-vous row of the source. */
  function BaseStart(ps: seq<int>): int
    requires 1 <= |ps|
  {
    var n := |ps|;
    Max(Max(0, -ps[n - 1]) + NegSum(ps, 1, n - 1), Max(0, ps[n - 1]) + PosSum(ps, 1, n - 1))
  }

  function Start(ps: seq<int>, i: int): int
    requires 0 <= i < |ps|
    decreases |ps| - i
  {
    if i == |ps| - 1 then BaseStart(ps) else Start(ps, i + 1) + ps[i + 1]
  }

  /** The largest start column as the source computes it: from the two ends only. */
  function MaxStart(ps: seq<int>): int
    requires 1 <= |ps|
  {
    Max(Start(ps, 0), Start(ps, |ps| - 1))
  }

  lemma NegSumNonNegative(ps: seq<int>, i: int, j: int)
    requires 0 <= i && j <= |ps|
    ensures NegSum(ps, i, j) >= 0
    decreases j - i
  {
    if i < j {
      NegSumNonNegative(ps, i, j - 1);
    }
  }

  lemma {:induction false} StartNonNegative(ps: seq<int>, i: int)
    requires 0 <= i < |ps|
    ensures Start(ps, i) >= NegSum(ps, 1, i + 1) >= 0
    decreases |ps| - i
  {
    NegSumNonNegative(ps, 1, i + 1);
    if i < |ps| - 1 {
      StartNonNegative(ps, i + 1);
    }
  }

  lemma {:induction false} StartGrowsToFirst(ps: seq<int>, i: int)
    requires Descending(ps) && 0 <= i < |ps|
    requires i > 0 ==> ps[i] >= 0
    ensures Start(ps, i) <= Start(ps, 0)
  {
    if i > 0 {
      StartGrowsToFirst(ps, i - 1);
    }
  }

  lemma {:induction false} StartGrowsToLast(ps: seq<int>, i: int)
    requires Descending(ps) && 0 <= i < |ps|
    requires ps[i] < 0
    ensures Start(ps, i) <= Start(ps, |ps| - 1)
    decreases |ps| - i
  {
    if i < |ps| - 1 {
      StartGrowsToLast(ps, i + 1);
    }
  }

  /** Start columns are convex in the row, so the two ends bound them all. */
  lemma StartBounded(ps: seq<int>, i: int)
    requires Descending(ps) && 0 <= i < |ps|
    ensures 0 <= Start(ps, i) <= MaxStart(ps)
  {
    StartNonNegative(ps, i);
    if i == 0 || ps[i] >= 0 {
      StartGrowsToFirst(ps, i);
    } else {
      StartGrowsToLast(ps, i);
    }
  }

  lemma {:induction false} StartGapAtLeast(ps: seq<int>, i: int, j: int)
    requires Descending(ps) && 0 <= i <= j < |ps|
    ensures Start(ps, i) - Start(ps, j) >= Times(j - i, ps[j])
    decreases j - i
  {
    if i < j {
      StartGapAtLeast(ps, i + 1, j);
      assert ps[i + 1] >= ps[j];
    }
  }

  lemma {:induction false} StartGapBelow(ps: seq<int>, i: int, j: int)
    requires Descending(ps) && 0 <= i < j < |ps|
    ensures Start(ps, i) - Start(ps, j) < Times(j - i, ps[i])
    decreases j - i
  {
    if i + 1 < j {
      StartGapBelow(ps, i, j - 1);
      assert ps[j] < ps[i];
    }
  }

  // ---------------------------------------------------------- visiting order

  /** Lexicographic order on (step, row), the order of the nested loops. */
  predicate Before(k': int, l': int, k: int, l: int) {
    k' < k || (k' == k && l' < l)
  }

  /** Pixel (l', c') is visited at step c' - Start(l'). */
  predicate Visited(ps: seq<int>, l': int, c': int, k: int, l: int)
    requires 0 <= l' < |ps|
  {
    Before(c' - Start(ps, l'), l', k, l)
  }

  /**
    The heart of the reconstruction: when the loops reach pixel (l, c), every
    other pixel on its line of projection l has already been rebuilt.
   */
  lemma LineAlreadyVisited(ps: seq<int>, l: int, c: int, l': int, c': int)
    requires Descending(ps)
    requires 0 <= l < |ps| && 0 <= l' < |ps| && l != l'
    requires c' + Times(l', ps[l]) == c + Times(l, ps[l])
    ensures Visited(ps, l', c', c - Start(ps, l), l)
  {
    var p := ps[l];
    if l' < l {
      StartGapAtLeast(ps, l', l);
      TimesSubtract(l, l', p);
    } else {
      StartGapBelow(ps, l, l');
      TimesSubtract(l', l, p);
    }
  }
}
