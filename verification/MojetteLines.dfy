/**
  Line sums: the XOR of the pixels of one line of a projection, restricted to a
  set of pending pixels.  The forward transform grows the pending set from the
  empty set to the whole image; the inverse transform shrinks it back.
 */
module MojetteLines {
  import opened MojetteGeometry

  /**
    A machine word, as the set of the positions of its 1 bits.  This covers the
    64-bit words of transform.c and the 128-bit words of mojette_transform128.c
    alike: XorFits says that no result is wider than its operands.
   */
  type Word = set<nat>

  const ZERO: Word := {}

  /** Bitwise exclusive or. */
  function Xor(a: Word, b: Word): Word {
    (a - b) + (b - a)
  }

  predicate Fits(w: Word, width: nat) {
    forall bit :: bit in w ==> bit < width
  }

  lemma XorFits(a: Word, b: Word, width: nat)
    requires Fits(a, width) && Fits(b, width)
    ensures Fits(Xor(a, b), width)
  {}

  type Grid = map<(int, int), Word>

  /** The row-major buffer s starts with the image img. */
  ghost predicate Holds(s: seq<Word>, img: Grid, rows: nat, cols: nat) {
    && (forall l, c :: (l, c) in img <==> InImage(rows, cols, l, c))
    && (forall l, c :: (l, c) in img ==> 0 <= Flat(cols, l, c) < |s| && s[Flat(cols, l, c)] == img[(l, c)])
  }

  /** The image held by a row-major buffer. */
  ghost function GridOf(s: seq<Word>, rows: nat, cols: nat): (g: Grid)
    requires rows * cols <= |s|
    ensures Holds(s, g, rows, cols)
  {
    forall l, c | InImage(rows, cols, l, c) ensures 0 <= Flat(cols, l, c) < rows * cols {
      FlatInRange(rows, cols, l, c);
    }
    map l, c | 0 <= l < rows && 0 <= c < cols :: (l, c) := s[Flat(cols, l, c)]
  }

  ghost function Cell(img: Grid, pend: set<(int, int)>, l: int, c: int): Word {
    if (l, c) in pend && (l, c) in img then img[(l, c)] else ZERO
  }

  /** XOR of the pending pixels (l, c) with l < n and c + Times(l, p) == t. */
  ghost function Line(img: Grid, pend: set<(int, int)>, n: nat, p: int, t: int): Word {
    if n == 0 then ZERO else Xor(Line(img, pend, n - 1, p, t), Cell(img, pend, n - 1, t - Times(n - 1, p)))
  }

  lemma XorZero(a: Word)
    ensures Xor(a, ZERO) == a && Xor(ZERO, a) == a
  {}

  lemma XorCancel(a: Word, b: Word)
    ensures Xor(Xor(a, b), b) == a
  {}

  lemma XorSwap(a: Word, b: Word, c: Word)
    ensures Xor(Xor(a, b), c) == Xor(Xor(a, c), b)
  {}

  lemma {:induction false} LineOfNothing(img: Grid, pend: set<(int, int)>, n: nat, p: int, t: int)
    requires forall l :: 0 <= l < n ==> (l, t - Times(l, p)) !in pend
    ensures Line(img, pend, n, p, t) == ZERO
  {
    if n > 0 {
      LineOfNothing(img, pend, n - 1, p, t);
      XorZero(ZERO);
    }
  }

  /** A line with a single pending pixel holds exactly that pixel. */
  lemma {:induction false} LineOfOne(img: Grid, pend: set<(int, int)>, n: nat, p: int, l: int, c: int)
    requires 0 <= l < n && (l, c) in pend && (l, c) in img
    requires forall l' :: 0 <= l' < n && l' != l ==> (l', c + Times(l, p) - Times(l', p)) !in pend
    ensures Line(img, pend, n, p, c + Times(l, p)) == img[(l, c)]
  {
    if l == n - 1 {
      LineOfNothing(img, pend, n - 1, p, c + Times(l, p));
      assert c + Times(l, p) - Times(n - 1, p) == c;
      XorZero(img[(l, c)]);
    } else {
      LineOfOne(img, pend, n - 1, p, l, c);
      XorZero(img[(l, c)]);
    }
  }

  /** The line sum only depends on which of its own pixels are pending. */
  lemma {:induction false} LineSame(img: Grid, pend: set<(int, int)>, pend': set<(int, int)>, n: nat, p: int, t: int)
    requires forall l :: 0 <= l < n ==> ((l, t - Times(l, p)) in pend <==> (l, t - Times(l, p)) in pend')
    ensures Line(img, pend, n, p, t) == Line(img, pend', n, p, t)
  {
    if n > 0 {
      LineSame(img, pend, pend', n - 1, p, t);
      assert Cell(img, pend, n - 1, t - Times(n - 1, p)) == Cell(img, pend', n - 1, t - Times(n - 1, p));
    }
  }

  lemma {:induction false} LineAddOn(img: Grid, pend: set<(int, int)>, n: nat, p: int, l: int, c: int)
    requires (l, c) in img && (l, c) !in pend && 0 <= l < n
    ensures Line(img, pend + {(l, c)}, n, p, c + Times(l, p)) == Xor(Line(img, pend, n, p, c + Times(l, p)), img[(l, c)])
  {
    var t, pend' := c + Times(l, p), pend + {(l, c)};
    if l == n - 1 {
      LineSame(img, pend, pend', n - 1, p, t);
      assert t - Times(n - 1, p) == c;
      XorZero(Line(img, pend, n - 1, p, t));
    } else {
      LineAddOn(img, pend, n - 1, p, l, c);
      var cell := Cell(img, pend, n - 1, t - Times(n - 1, p));
      assert cell == Cell(img, pend', n - 1, t - Times(n - 1, p));
      XorSwap(Line(img, pend, n - 1, p, t), img[(l, c)], cell);
    }
  }

  /** Adding a pixel XORs it into the one line it lies on and leaves the others alone. */
  lemma LineAdd(img: Grid, pend: set<(int, int)>, n: nat, p: int, t: int, l: int, c: int)
    requires (l, c) in img && (l, c) !in pend && 0 <= l < n
    ensures Line(img, pend + {(l, c)}, n, p, t) ==
            if c + Times(l, p) == t then Xor(Line(img, pend, n, p, t), img[(l, c)]) else Line(img, pend, n, p, t)
  {
    if c + Times(l, p) == t {
      LineAddOn(img, pend, n, p, l, c);
    } else {
      LineSame(img, pend, pend + {(l, c)}, n, p, t);
    }
  }

  /** Taking a pixel away is the same XOR. */
  lemma LineRemove(img: Grid, pend: set<(int, int)>, n: nat, p: int, t: int, l: int, c: int)
    requires (l, c) in img && (l, c) in pend && 0 <= l < n
    ensures Line(img, pend - {(l, c)}, n, p, t) ==
            if c + Times(l, p) == t then Xor(Line(img, pend, n, p, t), img[(l, c)]) else Line(img, pend, n, p, t)
  {
    LineAdd(img, pend - {(l, c)}, n, p, t, l, c);
    assert pend - {(l, c)} + {(l, c)} == pend;
    XorCancel(Line(img, pend - {(l, c)}, n, p, t), img[(l, c)]);
  }

  // ------------------------------------------------------------ whole projections

  /** Every bin below `limit` is the sum of the pending pixels of its line. */
  ghost predicate Sums(bins: seq<Word>, limit: int, img: Grid, pend: set<(int, int)>, rows: nat, p: int)
    requires limit <= |bins|
  {
    forall b :: 0 <= b < limit ==> bins[b] == Line(img, pend, rows, p, b + Offset(rows, p))
  }

  lemma BinHoldsLine(bins: seq<Word>, limit: int, img: Grid, pend: set<(int, int)>, rows: nat, p: int, l: int, c: int)
    requires limit <= |bins| && Sums(bins, limit, img, pend, rows, p)
    requires 0 <= Bin(rows, p, l, c) < limit
    ensures bins[Bin(rows, p, l, c)] == Line(img, pend, rows, p, c + Times(l, p))
  {
    assert Bin(rows, p, l, c) + Offset(rows, p) == c + Times(l, p);
  }

  lemma SumsOfNothing(bins: seq<Word>, limit: int, img: Grid, rows: nat, p: int)
    requires limit <= |bins|
    ensures Sums(bins, limit, img, {}, rows, p) <==> forall b :: 0 <= b < limit ==> bins[b] == ZERO
  {
    forall b | 0 <= b < limit
      ensures bins[b] == Line(img, {}, rows, p, b + Offset(rows, p)) <==> bins[b] == ZERO
    {
      LineOfNothing(img, {}, rows, p, b + Offset(rows, p));
    }
  }

  /** XORing a pixel into its bin adds it to the pending set. */
  lemma SumsAdd(bins: seq<Word>, limit: int, img: Grid, pend: set<(int, int)>, rows: nat, p: int, l: int, c: int)
    requires limit <= |bins| && Sums(bins, limit, img, pend, rows, p)
    requires (l, c) in img && (l, c) !in pend && 0 <= l < rows
    requires 0 <= Bin(rows, p, l, c) < |bins|
    ensures var b := Bin(rows, p, l, c);
            Sums(bins[b := Xor(bins[b], img[(l, c)])], limit, img, pend + {(l, c)}, rows, p)
  {
    forall b | 0 <= b < limit
      ensures Line(img, pend + {(l, c)}, rows, p, b + Offset(rows, p)) ==
              if b == Bin(rows, p, l, c) then Xor(bins[b], img[(l, c)]) else bins[b]
    {
      LineAdd(img, pend, rows, p, b + Offset(rows, p), l, c);
    }
  }

  /** A pixel whose bin is cut off can be added without touching the bins. */
  lemma SumsSkip(bins: seq<Word>, limit: int, img: Grid, pend: set<(int, int)>, rows: nat, p: int, l: int, c: int)
    requires limit <= |bins| && Sums(bins, limit, img, pend, rows, p)
    requires (l, c) in img && (l, c) !in pend && 0 <= l < rows
    requires Bin(rows, p, l, c) >= limit
    ensures Sums(bins, limit, img, pend + {(l, c)}, rows, p)
  {
    forall b | 0 <= b < limit
      ensures Line(img, pend + {(l, c)}, rows, p, b + Offset(rows, p)) == bins[b]
    {
      LineAdd(img, pend, rows, p, b + Offset(rows, p), l, c);
    }
  }

  /** XORing a pending pixel out of its bin removes it from the pending set. */
  lemma SumsRemove(bins: seq<Word>, limit: int, img: Grid, pend: set<(int, int)>, rows: nat, p: int, l: int, c: int)
    requires limit <= |bins| && Sums(bins, limit, img, pend, rows, p)
    requires (l, c) in img && (l, c) in pend && 0 <= l < rows
    requires 0 <= Bin(rows, p, l, c) < |bins|
    ensures var b := Bin(rows, p, l, c);
            Sums(bins[b := Xor(bins[b], img[(l, c)])], limit, img, pend - {(l, c)}, rows, p)
  {
    forall b | 0 <= b < limit
      ensures Line(img, pend - {(l, c)}, rows, p, b + Offset(rows, p)) ==
              if b == Bin(rows, p, l, c) then Xor(bins[b], img[(l, c)]) else bins[b]
    {
      LineRemove(img, pend, rows, p, b + Offset(rows, p), l, c);
    }
  }

  /**
    The bins of row i's own pending pixels are the sums of their lines.  This is
    all that a reconstruction needs of projection i: it never reads another bin.
   */
  ghost predicate OwnSums(bins: seq<Word>, i: int, img: Grid, pend: set<(int, int)>, rows: nat, p: int) {
    forall c :: (i, c) in pend ==>
                  0 <= Bin(rows, p, i, c) < |bins| && bins[Bin(rows, p, i, c)] == Line(img, pend, rows, p, c + Times(i, p))
  }

  lemma SumsGiveOwn(bins: seq<Word>, limit: int, i: int, img: Grid, pend: set<(int, int)>, rows: nat, p: int)
    requires limit <= |bins| && Sums(bins, limit, img, pend, rows, p)
    requires forall c :: (i, c) in pend ==> 0 <= Bin(rows, p, i, c) < limit
    ensures OwnSums(bins, i, img, pend, rows, p)
  {
    forall c | (i, c) in pend ensures bins[Bin(rows, p, i, c)] == Line(img, pend, rows, p, c + Times(i, p)) {
      BinHoldsLine(bins, limit, img, pend, rows, p, i, c);
    }
  }

  /** Removing a pixel of another row, in step with the bins. */
  lemma OwnSumsOther(bins: seq<Word>, i: int, img: Grid, pend: set<(int, int)>, rows: nat, p: int, l: int, c: int)
    requires OwnSums(bins, i, img, pend, rows, p) && i != l
    requires (l, c) in img && (l, c) in pend && 0 <= l < rows
    requires 0 <= Bin(rows, p, l, c) < |bins|
    ensures var b := Bin(rows, p, l, c);
            OwnSums(bins[b := Xor(bins[b], img[(l, c)])], i, img, pend - {(l, c)}, rows, p)
  {
    var b := Bin(rows, p, l, c);
    var bins' := bins[b := Xor(bins[b], img[(l, c)])];
    forall c' | (i, c') in pend - {(l, c)}
      ensures 0 <= Bin(rows, p, i, c') < |bins'|
      ensures bins'[Bin(rows, p, i, c')] == Line(img, pend - {(l, c)}, rows, p, c' + Times(i, p))
    {
      LineRemove(img, pend, rows, p, c' + Times(i, p), l, c);
    }
  }

  /** Removing a pixel of row i itself: its bin is never looked at again, the others do not hold it. */
  lemma OwnSumsSelf(bins: seq<Word>, i: int, img: Grid, pend: set<(int, int)>, rows: nat, p: int, c: int)
    requires OwnSums(bins, i, img, pend, rows, p)
    requires (i, c) in img && (i, c) in pend && 0 <= i < rows
    ensures OwnSums(bins, i, img, pend - {(i, c)}, rows, p)
  {
    forall c' | (i, c') in pend - {(i, c)}
      ensures bins[Bin(rows, p, i, c')] == Line(img, pend - {(i, c)}, rows, p, c' + Times(i, p))
    {
      LineRemove(img, pend, rows, p, c' + Times(i, p), i, c);
    }
  }

  // ------------------------------------------------------------------ pixel sets

  ghost function AllPixels(rows: nat, cols: nat): set<(int, int)> {
    set l, c | 0 <= l < rows && 0 <= c < cols :: (l, c)
  }

  /** The pixels before (l, c) in row-major order: what a forward transform has added. */
  ghost function Raster(rows: nat, cols: nat, l: int, c: int): set<(int, int)> {
    set l', c' | 0 <= l' < rows && 0 <= c' < cols && (l' < l || (l' == l && c' < c)) :: (l', c')
  }

  lemma RasterStep(rows: nat, cols: nat, l: int, c: int)
    requires InImage(rows, cols, l, c)
    ensures (l, c) !in Raster(rows, cols, l, c)
    ensures Raster(rows, cols, l, c) + {(l, c)} == Raster(rows, cols, l, c + 1)
  {}

  lemma RasterRow(rows: nat, cols: nat, l: int)
    ensures Raster(rows, cols, l, cols) == Raster(rows, cols, l + 1, 0)
    ensures Raster(rows, cols, 0, 0) == {}
    ensures Raster(rows, cols, rows, 0) == AllPixels(rows, cols)
  {}

  /** The pixels the inverse transform has not rebuilt when it reaches step k, row l. */
  ghost function Pending(ps: seq<int>, cols: nat, k: int, l: int): set<(int, int)> {
    set l', c' | 0 <= l' < |ps| && 0 <= c' < cols && !Visited(ps, l', c', k, l) :: (l', c')
  }

  lemma PendingStart(ps: seq<int>, cols: nat)
    requires Descending(ps) && 1 <= |ps|
    ensures Pending(ps, cols, -MaxStart(ps), 0) == AllPixels(|ps|, cols)
  {
    forall l, c | InImage(|ps|, cols, l, c) ensures (l, c) in Pending(ps, cols, -MaxStart(ps), 0) {
      StartBounded(ps, l);
    }
  }

  lemma PendingEnd(ps: seq<int>, cols: nat)
    requires Descending(ps) && 1 <= |ps|
    ensures Pending(ps, cols, cols, 0) == {}
  {
    forall l, c | InImage(|ps|, cols, l, c) ensures Visited(ps, l, c, cols, 0) {
      StartBounded(ps, l);
    }
  }

  lemma PendingNextStep(ps: seq<int>, cols: nat, k: int)
    ensures Pending(ps, cols, k, |ps|) == Pending(ps, cols, k + 1, 0)
  {}

  /** Step (k, l) rebuilds exactly the pixel of row l in column k + Start(l), if there is one. */
  lemma PendingStep(ps: seq<int>, cols: nat, k: int, l: int)
    requires 0 <= l < |ps|
    ensures var c := k + Start(ps, l);
            if 0 <= c < cols
            then (l, c) in Pending(ps, cols, k, l) && Pending(ps, cols, k, l + 1) == Pending(ps, cols, k, l) - {(l, c)}
            else Pending(ps, cols, k, l + 1) == Pending(ps, cols, k, l)
  {}

  /** The bin read at step (k, l) holds exactly one pending pixel: the one to rebuild. */
  lemma ReadsOnePixel(img: Grid, ps: seq<int>, cols: nat, k: int, l: int)
    requires Descending(ps) && 0 <= l < |ps|
    requires InImage(|ps|, cols, l, k + Start(ps, l)) && (l, k + Start(ps, l)) in img
    ensures var c := k + Start(ps, l);
            Line(img, Pending(ps, cols, k, l), |ps|, ps[l], c + Times(l, ps[l])) == img[(l, c)]
  {
    var c, p := k + Start(ps, l), ps[l];
    forall l' | 0 <= l' < |ps| && l' != l
      ensures (l', c + Times(l, p) - Times(l', p)) !in Pending(ps, cols, k, l)
    {
      LineAlreadyVisited(ps, l, c, l', c + Times(l, p) - Times(l', p));
    }
    LineOfOne(img, Pending(ps, cols, k, l), |ps|, p, l, c);
  }
}
