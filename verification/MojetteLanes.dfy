/**
  The two halves of a 128-bit word.  The 128-bit transform works on both at once, so it
  is two 64-bit transforms side by side.
 */
module MojetteLanes {
  import opened MojetteGeometry
  import opened MojetteLines
  import opened MojetteProjection
  import opened MojetteForward

  const HALF := 64

  /** The high or the low 64 bits of a word, as a 64-bit word. */
  function Lane(w: Word, high: bool): Word {
    if high then set b | b in w && b >= HALF :: b - HALF else set b | b in w && b < HALF
  }

  lemma LaneBit(w: Word, high: bool, b: nat)
    ensures b in Lane(w, high) <==> if high then b + HALF in w else b in w && b < HALF
  {
    if high && b + HALF in w {
      assert b == (b + HALF) - HALF;
    }
  }

  lemma LaneXor(v: Word, w: Word, high: bool)
    ensures Lane(Xor(v, w), high) == Xor(Lane(v, high), Lane(w, high))
  {
    forall b: nat ensures b in Lane(Xor(v, w), high) <==> b in Xor(Lane(v, high), Lane(w, high)) {
      LaneBit(Xor(v, w), high, b);
      LaneBit(v, high, b);
      LaneBit(w, high, b);
    }
  }

  /** Halves of 128-bit words are 64-bit words, and together they are the word. */
  lemma LanesDetermine(v: Word, w: Word)
    requires Fits(v, 2 * HALF) && Fits(w, 2 * HALF)
    ensures Fits(Lane(v, false), HALF) && Fits(Lane(v, true), HALF)
    ensures v == w <==> Lane(v, false) == Lane(w, false) && Lane(v, true) == Lane(w, true)
  {
    if Lane(v, false) == Lane(w, false) && Lane(v, true) == Lane(w, true) {
      forall b: nat ensures b in v <==> b in w {
        if b < HALF {
          LaneBit(v, false, b);
          LaneBit(w, false, b);
        } else {
          LaneBit(v, true, b - HALF);
          LaneBit(w, true, b - HALF);
        }
      }
    }
  }

  ghost function LaneGrid(img: Grid, high: bool): Grid {
    map x | x in img :: Lane(img[x], high)
  }

  /** Taking halves commutes with the sum of a line. */
  lemma {:induction false} LaneLine(img: Grid, pend: set<(int, int)>, n: nat, p: int, t: int, high: bool)
    ensures Lane(Line(img, pend, n, p, t), high) == Line(LaneGrid(img, high), pend, n, p, t)
  {
    if n > 0 {
      LaneLine(img, pend, n - 1, p, t, high);
      LaneXor(Line(img, pend, n - 1, p, t), Cell(img, pend, n - 1, t - Times(n - 1, p)), high);
    }
  }

  /** Sums of words of some width have that width. */
  lemma {:induction false} LineFits(img: Grid, pend: set<(int, int)>, n: nat, p: int, t: int, width: nat)
    requires forall x :: x in img ==> Fits(img[x], width)
    ensures Fits(Line(img, pend, n, p, t), width)
  {
    if n > 0 {
      LineFits(img, pend, n - 1, p, t, width);
      XorFits(Line(img, pend, n - 1, p, t), Cell(img, pend, n - 1, t - Times(n - 1, p)), width);
    }
  }

  function LaneBlock(block: seq<Word>, high: bool): (r: seq<Word>)
    ensures |r| == |block| && forall i :: 0 <= i < |r| ==> r[i] == Lane(block[i], high)
  {
    seq(|block|, i requires 0 <= i < |block| => Lane(block[i], high))
  }

  lemma LaneHolds(block: seq<Word>, img: Grid, rows: nat, cols: nat, high: bool)
    requires Holds(block, img, rows, cols)
    ensures Holds(LaneBlock(block, high), LaneGrid(img, high), rows, cols)
  {}

  /** The halves of the bins are the bins of the halves. */
  lemma LaneProjects(bins: seq<Word>, size: nat, img: Grid, rows: nat, cols: nat, p: int, high: bool)
    requires size <= |bins| && Projects(bins, size, img, rows, cols, p)
    ensures Projects(LaneBlock(bins, high), size, LaneGrid(img, high), rows, cols, p)
  {
    forall b | 0 <= b < size
      ensures LaneBlock(bins, high)[b] == Line(LaneGrid(img, high), AllPixels(rows, cols), rows, p, b + Offset(rows, p))
    {
      LaneLine(img, AllPixels(rows, cols), rows, p, b + Offset(rows, p), high);
    }
  }

  /** The kept bins of an image of 128-bit words are 128-bit words. */
  lemma ProjectsFits(bins: seq<Word>, size: nat, img: Grid, rows: nat, cols: nat, p: int, width: nat)
    requires size <= |bins| && Projects(bins, size, img, rows, cols, p) && forall x :: x in img ==> Fits(img[x], width)
    ensures forall b :: 0 <= b < size ==> Fits(bins[b], width)
  {
    forall b | 0 <= b < size ensures Fits(bins[b], width) {
      LineFits(img, AllPixels(rows, cols), rows, p, b + Offset(rows, p), width);
    }
  }

  /** The same angles as the 128-bit projections, at full size. */
  ghost predicate FullCopies(stored: seq<Projection>, lanes: seq<Projection>, rows: nat, cols: nat) {
    && |lanes| == |stored|
    && forall i :: 0 <= i < |lanes| ==>
         lanes[i].angle == stored[i].angle && LineCount(rows, cols, lanes[i].angle.p) <= lanes[i].size
  }

  /** Every kept bin of the 128-bit transform is made of the two bins of the 64-bit transforms. */
  ghost predicate Interleaved(wide: Projection, lane: Projection, high: bool)
    reads wide.bins, lane.bins
  {
    forall b :: 0 <= b < wide.size && b < wide.bins.Length && b < lane.size && b < lane.bins.Length ==>
      Lane(wide.bins[b], high) == lane.bins[b]
  }

  lemma SameBins(wide: Projection, lane: Projection, img: Grid, rows: nat, cols: nat, high: bool)
    requires wide.size <= wide.bins.Length && lane.size <= lane.bins.Length && wide.angle == lane.angle
    requires Projected(wide, img, rows, cols) && Projected(lane, LaneGrid(img, high), rows, cols)
    ensures Interleaved(wide, lane, high)
  {
    LaneProjects(wide.bins[..], wide.size, img, rows, cols, wide.angle.p, high);
    forall b | 0 <= b < wide.size && b < lane.size ensures Lane(wide.bins[b], high) == lane.bins[b] {
      assert LaneBlock(wide.bins[..], high)[b] == Lane(wide.bins[b], high);
    }
  }

  /** One 128-bit transform of a block against two 64-bit transforms of its halves. */
  method ForwardIsTwoTransforms(block: seq<Word>, rows: nat, cols: nat, stored: seq<Projection>,
                                low: seq<Projection>, high: seq<Projection>)
    requires |block| == rows * (cols / 2) && (cols / 2) % 8 == 0 && |stored| <= MAX_PROJECTIONS
    requires FullCopies(stored, low, rows, cols / 2) && FullCopies(stored, high, rows, cols / 2)
    requires WellSized(stored) && WellSized(low) && WellSized(high)
    requires SeparateBuffers(stored + low + high)
    modifies Buffers(stored), Buffers(low), Buffers(high)
    ensures forall i :: 0 <= i < |stored| ==> Interleaved(stored[i], low[i], false) && Interleaved(stored[i], high[i], true)
  {
    hide Interleaved, Projected;
    ghost var img := GridOf(block, rows, cols / 2);
    LaneHolds(block, img, rows, cols / 2, false);
    LaneHolds(block, img, rows, cols / 2, true);
    Apart(stored, low, high);
    Transform128Forward(block, rows, cols, stored, img);
    TransformForward(LaneBlock(block, false), rows, cols / 2, low, LaneGrid(img, false));
    TransformForward(LaneBlock(block, true), rows, cols / 2, high, LaneGrid(img, true));
    forall i | 0 <= i < |stored| ensures Interleaved(stored[i], low[i], false) && Interleaved(stored[i], high[i], true) {
      SameBins(stored[i], low[i], img, rows, cols / 2, false);
      SameBins(stored[i], high[i], img, rows, cols / 2, true);
    }
  }

  lemma Apart(a: seq<Projection>, b: seq<Projection>, c: seq<Projection>)
    requires SeparateBuffers(a + b + c)
    ensures SeparateBuffers(a) && SeparateBuffers(b) && SeparateBuffers(c)
    ensures Buffers(a) !! Buffers(b) && Buffers(a) !! Buffers(c) && Buffers(b) !! Buffers(c)
  {
    var s := a + b + c;
    assert forall i :: 0 <= i < |a| ==> s[i] == a[i];
    assert forall i :: 0 <= i < |b| ==> s[|a| + i] == b[i];
    assert forall i :: 0 <= i < |c| ==> s[|a| + |b| + i] == c[i];
  }
}
