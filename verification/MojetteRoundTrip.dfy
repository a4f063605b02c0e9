/**
  What the erasure code is for: a block is encoded into more projections than
  needed, and any `rows` of them, in any order, give the block back.
 */
module MojetteRoundTrip {
  import opened MojetteGeometry
  import opened MojetteLines
  import opened MojetteProjection
  import opened MojetteForward
  import opened MojetteInverse
  import opened Mojette128
  import opened MojetteScratch
  import opened MojetteLayout
  import opened RozofsLayout

  // -------------------------------------------------------------------- images

  lemma IndexOfPixel(rows: nat, cols: nat, j: int) returns (l: int, c: int)
    requires 0 <= j < rows * cols
    ensures InImage(rows, cols, l, c) && Flat(cols, l, c) == j
  {
    l, c := j / cols, j % cols;
    TimesIsProduct(l, cols);
    assert j == l * cols + c;
    if l >= rows {
      MulMonotone(rows, l, cols);
    }
  }

  /** A buffer of exactly rows * cols words is determined by the image it holds. */
  lemma HoldsDetermines(s: seq<Word>, s': seq<Word>, img: Grid, rows: nat, cols: nat)
    requires |s| == |s'| == rows * cols && Holds(s, img, rows, cols) && Holds(s', img, rows, cols)
    ensures s == s'
  {
    forall j | 0 <= j < |s| ensures s[j] == s'[j] {
      var l, c := IndexOfPixel(rows, cols, j);
      assert (l, c) in img;
    }
  }

  /** The kept bins of a projection are determined by the image. */
  lemma ProjectsDetermines(bins: seq<Word>, bins': seq<Word>, size: nat, img: Grid, rows: nat, cols: nat, p: int)
    requires size <= |bins| && size <= |bins'|
    requires Projects(bins, size, img, rows, cols, p) && Projects(bins', size, img, rows, cols, p)
    ensures bins[..size] == bins'[..size]
  {}

  // ------------------------------------------------------------------ selections

  /** The projections that survive, in the order in which they are found. */
  function Picked(stored: seq<Projection>, pick: seq<nat>): (r: seq<Projection>)
    requires forall i :: 0 <= i < |pick| ==> pick[i] < |stored|
    ensures |r| == |pick| && forall i :: 0 <= i < |pick| ==> r[i] == stored[pick[i]]
  {
    if pick == [] then [] else [stored[pick[0]]] + Picked(stored, pick[1..])
  }

  ghost predicate DistinctPicks(pick: seq<nat>, n: nat) {
    && (forall i :: 0 <= i < |pick| ==> pick[i] < n)
    && (forall i, j :: 0 <= i < j < |pick| ==> pick[i] != pick[j])
  }

  /** What the encoder sets up: one buffer per projection and different angles. */
  ghost predicate Encoder(stored: seq<Projection>) {
    && |stored| <= MAX_PROJECTIONS
    && UnitQ(stored) && DistinctSlopes(stored) && WellSized(stored) && SeparateBuffers(stored)
  }

  lemma PickedIsEncoder(stored: seq<Projection>, pick: seq<nat>)
    requires UnitQ(stored) && DistinctSlopes(stored) && SeparateBuffers(stored) && WellSized(stored)
    requires DistinctPicks(pick, |stored|)
    ensures var sel := Picked(stored, pick);
            UnitQ(sel) && DistinctSlopes(sel) && SeparateBuffers(sel) && WellSized(sel)
  {
    var sel := Picked(stored, pick);
    forall i, j | 0 <= i < j < |sel| ensures sel[i].angle.p != sel[j].angle.p && sel[i].bins != sel[j].bins {
      assert pick[i] != pick[j];
      assert pick[i] < pick[j] || pick[j] < pick[i];
    }
  }

  method PickArray(sel: seq<Projection>) returns (a: array<Projection>)
    ensures fresh(a) && a[..] == sel
  {
    a := new Projection[|sel|](i requires 0 <= i < |sel| => sel[i]);
  }

  // ---------------------------------------------------------------- 64-bit round trip

  /** Encode with the 64-bit forward transform, lose all but the picked projections, decode. */
  method RoundTrip64(block: seq<Word>, rows: nat, cols: nat, stored: seq<Projection>, pick: seq<nat>, out: array<Word>)
    requires 1 <= rows == |pick| && cols % 8 == 0 && |block| == out.Length == rows * cols
    requires Encoder(stored) && DistinctPicks(pick, |stored|)
    requires forall i :: 0 <= i < |stored| ==> stored[i].bins != out
    requires forall i :: 0 <= i < |stored| ==> LineCount(rows, cols, stored[i].angle.p) <= stored[i].size
    requires MaxStart(Slopes(Chosen(Picked(stored, pick), rows))) <= cols
    modifies Buffers(stored), out
    ensures out[..] == block
  {
    ghost var img := GridOf(block, rows, cols);
    TransformForward(block, rows, cols, stored, img);
    Recover64(rows, cols, stored, pick, out, img);
    HoldsDetermines(block, out[..], img, rows, cols);
  }

  /** Decode any `rows` of the stored projections. */
  method Recover64(rows: nat, cols: nat, stored: seq<Projection>, pick: seq<nat>, out: array<Word>, ghost img: Grid)
    requires 1 <= rows == |pick| && out.Length == rows * cols && Covers(img, rows, cols)
    requires Encoder(stored) && DistinctPicks(pick, |stored|)
    requires forall i :: 0 <= i < |stored| ==> stored[i].bins != out
    requires forall i :: 0 <= i < |stored| ==> LineCount(rows, cols, stored[i].angle.p) <= stored[i].size
    requires MaxStart(Slopes(Chosen(Picked(stored, pick), rows))) <= cols
    requires forall i :: 0 <= i < |pick| ==> Projected(stored[pick[i]], img, rows, cols)
    modifies Buffers(stored), out
    ensures Holds(out[..], img, rows, cols)
  {
    hide MaxStart, LineCount, SortBySlope, Projected, AllLines;
    var sel := Picked(stored, pick);
    PickedIsEncoder(stored, pick);
    ChosenSeparate(stored, pick, out);
    ghost var chosen := Chosen(sel, rows);
    forall i | 0 <= i < rows
      ensures LineCount(rows, cols, chosen[i].angle.p) <= chosen[i].bins.Length
      ensures AllLines(chosen[i], rows, cols, img, AllPixels(rows, cols))
    {
      var j :| 0 <= j < |sel| && sel[j] == chosen[i];
      FullProjection(sel[j], img, rows, cols);
    }
    var projections := PickArray(sel);
    TransformInverse(out, rows, cols, projections, img);
  }

  /** The chosen projections are picked ones, with buffers of their own. */
  lemma ChosenSeparate(stored: seq<Projection>, pick: seq<nat>, out: array<Word>)
    requires UnitQ(stored) && DistinctSlopes(stored) && SeparateBuffers(stored) && WellSized(stored)
    requires DistinctPicks(pick, |stored|) && forall i :: 0 <= i < |stored| ==> stored[i].bins != out
    ensures var chosen := Chosen(Picked(stored, pick), |pick|);
            && |chosen| == |pick| && SeparateBins(chosen, out) && WellSized(chosen) && Buffers(chosen) <= Buffers(stored)
            && forall i :: 0 <= i < |chosen| ==> chosen[i] in Picked(stored, pick)
  {
    hide SortBySlope;
    var sel := Picked(stored, pick);
    PickedIsEncoder(stored, pick);
    SortKeepsBuffers(sel, out);
    assert Chosen(sel, |pick|) == SortBySlope(sel);
    ChosenAreGiven(sel, |pick|);
    SameBuffers(stored, sel);
  }

  lemma FullProjection(proj: Projection, img: Grid, rows: nat, cols: nat)
    requires LineCount(rows, cols, proj.angle.p) <= proj.size <= proj.bins.Length && Projected(proj, img, rows, cols)
    ensures AllLines(proj, rows, cols, img, AllPixels(rows, cols))
  {}

  /** The chosen projections are stored ones, in descending order of slope. */
  lemma ChosenFromStored(stored: seq<Projection>, pick: seq<nat>)
    requires UnitQ(stored) && DistinctSlopes(stored) && SeparateBuffers(stored) && WellSized(stored)
    requires DistinctPicks(pick, |stored|)
    ensures var chosen := Chosen(Picked(stored, pick), |pick|);
            && |chosen| == |pick| && Descending(Slopes(chosen))
            && (forall i :: 0 <= i < |chosen| ==> chosen[i] in stored)
            && (forall i :: 0 <= i < |chosen| ==> Slopes(chosen)[i] in Slopes(stored))
  {
    hide SortBySlope, Picked;
    var sel := Picked(stored, pick);
    var chosen := Chosen(sel, |pick|);
    PickedIsEncoder(stored, pick);
    SortDescending(sel);
    assert chosen == SortBySlope(sel);
    ChosenAreGiven(sel, |pick|);
    forall i | 0 <= i < |chosen| ensures chosen[i] in stored && Slopes(chosen)[i] in Slopes(stored) {
      PickedIsStored(stored, pick, chosen[i]);
    }
  }

  lemma PickedIsStored(stored: seq<Projection>, pick: seq<nat>, x: Projection)
    requires DistinctPicks(pick, |stored|) && x in Picked(stored, pick)
    ensures x in stored && x.angle.p in Slopes(stored)
  {
    var sel := Picked(stored, pick);
    var j :| 0 <= j < |sel| && sel[j] == x;
    assert Slopes(stored)[pick[j]] == x.angle.p;
  }

  // --------------------------------------------------------------- 128-bit round trip

  /** Every stored projection keeps at least the effective size for the angles of the layout. */
  ghost predicate KeepsEnough(stored: seq<Projection>, cols: nat) {
    forall i :: 0 <= i < |stored| ==> EffectiveSize(Slopes(stored), cols, stored[i].angle.p) <= stored[i].size
  }

  /** The projection keeps its effective size, and those bins are sums; the others may hold anything. */
  ghost predicate HoldsKept(proj: Projection, angles: seq<int>, img: Grid, rows: nat, cols: nat)
    reads proj.bins
  {
    EffectiveSize(angles, cols, proj.angle.p) <= proj.bins.Length &&
    Projects(proj.bins[..], EffectiveSize(angles, cols, proj.angle.p), img, rows, cols, proj.angle.p)
  }

  /** Copies of any selection fit into the scratch buffer, with at most `overlap` words in common. */
  ghost predicate FitsScratch(stored: seq<Projection>, rows: nat, cols: nat, stride: nat, overlap: nat, words: nat) {
    overlap <= stride &&
    forall i :: 0 <= i < |stored| ==>
      && EffectiveSize(Slopes(stored), cols, stored[i].angle.p) <= stride
      && LineCount(rows, cols, stored[i].angle.p) <= stride + overlap
      && Times(rows - 1, stride) + LineCount(rows, cols, stored[i].angle.p) <= words
      && Times(rows - 1, stride) + stored[i].size <= words
  }

  lemma TimesUpTo(i: int, n: int, stride: nat)
    requires 0 <= i <= n
    ensures 0 <= Times(i, stride) <= Times(n, stride)
  {
    TimesMonotone(0, i, stride);
    TimesMonotone(i, n, stride);
  }

  /** Any selection can be decoded from copies. */
  lemma PickedIsDecodable(stored: seq<Projection>, pick: seq<nat>, cols: nat, stride: nat, overlap: nat, words: nat, out: array<Word>)
    requires Encoder(stored) && DistinctPicks(pick, |stored|) && 1 <= |pick| && |pick| * cols <= out.Length
    requires KeepsEnough(stored, cols) && FitsScratch(stored, |pick|, cols, stride, overlap, words)
    requires MaxStart(Slopes(Chosen(Picked(stored, pick), |pick|))) + 2 * overlap <= cols
    ensures CopyDecodable(Picked(stored, pick), out, |pick|, cols, stride, overlap, words)
  {
    hide MaxStart, LineCount, ReadBound, SortBySlope, EffectiveSize, Chosen;
    var rows, sel := |pick|, Picked(stored, pick);
    var chosen := Chosen(sel, rows);
    PickedIsEncoder(stored, pick);
    ChosenFromStored(stored, pick);
    forall i | 0 <= i < rows ensures Times(i, stride) + sel[i].size <= words {
      TimesUpTo(i, rows - 1, stride);
    }
    forall i | 0 <= i < rows ensures UsableCopy(chosen[i], i, rows, cols, stride, overlap, Times(rows - 1, stride), words) {
      var j :| 0 <= j < |stored| && stored[j] == chosen[i];
      EffectiveSizeSuffices(Slopes(stored), Slopes(chosen), cols, i);
    }
  }

  lemma KeptIsReadable(proj: Projection, angles: seq<int>, i: int, img: Grid, rows: nat, cols: nat)
    requires HoldsKept(proj, angles, img, rows, cols)
    requires ReadBound(rows, cols, proj.angle.p, i) <= EffectiveSize(angles, cols, proj.angle.p)
    ensures ReadableSums(proj, i, img, rows, cols)
  {}

  /**
    Encode with the clipped 128-bit forward transform, lose all but the picked
    projections, decode from copies.  Nothing is required of the words behind the
    kept bins.
   */
  method RoundTrip128(block: seq<Word>, rows: nat, cols: nat, stored: seq<Projection>, pick: seq<nat>,
                      stride: nat, words: nat, ghost overlap: nat, out: array<Word>)
    requires 1 <= rows == |pick| && |block| == out.Length == rows * (cols / 2)
    requires Encoder(stored) && DistinctPicks(pick, |stored|) && KeepsEnough(stored, cols / 2)
    requires FitsScratch(stored, rows, cols / 2, stride, overlap, words)
    requires MaxStart(Slopes(Chosen(Picked(stored, pick), rows))) + 2 * overlap <= cols / 2
    modifies Buffers(stored), out
    ensures out[..] == block
  {
    hide MaxStart, Chosen, FitsScratch, EffectiveSize;
    ghost var img := GridOf(block, rows, cols / 2);
    Transform128Forward(block, rows, cols, stored, img);
    forall i | 0 <= i < |stored| ensures HoldsKept(stored[i], Slopes(stored), img, rows, cols / 2) {
      ProjectedIsKept(stored[i], Slopes(stored), img, rows, cols / 2);
    }
    Recover128(rows, cols, stored, pick, stride, words, overlap, out, img);
    HoldsDetermines(block, out[..], img, rows, cols / 2);
  }

  lemma ProjectedIsKept(proj: Projection, angles: seq<int>, img: Grid, rows: nat, cols: nat)
    requires proj.size <= proj.bins.Length && Projected(proj, img, rows, cols)
    requires EffectiveSize(angles, cols, proj.angle.p) <= proj.size
    ensures HoldsKept(proj, angles, img, rows, cols)
  {}

  /** Decode any `rows` of the stored projections; the stored bins are only read. */
  method Recover128(rows: nat, cols: nat, stored: seq<Projection>, pick: seq<nat>, stride: nat, words: nat, ghost overlap: nat,
                    out: array<Word>, ghost img: Grid)
    requires 1 <= rows == |pick| && rows * (cols / 2) <= out.Length && Covers(img, rows, cols / 2)
    requires Encoder(stored) && DistinctPicks(pick, |stored|) && KeepsEnough(stored, cols / 2)
    requires FitsScratch(stored, rows, cols / 2, stride, overlap, words)
    requires MaxStart(Slopes(Chosen(Picked(stored, pick), rows))) + 2 * overlap <= cols / 2
    requires forall i :: 0 <= i < |pick| ==> HoldsKept(stored[pick[i]], Slopes(stored), img, rows, cols / 2)
    modifies out
    ensures Holds(out[..], img, rows, cols / 2) && Rest(out, rows, cols / 2) == old(Rest(out, rows, cols / 2))
  {
    hide MaxStart, LineCount, SortBySlope, HoldsKept, EffectiveSize, ReadBound, ReadableSums, FitsScratch, CopyDecodable, Rest;
    var sel := Picked(stored, pick);
    PickedIsDecodable(stored, pick, cols / 2, stride, overlap, words, out);
    ChosenFromStored(stored, pick);
    PickedIsEncoder(stored, pick);
    ChosenAreGiven(sel, rows);
    ghost var chosen := Chosen(sel, rows);
    forall i | 0 <= i < rows ensures ReadableSums(chosen[i], i, img, rows, cols / 2) {
      var j :| 0 <= j < |sel| && sel[j] == chosen[i];
      EffectiveSizeSuffices(Slopes(stored), Slopes(chosen), cols / 2, i);
      KeptIsReadable(chosen[i], Slopes(stored), i, img, rows, cols / 2);
    }
    Transform128InverseCopy(out, rows, cols, sel, stride, words, overlap, img);
  }

  /**
    Repair: when projection `lost` is gone, decode the block from `rows` others
    and project it again.  The rebuilt bins are those of the original block.
   */
  method RepairProjection(rows: nat, cols: nat, stored: seq<Projection>, pick: seq<nat>, lost: nat, stride: nat, words: nat,
                          ghost overlap: nat, out: array<Word>, ghost img: Grid)
    requires 1 <= rows == |pick| && rows * (cols / 2) <= out.Length && Covers(img, rows, cols / 2)
    requires Encoder(stored) && DistinctPicks(pick, |stored|) && KeepsEnough(stored, cols / 2) && lost < |stored|
    requires FitsScratch(stored, rows, cols / 2, stride, overlap, words)
    requires MaxStart(Slopes(Chosen(Picked(stored, pick), rows))) + 2 * overlap <= cols / 2
    requires forall i :: 0 <= i < |pick| ==> HoldsKept(stored[pick[i]], Slopes(stored), img, rows, cols / 2)
    modifies out, stored[lost].bins
    ensures Projected(stored[lost], img, rows, cols / 2)
    ensures stored[lost].bins != out ==> Holds(out[..], img, rows, cols / 2)
  {
    hide MaxStart, HoldsKept, FitsScratch, EffectiveSize, Chosen, Rest;
    Recover128(rows, cols, stored, pick, stride, words, overlap, out, img);
    Transform128ForwardOne(out[..], rows, cols, lost, stored, img);
  }

  // ------------------------------------------------------------------ RozoFS layouts

  /** The projections of a RozoFS layout, truncated to the sizes of the table. */
  ghost predicate LayoutEncoder(layout: nat, bsize: nat, stored: seq<Projection>)
    requires layout < LAYOUT_MAX && bsize <= BSIZE_8K
  {
    && |stored| == Forward(layout) && WellSized(stored) && SeparateBuffers(stored)
    && |SizeRow(layout, bsize + 1)| == Forward(layout)
    && forall i :: 0 <= i < |stored| ==>
         stored[i].angle == Angle(AngleAt(Forward(layout), i), 1) && stored[i].size == SizeRow(layout, bsize + 1)[i]
  }

  lemma LayoutKeepsEnough(layout: nat, bsize: nat, stored: seq<Projection>)
    requires layout < LAYOUT_MAX && bsize <= BSIZE_8K && LayoutEncoder(layout, bsize, stored)
    ensures Slopes(stored) == Angles(Forward(layout))
    ensures KeepsEnough(stored, Columns128(layout, bsize))
  {
    var forward, cols := Forward(layout), Columns128(layout, bsize);
    assert Slopes(stored) == Angles(forward);
    TableIsEffectiveSize(layout, bsize + 1);
    forall i | 0 <= i < |stored| ensures EffectiveSize(Slopes(stored), cols, stored[i].angle.p) <= stored[i].size {
      KeptBinsIsEffectiveSize(forward, cols, i);
    }
  }

  /** The picked projections, sorted, are a selection of the layout's angles. */
  lemma PickedIsSelection(layout: nat, stored: seq<Projection>, pick: seq<nat>)
    requires layout < LAYOUT_MAX && |pick| == Inverse(layout) && DistinctPicks(pick, |stored|)
    requires UnitQ(stored) && DistinctSlopes(stored) && SeparateBuffers(stored) && WellSized(stored)
    requires Slopes(stored) == Angles(Forward(layout))
    ensures Selection(layout, Slopes(Chosen(Picked(stored, pick), |pick|)))
  {
    ChosenFromStored(stored, pick);
  }

  /** The contexts that the decoder gets: the rebuilders ask for twice the effective size. */
  function Contexts(stored: seq<Projection>, twice: bool): (r: seq<Projection>)
    ensures |r| == |stored|
    ensures forall i :: 0 <= i < |r| ==>
      r[i] == stored[i].(size := if twice then 2 * stored[i].size else stored[i].size)
  {
    seq(|stored|, i requires 0 <= i < |stored| => stored[i].(size := if twice then 2 * stored[i].size else stored[i].size))
  }

  lemma ContextsEncode(stored: seq<Projection>, twice: bool, cols: nat)
    requires Encoder(stored) && KeepsEnough(stored, cols) && WellSized(Contexts(stored, twice))
    ensures Encoder(Contexts(stored, twice)) && KeepsEnough(Contexts(stored, twice), cols)
    ensures Slopes(Contexts(stored, twice)) == Slopes(stored) && Buffers(Contexts(stored, twice)) == Buffers(stored)
  {
    hide EffectiveSize;
    var r := Contexts(stored, twice);
    assert Slopes(r) == Slopes(stored);
    assert forall i :: 0 <= i < |r| ==> r[i].bins == stored[i].bins && r[i].angle == stored[i].angle && r[i].size >= stored[i].size;
  }

  /** Everything that a round trip needs holds for every layout, every selection and the scratch of the code. */
  lemma LayoutIsReady(layout: nat, bsize: nat, stored: seq<Projection>, pick: seq<nat>, sizes: BlockSizes, twice: bool)
    requires layout < LAYOUT_MAX && bsize <= BSIZE_8K && LayoutEncoder(layout, bsize, stored)
    requires |pick| == Inverse(layout) && DistinctPicks(pick, |stored|) && WellSized(Contexts(stored, twice))
    requires GoodSizes(Forward(layout), Inverse(layout), Columns64(layout, bsize), Columns128(layout, bsize), true, sizes)
    ensures var given := Contexts(stored, twice);
            && Encoder(stored) && KeepsEnough(stored, Columns128(layout, bsize)) && Slopes(given) == Slopes(stored)
            && Encoder(given) && KeepsEnough(given, Columns128(layout, bsize)) && Buffers(given) == Buffers(stored)
            && Stride(sizes) >= 0 && FitsScratch(given, Inverse(layout), Columns128(layout, bsize), Stride(sizes), 1, SCRATCH_WORDS)
            && MaxStart(Slopes(Chosen(Picked(given, pick), |pick|))) + 2 <= Columns128(layout, bsize)
  {
    hide MaxStart, EffectiveSize, LineCount, SortBySlope, Chosen;
    var given, cols := Contexts(stored, twice), Columns128(layout, bsize);
    LayoutKeepsEnough(layout, bsize, stored);
    ContextsEncode(stored, twice, cols);
    PickedIsSelection(layout, given, pick);
    EverySelectionFits(layout, bsize, Slopes(Chosen(Picked(given, pick), |pick|)));
    ScratchForAll(layout, bsize, stored, sizes, twice);
  }

  lemma ScratchForAll(layout: nat, bsize: nat, stored: seq<Projection>, sizes: BlockSizes, twice: bool)
    requires layout < LAYOUT_MAX && bsize <= BSIZE_8K && LayoutEncoder(layout, bsize, stored)
    requires GoodSizes(Forward(layout), Inverse(layout), Columns64(layout, bsize), Columns128(layout, bsize), true, sizes)
    ensures Stride(sizes) >= 0
    ensures FitsScratch(Contexts(stored, twice), Inverse(layout), Columns128(layout, bsize), Stride(sizes), 1, SCRATCH_WORDS)
  {
    hide EffectiveSize, LineCount, KeptBins, SizeRow, Stride;
    var given, cols := Contexts(stored, twice), Columns128(layout, bsize);
    LayoutKeepsEnough(layout, bsize, stored);
    assert Slopes(given) == Slopes(stored);
    TableIsEffectiveSize(layout, bsize + 1);
    forall i | 0 <= i < |given|
      ensures EffectiveSize(Slopes(given), cols, given[i].angle.p) <= Stride(sizes) && 1 <= Stride(sizes)
      ensures LineCount(Inverse(layout), cols, given[i].angle.p) <= Stride(sizes) + 1
      ensures Times(Inverse(layout) - 1, Stride(sizes)) + LineCount(Inverse(layout), cols, given[i].angle.p) <= SCRATCH_WORDS
      ensures Times(Inverse(layout) - 1, Stride(sizes)) + given[i].size <= SCRATCH_WORDS
    {
      ScratchSuffices(layout, bsize, sizes, i);
      assert stored[i].size == sizes.effective[i];
      KeptBinsIsEffectiveSize(Forward(layout), cols, i);
    }
    assert 0 < |given|;
    ScratchSuffices(layout, bsize, sizes, 0);
  }

  /**
    The promise of RozoFS: with the sizes of its table and the scratch buffer of its decoder,
    any `Inverse(layout)` of the `Forward(layout)` projections of a 4 kB or 8 kB block give
    the block back.  `twice` tells whether twice the effective size is copied, as the
    rebuilders do.
   */
  method StoreAndRecover(layout: nat, bsize: nat, block: seq<Word>, stored: seq<Projection>, pick: seq<nat>, twice: bool, out: array<Word>)
    requires layout < LAYOUT_MAX && bsize <= BSIZE_8K
    requires |block| == out.Length == Inverse(layout) * Columns128(layout, bsize)
    requires LayoutEncoder(layout, bsize, stored) && WellSized(Contexts(stored, twice))
    requires |pick| == Inverse(layout) && DistinctPicks(pick, |stored|)
    modifies Buffers(stored), out
    ensures out[..] == block
  {
    hide MaxStart, Chosen, FitsScratch, EffectiveSize, GoodSizes, Stride, HoldsKept;
    var table := LayoutInitialize();
    var sizes := table[layout].sizes[bsize];
    LayoutIsReady(layout, bsize, stored, pick, sizes, twice);
    var rows, cols := Inverse(layout), Columns64(layout, bsize);
    assert cols / 2 == Columns128(layout, bsize);
    ghost var img := GridOf(block, rows, cols / 2);
    Transform128Forward(block, rows, cols, stored, img);
    var given := Contexts(stored, twice);
    forall i | 0 <= i < |stored| ensures HoldsKept(given[i], Slopes(given), img, rows, cols / 2) {
      ProjectedIsKept(stored[i], Slopes(stored), img, rows, cols / 2);
      SameBinsKept(stored[i], given[i], Slopes(stored), img, rows, cols / 2);
    }
    Recover128(rows, cols, given, pick, Stride(sizes), SCRATCH_WORDS, 1, out, img);
    HoldsDetermines(block, out[..], img, rows, cols / 2);
  }

  lemma SameBinsKept(a: Projection, b: Projection, angles: seq<int>, img: Grid, rows: nat, cols: nat)
    requires HoldsKept(a, angles, img, rows, cols) && a.bins == b.bins && a.angle == b.angle
    ensures HoldsKept(b, angles, img, rows, cols)
  {}

  /** The full projections of a RozoFS layout, with the sizes of the 64-bit transform. */
  ghost predicate FullLayoutEncoder(layout: nat, bsize: nat, stored: seq<Projection>)
    requires layout < LAYOUT_MAX && bsize <= BSIZE_MAX
  {
    && |stored| == Forward(layout) && WellSized(stored) && SeparateBuffers(stored)
    && forall i :: 0 <= i < |stored| ==>
         stored[i].angle == Angle(AngleAt(Forward(layout), i), 1) &&
         stored[i].size == EvenUp(LineCount(Inverse(layout), Columns64(layout, bsize), AngleAt(Forward(layout), i)))
  }

  lemma FullLayoutIsReady(layout: nat, bsize: nat, stored: seq<Projection>, pick: seq<nat>)
    requires layout < LAYOUT_MAX && bsize <= BSIZE_MAX && FullLayoutEncoder(layout, bsize, stored)
    requires |pick| == Inverse(layout) && DistinctPicks(pick, |stored|)
    ensures Encoder(stored) && Columns64(layout, bsize) % 8 == 0
    ensures MaxStart(Slopes(Chosen(Picked(stored, pick), |pick|))) <= Columns64(layout, bsize)
  {
    assert Slopes(stored) == Angles(Forward(layout));
    ColumnsFromBytes(layout, bsize);
    PickedIsSelection(layout, stored, pick);
    EverySelectionFits(layout, bsize, Slopes(Chosen(Picked(stored, pick), |pick|)));
  }

  /** The same promise for the 64-bit transform, for every block size. */
  method StoreAndRecover64(layout: nat, bsize: nat, block: seq<Word>, stored: seq<Projection>, pick: seq<nat>, out: array<Word>)
    requires layout < LAYOUT_MAX && bsize <= BSIZE_MAX
    requires |block| == out.Length == Inverse(layout) * Columns64(layout, bsize)
    requires FullLayoutEncoder(layout, bsize, stored)
    requires |pick| == Inverse(layout) && DistinctPicks(pick, |stored|)
    requires forall i :: 0 <= i < |stored| ==> stored[i].bins != out
    modifies Buffers(stored), out
    ensures out[..] == block
  {
    hide MaxStart, LineCount, Encoder;
    FullLayoutIsReady(layout, bsize, stored, pick);
    RoundTrip64(block, Inverse(layout), Columns64(layout, bsize), stored, pick, out);
  }
}
