/** The forward transforms: the 64-bit ones and the clipped 128-bit ones. */
module MojetteForward {
  import opened MojetteGeometry
  import opened MojetteLines
  import opened MojetteProjection

  /** Size of the offset buffer that the forward transforms keep on the stack. */
  const MAX_PROJECTIONS := 1024

  /** The first `size` bins are the projection of the image, whatever lies behind them. */
  ghost predicate Projects(bins: seq<Word>, size: int, img: Grid, rows: nat, cols: nat, p: int)
    requires size <= |bins|
  {
    Sums(bins, size, img, AllPixels(rows, cols), rows, p)
  }

  method ClearBins(bins: array<Word>, size: nat)
    requires size <= bins.Length
    modifies bins
    ensures forall b :: 0 <= b < size ==> bins[b] == ZERO
    ensures forall b :: size <= b < bins.Length ==> bins[b] == old(bins[b])
  {
    for len := 0 to size
      invariant forall b :: 0 <= b < len ==> bins[b] == ZERO
      invariant forall b :: len <= b < bins.Length ==> bins[b] == old(bins[b])
    {
      bins[len] := ZERO;
    }
  }

  /** State of a forward transform that has added the pixels before (l, c) in row-major order. */
  ghost predicate Partial(bins: seq<Word>, size: nat, img: Grid, rows: nat, cols: nat, p: int, l: int, c: int) {
    && size <= |bins|
    && Sums(bins, size, img, Raster(rows, cols, l, c), rows, p)
  }

  /** One statement `pbin[j] ^= ppix[j]`, for the pixel (l, c). */
  method XorPixel(support: seq<Word>, bins: array<Word>, pbin: int, ppix: int,
                  ghost img: Grid, ghost rows: nat, ghost cols: nat, ghost p: int, ghost l: int, ghost c: int, ghost size: nat)
    requires Holds(support, img, rows, cols)
    requires Partial(bins[..], size, img, rows, cols, p, l, c)
    requires InImage(rows, cols, l, c) && ppix == Flat(cols, l, c)
    requires 0 <= pbin == Bin(rows, p, l, c) < size
    modifies bins
    ensures Partial(bins[..], size, img, rows, cols, p, l, c + 1)
    ensures bins[size..] == old(bins[size..])
  {
    RasterStep(rows, cols, l, c);
    SumsAdd(bins[..], size, img, Raster(rows, cols, l, c), rows, p, l, c);
    ghost var before := bins[..];
    assert (l, c) in img;
    bins[pbin] := Xor(bins[pbin], support[ppix]);
    assert bins[..] == before[pbin := Xor(before[pbin], img[(l, c)])];
  }

  /** Half of the eight statements of the unrolled loop body. */
  method XorFour(support: seq<Word>, bins: array<Word>, pbin: int, ppix: int,
                 ghost img: Grid, ghost rows: nat, ghost cols: nat, ghost p: int, ghost l: int, ghost c: int, ghost size: nat)
    requires Holds(support, img, rows, cols)
    requires Partial(bins[..], size, img, rows, cols, p, l, c)
    requires InImage(rows, cols, l, c) && c + 4 <= cols && ppix == Flat(cols, l, c)
    requires 0 <= pbin == Bin(rows, p, l, c) <= size - 4
    modifies bins
    ensures Partial(bins[..], size, img, rows, cols, p, l, c + 4)
    ensures bins[size..] == old(bins[size..])
  {
    XorPixel(support, bins, pbin + 0, ppix + 0, img, rows, cols, p, l, c + 0, size);
    XorPixel(support, bins, pbin + 1, ppix + 1, img, rows, cols, p, l, c + 1, size);
    XorPixel(support, bins, pbin + 2, ppix + 2, img, rows, cols, p, l, c + 2, size);
    XorPixel(support, bins, pbin + 3, ppix + 3, img, rows, cols, p, l, c + 3, size);
  }

  /** The unrolled loop body. */
  method XorEight(support: seq<Word>, bins: array<Word>, pbin: int, ppix: int,
                  ghost img: Grid, ghost rows: nat, ghost cols: nat, ghost p: int, ghost l: int, ghost c: int, ghost size: nat)
    requires Holds(support, img, rows, cols)
    requires Partial(bins[..], size, img, rows, cols, p, l, c)
    requires InImage(rows, cols, l, c) && c + 8 <= cols && ppix == Flat(cols, l, c)
    requires 0 <= pbin == Bin(rows, p, l, c) <= size - 8
    modifies bins
    ensures Partial(bins[..], size, img, rows, cols, p, l, c + 8)
    ensures bins[size..] == old(bins[size..])
  {
    XorFour(support, bins, pbin, ppix, img, rows, cols, p, l, c, size);
    XorFour(support, bins, pbin + 4, ppix + 4, img, rows, cols, p, l, c + 4, size);
  }

  /** The unrolled loop: the first 8 * groups pixels of row l. */
  method XorGroups(support: seq<Word>, bins: array<Word>, rows: nat, cols: nat, p: int, offset: int, l: nat, groups: nat, size: nat,
                   ghost img: Grid)
    requires Holds(support, img, rows, cols)
    requires Partial(bins[..], size, img, rows, cols, p, l, 0)
    requires l < rows && 8 * groups <= cols && offset == Offset(rows, p)
    requires groups > 0 ==> Times(l, p) - offset + 8 * groups <= size
    modifies bins
    ensures Partial(bins[..], size, img, rows, cols, p, l, 8 * groups)
    ensures bins[size..] == old(bins[size..])
  {
    TimesIsProduct(l, p);
    TimesIsProduct(l, cols);
    var pbin, ppix := l * p - offset, l * cols;
    RowShift(rows, p, l);
    var k := groups;
    while k > 0
      invariant 0 <= k <= groups
      invariant pbin == Bin(rows, p, l, 8 * (groups - k)) && ppix == Flat(cols, l, 8 * (groups - k))
      invariant Partial(bins[..], size, img, rows, cols, p, l, 8 * (groups - k))
      invariant bins[size..] == old(bins[size..])
    {
      XorEight(support, bins, pbin, ppix, img, rows, cols, p, l, 8 * (groups - k), size);
      pbin, ppix := pbin + 8, ppix + 8;
      k := k - 1;
    }
  }

  // ------------------------------------------------------------ 64-bit transforms

  ghost predicate WellSized(projections: seq<Projection>) {
    forall i :: 0 <= i < |projections| ==> projections[i].size <= projections[i].bins.Length
  }

  ghost predicate SeparateBuffers(projections: seq<Projection>) {
    forall i, j :: 0 <= i < j < |projections| ==> projections[i].bins != projections[j].bins
  }

  ghost predicate Cleared(proj: Projection)
    requires proj.size <= proj.bins.Length
    reads proj.bins
  {
    forall b :: 0 <= b < proj.size ==> proj.bins[b] == ZERO
  }

  ghost predicate Projected(proj: Projection, img: Grid, rows: nat, cols: nat)
    requires proj.size <= proj.bins.Length
    reads proj.bins
  {
    Projects(proj.bins[..], proj.size, img, rows, cols, proj.angle.p)
  }

  /** The words behind the kept bins. */
  ghost function Tail(proj: Projection): seq<Word>
    requires proj.size <= proj.bins.Length
    reads proj.bins
  {
    proj.bins[proj.size..]
  }

  /** The offset expression of the source. */
  method OffsetOf(rows: nat, p: int) returns (offset: int)
    ensures offset == Offset(rows, p)
  {
    TimesIsProduct(rows - 1, p);
    offset := if p < 0 then (rows - 1) * p else 0;
  }

  /** First loop of the forward transforms: offsets and cleared bins. */
  method Prepare(rows: nat, projections: seq<Projection>) returns (offsets: seq<int>)
    requires |projections| <= MAX_PROJECTIONS && WellSized(projections) && SeparateBuffers(projections)
    modifies Buffers(projections)
    ensures |offsets| == |projections|
    ensures forall i :: 0 <= i < |projections| ==> offsets[i] == Offset(rows, projections[i].angle.p)
    ensures forall i :: 0 <= i < |projections| ==> Cleared(projections[i])
    ensures forall i :: 0 <= i < |projections| ==> Tail(projections[i]) == old(Tail(projections[i]))
  {
    offsets := [];
    for i := 0 to |projections|
      invariant |offsets| == i
      invariant forall j :: 0 <= j < i ==> offsets[j] == Offset(rows, projections[j].angle.p)
      invariant forall j :: 0 <= j < i ==> Cleared(projections[j])
      invariant forall j :: 0 <= j < |projections| ==> Tail(projections[j]) == old(Tail(projections[j]))
    {
      var offset := OffsetOf(rows, projections[i].angle.p);
      offsets := offsets + [offset];
      ClearBins(projections[i].bins, projections[i].size);
    }
  }

  /** One projection of the 64-bit transform; the bins have been cleared. */
  method Accumulate(support: seq<Word>, rows: nat, cols: nat, proj: Projection, offset: int, ghost img: Grid)
    requires Holds(support, img, rows, cols) && cols % 8 == 0 && offset == Offset(rows, proj.angle.p)
    requires LineCount(rows, cols, proj.angle.p) <= proj.size <= proj.bins.Length && Cleared(proj)
    modifies proj.bins
    ensures Projected(proj, img, rows, cols)
    ensures Tail(proj) == old(Tail(proj))
  {
    var p, bins, size := proj.angle.p, proj.bins, proj.size;
    SumsOfNothing(bins[..], size, img, rows, p);
    RasterRow(rows, cols, 0);
    for l := 0 to rows
      invariant Partial(bins[..], size, img, rows, cols, p, l, 0)
      invariant bins[size..] == old(bins[size..])
    {
      RowShift(rows, p, l);
      XorGroups(support, bins, rows, cols, p, offset, l, cols / 8, size, img);
      RasterRow(rows, cols, l);
    }
    RasterRow(rows, cols, 0);
  }

  method TransformForward(support: seq<Word>, rows: nat, cols: nat, projections: seq<Projection>, ghost img: Grid)
    requires Holds(support, img, rows, cols) && cols % 8 == 0
    requires |projections| <= MAX_PROJECTIONS && WellSized(projections) && SeparateBuffers(projections)
    requires forall i :: 0 <= i < |projections| ==> LineCount(rows, cols, projections[i].angle.p) <= projections[i].size
    modifies Buffers(projections)
    ensures forall i :: 0 <= i < |projections| ==> Projected(projections[i], img, rows, cols)
    ensures forall i :: 0 <= i < |projections| ==> Tail(projections[i]) == old(Tail(projections[i]))
  {
    hide Projected, Cleared, Tail, Holds, LineCount;
    var offsets := Prepare(rows, projections);
    for i := 0 to |projections|
      invariant forall j :: 0 <= j < i ==> Projected(projections[j], img, rows, cols)
      invariant forall j :: i <= j < |projections| ==> Cleared(projections[j])
      invariant forall j :: 0 <= j < |projections| ==> Tail(projections[j]) == old(Tail(projections[j]))
    {
      Accumulate(support, rows, cols, projections[i], offsets[i], img);
    }
  }

  method TransformForwardOne(support: seq<Word>, rows: nat, cols: nat, projId: nat, projections: seq<Projection>, ghost img: Grid)
    requires Holds(support, img, rows, cols) && cols % 8 == 0
    requires projId < |projections|
    requires LineCount(rows, cols, projections[projId].angle.p) <= projections[projId].size <= projections[projId].bins.Length
    modifies projections[projId].bins
    ensures Projected(projections[projId], img, rows, cols)
    ensures Tail(projections[projId]) == old(Tail(projections[projId]))
  {
    var offset := OffsetOf(rows, projections[projId].angle.p);
    ClearBins(projections[projId].bins, projections[projId].size);
    Accumulate(support, rows, cols, projections[projId], offset, img);
  }

  // ----------------------------------------------------------- 128-bit transforms

  /** Integer division and remainder of C, which truncate towards zero. */
  function TruncDiv(a: int, b: int): int
    requires b > 0
  {
    if a >= 0 then a / b else -((-a) / b)
  }

  function TruncMod(a: int, b: int): int
    requires b > 0
  {
    a - b * TruncDiv(a, b)
  }

  /** Pixels whose bins are cut off need no work. */
  lemma {:induction false} PartialSkip(bins: seq<Word>, size: nat, img: Grid, rows: nat, cols: nat, p: int, l: int, c: int)
    requires forall l, c :: (l, c) in img <==> InImage(rows, cols, l, c)
    requires Partial(bins, size, img, rows, cols, p, l, c)
    requires 0 <= l < rows && 0 <= c <= cols && Bin(rows, p, l, c) >= size
    ensures Partial(bins, size, img, rows, cols, p, l, cols)
    decreases cols - c
  {
    if c < cols {
      RasterStep(rows, cols, l, c);
      SumsSkip(bins, size, img, Raster(rows, cols, l, c), rows, p, l, c);
      PartialSkip(bins, size, img, rows, cols, p, l, c + 1);
    }
  }

  /** Row l of a truncated projection: groups of eight, then the remainder, then stop at the last kept bin. */
  method XorClippedRow(support: seq<Word>, bins: array<Word>, rows: nat, cols: nat, p: int, offset: int, l: nat, size: nat,
                       ghost img: Grid)
    requires Holds(support, img, rows, cols) && l < rows && offset == Offset(rows, p)
    requires Partial(bins[..], size, img, rows, cols, p, l, 0)
    modifies bins
    ensures Partial(bins[..], size, img, rows, cols, p, l, cols)
    ensures bins[size..] == old(bins[size..])
  {
    TimesIsProduct(l, p);
    TimesIsProduct(l, cols);
    var start := l * p - offset;
    RowShift(rows, p, l);
    var loop := size - start;
    if loop > cols {
      loop := cols;
    }
    var groups := TruncDiv(loop, 8);
    if groups > 0 {
      XorGroups(support, bins, rows, cols, p, offset, l, groups, size, img);
    } else {
      groups := 0;
    }
    var c := 8 * groups;
    var k := TruncMod(loop, 8);
    while k > 0
      invariant loop >= 0 ==> 0 <= k && c + k == loop
      invariant loop < 0 ==> c == 0 && k <= 0
      invariant Partial(bins[..], size, img, rows, cols, p, l, c)
      invariant bins[size..] == old(bins[size..])
    {
      XorPixel(support, bins, start + c, l * cols + c, img, rows, cols, p, l, c, size);
      c := c + 1;
      k := k - 1;
    }
    if c < cols {
      PartialSkip(bins[..], size, img, rows, cols, p, l, c);
    }
  }

  method AccumulateClipped(support: seq<Word>, rows: nat, cols: nat, proj: Projection, offset: int, ghost img: Grid)
    requires Holds(support, img, rows, cols) && offset == Offset(rows, proj.angle.p)
    requires proj.size <= proj.bins.Length && Cleared(proj)
    modifies proj.bins
    ensures Projected(proj, img, rows, cols)
    ensures Tail(proj) == old(Tail(proj))
  {
    var p, bins, size := proj.angle.p, proj.bins, proj.size;
    SumsOfNothing(bins[..], size, img, rows, p);
    RasterRow(rows, cols, 0);
    for l := 0 to rows
      invariant Partial(bins[..], size, img, rows, cols, p, l, 0)
      invariant bins[size..] == old(bins[size..])
    {
      XorClippedRow(support, bins, rows, cols, p, offset, l, size, img);
      RasterRow(rows, cols, l);
    }
    RasterRow(rows, cols, 0);
  }

  /** `cols` counts 64-bit columns, as for the 64-bit transform; the support holds 128-bit words. */
  method Transform128Forward(support: seq<Word>, rows: nat, cols: nat, projections: seq<Projection>, ghost img: Grid)
    requires Holds(support, img, rows, cols / 2)
    requires |projections| <= MAX_PROJECTIONS && WellSized(projections) && SeparateBuffers(projections)
    modifies Buffers(projections)
    ensures forall i :: 0 <= i < |projections| ==>
              Projected(projections[i], img, rows, cols / 2)
    ensures forall i :: 0 <= i < |projections| ==> Tail(projections[i]) == old(Tail(projections[i]))
  {
    hide Projected, Cleared, Tail, Holds, LineCount;
    var cols2 := cols / 2;
    var offsets := Prepare(rows, projections);
    for i := 0 to |projections|
      invariant forall j :: 0 <= j < i ==> Projected(projections[j], img, rows, cols2)
      invariant forall j :: i <= j < |projections| ==> Cleared(projections[j])
      invariant forall j :: 0 <= j < |projections| ==> Tail(projections[j]) == old(Tail(projections[j]))
    {
      AccumulateClipped(support, rows, cols2, projections[i], offsets[i], img);
    }
  }

  method Transform128ForwardOne(support: seq<Word>, rows: nat, cols: nat, projId: nat, projections: seq<Projection>, ghost img: Grid)
    requires Holds(support, img, rows, cols / 2)
    requires projId < |projections| && projections[projId].size <= projections[projId].bins.Length
    modifies projections[projId].bins
    ensures Projected(projections[projId], img, rows, cols / 2)
    ensures Tail(projections[projId]) == old(Tail(projections[projId]))
  {
    var offset := OffsetOf(rows, projections[projId].angle.p);
    ClearBins(projections[projId].bins, projections[projId].size);
    AccumulateClipped(support, rows, cols / 2, projections[projId], offset, img);
  }
}
