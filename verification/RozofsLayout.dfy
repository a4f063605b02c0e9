/** The three layouts of RozoFS and the table that describes them. */
module RozofsLayout {
  import opened MojetteGeometry
  import opened MojetteProjection
  import opened MojetteLayout

  const LAYOUT_MAX := 3
  const BSIZE_8K := 1
  const BSIZE_MAX := 3

  /** Sizes of the three kinds of projection for one block size. */
  datatype BlockSizes = BlockSizes(psizes: seq<int>, psizes128: seq<int>, effective: seq<int>,
                                   psizesMax: int, psizes128Max: int, effectiveMax: int,
                                   bytes: nat, coefficient: real, coefficient128: real)

  datatype LayoutConf = LayoutConf(safe: nat, forward: nat, inverse: nat, angles: seq<Angle>, sizes: seq<BlockSizes>)

  function Forward(layout: nat): nat {
    if layout == 0 then 3 else if layout == 1 then 6 else 12
  }

  function Inverse(layout: nat): nat {
    if layout == 0 then 2 else if layout == 1 then 4 else 8
  }

  function Safe(layout: nat): nat {
    if layout == 0 then 4 else if layout == 1 then 8 else 16
  }

  /** Block size in bytes. */
  function BlockBytes(bsize: nat): nat {
    if bsize == 0 then 4096 else if bsize == 1 then 8192 else if bsize == 2 then 16384 else 32768
  }

  /**
    Every layout stores half as many projections again as it needs and has servers for twice as
    many; it is twice the one before, from 2-3-4 on.  Blocks double too, from 4 kB on.
   */
  lemma LayoutShape(layout: nat, bsize: nat)
    requires layout < LAYOUT_MAX && bsize <= BSIZE_MAX
    ensures Inverse(0) == 2 && (layout + 1 < LAYOUT_MAX ==> Inverse(layout + 1) == 2 * Inverse(layout))
    ensures 2 * Forward(layout) == 3 * Inverse(layout) && Safe(layout) == 2 * Inverse(layout)
    ensures BlockBytes(0) == 4096 && (bsize + 1 <= BSIZE_MAX ==> BlockBytes(bsize + 1) == 2 * BlockBytes(bsize))
  {}

  /** Number of 128-bit columns of a block of 2048 bytes. */
  function BaseColumns(layout: nat): nat {
    if layout == 0 then 64 else if layout == 1 then 32 else 16
  }

  function Columns128(layout: nat, bsize: nat): nat {
    if bsize == 0 then 2 * BaseColumns(layout)
    else if bsize == 1 then 4 * BaseColumns(layout)
    else if bsize == 2 then 8 * BaseColumns(layout)
    else 16 * BaseColumns(layout)
  }

  function Columns64(layout: nat, bsize: nat): nat {
    2 * Columns128(layout, bsize)
  }

  /** The columns as the source computes them from the block size. */
  lemma ColumnsFromBytes(layout: nat, bsize: nat)
    requires layout < LAYOUT_MAX && bsize <= BSIZE_MAX
    ensures BlockBytes(bsize) / 8 / Inverse(layout) == Columns64(layout, bsize)
    ensures BlockBytes(bsize) / 16 / Inverse(layout) == Columns128(layout, bsize)
    ensures Columns64(layout, bsize) % 8 == 0
  {
    if layout == 0 {
      assert Inverse(layout) == 2;
    } else if layout == 1 {
      assert Inverse(layout) == 4;
    } else {
      assert Inverse(layout) == 8;
    }
  }

  /** The hand-written sizes of the 128-bit projections, for blocks of 2048 << t bytes. */
  function SizeRow(layout: nat, t: nat): seq<int> {
    if layout == 0 then
      if t == 0 then [64, 64, 64]
      else if t == 1 then [128, 128, 128]
      else [256, 256, 256]
    else if layout == 1 then
      if t == 0 then [32, 34, 34, 32, 33, 32]
      else if t == 1 then [64, 66, 66, 64, 65, 64]
      else [128, 130, 130, 128, 129, 128]
    else
      if t == 0 then [16, 21, 24, 25, 24, 21, 16, 20, 22, 22, 20, 16]
      else if t == 1 then [32, 37, 40, 41, 40, 37, 32, 36, 38, 38, 36, 32]
      else [64, 69, 72, 73, 72, 69, 64, 68, 70, 70, 68, 64]
  }

  /** Columns of the blocks that row t of the size tables is for. */
  function TableColumns(layout: nat, t: nat): nat {
    if t == 0 then BaseColumns(layout) else if t == 1 then 2 * BaseColumns(layout) else 4 * BaseColumns(layout)
  }

  lemma RowsOfLayout0(t: nat)
    requires t < 3
    ensures SizeRow(0, t) == KeptRow(3, TableColumns(0, t), 0)
  {
    if t == 0 {
      assert KeptRow(3, 64, 0) == [64, 64, 64];
    } else if t == 1 {
      assert KeptRow(3, 128, 0) == [128, 128, 128];
    } else {
      assert KeptRow(3, 256, 0) == [256, 256, 256];
    }
  }

  lemma RowsOfLayout1(t: nat)
    requires t < 3
    ensures SizeRow(1, t) == KeptRow(6, TableColumns(1, t), 0)
  {
    if t == 0 {
      assert KeptRow(6, 32, 0) == [32, 34, 34, 32, 33, 32];
    } else if t == 1 {
      assert KeptRow(6, 64, 0) == [64, 66, 66, 64, 65, 64];
    } else {
      assert KeptRow(6, 128, 0) == [128, 130, 130, 128, 129, 128];
    }
  }

  lemma ExtraBinsOfLayout2()
    ensures ExtraBins(12, 0) == 0 && ExtraBins(12, 1) == 5 && ExtraBins(12, 2) == 8 && ExtraBins(12, 3) == 9
    ensures ExtraBins(12, 4) == 8 && ExtraBins(12, 5) == 5 && ExtraBins(12, 6) == 0 && ExtraBins(12, 7) == 4
    ensures ExtraBins(12, 8) == 6 && ExtraBins(12, 9) == 6 && ExtraBins(12, 10) == 4 && ExtraBins(12, 11) == 0
  {}

  lemma RowOfLayout2(forward: nat, c: int)
    requires forward == 12
    ensures KeptRow(forward, c, 0) == [c, c + 5, c + 8, c + 9, c + 8, c + 5, c, c + 4, c + 6, c + 6, c + 4, c]
  {
    hide KeptRow, ExtraBins;
    var r := KeptRow(forward, c, 0);
    ExtraBinsOfLayout2();
    assert r[0] == c && r[1] == c + 5 && r[2] == c + 8 && r[3] == c + 9;
    assert r[4] == c + 8 && r[5] == c + 5 && r[6] == c && r[7] == c + 4;
    assert r[8] == c + 6 && r[9] == c + 6 && r[10] == c + 4 && r[11] == c;
  }

  /** Every row of the hand-written tables is the row of effective sizes. */
  lemma TableIsEffectiveSize(layout: nat, t: nat)
    requires layout < LAYOUT_MAX && t < 3
    ensures SizeRow(layout, t) == KeptRow(Forward(layout), TableColumns(layout, t), 0)
  {
    if layout == 0 {
      RowsOfLayout0(t);
    } else if layout == 1 {
      RowsOfLayout1(t);
    } else {
      RowOfLayout2(Forward(layout), TableColumns(layout, t));
    }
  }

  /** The next even number: 64-bit projections are padded to whole 128-bit words. */
  function EvenUp(n: int): (r: int)
    ensures r % 2 == 0 && n <= r <= n + 1
  {
    if n % 2 == 0 then n else n + 1
  }

  lemma EvenTest(n: int)
    ensures (n * 8) % 16 != 0 <==> n % 2 != 0
  {
    assert n * 8 == 16 * (n / 2) + 8 * (n % 2);
  }

  ghost predicate IsMax(m: int, s: seq<int>) {
    m in s && forall i :: 0 <= i < |s| ==> s[i] <= m
  }

  /** The running maximum, which starts at 0. */
  ghost predicate MaxSoFar(m: int, s: seq<int>) {
    if s == [] then m == 0 else IsMax(m, s)
  }

  lemma MaxOfMore(m: int, s: seq<int>, x: int)
    requires 0 <= x && MaxSoFar(m, s)
    ensures MaxSoFar(Max(x, m), s + [x])
  {
    var t := s + [x];
    assert t[|s|] == x;
    if s != [] {
      var i :| 0 <= i < |s| && s[i] == m;
      assert t[i] == m;
    }
  }

  /** The sizes of a layout with `forward` angles, `rows` rows and the given columns. */
  ghost predicate GoodSizes(forward: nat, rows: nat, cols64: nat, cols128: nat, optimized: bool, sizes: BlockSizes) {
    && |sizes.psizes| == |sizes.psizes128| == |sizes.effective| == forward
    && (forall i :: 0 <= i < forward ==> sizes.psizes[i] == EvenUp(LineCount(rows, cols64, AngleAt(forward, i))))
    && (forall i :: 0 <= i < forward ==> sizes.psizes128[i] == LineCount(rows, cols128, AngleAt(forward, i)))
    && (forall i :: 0 <= i < forward ==> sizes.effective[i] == if optimized then KeptBins(forward, cols128, i) else 0)
    && IsMax(sizes.psizesMax, sizes.psizes) && IsMax(sizes.psizes128Max, sizes.psizes128)
    && IsMax(sizes.effectiveMax, sizes.effective)
    && sizes.bytes > 0 && sizes.coefficient == Total(sizes.psizes, 8) as real / sizes.bytes as real
    && sizes.coefficient128 == if optimized then Total(sizes.effective, 16) as real / sizes.bytes as real else 0.0
  }

  /** Bytes that the projections of a block take, with a header of 16 and a footer of 8 bytes each. */
  function Total(sizes: seq<int>, word: int): int {
    if sizes == [] then 0 else Total(sizes[..|sizes| - 1], word) + (sizes[|sizes| - 1] * word + 8 + 16)
  }

  function Sum(s: seq<int>): int {
    if s == [] then 0 else s[0] + Sum(s[1..])
  }

  /** All words, and 24 bytes for each projection. */
  lemma {:induction false} TotalIsSum(s: seq<int>, word: int)
    ensures Total(s, word) == word * Sum(s) + 24 * |s|
  {
    if s != [] {
      var n := |s| - 1;
      TotalIsSum(s[..n], word);
      SumOfMore(s[..n], s[n]);
      assert s == s[..n] + [s[n]];
    }
  }

  lemma {:induction false} SumOfMore(s: seq<int>, x: int)
    ensures Sum(s + [x]) == Sum(s) + x
  {
    if s == [] {
      assert s + [x] == [x];
      assert Sum([x][1..]) == 0;
    } else {
      assert (s + [x])[1..] == s[1..] + [x];
      SumOfMore(s[1..], x);
    }
  }

  lemma TotalOfNothing(word: int)
    ensures Total([], word) == 0
  {}

  lemma TotalOfMore(s: seq<int>, x: int, word: int)
    ensures Total(s + [x], word) == Total(s, word) + (x * word + 8 + 16)
  {
    assert (s + [x])[..|s|] == s;
  }

  /** Full sizes of projection i, in 64-bit and in 128-bit words. */
  method FullSizes(forward: nat, rows: nat, cols64: nat, cols128: nat, i: nat) returns (size: int, size128: int)
    ensures size == EvenUp(LineCount(rows, cols64, AngleAt(forward, i)))
    ensures size128 == LineCount(rows, cols128, AngleAt(forward, i))
  {
    var distance := Abs(i - forward / 2);
    var shift := distance * (rows - 1);
    assert shift == Times(rows - 1, Abs(AngleAt(forward, i))) by {
      TimesIsProduct(rows - 1, distance);
    }
    size := shift + (cols64 - 1) + 1;
    size128 := shift + (cols128 - 1) + 1;
    EvenTest(size);
    if (size * 8) % 16 != 0 {
      size := size + 1;
    }
  }

  /** One pass over the projections of a layout; `kept` is the row of the size table, if there is one. */
  method ComputeSizes(forward: nat, rows: nat, cols64: nat, cols128: nat, optimized: bool, kept: seq<int>, bytes: nat)
    returns (sizes: BlockSizes)
    requires 1 <= forward && 1 <= rows && bytes > 0
    requires optimized ==> kept == KeptRow(forward, cols128, 0)
    ensures GoodSizes(forward, rows, cols64, cols128, optimized, sizes) && sizes.bytes == bytes
  {
    hide LineCount, KeptBins, Total;
    var ps, ps128, eff: seq<int> := [], [], [];
    var psMax, ps128Max, effMax := 0, 0, 0;
    var sum, sum128 := 0, 0;
    TotalOfNothing(8);
    TotalOfNothing(16);
    for i := 0 to forward
      invariant |ps| == |ps128| == |eff| == i
      invariant forall j :: 0 <= j < i ==> ps[j] == EvenUp(LineCount(rows, cols64, AngleAt(forward, j)))
      invariant forall j :: 0 <= j < i ==> ps128[j] == LineCount(rows, cols128, AngleAt(forward, j))
      invariant forall j :: 0 <= j < i ==> eff[j] == if optimized then KeptBins(forward, cols128, j) else 0
      invariant MaxSoFar(psMax, ps) && MaxSoFar(ps128Max, ps128) && MaxSoFar(effMax, eff)
      invariant sum == Total(ps, 8) && sum128 == if optimized then Total(eff, 16) else 0
    {
      var size, size128 := FullSizes(forward, rows, cols64, cols128, i);
      var keep := if optimized then kept[i] else 0;
      SizesPositive(forward, rows, cols64, cols128, i);
      MaxOfMore(psMax, ps, size);
      MaxOfMore(ps128Max, ps128, size128);
      MaxOfMore(effMax, eff, keep);
      TotalOfMore(ps, size, 8);
      TotalOfMore(eff, keep, 16);
      sum := sum + (size * 8 + 8 + 16);
      if optimized {
        sum128 := sum128 + (keep * 16 + 8 + 16);
      }
      ps, psMax := ps + [size], Max(size, psMax);
      ps128, ps128Max := ps128 + [size128], Max(size128, ps128Max);
      eff, effMax := eff + [keep], Max(keep, effMax);
    }
    sizes := BlockSizes(ps, ps128, eff, psMax, ps128Max, effMax, bytes, sum as real / bytes as real, sum128 as real / bytes as real);
  }

  lemma SizesPositive(forward: nat, rows: nat, cols64: nat, cols128: nat, i: nat)
    requires i < forward && 1 <= rows
    ensures LineCount(rows, cols64, AngleAt(forward, i)) >= 0
    ensures LineCount(rows, cols128, AngleAt(forward, i)) >= 0
    ensures KeptBins(forward, cols128, i) >= 0
  {
    var p := AngleAt(forward, i);
    TimesMonotone(0, rows - 1, Abs(p));
    TimesMonotone(0, if p < 0 then i else forward - 1 - i, Abs(p));
  }

  ghost predicate GoodLayout(layout: nat, conf: LayoutConf) {
    && conf.safe == Safe(layout) && conf.forward == Forward(layout) && conf.inverse == Inverse(layout)
    && |conf.angles| == Forward(layout)
    && (forall i :: 0 <= i < |conf.angles| ==> conf.angles[i] == Angle(AngleAt(Forward(layout), i), 1))
    && |conf.sizes| == BSIZE_MAX + 1
    && forall bsize :: 0 <= bsize <= BSIZE_MAX ==>
         GoodSizes(Forward(layout), Inverse(layout), Columns64(layout, bsize), Columns128(layout, bsize),
                   bsize <= BSIZE_8K, conf.sizes[bsize]) && conf.sizes[bsize].bytes == BlockBytes(bsize)
  }

  /** One layout: its angles, then its sizes for every block size. */
  method InitializeLayout(layout: nat) returns (conf: LayoutConf)
    requires layout < LAYOUT_MAX
    ensures GoodLayout(layout, conf)
  {
    var forward, rows := Forward(layout), Inverse(layout);
    var angles := [];
    for i := 0 to forward
      invariant |angles| == i && forall j :: 0 <= j < i ==> angles[j] == Angle(AngleAt(forward, j), 1)
    {
      angles := angles + [Angle(i - forward / 2, 1)];
    }
    var sizes := [];
    for bsize := 0 to BSIZE_MAX + 1
      invariant |sizes| == bsize
      invariant forall b :: 0 <= b < bsize ==>
                  GoodSizes(forward, rows, Columns64(layout, b), Columns128(layout, b), b <= BSIZE_8K, sizes[b]) && sizes[b].bytes == BlockBytes(b)
    {
      ColumnsFromBytes(layout, bsize);
      var cols64, cols128 := BlockBytes(bsize) / 8 / rows, BlockBytes(bsize) / 16 / rows;
      var kept := [];
      if bsize <= BSIZE_8K {
        TableIsEffectiveSize(layout, bsize + 1);
        kept := SizeRow(layout, bsize + 1);
      }
      var s := ComputeSizes(forward, rows, cols64, cols128, bsize <= BSIZE_8K, kept, BlockBytes(bsize));
      sizes := sizes + [s];
    }
    conf := LayoutConf(Safe(layout), forward, rows, angles, sizes);
  }

  /** rozofs_layout_initialize: the table of all layouts. */
  method LayoutInitialize() returns (table: seq<LayoutConf>)
    ensures |table| == LAYOUT_MAX && forall layout :: 0 <= layout < LAYOUT_MAX ==> GoodLayout(layout, table[layout])
  {
    table := [];
    for layout := 0 to LAYOUT_MAX
      invariant |table| == layout && forall l :: 0 <= l < layout ==> GoodLayout(l, table[l])
    {
      var conf := InitializeLayout(layout);
      table := table + [conf];
    }
  }

  // ------------------------------------------------- every selection can be decoded

  /** Any `Inverse(layout)` angles of a layout, in the order left by the sort. */
  ghost predicate Selection(layout: nat, ps: seq<int>) {
    && |ps| == Inverse(layout) && Descending(ps)
    && forall i :: 0 <= i < |ps| ==> ps[i] in Angles(Forward(layout))
  }

  /** Blocks of 4 kB and more have enough columns for every selection, in both word sizes. */
  lemma EverySelectionFits(layout: nat, bsize: nat, ps: seq<int>)
    requires layout < LAYOUT_MAX && bsize <= BSIZE_MAX && Selection(layout, ps)
    ensures MaxStart(ps) + 2 <= Columns128(layout, bsize) <= Columns64(layout, bsize)
  {
    var forward := Forward(layout);
    var lo, hi := AngleAt(forward, 0), AngleAt(forward, forward - 1);
    forall i | 0 <= i < |ps| ensures lo <= ps[i] <= hi {
      var j :| 0 <= j < forward && Angles(forward)[j] == ps[i];
    }
    MaxStartBound(ps, lo, hi);
    assert Triangle(1) == 1 && Triangle(3) == 6 && Triangle(6) == 21;
    assert Triangle(0) == 0 && Triangle(4) == 10;
  }

  /** The 2048-byte row of layout 8-12-16, which no block size selects, would be too narrow. */
  lemma SmallestTableTooNarrow()
    ensures Selection(2, Window(1, 8)) && MaxStart(Window(1, 8)) == 21 > TableColumns(2, 0)
  {
    hide MaxStart;
    var ps := Window(1, 8);
    forall i | 0 <= i < 8 ensures ps[i] in Angles(12) {
      assert Angles(12)[ps[i] + 6] == ps[i];
    }
    MaxStartValue(ps);
    SumsOfWindow(ps);
  }

  lemma SumsOfWindow(ps: seq<int>)
    requires ps == Window(1, 8)
    ensures NegSum(ps, 1, 8) == 21 && PosSum(ps, 1, 8) == 0
  {
    assert NegSum(ps, 1, 4) == 3 && PosSum(ps, 1, 4) == 0;
  }

  // ------------------------------------------------------- the scratch of the decoder

  /** Words from one copy to the next: the callers pass the largest effective size, the decoder adds 512 bytes. */
  function Stride(sizes: BlockSizes): int {
    sizes.effectiveMax + 32
  }

  /** The 18 kB of scratch, less at most 64 bytes for the alignment, in 128-bit words. */
  const SCRATCH_WORDS := (1024 * 18 - 64) / 16

  /** The largest effective size on top of the columns. */
  function LargestExtra(layout: nat): nat {
    if layout == 0 then 0 else if layout == 1 then 2 else 9
  }

  lemma SizeRowMax(layout: nat, bsize: nat, m: int)
    requires layout < LAYOUT_MAX && bsize <= BSIZE_8K && IsMax(m, SizeRow(layout, bsize + 1))
    ensures m == Columns128(layout, bsize) + LargestExtra(layout)
  {
    var s := SizeRow(layout, bsize + 1);
    if layout == 0 {
      assert s[0] <= m;
    } else if layout == 1 {
      assert s[1] <= m;
    } else {
      assert s[3] <= m;
    }
  }

  /** The stride that the table gives. */
  lemma StrideOfLayout(layout: nat, bsize: nat, sizes: BlockSizes)
    requires layout < LAYOUT_MAX && bsize <= BSIZE_8K
    requires GoodSizes(Forward(layout), Inverse(layout), Columns64(layout, bsize), Columns128(layout, bsize), true, sizes)
    ensures Stride(sizes) == Columns128(layout, bsize) + LargestExtra(layout) + 32
  {
    hide KeptRow, SizeRow, LineCount;
    TableIsEffectiveSize(layout, bsize + 1);
    assert sizes.effective == KeptRow(Forward(layout), Columns128(layout, bsize), 0);
    SizeRowMax(layout, bsize, sizes.effectiveMax);
  }

  /** How much longer than the columns the projection of angle i is. */
  lemma FullExtra(layout: nat, i: int)
    requires layout < LAYOUT_MAX && 0 <= i < Forward(layout)
    ensures Times(Inverse(layout) - 1, Abs(AngleAt(Forward(layout), i))) <= if layout == 0 then 1 else if layout == 1 then 9 else 42
  {
    TimesIsProduct(Inverse(layout) - 1, Abs(AngleAt(Forward(layout), i)));
  }

  /**
    No projection of a layout runs over by more than one word, and all copies fit into the
    scratch buffer, even when twice their effective size is copied.
   */
  lemma ScratchSuffices(layout: nat, bsize: nat, sizes: BlockSizes, i: int)
    requires layout < LAYOUT_MAX && bsize <= BSIZE_8K && 0 <= i < Forward(layout)
    requires GoodSizes(Forward(layout), Inverse(layout), Columns64(layout, bsize), Columns128(layout, bsize), true, sizes)
    ensures var length := LineCount(Inverse(layout), Columns128(layout, bsize), AngleAt(Forward(layout), i));
            && length <= Stride(sizes) + 1 && sizes.effective[i] <= Stride(sizes) && 1 <= Stride(sizes)
            && Times(Inverse(layout) - 1, Stride(sizes)) + length <= SCRATCH_WORDS
            && Times(Inverse(layout) - 1, Stride(sizes)) + 2 * sizes.effective[i] <= SCRATCH_WORDS
  {
    StrideOfLayout(layout, bsize, sizes);
    EffectiveBelow(layout, bsize, sizes, i);
    hide GoodSizes, Times;
    FullExtra(layout, i);
    TimesIsProduct(Inverse(layout) - 1, Stride(sizes));
    ScratchArithmetic(layout, bsize, Stride(sizes));
  }

  lemma EffectiveBelow(layout: nat, bsize: nat, sizes: BlockSizes, i: int)
    requires layout < LAYOUT_MAX && bsize <= BSIZE_8K && 0 <= i < Forward(layout)
    requires GoodSizes(Forward(layout), Inverse(layout), Columns64(layout, bsize), Columns128(layout, bsize), true, sizes)
    ensures |sizes.effective| == Forward(layout) && sizes.effective[i] <= sizes.effectiveMax
  {}

  lemma ScratchArithmetic(layout: nat, bsize: nat, stride: int)
    requires layout < LAYOUT_MAX && bsize <= BSIZE_8K && stride == Columns128(layout, bsize) + LargestExtra(layout) + 32
    ensures (Inverse(layout) - 1) * stride + Columns128(layout, bsize) + (if layout == 0 then 1 else if layout == 1 then 9 else 42) <= SCRATCH_WORDS
    ensures (Inverse(layout) - 1) * stride + 2 * (stride - 32) <= SCRATCH_WORDS
  {
    if layout == 0 {
    } else if layout == 1 {
    } else {
    }
  }

  /** In layout 8-12-16 the copy of angle -6 does run over, by exactly one word. */
  lemma StridesOverlap(bsize: nat, sizes: BlockSizes)
    requires bsize <= BSIZE_8K
    requires GoodSizes(Forward(2), Inverse(2), Columns64(2, bsize), Columns128(2, bsize), true, sizes)
    ensures LineCount(Inverse(2), Columns128(2, bsize), AngleAt(Forward(2), 0)) == Stride(sizes) + 1
  {
    StrideOfLayout(2, bsize, sizes);
    TimesIsProduct(7, 6);
  }
}
