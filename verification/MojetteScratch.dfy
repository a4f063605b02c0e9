/**
  The 128-bit inverse transform that works on copies.  The copies lie one after the
  other in a single scratch buffer, `stride` words apart.  A copy may be longer than
  the stride: writes past it land in the next copy.
 */
module MojetteScratch {
  import opened MojetteGeometry
  import opened MojetteLines
  import opened MojetteProjection
  import opened MojetteForward
  import opened MojetteInverse
  import opened Mojette128

  // -------------------------------------------------------------------- the copies

  /** A copied projection: where its bins start in the scratch buffer. */
  datatype Copy = Copy(angle: Angle, base: nat)

  function InsertCopy(x: Copy, s: seq<Copy>): (r: seq<Copy>)
    ensures |r| == |s| + 1
  {
    if s == [] || CompareAngles(x.angle, s[0].angle) <= 0 then [x] + s else [s[0]] + InsertCopy(x, s[1..])
  }

  /** The sort by slope again, on the copies. */
  function SortCopies(s: seq<Copy>): (r: seq<Copy>)
    ensures |r| == |s|
  {
    if s == [] then [] else InsertCopy(s[0], SortCopies(s[1..]))
  }

  ghost predicate SameAngles(given: seq<Projection>, copies: seq<Copy>) {
    |given| == |copies| && forall i :: 0 <= i < |given| ==> given[i].angle == copies[i].angle
  }

  /** p and x stand at the same place of the two lists. */
  ghost predicate Paired(given: seq<Projection>, copies: seq<Copy>, p: Projection, x: Copy) {
    exists j :: 0 <= j < |given| && j < |copies| && given[j] == p && copies[j] == x
  }

  lemma PairedMore(p: Projection, x: Copy, ps: seq<Projection>, xs: seq<Copy>, q: Projection, y: Copy)
    requires Paired(ps, xs, q, y)
    ensures Paired([p] + ps, [x] + xs, q, y)
  {
    var j :| 0 <= j < |ps| && j < |xs| && ps[j] == q && xs[j] == y;
    assert ([p] + ps)[j + 1] == q && ([x] + xs)[j + 1] == y;
  }

  lemma {:induction false} InsertLockstep(p: Projection, x: Copy, ps: seq<Projection>, xs: seq<Copy>)
    requires p.angle == x.angle && SameAngles(ps, xs)
    ensures SameAngles(Insert(p, ps), InsertCopy(x, xs))
    ensures forall i :: 0 <= i < |ps| + 1 ==> Paired([p] + ps, [x] + xs, Insert(p, ps)[i], InsertCopy(x, xs)[i])
  {
    if ps == [] || CompareSlope(p, ps[0]) <= 0 {
      forall i | 0 <= i < |ps| + 1 ensures Paired([p] + ps, [x] + xs, Insert(p, ps)[i], InsertCopy(x, xs)[i]) {
        assert ([p] + ps)[i] == Insert(p, ps)[i] && ([x] + xs)[i] == InsertCopy(x, xs)[i];
      }
    } else {
      InsertLockstep(p, x, ps[1..], xs[1..]);
      forall i | 0 <= i < |ps| + 1 ensures Paired([p] + ps, [x] + xs, Insert(p, ps)[i], InsertCopy(x, xs)[i]) {
        if i == 0 {
          assert ([p] + ps)[1] == ps[0] && ([x] + xs)[1] == xs[0];
        } else {
          InsertedLater(p, x, ps, xs, Insert(p, ps[1..])[i - 1], InsertCopy(x, xs[1..])[i - 1]);
        }
      }
    }
  }

  lemma InsertedLater(p: Projection, x: Copy, ps: seq<Projection>, xs: seq<Copy>, q: Projection, y: Copy)
    requires |ps| == |xs| >= 1 && Paired([p] + ps[1..], [x] + xs[1..], q, y)
    ensures Paired([p] + ps, [x] + xs, q, y)
  {
    var a, b := [p] + ps[1..], [x] + xs[1..];
    var j :| 0 <= j < |a| && j < |b| && a[j] == q && b[j] == y;
    var k := if j == 0 then 0 else j + 1;
    assert ([p] + ps)[k] == q && ([x] + xs)[k] == y;
  }

  /** Sorting the copies moves them as sorting the originals moves those. */
  lemma {:induction false} SortLockstep(given: seq<Projection>, copies: seq<Copy>)
    requires SameAngles(given, copies)
    ensures SameAngles(SortBySlope(given), SortCopies(copies))
    ensures forall i :: 0 <= i < |given| ==> Paired(given, copies, SortBySlope(given)[i], SortCopies(copies)[i])
  {
    if given != [] {
      var ps, xs := SortBySlope(given[1..]), SortCopies(copies[1..]);
      SortLockstep(given[1..], copies[1..]);
      InsertLockstep(given[0], copies[0], ps, xs);
      forall i | 0 <= i < |given| ensures Paired(given, copies, SortBySlope(given)[i], SortCopies(copies)[i]) {
        SortedPair(given, copies, ps, xs, SortBySlope(given)[i], SortCopies(copies)[i]);
      }
    }
  }

  lemma SortedPair(given: seq<Projection>, copies: seq<Copy>, ps: seq<Projection>, xs: seq<Copy>, q: Projection, y: Copy)
    requires |given| == |copies| >= 1 && |ps| == |xs| == |given| - 1
    requires forall i :: 0 <= i < |ps| ==> Paired(given[1..], copies[1..], ps[i], xs[i])
    requires Paired([given[0]] + ps, [copies[0]] + xs, q, y)
    ensures Paired(given, copies, q, y)
  {
    var j :| 0 <= j < |ps| + 1 && ([given[0]] + ps)[j] == q && ([copies[0]] + xs)[j] == y;
    if j > 0 {
      assert Paired(given[1..], copies[1..], ps[j - 1], xs[j - 1]);
      PairedMore(given[0], copies[0], given[1..], copies[1..], q, y);
      assert [given[0]] + given[1..] == given && [copies[0]] + copies[1..] == copies;
    }
  }

  /** memcpy of the bins into the scratch buffer. */
  method CopyBins(src: array<Word>, size: nat, scratch: array<Word>, base: nat)
    requires size <= src.Length && base + size <= scratch.Length && src != scratch
    modifies scratch
    ensures forall b :: 0 <= b < size ==> scratch[base + b] == src[b]
    ensures forall j :: 0 <= j < scratch.Length && !(base <= j < base + size) ==> scratch[j] == old(scratch[j])
  {
    for b := 0 to size
      invariant forall j :: base <= j < base + b ==> scratch[j] == src[j - base]
      invariant forall j :: 0 <= j < scratch.Length && !(base <= j < base + b) ==> scratch[j] == old(scratch[j])
    {
      scratch[base + b] := src[b];
    }
  }

  /** The words from `base` on, up to a stride, are those bins. */
  ghost predicate Copied(bins: seq<Word>, size: nat, base: int, stride: nat, scratch: seq<Word>) {
    && 0 <= base && base + size <= |scratch| && size <= |bins|
    && forall b :: 0 <= b < size && b < stride ==> scratch[base + b] == bins[b]
  }

  lemma CopiedKept(bins: seq<Word>, size: nat, base: int, stride: nat, scratch: seq<Word>, scratch': seq<Word>, next: int)
    requires Copied(bins, size, base, stride, scratch) && base + stride <= next && |scratch| == |scratch'|
    requires forall j :: 0 <= j < next && j < |scratch| ==> scratch'[j] == scratch[j]
    ensures Copied(bins, size, base, stride, scratch')
  {}

  /** One more copy; the ones before it lie below its base. */
  method CopyOne(projections: seq<Projection>, i: nat, ghost copies: seq<Copy>, ghost stride: nat, scratch: array<Word>, base: nat)
    requires WellSized(projections) && i < |projections| && |copies| == i && projections[i].bins != scratch
    requires base + projections[i].size <= scratch.Length
    requires forall j :: 0 <= j < i ==> copies[j].base + stride <= base && projections[j].bins != scratch
    requires forall j :: 0 <= j < i ==> Copied(projections[j].bins[..], projections[j].size, copies[j].base, stride, scratch[..])
    modifies scratch
    ensures Copied(projections[i].bins[..], projections[i].size, base, stride, scratch[..])
    ensures forall j :: 0 <= j < i ==> Copied(projections[j].bins[..], projections[j].size, copies[j].base, stride, scratch[..])
  {
    hide Copied;
    ghost var before := scratch[..];
    CopyBins(projections[i].bins, projections[i].size, scratch, base);
    JustCopied(projections[i].bins, projections[i].size, base, stride, scratch);
    forall j | 0 <= j < i
      ensures Copied(projections[j].bins[..], projections[j].size, copies[j].base, stride, scratch[..])
    {
      CopiedKept(projections[j].bins[..], projections[j].size, copies[j].base, stride, before, scratch[..], base);
    }
  }

  /** All copies, in order: a long one is overwritten from the next stride on. */
  method CopyAll(projections: seq<Projection>, stride: nat, scratch: array<Word>) returns (copies: seq<Copy>)
    requires WellSized(projections) && forall i :: 0 <= i < |projections| ==> projections[i].bins != scratch
    requires forall i :: 0 <= i < |projections| ==> Times(i, stride) + projections[i].size <= scratch.Length
    modifies scratch
    ensures SameAngles(projections, copies)
    ensures forall i :: 0 <= i < |projections| ==> copies[i].base == Times(i, stride)
    ensures forall i :: 0 <= i < |projections| ==>
      Copied(projections[i].bins[..], projections[i].size, copies[i].base, stride, scratch[..])
  {
    hide Copied;
    copies := [];
    var base := 0;
    for i := 0 to |projections|
      invariant base == Times(i, stride) && |copies| == i
      invariant forall j :: 0 <= j < i ==> copies[j].angle == projections[j].angle && copies[j].base == Times(j, stride)
      invariant forall j :: 0 <= j < i ==>
        Copied(projections[j].bins[..], projections[j].size, copies[j].base, stride, scratch[..])
    {
      forall j | 0 <= j < i ensures Times(j, stride) + stride <= base {
        FlatNextRow(stride, j, i);
      }
      CopyOne(projections, i, copies, stride, scratch, base);
      copies := copies + [Copy(projections[i].angle, base)];
      base := base + stride;
    }
  }

  lemma JustCopied(bins: array<Word>, size: nat, base: nat, stride: nat, scratch: array<Word>)
    requires size <= bins.Length && base + size <= scratch.Length
    requires forall b :: 0 <= b < size ==> scratch[base + b] == bins[b]
    ensures Copied(bins[..], size, base, stride, scratch[..])
  {}

  // ------------------------------------------------------------- what a copy holds

  /** In the copy at `base`, the bins of row i's own pending pixels are the sums of their lines. */
  ghost predicate OwnAt(scratch: seq<Word>, base: nat, i: int, img: Grid, pend: set<(int, int)>, rows: nat, p: int) {
    forall c :: (i, c) in pend ==>
      && 0 <= Bin(rows, p, i, c) && base + Bin(rows, p, i, c) < |scratch|
      && scratch[base + Bin(rows, p, i, c)] == Line(img, pend, rows, p, c + Times(i, p))
  }

  /** Removing a pixel of another row, in step with the bins. */
  lemma OwnAtOther(scratch: seq<Word>, base: nat, i: int, img: Grid, pend: set<(int, int)>, rows: nat, p: int, l: int, c: int)
    requires OwnAt(scratch, base, i, img, pend, rows, p) && i != l
    requires (l, c) in img && (l, c) in pend && 0 <= l < rows
    requires 0 <= Bin(rows, p, l, c) && base + Bin(rows, p, l, c) < |scratch|
    ensures var b := base + Bin(rows, p, l, c);
            OwnAt(scratch[b := Xor(scratch[b], img[(l, c)])], base, i, img, pend - {(l, c)}, rows, p)
  {
    var b := base + Bin(rows, p, l, c);
    var scratch' := scratch[b := Xor(scratch[b], img[(l, c)])];
    forall c' | (i, c') in pend - {(l, c)}
      ensures 0 <= Bin(rows, p, i, c') && base + Bin(rows, p, i, c') < |scratch'|
      ensures scratch'[base + Bin(rows, p, i, c')] == Line(img, pend - {(l, c)}, rows, p, c' + Times(i, p))
    {
      LineRemove(img, pend, rows, p, c' + Times(i, p), l, c);
    }
  }

  /** Removing a pixel of row i itself: its bin is never looked at again. */
  lemma OwnAtSelf(scratch: seq<Word>, base: nat, i: int, img: Grid, pend: set<(int, int)>, rows: nat, p: int, c: int)
    requires OwnAt(scratch, base, i, img, pend, rows, p) && (i, c) in img && (i, c) in pend && 0 <= i < rows
    ensures OwnAt(scratch, base, i, img, pend - {(i, c)}, rows, p)
  {
    forall c' | (i, c') in pend - {(i, c)}
      ensures scratch[base + Bin(rows, p, i, c')] == Line(img, pend - {(i, c)}, rows, p, c' + Times(i, p))
    {
      LineRemove(img, pend, rows, p, c' + Times(i, p), i, c);
    }
  }

  /** A write that hits no bin of an own pending pixel. */
  lemma OwnAtElsewhere(scratch: seq<Word>, base: nat, i: int, img: Grid, pend: set<(int, int)>, rows: nat, p: int, at: nat, w: Word)
    requires OwnAt(scratch, base, i, img, pend, rows, p) && at < |scratch|
    requires forall c :: (i, c) in pend ==> base + Bin(rows, p, i, c) != at
    ensures OwnAt(scratch[at := w], base, i, img, pend, rows, p)
  {}

  /** A fresh copy: as many sums as are ever read are enough, whatever follows them. */
  lemma OwnAtStart(bins: seq<Word>, size: nat, base: nat, stride: nat, scratch: seq<Word>, i: int, img: Grid, rows: nat, cols: nat, p: int)
    requires 0 <= i < rows && Copied(bins, size, base, stride, scratch)
    requires ReadBound(rows, cols, p, i) <= size && ReadBound(rows, cols, p, i) <= stride
    requires Projects(bins, ReadBound(rows, cols, p, i), img, rows, cols, p)
    ensures OwnAt(scratch, base, i, img, AllPixels(rows, cols), rows, p)
  {
    RowShift(rows, p, i);
    var n := ReadBound(rows, cols, p, i);
    forall c | (i, c) in AllPixels(rows, cols)
      ensures 0 <= Bin(rows, p, i, c) < n
      ensures scratch[base + Bin(rows, p, i, c)] == Line(img, AllPixels(rows, cols), rows, p, c + Times(i, p))
    {
      BinHoldsLine(bins, n, img, AllPixels(rows, cols), rows, p, i, c);
    }
  }

  // --------------------------------------------------------------- overlapping copies

  /** The constants of a reconstruction from copies: slopes, columns, the two tables of offsets, and the copies' places. */
  datatype ScratchPlan = ScratchPlan(ps: seq<int>, cols: nat, offsets: seq<int>, kOffsets: seq<int>, bases: seq<nat>)

  /** Copies are at least a stride apart. */
  ghost predicate Apart(bases: seq<nat>, stride: nat) {
    forall i, j :: 0 <= i < j < |bases| ==> bases[i] + stride <= bases[j] || bases[j] + stride <= bases[i]
  }

  /**
    What is read of a copy lies within a stride; all of it within a stride and `overlap`
    words, which is little enough for the number of columns.
   */
  ghost predicate SoundScratch(plan: ScratchPlan, stride: nat, overlap: nat, words: nat) {
    var rows := |plan.ps|;
    && 1 <= rows == |plan.offsets| == |plan.kOffsets| == |plan.bases|
    && (forall i :: 0 <= i < rows ==> plan.offsets[i] == Offset(rows, plan.ps[i]))
    && (forall i :: 0 <= i < rows ==> plan.kOffsets[i] == Start(plan.ps, i))
    && Descending(plan.ps) && Apart(plan.bases, stride)
    && overlap <= stride && MaxStart(plan.ps) + 2 * overlap <= plan.cols
    && (forall i :: 0 <= i < rows ==> ReadBound(rows, plan.cols, plan.ps[i], i) <= stride)
    && (forall i :: 0 <= i < rows ==> LineCount(rows, plan.cols, plan.ps[i]) <= stride + overlap)
    && (forall i :: 0 <= i < rows ==> plan.bases[i] + LineCount(rows, plan.cols, plan.ps[i]) <= words)
  }

  /** Only pixels of the last columns have their bins in the overlap. */
  lemma OverlapIsLate(rows: int, cols: int, p: int, l: int, c: int, limit: int)
    requires InImage(rows, cols, l, c) && Bin(rows, p, l, c) >= limit
    ensures c >= cols - (LineCount(rows, cols, p) - limit)
  {
    RowShift(rows, p, l);
  }

  /**
    A write to copy i never hits a bin that copy j is still to be read at: if it runs over
    into copy j, it is for a pixel of the last columns, and what could be hit there
    belongs to the first columns, which have been rebuilt by then.
   */
  lemma OverlapIsHarmless(plan: ScratchPlan, stride: nat, overlap: nat, words: nat, k: int, l: int, i: int, j: int, c': int)
    requires SoundScratch(plan, stride, overlap, words)
    requires var rows := |plan.ps|; 0 <= i < rows && 0 <= j < rows && i != j && 0 <= l < rows && 0 <= k + Start(plan.ps, l) < plan.cols
    requires (j, c') in Pending(plan.ps, plan.cols, k, l)
    ensures var rows := |plan.ps|;
            plan.bases[i] + Bin(rows, plan.ps[i], l, k + Start(plan.ps, l)) != plan.bases[j] + Bin(rows, plan.ps[j], j, c')
  {
    hide MaxStart;
    var rows, c := |plan.ps|, k + Start(plan.ps, l);
    var b, b' := Bin(rows, plan.ps[i], l, c), Bin(rows, plan.ps[j], j, c');
    BinInRange(rows, plan.cols, plan.ps[i], l, c);
    RowShift(rows, plan.ps[j], j);
    assert 0 <= c' <= b' < ReadBound(rows, plan.cols, plan.ps[j], j);
    if plan.bases[i] + b == plan.bases[j] + b' {
      assert plan.bases[i] + stride <= plan.bases[j];
      OverlapIsLate(rows, plan.cols, plan.ps[i], l, c, stride);
      StartBounded(plan.ps, l);
      StartBounded(plan.ps, j);
    }
  }

  /** Everything the loops maintain when they reach step k, row l. */
  ghost predicate Sums128(plan: ScratchPlan, scratch: seq<Word>, img: Grid, pend: set<(int, int)>)
    requires |plan.bases| == |plan.ps|
  {
    forall i :: 0 <= i < |plan.ps| ==> OwnAt(scratch, plan.bases[i], i, img, pend, |plan.ps|, plan.ps[i])
  }

  /** XOR a rebuilt pixel of row l into the copy of another row. */
  method XorScratch(scratch: array<Word>, plan: ScratchPlan, i: nat, k: int, l: nat, bin: Word, ghost stride: nat, ghost overlap: nat,
                    ghost img: Grid)
    requires SoundScratch(plan, stride, overlap, scratch.Length) && Covers(img, |plan.ps|, plan.cols)
    requires i < |plan.ps| && i != l && l < |plan.ps| && 0 <= k + Start(plan.ps, l) < plan.cols
    requires bin == img[(l, k + Start(plan.ps, l))]
    requires forall j :: 0 <= j < |plan.ps| ==> OwnAt(scratch[..], plan.bases[j], j, img, Left(plan, k, l, i, j), |plan.ps|, plan.ps[j])
    modifies scratch
    ensures forall j :: 0 <= j < |plan.ps| ==> OwnAt(scratch[..], plan.bases[j], j, img, Left(plan, k, l, i + 1, j), |plan.ps|, plan.ps[j])
  {
    hide OwnAt, Pending, MaxStart, LineCount, ReadBound;
    var rows, c, p := |plan.ps|, k + plan.kOffsets[l], plan.ps[i];
    PendingStep(plan.ps, plan.cols, k, l);
    BinInRange(rows, plan.cols, p, l, c);
    TimesIsProduct(l, p);
    var at := plan.bases[i] + (c + l * p - plan.offsets[i]);
    assert at == plan.bases[i] + Bin(rows, p, l, c);
    ghost var before := scratch[..];
    OwnAtOther(before, plan.bases[i], i, img, Pending(plan.ps, plan.cols, k, l), rows, p, l, c);
    forall j | 0 <= j < rows && j != i
      ensures OwnAt(before[at := Xor(before[at], bin)], plan.bases[j], j, img, Left(plan, k, l, i + 1, j), rows, plan.ps[j])
    {
      forall c' | (j, c') in Left(plan, k, l, i, j) ensures plan.bases[j] + Bin(rows, plan.ps[j], j, c') != at {
        OverlapIsHarmless(plan, stride, overlap, scratch.Length, k, l, i, j, c');
      }
      OwnAtElsewhere(before, plan.bases[j], j, img, Left(plan, k, l, i, j), rows, plan.ps[j], at, Xor(before[at], bin));
    }
    scratch[at] := Xor(scratch[at], bin);
    assert scratch[..] == before[at := Xor(before[at], bin)];
  }

  /** What copy j still has to account for when the inner loop has come to copy i; the own pixel is out of it from the start. */
  ghost function Left(plan: ScratchPlan, k: int, l: int, i: int, j: int): set<(int, int)>
    requires 0 <= l < |plan.ps|
  {
    if j < i || j == l then Pending(plan.ps, plan.cols, k, l + 1) else Pending(plan.ps, plan.cols, k, l)
  }

  /** Take a rebuilt pixel out of all the other copies. */
  method XorAllScratch(scratch: array<Word>, plan: ScratchPlan, k: int, l: nat, bin: Word, ghost stride: nat, ghost overlap: nat,
                       ghost img: Grid)
    requires SoundScratch(plan, stride, overlap, scratch.Length) && Covers(img, |plan.ps|, plan.cols)
    requires l < |plan.ps| && 0 <= k + Start(plan.ps, l) < plan.cols && bin == img[(l, k + Start(plan.ps, l))]
    requires Sums128(plan, scratch[..], img, Pending(plan.ps, plan.cols, k, l))
    modifies scratch
    ensures Sums128(plan, scratch[..], img, Pending(plan.ps, plan.cols, k, l + 1))
  {
    hide OwnAt, Left, SoundScratch, Sums128, Start;
    ScratchShape(plan, stride, overlap, scratch.Length);
    LeftAtStart(plan, scratch[..], img, k, l);
    for i := 0 to |plan.ps|
      invariant forall j :: 0 <= j < |plan.ps| ==>
        OwnAt(scratch[..], plan.bases[j], j, img, Left(plan, k, l, i, j), |plan.ps|, plan.ps[j])
    {
      if i != l {
        XorScratch(scratch, plan, i, k, l, bin, stride, overlap, img);
      } else {
        forall j | 0 <= j < |plan.ps|
          ensures OwnAt(scratch[..], plan.bases[j], j, img, Left(plan, k, l, i + 1, j), |plan.ps|, plan.ps[j])
        {
          LeftAtOwn(plan, k, l, j);
        }
      }
    }
    LeftAtEnd(plan, scratch[..], img, k, l);
  }

  lemma LeftAtStart(plan: ScratchPlan, scratch: seq<Word>, img: Grid, k: int, l: nat)
    requires |plan.bases| == |plan.ps| && l < |plan.ps| && Covers(img, |plan.ps|, plan.cols) && 0 <= k + Start(plan.ps, l) < plan.cols
    requires Sums128(plan, scratch, img, Pending(plan.ps, plan.cols, k, l))
    ensures forall j :: 0 <= j < |plan.ps| ==> OwnAt(scratch, plan.bases[j], j, img, Left(plan, k, l, 0, j), |plan.ps|, plan.ps[j])
  {
    hide OwnAt, Pending, Start;
    PendingStep(plan.ps, plan.cols, k, l);
    OwnAtSelf(scratch, plan.bases[l], l, img, Pending(plan.ps, plan.cols, k, l), |plan.ps|, plan.ps[l], k + Start(plan.ps, l));
  }

  lemma LeftAtOwn(plan: ScratchPlan, k: int, l: nat, j: int)
    requires l < |plan.ps|
    ensures Left(plan, k, l, l + 1, j) == Left(plan, k, l, l, j)
  {}

  lemma LeftAtEnd(plan: ScratchPlan, scratch: seq<Word>, img: Grid, k: int, l: nat)
    requires |plan.bases| == |plan.ps| && l < |plan.ps|
    requires forall j :: 0 <= j < |plan.ps| ==> OwnAt(scratch, plan.bases[j], j, img, Left(plan, k, l, |plan.ps|, j), |plan.ps|, plan.ps[j])
    ensures Sums128(plan, scratch, img, Pending(plan.ps, plan.cols, k, l + 1))
  {
    hide OwnAt, Pending;
  }

  lemma ScratchShape(plan: ScratchPlan, stride: nat, overlap: nat, words: nat)
    requires SoundScratch(plan, stride, overlap, words)
    ensures 1 <= |plan.ps| == |plan.offsets| == |plan.kOffsets| == |plan.bases| && Descending(plan.ps) && MaxStart(plan.ps) <= plan.cols
    ensures forall i :: 0 <= i < |plan.ps| ==> plan.kOffsets[i] == Start(plan.ps, i) && plan.offsets[i] == Offset(|plan.ps|, plan.ps[i])
  {}

  /** The bin read at step (k, l) lies in its copy and is the pixel to rebuild. */
  lemma ReadsFromCopy(plan: ScratchPlan, scratch: seq<Word>, img: Grid, k: int, l: nat)
    requires |plan.bases| == |plan.ps| && Descending(plan.ps) && Covers(img, |plan.ps|, plan.cols)
    requires l < |plan.ps| && 0 <= k + Start(plan.ps, l) < plan.cols
    requires Sums128(plan, scratch, img, Pending(plan.ps, plan.cols, k, l))
    ensures var c := k + Start(plan.ps, l); var at := plan.bases[l] + (c + l * plan.ps[l] - Offset(|plan.ps|, plan.ps[l]));
            0 <= at < |scratch| && scratch[at] == img[(l, c)]
  {
    hide OwnAt, Pending, Start, Line;
    var c, p := k + Start(plan.ps, l), plan.ps[l];
    PendingStep(plan.ps, plan.cols, k, l);
    OwnAtRead(scratch, plan.bases[l], l, img, Pending(plan.ps, plan.cols, k, l), |plan.ps|, p, c);
    ReadsOnePixel(img, plan.ps, plan.cols, k, l);
    TimesIsProduct(l, p);
  }

  lemma OwnAtRead(scratch: seq<Word>, base: nat, i: int, img: Grid, pend: set<(int, int)>, rows: nat, p: int, c: int)
    requires OwnAt(scratch, base, i, img, pend, rows, p) && (i, c) in pend
    ensures var at := base + Bin(rows, p, i, c); 0 <= at < |scratch| && scratch[at] == Line(img, pend, rows, p, c + Times(i, p))
  {}

  /** Everything the loops maintain when they reach step k, row l. */
  ghost predicate ScratchDecoding(plan: ScratchPlan, scratch: seq<Word>, support: seq<Word>, img: Grid, k: int, l: int)
    requires |plan.bases| == |plan.ps|
  {
    && Sums128(plan, scratch, img, Pending(plan.ps, plan.cols, k, l))
    && Rebuilt(support, |plan.ps|, plan.cols, img, Pending(plan.ps, plan.cols, k, l))
  }

  /** The body of the loops: read a bin, store the pixel, xor it into the other copies. */
  method RebuildFromCopy(support: array<Word>, scratch: array<Word>, plan: ScratchPlan, k: int, l: nat,
                         ghost stride: nat, ghost overlap: nat, ghost img: Grid)
    requires SoundScratch(plan, stride, overlap, scratch.Length) && Covers(img, |plan.ps|, plan.cols)
    requires support != scratch && |plan.ps| * plan.cols <= support.Length
    requires l < |plan.ps| && 0 <= k + Start(plan.ps, l) < plan.cols
    requires ScratchDecoding(plan, scratch[..], support[..], img, k, l)
    modifies support, scratch
    ensures ScratchDecoding(plan, scratch[..], support[..], img, k, l + 1)
    ensures Rest(support, |plan.ps|, plan.cols) == old(Rest(support, |plan.ps|, plan.cols))
  {
    hide Sums128, Rebuilt, Pending, SoundScratch, Rest, Start, MaxStart, Offset;
    ScratchShape(plan, stride, overlap, scratch.Length);
    var cols, c, p := plan.cols, k + plan.kOffsets[l], plan.ps[l];
    ghost var pend := Pending(plan.ps, cols, k, l);
    ReadsFromCopy(plan, scratch[..], img, k, l);
    PendingStep(plan.ps, cols, k, l);
    var bin := scratch[plan.bases[l] + (c + l * p - plan.offsets[l])];
    StorePixel(support, |plan.ps|, cols, l, c, bin, img, pend);
    XorAllScratch(scratch, plan, k, l, bin, stride, overlap, img);
  }

  method VisitCopy(support: array<Word>, scratch: array<Word>, plan: ScratchPlan, k: int, l: nat, guard: Guard,
                   ghost stride: nat, ghost overlap: nat, ghost img: Grid)
    requires SoundScratch(plan, stride, overlap, scratch.Length) && Covers(img, |plan.ps|, plan.cols)
    requires support != scratch && |plan.ps| * plan.cols <= support.Length
    requires l < |plan.ps| && InPhase(guard, MaxStart(plan.ps), plan.cols, k)
    requires ScratchDecoding(plan, scratch[..], support[..], img, k, l)
    modifies support, scratch
    ensures ScratchDecoding(plan, scratch[..], support[..], img, k, l + 1)
    ensures Rest(support, |plan.ps|, plan.cols) == old(Rest(support, |plan.ps|, plan.cols))
  {
    hide SoundScratch, Rest, Sums128, Rebuilt, Start, MaxStart, Pending;
    ScratchShape(plan, stride, overlap, scratch.Length);
    GuardIsExact(plan.ps, plan.cols, k, guard, l);
    if Selected(guard, plan.cols, k + plan.kOffsets[l]) {
      RebuildFromCopy(support, scratch, plan, k, l, stride, overlap, img);
    } else {
      PendingStep(plan.ps, plan.cols, k, l);
    }
  }

  /** All the rows of all the steps of one phase. */
  method PhaseOnCopies(support: array<Word>, scratch: array<Word>, plan: ScratchPlan, widest: int, guard: Guard,
                       ghost stride: nat, ghost overlap: nat, ghost img: Grid)
    requires SoundScratch(plan, stride, overlap, scratch.Length) && Covers(img, |plan.ps|, plan.cols)
    requires support != scratch && |plan.ps| * plan.cols <= support.Length && 0 <= widest == MaxStart(plan.ps) <= plan.cols
    requires ScratchDecoding(plan, scratch[..], support[..], img, PhaseStart(guard, widest, plan.cols), 0)
    modifies support, scratch
    ensures ScratchDecoding(plan, scratch[..], support[..], img, PhaseEnd(guard, widest, plan.cols), 0)
    ensures Rest(support, |plan.ps|, plan.cols) == old(Rest(support, |plan.ps|, plan.cols))
  {
    hide SoundScratch, Rest, ScratchDecoding, MaxStart;
    ScratchShape(plan, stride, overlap, scratch.Length);
    for k := PhaseStart(guard, widest, plan.cols) to PhaseEnd(guard, widest, plan.cols)
      invariant ScratchDecoding(plan, scratch[..], support[..], img, k, 0)
      invariant Rest(support, |plan.ps|, plan.cols) == old(Rest(support, |plan.ps|, plan.cols))
    {
      for l := 0 to |plan.ps|
        invariant ScratchDecoding(plan, scratch[..], support[..], img, k, l)
        invariant Rest(support, |plan.ps|, plan.cols) == old(Rest(support, |plan.ps|, plan.cols))
      {
        VisitCopy(support, scratch, plan, k, l, guard, stride, overlap, img);
      }
      NextStepOnCopies(plan, scratch[..], support[..], img, k);
    }
  }

  lemma NextStepOnCopies(plan: ScratchPlan, scratch: seq<Word>, support: seq<Word>, img: Grid, k: int)
    requires |plan.bases| == |plan.ps| && ScratchDecoding(plan, scratch, support, img, k, |plan.ps|)
    ensures ScratchDecoding(plan, scratch, support, img, k + 1, 0)
  {
    PendingNextStep(plan.ps, plan.cols, k);
  }

  /** The three phases. */
  method ReconstructFromCopies(support: array<Word>, scratch: array<Word>, plan: ScratchPlan, ghost stride: nat, ghost overlap: nat,
                               ghost img: Grid)
    requires SoundScratch(plan, stride, overlap, scratch.Length) && Covers(img, |plan.ps|, plan.cols)
    requires support != scratch && |plan.ps| * plan.cols <= support.Length
    requires Sums128(plan, scratch[..], img, AllPixels(|plan.ps|, plan.cols))
    modifies support, scratch
    ensures Holds(support[..], img, |plan.ps|, plan.cols)
    ensures Rest(support, |plan.ps|, plan.cols) == old(Rest(support, |plan.ps|, plan.cols))
  {
    hide SoundScratch, Rest, Sums128, Flat;
    ScratchShape(plan, stride, overlap, scratch.Length);
    PendingStart(plan.ps, plan.cols);
    StartBounded(plan.ps, 0);
    var widest := Max(plan.kOffsets[0], plan.kOffsets[|plan.ps| - 1]);
    PhaseOnCopies(support, scratch, plan, widest, FromZero, stride, overlap, img);
    PhaseOnCopies(support, scratch, plan, widest, Always, stride, overlap, img);
    PhaseOnCopies(support, scratch, plan, widest, BelowCols, stride, overlap, img);
    PendingEnd(plan.ps, plan.cols);
  }

  // ------------------------------------------------------------------- the transform

  /** What is needed of a projection that is used, for copies `stride` words apart that may overlap. */
  ghost predicate UsableCopy(proj: Projection, i: int, rows: nat, cols: nat, stride: nat, overlap: nat, last: int, words: nat) {
    var p := proj.angle.p;
    && ReadBound(rows, cols, p, i) <= stride && ReadBound(rows, cols, p, i) <= proj.size <= proj.bins.Length
    && LineCount(rows, cols, p) <= stride + overlap && last + LineCount(rows, cols, p) <= words
  }

  /**
    What a caller must provide to decode from copies in a scratch buffer of `words` words.
    The copies of two neighbours may share up to `overlap` words.
   */
  ghost predicate CopyDecodable(projections: seq<Projection>, support: array<Word>, rows: nat, cols: nat,
                                stride: nat, overlap: nat, words: nat)
  {
    && 1 <= rows <= |projections| && rows * cols <= support.Length
    && UnitQ(projections) && DistinctSlopes(projections) && WellSized(projections)
    && (forall i :: 0 <= i < |projections| ==> Times(i, stride) + projections[i].size <= words)
    && overlap <= stride && MaxStart(Slopes(Chosen(projections, rows))) + 2 * overlap <= cols
    && forall i :: 0 <= i < rows ==>
         UsableCopy(Chosen(projections, rows)[i], i, rows, cols, stride, overlap, Times(|projections| - 1, stride), words)
  }

  /** The first bins of a projection, as many as are ever read of it, are sums; the others may hold anything. */
  ghost predicate ReadableSums(proj: Projection, i: int, img: Grid, rows: nat, cols: nat)
    reads proj.bins
  {
    ReadBound(rows, cols, proj.angle.p, i) <= proj.bins.Length &&
    Projects(proj.bins[..], ReadBound(rows, cols, proj.angle.p, i), img, rows, cols, proj.angle.p)
  }

  function CopySlopes(copies: seq<Copy>): (ps: seq<int>)
    ensures |ps| == |copies| && forall i :: 0 <= i < |ps| ==> ps[i] == copies[i].angle.p
  {
    seq(|copies|, i requires 0 <= i < |copies| => copies[i].angle.p)
  }

  function CopyBases(copies: seq<Copy>): (bases: seq<nat>)
    ensures |bases| == |copies| && forall i :: 0 <= i < |bases| ==> bases[i] == copies[i].base
  {
    seq(|copies|, i requires 0 <= i < |copies| => copies[i].base)
  }

  ghost predicate AtStrides(copies: seq<Copy>, stride: nat) {
    forall i :: 0 <= i < |copies| ==> copies[i].base == Times(i, stride)
  }

  /** Copies of different projections are a stride apart. */
  lemma PairsApart(given: seq<Projection>, copies: seq<Copy>, stride: nat, p: Projection, x: Copy, q: Projection, y: Copy)
    requires AtStrides(copies, stride) && Paired(given, copies, p, x) && Paired(given, copies, q, y) && p != q
    ensures x.base + stride <= y.base || y.base + stride <= x.base
  {
    var i :| 0 <= i < |given| && i < |copies| && given[i] == p && copies[i] == x;
    var j :| 0 <= j < |given| && j < |copies| && given[j] == q && copies[j] == y;
    if i < j { FlatNextRow(stride, i, j); } else { FlatNextRow(stride, j, i); }
  }

  lemma PairBelow(given: seq<Projection>, copies: seq<Copy>, stride: nat, p: Projection, x: Copy)
    requires AtStrides(copies, stride) && Paired(given, copies, p, x) && |given| == |copies|
    ensures x.base <= Times(|given| - 1, stride)
  {
    var i :| 0 <= i < |given| && i < |copies| && given[i] == p && copies[i] == x;
    if i < |given| - 1 { FlatNextRow(stride, i, |given| - 1); }
  }

  /** The copies that are used, sorted like the projections, make a sound plan. */
  lemma CopiesSound(given: seq<Projection>, copies: seq<Copy>, support: array<Word>, rows: nat, cols: nat,
                    stride: nat, overlap: nat, words: nat, plan: ScratchPlan)
    requires CopyDecodable(given, support, rows, cols, stride, overlap, words)
    requires SameAngles(given, copies) && AtStrides(copies, stride)
    requires var used := SortCopies(copies)[..rows]; plan.ps == CopySlopes(used) && plan.bases == CopyBases(used) && plan.cols == cols
    requires |plan.offsets| == |plan.kOffsets| == rows
    requires forall i :: 0 <= i < rows ==> plan.offsets[i] == Offset(rows, plan.ps[i]) && plan.kOffsets[i] == Start(plan.ps, i)
    ensures plan.ps == Slopes(Chosen(given, rows)) && SoundScratch(plan, stride, overlap, words)
  {
    hide MaxStart, LineCount, ReadBound, SortBySlope, SortCopies, Paired, Start;
    var chosen, used := Chosen(given, rows), SortCopies(copies)[..rows];
    SortLockstep(given, copies);
    SortDescending(given);
    assert plan.ps == Slopes(chosen);
    assert Slopes(chosen) == Slopes(SortBySlope(given))[..rows];
    forall i, j | 0 <= i < j < rows
      ensures plan.bases[i] + stride <= plan.bases[j] || plan.bases[j] + stride <= plan.bases[i]
    {
      assert Slopes(chosen)[i] > Slopes(chosen)[j];
      PairsApart(given, copies, stride, chosen[i], used[i], chosen[j], used[j]);
    }
    forall i | 0 <= i < rows ensures plan.bases[i] + LineCount(rows, cols, plan.ps[i]) <= words {
      PairBelow(given, copies, stride, chosen[i], used[i]);
    }
  }

  /** Every copy that is used starts with the sums that will be read. */
  lemma CopiesHold(given: seq<Projection>, copies: seq<Copy>, support: array<Word>, rows: nat, cols: nat,
                   stride: nat, overlap: nat, words: nat, scratch: seq<Word>, img: Grid, i: nat)
    requires CopyDecodable(given, support, rows, cols, stride, overlap, words) && SameAngles(given, copies) && i < rows
    requires forall j :: 0 <= j < |given| ==> Copied(given[j].bins[..], given[j].size, copies[j].base, stride, scratch)
    requires ReadableSums(Chosen(given, rows)[i], i, img, rows, cols)
    ensures var x := SortCopies(copies)[i]; OwnAt(scratch, x.base, i, img, AllPixels(rows, cols), rows, x.angle.p)
  {
    hide MaxStart, LineCount, ReadBound, SortBySlope, SortCopies, Copied, OwnAt, Projects;
    SortLockstep(given, copies);
    var p, x := Chosen(given, rows)[i], SortCopies(copies)[i];
    assert Paired(given, copies, p, x);
    var j :| 0 <= j < |given| && j < |copies| && given[j] == p && copies[j] == x;
    OwnAtStart(p.bins[..], p.size, x.base, stride, scratch, i, img, rows, cols, p.angle.p);
  }

  /** Sort the copies, keep as many as there are rows, and compute both tables of offsets. */
  method PlanCopies(copies: seq<Copy>, rows: nat, cols: nat) returns (plan: ScratchPlan)
    requires 1 <= rows <= |copies|
    ensures var used := SortCopies(copies)[..rows]; plan.ps == CopySlopes(used) && plan.bases == CopyBases(used) && plan.cols == cols
    ensures |plan.offsets| == |plan.kOffsets| == rows
    ensures forall i :: 0 <= i < rows ==> plan.offsets[i] == Offset(rows, plan.ps[i]) && plan.kOffsets[i] == Start(plan.ps, i)
  {
    hide SortCopies;
    var used := SortCopies(copies)[..rows];
    var ps := CopySlopes(used);
    var offsets := Offsets(rows, ps);
    var kOffsets := StartColumns(ps);
    plan := ScratchPlan(ps, cols, offsets, kOffsets, CopyBases(used));
  }

  /** Copy the projections to a scratch buffer, ready for the reconstruction. */
  method SetUp(ghost support: array<Word>, rows: nat, cols: nat, projections: seq<Projection>, stride: nat, words: nat,
               ghost overlap: nat, ghost img: Grid) returns (scratch: array<Word>, plan: ScratchPlan)
    requires CopyDecodable(projections, support, rows, cols, stride, overlap, words)
    requires forall i :: 0 <= i < rows ==> ReadableSums(Chosen(projections, rows)[i], i, img, rows, cols)
    ensures fresh(scratch) && |plan.ps| == rows && plan.cols == cols && SoundScratch(plan, stride, overlap, scratch.Length)
    ensures Sums128(plan, scratch[..], img, AllPixels(rows, cols))
  {
    hide SortBySlope, SortCopies, MaxStart, LineCount, ReadBound, OwnAt, Copied, ReadableSums, UsableCopy, SoundScratch;
    ghost var chosen := Chosen(projections, rows);
    ChosenAreGiven(projections, rows);
    assert forall i :: 0 <= i < rows ==> chosen[i] in projections && ReadableSums(chosen[i], i, img, rows, cols);
    scratch := new Word[words];
    var copies := CopyAll(projections, stride, scratch);
    plan := PlanCopies(copies, rows, cols);
    CopiesSound(projections, copies, support, rows, cols, stride, overlap, words, plan);
    forall i | 0 <= i < rows ensures OwnAt(scratch[..], plan.bases[i], i, img, AllPixels(rows, cols), rows, plan.ps[i]) {
      CopiesHold(projections, copies, support, rows, cols, stride, overlap, words, scratch[..], img, i);
    }
  }

  /** Rebuild from copies: the stored bins are only read, and the words behind the image are left alone. */
  method Transform128InverseCopy(support: array<Word>, rows: nat, cols: nat, projections: seq<Projection>, stride: nat, words: nat,
                                 ghost overlap: nat, ghost img: Grid)
    requires CopyDecodable(projections, support, rows, cols / 2, stride, overlap, words) && Covers(img, rows, cols / 2)
    requires forall i :: 0 <= i < rows ==> ReadableSums(Chosen(projections, rows)[i], i, img, rows, cols / 2)
    modifies support
    ensures Holds(support[..], img, rows, cols / 2) && Rest(support, rows, cols / 2) == old(Rest(support, rows, cols / 2))
  {
    hide Sums128, SoundScratch, Rest, ReadableSums;
    var scratch, plan := SetUp(support, rows, cols / 2, projections, stride, words, overlap, img);
    ReconstructFromCopies(support, scratch, plan, stride, overlap, img);
  }
}
