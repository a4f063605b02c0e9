/**
  The inverse transform, which rebuilds the image from any `rows` projections.

  The 64-bit version XORs a rebuilt pixel out of all the projections, its own
  included; the 128-bit version leaves its own projection alone.  The two share
  the visiting order and the offset tables, so they share the methods below; the
  flag `skipOwn` of a plan tells them apart.
 */
module MojetteInverse {
  import opened MojetteGeometry
  import opened MojetteLines
  import opened MojetteProjection
  import opened MojetteForward

  // ------------------------------------------------------------------- plans

  /** s_minus, s_plus and the start column of every row, computed as in the source. */
  method StartColumns(ps: seq<int>) returns (kOffsets: seq<int>)
    requires 1 <= |ps|
    ensures |kOffsets| == |ps|
    ensures forall i :: 0 <= i < |ps| ==> kOffsets[i] == Start(ps, i)
  {
    var rows := |ps|;
    var sMinus, sPlus := 0, 0;
    var i := 1;
    while i < rows - 1
      invariant 1 <= i <= Max(1, rows - 1)
      invariant sMinus == NegSum(ps, 1, i) && sPlus == PosSum(ps, 1, i)
    {
      sMinus := sMinus + Max(0, -ps[i]);
      sPlus := sPlus + Max(0, ps[i]);
      i := i + 1;
    }
    var rdv := rows - 1;
    var last := ps[rdv];
    kOffsets := [Max(Max(0, -last) + sMinus, Max(0, last) + sPlus)];
    assert kOffsets[0] == Start(ps, rdv);
    i := rdv - 1;
    while i >= 0
      invariant -1 <= i <= rdv - 1
      invariant |kOffsets| == rows - 1 - i
      invariant forall j :: 0 <= j < |kOffsets| ==> kOffsets[j] == Start(ps, i + 1 + j)
    {
      kOffsets := [kOffsets[0] + ps[i + 1]] + kOffsets;
      i := i - 1;
    }
  }

  method Offsets(rows: nat, ps: seq<int>) returns (offsets: seq<int>)
    ensures |offsets| == |ps|
    ensures forall i :: 0 <= i < |ps| ==> offsets[i] == Offset(rows, ps[i])
  {
    offsets := [];
    for i := 0 to |ps|
      invariant |offsets| == i && forall j :: 0 <= j < i ==> offsets[j] == Offset(rows, ps[j])
    {
      var offset := OffsetOf(rows, ps[i]);
      offsets := offsets + [offset];
    }
  }

  /**
    The constants of one reconstruction: the projections used and their slopes,
    the number of columns, and the two tables of offsets.
   */
  datatype PlanData = PlanData(skipOwn: bool, sel: seq<Projection>, ps: seq<int>, cols: nat,
                               offsets: seq<int>, kOffsets: seq<int>)

  ghost predicate Sound(plan: PlanData) {
    var rows := |plan.sel|;
    && |plan.ps| == |plan.offsets| == |plan.kOffsets| == rows
    && (forall i :: 0 <= i < rows ==> plan.sel[i].angle == Angle(plan.ps[i], 1))
    && (forall i :: 0 <= i < rows ==> plan.offsets[i] == Offset(rows, plan.ps[i]))
    && (forall i :: 0 <= i < rows ==> plan.kOffsets[i] == Start(plan.ps, i))
    && Descending(plan.ps)
    && (rows > 0 ==> MaxStart(plan.ps) <= plan.cols)
    && SeparateBuffers(plan.sel)
    && (forall i :: 0 <= i < rows ==> LineCount(rows, plan.cols, plan.ps[i]) <= plan.sel[i].bins.Length)
  }

  type Plan = plan: PlanData | Sound(plan) witness PlanData(false, [], [], 0, [], [])

  /** The image covers rows x cols pixels. */
  ghost predicate Covers(img: Grid, rows: nat, cols: nat) {
    forall l, c :: (l, c) in img <==> InImage(rows, cols, l, c)
  }

  /** The support is not one of the bin buffers, and the image fits into it. */
  ghost predicate FreeSupport(plan: Plan, support: array<Word>) {
    && support !in Buffers(plan.sel)
    && |plan.sel| * plan.cols <= support.Length
  }

  /** The words of the support behind the image. */
  ghost function Rest(support: array<Word>, rows: nat, cols: nat): seq<Word>
    reads support
  {
    if rows * cols <= support.Length then support[rows * cols..] else []
  }

  // ------------------------------------------------------------- decoding state

  /** All pixels that are no longer pending have been written to the support. */
  ghost predicate Rebuilt(support: seq<Word>, rows: nat, cols: nat, img: Grid, pend: set<(int, int)>) {
    forall l, c :: InImage(rows, cols, l, c) && (l, c) !in pend && (l, c) in img ==>
                     0 <= Flat(cols, l, c) < |support| && support[Flat(cols, l, c)] == img[(l, c)]
  }

  lemma RebuiltStep(support: seq<Word>, rows: nat, cols: nat, img: Grid, pend: set<(int, int)>, l: int, c: int)
    requires Rebuilt(support, rows, cols, img, pend)
    requires InImage(rows, cols, l, c) && (l, c) in img && rows * cols <= |support|
    ensures 0 <= Flat(cols, l, c) < rows * cols
    ensures Rebuilt(support[Flat(cols, l, c) := img[(l, c)]], rows, cols, img, pend - {(l, c)})
  {
    FlatInRange(rows, cols, l, c);
    var support' := support[Flat(cols, l, c) := img[(l, c)]];
    forall l', c' | InImage(rows, cols, l', c') && (l', c') !in pend - {(l, c)} && (l', c') in img
      ensures 0 <= Flat(cols, l', c') < |support'| && support'[Flat(cols, l', c')] == img[(l', c')]
    {
      FlatInRange(rows, cols, l', c');
      if Flat(cols, l', c') == Flat(cols, l, c) {
        FlatInjective(cols, l, c, l', c');
      }
    }
  }

  /** All lines of a projection hold the sum of their pixels that are still pending. */
  ghost predicate AllLines(proj: Projection, rows: nat, cols: nat, img: Grid, pend: set<(int, int)>)
    reads proj.bins
  {
    && LineCount(rows, cols, proj.angle.p) <= proj.bins.Length
    && Sums(proj.bins[..], LineCount(rows, cols, proj.angle.p), img, pend, rows, proj.angle.p)
  }

  /** What is known of projection i: all of its lines, or only the lines it will be read on. */
  ghost predicate Residue(skipOwn: bool, proj: Projection, i: int, rows: nat, cols: nat, img: Grid, pend: set<(int, int)>)
    reads proj.bins
  {
    if skipOwn then OwnSums(proj.bins[..], i, img, pend, rows, proj.angle.p)
    else AllLines(proj, rows, cols, img, pend)
  }

  ghost predicate Residues(plan: Plan, img: Grid, pend: set<(int, int)>)
    reads Buffers(plan.sel)
  {
    forall i :: 0 <= i < |plan.sel| ==> Residue(plan.skipOwn, plan.sel[i], i, |plan.sel|, plan.cols, img, pend)
  }

  /** Everything the reconstruction loops maintain when they reach step k, row l. */
  ghost predicate Decoding(plan: Plan, support: array<Word>, img: Grid, k: int, l: int)
    reads support, Buffers(plan.sel)
  {
    && Residues(plan, img, Pending(plan.ps, plan.cols, k, l))
    && Rebuilt(support[..], |plan.sel|, plan.cols, img, Pending(plan.ps, plan.cols, k, l))
  }

  // ------------------------------------------------------------------ one pixel

  /** XOR a rebuilt pixel of row l out of projection i. */
  method XorOut(skipOwn: bool, proj: Projection, ghost i: nat, offset: int, rows: nat, ghost cols: nat, l: nat, c: nat, bin: Word,
                ghost img: Grid, ghost pend: set<(int, int)>)
    requires proj.angle.q == 1 && offset == Offset(rows, proj.angle.p)
    requires LineCount(rows, cols, proj.angle.p) <= proj.bins.Length
    requires InImage(rows, cols, l, c) && (l, c) in img && (l, c) in pend && bin == img[(l, c)]
    requires Residue(skipOwn, proj, i, rows, cols, img, pend) && !(skipOwn && i == l)
    modifies proj.bins
    ensures Residue(skipOwn, proj, i, rows, cols, img, pend - {(l, c)})
  {
    var p := proj.angle.p;
    BinInRange(rows, cols, p, l, c);
    if skipOwn {
      OwnSumsOther(proj.bins[..], i, img, pend, rows, p, l, c);
    } else {
      SumsRemove(proj.bins[..], LineCount(rows, cols, p), img, pend, rows, p, l, c);
    }
    ghost var before := proj.bins[..];
    TimesIsProduct(l, p);
    var b := c * proj.angle.q + l * p - offset;
    assert b == Bin(rows, p, l, c);
    proj.bins[b] := Xor(proj.bins[b], bin);
    assert proj.bins[..] == before[b := Xor(before[b], bin)];
  }

  /** The own projection of a rebuilt pixel need not be touched: that bin is not read again. */
  lemma OwnResidue(proj: Projection, i: nat, rows: nat, cols: nat, img: Grid, pend: set<(int, int)>, c: int)
    requires i < rows && (i, c) in img && (i, c) in pend && Residue(true, proj, i, rows, cols, img, pend)
    ensures Residue(true, proj, i, rows, cols, img, pend - {(i, c)})
  {
    OwnSumsSelf(proj.bins[..], i, img, pend, rows, proj.angle.p, c);
  }

  /** XOR a rebuilt pixel out of every projection, its own excepted in the 128-bit version. */
  method XorOutAll(plan: Plan, l: nat, c: nat, bin: Word, ghost img: Grid, ghost pend: set<(int, int)>)
    requires InImage(|plan.sel|, plan.cols, l, c) && (l, c) in img && (l, c) in pend && bin == img[(l, c)]
    requires Residues(plan, img, pend)
    modifies Buffers(plan.sel)
    ensures Residues(plan, img, pend - {(l, c)})
  {
    hide Residue, LineCount, MaxStart, Start;
    var skipOwn, sel := plan.skipOwn, plan.sel;
    for i := 0 to |sel|
      invariant forall j :: 0 <= j < i ==> Residue(skipOwn, sel[j], j, |sel|, plan.cols, img, pend - {(l, c)})
      invariant forall j :: i <= j < |sel| ==> Residue(skipOwn, sel[j], j, |sel|, plan.cols, img, pend)
    {
      if skipOwn && i == l {
        OwnResidue(sel[i], i, |sel|, plan.cols, img, pend, c);
      } else {
        XorOut(skipOwn, sel[i], i, plan.offsets[i], |sel|, plan.cols, l, c, bin, img, pend);
      }
    }
  }

  /** Either kind of residue says what the bin of a pending pixel of row l holds. */
  lemma ResidueGivesLine(skipOwn: bool, proj: Projection, l: int, rows: nat, cols: nat, img: Grid, pend: set<(int, int)>, c: int)
    requires Residue(skipOwn, proj, l, rows, cols, img, pend)
    requires InImage(rows, cols, l, c) && (l, c) in pend
    ensures var b := Bin(rows, proj.angle.p, l, c);
            0 <= b < proj.bins.Length && proj.bins[b] == Line(img, pend, rows, proj.angle.p, c + Times(l, proj.angle.p))
  {
    var p := proj.angle.p;
    if !skipOwn {
      BinInRange(rows, cols, p, l, c);
      BinHoldsLine(proj.bins[..], LineCount(rows, cols, p), img, pend, rows, p, l, c);
    }
  }

  /** The read of the reconstruction loops: the bin holds the pixel to rebuild and nothing else. */
  method ReadPixel(plan: Plan, k: int, l: nat, ghost img: Grid) returns (bin: Word)
    requires l < |plan.sel| && InImage(|plan.sel|, plan.cols, l, k + plan.kOffsets[l])
    requires Covers(img, |plan.sel|, plan.cols)
    requires Residues(plan, img, Pending(plan.ps, plan.cols, k, l))
    ensures (l, k + plan.kOffsets[l]) in img && bin == img[(l, k + plan.kOffsets[l])]
  {
    hide Residue, Start, MaxStart, LineCount, Pending;
    var c, proj := k + plan.kOffsets[l], plan.sel[l];
    PendingStep(plan.ps, plan.cols, k, l);
    ResidueGivesLine(plan.skipOwn, proj, l, |plan.sel|, plan.cols, img, Pending(plan.ps, plan.cols, k, l), c);
    ReadsOnePixel(img, plan.ps, plan.cols, k, l);
    TimesIsProduct(l, proj.angle.p);
    bin := proj.bins[c * proj.angle.q + l * proj.angle.p - plan.offsets[l]];
  }

  /** The body shared by all the reconstruction loops: rebuild the pixel of step k, row l. */
  method RebuildPixel(support: array<Word>, plan: Plan, k: int, l: nat, ghost img: Grid)
    requires FreeSupport(plan, support) && Covers(img, |plan.sel|, plan.cols)
    requires l < |plan.sel| && 0 <= k + plan.kOffsets[l] < plan.cols
    requires Decoding(plan, support, img, k, l)
    modifies support, Buffers(plan.sel)
    ensures Decoding(plan, support, img, k, l + 1)
    ensures Rest(support, |plan.sel|, plan.cols) == old(Rest(support, |plan.sel|, plan.cols))
  {
    hide Residues, Rebuilt, Pending, Start, MaxStart, LineCount, Rest;
    var cols, c := plan.cols, k + plan.kOffsets[l];
    ghost var pend := Pending(plan.ps, cols, k, l);
    var bin := ReadPixel(plan, k, l, img);
    PendingStep(plan.ps, cols, k, l);
    StorePixel(support, |plan.sel|, cols, l, c, bin, img, pend);
    XorOutAll(plan, l, c, bin, img, pend);
  }

  /** Write a pixel to the support. */
  method StorePixel(support: array<Word>, ghost rows: nat, cols: nat, l: nat, c: nat, bin: Word, ghost img: Grid,
                    ghost pend: set<(int, int)>)
    requires InImage(rows, cols, l, c) && (l, c) in img && bin == img[(l, c)] && rows * cols <= support.Length
    requires Rebuilt(support[..], rows, cols, img, pend)
    modifies support
    ensures Rebuilt(support[..], rows, cols, img, pend - {(l, c)})
    ensures Rest(support, rows, cols) == old(Rest(support, rows, cols))
  {
    hide Rebuilt;
    RebuiltStep(support[..], rows, cols, img, pend, l, c);
    TimesIsProduct(l, cols);
    ghost var before := support[..];
    support[l * cols + c] := bin;
    assert support[..] == before[Flat(cols, l, c) := img[(l, c)]];
  }

  // ------------------------------------------------------------ the three phases

  /** The `if` of the three reconstruction phases. */
  datatype Guard = FromZero | Always | BelowCols

  predicate Selected(guard: Guard, cols: int, c: int) {
    match guard
    case FromZero => c >= 0
    case Always => true
    case BelowCols => c < cols
  }

  /** First step of each phase, in terms of the largest start column. */
  function PhaseStart(guard: Guard, widest: int, cols: int): int {
    match guard
    case FromZero => -widest
    case Always => 0
    case BelowCols => cols - widest
  }

  /** The step at which each phase stops. */
  function PhaseEnd(guard: Guard, widest: int, cols: int): int {
    match guard
    case FromZero => 0
    case Always => cols - widest
    case BelowCols => cols
  }

  predicate InPhase(guard: Guard, widest: int, cols: int, k: int) {
    PhaseStart(guard, widest, cols) <= k < PhaseEnd(guard, widest, cols)
  }

  /** In every phase of the source the guard tests exactly whether the column exists. */
  lemma GuardIsExact(ps: seq<int>, cols: nat, k: int, guard: Guard, l: int)
    requires Descending(ps) && 0 <= l < |ps| && MaxStart(ps) <= cols
    requires InPhase(guard, MaxStart(ps), cols, k)
    ensures Selected(guard, cols, k + Start(ps, l)) <==> 0 <= k + Start(ps, l) < cols
  {
    StartBounded(ps, l);
  }

  /**
    With fewer columns than the largest start column, the first phase writes past its row:
    to a later row, which loses a pixel, or past the end of the image.
   */
  lemma TooFewColumns(ps: seq<int>, cols: nat)
    requires Descending(ps) && 1 <= |ps| && MaxStart(ps) > cols
    ensures exists l :: 0 <= l < |ps| && InPhase(FromZero, MaxStart(ps), cols, -1)
                        && Selected(FromZero, cols, -1 + Start(ps, l)) && -1 + Start(ps, l) >= cols
                        && Flat(cols, l, -1 + Start(ps, l)) >= Flat(cols, l + 1, 0)
                        && (l == |ps| - 1 ==> Flat(cols, l, -1 + Start(ps, l)) >= |ps| * cols)
  {
    var l := if Start(ps, 0) == MaxStart(ps) then 0 else |ps| - 1;
    StartBounded(ps, l);
    FlatNextRow(cols, l, l + 1);
    TimesSubtract(l + 1, l, cols);
    TimesIsProduct(|ps|, cols);
    assert Selected(FromZero, cols, -1 + Start(ps, l));
  }

  method Visit(support: array<Word>, plan: Plan, k: int, l: nat, guard: Guard, ghost img: Grid)
    requires FreeSupport(plan, support) && Covers(img, |plan.sel|, plan.cols)
    requires l < |plan.sel| && InPhase(guard, MaxStart(plan.ps), plan.cols, k)
    requires Decoding(plan, support, img, k, l)
    modifies support, Buffers(plan.sel)
    ensures Decoding(plan, support, img, k, l + 1)
    ensures Rest(support, |plan.sel|, plan.cols) == old(Rest(support, |plan.sel|, plan.cols))
  {
    GuardIsExact(plan.ps, plan.cols, k, guard, l);
    if Selected(guard, plan.cols, k + plan.kOffsets[l]) {
      RebuildPixel(support, plan, k, l, img);
    } else {
      PendingStep(plan.ps, plan.cols, k, l);
    }
  }

  /**
    All the rows of one step: the rows above the rendez-vous row, then the rows
    from the last one up to it, which is the last row alone.
   */
  method Sweep(support: array<Word>, plan: Plan, k: int, guard: Guard, ghost img: Grid)
    requires FreeSupport(plan, support) && Covers(img, |plan.sel|, plan.cols)
    requires 1 <= |plan.sel| && InPhase(guard, MaxStart(plan.ps), plan.cols, k)
    requires Decoding(plan, support, img, k, 0)
    modifies support, Buffers(plan.sel)
    ensures Decoding(plan, support, img, k + 1, 0)
    ensures Rest(support, |plan.sel|, plan.cols) == old(Rest(support, |plan.sel|, plan.cols))
  {
    hide Decoding;
    var rdv := |plan.sel| - 1;
    for l := 0 to rdv
      invariant Decoding(plan, support, img, k, l)
      invariant Rest(support, |plan.sel|, plan.cols) == old(Rest(support, |plan.sel|, plan.cols))
    {
      Visit(support, plan, k, l, guard, img);
    }
    Visit(support, plan, k, rdv, guard, img);
    DecodingNextStep(plan, support, img, k);
  }

  lemma DecodingNextStep(plan: Plan, support: array<Word>, img: Grid, k: int)
    requires Decoding(plan, support, img, k, |plan.sel|)
    ensures Decoding(plan, support, img, k + 1, 0)
  {
    PendingNextStep(plan.ps, plan.cols, k);
  }

  /** One of the three phases. */
  method Phase(support: array<Word>, plan: Plan, widest: int, guard: Guard, ghost img: Grid)
    requires FreeSupport(plan, support) && Covers(img, |plan.sel|, plan.cols)
    requires 1 <= |plan.sel| && 0 <= widest == MaxStart(plan.ps)
    requires Decoding(plan, support, img, PhaseStart(guard, widest, plan.cols), 0)
    modifies support, Buffers(plan.sel)
    ensures Decoding(plan, support, img, PhaseEnd(guard, widest, plan.cols), 0)
    ensures Rest(support, |plan.sel|, plan.cols) == old(Rest(support, |plan.sel|, plan.cols))
  {
    hide Decoding;
    for k := PhaseStart(guard, widest, plan.cols) to PhaseEnd(guard, widest, plan.cols)
      invariant Decoding(plan, support, img, k, 0)
      invariant Rest(support, |plan.sel|, plan.cols) == old(Rest(support, |plan.sel|, plan.cols))
    {
      Sweep(support, plan, k, guard, img);
    }
  }

  /** The three phases one after the other. */
  method RunPhases(support: array<Word>, plan: Plan, ghost img: Grid)
    requires FreeSupport(plan, support) && Covers(img, |plan.sel|, plan.cols)
    requires 1 <= |plan.sel|
    requires Decoding(plan, support, img, -MaxStart(plan.ps), 0)
    modifies support, Buffers(plan.sel)
    ensures Decoding(plan, support, img, plan.cols, 0)
    ensures Rest(support, |plan.sel|, plan.cols) == old(Rest(support, |plan.sel|, plan.cols))
  {
    hide Decoding;
    StartBounded(plan.ps, 0);
    var widest := Max(plan.kOffsets[0], plan.kOffsets[|plan.sel| - 1]);
    Phase(support, plan, widest, FromZero, img);
    Phase(support, plan, widest, Always, img);
    Phase(support, plan, widest, BelowCols, img);
  }

  /** The whole reconstruction: afterwards every pixel is rebuilt and every line is empty. */
  method Reconstruct(support: array<Word>, plan: Plan, ghost img: Grid)
    requires FreeSupport(plan, support) && Covers(img, |plan.sel|, plan.cols)
    requires 1 <= |plan.sel|
    requires Residues(plan, img, AllPixels(|plan.sel|, plan.cols))
    modifies support, Buffers(plan.sel)
    ensures Residues(plan, img, {})
    ensures Rebuilt(support[..], |plan.sel|, plan.cols, img, {})
    ensures Rest(support, |plan.sel|, plan.cols) == old(Rest(support, |plan.sel|, plan.cols))
  {
    PendingStart(plan.ps, plan.cols);
    RunPhases(support, plan, img);
    PendingEnd(plan.ps, plan.cols);
  }

  // ---------------------------------------------------------------- the transform

  /** What a caller of an inverse transform must provide. */
  ghost predicate Decodable(projections: seq<Projection>, support: array<Word>, rows: nat, cols: nat) {
    && 1 <= rows <= |projections|
    && UnitQ(projections) && DistinctSlopes(projections) && SeparateBins(Chosen(projections, rows), support)
    && (forall i :: 0 <= i < rows ==>
          LineCount(rows, cols, Chosen(projections, rows)[i].angle.p) <= Chosen(projections, rows)[i].bins.Length)
    && rows * cols <= support.Length
    && MaxStart(Slopes(Chosen(projections, rows))) <= cols
  }

  /** The projections that the reconstruction uses: the `rows` steepest ones. */
  ghost function Chosen(projections: seq<Projection>, rows: nat): seq<Projection>
    requires rows <= |projections|
  {
    SortBySlope(projections)[..rows]
  }

  /** Projections sorted by slope, ready for a reconstruction. */
  ghost predicate Fit(sel: seq<Projection>, support: array<Word>, cols: nat) {
    && 1 <= |sel|
    && UnitQ(sel) && Descending(Slopes(sel)) && SeparateBins(sel, support)
    && (forall i :: 0 <= i < |sel| ==> LineCount(|sel|, cols, sel[i].angle.p) <= sel[i].bins.Length)
    && |sel| * cols <= support.Length
    && MaxStart(Slopes(sel)) <= cols
  }

  lemma ChosenAreGiven(given: seq<Projection>, rows: nat)
    requires rows <= |given|
    ensures forall i :: 0 <= i < rows ==> Chosen(given, rows)[i] in given
    ensures Buffers(Chosen(given, rows)) <= Buffers(given)
  {
    SortElements(given);
    SameBuffers(given, Chosen(given, rows));
  }

  lemma ChosenIsFit(given: seq<Projection>, support: array<Word>, rows: nat, cols: nat)
    requires Decodable(given, support, rows, cols)
    ensures Fit(Chosen(given, rows), support, cols)
  {
    var sel := Chosen(given, rows);
    SortDescending(given);
    assert Slopes(sel) == Slopes(SortBySlope(given))[..rows];
    ChosenAreGiven(given, rows);
    forall i | 0 <= i < rows ensures sel[i].angle.q == 1 {
      assert sel[i] in given;
    }
  }

  /** The sort at the start of every inverse transform. */
  method SortAndChoose(projections: array<Projection>, rows: nat, cols: nat, ghost support: array<Word>)
    returns (sel: seq<Projection>)
    requires Decodable(projections[..], support, rows, cols)
    modifies projections
    ensures projections[..] == SortBySlope(old(projections[..])) && sel == projections[..rows]
    ensures Fit(sel, support, cols) && sel == old(Chosen(projections[..], rows))
    ensures Buffers(sel) <= old(Buffers(projections[..]))
    ensures forall i :: 0 <= i < rows ==> sel[i] in old(projections[..])
  {
    ChosenIsFit(projections[..], support, rows, cols);
    ChosenAreGiven(projections[..], rows);
    SortProjections(projections);
    sel := projections[..rows];
  }

  /** Both offset tables for the chosen projections. */
  method MakePlan(skipOwn: bool, sel: seq<Projection>, cols: nat, ghost support: array<Word>) returns (plan: Plan)
    requires Fit(sel, support, cols)
    ensures plan.sel == sel && plan.cols == cols && plan.skipOwn == skipOwn
    ensures FreeSupport(plan, support)
  {
    var offsets := Offsets(|sel|, Slopes(sel));
    var kOffsets := StartColumns(Slopes(sel));
    plan := PlanData(skipOwn, sel, Slopes(sel), cols, offsets, kOffsets);
  }

  ghost predicate AllZero(proj: Projection, rows: nat, cols: nat)
    reads proj.bins
  {
    && LineCount(rows, cols, proj.angle.p) <= proj.bins.Length
    && forall b :: 0 <= b < LineCount(rows, cols, proj.angle.p) ==> proj.bins[b] == ZERO
  }

  lemma NothingLeft(plan: Plan, img: Grid)
    requires Residues(plan, img, {}) && !plan.skipOwn
    ensures forall i :: 0 <= i < |plan.sel| ==> AllZero(plan.sel[i], |plan.sel|, plan.cols)
  {
    forall i | 0 <= i < |plan.sel| ensures AllZero(plan.sel[i], |plan.sel|, plan.cols) {
      var proj, rows := plan.sel[i], |plan.sel|;
      assert Residue(false, proj, i, rows, plan.cols, img, {});
      SumsOfNothing(proj.bins[..], LineCount(rows, plan.cols, proj.angle.p), img, rows, proj.angle.p);
    }
  }

  /** The reconstruction loops of the 64-bit version, on sorted projections. */
  method Decode64(support: array<Word>, cols: nat, sel: seq<Projection>, ghost img: Grid)
    requires Fit(sel, support, cols) && Covers(img, |sel|, cols)
    requires forall i :: 0 <= i < |sel| ==> AllLines(sel[i], |sel|, cols, img, AllPixels(|sel|, cols))
    modifies support, Buffers(sel)
    ensures Holds(support[..], img, |sel|, cols) && Rest(support, |sel|, cols) == old(Rest(support, |sel|, cols))
    ensures forall i :: 0 <= i < |sel| ==> AllZero(sel[i], |sel|, cols)
  {
    var plan := MakePlan(false, sel, cols, support);
    Reconstruct(support, plan, img);
    NothingLeft(plan, img);
  }

  /** The support may be longer than the image, and projections that are not used may hold anything. */
  method TransformInverse(support: array<Word>, rows: nat, cols: nat, projections: array<Projection>, ghost img: Grid)
    requires Decodable(projections[..], support, rows, cols) && Covers(img, rows, cols)
    requires forall i :: 0 <= i < rows ==> AllLines(Chosen(projections[..], rows)[i], rows, cols, img, AllPixels(rows, cols))
    modifies support, projections, Buffers(Chosen(projections[..], rows))
    ensures projections[..] == SortBySlope(old(projections[..]))
    ensures Holds(support[..], img, rows, cols) && Rest(support, rows, cols) == old(Rest(support, rows, cols))
    ensures forall i :: 0 <= i < rows ==> AllZero(projections[i], rows, cols)
  {
    hide AllLines, AllZero, SortBySlope, MaxStart, LineCount, Rest;
    ghost var chosen := Chosen(projections[..], rows);
    assert forall i :: 0 <= i < rows ==> AllLines(chosen[i], rows, cols, img, AllPixels(rows, cols));
    var sel := SortAndChoose(projections, rows, cols, support);
    assert sel == chosen;
    Decode64(support, cols, sel, img);
  }
}
