/**
  The 128-bit inverse transforms.  Their projections may be truncated: only the
  first `size` bins come from the forward transform, the words behind them are
  scratch space with arbitrary contents.
 */
module Mojette128 {
  import opened MojetteGeometry
  import opened MojetteLines
  import opened MojetteProjection
  import opened MojetteForward
  import opened MojetteInverse

  /** One more than the largest bin that a reconstruction reads in its i-th projection. */
  function ReadBound(rows: int, cols: int, p: int, i: int): int {
    cols + Times(i, p) - Offset(rows, p)
  }

  /** No bin that will be read has been cut off. */
  ghost predicate KeepsReadBins(sel: seq<Projection>, cols: nat) {
    forall i :: 0 <= i < |sel| ==> ReadBound(|sel|, cols, sel[i].angle.p, i) <= sel[i].size
  }

  /** A truncated projection is as good as a full one for the bins that are read. */
  lemma TruncatedResidue(proj: Projection, i: int, rows: nat, cols: nat, img: Grid)
    requires 0 <= i < rows && proj.size <= proj.bins.Length
    requires Projected(proj, img, rows, cols)
    requires ReadBound(rows, cols, proj.angle.p, i) <= proj.size
    ensures Residue(true, proj, i, rows, cols, img, AllPixels(rows, cols))
  {
    RowShift(rows, proj.angle.p, i);
    SumsGiveOwn(proj.bins[..], proj.size, i, img, AllPixels(rows, cols), rows, proj.angle.p);
  }

  /** The reconstruction loops of the 128-bit version, on sorted projections. */
  method Decode128(support: array<Word>, cols: nat, sel: seq<Projection>, ghost img: Grid)
    requires Fit(sel, support, cols) && Covers(img, |sel|, cols)
    requires WellSized(sel) && KeepsReadBins(sel, cols)
    requires forall i :: 0 <= i < |sel| ==> Projected(sel[i], img, |sel|, cols)
    modifies support, Buffers(sel)
    ensures Holds(support[..], img, |sel|, cols) && Rest(support, |sel|, cols) == old(Rest(support, |sel|, cols))
  {
    var plan := MakePlan(true, sel, cols, support);
    forall i | 0 <= i < |sel| ensures Residue(true, sel[i], i, |sel|, cols, img, AllPixels(|sel|, cols)) {
      TruncatedResidue(sel[i], i, |sel|, cols, img);
    }
    Reconstruct(support, plan, img);
  }

  /** Rebuild in place; `cols` counts 64-bit columns. */
  method Transform128Inverse(support: array<Word>, rows: nat, cols: nat, projections: array<Projection>, ghost img: Grid)
    requires Decodable(projections[..], support, rows, cols / 2) && Covers(img, rows, cols / 2)
    requires WellSized(Chosen(projections[..], rows)) && KeepsReadBins(Chosen(projections[..], rows), cols / 2)
    requires forall i :: 0 <= i < rows ==> Projected(Chosen(projections[..], rows)[i], img, rows, cols / 2)
    modifies support, projections, Buffers(Chosen(projections[..], rows))
    ensures projections[..] == SortBySlope(old(projections[..]))
    ensures Holds(support[..], img, rows, cols / 2) && Rest(support, rows, cols / 2) == old(Rest(support, rows, cols / 2))
  {
    hide Projected, SortBySlope, MaxStart, LineCount, Rest;
    ghost var chosen := Chosen(projections[..], rows);
    assert forall i :: 0 <= i < rows ==> Projected(chosen[i], img, rows, cols / 2);
    var sel := SortAndChoose(projections, rows, cols / 2, support);
    assert sel == chosen;
    Decode128(support, cols / 2, sel, img);
  }
}
