/** Projections as the callers of the transform hold them, and their sort by slope. */
module MojetteProjection {
  import opened MojetteGeometry
  import opened MojetteLines

  datatype Angle = Angle(p: int, q: int)

  /** One projection: its angle, the number of bins it keeps and the bins themselves. */
  datatype Projection = Projection(angle: Angle, size: nat, bins: array<Word>)

  function Slopes(ps: seq<Projection>): (r: seq<int>)
    ensures |r| == |ps| && forall i :: 0 <= i < |ps| ==> r[i] == ps[i].angle.p
  {
    if ps == [] then [] else [ps[0].angle.p] + Slopes(ps[1..])
  }

  ghost predicate UnitQ(ps: seq<Projection>) {
    forall i :: 0 <= i < |ps| ==> ps[i].angle.q == 1
  }

  ghost predicate DistinctSlopes(ps: seq<Projection>) {
    forall i, j :: 0 <= i < j < |ps| ==> ps[i].angle.p != ps[j].angle.p
  }

  /** No two projections share a buffer, and none uses the image buffer. */
  ghost predicate SeparateBins(ps: seq<Projection>, support: array<Word>) {
    && (forall i, j :: 0 <= i < j < |ps| ==> ps[i].bins != ps[j].bins)
    && (forall i :: 0 <= i < |ps| ==> ps[i].bins != support)
  }

  ghost function Buffers(ps: seq<Projection>): set<array<Word>> {
    set i | 0 <= i < |ps| :: ps[i].bins
  }

  /** The slope p / q; no angle has q == 0. */
  function SlopeOf(a: Angle): real {
    if a.q == 0 then 0.0 else a.p as real / a.q as real
  }

  /** Comparison used by the sort: larger slopes come first. */
  function CompareAngles(a: Angle, b: Angle): int {
    var x, y := SlopeOf(a), SlopeOf(b);
    if x < y then 1 else if x > y then -1 else 0
  }

  function CompareSlope(a: Projection, b: Projection): int {
    CompareAngles(a.angle, b.angle)
  }

  lemma CompareUnit(a: Projection, b: Projection)
    requires a.angle.q == 1 && b.angle.q == 1
    ensures CompareSlope(a, b) <= 0 <==> a.angle.p >= b.angle.p
  {}

  function Insert(x: Projection, s: seq<Projection>): (r: seq<Projection>)
    ensures |r| == |s| + 1
  {
    if s == [] || CompareSlope(x, s[0]) <= 0 then [x] + s else [s[0]] + Insert(x, s[1..])
  }

  /** A sort for `CompareSlope`; it stands for the C library's qsort. */
  function SortBySlope(s: seq<Projection>): (r: seq<Projection>)
    ensures |r| == |s|
  {
    if s == [] then [] else Insert(s[0], SortBySlope(s[1..]))
  }

  lemma {:induction false} InsertPermutes(x: Projection, s: seq<Projection>)
    ensures multiset(Insert(x, s)) == multiset(s) + multiset{x}
  {
    if s != [] && CompareSlope(x, s[0]) > 0 {
      InsertPermutes(x, s[1..]);
      assert s == [s[0]] + s[1..];
    }
  }

  lemma {:induction false} SortPermutes(s: seq<Projection>)
    ensures multiset(SortBySlope(s)) == multiset(s)
  {
    if s != [] {
      SortPermutes(s[1..]);
      InsertPermutes(s[0], SortBySlope(s[1..]));
      assert s == [s[0]] + s[1..];
    }
  }

  lemma SortElements(s: seq<Projection>)
    ensures forall i :: 0 <= i < |s| ==> SortBySlope(s)[i] in s
    ensures forall i :: 0 <= i < |s| ==> s[i] in SortBySlope(s)
  {
    var r := SortBySlope(s);
    SortPermutes(s);
    forall i | 0 <= i < |s| ensures r[i] in s {
      assert r[i] in multiset(r);
    }
    forall i | 0 <= i < |s| ensures s[i] in r {
      assert s[i] in multiset(s);
    }
  }

  lemma SlopesOfCons(x: Projection, s: seq<Projection>)
    ensures Slopes([x] + s) == [x.angle.p] + Slopes(s)
    ensures Descending(Slopes([x] + s)) <==>
            Descending(Slopes(s)) && forall i :: 0 <= i < |s| ==> s[i].angle.p < x.angle.p
  {
    hide Slopes, Descending;
    assert Slopes([x] + s) == [x.angle.p] + Slopes(s);
    DescendingCons(x.angle.p, Slopes(s));
  }

  lemma DescendingCons(p: int, ps: seq<int>)
    ensures Descending([p] + ps) <==> Descending(ps) && forall i :: 0 <= i < |ps| ==> ps[i] < p
  {
    var s := [p] + ps;
    assert forall i :: 0 <= i < |ps| ==> s[i + 1] == ps[i];
    if Descending(s) {
      forall i, j | 0 <= i < j < |ps| ensures ps[i] > ps[j] {
        assert s[i + 1] > s[j + 1];
      }
      forall i | 0 <= i < |ps| ensures ps[i] < p {
        assert s[0] > s[i + 1];
      }
    }
  }

  lemma {:induction false} InsertDescending(x: Projection, s: seq<Projection>)
    requires x.angle.q == 1 && UnitQ(s)
    requires Descending(Slopes(s))
    requires forall i :: 0 <= i < |s| ==> s[i].angle.p != x.angle.p
    ensures Descending(Slopes(Insert(x, s)))
  {
    if s == [] {
      assert [x] + s == [x];
    } else {
      CompareUnit(x, s[0]);
      assert s == [s[0]] + s[1..];
      SlopesOfCons(s[0], s[1..]);
      if CompareSlope(x, s[0]) <= 0 {
        SlopesOfCons(x, s);
      } else {
        var t := Insert(x, s[1..]);
        InsertDescending(x, s[1..]);
        InsertElements(x, s[1..]);
        forall i | 0 <= i < |t| ensures t[i].angle.p < s[0].angle.p {
          assert t[i] == x || t[i] in s[1..];
        }
        SlopesOfCons(s[0], t);
      }
    }
  }

  lemma InsertElements(x: Projection, s: seq<Projection>)
    ensures forall y :: y in Insert(x, s) ==> y == x || y in s
  {
    InsertPermutes(x, s);
    forall y | y in Insert(x, s) ensures y == x || y in s {
      assert y in multiset(Insert(x, s));
    }
  }

  lemma {:induction false} SortDescending(s: seq<Projection>)
    requires UnitQ(s) && DistinctSlopes(s)
    ensures Descending(Slopes(SortBySlope(s)))
  {
    if s != [] {
      var r := SortBySlope(s[1..]);
      SortDescending(s[1..]);
      SortElements(s[1..]);
      forall i | 0 <= i < |r| ensures r[i].angle.p != s[0].angle.p && r[i].angle.q == 1 {
        assert r[i] in s[1..];
      }
      InsertDescending(s[0], r);
    }
  }

  /** Sorting permutes the projections: buffers stay separate and no buffer appears or disappears. */
  lemma SortKeepsBuffers(s: seq<Projection>, support: array<Word>)
    requires UnitQ(s) && DistinctSlopes(s) && SeparateBins(s, support)
    ensures SeparateBins(SortBySlope(s), support)
    ensures UnitQ(SortBySlope(s))
    ensures Buffers(SortBySlope(s)) == Buffers(s)
  {
    var r := SortBySlope(s);
    SortElements(s);
    SortDescending(s);
    SlopesDecideBuffers(s, r);
    SameBuffers(s, r);
    SameBuffers(r, s);
  }

  lemma SlopesDecideBuffers(s: seq<Projection>, r: seq<Projection>)
    requires forall i :: 0 <= i < |r| ==> r[i] in s
    requires forall i, j :: 0 <= i < j < |s| ==> s[i].bins != s[j].bins
    requires Descending(Slopes(r))
    ensures forall i, j :: 0 <= i < j < |r| ==> r[i].bins != r[j].bins
  {
    forall i, j | 0 <= i < j < |r| ensures r[i].bins != r[j].bins {
      assert Slopes(r)[i] > Slopes(r)[j];
      var a :| 0 <= a < |s| && s[a] == r[i];
      var b :| 0 <= b < |s| && s[b] == r[j];
    }
  }

  lemma SameBuffers(s: seq<Projection>, r: seq<Projection>)
    requires forall i :: 0 <= i < |r| ==> r[i] in s
    ensures Buffers(r) <= Buffers(s)
  {
    forall x | x in Buffers(r) ensures x in Buffers(s) {
      var i :| 0 <= i < |r| && r[i].bins == x;
      var j :| 0 <= j < |s| && s[j] == r[i];
    }
  }

  method SortProjections(projections: array<Projection>)
    modifies projections
    ensures projections[..] == SortBySlope(old(projections[..]))
  {
    var sorted := SortBySlope(projections[..]);
    for i := 0 to projections.Length
      invariant projections[..i] == sorted[..i]
    {
      projections[i] := sorted[i];
    }
  }
}
