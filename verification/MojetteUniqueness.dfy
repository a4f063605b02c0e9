/**
  Independently of any algorithm: the kept bins of any `rows` projections
  determine the image.  Two images with the same bins are the same image.
 */
module MojetteUniqueness {
  import opened MojetteGeometry
  import opened MojetteLines
  import opened Mojette128
  import opened MojetteLayout

  lemma XorInjective(x: Word, a: Word, b: Word)
    requires Xor(x, a) == Xor(x, b) || Xor(a, x) == Xor(b, x)
    ensures a == b
  {
    forall bit ensures bit in a <==> bit in b {
      if bit in x {
        assert bit in Xor(x, a) <==> bit !in a;
        assert bit in Xor(a, x) <==> bit !in a;
      } else {
        assert bit in Xor(x, a) <==> bit in a;
        assert bit in Xor(a, x) <==> bit in a;
      }
    }
  }

  lemma {:induction false} LineAgree(img: Grid, img': Grid, pend: set<(int, int)>, n: nat, p: int, t: int)
    requires forall l :: 0 <= l < n ==> Cell(img, pend, l, t - Times(l, p)) == Cell(img', pend, l, t - Times(l, p))
    ensures Line(img, pend, n, p, t) == Line(img', pend, n, p, t)
  {
    if n > 0 {
      LineAgree(img, img', pend, n - 1, p, t);
    }
  }

  /** Equal lines that agree on all pixels but one agree on that one too. */
  lemma {:induction false} LineSolve(img: Grid, img': Grid, pend: set<(int, int)>, n: nat, p: int, t: int, l: int)
    requires 0 <= l < n && Line(img, pend, n, p, t) == Line(img', pend, n, p, t)
    requires forall l' :: 0 <= l' < n && l' != l ==>
               Cell(img, pend, l', t - Times(l', p)) == Cell(img', pend, l', t - Times(l', p))
    ensures Cell(img, pend, l, t - Times(l, p)) == Cell(img', pend, l, t - Times(l, p))
  {
    var x, y := Line(img, pend, n - 1, p, t), Line(img', pend, n - 1, p, t);
    var a, b := Cell(img, pend, n - 1, t - Times(n - 1, p)), Cell(img', pend, n - 1, t - Times(n - 1, p));
    assert Xor(x, a) == Xor(y, b);
    if l == n - 1 {
      LineAgree(img, img', pend, n - 1, p, t);
      XorInjective(x, a, b);
    } else {
      XorInjective(a, x, y);
      LineSolve(img, img', pend, n - 1, p, t, l);
    }
  }

  /** The two images have the same sums on the lines that a reconstruction reads. */
  ghost predicate SameReadLines(img: Grid, img': Grid, ps: seq<int>, cols: nat) {
    forall l, c :: InImage(|ps|, cols, l, c) ==>
                     Line(img, AllPixels(|ps|, cols), |ps|, ps[l], c + Times(l, ps[l])) ==
                     Line(img', AllPixels(|ps|, cols), |ps|, ps[l], c + Times(l, ps[l]))
  }

  ghost predicate AgreeBefore(img: Grid, img': Grid, ps: seq<int>, cols: nat, k: int, l: int) {
    forall l', c' :: InImage(|ps|, cols, l', c') && Visited(ps, l', c', k, l) ==>
                       Cell(img, AllPixels(|ps|, cols), l', c') == Cell(img', AllPixels(|ps|, cols), l', c')
  }

  lemma AgreeStep(img: Grid, img': Grid, ps: seq<int>, cols: nat, k: int, l: int)
    requires Descending(ps) && 0 <= l < |ps|
    requires SameReadLines(img, img', ps, cols) && AgreeBefore(img, img', ps, cols, k, l)
    ensures AgreeBefore(img, img', ps, cols, k, l + 1)
  {
    hide Start, Line;
    var c, p, all := k + Start(ps, l), ps[l], AllPixels(|ps|, cols);
    if 0 <= c < cols {
      var t := c + Times(l, p);
      forall l' | 0 <= l' < |ps| && l' != l
        ensures Cell(img, all, l', t - Times(l', p)) == Cell(img', all, l', t - Times(l', p))
      {
        LineAlreadyVisited(ps, l, c, l', t - Times(l', p));
        if !InImage(|ps|, cols, l', t - Times(l', p)) {
          assert (l', t - Times(l', p)) !in all;
        }
      }
      assert InImage(|ps|, cols, l, c);
      LineSolve(img, img', all, |ps|, p, t, l);
      assert t - Times(l, p) == c;
    }
    forall l', c' | InImage(|ps|, cols, l', c') && Visited(ps, l', c', k, l + 1)
      ensures Cell(img, all, l', c') == Cell(img', all, l', c')
    {
      assert Visited(ps, l', c', k, l) || (l' == l && c' == c);
    }
  }

  lemma {:induction false} AgreeRows(img: Grid, img': Grid, ps: seq<int>, cols: nat, k: int, l: nat)
    requires Descending(ps) && l <= |ps|
    requires SameReadLines(img, img', ps, cols) && AgreeBefore(img, img', ps, cols, k, 0)
    ensures AgreeBefore(img, img', ps, cols, k, l)
  {
    if l > 0 {
      AgreeRows(img, img', ps, cols, k, l - 1);
      AgreeStep(img, img', ps, cols, k, l - 1);
    }
  }

  lemma {:induction false} AgreeSteps(img: Grid, img': Grid, ps: seq<int>, cols: nat, k: int)
    requires Descending(ps) && 1 <= |ps| && k >= -MaxStart(ps)
    requires SameReadLines(img, img', ps, cols)
    ensures AgreeBefore(img, img', ps, cols, k, 0)
    decreases k + MaxStart(ps)
  {
    if k == -MaxStart(ps) {
      PendingStart(ps, cols);
      forall l', c' | InImage(|ps|, cols, l', c') ensures !Visited(ps, l', c', k, 0) {
        assert (l', c') in Pending(ps, cols, k, 0);
      }
    } else {
      AgreeSteps(img, img', ps, cols, k - 1);
      AgreeRows(img, img', ps, cols, k - 1, |ps|);
      forall l', c' | InImage(|ps|, cols, l', c') && Visited(ps, l', c', k, 0)
        ensures Visited(ps, l', c', k - 1, |ps|)
      {
      }
    }
  }

  /** Any `rows` different angles: equal read lines, equal images.  No width of the image is excluded. */
  lemma ReadLinesDetermineImage(img: Grid, img': Grid, ps: seq<int>, cols: nat)
    requires Descending(ps) && 1 <= |ps|
    requires forall l, c :: (l, c) in img <==> InImage(|ps|, cols, l, c)
    requires forall l, c :: (l, c) in img' <==> InImage(|ps|, cols, l, c)
    requires SameReadLines(img, img', ps, cols)
    ensures img == img'
  {
    StartBounded(ps, 0);
    AgreeSteps(img, img', ps, cols, cols);
    PendingEnd(ps, cols);
    forall x | x in img ensures x in img' && img[x] == img'[x] {
      assert x == (x.0, x.1);
      assert (x.0, x.1) !in Pending(ps, cols, cols, 0);
      assert Cell(img, AllPixels(|ps|, cols), x.0, x.1) == Cell(img', AllPixels(|ps|, cols), x.0, x.1);
    }
    forall x | x in img' ensures x in img {
      assert x == (x.0, x.1);
      assert InImage(|ps|, cols, x.0, x.1);
      assert (x.0, x.1) in img;
    }
  }

  /**
    The truncated projections of a layout determine the image, whichever `rows`
    of them are left: `kept[i]` holds the first EffectiveSize bins of angle ps[i].
   */
  lemma KeptBinsDetermineImage(img: Grid, img': Grid, angles: seq<int>, ps: seq<int>, cols: nat, kept: seq<seq<Word>>)
    requires Descending(ps) && 1 <= |ps| == |kept| && forall i :: 0 <= i < |ps| ==> ps[i] in angles
    requires forall l, c :: (l, c) in img <==> InImage(|ps|, cols, l, c)
    requires forall l, c :: (l, c) in img' <==> InImage(|ps|, cols, l, c)
    requires forall i :: 0 <= i < |ps| ==> |kept[i]| == EffectiveSize(angles, cols, ps[i])
    requires forall i :: 0 <= i < |ps| ==> Sums(kept[i], |kept[i]|, img, AllPixels(|ps|, cols), |ps|, ps[i])
    requires forall i :: 0 <= i < |ps| ==> Sums(kept[i], |kept[i]|, img', AllPixels(|ps|, cols), |ps|, ps[i])
    ensures img == img'
  {
    var rows, all := |ps|, AllPixels(|ps|, cols);
    forall l, c | InImage(rows, cols, l, c)
      ensures Line(img, all, rows, ps[l], c + Times(l, ps[l])) == Line(img', all, rows, ps[l], c + Times(l, ps[l]))
    {
      EffectiveSizeSuffices(angles, ps, cols, l);
      BinInRange(rows, cols, ps[l], l, c);
      BinHoldsLine(kept[l], |kept[l]|, img, all, rows, ps[l], l, c);
      BinHoldsLine(kept[l], |kept[l]|, img', all, rows, ps[l], l, c);
    }
    ReadLinesDetermineImage(img, img', ps, cols);
  }
}
