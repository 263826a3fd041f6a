/** mm.c from repack on: the cache-blocked matrix product. */
module MatrixMultiply {
  // Tiles are copied into contiguous storage, multiplied there, and copied back; strips that do not
  // fill a tile are multiplied in place.

  import Matrix
  import opened BlockedMatrix
  import opened MatrixKernels

  const CBM: nat := 24
  const CBN: nat := 25
  const CBK: nat := 24

  // ---------------------------------------------------------------- repack

  /** d is c with the window v overwritten by the entries of s. */
  ghost predicate Copied(c: seq<int>, d: seq<int>, v: View, s: Mat, m: nat, n: nat)
  {
    SameWindow(Mat(d, v), s, m, n) && Outside(c, d, v, m, n)
  }

  lemma CopyRows(c: seq<int>, d: seq<int>, e: seq<int>, v: View, s: Mat, k: nat, m: nat, n: nat)
    requires k <= m && n <= v.ld && Copied(c, d, v, s, k, n) && Copied(d, e, Sub(v, k, 0), SubM(s, k, 0), m - k, n)
    ensures Copied(c, e, v, s, m, n)
  {
    hide At, Cell, Sub, SubM, Outside;
    forall i: nat, j: nat | i < m && j < n ensures At(Mat(e, v), i, j) == At(s, i, j) {
      if i < k {
        Undisturbed(d, e, v, k, 0, m - k, n, i, j);
      } else {
        AtWindow(e, v, k, 0, i - k, j);
        AtSub(s, k, 0, i - k, j);
        assert At(Mat(e, Sub(v, k, 0)), i - k, j) == At(SubM(s, k, 0), i - k, j);
      }
    }
    SubNone(v);
    OutsideSub(c, d, v, m, n, 0, 0, k, n);
    OutsideSub(d, e, v, m, n, k, 0, m - k, n);
    OutsideTrans(c, d, e, v, m, n);
  }

  lemma CopyCols(c: seq<int>, d: seq<int>, e: seq<int>, v: View, s: Mat, m: nat, k: nat, n: nat)
    requires k <= n && n <= v.ld && Copied(c, d, v, s, m, k) && Copied(d, e, Sub(v, 0, k), SubM(s, 0, k), m, n - k)
    ensures Copied(c, e, v, s, m, n)
  {
    hide At, Cell, Sub, SubM, Outside;
    forall i: nat, j: nat | i < m && j < n ensures At(Mat(e, v), i, j) == At(s, i, j) {
      if j < k {
        Undisturbed(d, e, v, 0, k, m, n - k, i, j);
      } else {
        AtWindow(e, v, 0, k, i, j - k);
        AtSub(s, 0, k, i, j - k);
        assert At(Mat(e, Sub(v, 0, k)), i, j - k) == At(SubM(s, 0, k), i, j - k);
      }
    }
    SubNone(v);
    OutsideSub(c, d, v, m, n, 0, 0, m, k);
    OutsideSub(d, e, v, m, n, 0, k, m, n - k);
    OutsideTrans(c, d, e, v, m, n);
  }

  lemma CopyNone(c: seq<int>, v: View, s: Mat, m: nat, n: nat)
    requires m == 0 || n == 0
    ensures Copied(c, c, v, s, m, n)
  {
  }

  lemma CopyCell(c: seq<int>, v: View, s: Mat, j: nat)
    requires Cell(v, 0, j) < |c|
    ensures Copied(c, c[Cell(v, 0, j) := At(s, 0, j)], Sub(v, 0, j), SubM(s, 0, j), 1, 1)
  {
    hide Cell, Sub, SubM;
    CellSub(v, 0, j, 0, 0);
    AtSub(s, 0, j, 0, 0);
    assert Cell(v, 0, j) == Cell(Sub(v, 0, j), 0, 0);
    assert InWindow(Cell(v, 0, j), Sub(v, 0, j), 1, 1);
  }

  /** One store of repack: entry j of a row, after the entries before it. */
  method CopyOne(dst: array<int>, dv: View, j: nat, t: int, ghost d0: seq<int>, ghost s: Mat, ghost n: nat)
    requires Fits(dst.Length, dv, 1, n) && j < n <= dv.ld && t == At(s, 0, j) && Copied(d0, dst[..], dv, s, 1, j)
    modifies dst
    ensures Copied(d0, dst[..], dv, s, 1, j + 1)
  {
    hide Cell, Copied, At;
    ghost var d := dst[..];
    CopyCell(d, dv, s, j);
    dst[Cell(dv, 0, j)] := t;
    assert dst[..] == d[Cell(dv, 0, j) := t];
    CopyCols(d0, d, dst[..], dv, s, 1, j, j + 1);
  }

  /** One row of repack: eight loads, then eight stores. */
  method RepackRow(dst: array<int>, dv: View, src: array<int>, sv: View, p: nat)
    requires Fits(dst.Length, dv, 1, p) && Fits(src.Length, sv, 1, p) && p <= dv.ld && dst != src
    modifies dst
    ensures Copied(old(dst[..]), dst[..], dv, Mat(old(src[..]), sv), 1, p)
  {
    hide Cell, Copied;
    ghost var d0, S := dst[..], Mat(src[..], sv);
    CopyNone(d0, dv, S, 1, 0);
    var j := 0;
    while j < p / 8 * 8
      invariant j <= p / 8 * 8 && j % 8 == 0 && src[..] == S.s
      invariant Copied(d0, dst[..], dv, S, 1, j)
    {
      var t0, t1 := src[Cell(sv, 0, j)], src[Cell(sv, 0, j + 1)];
      var t2, t3 := src[Cell(sv, 0, j + 2)], src[Cell(sv, 0, j + 3)];
      var t4, t5 := src[Cell(sv, 0, j + 4)], src[Cell(sv, 0, j + 5)];
      var t6, t7 := src[Cell(sv, 0, j + 6)], src[Cell(sv, 0, j + 7)];
      CopyOne(dst, dv, j, t0, d0, S, p);
      CopyOne(dst, dv, j + 1, t1, d0, S, p);
      CopyOne(dst, dv, j + 2, t2, d0, S, p);
      CopyOne(dst, dv, j + 3, t3, d0, S, p);
      CopyOne(dst, dv, j + 4, t4, d0, S, p);
      CopyOne(dst, dv, j + 5, t5, d0, S, p);
      CopyOne(dst, dv, j + 6, t6, d0, S, p);
      CopyOne(dst, dv, j + 7, t7, d0, S, p);
      j := j + 8;
    }
    while j < p
      invariant j <= p && src[..] == S.s
      invariant Copied(d0, dst[..], dv, S, 1, j)
    {
      CopyOne(dst, dv, j, src[Cell(sv, 0, j)], d0, S, p);
      j := j + 1;
    }
  }

  /** repack. */
  method Repack(dst: array<int>, dv: View, src: array<int>, sv: View, m: nat, p: nat)
    requires Fits(dst.Length, dv, m, p) && Fits(src.Length, sv, m, p) && p <= dv.ld && dst != src
    modifies dst
    ensures Copied(old(dst[..]), dst[..], dv, Mat(old(src[..]), sv), m, p)
  {
    hide Cell, Copied, Fits, SubM;
    ghost var d0, S := dst[..], Mat(src[..], sv);
    CopyNone(d0, dv, S, 0, p);
    var i := 0;
    while i < m
      invariant i <= m && src[..] == S.s
      invariant Copied(d0, dst[..], dv, S, i, p)
    {
      ghost var d := dst[..];
      FitsSub(dst.Length, dv, m, p, i, 0, 1, p);
      FitsSub(src.Length, sv, m, p, i, 0, 1, p);
      RepackRow(dst, Sub(dv, i, 0), src, Sub(sv, i, 0), p);
      SubMat(S, i, 0);
      CopyRows(d0, d, dst[..], dv, S, i, i + 1, p);
      i := i + 1;
    }
  }

  lemma SubMat(a: Mat, i: nat, j: nat)
    ensures SubM(a, i, j) == Mat(a.s, Sub(a.v, i, j))
  {
  }

  // ---------------------------------------------------------------- tiles

  /** The number of tile (bi, bj) when there are nblk tiles in a row of tiles. */
  function TileNo(nblk: nat, bi: nat, bj: nat): nat { nblk * bi + bj }

  /** Tile q of packed storage: r rows of s entries without gaps. */
  function TileView(q: nat, r: nat, s: nat): View { View(q * (r * s), s) }

  function Times(x: nat, y: nat): nat { x * y }

  lemma TileNoNext(nblk: nat, bi: nat, bj: nat)
    ensures TileNo(nblk, bi, bj + 1) == TileNo(nblk, bi, bj) + 1
    ensures TileNo(nblk, bi, nblk) == TileNo(nblk, bi + 1, 0)
    ensures TileNo(nblk, 0, 0) == 0
  {
  }

  lemma TileNoBound(nblk: nat, bi: nat, bj: nat, nrb: nat)
    requires bi < nrb && bj < nblk
    ensures TileNo(nblk, bi, bj) < TileNo(nblk, nrb, 0)
  {
    Matrix.MulMono(bi + 1, nrb, nblk);
  }

  lemma TileNoUnique(nblk: nat, bi: nat, bj: nat, ci: nat, cj: nat)
    requires bj < nblk && cj < nblk && TileNo(nblk, bi, bj) == TileNo(nblk, ci, cj)
    ensures bi == ci && bj == cj
  {
    if bi < ci {
      Matrix.MulMono(bi + 1, ci, nblk);
    } else if ci < bi {
      Matrix.MulMono(ci + 1, bi, nblk);
    }
  }

  lemma TileCell(q: nat, r: nat, s: nat, i: nat, j: nat)
    requires i < r && j < s
    ensures Times(q, r * s) <= Cell(TileView(q, r, s), i, j) < Times(q + 1, r * s)
  {
    Matrix.MulMono(i + 1, r, s);
  }

  lemma TileFits(len: nat, q: nat, r: nat, s: nat, total: nat)
    requires q < total && Times(total, r * s) <= len
    ensures Fits(len, TileView(q, r, s), r, s)
  {
    forall i: nat, j: nat | i < r && j < s ensures Cell(TileView(q, r, s), i, j) < len {
      TileCell(q, r, s, i, j);
      Matrix.MulMono(q + 1, total, r * s);
    }
  }

  /** Writing in one tile leaves the others alone. */
  lemma TilesApart(c: seq<int>, d: seq<int>, q: nat, t: nat, r: nat, s: nat, i: nat, j: nat)
    requires Outside(c, d, TileView(q, r, s), r, s) && t != q && i < r && j < s
    ensures At(Mat(c, TileView(t, r, s)), i, j) == At(Mat(d, TileView(t, r, s)), i, j)
  {
    TileCell(t, r, s, i, j);
    if t < q { Matrix.MulMono(t + 1, q, r * s); } else { Matrix.MulMono(q + 1, t, r * s); }
    hide Cell, TileView;
    var x := Cell(TileView(t, r, s), i, j);
    if InWindow(x, TileView(q, r, s), r, s) {
      var k: nat, l: nat :| k < r && l < s && x == Cell(TileView(q, r, s), k, l);
      TileCell(q, r, s, k, l);
    }
  }

  /** The part of the unpacked window that tile (bi, bj) holds. */
  ghost function Part(w: Mat, bi: nat, bj: nat, r: nat, s: nat): Mat { SubM(w, Times(bi, r), Times(bj, s)) }

  /** Tile (bi, bj) of d holds its part of w plus the product of the matching rows of a and columns of b. */
  ghost predicate TilePlus(d: seq<int>, w: Mat, nblk: nat, r: nat, s: nat, a: Mat, b: Mat, bi: nat, bj: nat, p: nat)
  {
    IsPlus(Mat(d, TileView(TileNo(nblk, bi, bj), r, s)), Part(w, bi, bj, r, s), r, s,
           SubM(a, Times(bi, r), 0), SubM(b, 0, Times(bj, s)), p)
  }

  /** TilePlus for every tile with a number in [from, to). */
  ghost predicate TilesPlus(d: seq<int>, w: Mat, nblk: nat, r: nat, s: nat, a: Mat, b: Mat, from: nat, to: nat, p: nat)
  {
    forall bi: nat, bj: nat | bj < nblk && from <= TileNo(nblk, bi, bj) < to ::
      TilePlus(d, w, nblk, r, s, a, b, bi, bj, p)
  }

  lemma TilesKept(d: seq<int>, e: seq<int>, w: Mat, nblk: nat, r: nat, s: nat, a: Mat, b: Mat, from: nat, to: nat,
                  p: nat, q: nat)
    requires TilesPlus(d, w, nblk, r, s, a, b, from, to, p) && Outside(d, e, TileView(q, r, s), r, s)
    requires (q < from || to <= q)
    ensures TilesPlus(e, w, nblk, r, s, a, b, from, to, p)
  {
    hide At, TileView, TileNo, Part, SubM, Sum, Times, Outside;
    forall bi: nat, bj: nat | bj < nblk && from <= TileNo(nblk, bi, bj) < to
      ensures TilePlus(e, w, nblk, r, s, a, b, bi, bj, p)
    {
      var t := TileNo(nblk, bi, bj);
      assert TilePlus(d, w, nblk, r, s, a, b, bi, bj, p);
      forall i: nat, j: nat | i < r && j < s
        ensures At(Mat(d, TileView(t, r, s)), i, j) == At(Mat(e, TileView(t, r, s)), i, j)
      {
        TilesApart(d, e, q, t, r, s, i, j);
      }
    }
  }

  lemma TilesMore(d: seq<int>, w: Mat, nblk: nat, r: nat, s: nat, a: Mat, b: Mat, from: nat, bi: nat, bj: nat, p: nat)
    requires bj < nblk && TilesPlus(d, w, nblk, r, s, a, b, from, TileNo(nblk, bi, bj), p)
    requires TilePlus(d, w, nblk, r, s, a, b, bi, bj, p)
    ensures TilesPlus(d, w, nblk, r, s, a, b, from, TileNo(nblk, bi, bj + 1), p)
  {
    hide TilePlus, TileNo;
    TileNoNext(nblk, bi, bj);
    forall ci: nat, cj: nat | cj < nblk && from <= TileNo(nblk, ci, cj) < TileNo(nblk, bi, bj + 1)
      ensures TilePlus(d, w, nblk, r, s, a, b, ci, cj, p)
    {
      if TileNo(nblk, ci, cj) == TileNo(nblk, bi, bj) { TileNoUnique(nblk, ci, cj, bi, bj); }
    }
  }

  /** A tile not yet worked on, and the tiles after it. */
  lemma TilesSplit(d: seq<int>, w: Mat, nblk: nat, r: nat, s: nat, a: Mat, b: Mat, bi: nat, bj: nat, to: nat, p: nat)
    requires bj < nblk && TileNo(nblk, bi, bj) < to && TilesPlus(d, w, nblk, r, s, a, b, TileNo(nblk, bi, bj), to, p)
    ensures TilePlus(d, w, nblk, r, s, a, b, bi, bj, p)
    ensures TilesPlus(d, w, nblk, r, s, a, b, TileNo(nblk, bi, bj + 1), to, p)
  {
    hide TilePlus, TileNo;
    TileNoNext(nblk, bi, bj);
  }

  /** A copy is a sum with the empty product, and the other way round. */
  lemma CopyIsPlus(c: seq<int>, d: seq<int>, v: View, w: Mat, m: nat, n: nat, a: Mat, b: Mat)
    requires Copied(c, d, v, w, m, n)
    ensures IsPlus(Mat(d, v), w, m, n, a, b, 0) && Outside(c, d, v, m, n)
  {
    hide At, Outside;
  }

  lemma PlusIsCopy(x: Mat, y: Mat, m: nat, n: nat, a: Mat, b: Mat)
    requires IsPlus(x, y, m, n, a, b, 0)
    ensures SameWindow(x, y, m, n)
  {
    hide At;
  }

  lemma PartFits(len: nat, v: View, nrb: nat, nblk: nat, bi: nat, bj: nat, r: nat, s: nat)
    requires Fits(len, v, Times(nrb, r), Times(nblk, s)) && bi < nrb && bj < nblk
    ensures Fits(len, Sub(v, Times(bi, r), Times(bj, s)), r, s)
  {
    Matrix.MulMono(bi + 1, nrb, r);
    Matrix.MulMono(bj + 1, nblk, s);
    assert Times(bi, r) + r <= Times(nrb, r) && Times(bj, s) + s <= Times(nblk, s);
    hide Times;
    FitsSub(len, v, Times(nrb, r), Times(nblk, s), Times(bi, r), Times(bj, s), r, s);
  }

  /** The loops that fill a1, b1 and c1: every whole tile of the window is copied to its place. */
  method Pack(dst: array<int>, src: array<int>, sv: View, nrb: nat, nblk: nat, r: nat, s: nat, ghost a: Mat,
              ghost b: Mat)
    requires dst != src && Times(TileNo(nblk, nrb, 0), r * s) <= dst.Length
    requires Fits(src.Length, sv, Times(nrb, r), Times(nblk, s))
    modifies dst
    ensures TilesPlus(dst[..], Mat(old(src[..]), sv), nblk, r, s, a, b, 0, TileNo(nblk, nrb, 0), 0)
  {
    hide TileNo, TileView, Times, TilesPlus, IsPlus, Copied, Fits, SubM, Outside, Sub;
    ghost var S := Mat(src[..], sv);
    var bi := 0;
    TileNoNext(nblk, 0, 0);
    TilesNone(dst[..], S, nblk, r, s, a, b);
    while bi < nrb
      invariant bi <= nrb && src[..] == S.s
      invariant TilesPlus(dst[..], S, nblk, r, s, a, b, 0, TileNo(nblk, bi, 0), 0)
    {
      var bj := 0;
      while bj < nblk
        invariant bj <= nblk && src[..] == S.s
        invariant TilesPlus(dst[..], S, nblk, r, s, a, b, 0, TileNo(nblk, bi, bj), 0)
      {
        ghost var d := dst[..];
        var q := TileNo(nblk, bi, bj);
        TileNoBound(nblk, bi, bj, nrb);
        TileFits(dst.Length, q, r, s, TileNo(nblk, nrb, 0));
        PartFits(src.Length, sv, nrb, nblk, bi, bj, r, s);
        TileStride(q, r, s);
        Repack(dst, TileView(q, r, s), src, Sub(sv, Times(bi, r), Times(bj, s)), r, s);
        SubMat(S, Times(bi, r), Times(bj, s));
        CopyIsPlus(d, dst[..], TileView(q, r, s), Part(S, bi, bj, r, s), r, s,
                   SubM(a, Times(bi, r), 0), SubM(b, 0, Times(bj, s)));
        assert TilePlus(dst[..], S, nblk, r, s, a, b, bi, bj, 0);
        TilesKept(d, dst[..], S, nblk, r, s, a, b, 0, q, 0, q);
        TilesMore(dst[..], S, nblk, r, s, a, b, 0, bi, bj, 0);
        bj := bj + 1;
      }
      TileNoNext(nblk, bi, 0);
      bi := bi + 1;
    }
  }

  lemma TileStride(q: nat, r: nat, s: nat)
    ensures TileView(q, r, s).ld == s
  {
  }

  lemma TilesNone(d: seq<int>, w: Mat, nblk: nat, r: nat, s: nat, a: Mat, b: Mat)
    ensures TilesPlus(d, w, nblk, r, s, a, b, 0, 0, 0)
  {
    hide TilePlus, TileNo;
  }

  // ---------------------------------------------------------------- multiplying tiles

  /** A sum over equal windows is the same sum. */
  lemma MulAddSame(c: seq<int>, d: seq<int>, v: View, m: nat, n: nat, a: Mat, b: Mat, a': Mat, b': Mat, p: nat)
    requires MulAdd(c, d, v, m, n, a, b, p) && SameWindow(a, a', m, p) && SameWindow(b, b', p, n)
    ensures MulAdd(c, d, v, m, n, a', b', p)
  {
    hide At, Sum, Outside, SameWindow;
    forall i: nat, j: nat | i < m && j < n ensures Sum(a, b, i, j, p) == Sum(a', b', i, j, p) {
      SumSame(a, b, a', b', m, n, i, j, p, p);
    }
  }

  lemma PartAsSub(w: Mat, bi: nat, bj: nat, r: nat, s: nat)
    ensures Part(w, bi, bj, r, s) == SubM(SubM(w, Times(bi, r), 0), 0, Times(bj, s))
    ensures Part(w, bi, bj, r, s) == SubM(SubM(w, 0, Times(bj, s)), Times(bi, r), 0)
  {
    hide Times, Sub;
    SubSub(w.v, Times(bi, r), 0, 0, Times(bj, s));
    SubSub(w.v, 0, Times(bj, s), Times(bi, r), 0);
  }

  lemma TimesNext(x: nat, y: nat)
    ensures Times(x + 1, y) == Times(x, y) + y && Times(0, y) == 0
  {
  }

  /** A product over a depth of p taken CBK at a time, the last step shorter. */
  method Depthwise(m: nat, n: nat, p: nat, a: array<int>, av: View, b: array<int>, bv: View, c: array<int>, cv: View)
    requires Fits(a.Length, av, m, p) && Fits(b.Length, bv, p, n) && Fits(c.Length, cv, m, n)
    requires n <= cv.ld && c != a && c != b
    modifies c
    ensures MulAdd(old(c[..]), c[..], cv, m, n, Mat(old(a[..]), av), Mat(old(b[..]), bv), p)
  {
    hide Cell, Sum, MulAdd, Fits, Sub, SubM;
    ghost var A, B, c0 := Mat(a[..], av), Mat(b[..], bv), c[..];
    AddNone(c0, cv, m, n, A, B, 0);
    var k := 0;
    while k < p
      invariant a[..] == A.s && b[..] == B.s
      invariant MulAdd(c0, c[..], cv, m, n, A, B, if k < p then k else p)
    {
      ghost var ck := c[..];
      var q := if p - k < CBK then p - k else CBK;
      FitsSub(a.Length, av, m, p, 0, k, m, q);
      FitsSub(b.Length, bv, p, n, k, 0, q, n);
      RegisterBlocked(m, n, q, a, Sub(av, 0, k), b, Sub(bv, k, 0), c, cv);
      SubMat(A, 0, k);
      SubMat(B, k, 0);
      AddDepth(c0, ck, c[..], cv, m, n, A, B, k, q);
      k := k + CBK;
    }
  }

  /** The product for one tile of c1: whole tiles of a1 and b1, then the depth left over, read in place. */
  method MultiplyTile(p: nat, a: array<int>, av: View, b: array<int>, bv: View, a1: array<int>, b1: array<int>,
                      c1: array<int>, npb: nat, nnb: nat, bi: nat, bj: nat, ghost nmb: nat, ghost X: Mat, ghost Y: Mat)
    requires c1 !in {a, b, a1, b1} && Times(npb, CBK) <= p && bi < nmb && bj < nnb
    requires Times(TileNo(npb, nmb, 0), CBM * CBK) <= a1.Length && Times(TileNo(nnb, npb, 0), CBK * CBN) <= b1.Length
    requires Times(TileNo(nnb, nmb, 0), CBM * CBN) <= c1.Length
    requires Fits(a.Length, av, Times(nmb, CBM), p) && Fits(b.Length, bv, p, Times(nnb, CBN))
    requires TilesPlus(a1[..], Mat(a[..], av), npb, CBM, CBK, X, Y, 0, TileNo(npb, nmb, 0), 0)
    requires TilesPlus(b1[..], Mat(b[..], bv), nnb, CBK, CBN, X, Y, 0, TileNo(nnb, npb, 0), 0)
    modifies c1
    ensures MulAdd(old(c1[..]), c1[..], TileView(TileNo(nnb, bi, bj), CBM, CBN), CBM, CBN,
                   SubM(Mat(old(a[..]), av), Times(bi, CBM), 0), SubM(Mat(old(b[..]), bv), 0, Times(bj, CBN)), p)
  {
    hide Cell, Sum, MulAdd, Fits, Sub, SubM, TileView, TileNo, Times, IsPlus, SameWindow;
    ghost var A, B, c0 := SubM(Mat(a[..], av), Times(bi, CBM), 0), SubM(Mat(b[..], bv), 0, Times(bj, CBN)), c1[..];
    var cv := TileView(TileNo(nnb, bi, bj), CBM, CBN);
    TileStride(TileNo(nnb, bi, bj), CBM, CBN);
    TileNoBound(nnb, bi, bj, nmb);
    TileFits(c1.Length, TileNo(nnb, bi, bj), CBM, CBN, TileNo(nnb, nmb, 0));
    AddNone(c0, cv, CBM, CBN, A, B, 0);
    TimesNext(0, CBK);
    var bk := 0;
    while bk < npb
      invariant bk <= npb && a1[..] == old(a1[..]) && b1[..] == old(b1[..])
      invariant a[..] == old(a[..]) && b[..] == old(b[..])
      invariant MulAdd(c0, c1[..], cv, CBM, CBN, A, B, Times(bk, CBK))
    {
      ghost var ck := c1[..];
      TileNoBound(npb, bi, bk, nmb);
      TileNoBound(nnb, bk, bj, npb);
      TileFits(a1.Length, TileNo(npb, bi, bk), CBM, CBK, TileNo(npb, nmb, 0));
      TileFits(b1.Length, TileNo(nnb, bk, bj), CBK, CBN, TileNo(nnb, npb, 0));
      var ta, tb := TileView(TileNo(npb, bi, bk), CBM, CBK), TileView(TileNo(nnb, bk, bj), CBK, CBN);
      RegisterBlocked(CBM, CBN, CBK, a1, ta, b1, tb, c1, cv);
      assert TilePlus(a1[..], Mat(a[..], av), npb, CBM, CBK, X, Y, bi, bk, 0);
      assert TilePlus(b1[..], Mat(b[..], bv), nnb, CBK, CBN, X, Y, bk, bj, 0);
      PlusIsCopy(Mat(a1[..], ta), Part(Mat(a[..], av), bi, bk, CBM, CBK), CBM, CBK,
                 SubM(X, Times(bi, CBM), 0), SubM(Y, 0, Times(bk, CBK)));
      PlusIsCopy(Mat(b1[..], tb), Part(Mat(b[..], bv), bk, bj, CBK, CBN), CBK, CBN,
                 SubM(X, Times(bk, CBK), 0), SubM(Y, 0, Times(bj, CBN)));
      PartAsSub(Mat(a[..], av), bi, bk, CBM, CBK);
      PartAsSub(Mat(b[..], bv), bk, bj, CBK, CBN);
      MulAddSame(ck, c1[..], cv, CBM, CBN, Mat(a1[..], ta), Mat(b1[..], tb),
                 SubM(A, 0, Times(bk, CBK)), SubM(B, Times(bk, CBK), 0), CBK);
      AddDepth(c0, ck, c1[..], cv, CBM, CBN, A, B, Times(bk, CBK), CBK);
      TimesNext(bk, CBK);
      bk := bk + 1;
    }
    var pb := Times(npb, CBK);
    if pb < p {
      ghost var ck := c1[..];
      DepthFits(a.Length, av, b.Length, bv, nmb, nnb, bi, bj, pb, p);
      var va, vb := Sub(av, Times(bi, CBM), pb), Sub(bv, pb, Times(bj, CBN));
      RegisterBlocked(CBM, CBN, p - pb, a, va, b, vb, c1, cv);
      DepthParts(Mat(a[..], av), Mat(b[..], bv), Times(bi, CBM), Times(bj, CBN), pb);
      AddDepth(c0, ck, c1[..], cv, CBM, CBN, A, B, pb, p - pb);
    }
  }

  lemma DepthFits(la: nat, av: View, lb: nat, bv: View, nmb: nat, nnb: nat, bi: nat, bj: nat, pb: nat, p: nat)
    requires Fits(la, av, Times(nmb, CBM), p) && Fits(lb, bv, p, Times(nnb, CBN)) && bi < nmb && bj < nnb && pb <= p
    ensures Fits(la, Sub(av, Times(bi, CBM), pb), CBM, p - pb) && Fits(lb, Sub(bv, pb, Times(bj, CBN)), p - pb, CBN)
  {
    Matrix.MulMono(bi + 1, nmb, CBM);
    Matrix.MulMono(bj + 1, nnb, CBN);
    FitsSub(la, av, Times(nmb, CBM), p, Times(bi, CBM), pb, CBM, p - pb);
    FitsSub(lb, bv, p, Times(nnb, CBN), pb, Times(bj, CBN), p - pb, CBN);
  }

  lemma DepthParts(a: Mat, b: Mat, i: nat, j: nat, k: nat)
    ensures SubM(SubM(a, i, 0), 0, k) == Mat(a.s, Sub(a.v, i, k))
    ensures SubM(SubM(b, 0, j), k, 0) == Mat(b.s, Sub(b.v, k, j))
  {
    hide Sub;
    SubSub(a.v, i, 0, 0, k);
    SubSub(b.v, 0, j, k, 0);
  }

  /** Adding a product to a copy makes a sum. */
  lemma CopyPlusProduct(c: seq<int>, d: seq<int>, v: View, w: Mat, m: nat, n: nat, a: Mat, b: Mat, p: nat)
    requires IsPlus(Mat(c, v), w, m, n, a, b, 0) && MulAdd(c, d, v, m, n, a, b, p)
    ensures IsPlus(Mat(d, v), w, m, n, a, b, p) && Outside(c, d, v, m, n)
  {
    hide At, Outside;
    PlusIsCopy(Mat(c, v), w, m, n, a, b);
    hide Sum;
  }

  /** One row of tiles of c1. */
  method MultiplyTileRow(p: nat, a: array<int>, av: View, b: array<int>, bv: View, a1: array<int>, b1: array<int>,
                         c1: array<int>, npb: nat, nnb: nat, bi: nat,
                         ghost nmb: nat, ghost w: Mat, ghost X: Mat, ghost Y: Mat)
    requires c1 !in {a, b, a1, b1} && Times(npb, CBK) <= p && bi < nmb
    requires Times(TileNo(npb, nmb, 0), CBM * CBK) <= a1.Length && Times(TileNo(nnb, npb, 0), CBK * CBN) <= b1.Length
    requires Times(TileNo(nnb, nmb, 0), CBM * CBN) <= c1.Length
    requires Fits(a.Length, av, Times(nmb, CBM), p) && Fits(b.Length, bv, p, Times(nnb, CBN))
    requires TilesPlus(a1[..], Mat(a[..], av), npb, CBM, CBK, X, Y, 0, TileNo(npb, nmb, 0), 0)
    requires TilesPlus(b1[..], Mat(b[..], bv), nnb, CBK, CBN, X, Y, 0, TileNo(nnb, npb, 0), 0)
    requires var A, B, all := Mat(a[..], av), Mat(b[..], bv), TileNo(nnb, nmb, 0);
      && TilesPlus(c1[..], w, nnb, CBM, CBN, A, B, 0, TileNo(nnb, bi, 0), p)
      && TilesPlus(c1[..], w, nnb, CBM, CBN, A, B, TileNo(nnb, bi, 0), all, 0)
    modifies c1
    ensures var A, B, all := Mat(old(a[..]), av), Mat(old(b[..]), bv), TileNo(nnb, nmb, 0);
      && TilesPlus(c1[..], w, nnb, CBM, CBN, A, B, 0, TileNo(nnb, bi + 1, 0), p)
      && TilesPlus(c1[..], w, nnb, CBM, CBN, A, B, TileNo(nnb, bi + 1, 0), all, 0)
  {
    hide Cell, Sum, MulAdd, Fits, Sub, SubM, TileView, TileNo, Times, TilesPlus, IsPlus, Outside;
    ghost var A, B, all := Mat(a[..], av), Mat(b[..], bv), TileNo(nnb, nmb, 0);
    var bj := 0;
    while bj < nnb
      invariant bj <= nnb && a1[..] == old(a1[..]) && b1[..] == old(b1[..])
      invariant a[..] == A.s && b[..] == B.s
      invariant TilesPlus(c1[..], w, nnb, CBM, CBN, A, B, 0, TileNo(nnb, bi, bj), p)
      invariant TilesPlus(c1[..], w, nnb, CBM, CBN, A, B, TileNo(nnb, bi, bj), all, 0)
    {
      ghost var c := c1[..];
      ghost var q := TileNo(nnb, bi, bj);
      TileNoBound(nnb, bi, bj, nmb);
      TilesSplit(c, w, nnb, CBM, CBN, A, B, bi, bj, all, 0);
      MultiplyTile(p, a, av, b, bv, a1, b1, c1, npb, nnb, bi, bj, nmb, X, Y);
      CopyPlusProduct(c, c1[..], TileView(q, CBM, CBN), Part(w, bi, bj, CBM, CBN), CBM, CBN,
                      SubM(A, Times(bi, CBM), 0), SubM(B, 0, Times(bj, CBN)), p);
      assert TilePlus(c1[..], w, nnb, CBM, CBN, A, B, bi, bj, p);
      TilesKept(c, c1[..], w, nnb, CBM, CBN, A, B, 0, q, p, q);
      TileNoNext(nnb, bi, bj);
      TilesKept(c, c1[..], w, nnb, CBM, CBN, A, B, q + 1, all, 0, q);
      TilesMore(c1[..], w, nnb, CBM, CBN, A, B, 0, bi, bj, p);
      bj := bj + 1;
    }
    TileNoNext(nnb, bi, 0);
  }

  // ---------------------------------------------------------------- mm_cb

  /** The main loop of mm_cb: every row of tiles in c1, and in c itself the columns right of the tiles. */
  method MultiplyTiles(n: nat, p: nat, a: array<int>, av: View, b: array<int>, bv: View, c: array<int>, cv: View,
                       a1: array<int>, b1: array<int>, c1: array<int>, nmb: nat, nnb: nat, npb: nat,
                       ghost X: Mat, ghost Y: Mat)
    requires c1 !in {a, b, c, a1, b1} && c !in {a, b, a1, b1} && Times(npb, CBK) <= p && Times(nnb, CBN) <= n <= cv.ld
    requires Times(TileNo(npb, nmb, 0), CBM * CBK) <= a1.Length && Times(TileNo(nnb, npb, 0), CBK * CBN) <= b1.Length
    requires Times(TileNo(nnb, nmb, 0), CBM * CBN) <= c1.Length
    requires Fits(a.Length, av, Times(nmb, CBM), p) && Fits(b.Length, bv, p, n)
    requires Fits(c.Length, cv, Times(nmb, CBM), n)
    requires TilesPlus(a1[..], Mat(a[..], av), npb, CBM, CBK, X, Y, 0, TileNo(npb, nmb, 0), 0)
    requires TilesPlus(b1[..], Mat(b[..], bv), nnb, CBK, CBN, X, Y, 0, TileNo(nnb, npb, 0), 0)
    requires TilesPlus(c1[..], Mat(c[..], cv), nnb, CBM, CBN, Mat(a[..], av), Mat(b[..], bv), 0, TileNo(nnb, nmb, 0), 0)
    modifies c, c1
    ensures var A, B, nb := Mat(old(a[..]), av), Mat(old(b[..]), bv), Times(nnb, CBN);
      && TilesPlus(c1[..], Mat(old(c[..]), cv), nnb, CBM, CBN, A, B, 0, TileNo(nnb, nmb, 0), p)
      && MulAdd(old(c[..]), c[..], Sub(cv, 0, nb), Times(nmb, CBM), n - nb, A, SubM(B, 0, nb), p)
  {
    hide Cell, Sum, MulAdd, Fits, Sub, SubM, TileView, TileNo, Times, TilesPlus, TilePlus, Outside;
    ghost var A, B, c0, all := Mat(a[..], av), Mat(b[..], bv), c[..], TileNo(nnb, nmb, 0);
    var nb := Times(nnb, CBN);
    FitsSub(b.Length, bv, p, n, 0, 0, p, nb);
    SubNone(bv);
    TimesNext(0, CBM);
    TileNoNext(nnb, 0, 0);
    TilesEmpty(c1[..], Mat(c0, cv), nnb, CBM, CBN, A, B, p);
    AddNone(c0, Sub(cv, 0, nb), 0, n - nb, A, SubM(B, 0, nb), p);
    var bi := 0;
    while bi < nmb
      invariant bi <= nmb && a1[..] == old(a1[..]) && b1[..] == old(b1[..])
      invariant a[..] == A.s && b[..] == B.s
      invariant TilesPlus(c1[..], Mat(c0, cv), nnb, CBM, CBN, A, B, 0, TileNo(nnb, bi, 0), p)
      invariant TilesPlus(c1[..], Mat(c0, cv), nnb, CBM, CBN, A, B, TileNo(nnb, bi, 0), all, 0)
      invariant MulAdd(c0, c[..], Sub(cv, 0, nb), Times(bi, CBM), n - nb, A, SubM(B, 0, nb), p)
    {
      MultiplyTileRow(p, a, av, b, bv, a1, b1, c1, npb, nnb, bi, nmb, Mat(c0, cv), X, Y);
      Strip(bi, nmb, n, p, a, av, b, bv, c, cv, nb, c0);
      TimesNext(bi, CBM);
      bi := bi + 1;
    }
  }

  lemma TilesEmpty(d: seq<int>, w: Mat, nblk: nat, r: nat, s: nat, a: Mat, b: Mat, p: nat)
    ensures TilesPlus(d, w, nblk, r, s, a, b, 0, 0, p)
  {
    hide TilePlus, TileNo;
  }

  /** The columns right of the tiles, for one row of tiles. */
  method Strip(bi: nat, ghost nmb: nat, n: nat, p: nat, a: array<int>, av: View, b: array<int>, bv: View,
               c: array<int>, cv: View, nb: nat, ghost c0: seq<int>)
    requires nb <= n <= cv.ld && c != a && c != b && bi < nmb
    requires Fits(a.Length, av, Times(nmb, CBM), p) && Fits(b.Length, bv, p, n)
    requires Fits(c.Length, cv, Times(nmb, CBM), n)
    requires MulAdd(c0, c[..], Sub(cv, 0, nb), Times(bi, CBM), n - nb, Mat(a[..], av), SubM(Mat(b[..], bv), 0, nb), p)
    modifies c
    ensures MulAdd(c0, c[..], Sub(cv, 0, nb), Times(bi, CBM) + CBM, n - nb,
                   Mat(old(a[..]), av), SubM(Mat(old(b[..]), bv), 0, nb), p)
  {
    hide Cell, Sum, MulAdd, Fits, Sub, SubM, Times;
    ghost var A, B, ci := Mat(a[..], av), Mat(b[..], bv), c[..];
    var i := Times(bi, CBM);
    TimesUpTo(bi + 1, nmb, CBM);
    TimesNext(bi, CBM);
    FitsSub(a.Length, av, Times(nmb, CBM), p, i, 0, CBM, p);
    FitsSub(b.Length, bv, p, n, 0, nb, p, n - nb);
    FitsSub(c.Length, cv, Times(nmb, CBM), n, i, nb, CBM, n - nb);
    SubLd(cv, i, nb);
    if nb < n {
      Depthwise(CBM, n - nb, p, a, Sub(av, i, 0), b, Sub(bv, 0, nb), c, Sub(cv, i, nb));
    } else {
      AddNone(ci, Sub(cv, i, nb), CBM, n - nb, Mat(A.s, Sub(av, i, 0)), Mat(B.s, Sub(bv, 0, nb)), p);
    }
    SubMat(A, i, 0);
    SubMat(B, 0, nb);
    SubSub(cv, 0, nb, i, 0);
    SubLd(cv, 0, nb);
    AddRows(c0, ci, c[..], Sub(cv, 0, nb), i, i + CBM, n - nb, A, SubM(B, 0, nb), p);
  }

  /** The rows below the tiles. */
  method Bottom(m: nat, n: nat, p: nat, a: array<int>, av: View, b: array<int>, bv: View, c: array<int>, cv: View,
                mb: nat)
    requires Fits(a.Length, av, m, p) && Fits(b.Length, bv, p, n) && Fits(c.Length, cv, m, n)
    requires mb <= m && n <= cv.ld && c != a && c != b
    modifies c
    ensures MulAdd(old(c[..]), c[..], Sub(cv, mb, 0), m - mb, n,
                   SubM(Mat(old(a[..]), av), mb, 0), Mat(old(b[..]), bv), p)
  {
    hide Cell, Sum, MulAdd, Fits, Sub, SubM;
    ghost var A, B, c0 := Mat(a[..], av), Mat(b[..], bv), c[..];
    ghost var v, Am := Sub(cv, mb, 0), SubM(A, mb, 0);
    SubLd(cv, mb, 0);
    FitsSub(a.Length, av, m, p, mb, 0, m - mb, p);
    FitsSub(c.Length, cv, m, n, mb, 0, m - mb, n);
    AddNone(c0, v, m - mb, 0, Am, B, p);
    SubMat(A, mb, 0);
    if mb < m {
      var j := 0;
      while j < n
        invariant a[..] == A.s && b[..] == B.s
        invariant MulAdd(c0, c[..], v, m - mb, if j < n then j else n, Am, B, p)
      {
        ghost var cj := c[..];
        var w := if n - j < CBN then n - j else CBN;
        FitsSub(b.Length, bv, p, n, 0, j, p, w);
        FitsSub(c.Length, cv, m, n, mb, j, m - mb, w);
        SubLd(cv, mb, j);
        Depthwise(m - mb, w, p, a, Sub(av, mb, 0), b, Sub(bv, 0, j), c, Sub(cv, mb, j));
        SubMat(B, 0, j);
        SubSub(cv, mb, 0, 0, j);
        AddCols(c0, cj, c[..], v, m - mb, j, j + w, Am, B, p);
        j := j + CBN;
      }
    } else {
      AddNone(c0, v, m - mb, n, Am, B, p);
    }
  }

  // ---------------------------------------------------------------- copying the tiles back

  /** Copying a finished tile t back to a window that still holds w adds the product to the window. */
  lemma TileBack(c: seq<int>, d: seq<int>, v: View, t: Mat, w: Mat, m: nat, n: nat, a: Mat, b: Mat, p: nat)
    requires IsPlus(t, w, m, n, a, b, p) && SameWindow(Mat(c, v), w, m, n) && Copied(c, d, v, t, m, n)
    ensures MulAdd(c, d, v, m, n, a, b, p)
  {
    hide At, Outside, Sum;
  }

  /** What of the tiled window is not yet copied back is still as it was. */
  lemma StillThere(c: seq<int>, ci: seq<int>, cj: seq<int>, v: View, w: Mat, nmb: nat, nnb: nat, bi: nat, bj: nat,
                   A: Mat, B: Mat, p: nat)
    requires bi < nmb && bj < nnb && Times(nnb, CBN) <= v.ld && w.v == v
    requires SameWindow(Mat(c, v), w, Times(nmb, CBM), Times(nnb, CBN))
    requires MulAdd(c, ci, v, Times(bi, CBM), Times(nnb, CBN), A, B, p)
    requires MulAdd(ci, cj, Sub(v, Times(bi, CBM), 0), CBM, Times(bj, CBN), SubM(A, Times(bi, CBM), 0), B, p)
    ensures SameWindow(Mat(cj, Sub(v, Times(bi, CBM), Times(bj, CBN))),
                       SubM(w, Times(bi, CBM), Times(bj, CBN)), CBM, CBN)
  {
    Matrix.MulMono(bi + 1, nmb, CBM);
    Matrix.MulMono(bj + 1, nnb, CBN);
    var i, j := Times(bi, CBM), Times(bj, CBN);
    assert i + CBM <= Times(nmb, CBM) && j + CBN <= Times(nnb, CBN);
    hide At, Sub, SubM, Times, Outside, Sum, Cell, IsPlus;
    forall k: nat, l: nat | k < CBM && l < CBN
      ensures At(Mat(cj, Sub(v, i, j)), k, l) == At(SubM(w, i, j), k, l)
    {
      AtWindow(cj, v, i, j, k, l);
      AtSub(w, i, j, k, l);
      SubNone(v);
      Undisturbed(c, ci, v, 0, 0, i, Times(nnb, CBN), i + k, j + l);
      Undisturbed(ci, cj, v, i, 0, CBM, j, i + k, j + l);
      assert At(Mat(c, v), i + k, j + l) == At(w, i + k, j + l);
    }
  }

  /** The last loops of mm_cb. */
  method Unpack(c: array<int>, cv: View, c1: array<int>, nmb: nat, nnb: nat, ghost w: Mat, ghost A: Mat, ghost B: Mat,
                ghost p: nat)
    requires c != c1 && w.v == cv && Times(nnb, CBN) <= cv.ld && Fits(c.Length, cv, Times(nmb, CBM), Times(nnb, CBN))
    requires Times(TileNo(nnb, nmb, 0), CBM * CBN) <= c1.Length
    requires TilesPlus(c1[..], w, nnb, CBM, CBN, A, B, 0, TileNo(nnb, nmb, 0), p)
    requires SameWindow(Mat(c[..], cv), w, Times(nmb, CBM), Times(nnb, CBN))
    modifies c
    ensures MulAdd(old(c[..]), c[..], cv, Times(nmb, CBM), Times(nnb, CBN), A, B, p)
  {
    hide Cell, Sum, MulAdd, Fits, Sub, SubM, TileView, TileNo, Times, TilesPlus, TilePlus, Copied, SameWindow;
    ghost var c0, nb := c[..], Times(nnb, CBN);
    TimesNext(0, CBM);
    TimesNext(0, CBN);
    AddNone(c0, cv, 0, nb, A, B, p);
    var bi := 0;
    while bi < nmb
      invariant bi <= nmb && c1[..] == old(c1[..])
      invariant MulAdd(c0, c[..], cv, Times(bi, CBM), nb, A, B, p)
    {
      ghost var ci := c[..];
      ghost var v, Ai := Sub(cv, Times(bi, CBM), 0), SubM(A, Times(bi, CBM), 0);
      AddNone(ci, v, CBM, 0, Ai, B, p);
      var bj := 0;
      while bj < nnb
        invariant bj <= nnb && c1[..] == old(c1[..])
        invariant MulAdd(ci, c[..], v, CBM, Times(bj, CBN), Ai, B, p)
      {
        ghost var cj := c[..];
        UnpackTile(c, cv, c1, nmb, nnb, bi, bj, w, A, B, p, c0, ci);
        SubSub(cv, Times(bi, CBM), 0, 0, Times(bj, CBN));
        SubLd(cv, Times(bi, CBM), 0);
        TimesNext(bj, CBN);
        TimesUpTo(bj + 1, nnb, CBN);
        AddCols(ci, cj, c[..], v, CBM, Times(bj, CBN), Times(bj + 1, CBN), Ai, B, p);
        bj := bj + 1;
      }
      TimesNext(bi, CBM);
      AddRows(c0, ci, c[..], cv, Times(bi, CBM), Times(bi + 1, CBM), nb, A, B, p);
      bi := bi + 1;
    }
  }

  lemma TimesUpTo(x: nat, y: nat, s: nat)
    requires x <= y
    ensures Times(x, s) <= Times(y, s)
  {
    Matrix.MulMono(x, y, s);
  }

  method UnpackTile(c: array<int>, cv: View, c1: array<int>, ghost nmb: nat, nnb: nat, bi: nat, bj: nat,
                    ghost w: Mat, ghost A: Mat, ghost B: Mat, ghost p: nat, ghost c0: seq<int>, ghost ci: seq<int>)
    requires c != c1 && w.v == cv && Times(nnb, CBN) <= cv.ld && Fits(c.Length, cv, Times(nmb, CBM), Times(nnb, CBN))
    requires Times(TileNo(nnb, nmb, 0), CBM * CBN) <= c1.Length && bi < nmb && bj < nnb
    requires TilesPlus(c1[..], w, nnb, CBM, CBN, A, B, 0, TileNo(nnb, nmb, 0), p)
    requires SameWindow(Mat(c0, cv), w, Times(nmb, CBM), Times(nnb, CBN))
    requires MulAdd(c0, ci, cv, Times(bi, CBM), Times(nnb, CBN), A, B, p)
    requires MulAdd(ci, c[..], Sub(cv, Times(bi, CBM), 0), CBM, Times(bj, CBN), SubM(A, Times(bi, CBM), 0), B, p)
    modifies c
    ensures MulAdd(old(c[..]), c[..], Sub(cv, Times(bi, CBM), Times(bj, CBN)), CBM, CBN,
                   SubM(A, Times(bi, CBM), 0), SubM(B, 0, Times(bj, CBN)), p)
  {
    hide Cell, Sum, MulAdd, Fits, Sub, SubM, TileView, TileNo, Times, IsPlus, Copied, SameWindow;
    ghost var cj := c[..];
    var q := TileNo(nnb, bi, bj);
    TileNoBound(nnb, bi, bj, nmb);
    TileFits(c1.Length, q, CBM, CBN, TileNo(nnb, nmb, 0));
    PartFits(c.Length, cv, nmb, nnb, bi, bj, CBM, CBN);
    StillThere(c0, ci, cj, cv, w, nmb, nnb, bi, bj, A, B, p);
    TimesUpTo(bj + 1, nnb, CBN);
    TimesNext(bj, CBN);
    SubLd(cv, Times(bi, CBM), Times(bj, CBN));
    Repack(c, Sub(cv, Times(bi, CBM), Times(bj, CBN)), c1, TileView(q, CBM, CBN), CBM, CBN);
    assert TilePlus(c1[..], w, nnb, CBM, CBN, A, B, bi, bj, p);
    TileBack(cj, c[..], Sub(cv, Times(bi, CBM), Times(bj, CBN)), Mat(c1[..], TileView(q, CBM, CBN)),
             Part(w, bi, bj, CBM, CBN), CBM, CBN, SubM(A, Times(bi, CBM), 0), SubM(B, 0, Times(bj, CBN)), p);
  }

  /** The strip right of the tiles, the rows below them and the tiles together make up the window. */
  lemma ThreeParts(c0: seq<int>, c1: seq<int>, c2: seq<int>, c3: seq<int>, v: View, m: nat, n: nat, mb: nat, nb: nat,
                   a: Mat, b: Mat, p: nat)
    requires mb <= m && nb <= n <= v.ld
    requires MulAdd(c0, c1, Sub(v, 0, nb), mb, n - nb, a, SubM(b, 0, nb), p)
    requires MulAdd(c1, c2, Sub(v, mb, 0), m - mb, n, SubM(a, mb, 0), b, p)
    requires MulAdd(c2, c3, v, mb, nb, a, b, p)
    ensures MulAdd(c0, c3, v, m, n, a, b, p)
  {
    hide At, Cell, Sub, SubM, Sum, InWindow, Outside;
    forall i: nat, j: nat | i < m && j < n ensures At(Mat(c3, v), i, j) == At(Mat(c0, v), i, j) + Sum(a, b, i, j, p) {
      SubNone(v);
      if i >= mb {
        Undisturbed(c0, c1, v, 0, nb, mb, n - nb, i, j);
        Undisturbed(c2, c3, v, 0, 0, mb, nb, i, j);
        AtWindow(c1, v, mb, 0, i - mb, j);
        AtWindow(c2, v, mb, 0, i - mb, j);
        SumSub(a, b, mb, 0, i - mb, j, p);
        SubNoneM(b);
        assert At(Mat(c2, Sub(v, mb, 0)), i - mb, j)
            == At(Mat(c1, Sub(v, mb, 0)), i - mb, j) + Sum(SubM(a, mb, 0), b, i - mb, j, p);
      } else if j >= nb {
        Undisturbed(c1, c2, v, mb, 0, m - mb, n, i, j);
        Undisturbed(c2, c3, v, 0, 0, mb, nb, i, j);
        AtWindow(c0, v, 0, nb, i, j - nb);
        AtWindow(c1, v, 0, nb, i, j - nb);
        SumSub(a, b, 0, nb, i, j - nb, p);
        SubNoneM(a);
        assert At(Mat(c1, Sub(v, 0, nb)), i, j - nb)
            == At(Mat(c0, Sub(v, 0, nb)), i, j - nb) + Sum(a, SubM(b, 0, nb), i, j - nb, p);
      } else {
        Undisturbed(c0, c1, v, 0, nb, mb, n - nb, i, j);
        Undisturbed(c1, c2, v, mb, 0, m - mb, n, i, j);
      }
    }
    SubNone(v);
    OutsideSub(c0, c1, v, m, n, 0, nb, mb, n - nb);
    OutsideSub(c1, c2, v, m, n, mb, 0, m - mb, n);
    OutsideSub(c2, c3, v, m, n, 0, 0, mb, nb);
    OutsideTrans(c0, c1, c2, v, m, n);
    OutsideTrans(c0, c2, c3, v, m, n);
  }

  /** While the strips were worked on, the tiled part of c stayed as it was. */
  lemma TiledPartKept(c0: seq<int>, c1: seq<int>, c2: seq<int>, v: View, m: nat, n: nat, mb: nat, nb: nat, a: Mat,
                      b: Mat, p: nat)
    requires mb <= m && nb <= n <= v.ld
    requires MulAdd(c0, c1, Sub(v, 0, nb), mb, n - nb, a, SubM(b, 0, nb), p)
    requires MulAdd(c1, c2, Sub(v, mb, 0), m - mb, n, SubM(a, mb, 0), b, p)
    ensures SameWindow(Mat(c2, v), Mat(c0, v), mb, nb)
  {
    hide At, Sub, SubM, Sum, Outside, IsPlus;
    forall i: nat, j: nat | i < mb && j < nb ensures At(Mat(c2, v), i, j) == At(Mat(c0, v), i, j) {
      Undisturbed(c0, c1, v, 0, nb, mb, n - nb, i, j);
      Undisturbed(c1, c2, v, mb, 0, m - mb, n, i, j);
    }
  }

  lemma TileSpace(nblk: nat, nrb: nat, r: nat, s: nat)
    ensures Times(TileNo(nblk, nrb, 0), r * s) == Times(Times(nrb, r), Times(nblk, s))
  {
    calc {
      (nblk * nrb) * (r * s);
      nblk * (nrb * (r * s));
      { assert nrb * (r * s) == (nrb * r) * s; }
      nblk * ((nrb * r) * s);
      { assert (nrb * r) * s * nblk == (nrb * r) * (s * nblk); }
      (nrb * r) * (nblk * s);
    }
  }

  /** mm_cb. */
  method CacheBlocked(m: nat, n: nat, p: nat, a: array<int>, av: View, b: array<int>, bv: View, c: array<int>, cv: View)
    requires Fits(a.Length, av, m, p) && Fits(b.Length, bv, p, n) && Fits(c.Length, cv, m, n)
    requires n <= cv.ld && c != a && c != b
    modifies c
    ensures MulAdd(old(c[..]), c[..], cv, m, n, Mat(old(a[..]), av), Mat(old(b[..]), bv), p)
  {
    hide Cell, Sum, MulAdd, Fits, Sub, SubM, TileNo, TilesPlus, SameWindow;
    ghost var A, B, c0 := Mat(a[..], av), Mat(b[..], bv), c[..];
    var nmb, nnb, npb := m / CBM, n / CBN, p / CBK;
    var mb, nb, pb := Times(nmb, CBM), Times(nnb, CBN), Times(npb, CBK);
    assert mb <= m && nb <= n && pb <= p;
    hide Times;
    TileSpace(npb, nmb, CBM, CBK);
    TileSpace(nnb, npb, CBK, CBN);
    TileSpace(nnb, nmb, CBM, CBN);
    var a1 := new int[Times(mb, pb)];
    var b1 := new int[Times(pb, nb)];
    var c1 := new int[Times(mb, nb)];
    TiledFits(a.Length, av, b.Length, bv, c.Length, cv, m, n, p, mb, nb, pb);
    Pack(a1, a, av, nmb, npb, CBM, CBK, A, B);
    Pack(b1, b, bv, npb, nnb, CBK, CBN, A, B);
    Pack(c1, c, cv, nmb, nnb, CBM, CBN, A, B);
    assert a[..] == A.s && b[..] == B.s && c[..] == c0;
    MultiplyTiles(n, p, a, av, b, bv, c, cv, a1, b1, c1, nmb, nnb, npb, A, B);
    ghost var c2 := c[..];
    Bottom(m, n, p, a, av, b, bv, c, cv, mb);
    ghost var c3 := c[..];
    TiledPartKept(c0, c2, c3, cv, m, n, mb, nb, A, B, p);
    Unpack(c, cv, c1, nmb, nnb, Mat(c0, cv), A, B, p);
    ThreeParts(c0, c2, c3, c[..], cv, m, n, mb, nb, A, B, p);
  }

  lemma TiledFits(la: nat, av: View, lb: nat, bv: View, lc: nat, cv: View, m: nat, n: nat, p: nat, mb: nat, nb: nat,
                  pb: nat)
    requires Fits(la, av, m, p) && Fits(lb, bv, p, n) && Fits(lc, cv, m, n) && mb <= m && nb <= n && pb <= p
    ensures Fits(la, av, mb, pb) && Fits(lb, bv, pb, nb) && Fits(lc, cv, mb, nb) && Fits(la, av, mb, p)
    ensures Fits(lc, cv, mb, n)
  {
    hide Cell;
  }

  /** mm. */
  method Multiply(m: nat, n: nat, p: nat, a: array<int>, av: View, b: array<int>, bv: View, c: array<int>, cv: View)
    requires Fits(a.Length, av, m, p) && Fits(b.Length, bv, p, n) && Fits(c.Length, cv, m, n)
    requires n <= cv.ld && c != a && c != b
    modifies c
    ensures MulAdd(old(c[..]), c[..], cv, m, n, Mat(old(a[..]), av), Mat(old(b[..]), bv), p)
  {
    hide MulAdd, Fits;
    if m <= 2 * CBM && n <= 2 * CBN && p <= 2 * CBK {
      RegisterBlocked(m, n, p, a, av, b, bv, c, cv);
    } else {
      CacheBlocked(m, n, p, a, av, b, bv, c, cv);
    }
  }

  /** MulAdd fixes the whole array, so every way of computing the product, blocked or not, leaves the same
      contents as the triple loop. */
  lemma ProductUnique(c: seq<int>, d: seq<int>, e: seq<int>, v: View, m: nat, n: nat, a: Mat, b: Mat, p: nat)
    requires MulAdd(c, d, v, m, n, a, b, p) && MulAdd(c, e, v, m, n, a, b, p)
    ensures d == e
  {
    hide Cell, Sum;
    forall x: nat | x < |d| ensures d[x] == e[x] {
      if InWindow(x, v, m, n) {
        var i: nat, j: nat :| i < m && j < n && x == Cell(v, i, j);
        assert At(Mat(d, v), i, j) == At(Mat(e, v), i, j);
      }
    }
  }
}
