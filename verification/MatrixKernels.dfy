/** mm.c and rb.h up to mm_rb: the triple loop and the register-blocked product. */
module MatrixKernels {
  // The 4-by-5 register-blocked kernel, and the loop that covers a product with kernels and leaves the
  // edges to the triple loop.

  import opened BlockedMatrix

  const RBM: nat := 4
  const RBN: nat := 5
  const RBK: nat := 6

  /** fma on exact numbers. */
  function Fma(x: int, y: int, z: int): int { x * y + z }

  // ---------------------------------------------------------------- mm_naive

  /** The value mm_naive stores at (i, j): the first loop keeps four partial sums. */
  method NaiveCell(p: nat, a: array<int>, av: View, b: array<int>, bv: View, start: int, i: nat, j: nat,
                   ghost m: nat, ghost n: nat)
    returns (r: int)
    requires Fits(a.Length, av, m, p) && Fits(b.Length, bv, p, n) && i < m && j < n
    ensures r == start + Sum(Mat(a[..], av), Mat(b[..], bv), i, j, p)
  {
    hide Cell;
    ghost var A, B := Mat(a[..], av), Mat(b[..], bv);
    var s0, s1, s2, s3 := start, 0, 0, 0;
    var k := 0;
    while k < p / 4 * 4
      invariant k <= p / 4 * 4 && k % 4 == 0
      invariant s0 + s1 + s2 + s3 == start + Sum(A, B, i, j, k)
    {
      SumFour(A, B, i, j, k);
      s0 := Fma(a[Cell(av, i, k)], b[Cell(bv, k, j)], s0);
      s1 := Fma(a[Cell(av, i, k + 1)], b[Cell(bv, k + 1, j)], s1);
      s2 := Fma(a[Cell(av, i, k + 2)], b[Cell(bv, k + 2, j)], s2);
      s3 := Fma(a[Cell(av, i, k + 3)], b[Cell(bv, k + 3, j)], s3);
      k := k + 4;
    }
    while k < p
      invariant k <= p && s0 + s1 + s2 + s3 == start + Sum(A, B, i, j, k)
    {
      s0 := Fma(a[Cell(av, i, k)], b[Cell(bv, k, j)], s0);
      k := k + 1;
    }
    r := (s0 + s1) + (s2 + s3);
  }

  lemma SumFour(a: Mat, b: Mat, i: nat, j: nat, k: nat)
    ensures Sum(a, b, i, j, k + 4) == Sum(a, b, i, j, k) + At(a, i, k) * At(b, k, j) + At(a, i, k + 1) * At(b, k + 1, j)
                                      + At(a, i, k + 2) * At(b, k + 2, j) + At(a, i, k + 3) * At(b, k + 3, j)
  {
    hide At;
    assert Sum(a, b, i, j, k + 4) == Sum(a, b, i, j, k + 3) + At(a, i, k + 3) * At(b, k + 3, j);
    assert Sum(a, b, i, j, k + 2) == Sum(a, b, i, j, k + 1) + At(a, i, k + 1) * At(b, k + 1, j);
  }

  /** Writing one entry adds a one-by-one product. */
  lemma OneCell(s: seq<int>, v: View, i: nat, j: nat, a: Mat, b: Mat, p: nat)
    requires Cell(v, i, j) < |s|
    ensures var x := Cell(v, i, j);
      MulAdd(s, s[x := s[x] + Sum(a, b, i, j, p)], Sub(v, i, j), 1, 1, SubM(a, i, 0), SubM(b, 0, j), p)
  {
    hide Cell, Sub, SubM, Sum;
    CellSub(v, i, j, 0, 0);
    SumSub(a, b, i, j, 0, 0, p);
    assert Cell(v, i, j) == Cell(Sub(v, i, j), 0, 0);
    assert InWindow(Cell(v, i, j), Sub(v, i, j), 1, 1);
  }

  /** mm_naive. */
  method Naive(m: nat, n: nat, p: nat, a: array<int>, av: View, b: array<int>, bv: View, c: array<int>, cv: View)
    requires Fits(a.Length, av, m, p) && Fits(b.Length, bv, p, n) && Fits(c.Length, cv, m, n)
    requires n <= cv.ld && c != a && c != b
    modifies c
    ensures MulAdd(old(c[..]), c[..], cv, m, n, Mat(old(a[..]), av), Mat(old(b[..]), bv), p)
  {
    hide Cell, MulAdd, Sum, SubM, Sub;
    ghost var A, B, c0 := Mat(a[..], av), Mat(b[..], bv), c[..];
    AddNone(c0, cv, 0, n, A, B, p);
    var i := 0;
    while i < m
      invariant i <= m && a[..] == A.s && b[..] == B.s
      invariant MulAdd(c0, c[..], cv, i, n, A, B, p)
    {
      ghost var ci := c[..];
      AddNone(ci, Sub(cv, i, 0), 1, 0, SubM(A, i, 0), B, p);
      var j := 0;
      while j < n
        invariant j <= n && a[..] == A.s && b[..] == B.s
        invariant MulAdd(ci, c[..], Sub(cv, i, 0), 1, j, SubM(A, i, 0), B, p)
      {
        ghost var cj := c[..];
        var r := NaiveCell(p, a, av, b, bv, c[Cell(cv, i, j)], i, j, m, n);
        OneCell(cj, cv, i, j, A, B, p);
        c[Cell(cv, i, j)] := r;
        assert c[..] == cj[Cell(cv, i, j) := r];
        SubSub(cv, i, 0, 0, j);
        SubLd(cv, i, 0);
        AddCols(ci, cj, c[..], Sub(cv, i, 0), 1, j, j + 1, SubM(A, i, 0), B, p);
        j := j + 1;
      }
      AddRows(c0, ci, c[..], cv, i, i + 1, n, A, B, p);
      i := i + 1;
    }
  }

  // ---------------------------------------------------------------- kloop

  /** Five of the twenty accumulators: one row of the 4-by-5 block. */
  datatype Row = Row(x0: int, x1: int, x2: int, x3: int, x4: int)

  function FmaRow(x: int, y: Row, z: Row): Row
  {
    Row(Fma(x, y.x0, z.x0), Fma(x, y.x1, z.x1), Fma(x, y.x2, z.x2), Fma(x, y.x3, z.x3), Fma(x, y.x4, z.x4))
  }

  function Pick(r: Row, j: nat): int
  {
    if j == 0 then r.x0 else if j == 1 then r.x1 else if j == 2 then r.x2 else if j == 3 then r.x3 else r.x4
  }

  /** The accumulators of row i hold c plus the first k products. */
  ghost predicate RowIs(r: Row, c: Mat, i: nat, a: Mat, b: Mat, k: nat)
  {
    forall j: nat | j < RBN :: Pick(r, j) == At(c, i, j) + Sum(a, b, i, j, k)
  }

  method LoadRow(c: array<int>, v: View, i: nat, ghost m: nat) returns (r: Row)
    requires Fits(c.Length, v, m, RBN) && i < m
    ensures forall j: nat | j < RBN :: Pick(r, j) == At(Mat(c[..], v), i, j)
  {
    hide Cell;
    r := Row(c[Cell(v, i, 0)], c[Cell(v, i, 1)], c[Cell(v, i, 2)], c[Cell(v, i, 3)], c[Cell(v, i, 4)]);
  }

  lemma RowStart(r: Row, c: Mat, i: nat, a: Mat, b: Mat)
    requires forall j: nat | j < RBN :: Pick(r, j) == At(c, i, j)
    ensures RowIs(r, c, i, a, b, 0)
  {
    hide At;
  }

  lemma RowStep(r: Row, y: Row, c: Mat, i: nat, a: Mat, b: Mat, k: nat)
    requires RowIs(r, c, i, a, b, k) && forall j: nat | j < RBN :: Pick(y, j) == At(b, k, j)
    ensures RowIs(FmaRow(At(a, i, k), y, r), c, i, a, b, k + 1)
  {
    hide At;
    var t := FmaRow(At(a, i, k), y, r);
    forall j: nat | j < RBN ensures Pick(t, j) == At(c, i, j) + Sum(a, b, i, j, k + 1) {
      assert Pick(t, j) == At(a, i, k) * Pick(y, j) + Pick(r, j);
    }
  }

  /** The twenty multiply-adds for column k of a and row k of b. */
  method Column(a: array<int>, av: View, b: array<int>, bv: View, k: nat, r0: Row, r1: Row, r2: Row, r3: Row,
                ghost c: Mat, ghost p: nat)
    returns (t0: Row, t1: Row, t2: Row, t3: Row)
    requires Fits(a.Length, av, RBM, p) && Fits(b.Length, bv, p, RBN) && k < p
    requires var A, B := Mat(a[..], av), Mat(b[..], bv);
      RowIs(r0, c, 0, A, B, k) && RowIs(r1, c, 1, A, B, k) && RowIs(r2, c, 2, A, B, k) && RowIs(r3, c, 3, A, B, k)
    ensures var A, B := Mat(a[..], av), Mat(b[..], bv);
      && RowIs(t0, c, 0, A, B, k + 1) && RowIs(t1, c, 1, A, B, k + 1)
      && RowIs(t2, c, 2, A, B, k + 1) && RowIs(t3, c, 3, A, B, k + 1)
  {
    hide Cell, RowIs, FmaRow, Pick;
    ghost var A, B := Mat(a[..], av), Mat(b[..], bv);
    var y := LoadRow(b, bv, k, p);
    RowStep(r0, y, c, 0, A, B, k);
    RowStep(r1, y, c, 1, A, B, k);
    RowStep(r2, y, c, 2, A, B, k);
    RowStep(r3, y, c, 3, A, B, k);
    t0 := FmaRow(a[Cell(av, 0, k)], y, r0);
    t1 := FmaRow(a[Cell(av, 1, k)], y, r1);
    t2 := FmaRow(a[Cell(av, 2, k)], y, r2);
    t3 := FmaRow(a[Cell(av, 3, k)], y, r3);
  }

  ghost function Stored(s: seq<int>, v: View, i: nat, r: Row): (t: seq<int>)
    requires forall j: nat | j < RBN :: Cell(v, i, j) < |s|
    ensures |t| == |s|
  {
    s[Cell(v, i, 0) := r.x0][Cell(v, i, 1) := r.x1][Cell(v, i, 2) := r.x2][Cell(v, i, 3) := r.x3][Cell(v, i, 4) := r.x4]
  }

  method StoreRow(c: array<int>, v: View, i: nat, r: Row, ghost m: nat)
    requires Fits(c.Length, v, m, RBN) && i < m
    modifies c
    ensures c[..] == Stored(old(c[..]), v, i, r)
  {
    hide Cell;
    c[Cell(v, i, 0)] := r.x0;
    c[Cell(v, i, 1)] := r.x1;
    c[Cell(v, i, 2)] := r.x2;
    c[Cell(v, i, 3)] := r.x3;
    c[Cell(v, i, 4)] := r.x4;
  }

  lemma StoredAt(s: seq<int>, v: View, i: nat, r: Row, j: nat)
    requires (forall k: nat | k < RBN :: Cell(v, i, k) < |s|) && RBN <= v.ld && j < RBN
    ensures Get(Stored(s, v, i, r), Cell(v, i, j)) == Pick(r, j)
  {
    assert forall k: nat | k < RBN :: Cell(v, i, k) == Cell(v, i, 0) + k;
    hide Cell;
  }

  /** Storing the accumulators of row i after p products. */
  lemma RowStored(s: seq<int>, v: View, i: nat, r: Row, c: Mat, m: nat, a: Mat, b: Mat, p: nat)
    requires Fits(|s|, v, m, RBN) && i < m && RBN <= v.ld
    requires RowIs(r, c, i, a, b, p) && forall j: nat | j < RBN :: At(Mat(s, v), i, j) == At(c, i, j)
    ensures MulAdd(s, Stored(s, v, i, r), Sub(v, i, 0), 1, RBN, SubM(a, i, 0), b, p)
  {
    hide Cell, Sub, SubM, Sum, Pick, Stored;
    var t := Stored(s, v, i, r);
    forall k: nat, j: nat | k < 1 && j < RBN
      ensures At(Mat(t, Sub(v, i, 0)), k, j) == At(Mat(s, Sub(v, i, 0)), k, j) + Sum(SubM(a, i, 0), b, k, j, p)
    {
      AtWindow(t, v, i, 0, k, j);
      AtWindow(s, v, i, 0, k, j);
      SumSub(a, b, i, 0, k, j, p);
      SubNoneM(b);
      StoredAt(s, v, i, r, j);
      assert At(Mat(t, v), i, j) == Pick(r, j) == At(c, i, j) + Sum(a, b, i, j, p);
    }
    StoredOutside(s, v, i, r);
  }

  lemma StoredOutside(s: seq<int>, v: View, i: nat, r: Row)
    requires forall j: nat | j < RBN :: Cell(v, i, j) < |s|
    ensures Outside(s, Stored(s, v, i, r), Sub(v, i, 0), 1, RBN)
  {
    forall j: nat | j < RBN ensures InWindow(Cell(v, i, j), Sub(v, i, 0), 1, RBN) {
      CellSub(v, i, 0, 0, j);
      assert Cell(v, i, j) == Cell(Sub(v, i, 0), 0, j);
    }
    hide Cell, Sub, InWindow;
    assert InWindow(Cell(v, i, 0), Sub(v, i, 0), 1, RBN) && InWindow(Cell(v, i, 1), Sub(v, i, 0), 1, RBN);
    assert InWindow(Cell(v, i, 2), Sub(v, i, 0), 1, RBN) && InWindow(Cell(v, i, 3), Sub(v, i, 0), 1, RBN);
    assert InWindow(Cell(v, i, 4), Sub(v, i, 0), 1, RBN);
  }

  /** Storing row i after the rows above it. */
  method StoreNext(c: array<int>, v: View, i: nat, r: Row, ghost c0: seq<int>, ghost a: Mat, ghost b: Mat, ghost p: nat)
    requires Fits(c.Length, v, RBM, RBN) && i < RBM && RBN <= v.ld
    requires MulAdd(c0, c[..], v, i, RBN, a, b, p) && RowIs(r, Mat(c0, v), i, a, b, p)
    modifies c
    ensures MulAdd(c0, c[..], v, i + 1, RBN, a, b, p)
  {
    hide Cell, Sub, SubM, Sum, Stored, RowIs, InWindow, At, IsPlus;
    ghost var s := c[..];
    SubNone(v);
    forall j: nat | j < RBN ensures At(Mat(s, v), i, j) == At(Mat(c0, v), i, j) {
      Undisturbed(c0, s, v, 0, 0, i, RBN, i, j);
    }
    RowStored(s, v, i, r, Mat(c0, v), RBM, a, b, p);
    StoreRow(c, v, i, r, RBM);
    AddRows(c0, s, c[..], v, i, i + 1, RBN, a, b, p);
  }

  /** kloop: the products are accumulated in twenty local variables and stored at the end. */
  method Kloop(p: nat, a: array<int>, av: View, b: array<int>, bv: View, c: array<int>, cv: View)
    requires Fits(a.Length, av, RBM, p) && Fits(b.Length, bv, p, RBN) && Fits(c.Length, cv, RBM, RBN)
    requires RBN <= cv.ld && c != a && c != b
    modifies c
    ensures MulAdd(old(c[..]), c[..], cv, RBM, RBN, Mat(old(a[..]), av), Mat(old(b[..]), bv), p)
  {
    hide Cell, Sum, RowIs, MulAdd, Pick, At, Fits;
    ghost var A, B, C := Mat(a[..], av), Mat(b[..], bv), Mat(c[..], cv);
    var r0 := LoadRow(c, cv, 0, RBM);
    var r1 := LoadRow(c, cv, 1, RBM);
    var r2 := LoadRow(c, cv, 2, RBM);
    var r3 := LoadRow(c, cv, 3, RBM);
    RowStart(r0, C, 0, A, B);
    RowStart(r1, C, 1, A, B);
    RowStart(r2, C, 2, A, B);
    RowStart(r3, C, 3, A, B);
    var k := 0;
    while k < p / RBK * RBK
      invariant k <= p / RBK * RBK && k % RBK == 0 && c[..] == C.s
      invariant RowIs(r0, C, 0, A, B, k) && RowIs(r1, C, 1, A, B, k) && RowIs(r2, C, 2, A, B, k)
      invariant RowIs(r3, C, 3, A, B, k)
    {
      r0, r1, r2, r3 := Column(a, av, b, bv, k, r0, r1, r2, r3, C, p);
      r0, r1, r2, r3 := Column(a, av, b, bv, k + 1, r0, r1, r2, r3, C, p);
      r0, r1, r2, r3 := Column(a, av, b, bv, k + 2, r0, r1, r2, r3, C, p);
      r0, r1, r2, r3 := Column(a, av, b, bv, k + 3, r0, r1, r2, r3, C, p);
      r0, r1, r2, r3 := Column(a, av, b, bv, k + 4, r0, r1, r2, r3, C, p);
      r0, r1, r2, r3 := Column(a, av, b, bv, k + 5, r0, r1, r2, r3, C, p);
      k := k + RBK;
    }
    while k < p
      invariant k <= p && c[..] == C.s
      invariant RowIs(r0, C, 0, A, B, k) && RowIs(r1, C, 1, A, B, k) && RowIs(r2, C, 2, A, B, k)
      invariant RowIs(r3, C, 3, A, B, k)
    {
      r0, r1, r2, r3 := Column(a, av, b, bv, k, r0, r1, r2, r3, C, p);
      k := k + 1;
    }
    AddNone(C.s, cv, 0, RBN, A, B, p);
    StoreNext(c, cv, 0, r0, C.s, A, B, p);
    StoreNext(c, cv, 1, r1, C.s, A, B, p);
    StoreNext(c, cv, 2, r2, C.s, A, B, p);
    StoreNext(c, cv, 3, r3, C.s, A, B, p);
  }

  // ---------------------------------------------------------------- mm_rb

  /** One row of blocks of mm_rb: kernels, then the triple loop on the columns left over. */
  method BlockRow(n: nat, p: nat, a: array<int>, av: View, b: array<int>, bv: View, c: array<int>, cv: View)
    requires Fits(a.Length, av, RBM, p) && Fits(b.Length, bv, p, n) && Fits(c.Length, cv, RBM, n)
    requires n <= cv.ld && c != a && c != b
    modifies c
    ensures MulAdd(old(c[..]), c[..], cv, RBM, n, Mat(old(a[..]), av), Mat(old(b[..]), bv), p)
  {
    hide Cell, Sum, MulAdd, Fits, Sub, SubM;
    ghost var A, B, c0 := Mat(a[..], av), Mat(b[..], bv), c[..];
    var nb := n / RBN * RBN;
    AddNone(c0, cv, RBM, 0, A, B, p);
    var j := 0;
    while j < nb
      invariant j <= nb && j % RBN == 0 && a[..] == A.s && b[..] == B.s
      invariant MulAdd(c0, c[..], cv, RBM, j, A, B, p)
    {
      ghost var cj := c[..];
      RightPart(a, b, c, av, bv, cv, n, p, j, RBN);
      Kloop(p, a, av, b, Sub(bv, 0, j), c, Sub(cv, 0, j));
      AddCols(c0, cj, c[..], cv, RBM, j, j + RBN, A, B, p);
      j := j + RBN;
    }
    ghost var cn := c[..];
    RightPart(a, b, c, av, bv, cv, n, p, nb, n - nb);
    Naive(RBM, n - nb, p, a, av, b, Sub(bv, 0, nb), c, Sub(cv, 0, nb));
    AddCols(c0, cn, c[..], cv, RBM, nb, n, A, B, p);
  }

  lemma RightPart(a: array<int>, b: array<int>, c: array<int>, av: View, bv: View, cv: View, n: nat, p: nat, j: nat,
                  k: nat)
    requires Fits(b.Length, bv, p, n) && Fits(c.Length, cv, RBM, n) && j + k <= n
    ensures Fits(b.Length, Sub(bv, 0, j), p, k) && Fits(c.Length, Sub(cv, 0, j), RBM, k) && Sub(cv, 0, j).ld == cv.ld
    ensures SubM(Mat(b[..], bv), 0, j) == Mat(b[..], Sub(bv, 0, j))
  {
    FitsSub(b.Length, bv, p, n, 0, j, p, k);
    FitsSub(c.Length, cv, RBM, n, 0, j, RBM, k);
  }

  /** mm_rb. */
  method RegisterBlocked(m: nat, n: nat, p: nat, a: array<int>, av: View, b: array<int>, bv: View, c: array<int>,
                         cv: View)
    requires Fits(a.Length, av, m, p) && Fits(b.Length, bv, p, n) && Fits(c.Length, cv, m, n)
    requires n <= cv.ld && c != a && c != b
    modifies c
    ensures MulAdd(old(c[..]), c[..], cv, m, n, Mat(old(a[..]), av), Mat(old(b[..]), bv), p)
  {
    hide Cell, Sum, MulAdd, Fits, Sub, SubM;
    ghost var A, B, c0 := Mat(a[..], av), Mat(b[..], bv), c[..];
    var mb := m / RBM * RBM;
    AddNone(c0, cv, 0, n, A, B, p);
    var i := 0;
    while i < mb
      invariant i <= mb && i % RBM == 0 && a[..] == A.s && b[..] == B.s
      invariant MulAdd(c0, c[..], cv, i, n, A, B, p)
    {
      ghost var ci := c[..];
      LowerPart(a, c, av, cv, m, n, p, i, RBM);
      BlockRow(n, p, a, Sub(av, i, 0), b, bv, c, Sub(cv, i, 0));
      AddRows(c0, ci, c[..], cv, i, i + RBM, n, A, B, p);
      i := i + RBM;
    }
    ghost var cm := c[..];
    LowerPart(a, c, av, cv, m, n, p, mb, m - mb);
    Naive(m - mb, n, p, a, Sub(av, mb, 0), b, bv, c, Sub(cv, mb, 0));
    AddRows(c0, cm, c[..], cv, mb, m, n, A, B, p);
  }

  lemma LowerPart(a: array<int>, c: array<int>, av: View, cv: View, m: nat, n: nat, p: nat, i: nat, k: nat)
    requires Fits(a.Length, av, m, p) && Fits(c.Length, cv, m, n) && i + k <= m
    ensures Fits(a.Length, Sub(av, i, 0), k, p) && Fits(c.Length, Sub(cv, i, 0), k, n) && Sub(cv, i, 0).ld == cv.ld
    ensures SubM(Mat(a[..], av), i, 0) == Mat(a[..], Sub(av, i, 0))
  {
    FitsSub(a.Length, av, m, p, i, 0, k, p);
    FitsSub(c.Length, cv, m, n, i, 0, k, n);
  }
}
