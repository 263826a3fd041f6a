/** Windows into row-major arrays and sums of their products. */
module BlockedMatrix {
  // What it means to add a product of two windows to a third. Elements are exact integers, so that
  // only the order of memory accesses matters, not rounding.

  import Matrix

  /** A pointer into an array together with a row stride. */
  datatype View = View(off: nat, ld: nat)

  /** A window of a particular array contents. */
  datatype Mat = Mat(s: seq<int>, v: View)

  function Cell(v: View, i: nat, j: nat): nat { v.off + i * v.ld + j }

  /** The window that starts at row i, column j: the C expression p + i*ld + j. */
  function Sub(v: View, i: nat, j: nat): View { View(v.off + i * v.ld + j, v.ld) }

  ghost function SubM(a: Mat, i: nat, j: nat): Mat { Mat(a.s, Sub(a.v, i, j)) }

  function Get(s: seq<int>, x: nat): int { if x < |s| then s[x] else 0 }

  ghost function At(a: Mat, i: nat, j: nat): int { Get(a.s, Cell(a.v, i, j)) }

  /** Every element of the m-by-n window lies in an array of the given length. */
  ghost predicate Fits(len: nat, v: View, m: nat, n: nat)
  {
    forall i: nat, j: nat | i < m && j < n :: Cell(v, i, j) < len
  }

  ghost predicate InWindow(x: nat, v: View, m: nat, n: nat)
  {
    exists i: nat, j: nat :: i < m && j < n && x == Cell(v, i, j)
  }

  /** Nothing outside the window differs. */
  ghost predicate Outside(c: seq<int>, d: seq<int>, v: View, m: nat, n: nat)
  {
    |c| == |d| && forall x: nat | x < |c| && !InWindow(x, v, m, n) :: c[x] == d[x]
  }

  /** Entry (i, j) of the product of the first p columns of a and the first p rows of b. */
  ghost function Sum(a: Mat, b: Mat, i: nat, j: nat, p: nat): int
  {
    if p == 0 then 0 else Sum(a, b, i, j, p - 1) + At(a, i, p - 1) * At(b, p - 1, j)
  }

  /** x is y plus the product, on m by n entries. */
  ghost predicate IsPlus(x: Mat, y: Mat, m: nat, n: nat, a: Mat, b: Mat, p: nat)
  {
    forall i: nat, j: nat | i < m && j < n :: At(x, i, j) == At(y, i, j) + Sum(a, b, i, j, p)
  }

  /** Going from c to d added the product of a and b to the window v, and touched nothing else. */
  ghost predicate MulAdd(c: seq<int>, d: seq<int>, v: View, m: nat, n: nat, a: Mat, b: Mat, p: nat)
  {
    IsPlus(Mat(d, v), Mat(c, v), m, n, a, b, p) && Outside(c, d, v, m, n)
  }

  ghost predicate SameWindow(x: Mat, y: Mat, m: nat, n: nat)
  {
    forall i: nat, j: nat | i < m && j < n :: At(x, i, j) == At(y, i, j)
  }

  // ---------------------------------------------------------------- windows

  lemma CellSub(v: View, i: nat, j: nat, k: nat, l: nat)
    ensures Cell(Sub(v, i, j), k, l) == Cell(v, i + k, j + l)
  {
    assert (i + k) * v.ld == i * v.ld + k * v.ld;
  }

  lemma SubSub(v: View, i: nat, j: nat, k: nat, l: nat)
    ensures Sub(Sub(v, i, j), k, l) == Sub(v, i + k, j + l)
  {
    assert (i + k) * v.ld == i * v.ld + k * v.ld;
  }

  lemma SubNone(v: View)
    ensures Sub(v, 0, 0) == v
  {
  }

  lemma SubLd(v: View, i: nat, j: nat)
    ensures Sub(v, i, j).ld == v.ld
  {
  }

  /** Rows do not overlap when the columns fit the stride. */
  lemma CellUnique(v: View, i: nat, j: nat, k: nat, l: nat)
    requires j < v.ld && l < v.ld && Cell(v, i, j) == Cell(v, k, l)
    ensures i == k && j == l
  {
    if i < k {
      Matrix.MulMono(i + 1, k, v.ld);
    } else if k < i {
      Matrix.MulMono(k + 1, i, v.ld);
    }
  }

  lemma FitsSub(len: nat, v: View, m: nat, n: nat, i: nat, j: nat, k: nat, l: nat)
    requires Fits(len, v, m, n) && i + k <= m && j + l <= n
    ensures Fits(len, Sub(v, i, j), k, l)
  {
    hide Cell, Sub;
    forall x: nat, y: nat | x < k && y < l ensures Cell(Sub(v, i, j), x, y) < len {
      CellSub(v, i, j, x, y);
      assert Cell(v, i + x, j + y) < len;
    }
  }

  lemma InSub(x: nat, v: View, m: nat, n: nat, i: nat, j: nat, k: nat, l: nat)
    requires InWindow(x, Sub(v, i, j), k, l) && i + k <= m && j + l <= n
    ensures InWindow(x, v, m, n)
  {
    hide Cell, Sub;
    var y: nat, z: nat :| y < k && z < l && x == Cell(Sub(v, i, j), y, z);
    CellSub(v, i, j, y, z);
    assert x == Cell(v, i + y, j + z);
  }

  lemma OutsideSub(c: seq<int>, d: seq<int>, v: View, m: nat, n: nat, i: nat, j: nat, k: nat, l: nat)
    requires Outside(c, d, Sub(v, i, j), k, l) && i + k <= m && j + l <= n
    ensures Outside(c, d, v, m, n)
  {
    hide InWindow, Sub;
    forall x: nat | x < |c| && !InWindow(x, v, m, n) ensures c[x] == d[x] {
      if InWindow(x, Sub(v, i, j), k, l) { InSub(x, v, m, n, i, j, k, l); }
    }
  }

  lemma OutsideTrans(c: seq<int>, d: seq<int>, e: seq<int>, v: View, m: nat, n: nat)
    requires Outside(c, d, v, m, n) && Outside(d, e, v, m, n)
    ensures Outside(c, e, v, m, n)
  {
    hide InWindow;
  }

  /** A change inside one part of a window leaves the window's other cells alone. */
  lemma Undisturbed(c: seq<int>, d: seq<int>, v: View, i: nat, j: nat, k: nat, l: nat, x: nat, y: nat)
    requires Outside(c, d, Sub(v, i, j), k, l) && j + l <= v.ld && y < v.ld
    requires x < i || i + k <= x || y < j || j + l <= y
    ensures At(Mat(c, v), x, y) == At(Mat(d, v), x, y)
  {
    hide Cell, Sub;
    if InWindow(Cell(v, x, y), Sub(v, i, j), k, l) {
      var r: nat, q: nat :| r < k && q < l && Cell(v, x, y) == Cell(Sub(v, i, j), r, q);
      CellSub(v, i, j, r, q);
      CellUnique(v, x, y, i + r, j + q);
    }
  }

  lemma AtSub(a: Mat, i: nat, j: nat, k: nat, l: nat)
    ensures At(SubM(a, i, j), k, l) == At(a, i + k, j + l)
  {
    CellSub(a.v, i, j, k, l);
  }

  // ---------------------------------------------------------------- sums

  lemma {:induction false} SumSub(a: Mat, b: Mat, i: nat, j: nat, k: nat, l: nat, p: nat)
    ensures Sum(SubM(a, i, 0), SubM(b, 0, j), k, l, p) == Sum(a, b, i + k, j + l, p)
  {
    hide At, SubM;
    if p > 0 {
      SumSub(a, b, i, j, k, l, p - 1);
      AtSub(a, i, 0, k, p - 1);
      AtSub(b, 0, j, p - 1, l);
    }
  }

  lemma {:induction false} SumDepth(a: Mat, b: Mat, i: nat, j: nat, p: nat, q: nat)
    ensures Sum(a, b, i, j, p + q) == Sum(a, b, i, j, p) + Sum(SubM(a, 0, p), SubM(b, p, 0), i, j, q)
  {
    hide At, SubM;
    if q > 0 {
      SumDepth(a, b, i, j, p, q - 1);
      AtSub(a, 0, p, i, q - 1);
      AtSub(b, p, 0, q - 1, j);
    }
  }

  lemma {:induction false} SumSame(a: Mat, b: Mat, a': Mat, b': Mat, m: nat, n: nat, i: nat, j: nat, p: nat, p': nat)
    requires SameWindow(a, a', m, p) && SameWindow(b, b', p, n) && i < m && j < n && p' <= p
    ensures Sum(a, b, i, j, p') == Sum(a', b', i, j, p')
  {
    hide At;
    if p' > 0 {
      SumSame(a, b, a', b', m, n, i, j, p, p' - 1);
      assert At(a, i, p' - 1) == At(a', i, p' - 1) && At(b, p' - 1, j) == At(b', p' - 1, j);
    }
  }

  // ---------------------------------------------------------------- putting parts together

  /** Adding to the first rows, then to the following ones. */
  lemma AddRows(c: seq<int>, d: seq<int>, e: seq<int>, v: View, k: nat, m: nat, n: nat, a: Mat, b: Mat, p: nat)
    requires k <= m && n <= v.ld
    requires MulAdd(c, d, v, k, n, a, b, p) && MulAdd(d, e, Sub(v, k, 0), m - k, n, SubM(a, k, 0), b, p)
    ensures MulAdd(c, e, v, m, n, a, b, p)
  {
    hide At, Cell, Sub, SubM, Sum, InWindow, Outside;
    forall i: nat, j: nat | i < m && j < n ensures At(Mat(e, v), i, j) == At(Mat(c, v), i, j) + Sum(a, b, i, j, p) {
      SubNone(v);
      if i < k {
        Undisturbed(d, e, v, k, 0, m - k, n, i, j);
      } else {
        Undisturbed(c, d, v, 0, 0, k, n, i, j);
        AtWindow(d, v, k, 0, i - k, j);
        AtWindow(e, v, k, 0, i - k, j);
        SumSub(a, b, k, 0, i - k, j, p);
        SubNoneM(b);
        assert At(Mat(e, Sub(v, k, 0)), i - k, j)
            == At(Mat(d, Sub(v, k, 0)), i - k, j) + Sum(SubM(a, k, 0), b, i - k, j, p);
      }
    }
    SubNone(v);
    OutsideSub(c, d, v, m, n, 0, 0, k, n);
    OutsideSub(d, e, v, m, n, k, 0, m - k, n);
    OutsideTrans(c, d, e, v, m, n);
  }

  lemma SubNoneM(a: Mat)
    ensures SubM(a, 0, 0) == a
  {
  }

  lemma AtWindow(c: seq<int>, v: View, i: nat, j: nat, k: nat, l: nat)
    ensures At(Mat(c, Sub(v, i, j)), k, l) == At(Mat(c, v), i + k, j + l)
  {
    CellSub(v, i, j, k, l);
  }

  /** Adding to the first columns, then to the following ones. */
  lemma AddCols(c: seq<int>, d: seq<int>, e: seq<int>, v: View, m: nat, k: nat, n: nat, a: Mat, b: Mat, p: nat)
    requires k <= n && n <= v.ld
    requires MulAdd(c, d, v, m, k, a, b, p) && MulAdd(d, e, Sub(v, 0, k), m, n - k, a, SubM(b, 0, k), p)
    ensures MulAdd(c, e, v, m, n, a, b, p)
  {
    hide At, Cell, Sub, SubM, Sum, InWindow, Outside;
    forall i: nat, j: nat | i < m && j < n ensures At(Mat(e, v), i, j) == At(Mat(c, v), i, j) + Sum(a, b, i, j, p) {
      SubNone(v);
      if j < k {
        Undisturbed(d, e, v, 0, k, m, n - k, i, j);
      } else {
        Undisturbed(c, d, v, 0, 0, m, k, i, j);
        AtWindow(d, v, 0, k, i, j - k);
        AtWindow(e, v, 0, k, i, j - k);
        SumSub(a, b, 0, k, i, j - k, p);
        SubNoneM(a);
        assert At(Mat(e, Sub(v, 0, k)), i, j - k)
            == At(Mat(d, Sub(v, 0, k)), i, j - k) + Sum(a, SubM(b, 0, k), i, j - k, p);
      }
    }
    SubNone(v);
    OutsideSub(c, d, v, m, n, 0, 0, m, k);
    OutsideSub(d, e, v, m, n, 0, k, m, n - k);
    OutsideTrans(c, d, e, v, m, n);
  }

  /** Adding the product of the first p columns and rows, then that of the following q. */
  lemma AddDepth(c: seq<int>, d: seq<int>, e: seq<int>, v: View, m: nat, n: nat, a: Mat, b: Mat, p: nat, q: nat)
    requires MulAdd(c, d, v, m, n, a, b, p) && MulAdd(d, e, v, m, n, SubM(a, 0, p), SubM(b, p, 0), q)
    ensures MulAdd(c, e, v, m, n, a, b, p + q)
  {
    hide At, Cell, Sub, SubM, Sum, InWindow, Outside;
    forall i: nat, j: nat | i < m && j < n
      ensures At(Mat(e, v), i, j) == At(Mat(c, v), i, j) + Sum(a, b, i, j, p + q)
    {
      SumDepth(a, b, i, j, p, q);
    }
    OutsideTrans(c, d, e, v, m, n);
  }

  /** An empty product adds nothing. */
  lemma AddNone(c: seq<int>, v: View, m: nat, n: nat, a: Mat, b: Mat, p: nat)
    requires m == 0 || n == 0 || p == 0
    ensures MulAdd(c, c, v, m, n, a, b, p)
  {
    hide At, Cell, InWindow;
  }
}
