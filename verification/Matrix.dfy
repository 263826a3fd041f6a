/** Square row-major matrices over the integers, as the two cooperative kernels use them: the entries
    of a product, offsets and their uniqueness, and the blocks of rows dealt out to the cores. */
module Matrix {

  /** Offset of row i, column j, and the number of entries. */
  function Idx(i: nat, j: nat, lda: nat): nat { i * lda + j }
  function Area(lda: nat): nat { lda * lda }

  /** The sum of the first k products of row `row` of a and column `col` of b. */
  ghost function Dot(a: seq<int>, b: seq<int>, lda: nat, row: nat, col: nat, k: nat): int
    requires row < lda && col < lda && k <= lda && |a| == Area(lda) == |b|
  {
    if k == 0 then 0
    else
      Index(row, k - 1, lda);
      Index(k - 1, col, lda);
      Dot(a, b, lda, row, col, k - 1) + a[Idx(row, k - 1, lda)] * b[Idx(k - 1, col, lda)]
  }

  lemma Index(i: nat, j: nat, lda: nat)
    requires i < lda && j < lda
    ensures Idx(i, j, lda) < Area(lda)
  {
    assert (i + 1) * lda == i * lda + lda;
    MulMono(i + 1, lda, lda);
  }

  lemma MulMono(a: nat, b: nat, n: nat)
    requires a <= b
    ensures a * n <= b * n
  {
    assert (b - a) * n == b * n - a * n;
  }

  lemma IndexUnique(i: nat, j: nat, i': nat, j': nat, lda: nat)
    requires j < lda && j' < lda && Idx(i, j, lda) == Idx(i', j', lda)
    ensures i == i' && j == j'
  {
    if i < i' { MulMono(i + 1, i', lda); }
    if i' < i { MulMono(i' + 1, i, lda); }
  }

  /** The block of rows of core c when lda rows are dealt out to n cores. */
  function Lo(c: nat, w: nat): nat { c * w }
  function Hi(c: nat, w: nat): nat { (c + 1) * w }

  lemma Blocks(c: nat, d: nat, w: nat)
    ensures Hi(c, w) == Lo(c, w) + w
    ensures c < d ==> Hi(c, w) <= Lo(d, w)
  {
    if c < d { MulMono(c + 1, d, w); }
  }

  lemma BlockInside(c: nat, n: nat, w: nat, lda: nat)
    requires c < n && n * w == lda
    ensures Lo(c, w) <= Hi(c, w) <= lda
  {
    MulMono(c + 1, n, w);
    MulMono(c, c + 1, w);
  }

  /** Every row belongs to one core's block. */
  lemma Owner(i: nat, n: nat, w: nat, lda: nat) returns (c: nat)
    requires n * w == lda && i < lda
    ensures c < n && Lo(c, w) <= i < Hi(c, w)
  {
    assert w != 0 || n * w == 0;
    c := i / w;
    assert i == c * w + i % w;
    if c >= n { MulMono(n, c, w); }
  }
}
