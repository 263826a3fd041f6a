/** Unsigned machine words as the allocator's macros use them. */
module Words {
  // Bitwise `&` on naturals, two's-complement negation, and the two alignment facts that follow.


  const SIZE_T: nat := 8                              // sizeof (size_t)
  const MODULUS: nat := 0x1_0000_0000_0000_0000       // size_t arithmetic is modulo this

  function Pow2(k: nat): (p: nat)
    ensures p >= 1
  {
    if k == 0 then 1 else 2 * Pow2(k - 1)
  }

  /** Bitwise conjunction, one binary digit at a time. */
  function And(x: nat, y: nat): nat
  {
    if x == 0 || y == 0 then 0 else 2 * And(x / 2, y / 2) + (x % 2) * (y % 2)
  }

  /** `-(size_t) x`. */
  function Neg(x: nat): nat { (MODULUS - x % MODULUS) % MODULUS }

  /** The sum of two size_t values. */
  function SizeAdd(x: nat, y: nat): nat { (x + y) % MODULUS }

  /** M_ALIGN: the number of bytes from x up to the next multiple of align. */
  function MAlign(x: nat, align: nat): nat
    requires align >= 1
  {
    And(Neg(x), align - 1)
  }

  predicate Aligned(x: nat, align: nat)
    requires align >= 1
  {
    x % align == 0
  }

  ghost predicate IsPow2(a: nat) { exists k: nat :: a == Pow2(k) }

  lemma {:induction false} Pow2Add(i: nat, j: nat)
    ensures Pow2(i + j) == Pow2(i) * Pow2(j)
  {
    if i > 0 {
      Pow2Add(i - 1, j);
      assert Pow2(i + j) == 2 * (Pow2(i - 1) * Pow2(j));
    }
  }

  lemma {:induction false} Pow2Mono(i: nat, j: nat)
    requires i <= j
    ensures Pow2(i) <= Pow2(j)
  {
    if i < j { Pow2Mono(i, j - 1); }
  }

  lemma {:induction false} AndMask(x: nat, k: nat)
    ensures And(x, Pow2(k) - 1) == x % Pow2(k)
  {
    if k > 0 {
      var p := Pow2(k - 1);
      AndMask(x / 2, k - 1);
      assert (2 * p - 1) / 2 == p - 1;
      assert (2 * p - 1) % 2 == 1;
      HalfMod(x, p);
      if x == 0 { assert 0 % (2 * p) == 0; }
    }
  }

  lemma HalfMod(x: nat, p: nat)
    requires p >= 1
    ensures x % (2 * p) == 2 * (x / 2 % p) + x % 2
  {
    var q := x / 2 / p;
    assert x / 2 == q * p + x / 2 % p;
    assert x == 2 * (x / 2) + x % 2;
    var r := 2 * (x / 2 % p) + x % 2;
    assert x == q * (2 * p) + r by { assert 2 * (q * p) == q * (2 * p); }
    ModUnique(x, 2 * p, q, r);
  }

  lemma ModUnique(x: int, m: int, q: int, r: int)
    requires m > 0 && x == q * m + r && 0 <= r < m
    ensures x % m == r && x / m == q
  {
    var d := q - x / m;
    assert x / m * m + x % m == x;
    assert q * m == d * m + x / m * m by { assert q == d + x / m; }
    assert d * m == x % m - r;
    MulBound(d, m);
  }

  lemma MulBound(d: int, m: int)
    requires m > 0
    ensures d >= 1 ==> d * m >= m
    ensures d <= -1 ==> d * m <= -m
  {
    if d >= 1 { assert d * m == (d - 1) * m + m; }
    if d <= -1 { assert d * m == (d + 1) * m - m; }
  }

  /** `align & (align - 1)` is zero for exactly the powers of two: the test memalign makes. */
  lemma {:induction false} PowerTest(a: nat)
    requires a >= 1
    ensures And(a, a - 1) == 0 <==> IsPow2(a)
  {
    if a == 1 {
      assert a == Pow2(0);
    } else if a % 2 == 1 {
      assert And(a, a - 1) == 2 * And(a / 2, (a - 1) / 2) + 0;
      AndSelf(a / 2);
      forall k: nat ensures a != Pow2(k) { assert k > 0 ==> Pow2(k) == 2 * Pow2(k - 1); }
    } else {
      assert (a - 1) / 2 == a / 2 - 1;
      PowerTest(a / 2);
      if IsPow2(a / 2) {
        var k: nat :| a / 2 == Pow2(k);
        assert a == Pow2(k + 1);
      }
      if IsPow2(a) {
        var k: nat :| a == Pow2(k);
        assert k > 0 && a / 2 == Pow2(k - 1);
      }
    }
  }

  lemma {:induction false} AndSelf(x: nat)
    ensures And(x, x) == x
  {
    if x > 0 {
      AndSelf(x / 2);
      assert x % 2 * (x % 2) == x % 2;
    }
  }

  /** For a power of two below the modulus, M_ALIGN is the distance to the next multiple. */
  lemma MAlignMeaning(x: nat, align: nat)
    requires IsPow2(align) && 1 <= align < MODULUS
    ensures MAlign(x, align) < align
    ensures Aligned(x + MAlign(x, align), align)
  {
    var k: nat :| align == Pow2(k);
    AndMask(Neg(x), k);
    var t := ModulusSplit(k);
    var s := NegSum(x);
    MulAssoc(s, t, align);
    MAlignArith(x, Neg(x), align, s * t);
  }

  /** There is only one such distance. */
  lemma MAlignIs(x: nat, align: nat, q: nat, d: nat)
    requires IsPow2(align) && 1 <= align < MODULUS && x + d == q * align && d < align
    ensures MAlign(x, align) == d
  {
    hide MAlign, IsPow2;
    MAlignMeaning(x, align);
    var m := MAlign(x, align);
    var t := (x + m) / align;
    assert x + m == t * align + (x + m) % align;
    MulDistribute(t, q, align);
    assert m - d == (t - q) * align;
    MulBound(t - q, align);
  }

  lemma ModulusSplit(k: nat) returns (t: nat)
    requires Pow2(k) < MODULUS
    ensures MODULUS == t * Pow2(k)
  {
    assert MODULUS == Pow2(64) by { Pow2Of64(); }
    if k > 64 { Pow2Mono(64, k); }
    Pow2Add(64 - k, k);
    t := Pow2(64 - k);
  }

  lemma Pow2Of64()
    ensures Pow2(64) == MODULUS
  {
    assert Pow2(2) == 4;
    hide Pow2;
    Pow2Add(2, 2);
    Pow2Add(4, 4);
    Pow2Add(8, 8);
    assert Pow2(16) == 0x1_0000;
    Pow2Add(16, 16);
    assert Pow2(32) == 0x1_0000_0000;
    Pow2Add(32, 32);
  }

  lemma MAlignArith(x: nat, n: nat, align: nat, c: nat)
    requires align >= 1 && x + n == c * align
    ensures (x + n % align) % align == 0
  {
    var q := n / align;
    assert n == q * align + n % align;
    MulDistribute(c, q, align);
    ModUnique(x + n % align, align, c - q, 0);
  }

  lemma MulAssoc(a: int, b: int, c: int)
    ensures a * (b * c) == (a * b) * c
  {
  }

  lemma MulDistribute(a: int, b: int, c: int)
    ensures (a - b) * c == a * c - b * c
  {
  }

  lemma NegSum(x: nat) returns (s: nat)
    ensures x + Neg(x) == s * MODULUS
  {
    s := (x + Neg(x)) / MODULUS;
  }

  /** On word-aligned addresses an M_ALIGN result is a whole number of words. */
  lemma MAlignWords(x: nat, align: nat)
    requires IsPow2(align) && 1 <= align < MODULUS
    requires x % SIZE_T == 0
    ensures MAlign(x, align) % SIZE_T == 0
  {
    var k: nat :| align == Pow2(k);
    AndMask(Neg(x), k);
    if k < 3 {
      SmallMask(Neg(x), k);
    } else {
      Pow2Add(3, k - 3);
      ModOfMultiple(Neg(x), Pow2(k - 3));
    }
  }

  lemma SmallMask(n: nat, k: nat)
    requires n % 8 == 0 && k < 3
    ensures n % Pow2(k) == 0
  {
    assert k == 0 || k == 1 || k == 2;
    assert Pow2(2) == 2 * Pow2(1) && Pow2(1) == 2 * Pow2(0);
  }

  lemma ModOfMultiple(n: nat, u: nat)
    requires u >= 1 && n % 8 == 0
    ensures n % (8 * u) % 8 == 0
  {
    var q := n / (8 * u);
    assert n == q * (8 * u) + n % (8 * u);
    MulAssoc(q, u, 8);
    ModUnique(n % (8 * u), 8, n / 8 - q * u, 0);
  }
}
