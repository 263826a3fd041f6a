/** rsort.c: radix sort in four byte-wide passes. */
module RadixSort {
  // Least significant digit first, 32-bit words, with the counting, prefix-sum and scatter loops
  // unrolled.

  import opened Words

  const LOG_BASE: nat := 8
  const BASE: nat := 256
  const WORD_BITS: nat := 32

  type Word = x: int | 0 <= x < 0x1_0000_0000

  /** (a >> e) % BASE. */
  function Digit(a: Word, e: nat): (d: nat)
    ensures d < BASE
  {
    (a / Pow2(e)) % BASE
  }

  // ---------------------------------------------------------------- what one pass should do

  /** The elements of s whose digit is d, in their order in s. */
  ghost function Filter(s: seq<Word>, e: nat, d: nat): seq<Word>
  {
    if s == [] then []
    else Filter(s[..|s| - 1], e, d) + (if Digit(s[|s| - 1], e) == d then [s[|s| - 1]] else [])
  }

  /** The elements of s with digits below d, grouped by digit: for d = BASE, a stable sort by digit. */
  ghost function Gather(s: seq<Word>, e: nat, d: nat): seq<Word>
  {
    if d == 0 then [] else Gather(s, e, d - 1) + Filter(s, e, d - 1)
  }

  ghost function Start(s: seq<Word>, e: nat, d: nat): nat { |Gather(s, e, d)| }

  lemma FilterSnoc(s: seq<Word>, x: Word, e: nat, d: nat)
    ensures Filter(s + [x], e, d) == Filter(s, e, d) + (if Digit(x, e) == d then [x] else [])
  {
    hide Digit;
    assert (s + [x])[..|s|] == s;
  }

  lemma {:induction false} FilterConcat(s: seq<Word>, t: seq<Word>, e: nat, d: nat)
    ensures Filter(s + t, e, d) == Filter(s, e, d) + Filter(t, e, d)
  {
    hide Digit;
    if t == [] {
      assert s + t == s;
    } else {
      var u := t[..|t| - 1];
      FilterConcat(s, u, e, d);
      assert (s + t)[..|s + t| - 1] == s + u;
    }
  }

  lemma {:induction false} FilterHas(s: seq<Word>, e: nat, d: nat)
    ensures forall k | 0 <= k < |Filter(s, e, d)| :: Digit(Filter(s, e, d)[k], e) == d
  {
    hide Digit;
    if s != [] { FilterHas(s[..|s| - 1], e, d); }
  }

  lemma {:induction false} FilterBag(s: seq<Word>, e: nat, d: nat, x: Word)
    ensures multiset(Filter(s, e, d))[x] == if Digit(x, e) == d then multiset(s)[x] else 0
  {
    hide Digit;
    if s != [] {
      FilterBag(s[..|s| - 1], e, d, x);
      assert s == s[..|s| - 1] + [s[|s| - 1]];
    }
  }

  lemma {:induction false} GatherBag(s: seq<Word>, e: nat, d: nat, x: Word)
    ensures multiset(Gather(s, e, d))[x] == if Digit(x, e) < d then multiset(s)[x] else 0
  {
    hide Digit, Filter;
    if d > 0 {
      GatherBag(s, e, d - 1, x);
      FilterBag(s, e, d - 1, x);
    }
  }

  lemma PassPermutes(s: seq<Word>, e: nat)
    ensures multiset(Gather(s, e, BASE)) == multiset(s)
  {
    hide Digit, Gather;
    forall x: Word ensures multiset(Gather(s, e, BASE))[x] == multiset(s)[x] { GatherBag(s, e, BASE, x); }
    BagsEqual(Gather(s, e, BASE), s);
  }

  lemma BagsEqual(s: seq<Word>, t: seq<Word>)
    requires forall x: Word :: multiset(s)[x] == multiset(t)[x]
    ensures multiset(s) == multiset(t) && |s| == |t|
  {
    assert multiset(s) == multiset(t);
    assert |multiset(s)| == |multiset(t)|;
  }

  lemma {:induction false} FilterFilter(s: seq<Word>, e: nat, d: nat, c: nat)
    ensures Filter(Filter(s, e, d), e, c) == if c == d then Filter(s, e, d) else []
  {
    hide Digit;
    if s != [] {
      var u, x := s[..|s| - 1], s[|s| - 1];
      FilterFilter(u, e, d, c);
      FilterSnoc(Filter(u, e, d), x, e, c);
      assert Filter(u, e, d) + [] == Filter(u, e, d);
    }
  }

  lemma {:induction false} GatherFilter(s: seq<Word>, e: nat, d: nat, c: nat)
    ensures Filter(Gather(s, e, d), e, c) == if c < d then Filter(s, e, c) else []
  {
    hide Digit, Filter;
    if d == 0 {
      FilterNone(e, c);
    } else {
      GatherFilter(s, e, d - 1, c);
      FilterFilter(s, e, d - 1, c);
      FilterConcat(Gather(s, e, d - 1), Filter(s, e, d - 1), e, c);
    }
  }

  lemma FilterNone(e: nat, c: nat)
    ensures Filter([], e, c) == []
  {
  }

  /** A pass leaves elements with equal digits in the order they came in. */
  lemma PassStable(s: seq<Word>, e: nat, d: nat)
    requires d < BASE
    ensures Filter(Gather(s, e, BASE), e, d) == Filter(s, e, d)
  {
    GatherFilter(s, e, BASE, d);
  }

  // ---------------------------------------------------------------- why four passes sort

  /** The e low bits. */
  ghost function Low(a: Word, e: nat): nat { a % Pow2(e) }

  ghost predicate SortedLow(s: seq<Word>, e: nat)
  {
    forall i, j | 0 <= i < j < |s| :: Low(s[i], e) <= Low(s[j], e)
  }

  lemma Pow2Byte(e: nat)
    ensures Pow2(e + LOG_BASE) == BASE * Pow2(e)
  {
    assert Pow2(e + 8) == 2 * Pow2(e + 7);
    assert Pow2(e + 6) == 2 * Pow2(e + 5);
    assert Pow2(e + 4) == 2 * Pow2(e + 3);
    assert Pow2(e + 2) == 2 * Pow2(e + 1);
  }

  /** A digit extends the low bits below it. */
  lemma LowStep(a: Word, e: nat)
    ensures Low(a, e + LOG_BASE) == Digit(a, e) * Pow2(e) + Low(a, e)
  {
    hide Pow2;
    Pow2Byte(e);
    var p, q, r, d := Pow2(e), a / Pow2(e), a % Pow2(e), Digit(a, e);
    DigitSplit(a, p, q, r, q / BASE, d);
    ModUnique(a, BASE * p, q / BASE, d * p + r);
  }

  lemma DigitSplit(a: int, p: nat, q: int, r: nat, k: int, d: nat)
    requires a == p * q + r && q == BASE * k + d && r < p && d < BASE
    ensures a == k * (BASE * p) + (d * p + r) && 0 <= d * p + r < BASE * p
  {
    assert p * q == p * (BASE * k + d) == (BASE * p) * k + d * p;
    assert (BASE - 1 - d) * p >= 0;
    assert (BASE - 1 - d) * p == (BASE - 1) * p - d * p;
  }

  lemma {:induction false} FilterSorted(s: seq<Word>, e: nat, d: nat)
    requires SortedLow(s, e)
    ensures SortedLow(Filter(s, e, d), e)
    ensures s != [] ==> forall k | 0 <= k < |Filter(s, e, d)| :: Low(Filter(s, e, d)[k], e) <= Low(s[|s| - 1], e)
  {
    hide Digit, Low;
    if s != [] {
      var u := s[..|s| - 1];
      FilterSorted(u, e, d);
      assert u != [] ==> Low(u[|u| - 1], e) <= Low(s[|s| - 1], e);
      if u == [] { FilterNone(e, d); }
    }
  }

  lemma {:induction false} GatherSorted(s: seq<Word>, e: nat, d: nat)
    requires SortedLow(s, e)
    ensures SortedLow(Gather(s, e, d), e + LOG_BASE)
    ensures forall k | 0 <= k < |Gather(s, e, d)| :: Digit(Gather(s, e, d)[k], e) < d
  {
    hide Digit, Low, Filter;
    if d > 0 {
      var g, f := Gather(s, e, d - 1), Filter(s, e, d - 1);
      GatherSorted(s, e, d - 1);
      FilterSorted(s, e, d - 1);
      FilterHas(s, e, d - 1);
      forall i, j | 0 <= i < j < |g + f| ensures Low((g + f)[i], e + LOG_BASE) <= Low((g + f)[j], e + LOG_BASE) {
        if j >= |g| { LowOrder((g + f)[i], (g + f)[j], e); }
      }
    }
  }

  /** A smaller digit, or an equal digit and no larger low bits, means no larger bits up to the digit. */
  lemma LowOrder(a: Word, b: Word, e: nat)
    requires Digit(a, e) < Digit(b, e) || (Digit(a, e) == Digit(b, e) && Low(a, e) <= Low(b, e))
    ensures Low(a, e + LOG_BASE) <= Low(b, e + LOG_BASE)
  {
    LowStep(a, e);
    LowStep(b, e);
    LowBound(a, e);
    hide Digit, Low, Pow2;
    if Digit(a, e) < Digit(b, e) {
      assert (Digit(a, e) + 1) * Pow2(e) <= Digit(b, e) * Pow2(e);
    }
  }

  lemma LowBound(a: Word, e: nat)
    ensures Low(a, e) < Pow2(e)
  {
  }

  /** A stable pass on the next digit extends the sorted range of bits by that digit. */
  lemma PassSorts(s: seq<Word>, e: nat)
    requires SortedLow(s, e)
    ensures SortedLow(Gather(s, e, BASE), e + LOG_BASE)
  {
    GatherSorted(s, e, BASE);
  }

  lemma LowNone(s: seq<Word>)
    ensures SortedLow(s, 0)
  {
  }

  lemma LowAll(a: Word)
    ensures Low(a, WORD_BITS) == a
  {
    Pow2Byte(0);
    Pow2Byte(8);
    Pow2Byte(16);
    Pow2Byte(24);
  }

  // ---------------------------------------------------------------- counting

  ghost predicate Counted(bucket: seq<nat>, s: seq<Word>, e: nat)
  {
    |bucket| == BASE && forall d: nat | d < BASE :: bucket[d] == |Filter(s, e, d)|
  }

  lemma CountOne(bucket: seq<nat>, s: seq<Word>, p: nat, e: nat)
    requires p < |s| && Counted(bucket, s[..p], e)
    ensures var d := Digit(s[p], e); Counted(bucket[d := bucket[d] + 1], s[..p + 1], e)
  {
    hide Digit, Filter;
    var b := Digit(s[p], e);
    assert s[..p + 1] == s[..p] + [s[p]];
    var now := bucket[b := bucket[b] + 1];
    forall d: nat | d < BASE ensures now[d] == |Filter(s[..p + 1], e, d)| {
      FilterSnoc(s[..p], s[p], e, d);
    }
  }

  /** fetch_add(&a[i], 1) with its result dropped. */
  method Bump(bucket: array<nat>, i: nat)
    requires i < bucket.Length
    modifies bucket
    ensures bucket[..] == old(bucket[..])[i := old(bucket[i]) + 1]
  {
    bucket[i] := bucket[i] + 1;
  }

  method Count(arr: array<Word>, bucket: array<nat>, e: nat)
    requires bucket.Length == BASE
    modifies bucket
    ensures Counted(bucket[..], arr[..], e)
  {
    hide Counted, Digit;
    var n := arr.Length;
    Clear(bucket, arr[..], e);
    ghost var s := arr[..];
    assert s[..0] == [];
    var p := 0;
    while p < n - 3
      invariant p <= n
      invariant Counted(bucket[..], s[..p], e)
    {
      var a0, a1, a2, a3 := arr[p], arr[p + 1], arr[p + 2], arr[p + 3];
      CountOne(bucket[..], s, p, e);
      Bump(bucket, Digit(a0, e));
      CountOne(bucket[..], s, p + 1, e);
      Bump(bucket, Digit(a1, e));
      CountOne(bucket[..], s, p + 2, e);
      Bump(bucket, Digit(a2, e));
      CountOne(bucket[..], s, p + 3, e);
      Bump(bucket, Digit(a3, e));
      p := p + 4;
    }
    while p < n
      invariant p <= n
      invariant Counted(bucket[..], s[..p], e)
    {
      CountOne(bucket[..], s, p, e);
      Bump(bucket, Digit(arr[p], e));
      p := p + 1;
    }
    assert s[..n] == s;
  }

  method Clear(bucket: array<nat>, ghost s: seq<Word>, e: nat)
    requires bucket.Length == BASE
    modifies bucket
    ensures Counted(bucket[..], [], e)
  {
    var b := 0;
    while b < BASE
      invariant b <= BASE && forall d | 0 <= d < b :: bucket[d] == 0
    {
      bucket[b] := 0;
      b := b + 1;
    }
  }

  // ---------------------------------------------------------------- prefix sums

  /** The first b buckets hold where the next digit's group starts, the others still their counts. */
  ghost predicate Summed(bucket: seq<nat>, s: seq<Word>, e: nat, b: nat)
  {
    && |bucket| == BASE && b <= BASE
    && (forall d: nat | d < b :: bucket[d] == Start(s, e, d + 1))
    && (forall d: nat | b <= d < BASE :: bucket[d] == |Filter(s, e, d)|)
  }

  lemma SumOne(bucket: seq<nat>, s: seq<Word>, e: nat, b: nat, prev: nat)
    requires b < BASE && Summed(bucket, s, e, b) && prev == Start(s, e, b)
    ensures prev + bucket[b] == Start(s, e, b + 1)
    ensures Summed(bucket[b := bucket[b] + prev], s, e, b + 1)
  {
    hide Filter;
    assert Gather(s, e, b + 1) == Gather(s, e, b) + Filter(s, e, b);
    hide Gather;
  }

  /** prev += fetch_add(&a[i], prev). */
  method AddPrev(bucket: array<nat>, i: nat, prev: nat, ghost s: seq<Word>, ghost e: nat) returns (next: nat)
    requires bucket.Length == BASE && i < BASE && Summed(bucket[..], s, e, i) && prev == Start(s, e, i)
    modifies bucket
    ensures next == prev + old(bucket[i]) == Start(s, e, i + 1) && Summed(bucket[..], s, e, i + 1)
  {
    hide Summed, Start;
    SumOne(bucket[..], s, e, i, prev);
    bucket[i] := bucket[i] + prev;
    next := prev + (bucket[i] - prev);
  }

  method PrefixSum(bucket: array<nat>, ghost s: seq<Word>, ghost e: nat)
    requires bucket.Length == BASE && Counted(bucket[..], s, e)
    modifies bucket
    ensures Summed(bucket[..], s, e, BASE)
  {
    hide Summed, Start, Counted;
    SumStart(bucket[..], s, e);
    var prev := bucket[0];
    prev := AddPrev(bucket, 1, prev, s, e);
    var b := 2;
    while b < BASE
      invariant 2 <= b <= BASE && b % 2 == 0
      invariant Summed(bucket[..], s, e, b) && prev == Start(s, e, b)
    {
      prev := AddPrev(bucket, b, prev, s, e);
      prev := AddPrev(bucket, b + 1, prev, s, e);
      b := b + 2;
    }
  }

  lemma SumStart(bucket: seq<nat>, s: seq<Word>, e: nat)
    requires Counted(bucket, s, e)
    ensures Summed(bucket, s, e, 1) && bucket[0] == Start(s, e, 1)
  {
    hide Filter;
    assert Gather(s, e, 1) == Gather(s, e, 0) + Filter(s, e, 0) == Filter(s, e, 0);
  }

  // ---------------------------------------------------------------- scattering

  /** Elements from r on have been placed: for each digit d they fill the end of its group, in their order. */
  ghost predicate Scattered(s: seq<Word>, e: nat, r: nat, bucket: seq<nat>, scratch: seq<Word>)
  {
    && |bucket| == BASE && |scratch| == |s| && r <= |s|
    && forall d: nat | d < BASE :: Group(s, e, r, d, bucket[d], scratch)
  }

  ghost predicate Group(s: seq<Word>, e: nat, r: nat, d: nat, at: nat, scratch: seq<Word>)
    requires r <= |s|
  {
    && at == Start(s, e, d) + |Filter(s[..r], e, d)|
    && at <= Start(s, e, d + 1) <= |scratch|
    && scratch[at..Start(s, e, d + 1)] == Filter(s[r..], e, d)
  }

  lemma {:induction false} StartMonotone(s: seq<Word>, e: nat, c: nat, d: nat)
    requires c <= d
    ensures Start(s, e, c) <= Start(s, e, d)
  {
    hide Filter;
    if c < d { StartMonotone(s, e, c, d - 1); }
  }

  lemma StartBound(s: seq<Word>, e: nat, d: nat)
    requires d <= BASE
    ensures Start(s, e, d) <= |s|
  {
    hide Gather;
    PassPermutes(s, e);
    assert |multiset(Gather(s, e, BASE))| == |multiset(s)|;
    StartMonotone(s, e, d, BASE);
  }

  lemma StartStep(s: seq<Word>, e: nat, d: nat)
    ensures Start(s, e, d + 1) == Start(s, e, d) + |Filter(s, e, d)|
  {
    hide Filter;
  }

  lemma ScatterStart(s: seq<Word>, e: nat, bucket: seq<nat>, scratch: seq<Word>)
    requires Summed(bucket, s, e, BASE) && |scratch| == |s|
    ensures Scattered(s, e, |s|, bucket, scratch)
  {
    hide Filter, Start;
    forall d: nat | d < BASE ensures Group(s, e, |s|, d, bucket[d], scratch) {
      StartStep(s, e, d);
      StartBound(s, e, d + 1);
      assert s[..|s|] == s && s[|s|..] == [];
      FilterNone(e, d);
    }
  }

  /** Placing element r at the slot below its bucket's. */
  lemma ScatterOne(s: seq<Word>, e: nat, r: nat, bucket: seq<nat>, scratch: seq<Word>)
    requires r < |s| && Scattered(s, e, r + 1, bucket, scratch)
    ensures var b := Digit(s[r], e);
      && 1 <= bucket[b] <= |scratch|
      && Scattered(s, e, r, bucket[b := bucket[b] - 1], scratch[bucket[b] - 1 := s[r]])
  {
    hide Filter, Start, Digit, Group;
    var b := Digit(s[r], e);
    SlotHere(s, e, r, bucket[b], scratch);
    var bucket', scratch' := bucket[b := bucket[b] - 1], scratch[bucket[b] - 1 := s[r]];
    forall d: nat | d < BASE ensures Group(s, e, r, d, bucket'[d], scratch') {
      if d != b { SlotElsewhere(s, e, r, d, bucket[d], bucket[b], scratch); }
    }
  }

  lemma SlotHere(s: seq<Word>, e: nat, r: nat, at: nat, scratch: seq<Word>)
    requires r < |s| && Group(s, e, r + 1, Digit(s[r], e), at, scratch)
    ensures 1 <= at <= |scratch|
    ensures Group(s, e, r, Digit(s[r], e), at - 1, scratch[at - 1 := s[r]])
  {
    hide Filter, Start, Digit;
    var b := Digit(s[r], e);
    FilterAround(s, e, r, b);
    var hi := Start(s, e, b + 1);
    var t := scratch[at - 1 := s[r]];
    assert t[at - 1..hi] == [s[r]] + scratch[at..hi];
  }

  lemma SlotElsewhere(s: seq<Word>, e: nat, r: nat, d: nat, at: nat, slot: nat, scratch: seq<Word>)
    requires r < |s| && d < BASE && d != Digit(s[r], e)
    requires Group(s, e, r + 1, d, at, scratch) && Group(s, e, r + 1, Digit(s[r], e), slot, scratch) && slot >= 1
    ensures slot <= |scratch| && Group(s, e, r, d, at, scratch[slot - 1 := s[r]])
  {
    hide Filter, Start, Digit;
    var b := Digit(s[r], e);
    FilterAround(s, e, r, d);
    FilterAround(s, e, r, b);
    var hi := Start(s, e, d + 1);
    if b < d { StartMonotone(s, e, b + 1, d); } else { StartMonotone(s, e, d + 1, b); }
    assert slot - 1 < at || hi <= slot - 1;
    assert scratch[slot - 1 := s[r]][at..hi] == scratch[at..hi];
  }

  /** How element r counts towards the prefix and the suffix it separates. */
  lemma FilterAround(s: seq<Word>, e: nat, r: nat, d: nat)
    requires r < |s|
    ensures Filter(s[..r + 1], e, d) == Filter(s[..r], e, d) + (if Digit(s[r], e) == d then [s[r]] else [])
    ensures Filter(s[r..], e, d) == (if Digit(s[r], e) == d then [s[r]] else []) + Filter(s[r + 1..], e, d)
  {
    hide Filter, Digit;
    assert s[..r + 1] == s[..r] + [s[r]];
    FilterSnoc(s[..r], s[r], e, d);
    assert s[r..] == [s[r]] + s[r + 1..];
    FilterConcat([s[r]], s[r + 1..], e, d);
    FilterNone(e, d);
    FilterSnoc([], s[r], e, d);
    assert [] + [s[r]] == [s[r]];
  }

  lemma {:induction false} ScatterPrefix(s: seq<Word>, e: nat, bucket: seq<nat>, scratch: seq<Word>, d: nat)
    requires d <= BASE && Scattered(s, e, 0, bucket, scratch)
    ensures Start(s, e, d) <= |scratch| && scratch[..Start(s, e, d)] == Gather(s, e, d)
  {
    hide Filter;
    if d > 0 {
      ScatterPrefix(s, e, bucket, scratch, d - 1);
      assert Group(s, e, 0, d - 1, bucket[d - 1], scratch);
      FilterNone(e, d - 1);
      assert s[..0] == [] && s[0..] == s;
      var lo, hi := Start(s, e, d - 1), Start(s, e, d);
      assert scratch[..hi] == scratch[..lo] + scratch[lo..hi];
    }
  }

  /** When every element is placed, scratch is the stable sort by digit. */
  lemma ScatterDone(s: seq<Word>, e: nat, bucket: seq<nat>, scratch: seq<Word>)
    requires Scattered(s, e, 0, bucket, scratch)
    ensures scratch == Gather(s, e, BASE)
  {
    hide Gather, Scattered;
    ScatterPrefix(s, e, bucket, scratch, BASE);
    PassPermutes(s, e);
    assert |multiset(Gather(s, e, BASE))| == |multiset(s)|;
    ScatterLength(s, e, bucket, scratch);
    assert scratch[..|scratch|] == scratch;
  }

  lemma ScatterLength(s: seq<Word>, e: nat, bucket: seq<nat>, scratch: seq<Word>)
    requires Scattered(s, e, 0, bucket, scratch)
    ensures |scratch| == |s|
  {
  }

  /** fetch_add(&a[i], -1). */
  method FetchDec(bucket: array<nat>, i: nat) returns (before: nat)
    requires i < bucket.Length && bucket[i] >= 1
    modifies bucket
    ensures before == old(bucket[i]) && bucket[..] == old(bucket[..])[i := before - 1]
  {
    before := bucket[i];
    bucket[i] := bucket[i] - 1;
  }

  method Scatter(arr: array<Word>, scratch: array<Word>, bucket: array<nat>, e: nat)
    requires arr != scratch && arr.Length == scratch.Length && bucket.Length == BASE
    requires Summed(bucket[..], arr[..], e, BASE)
    modifies scratch, bucket
    ensures scratch[..] == Gather(arr[..], e, BASE)
  {
    hide Scattered, Summed, Digit, Gather;
    ghost var s := arr[..];
    ScatterStart(s, e, bucket[..], scratch[..]);
    var p := arr.Length - 1;
    while p >= 3
      invariant -1 <= p < arr.Length
      invariant Scattered(s, e, p + 1, bucket[..], scratch[..])
    {
      ScatterFour(arr, scratch, bucket, e, p);
      p := p - 4;
    }
    while p >= 0
      invariant -1 <= p < arr.Length
      invariant Scattered(s, e, p + 1, bucket[..], scratch[..])
    {
      ScatterOne(s, e, p, bucket[..], scratch[..]);
      ghost var b0, t0 := bucket[..], scratch[..];
      var d := Digit(arr[p], e);
      bucket[d] := bucket[d] - 1;
      scratch[bucket[d]] := arr[p];
      assert bucket[..] == b0[d := b0[d] - 1] && scratch[..] == t0[b0[d] - 1 := s[p]];
      p := p - 1;
    }
    ScatterDone(s, e, bucket[..], scratch[..]);
  }

  /** One round of the unrolled scatter: all four slots are taken before any of the four stores. */
  method ScatterFour(arr: array<Word>, scratch: array<Word>, bucket: array<nat>, e: nat, p: nat)
    requires arr != scratch && 3 <= p < arr.Length && bucket.Length == BASE
    requires Scattered(arr[..], e, p + 1, bucket[..], scratch[..])
    modifies scratch, bucket
    ensures Scattered(arr[..], e, p - 3, bucket[..], scratch[..])
  {
    hide Scattered, Digit;
    ghost var s, t0 := arr[..], scratch[..];
    var a0, a1, a2, a3 := arr[p], arr[p - 1], arr[p - 2], arr[p - 3];
    ScatterOne(s, e, p, bucket[..], t0);
    var s0 := FetchDec(bucket, Digit(a0, e));
    ghost var t1 := t0[s0 - 1 := a0];
    ScatterOne(s, e, p - 1, bucket[..], t1);
    var s1 := FetchDec(bucket, Digit(a1, e));
    ghost var t2 := t1[s1 - 1 := a1];
    ScatterOne(s, e, p - 2, bucket[..], t2);
    var s2 := FetchDec(bucket, Digit(a2, e));
    ghost var t3 := t2[s2 - 1 := a2];
    ScatterOne(s, e, p - 3, bucket[..], t3);
    var s3 := FetchDec(bucket, Digit(a3, e));
    scratch[s0 - 1] := a0;
    scratch[s1 - 1] := a1;
    scratch[s2 - 1] := a2;
    scratch[s3 - 1] := a3;
    assert scratch[..] == t3[s3 - 1 := a3];
  }

  // ---------------------------------------------------------------- the sort

  /** One pass of the outer loop: scratch becomes the stable sort of arr by the digit at e. */
  method Pass(arr: array<Word>, scratch: array<Word>, bucket: array<nat>, e: nat)
    requires arr != scratch && arr.Length == scratch.Length && bucket.Length == BASE
    modifies scratch, bucket
    ensures scratch[..] == Gather(arr[..], e, BASE)
  {
    hide Counted, Summed, Gather;
    Count(arr, bucket, e);
    PrefixSum(bucket, arr[..], e);
    Scatter(arr, scratch, bucket, e);
  }

  /** sort. After four passes the result is in arrIn again, so nothing is copied back. */
  method Sort(n: nat, arrIn: array<Word>, scratchIn: array<Word>)
    requires arrIn != scratchIn && arrIn.Length == n == scratchIn.Length
    modifies arrIn, scratchIn
    ensures multiset(arrIn[..]) == multiset(old(arrIn[..]))
    ensures forall i, j | 0 <= i < j < n :: arrIn[i] <= arrIn[j]
  {
    hide Gather, SortedLow;
    var logExp := 0;
    var bucket := new nat[BASE];
    var arr, scratch := arrIn, scratchIn;
    LowNone(arr[..]);
    while logExp < WORD_BITS
      invariant logExp <= WORD_BITS && logExp % LOG_BASE == 0
      invariant if logExp / LOG_BASE % 2 == 0 then arr == arrIn && scratch == scratchIn
                else arr == scratchIn && scratch == arrIn
      invariant SortedLow(arr[..], logExp)
      invariant multiset(arr[..]) == multiset(old(arrIn[..]))
      invariant fresh(bucket)
    {
      PassSorts(arr[..], logExp);
      PassPermutes(arr[..], logExp);
      Pass(arr, scratch, bucket, logExp);
      arr, scratch := scratch, arr;
      logExp := logExp + LOG_BASE;
    }
    assert arr == arrIn;
    LowSorted(arr[..]);
    assert forall i, j | 0 <= i < j < n :: arr[..][i] <= arr[..][j];
  }

  lemma LowSorted(s: seq<Word>)
    requires SortedLow(s, WORD_BITS)
    ensures forall i, j | 0 <= i < j < |s| :: s[i] <= s[j]
  {
    hide Low;
    forall i, j | 0 <= i < j < |s| ensures s[i] <= s[j] {
      LowAll(s[i]);
      LowAll(s[j]);
      assert Low(s[i], WORD_BITS) <= Low(s[j], WORD_BITS);
    }
  }
}
