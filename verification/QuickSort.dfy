/** qsort_main.c: non-recursive quicksort. */
module QuickSort {
  // Median of three, sentinels in place of bounds tests, an explicit stack of 50 pointers, and
  // insertion sort for short segments.

  import opened Words

  const INSERTION_THRESHOLD: nat := 10
  const NSTACK: nat := 50

  // ---------------------------------------------------------------- sequences

  ghost predicate SortedIn(s: seq<int>, lo: nat, hi: nat)
  {
    forall x, y | lo <= x < y < hi && y < |s| :: s[x] <= s[y]
  }

  /** t rearranges s inside [lo, hi) and equals it elsewhere. */
  ghost predicate Permuted(s: seq<int>, t: seq<int>, lo: nat, hi: nat)
  {
    && |s| == |t| && multiset(s) == multiset(t)
    && forall x | 0 <= x < |s| && !(lo <= x < hi) :: s[x] == t[x]
  }

  /** Nothing left of x is larger than anything from x on. */
  ghost predicate Cut(s: seq<int>, x: nat)
  {
    forall p, q | 0 <= p < x <= q < |s| :: s[p] <= s[q]
  }

  lemma SwapPermutes(s: seq<int>, i: nat, j: nat, lo: nat, hi: nat)
    requires lo <= i < hi <= |s| && lo <= j < hi
    ensures Permuted(s, s[i := s[j]][j := s[i]], lo, hi)
  {
  }

  lemma PermutedTrans(a: seq<int>, b: seq<int>, c: seq<int>, lo: nat, hi: nat)
    requires Permuted(a, b, lo, hi) && Permuted(b, c, lo, hi)
    ensures Permuted(a, c, lo, hi)
  {
  }

  lemma PermutedWithin(a: seq<int>, b: seq<int>, lo: nat, hi: nat)
    requires Permuted(a, b, lo, hi) && lo <= hi <= |a|
    ensures multiset(a[lo..hi]) == multiset(b[lo..hi])
  {
    BagSplit(a, lo, hi);
    BagSplit(b, lo, hi);
    assert a[..lo] == b[..lo] && a[hi..] == b[hi..];
    BagCancel(multiset(a[..lo]), multiset(a[lo..hi]), multiset(b[lo..hi]), multiset(a[hi..]));
  }

  lemma BagCancel(x: multiset<int>, a: multiset<int>, b: multiset<int>, y: multiset<int>)
    requires x + a + y == x + b + y
    ensures a == b
  {
    forall v ensures a[v] == b[v] {
      assert (x + a + y)[v] == x[v] + a[v] + y[v];
      assert (x + b + y)[v] == x[v] + b[v] + y[v];
    }
  }

  lemma BagSplit(a: seq<int>, lo: nat, hi: nat)
    requires lo <= hi <= |a|
    ensures multiset(a) == multiset(a[..lo]) + multiset(a[lo..hi]) + multiset(a[hi..])
  {
    assert a == a[..lo] + a[lo..hi] + a[hi..];
  }

  /** An element of the rearranged stretch was somewhere in it before. */
  lemma ComesFrom(a: seq<int>, b: seq<int>, lo: nat, hi: nat, x: nat) returns (y: nat)
    requires Permuted(a, b, lo, hi) && lo <= x < hi <= |a|
    ensures lo <= y < hi && a[y] == b[x]
  {
    PermutedWithin(a, b, lo, hi);
    var u, v := a[lo..hi], b[lo..hi];
    assert v[x - lo] == b[x] && v[x - lo] in multiset(v);
    assert b[x] in multiset(u) && b[x] in u;
    var k :| 0 <= k < |u| && u[k] == b[x];
    y := lo + k;
    assert u[k] == a[y];
  }

  /** Rearranging inside a segment keeps the cuts at its ends and outside it. */
  lemma CutKept(a: seq<int>, b: seq<int>, lo: nat, hi: nat, x: nat)
    requires Permuted(a, b, lo, hi) && lo <= hi <= |a| && Cut(a, x) && (x <= lo || hi <= x)
    ensures Cut(b, x)
  {
    forall p, q | 0 <= p < x <= q < |b| ensures b[p] <= b[q] {
      var p' := p;
      var q' := q;
      if lo <= p < hi { p' := ComesFrom(a, b, lo, hi, p); }
      if lo <= q < hi { q' := ComesFrom(a, b, lo, hi, q); }
    }
  }

  // ---------------------------------------------------------------- pending segments

  datatype Segment = Segment(lo: nat, hi: nat)

  /** x lies strictly inside a segment that is still to be sorted. */
  ghost predicate Inside(segs: seq<Segment>, x: nat)
  {
    exists d :: 0 <= d < |segs| && segs[d].lo < x < segs[d].hi
  }

  /** Everywhere except inside the pending segments the array is cut. */
  ghost predicate Settled(s: seq<int>, segs: seq<Segment>)
  {
    forall x: nat | x <= |s| :: Cut(s, x) || Inside(segs, x)
  }

  lemma AllCut(s: seq<int>)
    requires Settled(s, [])
    ensures SortedIn(s, 0, |s|)
  {
    forall x, y | 0 <= x < y < |s| ensures s[x] <= s[y] {
      assert Cut(s, y) || Inside([], y);
    }
  }

  /** Sorting the last pending segment settles it. */
  lemma SegmentSorted(s: seq<int>, t: seq<int>, segs: seq<Segment>, lo: nat, hi: nat)
    requires Settled(s, segs + [Segment(lo, hi)]) && Permuted(s, t, lo, hi) && lo <= hi <= |s| && SortedIn(t, lo, hi)
    requires Cut(s, lo) && Cut(s, hi)
    ensures Settled(t, segs)
  {
    CutKept(s, t, lo, hi, lo);
    CutKept(s, t, lo, hi, hi);
    forall x: nat | x <= |t| ensures Cut(t, x) || Inside(segs, x) {
      if lo < x < hi {
        forall p, q | 0 <= p < x <= q < |t| ensures t[p] <= t[q] {
          assert p < lo || q >= hi || t[p] <= t[q];
        }
      } else {
        assert Cut(s, x) || Inside(segs + [Segment(lo, hi)], x);
        if Cut(s, x) {
          CutKept(s, t, lo, hi, x);
        } else {
          var d :| 0 <= d <= |segs| && (segs + [Segment(lo, hi)])[d].lo < x < (segs + [Segment(lo, hi)])[d].hi;
          assert segs[d].lo < x < segs[d].hi;
        }
      }
    }
  }

  /** Around a pivot value v: [lo, u) is at most v, [u, w) equals v, [w, hi) is at least v. */
  ghost predicate Partitioned(t: seq<int>, lo: nat, u: nat, w: nat, hi: nat, v: int)
  {
    && lo <= u <= w <= hi <= |t|
    && (forall x | lo <= x < u :: t[x] <= v)
    && (forall x | u <= x < w :: t[x] == v)
    && (forall x | w <= x < hi :: v <= t[x])
  }

  /** Partitioning the last pending segment leaves two smaller ones. */
  lemma SegmentSplit(s: seq<int>, t: seq<int>, segs: seq<Segment>, lo: nat, u: nat, w: nat, hi: nat, v: int, left: bool)
    requires Settled(s, segs + [Segment(lo, hi)]) && Permuted(s, t, lo, hi) && lo <= hi <= |s|
    requires Cut(s, lo) && Cut(s, hi) && Partitioned(t, lo, u, w, hi, v)
    ensures var a, b := Segment(lo, u), Segment(w, hi);
      Settled(t, segs + (if left then [b, a] else [a, b]))
    ensures Cut(t, u) && Cut(t, w) && Cut(t, lo) && Cut(t, hi)
  {
    CutKept(s, t, lo, hi, lo);
    CutKept(s, t, lo, hi, hi);
    var more := if left then [Segment(w, hi), Segment(lo, u)] else [Segment(lo, u), Segment(w, hi)];
    forall x: nat | u <= x <= w ensures Cut(t, x) {
      PivotCut(t, lo, u, w, hi, v, x);
    }
    forall x: nat | x <= |t| ensures Cut(t, x) || Inside(segs + more, x) {
      if lo < x < u {
        var d := |segs| + (if left then 1 else 0);
        assert (segs + more)[d] == Segment(lo, u);
      } else if w < x < hi {
        var d := |segs| + (if left then 0 else 1);
        assert (segs + more)[d] == Segment(w, hi);
      } else if x <= lo || hi <= x {
        assert Cut(s, x) || Inside(segs + [Segment(lo, hi)], x);
        if Cut(s, x) {
          CutKept(s, t, lo, hi, x);
        } else {
          InsideOthers(segs, Segment(lo, hi), more, x);
        }
      }
    }
  }

  lemma InsideOthers(segs: seq<Segment>, c: Segment, more: seq<Segment>, x: nat)
    requires Inside(segs + [c], x) && !(c.lo < x < c.hi)
    ensures Inside(segs + more, x)
  {
    var d :| 0 <= d < |segs + [c]| && (segs + [c])[d].lo < x < (segs + [c])[d].hi;
    assert (segs + more)[d] == segs[d];
  }

  lemma PivotCut(t: seq<int>, lo: nat, u: nat, w: nat, hi: nat, v: int, x: nat)
    requires Partitioned(t, lo, u, w, hi, v) && Cut(t, lo) && Cut(t, hi) && u <= x <= w
    ensures Cut(t, x)
  {
    forall p, q | 0 <= p < x <= q < |t| ensures t[p] <= t[q] {
      if p >= lo && q < hi {
        assert t[p] <= v <= t[q];
      }
    }
  }

  // ---------------------------------------------------------------- the code

  method Swap(a: array<int>, i: nat, j: nat)
    requires i < a.Length && j < a.Length
    modifies a
    ensures a[..] == old(a[..])[i := old(a[j])][j := old(a[i])]
  {
    a[i], a[j] := a[j], a[i];
  }

  /** insertion_sort on the n elements from off on. */
  method InsertionSort(a: array<int>, n: nat, off: nat)
    requires off + n <= a.Length
    modifies a
    ensures Permuted(old(a[..]), a[..], off, off + n) && SortedIn(a[..], off, off + n)
  {
    hide Permuted, Shifted;
    PermutedSame(a[..], off, off + n);
    var i := off + 1;
    while i < off + n
      invariant off + 1 <= i && (n > 0 ==> i <= off + n)
      invariant Permuted(old(a[..]), a[..], off, off + n)
      invariant SortedIn(a[..], off, i)
    {
      ghost var before := a[..];
      var j := InsertAt(a, i, off);
      Inserted(before, j, i, off, off + n);
      PermutedTrans(old(a[..]), before, a[..], off, off + n);
      i := i + 1;
    }
  }

  lemma PermutedSame(s: seq<int>, lo: nat, hi: nat)
    ensures Permuted(s, s, lo, hi)
  {
  }

  /** The inner loop: element i moves down to its place j among the sorted elements below it. */
  method InsertAt(a: array<int>, i: nat, off: nat) returns (j: nat)
    requires off < i < a.Length && SortedIn(a[..], off, i)
    modifies a
    ensures off <= j <= i && a[..] == Shifted(old(a[..]), j, i)[j := old(a[i])]
    ensures SortedIn(a[..], off, i + 1)
  {
    hide Shifted;
    ghost var before := a[..];
    var value := a[i];
    j := i;
    ShiftNone(before, i);
    while j > off && value < a[j - 1]
      invariant off <= j <= i
      invariant a[..] == Shifted(before, j, i)
      invariant forall x | j <= x < i :: value < before[x]
    {
      ShiftOne(before, j, i);
      a[j] := a[j - 1];
      j := j - 1;
    }
    ShiftBelow(before, j, i);
    a[j] := value;
    InsertedSorted(before, j, i, off);
  }

  lemma ShiftNone(s: seq<int>, i: nat)
    requires i < |s|
    ensures Shifted(s, i, i) == s
  {
  }

  lemma ShiftBelow(s: seq<int>, j: nat, i: nat)
    requires j <= i < |s|
    ensures j > 0 ==> Shifted(s, j, i)[j - 1] == s[j - 1]
  {
  }

  /** s with the elements of [j, i) moved up by one; position j is free for the insertion. */
  ghost function Shifted(s: seq<int>, j: nat, i: nat): (t: seq<int>)
    requires j <= i < |s|
    ensures |t| == |s|
  {
    s[..j + 1] + s[j..i] + s[i + 1..]
  }

  lemma ShiftOne(s: seq<int>, j: nat, i: nat)
    requires 0 < j <= i < |s|
    ensures Shifted(s, j, i)[j - 1] == s[j - 1]
    ensures Shifted(s, j, i)[j := s[j - 1]] == Shifted(s, j - 1, i)
  {
  }

  lemma Inserted(s: seq<int>, j: nat, i: nat, lo: nat, hi: nat)
    requires lo <= j <= i < hi <= |s|
    ensures Permuted(s, Shifted(s, j, i)[j := s[i]], lo, hi)
  {
    var t := Shifted(s, j, i)[j := s[i]];
    assert t == s[..j] + [s[i]] + s[j..i] + s[i + 1..];
    assert s == s[..j] + s[j..i] + [s[i]] + s[i + 1..];
    BagRotate(s[..j], s[j..i], [s[i]], s[i + 1..]);
  }

  lemma BagRotate(a: seq<int>, b: seq<int>, c: seq<int>, d: seq<int>)
    ensures multiset(a + c + b + d) == multiset(a + b + c + d)
  {
  }

  lemma InsertedSorted(s: seq<int>, j: nat, i: nat, lo: nat)
    requires lo <= j <= i < |s|
    requires SortedIn(s, lo, i)
    requires forall x | j <= x < i :: s[i] < s[x]
    requires j > lo ==> s[j - 1] <= s[i]
    ensures SortedIn(Shifted(s, j, i)[j := s[i]], lo, i + 1)
  {
    var t := Shifted(s, j, i)[j := s[i]];
    assert forall x | lo <= x < j :: t[x] == s[x] && s[x] <= s[i];
    assert forall x | j < x <= i :: t[x] == s[x - 1];
  }

  ghost function SwapIf(s: seq<int>, i: nat, j: nat): (t: seq<int>)
    requires i < |s| && j < |s|
    ensures |t| == |s|
  {
    if s[i] > s[j] then s[i := s[j]][j := s[i]] else s
  }

  /** SWAP_IF_GREATER. */
  method SwapIfGreater(a: array<int>, i: nat, j: nat)
    requires i < a.Length && j < a.Length
    modifies a
    ensures a[..] == SwapIf(old(a[..]), i, j)
  {
    if a[i] > a[j] { Swap(a, i, j); }
  }

  lemma SwapIfPermutes(s: seq<int>, i: nat, j: nat, lo: nat, hi: nat)
    requires lo <= i < hi <= |s| && lo <= j < hi
    ensures Permuted(s, SwapIf(s, i, j), lo, hi)
  {
  }

  lemma MedianOrdered(s: seq<int>, l: nat, ir: nat)
    requires 1 <= l && l + 1 < ir <= |s|
    ensures var t := SwapIf(SwapIf(SwapIf(s, l - 1, ir - 1), l, ir - 1), l - 1, l);
      t[l - 1] <= t[l] <= t[ir - 1]
  {
    var s1 := SwapIf(s, l - 1, ir - 1);
    var s2 := SwapIf(s1, l, ir - 1);
    assert s1[l - 1] <= s1[ir - 1];
    assert s2[l] <= s2[ir - 1] && s2[l - 1] <= s2[ir - 1];
  }

  lemma MedianPermutes(s: seq<int>, l: nat, ir: nat)
    requires 1 <= l && l + 1 < ir <= |s|
    ensures Permuted(s, SwapIf(SwapIf(SwapIf(s, l - 1, ir - 1), l, ir - 1), l - 1, l), l - 1, ir)
  {
    hide Permuted, SwapIf;
    var s1 := SwapIf(s, l - 1, ir - 1);
    var s2 := SwapIf(s1, l, ir - 1);
    SwapIfPermutes(s, l - 1, ir - 1, l - 1, ir);
    SwapIfPermutes(s1, l, ir - 1, l - 1, ir);
    SwapIfPermutes(s2, l - 1, l, l - 1, ir);
    PermutedTrans(s, s1, s2, l - 1, ir);
    PermutedTrans(s, s2, SwapIf(s2, l - 1, l), l - 1, ir);
  }

  /** Median of three: afterwards arr[l - 1] <= arr[l] <= arr[ir - 1]. */
  method MedianOfThree(a: array<int>, l: nat, ir: nat)
    requires 1 <= l && l + INSERTION_THRESHOLD <= ir <= a.Length
    modifies a
    ensures Permuted(old(a[..]), a[..], l - 1, ir)
    ensures a[l - 1] <= a[l] <= a[ir - 1]
  {
    hide Permuted, SwapIf;
    ghost var s0 := a[..];
    SwapPermutes(s0, (l + ir) / 2 - 1, l, l - 1, ir);
    Swap(a, (l + ir) / 2 - 1, l);
    ghost var s1 := a[..];
    SwapIfGreater(a, l - 1, ir - 1);
    SwapIfGreater(a, l, ir - 1);
    SwapIfGreater(a, l - 1, l);
    MedianOrdered(s1, l, ir);
    MedianPermutes(s1, l, ir);
    PermutedTrans(s0, s1, a[..], l - 1, ir);
    assert a[..][l - 1] <= a[..][l] <= a[..][ir - 1];
  }

  ghost predicate Below(s: seq<int>, lo: nat, hi: nat, v: int) { forall x | lo <= x < hi && x < |s| :: s[x] <= v }
  ghost predicate Above(s: seq<int>, lo: nat, hi: nat, v: int) { forall x | lo <= x < hi && x < |s| :: v <= s[x] }

  /** Between two rounds of the partitioning loop: [l + 1, i) is at most v, [j - 1, ir) at least v,
      and the two sentinels l and ir - 1 are in place. */
  ghost predicate Halfway(s: seq<int>, l: nat, i: nat, j: nat, ir: nat, v: int)
  {
    && 1 <= l && l + 1 <= i <= j <= ir <= |s| && i < ir && l + 2 <= j
    && s[l - 1] <= v && s[l] == v && v <= s[ir - 1]
    && Below(s, l + 1, i, v) && Above(s, j - 1, ir, v)
  }

  /** After both scans: they stopped inside the segment, at an element of at least v and one of at most v. */
  ghost predicate Scanned(s: seq<int>, l: nat, i: nat, j: nat, ir: nat, v: int)
  {
    && 1 <= l && l + 1 < i <= ir <= |s| && l < j < ir
    && s[l - 1] <= v && s[l] == v && v <= s[ir - 1] && v <= s[i - 1] && s[j - 1] <= v
    && Below(s, l + 1, i - 1, v) && Above(s, j, ir, v)
  }

  /** while (*i++ < a), stopped by an element that is not smaller. */
  method ScanUp(a: array<int>, i0: nat, v: int, ghost l: nat, ghost j: nat, ghost ir: nat) returns (i: nat)
    requires Halfway(a[..], l, i0, j, ir, v)
    ensures i0 < i <= ir && Below(a[..], l + 1, i - 1, v) && v <= a[i - 1]
  {
    i := i0;
    while a[i] < v
      invariant i0 <= i < ir && Below(a[..], l + 1, i, v)
      decreases ir - i
    {
      i := i + 1;
    }
    i := i + 1;
  }

  /** while (*(j-- - 2) > a), stopped by an element that is not larger. */
  method ScanDown(a: array<int>, j0: nat, v: int, ghost l: nat, ghost i: nat, ghost ir: nat) returns (j: nat)
    requires Halfway(a[..], l, i, j0, ir, v)
    ensures l < j < j0 && Above(a[..], j, ir, v) && a[j - 1] <= v
  {
    j := j0;
    while a[j - 2] > v
      invariant l + 2 <= j <= j0 && Above(a[..], j - 1, ir, v)
      decreases j
    {
      j := j - 1;
    }
    j := j - 1;
  }

  lemma ScansMeet(s: seq<int>, l: nat, i0: nat, j0: nat, i: nat, j: nat, ir: nat, v: int)
    requires Halfway(s, l, i0, j0, ir, v)
    requires i0 < i <= ir && Below(s, l + 1, i - 1, v) && v <= s[i - 1]
    requires l < j < j0 && Above(s, j, ir, v) && s[j - 1] <= v
    ensures Scanned(s, l, i, j, ir, v)
  {
  }

  /** Exchanging the two elements the scans stopped at puts sentinels ahead of both scans again. */
  lemma Exchanged(s: seq<int>, l: nat, i: nat, j: nat, ir: nat, v: int)
    requires Scanned(s, l, i, j, ir, v) && i <= j
    ensures var t := s[i - 1 := s[j - 1]][j - 1 := s[i - 1]];
      Halfway(t, l, i, j, ir, v) && Permuted(s, t, l - 1, ir)
  {
    SwapPermutes(s, i - 1, j - 1, l - 1, ir);
  }

  lemma PivotPlaced(s: seq<int>, l: nat, i: nat, j: nat, ir: nat, v: int)
    requires Scanned(s, l, i, j, ir, v) && j < i
    ensures var t := s[l := s[j - 1]][j - 1 := v];
      Partitioned(t, l - 1, j - 1, i - 1, ir, v) && Permuted(s, t, l - 1, ir)
  {
    SwapPermutes(s, l, j - 1, l - 1, ir);
  }

  lemma HalfwayStart(s: seq<int>, l: nat, ir: nat)
    requires 1 <= l && l + 3 <= ir <= |s| && s[l - 1] <= s[l] <= s[ir - 1]
    ensures Halfway(s, l, l + 1, ir, ir, s[l])
  {
  }

  /** The pivot moves from l to its place between the two parts. */
  method PlacePivot(a: array<int>, l: nat, ghost i: nat, j: nat, v: int, ghost ir: nat)
    requires Scanned(a[..], l, i, j, ir, v) && j < i
    modifies a
    ensures Partitioned(a[..], l - 1, j - 1, i - 1, ir, v) && Permuted(old(a[..]), a[..], l - 1, ir)
  {
    hide Permuted, Partitioned, Below, Above;
    ghost var s := a[..];
    PivotPlaced(s, l, i, j, ir, v);
    a[l] := a[j - 1];
    a[j - 1] := v;
    assert a[..] == s[l := s[j - 1]][j - 1 := v];
  }

  /** One round of the partitioning loop: both scans and, unless they crossed, the exchange. */
  method ScanAndSwap(a: array<int>, l: nat, i0: nat, j0: nat, v: int, ghost ir: nat) returns (i: nat, j: nat)
    requires Halfway(a[..], l, i0, j0, ir, v)
    modifies a
    ensures i0 < i && l < j < j0 && i <= ir && Permuted(old(a[..]), a[..], l - 1, ir)
    ensures j < i ==> Scanned(a[..], l, i, j, ir, v)
    ensures i <= j ==> Halfway(a[..], l, i, j, ir, v)
  {
    hide Permuted, Below, Above;
    ghost var s := a[..];
    PermutedSame(s, l - 1, ir);
    i := ScanUp(a, i0, v, l, j0, ir);
    j := ScanDown(a, j0, v, l, i0, ir);
    ScansMeet(s, l, i0, j0, i, j, ir, v);
    if i <= j {
      Exchanged(s, l, i, j, ir, v);
      Swap(a, i - 1, j - 1);
    }
  }

  /** The partitioning loop. Neither scan tests a bound: arr[ir - 1] stops the one going up first,
      arr[l] the one going down, and after each exchange the exchanged elements do. */
  method Partition(a: array<int>, l: nat, ir: nat) returns (i: nat, j: nat)
    requires 1 <= l && l + INSERTION_THRESHOLD <= ir <= a.Length
    requires a[l - 1] <= a[l] <= a[ir - 1]
    modifies a
    ensures l < j < i <= ir
    ensures Permuted(old(a[..]), a[..], l - 1, ir)
    ensures Partitioned(a[..], l - 1, j - 1, i - 1, ir, old(a[l]))
  {
    hide Permuted, Partitioned, Halfway, Scanned, Below, Above;
    ghost var s0 := a[..];
    PermutedSame(s0, l - 1, ir);
    i, j := l + 1, ir;
    var v := a[l];
    HalfwayStart(s0, l, ir);
    while true
      invariant i <= j && Halfway(a[..], l, i, j, ir, v)
      invariant Permuted(s0, a[..], l - 1, ir)
      decreases j - i
    {
      ghost var s := a[..];
      i, j := ScanAndSwap(a, l, i, j, v, ir);
      PermutedTrans(s0, s, a[..], l - 1, ir);
      if j < i { break; }
    }
    ghost var s := a[..];
    PlacePivot(a, l, i, j, v, ir);
    PermutedTrans(s0, s, a[..], l - 1, ir);
  }

  // ---------------------------------------------------------------- the stack

  function Size(c: Segment): nat { if c.lo <= c.hi then c.hi - c.lo else 0 }

  /** A segment at depth d of the stack has at most (n + 1) / 2^d - 1 elements. */
  ghost predicate SmallAt(c: Segment, d: nat, n: nat) { (Size(c) + 1) * Pow2(d) <= n + 1 }

  /** The pointers the code has pushed: l and ir of each waiting segment. */
  ghost predicate StackIs(stack: seq<nat>, segs: seq<Segment>)
  {
    && 2 * |segs| < |stack|
    && forall d: nat | d < |segs| :: stack[2 * d + 1] == segs[d].lo + 1 && stack[2 * d + 2] == segs[d].hi
  }

  ghost predicate Apart(b: Segment, c: Segment) { b.hi <= c.lo || c.hi <= b.lo }

  ghost predicate SegsOk(s: seq<int>, segs: seq<Segment>)
  {
    && (forall d: nat | d < |segs| ::
          segs[d].lo <= segs[d].hi <= |s| && Cut(s, segs[d].lo) && Cut(s, segs[d].hi) && SmallAt(segs[d], d, |s|))
    && (forall d: nat, e: nat | d < e < |segs| :: Apart(segs[d], segs[e]))
  }

  /** The segments still to be sorted, the one in hand last. */
  ghost predicate Pending(s: seq<int>, segs: seq<Segment>) { Settled(s, segs) && SegsOk(s, segs) }

  ghost function TotalSize(segs: seq<Segment>): nat
  {
    if segs == [] then 0 else Size(segs[|segs| - 1]) + TotalSize(segs[..|segs| - 1])
  }

  lemma StartPending(s: seq<int>)
    ensures Pending(s, [Segment(0, |s|)])
  {
    var c := Segment(0, |s|);
    forall x: nat | x <= |s| ensures Cut(s, x) || Inside([c], x) {
      if 0 < x < |s| { assert [c][0].lo < x < [c][0].hi; }
    }
    assert Size(c) * Pow2(0) == |s|;
  }

  lemma SortStep(s: seq<int>, t: seq<int>, segs: seq<Segment>, c: Segment)
    requires Pending(s, segs + [c]) && Permuted(s, t, c.lo, c.hi) && SortedIn(t, c.lo, c.hi)
    ensures Pending(t, segs)
  {
    hide Permuted, SortedIn, Cut, Settled, SmallAt;
    var all := segs + [c];
    assert all[|segs|] == c;
    SegmentSorted(s, t, segs, c.lo, c.hi);
    OthersOk(s, t, segs, c);
  }

  /** The waiting segments are untouched by what happens inside the one in hand. */
  lemma OthersOk(s: seq<int>, t: seq<int>, segs: seq<Segment>, c: Segment)
    requires SegsOk(s, segs + [c]) && Permuted(s, t, c.lo, c.hi)
    ensures |s| == |t| && SegsOk(t, segs) && forall d: nat | d < |segs| :: Apart(segs[d], c)
  {
    hide Cut, SmallAt;
    var all := segs + [c];
    assert all[|segs|] == c;
    forall d: nat | d < |segs|
      ensures segs[d].lo <= segs[d].hi <= |t| && Cut(t, segs[d].lo) && Cut(t, segs[d].hi) && SmallAt(segs[d], d, |t|)
      ensures Apart(segs[d], c)
    {
      assert all[d] == segs[d] && Apart(all[d], all[|segs|]);
      CutKept(s, t, c.lo, c.hi, segs[d].lo);
      CutKept(s, t, c.lo, c.hi, segs[d].hi);
    }
    forall d: nat, e: nat | d < e < |segs| ensures Apart(segs[d], segs[e]) {
      assert all[d] == segs[d] && all[e] == segs[e];
    }
  }

  lemma Product(a: nat, b: nat, x: nat, y: nat)
    requires a <= b && x <= y
    ensures a * x <= b * y
  {
    assert b * y == a * x + a * (y - x) + (b - a) * y;
  }

  /** The smaller part has at most half the room of the whole. */
  lemma Halved(small: nat, large: nat, whole: nat, d: nat, n: nat)
    requires small <= large && small + large + 1 <= whole && (whole + 1) * Pow2(d) <= n + 1
    ensures (small + 1) * Pow2(d + 1) <= n + 1 && (large + 1) * Pow2(d) <= n + 1
  {
    hide Pow2;
    var p := Pow2(d);
    Pow2Step(d);
    assert (small + 1) * (2 * p) == (2 * small + 2) * p;
    Product(2 * small + 2, whole + 1, p, p);
    Product(large + 1, whole + 1, p, p);
  }

  lemma Pow2Step(d: nat)
    ensures Pow2(d + 1) == 2 * Pow2(d)
  {
  }

  /** After partitioning, the larger part waits at depth |segs| and the smaller one is in hand. */
  lemma SplitStep(s: seq<int>, t: seq<int>, segs: seq<Segment>, c: Segment, u: nat, w: nat, v: int, left: bool)
    requires Pending(s, segs + [c]) && Permuted(s, t, c.lo, c.hi) && Partitioned(t, c.lo, u, w, c.hi, v) && u < w
    requires left <==> c.hi - w >= u - c.lo
    ensures var a, b := Segment(c.lo, u), Segment(w, c.hi);
      Pending(t, segs + (if left then [b, a] else [a, b]))
  {
    hide Permuted, Cut, Settled, SmallAt, Pow2;
    var all := segs + [c];
    assert all[|segs|] == c;
    SegmentSplit(s, t, segs, c.lo, u, w, c.hi, v, left);
    OthersOk(s, t, segs, c);
    PartsSmall(segs, c, u, w, |s|, left);
    var a, b := Segment(c.lo, u), Segment(w, c.hi);
    var now := segs + (if left then [b, a] else [a, b]);
    forall d: nat | d < |now|
      ensures now[d].lo <= now[d].hi <= |t| && Cut(t, now[d].lo) && Cut(t, now[d].hi) && SmallAt(now[d], d, |t|)
    {
      if d < |segs| { assert now[d] == segs[d]; }
    }
    forall d: nat, e: nat | d < e < |now| ensures Apart(now[d], now[e]) {
      if e < |segs| {
        assert now[d] == segs[d] && now[e] == segs[e];
      } else if d < |segs| {
        assert now[d] == segs[d] && Apart(segs[d], c);
      }
    }
  }

  lemma PartsSmall(segs: seq<Segment>, c: Segment, u: nat, w: nat, n: nat, left: bool)
    requires c.lo <= u < w <= c.hi && SmallAt(c, |segs|, n) && (left <==> c.hi - w >= u - c.lo)
    ensures left ==> SmallAt(Segment(w, c.hi), |segs|, n) && SmallAt(Segment(c.lo, u), |segs| + 1, n)
    ensures !left ==> SmallAt(Segment(c.lo, u), |segs|, n) && SmallAt(Segment(w, c.hi), |segs| + 1, n)
  {
    if left {
      Halved(u - c.lo, c.hi - w, c.hi - c.lo, |segs|, n);
    } else {
      Halved(c.hi - w, u - c.lo, c.hi - c.lo, |segs|, n);
    }
  }

  /** A segment long enough to be partitioned lies at depth 23 at most, so two more pointers fit. */
  lemma StackFits(c: Segment, d: nat, n: nat)
    requires SmallAt(c, d, n) && Size(c) > INSERTION_THRESHOLD && n + 1 < (INSERTION_THRESHOLD + 2) * Pow2(24)
    ensures d < 24
  {
    hide Pow2;
    if d >= 24 {
      Pow2Mono(24, d);
      Product(INSERTION_THRESHOLD + 2, Size(c) + 1, Pow2(24), Pow2(d));
    }
  }

  lemma TotalSplit(segs: seq<Segment>, c: Segment, b: Segment, a: Segment)
    requires Size(a) + Size(b) < Size(c)
    ensures TotalSize(segs + [b, a]) < TotalSize(segs + [c])
  {
    assert (segs + [b, a])[..|segs| + 1] == segs + [b];
    assert (segs + [b])[..|segs|] == segs == (segs + [c])[..|segs|];
  }

  lemma TotalPop(segs: seq<Segment>, c: Segment)
    requires c.lo <= c.hi
    ensures TotalSize(segs) <= TotalSize(segs + [c])
  {
    assert (segs + [c])[..|segs|] == segs;
  }

  lemma Pushed(under: seq<nat>, stack: seq<nat>, segs: seq<Segment>, c: Segment)
    requires StackIs(under, segs) && 2 * |segs| + 2 < |under|
    requires stack == under[2 * |segs| + 2 := c.hi][2 * |segs| + 1 := c.lo + 1]
    ensures StackIs(stack, segs + [c])
  {
    var now := segs + [c];
    forall d: nat | d < |now| ensures stack[2 * d + 1] == now[d].lo + 1 && stack[2 * d + 2] == now[d].hi {
      if d < |segs| { assert under[2 * d + 1] == segs[d].lo + 1 && under[2 * d + 2] == segs[d].hi; }
    }
  }

  lemma EmptyStack(stack: seq<nat>)
    requires |stack| > 0
    ensures StackIs(stack, [])
  {
  }

  lemma Popped(s: seq<int>, stack: seq<nat>, segs: seq<Segment>)
    requires Pending(s, segs) && StackIs(stack, segs) && segs != []
    ensures var d := |segs| - 1;
      && segs[d].lo <= segs[d].hi <= |s| && StackIs(stack, segs[..d]) && segs == segs[..d] + [segs[d]]
      && stack[2 * d + 1] == segs[d].lo + 1 && stack[2 * d + 2] == segs[d].hi
  {
    hide Settled, Cut, SmallAt;
  }

  lemma InHand(s: seq<int>, segs: seq<Segment>, c: Segment)
    requires Pending(s, segs + [c])
    ensures SmallAt(c, |segs|, |s|)
  {
    assert (segs + [c])[|segs|] == c;
  }

  lemma Widen(s0: seq<int>, s: seq<int>, t: seq<int>, lo: nat, hi: nat)
    requires Permuted(s0, s, 0, |s|) && Permuted(s, t, lo, hi)
    ensures |t| == |s| && Permuted(s0, t, 0, |s|)
  {
  }

  /** What one round of median, partitioning and choosing a part does to the work still to be done. */
  lemma Divided(s0: seq<int>, s: seq<int>, s1: seq<int>, t: seq<int>,
                segs: seq<Segment>, c: Segment, u: nat, w: nat, v: int, left: bool)
    requires Permuted(s0, s, 0, |s|) && Pending(s, segs + [c])
    requires Permuted(s, s1, c.lo, c.hi) && Permuted(s1, t, c.lo, c.hi) && Partitioned(t, c.lo, u, w, c.hi, v) && u < w
    requires left <==> c.hi - w >= u - c.lo
    ensures |t| == |s| && Permuted(s0, t, 0, |s|)
    ensures var a, b := Segment(c.lo, u), Segment(w, c.hi);
      var now := segs + (if left then [b, a] else [a, b]);
      Pending(t, now) && TotalSize(now) < TotalSize(segs + [c])
  {
    hide Permuted, Pending, TotalSize;
    var a, b := Segment(c.lo, u), Segment(w, c.hi);
    PermutedTrans(s, s1, t, c.lo, c.hi);
    SplitStep(s, t, segs, c, u, w, v, left);
    Widen(s0, s, t, c.lo, c.hi);
    TotalSplit(segs, c, b, a);
    TotalSplit(segs, c, a, b);
  }

  lemma AllSorted(s0: seq<int>, s: seq<int>)
    requires Permuted(s0, s, 0, |s|) && Pending(s, [])
    ensures SortedIn(s, 0, |s|) && multiset(s) == multiset(s0)
  {
    AllCut(s);
  }

  /** sort. */
  method Sort(n: nat, arr: array<int>)
    requires arr.Length == n && n + 1 < (INSERTION_THRESHOLD + 2) * Pow2(24)
    modifies arr
    ensures SortedIn(arr[..], 0, n) && multiset(arr[..]) == multiset(old(arr[..]))
  {
    hide Permuted, SortedIn, Partitioned, Pending, StackIs, Pow2, TotalSize, SmallAt;
    var ir, l := n, 1;
    var stack := new nat[NSTACK];
    var sp := 0;
    ghost var segs := [];
    ghost var s0 := arr[..];
    StartPending(s0);
    EmptyStack(stack[..]);
    assert [] + [Segment(0, n)] == [Segment(0, n)];
    PermutedSame(s0, 0, n);
    while true
      invariant 1 <= l <= ir + 1 <= n + 1 && sp < NSTACK && sp == 2 * |segs|
      invariant StackIs(stack[..], segs)
      invariant Pending(arr[..], segs + [Segment(l - 1, ir)])
      invariant Permuted(s0, arr[..], 0, n)
      invariant fresh(stack)
      decreases TotalSize(segs + [Segment(l - 1, ir)]), |segs|
    {
      ghost var s, c := arr[..], Segment(l - 1, ir);
      if ir - l < INSERTION_THRESHOLD {
        InsertionSort(arr, ir - l + 1, l - 1);
        SortStep(s, arr[..], segs, c);
        Widen(s0, s, arr[..], l - 1, ir);
        TotalPop(segs, c);
        if sp == 0 {
          AllSorted(s0, arr[..]);
          break;
        }
        Popped(arr[..], stack[..], segs);
        ir := stack[sp];
        sp := sp - 1;
        l := stack[sp];
        sp := sp - 1;
        segs := segs[..|segs| - 1];
      } else {
        InHand(s, segs, c);
        StackFits(c, |segs|, n);
        MedianOfThree(arr, l, ir);
        ghost var s1, v := arr[..], arr[l];
        var i, j := Partition(arr, l, ir);
        ghost var left, a, b := ir - i + 1 >= j - l, Segment(l - 1, j - 1), Segment(i - 1, ir);
        Divided(s0, s, s1, arr[..], segs, c, j - 1, i - 1, v, left);
        ghost var under := stack[..];
        sp := sp + 2;
        if ir - i + 1 >= j - l {
          stack[sp] := ir;
          stack[sp - 1] := i;
          ir := j - 1;
          Pushed(under, stack[..], segs, b);
          assert segs + [b, a] == (segs + [b]) + [a];
          segs := segs + [b];
        } else {
          stack[sp] := j - 1;
          stack[sp - 1] := l;
          l := i;
          Pushed(under, stack[..], segs, a);
          assert segs + [a, b] == (segs + [a]) + [b];
          segs := segs + [a];
        }
      }
    }
  }
}
