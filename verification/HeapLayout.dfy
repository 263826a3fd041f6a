/** Chunk layouts of the heap. */
module HeapLayout {
  // The allocator's meaning, without pointers: the heap is a sequence of chunks that tile the bytes
  // from __malloc_start to __malloc_end, each either free or live. The operations are first fit,
  // carving, growth at the end, and release with merging on both sides.

  import opened Words

  const NODE: nat := 16     // sizeof (struct freelist_entry)
  const GAP: nat := 32      // MALLOC_MINIMUM_GAP

  datatype Chunk = Chunk(addr: nat, size: nat, free: bool)
  datatype Config = Config(start: nat, limit: nat)
  datatype Heap = Heap(chunks: seq<Chunk>, end: nat)
  datatype Outcome = Outcome(heap: Heap, ptr: nat)      // ptr 0 is NULL

  // ---------------------------------------------------------------- well-formedness

  predicate GoodSize(n: nat) { n >= NODE && n % SIZE_T == 0 }

  ghost predicate Contig(xs: seq<Chunk>, a: nat, b: nat)
  {
    if xs == [] then a == b
    else xs[0].addr == a && GoodSize(xs[0].size) && Contig(xs[1..], a + xs[0].size, b)
  }

  ghost predicate Apart(xs: seq<Chunk>)
  {
    forall i | 0 <= i < |xs| - 1 :: !(xs[i].free && xs[i + 1].free)
  }

  predicate GoodConfig(g: Config)
  {
    0 < g.start && g.start % SIZE_T == 0 && g.start + GAP <= g.limit < MODULUS
  }

  ghost predicate Inv(g: Config, h: Heap)
  {
    && GoodConfig(g)
    && h.end + GAP <= g.limit
    && Contig(h.chunks, g.start, h.end)
    && Apart(h.chunks)
  }

  function Empty(g: Config): Heap { Heap([], g.start) }

  // ---------------------------------------------------------------- derived views

  ghost function LiveSet(xs: seq<Chunk>): set<Chunk> { set c | c in xs && !c.free }

  ghost function Total(xs: seq<Chunk>, free: bool): nat
  {
    if xs == [] then 0
    else (if xs[0].free == free then xs[0].size else 0) + Total(xs[1..], free)
  }

  function LastFree(xs: seq<Chunk>): bool { xs != [] && xs[|xs| - 1].free }

  function IndexOf(xs: seq<Chunk>, addr: nat): (k: nat)
    ensures k <= |xs|
    ensures k < |xs| ==> xs[k].addr == addr
  {
    if xs == [] || xs[0].addr == addr then 0 else 1 + IndexOf(xs[1..], addr)
  }

  /** p is the payload of a live chunk, the only non-null argument free and realloc accept. */
  predicate Owned(h: Heap, p: nat)
  {
    p >= SIZE_T &&
    var k := IndexOf(h.chunks, p - SIZE_T);
    k < |h.chunks| && !h.chunks[k].free
  }

  // ---------------------------------------------------------------- the operations

  /** REAL_SIZE, in size_t arithmetic. */
  function RealSize(sz: nat): nat
  {
    if sz < NODE - SIZE_T then NODE else (sz + SIZE_T + MAlign(sz, SIZE_T)) % MODULUS
  }

  /** Bytes memalign leaves in front of the chunk it hands out of a free chunk at addr. */
  function Pad(addr: nat, align: nat): nat
    requires align >= 1
  {
    if MAlign(addr + SIZE_T, align) == 0 then 0 else NODE + MAlign(addr + NODE + SIZE_T, align)
  }

  predicate Fits(c: Chunk, need: nat, align: nat)
    requires align >= 1
  {
    c.free && c.size >= need + Pad(c.addr, align)
  }

  function FirstFit(xs: seq<Chunk>, need: nat, align: nat): (k: nat)
    requires align >= 1
    ensures k <= |xs|
    ensures k < |xs| ==> Fits(xs[k], need, align)
    ensures k == |xs| && xs != [] ==> !Fits(xs[|xs| - 1], need, align)
  {
    if xs == [] || Fits(xs[0], need, align) then 0 else 1 + FirstFit(xs[1..], need, align)
  }

  function Splice(xs: seq<Chunk>, i: nat, j: nat, mid: seq<Chunk>): seq<Chunk>
    requires i <= j <= |xs|
  {
    xs[..i] + mid + xs[j..]
  }

  /** malloc takes the whole chunk when less than a free-list entry would be left. */
  function Carve(c: Chunk, need: nat): seq<Chunk>
    requires c.size >= need
  {
    if c.size < need + NODE then [Chunk(c.addr, c.size, false)]
    else [Chunk(c.addr, need, false), Chunk(c.addr + need, c.size - need, true)]
  }

  function Malloc(g: Config, h: Heap, sz: nat): Outcome
  {
    var xs, need := h.chunks, RealSize(sz);
    var k := FirstFit(xs, need, 1);
    PadOne();
    if k < |xs| then
      Outcome(Heap(Splice(xs, k, k + 1, Carve(xs[k], need)), h.end), xs[k].addr + SIZE_T)
    else if LastFree(xs) then
      var c := xs[|xs| - 1];
      assert !Fits(c, need, 1);
      if h.end + (need - c.size) + GAP > g.limit then Outcome(h, 0)
      else Outcome(Heap(xs[..|xs| - 1] + [Chunk(c.addr, need, false)], c.addr + need), c.addr + SIZE_T)
    else if h.end + need + GAP > g.limit then Outcome(h, 0)
    else Outcome(Heap(xs + [Chunk(h.end, need, false)], h.end + need), h.end + SIZE_T)
  }

  /** The run of chunks that merge when chunk k becomes free: its free neighbours and itself. */
  function MergeFrom(xs: seq<Chunk>, k: nat): (i: nat)
    requires k < |xs|
    ensures i <= k <= i + 1 && (i < k ==> xs[i].free)
  {
    if k > 0 && xs[k - 1].free then k - 1 else k
  }

  function MergeTo(xs: seq<Chunk>, k: nat): (j: nat)
    requires k < |xs|
    ensures k < j <= |xs| && j <= k + 2 && (j == k + 2 ==> xs[k + 1].free)
  {
    if k + 1 < |xs| && xs[k + 1].free then k + 2 else k + 1
  }

  function Merged(xs: seq<Chunk>, k: nat): Chunk
    requires k < |xs|
  {
    var i, j := MergeFrom(xs, k), MergeTo(xs, k);
    Chunk(xs[i].addr,
          (if i < k then xs[i].size else 0) + xs[k].size + (if j == k + 2 then xs[k + 1].size else 0),
          true)
  }

  function Release(xs: seq<Chunk>, k: nat): seq<Chunk>
    requires k < |xs|
  {
    Splice(xs, MergeFrom(xs, k), MergeTo(xs, k), [Merged(xs, k)])
  }

  function Free(h: Heap, p: nat): Heap
    requires p == 0 || Owned(h, p)
  {
    if p == 0 then h else Heap(Release(h.chunks, IndexOf(h.chunks, p - SIZE_T)), h.end)
  }

  /** A live chunk cut in two live ones, the step realloc takes before freeing the tail. */
  function Shrink(xs: seq<Chunk>, k: nat, need: nat): seq<Chunk>
    requires k < |xs| && need <= xs[k].size
  {
    Splice(xs, k, k + 1, [Chunk(xs[k].addr, need, false), Chunk(xs[k].addr + need, xs[k].size - need, false)])
  }

  function Realloc(g: Config, h: Heap, p: nat, sz: nat): Outcome
    requires p == 0 || Owned(h, p)
    requires Inv(g, h) && sz <= MODULUS - NODE
  {
    if p == 0 then Malloc(g, h, sz)
    else
      var xs, need := h.chunks, RealSize(sz);
      var k := IndexOf(xs, p - SIZE_T);
      if xs[k].size < need then
        var o := Malloc(g, h, sz);
        MallocKeepsOwned(g, h, sz, p);
        if o.ptr == 0 then o else Outcome(Free(o.heap, p), o.ptr)
      else if xs[k].size - need >= NODE then
        Outcome(Heap(Release(Shrink(xs, k, need), k + 1), h.end), p)
      else Outcome(h, p)
  }

  /** Where memalign puts need bytes inside a free chunk: padding, live part, remainder. */
  function CarveAligned(c: Chunk, need: nat, align: nat): seq<Chunk>
    requires align >= 1 && Fits(c, need, align)
  {
    var pad := Pad(c.addr, align);
    var rest := c.size - pad;
    Pieces(c, pad, if rest <= need + NODE then rest else need)
  }

  function Pieces(c: Chunk, pad: nat, live: nat): seq<Chunk>
    requires pad + live <= c.size
  {
    (if pad == 0 then [] else [Chunk(c.addr, pad, true)]) +
    [Chunk(c.addr + pad, live, false)] +
    (if pad + live == c.size then [] else [Chunk(c.addr + pad + live, c.size - pad - live, true)])
  }

  function PlaceAligned(h: Heap, k: nat, need: nat, align: nat): Outcome
    requires align >= 1 && k < |h.chunks| && Fits(h.chunks[k], need, align)
  {
    var c := h.chunks[k];
    Outcome(Heap(Splice(h.chunks, k, k + 1, CarveAligned(c, need, align)), h.end),
            c.addr + Pad(c.addr, align) + SIZE_T)
  }

  /** The free chunk at the end is enlarged until the aligned request fits. */
  function GrowLast(g: Config, h: Heap, need: nat, align: nat): Outcome
    requires align >= 1 && LastFree(h.chunks)
    requires !Fits(h.chunks[|h.chunks| - 1], need, align)
  {
    var xs := h.chunks;
    var c := xs[|xs| - 1];
    var want := Pad(c.addr, align) + need;
    if h.end + (want - c.size) + GAP > g.limit then Outcome(h, 0)
    else PlaceAligned(Heap(xs[..|xs| - 1] + [Chunk(c.addr, want, true)], c.addr + want), |xs| - 1, need, align)
  }

  function Memalign(g: Config, h: Heap, align: nat, sz: nat): Outcome
  {
    if align == 0 || And(align, align - 1) != 0 then Outcome(h, 0)
    else
      var xs, need := h.chunks, RealSize(sz);
      var k := FirstFit(xs, need, align);
      if k < |xs| then PlaceAligned(h, k, need, align)
      else if LastFree(xs) then GrowLast(g, h, need, align)
      else
        AppendAligned(g, h, need, align)
  }

  /** A free chunk is appended and used, enlarged if need be. */
  function AppendAligned(g: Config, h: Heap, need: nat, align: nat): Outcome
    requires align >= 1
  {
    var xs := h.chunks;
    var room := need + MAlign(h.end + SIZE_T, align);
    if h.end + room + GAP > g.limit then Outcome(h, 0)
    else
      var h' := Heap(xs + [Chunk(h.end, room, true)], h.end + room);
      if Fits(h'.chunks[|xs|], need, align) then PlaceAligned(h', |xs|, need, align)
      else GrowLast(g, h', need, align)
  }

  // ---------------------------------------------------------------- memalign in size_t arithmetic

  /** The test by which memalign takes a free block; the sum wraps like any size_t. */
  predicate Accepts(c: Chunk, need: nat, align: nat)
    requires align >= 1
  {
    c.free && c.size >= SizeAdd(need, Pad(c.addr, align))
  }

  function FirstAccepted(xs: seq<Chunk>, need: nat, align: nat): (k: nat)
    requires align >= 1
    ensures k <= |xs|
    ensures k < |xs| ==> Accepts(xs[k], need, align)
    ensures k == |xs| && xs != [] ==> !Accepts(xs[|xs| - 1], need, align)
  {
    if xs == [] || Accepts(xs[0], need, align) then 0 else 1 + FirstAccepted(xs[1..], need, align)
  }

  /** How a call of memalign goes: it returns, or it goes on with a sum of sizes that has wrapped, in a block too
      small for what it then writes and hands out. There the model ends. */
  datatype Verdict = Returns(o: Outcome) | Wraps

  function TakeCode(h: Heap, k: nat, need: nat, align: nat): Verdict
    requires align >= 1 && k < |h.chunks| && Accepts(h.chunks[k], need, align)
  {
    if need + Pad(h.chunks[k].addr, align) >= MODULUS then Wraps else Returns(PlaceAligned(h, k, need, align))
  }

  function GrowCode(g: Config, h: Heap, need: nat, align: nat): Verdict
    requires align >= 1 && LastFree(h.chunks)
    requires !Accepts(h.chunks[|h.chunks| - 1], need, align)
  {
    var xs := h.chunks;
    var c := xs[|xs| - 1];
    var want := SizeAdd(need, Pad(c.addr, align));
    if h.end + (want - c.size) + GAP > g.limit then Returns(Outcome(h, 0))
    else if need + Pad(c.addr, align) >= MODULUS then Wraps
    else
      var h' := Heap(xs[..|xs| - 1] + [Chunk(c.addr, want, true)], c.addr + want);
      Returns(PlaceAligned(h', |xs| - 1, need, align))
  }

  /** The walk has ended and the heap does not end in a free block: one is appended. */
  function AppendCode(g: Config, h: Heap, need: nat, align: nat): Verdict
    requires align >= 1
  {
    var xs := h.chunks;
    var room := SizeAdd(need, MAlign(h.end + SIZE_T, align));
    if h.end + room + GAP > g.limit then Returns(Outcome(h, 0))
    else if need + MAlign(h.end + SIZE_T, align) >= MODULUS then Wraps
    else
      var h' := Heap(xs + [Chunk(h.end, room, true)], h.end + room);
      if Accepts(h'.chunks[|xs|], need, align) then TakeCode(h', |xs|, need, align)
      else GrowCode(g, h', need, align)
  }

  function MemalignCode(g: Config, h: Heap, align: nat, sz: nat): Verdict
  {
    if align == 0 || And(align, align - 1) != 0 then Returns(Outcome(h, 0))
    else
      var xs, need := h.chunks, RealSize(sz);
      var k := FirstAccepted(xs, need, align);
      if k < |xs| then TakeCode(h, k, need, align)
      else if LastFree(xs) then GrowCode(g, h, need, align)
      else AppendCode(g, h, need, align)
  }

  /** What a caller can check before the call so that no sum wraps, whatever the heap. */
  predicate AlignSafe(align: nat, sz: nat)
  {
    align <= SIZE_T || And(align, align - 1) != 0 || RealSize(sz) + align + NODE <= MODULUS
  }

  // ---------------------------------------------------------------- sequence lemmas

  lemma {:induction false} FirstFitIsFirst(xs: seq<Chunk>, need: nat, align: nat, i: nat)
    requires align >= 1 && i < FirstFit(xs, need, align)
    ensures !Fits(xs[i], need, align)
  {
    if i > 0 { FirstFitIsFirst(xs[1..], need, align, i - 1); }
  }

  lemma PadOne()
    ensures forall a: nat {:trigger Pad(a, 1)} :: Pad(a, 1) == 0
  {
  }

  lemma {:induction false} ContigSplit(xs: seq<Chunk>, k: nat, a: nat, b: nat)
    requires k <= |xs| && Contig(xs, a, b)
    ensures var m := if k < |xs| then xs[k].addr else b;
            a <= m <= b && Contig(xs[..k], a, m) && Contig(xs[k..], m, b)
  {
    if k == 0 {
      ContigBounds(xs, a, b);
    } else {
      ContigSplit(xs[1..], k - 1, a + xs[0].size, b);
      assert xs[..k][1..] == xs[1..][..k - 1];
      assert xs[k..] == xs[1..][k - 1..];
    }
  }

  lemma {:induction false} ContigBounds(xs: seq<Chunk>, a: nat, b: nat)
    requires Contig(xs, a, b)
    ensures a <= b
  {
    if xs != [] { ContigBounds(xs[1..], a + xs[0].size, b); }
  }

  lemma {:induction false} ContigJoin(xs: seq<Chunk>, ys: seq<Chunk>, a: nat, m: nat, b: nat)
    requires Contig(xs, a, m) && Contig(ys, m, b)
    ensures Contig(xs + ys, a, b)
  {
    if xs == [] {
      assert xs + ys == ys;
    } else {
      ContigJoin(xs[1..], ys, a + xs[0].size, m, b);
      assert (xs + ys)[1..] == xs[1..] + ys;
    }
  }

  lemma ContigAt(xs: seq<Chunk>, k: nat, a: nat, b: nat)
    requires k < |xs| && Contig(xs, a, b)
    ensures a <= xs[k].addr && GoodSize(xs[k].size) && xs[k].addr + xs[k].size <= b
    ensures xs[k].addr + xs[k].size == if k + 1 < |xs| then xs[k + 1].addr else b
    ensures (xs[k].addr - a) % SIZE_T == 0 && (k == 0 ==> xs[k].addr == a)
  {
    ContigSplit(xs, k, a, b);
    ContigWords(xs[..k], a, xs[k].addr);
    ContigSplit(xs, k + 1, a, b);
    assert xs[k..][0] == xs[k];
    assert xs[k..][1..] == xs[k + 1..];
    var m := xs[k].addr + xs[k].size;
    if k + 1 < |xs| { assert xs[k + 1..][0] == xs[k + 1]; }
  }

  lemma {:induction false} ContigWords(xs: seq<Chunk>, a: nat, b: nat)
    requires Contig(xs, a, b)
    ensures a <= b && (b - a) % SIZE_T == 0
  {
    if xs != [] { ContigWords(xs[1..], a + xs[0].size, b); }
  }

  /** Chunks lie in address order and never overlap. */
  lemma {:induction false} Ordered(xs: seq<Chunk>, i: nat, j: nat, a: nat, b: nat)
    requires i < j < |xs| && Contig(xs, a, b)
    ensures xs[i].addr + xs[i].size <= xs[j].addr
  {
    if i > 0 {
      Ordered(xs[1..], i - 1, j - 1, a + xs[0].size, b);
    } else {
      ContigAt(xs, 0, a, b);
      ContigAt(xs[1..], j - 1, a + xs[0].size, b);
    }
  }

  lemma ContigSplice(xs: seq<Chunk>, i: nat, j: nat, mid: seq<Chunk>, a: nat, b: nat)
    requires i < j <= |xs| && Contig(xs, a, b)
    requires Contig(mid, xs[i].addr, if j < |xs| then xs[j].addr else b)
    ensures Contig(Splice(xs, i, j, mid), a, b)
  {
    ContigSplit(xs, i, a, b);
    ContigSplit(xs, j, a, b);
    var m := if j < |xs| then xs[j].addr else b;
    ContigJoin(xs[..i], mid, a, xs[i].addr, m);
    ContigJoin(xs[..i] + mid, xs[j..], a, m, b);
  }

  lemma {:induction false} IndexOfFinds(xs: seq<Chunk>, k: nat)
    requires k < |xs|
    ensures IndexOf(xs, xs[k].addr) <= k
  {
    if k > 0 { IndexOfFinds(xs[1..], k - 1); }
  }

  /** Tiling, byte by byte: every byte between start and end lies in exactly one chunk. */
  lemma {:induction false} EveryByteOnce(xs: seq<Chunk>, a: nat, b: nat, x: nat) returns (k: nat)
    requires Contig(xs, a, b) && a <= x < b
    ensures k < |xs| && xs[k].addr <= x < xs[k].addr + xs[k].size
    ensures forall i | 0 <= i < |xs| && i != k :: !(xs[i].addr <= x < xs[i].addr + xs[i].size)
  {
    if x < a + xs[0].size {
      k := 0;
    } else {
      k := EveryByteOnce(xs[1..], a + xs[0].size, b, x);
      k := k + 1;
    }
    forall i | 0 <= i < |xs| && i != k
      ensures !(xs[i].addr <= x < xs[i].addr + xs[i].size)
    {
      if i < k { Ordered(xs, i, k, a, b); } else { Ordered(xs, k, i, a, b); }
    }
  }

  /** Two free chunks are in address order and never touch. */
  lemma FreeChunksApart(g: Config, h: Heap, i: nat, j: nat)
    requires Inv(g, h) && i < j < |h.chunks| && h.chunks[i].free && h.chunks[j].free
    ensures h.chunks[i].addr + h.chunks[i].size < h.chunks[j].addr
  {
    hide Contig;
    assert i + 1 < j;
    Ordered(h.chunks, i + 1, j, g.start, h.end);
    ContigAt(h.chunks, i, g.start, h.end);
    ContigAt(h.chunks, i + 1, g.start, h.end);
  }

  /** Two live chunks share no byte. */
  lemma LiveDisjoint(g: Config, h: Heap, c: Chunk, d: Chunk)
    requires Inv(g, h) && c in LiveSet(h.chunks) && d in LiveSet(h.chunks) && c != d
    ensures c.addr + c.size <= d.addr || d.addr + d.size <= c.addr
  {
    var i :| 0 <= i < |h.chunks| && h.chunks[i] == c;
    var j :| 0 <= j < |h.chunks| && h.chunks[j] == d;
    if i < j { Ordered(h.chunks, i, j, g.start, h.end); } else { Ordered(h.chunks, j, i, g.start, h.end); }
  }

  /** Addresses identify chunks. */
  lemma IndexIs(xs: seq<Chunk>, k: nat, a: nat, b: nat)
    requires k < |xs| && Contig(xs, a, b)
    ensures IndexOf(xs, xs[k].addr) == k
  {
    IndexOfFinds(xs, k);
    var i := IndexOf(xs, xs[k].addr);
    if i < k {
      Ordered(xs, i, k, a, b);
      ContigAt(xs, i, a, b);
    }
  }

  lemma OwnedMeans(g: Config, h: Heap, p: nat, c: Chunk)
    requires Inv(g, h) && p == c.addr + SIZE_T && c in LiveSet(h.chunks)
    ensures Owned(h, p) && h.chunks[IndexOf(h.chunks, c.addr)] == c
  {
    var k :| 0 <= k < |h.chunks| && h.chunks[k] == c;
    IndexIs(h.chunks, k, g.start, h.end);
  }

  // ---------------------------------------------------------------- malloc

  /** REAL_SIZE leaves room for the header and the request exactly when it does not wrap. */
  lemma RealSizeCovers(sz: nat)
    requires sz < MODULUS
    ensures RealSize(sz) >= sz + SIZE_T <==> sz <= MODULUS - NODE
    ensures sz <= MODULUS - NODE ==> GoodSize(RealSize(sz)) && RealSize(sz) < sz + 2 * NODE
  {
    WordIsPower();
    MAlignMeaning(sz, SIZE_T);
    hide MAlign, IsPow2;
    var d := MAlign(sz, SIZE_T);
    AlignedQuotient(sz + d);
    var q := (sz + d) / SIZE_T;
    if q < MODULUS / SIZE_T - 1 { WordsOf(q); }
  }

  lemma WordsOf(q: nat)
    requires q < MODULUS / SIZE_T - 1
    ensures (SIZE_T * q + SIZE_T) % MODULUS == SIZE_T * q + SIZE_T && (SIZE_T * q + SIZE_T) % SIZE_T == 0
  {
  }

  /** REAL_SIZE is the smallest legal chunk size with room for header and request. */
  lemma RealSizeLeast(sz: nat, n: nat)
    requires sz <= MODULUS - NODE && GoodSize(n) && sz + SIZE_T <= n
    ensures RealSize(sz) <= n
  {
    WordIsPower();
    MAlignMeaning(sz, SIZE_T);
    hide MAlign;
    var d := MAlign(sz, SIZE_T);
    AlignedQuotient(sz + d);
    assert n == SIZE_T * (n / SIZE_T);
  }

  /** Replacing chunk k by pieces that tile it, first or last of which is live next to a
      neighbour, keeps the layout well formed. */
  lemma ReplaceKeepsInv(g: Config, h: Heap, k: nat, mid: seq<Chunk>)
    requires Inv(g, h) && k < |h.chunks|
    requires Contig(mid, h.chunks[k].addr, h.chunks[k].addr + h.chunks[k].size)
    requires mid != [] && Apart(mid)
    requires mid[0].free || mid[|mid| - 1].free ==> h.chunks[k].free
    ensures Inv(g, Heap(Splice(h.chunks, k, k + 1, mid), h.end))
  {
    ContigAt(h.chunks, k, g.start, h.end);
    ContigSplice(h.chunks, k, k + 1, mid, g.start, h.end);
    SpliceApart(h.chunks, k, k + 1, mid);
  }

  lemma SpliceApart(xs: seq<Chunk>, i: nat, j: nat, mid: seq<Chunk>)
    requires i < j <= |xs| && Apart(xs) && Apart(mid) && mid != []
    requires i > 0 && mid[0].free ==> !xs[i - 1].free
    requires j < |xs| && mid[|mid| - 1].free ==> !xs[j].free
    ensures Apart(Splice(xs, i, j, mid))
  {
    var ys := Splice(xs, i, j, mid);
    forall t | 0 <= t < |ys| - 1
      ensures !(ys[t].free && ys[t + 1].free)
    {
      if t + 1 < i {
      } else if t + 1 == i {
        assert ys[t] == xs[i - 1] && ys[t + 1] == mid[0];
      } else if t + 1 < i + |mid| {
        assert ys[t] == mid[t - i] && ys[t + 1] == mid[t - i + 1];
      } else if t + 1 == i + |mid| {
        assert ys[t] == mid[|mid| - 1] && ys[t + 1] == xs[j];
      } else {
        assert ys[t] == xs[t - i - |mid| + j] && ys[t + 1] == xs[t - i - |mid| + j + 1];
      }
    }
  }

  lemma SpliceLive(xs: seq<Chunk>, i: nat, j: nat, mid: seq<Chunk>)
    requires i <= j <= |xs|
    ensures LiveSet(Splice(xs, i, j, mid)) + LiveSet(xs[i..j]) == LiveSet(xs) + LiveSet(mid)
  {
    var ys := Splice(xs, i, j, mid);
    assert xs == xs[..i] + xs[i..j] + xs[j..];
    forall c
      ensures c in ys <==> c in xs[..i] || c in mid || c in xs[j..]
      ensures c in xs <==> c in xs[..i] || c in xs[i..j] || c in xs[j..]
    {
    }
  }

  /** Handing out part of free chunk k adds one live chunk and nothing else. */
  lemma PlaceLive(g: Config, h: Heap, k: nat, mid: seq<Chunk>, c: Chunk)
    requires Inv(g, h) && k < |h.chunks| && h.chunks[k].free
    requires Contig(mid, h.chunks[k].addr, h.chunks[k].addr + h.chunks[k].size)
    requires Apart(mid) && c in mid && LiveSet(mid) == {c}
    ensures var h' := Heap(Splice(h.chunks, k, k + 1, mid), h.end);
      Inv(g, h') && c !in h.chunks && LiveSet(h'.chunks) == LiveSet(h.chunks) + {c}
      && Owned(h', c.addr + SIZE_T) && c.addr % SIZE_T == 0
  {
    hide Contig, Apart, LiveSet, Splice;
    var xs := h.chunks;
    ReplaceLive(xs, k, mid, c);
    OneLive(mid, c);
    ReplaceKeepsInv(g, h, k, mid);
    PieceInside(xs, k, mid, c, g.start, h.end);
    NotAmong(xs, k, c, g.start, h.end);
    var h' := Heap(Splice(xs, k, k + 1, mid), h.end);
    OwnedMeans(g, h', c.addr + SIZE_T, c);
  }

  lemma OneLive(mid: seq<Chunk>, c: Chunk)
    requires LiveSet(mid) == {c}
    ensures !c.free && c in mid && mid != []
    ensures forall x | x in mid :: !x.free ==> x == c
  {
    assert c in LiveSet(mid);
    forall x | x in mid && !x.free ensures x == c { assert x in LiveSet(mid); }
  }

  lemma ReplaceLive(xs: seq<Chunk>, k: nat, mid: seq<Chunk>, c: Chunk)
    requires k < |xs| && xs[k].free && LiveSet(mid) == {c}
    ensures LiveSet(Splice(xs, k, k + 1, mid)) == LiveSet(xs) + {c}
  {
    SpliceLive(xs, k, k + 1, mid);
    assert xs[k..k + 1] == [xs[k]];
    assert LiveSet([xs[k]]) == {};
  }

  lemma PieceInside(xs: seq<Chunk>, k: nat, mid: seq<Chunk>, c: Chunk, a: nat, b: nat)
    requires Contig(xs, a, b) && k < |xs| && c in mid && a % SIZE_T == 0
    requires Contig(mid, xs[k].addr, xs[k].addr + xs[k].size)
    ensures xs[k].addr <= c.addr < xs[k].addr + xs[k].size && c.addr % SIZE_T == 0
  {
    hide Contig;
    var j :| 0 <= j < |mid| && mid[j] == c;
    ContigAt(mid, j, xs[k].addr, xs[k].addr + xs[k].size);
    ContigAt(xs, k, a, b);
    WordsApart(c.addr, xs[k].addr, a);
  }

  lemma WordsApart(x: nat, y: nat, z: nat)
    requires (x - y) % SIZE_T == 0 && (y - z) % SIZE_T == 0 && z % SIZE_T == 0
    ensures x % SIZE_T == 0
  {
  }

  lemma NotAmong(xs: seq<Chunk>, k: nat, c: Chunk, a: nat, b: nat)
    requires Contig(xs, a, b) && k < |xs| && xs[k].free && !c.free
    requires xs[k].addr <= c.addr < xs[k].addr + xs[k].size
    ensures c !in xs
  {
    forall i | 0 <= i < |xs| ensures xs[i] != c {
      ContigAt(xs, i, a, b);
      if i < k { Ordered(xs, i, k, a, b); }
      if k < i { Ordered(xs, k, i, a, b); }
    }
  }

  /** The free chunk at the end may be enlarged up to the limit. */
  lemma GrowKeepsInv(g: Config, h: Heap, size: nat)
    requires Inv(g, h) && LastFree(h.chunks) && GoodSize(size)
    requires h.chunks[|h.chunks| - 1].addr + size + GAP <= g.limit
    ensures var n := |h.chunks| - 1; var a := h.chunks[n].addr;
      var h' := Heap(h.chunks[..n] + [Chunk(a, size, true)], a + size);
      Inv(g, h') && LiveSet(h'.chunks) == LiveSet(h.chunks)
  {
    var xs, n := h.chunks, |h.chunks| - 1;
    var a := xs[n].addr;
    ContigSplit(xs, n, g.start, h.end);
    ContigJoin(xs[..n], [Chunk(a, size, true)], g.start, a, a + size);
    assert xs == xs[..n] + [xs[n]];
  }

  /** When the last chunk is not free the heap grows by a new free chunk. */
  lemma AppendKeepsInv(g: Config, h: Heap, size: nat)
    requires Inv(g, h) && !LastFree(h.chunks) && GoodSize(size)
    requires h.end + size + GAP <= g.limit
    ensures var h' := Heap(h.chunks + [Chunk(h.end, size, true)], h.end + size);
      Inv(g, h') && LiveSet(h'.chunks) == LiveSet(h.chunks)
  {
    ContigJoin(h.chunks, [Chunk(h.end, size, true)], g.start, h.end, h.end + size);
  }

  lemma CarveContig(c: Chunk, need: nat)
    requires GoodSize(c.size) && GoodSize(need) && c.size >= need
    ensures var mid := Carve(c, need);
      && Contig(mid, c.addr, c.addr + c.size) && Apart(mid)
      && mid[0] in mid && LiveSet(mid) == {mid[0]}
      && mid[0].addr == c.addr && need <= mid[0].size < need + NODE
  {
    if c.size >= need + NODE {
      assert Carve(c, need)[1..] == [Chunk(c.addr + need, c.size - need, true)];
    }
  }

  /** A new live chunk of at least sz usable bytes, at ptr, and no other change to live chunks. */
  ghost predicate Allocated(h: Heap, h': Heap, ptr: nat, sz: nat, c: Chunk)
  {
    && c.addr + SIZE_T == ptr && !c.free && sz + SIZE_T <= c.size
    && c !in LiveSet(h.chunks) && LiveSet(h'.chunks) == LiveSet(h.chunks) + {c}
  }

  lemma NoFit(xs: seq<Chunk>, need: nat)
    ensures FirstFit(xs, need, 1) == |xs| <==> forall c | c in xs && c.free :: c.size < need
  {
    PadOne();
    var k := FirstFit(xs, need, 1);
    if k < |xs| {
      assert xs[k] in xs && xs[k].free && xs[k].size >= need;
    } else {
      forall c | c in xs && c.free ensures c.size < need {
        var i :| 0 <= i < |xs| && xs[i] == c;
        FirstFitIsFirst(xs, need, 1, i);
      }
    }
  }

  ghost predicate MallocOutcome(g: Config, h: Heap, sz: nat, o: Outcome)
  {
    && Inv(g, o.heap)
    && o.ptr % SIZE_T == 0
    && (o.ptr == 0 ==> o.heap == h)
    && (o.ptr != 0 ==>
          && Owned(o.heap, o.ptr)
          && exists c :: Allocated(h, o.heap, o.ptr, sz, c) && c.size < RealSize(sz) + NODE)
  }

  /** malloc keeps the tiling; a non-null result is a new live chunk with room for the request
      that leaves every live chunk as it was; a failing call changes nothing. */
  lemma MallocCorrect(g: Config, h: Heap, sz: nat)
    requires Inv(g, h) && sz <= MODULUS - NODE
    ensures MallocOutcome(g, h, sz, Malloc(g, h, sz))
  {
    hide Contig, Apart, LiveSet, Owned, Carve, RealSize;
    var xs, need := h.chunks, RealSize(sz);
    var k := FirstFit(xs, need, 1);
    PadOne();
    RealSizeCovers(sz);
    if k < |xs| {
      MallocPlaces(g, h, k, sz);
    } else if LastFree(xs) {
      MallocGrowsLast(g, h, sz);
    } else if h.end + need + GAP <= g.limit {
      AppendKeepsInv(g, h, need);
      MallocGrown(g, h, Heap(xs + [Chunk(h.end, need, true)], h.end + need), |xs|, sz);
      assert (xs + [Chunk(h.end, need, true)])[..|xs|] == xs;
    }
  }

  lemma MallocGrowsLast(g: Config, h: Heap, sz: nat)
    requires Inv(g, h) && sz <= MODULUS - NODE
    requires FirstFit(h.chunks, RealSize(sz), 1) == |h.chunks| && LastFree(h.chunks)
    ensures MallocOutcome(g, h, sz, Malloc(g, h, sz))
  {
    var xs, need, n := h.chunks, RealSize(sz), |h.chunks| - 1;
    RealSizeCovers(sz);
    PadOne();
    ContigAt(xs, n, g.start, h.end);
    assert !Fits(xs[n], need, 1);
    if h.end + (need - xs[n].size) + GAP <= g.limit {
      GrowKeepsInv(g, h, need);
      var grown := Heap(xs[..n] + [Chunk(xs[n].addr, need, true)], xs[n].addr + need);
      MallocGrown(g, h, grown, n, sz);
      assert grown.chunks[..n] == xs[..n];
    }
  }

  lemma MallocGrown(g: Config, h: Heap, grown: Heap, n: nat, sz: nat)
    requires Inv(g, grown) && sz <= MODULUS - NODE && LiveSet(grown.chunks) == LiveSet(h.chunks)
    requires n + 1 == |grown.chunks| && grown.chunks[n].free && grown.chunks[n].size == RealSize(sz)
    ensures var c := Chunk(grown.chunks[n].addr, RealSize(sz), false);
      MallocOutcome(g, h, sz, Outcome(Heap(grown.chunks[..n] + [c], grown.end), c.addr + SIZE_T))
  {
    var need := RealSize(sz);
    RealSizeCovers(sz);
    var c := Chunk(grown.chunks[n].addr, need, false);
    ContigAt(grown.chunks, n, g.start, grown.end);
    PlaceLive(g, grown, n, [c], c);
    assert Splice(grown.chunks, n, n + 1, [c]) == grown.chunks[..n] + [c];
    assert Allocated(h, Heap(grown.chunks[..n] + [c], grown.end), c.addr + SIZE_T, sz, c);
  }

  /** malloc fails exactly when no free chunk is large enough and, counting a free chunk at the
      end of the heap, growing would come closer than the gap to the limit. */
  lemma MallocFails(g: Config, h: Heap, sz: nat)
    requires Inv(g, h) && sz <= MODULUS - NODE
    ensures Malloc(g, h, sz).ptr == 0 <==>
      && (forall c | c in h.chunks && c.free :: c.size < RealSize(sz))
      && h.end - (if LastFree(h.chunks) then h.chunks[|h.chunks| - 1].size else 0) + RealSize(sz) + GAP > g.limit
  {
    NoFit(h.chunks, RealSize(sz));
    if LastFree(h.chunks) { ContigAt(h.chunks, |h.chunks| - 1, g.start, h.end); }
  }

  /** Where the block goes: the lowest free chunk that is large enough; if there is none, the end of the heap, or
      the free chunk at the end, which then grows to just the block. */
  lemma MallocPlace(g: Config, h: Heap, sz: nat)
    requires Inv(g, h) && sz <= MODULUS - NODE && Malloc(g, h, sz).ptr != 0
    ensures var o, need := Malloc(g, h, sz), RealSize(sz);
      var e := if LastFree(h.chunks) then h.chunks[|h.chunks| - 1].addr else h.end;
      if exists c :: c in h.chunks && c.free && c.size >= need then
        && o.heap.end == h.end
        && (exists c :: c in h.chunks && c.free && c.size >= need && o.ptr == c.addr + SIZE_T
              && Chunk(c.addr, if c.size < need + NODE then c.size else need, false) in o.heap.chunks)
        && (forall c | c in h.chunks && c.free && c.size >= need :: o.ptr <= c.addr + SIZE_T)
      else o.ptr == e + SIZE_T && o.heap.end == e + need && Chunk(e, need, false) in o.heap.chunks
  {
    hide Contig, Apart, RealSize, Carve, Splice;
    var xs, need := h.chunks, RealSize(sz);
    var k := FirstFit(xs, need, 1);
    PadOne();
    NoFit(xs, need);
    if k < |xs| {
      assert xs[k] in xs && xs[k].free && xs[k].size >= need;
      forall c | c in xs && c.free && c.size >= need ensures xs[k].addr <= c.addr {
        LowestFit(g, h, need, 1, c);
      }
      CarvedHead(xs, k, need);
    } else {
      EndsWithBlock(g, h, sz);
    }
  }

  lemma CarvedHead(xs: seq<Chunk>, k: nat, need: nat)
    requires k < |xs| && xs[k].size >= need
    ensures Chunk(xs[k].addr, if xs[k].size < need + NODE then xs[k].size else need, false)
      in Splice(xs, k, k + 1, Carve(xs[k], need))
  {
    assert Splice(xs, k, k + 1, Carve(xs[k], need))[k] == Carve(xs[k], need)[0];
  }

  lemma EndsWithBlock(g: Config, h: Heap, sz: nat)
    requires FirstFit(h.chunks, RealSize(sz), 1) == |h.chunks| && Malloc(g, h, sz).ptr != 0
    ensures var e := if LastFree(h.chunks) then h.chunks[|h.chunks| - 1].addr else h.end;
      Chunk(e, RealSize(sz), false) in Malloc(g, h, sz).heap.chunks
  {
    hide RealSize;
    var xs := Malloc(g, h, sz).heap.chunks;
    PadOne();
    assert xs[|xs| - 1] in xs;
  }

  lemma LowestFit(g: Config, h: Heap, need: nat, align: nat, c: Chunk)
    requires Inv(g, h) && align >= 1 && c in h.chunks && Fits(c, need, align)
    ensures var k := FirstFit(h.chunks, need, align); k < |h.chunks| && h.chunks[k].addr <= c.addr
  {
    hide Contig, Apart, Fits;
    var xs, k := h.chunks, FirstFit(h.chunks, need, align);
    var i :| 0 <= i < |xs| && xs[i] == c;
    if i < k { FirstFitIsFirst(xs, need, align, i); }
    if k < i { Ordered(xs, k, i, g.start, h.end); }
  }

  lemma MallocPlaces(g: Config, h: Heap, k: nat, sz: nat)
    requires Inv(g, h) && sz <= MODULUS - NODE
    requires k < |h.chunks| && h.chunks[k].free && h.chunks[k].size >= RealSize(sz)
    ensures MallocOutcome(g, h, sz,
              Outcome(Heap(Splice(h.chunks, k, k + 1, Carve(h.chunks[k], RealSize(sz))), h.end),
                      h.chunks[k].addr + SIZE_T))
  {
    RealSizeCovers(sz);
    ContigAt(h.chunks, k, g.start, h.end);
    var mid := Carve(h.chunks[k], RealSize(sz));
    CarveContig(h.chunks[k], RealSize(sz));
    PlaceLive(g, h, k, mid, mid[0]);
    var h' := Heap(Splice(h.chunks, k, k + 1, mid), h.end);
    assert Allocated(h, h', h.chunks[k].addr + SIZE_T, sz, mid[0]);
  }

  /** Live chunks survive malloc, so owned pointers stay owned. */
  lemma MallocKeepsOwned(g: Config, h: Heap, sz: nat, p: nat)
    requires Inv(g, h) && Owned(h, p) && sz <= MODULUS - NODE
    ensures Owned(Malloc(g, h, sz).heap, p)
  {
    MallocCorrect(g, h, sz);
    assert MallocOutcome(g, h, sz, Malloc(g, h, sz));
    var c := h.chunks[IndexOf(h.chunks, p - SIZE_T)];
    var o := Malloc(g, h, sz);
    assert c in LiveSet(h.chunks);
    assert c in LiveSet(o.heap.chunks);
    OwnedMeans(g, o.heap, p, c);
  }

  // ---------------------------------------------------------------- free

  /** free removes exactly the released chunk from the live ones and keeps the tiling, so no two
      free chunks ever touch. */
  lemma FreeCorrect(g: Config, h: Heap, p: nat, c: Chunk)
    requires Inv(g, h) && Owned(h, p) && c == h.chunks[IndexOf(h.chunks, p - SIZE_T)]
    ensures var h' := Free(h, p);
      Inv(g, h') && LiveSet(h'.chunks) == LiveSet(h.chunks) - {c} && h'.end == h.end
  {
    ReleaseCorrect(g, h, IndexOf(h.chunks, p - SIZE_T));
  }

  lemma ReleaseCorrect(g: Config, h: Heap, k: nat)
    requires Inv(g, h) && k < |h.chunks| && !h.chunks[k].free
    ensures var h' := Heap(Release(h.chunks, k), h.end);
      Inv(g, h') && LiveSet(h'.chunks) == LiveSet(h.chunks) - {h.chunks[k]}
  {
    ReleaseInv(g, h, k);
    ReleaseLive(h.chunks, k, g.start, h.end);
  }

  lemma ReleaseInv(g: Config, h: Heap, k: nat)
    requires Inv(g, h) && k < |h.chunks|
    ensures Inv(g, Heap(Release(h.chunks, k), h.end))
  {
    hide Contig, Apart, MergeFrom, MergeTo, Merged, GoodSize;
    var xs := h.chunks;
    var i, j, c := MergeFrom(xs, k), MergeTo(xs, k), Merged(xs, k);
    MergedSpan(xs, k, g.start, h.end);
    ContigOne(c);
    ContigSplice(xs, i, j, [c], g.start, h.end);
    OneApart(c);
    NeighboursLive(xs, k);
    SpliceApart(xs, i, j, [c]);
  }

  lemma MergedSpan(xs: seq<Chunk>, k: nat, a: nat, b: nat)
    requires Contig(xs, a, b) && k < |xs|
    ensures var i, j, c := MergeFrom(xs, k), MergeTo(xs, k), Merged(xs, k);
      && GoodSize(c.size) && c.addr == xs[i].addr
      && c.addr + c.size == if j < |xs| then xs[j].addr else b
  {
    hide Contig;
    ContigAt(xs, k, a, b);
    ContigAt(xs, MergeFrom(xs, k), a, b);
    ContigAt(xs, MergeTo(xs, k) - 1, a, b);
  }

  lemma OneApart(c: Chunk)
    ensures Apart([c])
  {
  }

  lemma NeighboursLive(xs: seq<Chunk>, k: nat)
    requires k < |xs| && Apart(xs)
    ensures var i, j := MergeFrom(xs, k), MergeTo(xs, k);
      (i > 0 ==> !xs[i - 1].free) && (j < |xs| ==> !xs[j].free)
  {
  }

  lemma ReleaseLive(xs: seq<Chunk>, k: nat, a: nat, b: nat)
    requires Contig(xs, a, b) && k < |xs| && !xs[k].free
    ensures LiveSet(Release(xs, k)) == LiveSet(xs) - {xs[k]}
  {
    var i, j, c := MergeFrom(xs, k), MergeTo(xs, k), Merged(xs, k);
    SpliceLive(xs, i, j, [c]);
    OnlyLive(xs, i, j, k);
    UniqueChunk(xs, k, a, b);
    var ys := Release(xs, k);
    assert LiveSet([c]) == {};
    assert forall t | 0 <= t < |ys| :: ys[t] != xs[k] by {
      forall t | 0 <= t < |ys| ensures ys[t] != xs[k] {
        if t < i { assert ys[t] == xs[t]; }
        else if t == i { assert ys[t] == c; }
        else { assert ys[t] == xs[t - i - 1 + j]; }
      }
    }
  }

  lemma OnlyLive(xs: seq<Chunk>, i: nat, j: nat, k: nat)
    requires i <= k < j <= |xs| && !xs[k].free
    requires forall t | i <= t < j && t != k :: xs[t].free
    ensures LiveSet(xs[i..j]) == {xs[k]}
  {
    assert xs[i..j][k - i] == xs[k];
  }

  lemma UniqueChunk(xs: seq<Chunk>, k: nat, a: nat, b: nat)
    requires k < |xs| && Contig(xs, a, b)
    ensures forall t | 0 <= t < |xs| && t != k :: xs[t] != xs[k]
  {
    forall t | 0 <= t < |xs| && t != k ensures xs[t] != xs[k] {
      ContigAt(xs, t, a, b);
      ContigAt(xs, k, a, b);
      if t < k { Ordered(xs, t, k, a, b); } else { Ordered(xs, k, t, a, b); }
    }
  }

  /** Releasing the single live piece of a carved free chunk puts that chunk back. */
  lemma ReleaseUndoesPlace(xs: seq<Chunk>, k: nat, mid: seq<Chunk>, j: nat)
    requires k < |xs| && xs[k].free && Apart(xs)
    requires Contig(mid, xs[k].addr, xs[k].addr + xs[k].size)
    requires j < |mid| <= j + 2 && j <= 1 && (forall t | 0 <= t < |mid| :: mid[t].free <==> t != j)
    ensures Release(Splice(xs, k, k + 1, mid), k + j) == xs
  {
    PlacedMerge(xs, k, mid, j);
    SpliceBack(xs, k, mid);
    var ys := Splice(xs, k, k + 1, mid);
    assert Release(ys, k + j) == Splice(ys, k, k + |mid|, [xs[k]]);
  }

  lemma SpliceBack(xs: seq<Chunk>, k: nat, mid: seq<Chunk>)
    requires k < |xs|
    ensures Splice(Splice(xs, k, k + 1, mid), k, k + |mid|, [xs[k]]) == xs
  {
    var ys := Splice(xs, k, k + 1, mid);
    assert ys[..k] == xs[..k] && ys[k + |mid|..] == xs[k + 1..];
  }

  lemma PlacedMerge(xs: seq<Chunk>, k: nat, mid: seq<Chunk>, j: nat)
    requires k < |xs| && xs[k].free && Apart(xs)
    requires Contig(mid, xs[k].addr, xs[k].addr + xs[k].size)
    requires j < |mid| <= j + 2 && j <= 1 && (forall t | 0 <= t < |mid| :: mid[t].free <==> t != j)
    ensures var ys := Splice(xs, k, k + 1, mid);
      && MergeFrom(ys, k + j) == k && MergeTo(ys, k + j) == k + |mid|
      && Merged(ys, k + j) == xs[k]
  {
    hide Contig;
    var ys := Splice(xs, k, k + 1, mid);
    assert forall t | 0 <= t < |mid| :: ys[k + t] == mid[t];
    if k > 0 { assert ys[k - 1] == xs[k - 1]; }
    if k + 1 < |xs| { assert ys[k + |mid|] == xs[k + 1]; }
    ContigAt(mid, 0, xs[k].addr, xs[k].addr + xs[k].size);
    ContigAt(mid, j, xs[k].addr, xs[k].addr + xs[k].size);
    ContigAt(mid, |mid| - 1, xs[k].addr, xs[k].addr + xs[k].size);
  }

  /** The heap just before malloc carves it: the same heap, or one whose end grew by free space. */
  function Grown(g: Config, h: Heap, sz: nat): Heap
  {
    var xs, need := h.chunks, RealSize(sz);
    if FirstFit(xs, need, 1) < |xs| || Malloc(g, h, sz).ptr == 0 then h
    else if LastFree(xs) then
      var c := xs[|xs| - 1];
      Heap(xs[..|xs| - 1] + [Chunk(c.addr, need, true)], c.addr + need)
    else Heap(xs + [Chunk(h.end, need, true)], h.end + need)
  }

  /** free undoes malloc: it restores the very same heap, except that space malloc had to claim
      at the end stays, as free space. */
  lemma FreeUndoesMalloc(g: Config, h: Heap, sz: nat)
    requires Inv(g, h) && sz <= MODULUS - NODE && Malloc(g, h, sz).ptr != 0
    ensures var o := Malloc(g, h, sz);
      && Owned(o.heap, o.ptr)
      && Free(o.heap, o.ptr) == Grown(g, h, sz)
      && (o.heap.end == h.end ==> Free(o.heap, o.ptr) == h)
  {
    hide Contig, Apart, RealSize, Malloc, Grown, Splice, Carve, Free, Owned;
    MallocCorrect(g, h, sz);
    var k := GrownFits(g, h, sz);
    MallocPlaces(g, Grown(g, h, sz), k, sz);
    RealSizeCovers(sz);
    FreeUndoesCarve(g, Grown(g, h, sz), k, RealSize(sz));
  }

  lemma FreeUndoesCarve(g: Config, u: Heap, k: nat, need: nat)
    requires Inv(g, u) && k < |u.chunks| && u.chunks[k].free && u.chunks[k].size >= need && GoodSize(need)
    requires var p := u.chunks[k].addr + SIZE_T;
      Inv(g, Heap(Splice(u.chunks, k, k + 1, Carve(u.chunks[k], need)), u.end))
    ensures var h := Heap(Splice(u.chunks, k, k + 1, Carve(u.chunks[k], need)), u.end);
      var p := u.chunks[k].addr + SIZE_T;
      Owned(h, p) && Free(h, p) == u
  {
    ContigAt(u.chunks, k, g.start, u.end);
    var mid := Carve(u.chunks[k], need);
    CarveContig(u.chunks[k], need);
    ReleaseUndoesPlace(u.chunks, k, mid, 0);
    var ys := Splice(u.chunks, k, k + 1, mid);
    assert ys[k] == mid[0];
    IndexIs(ys, k, g.start, u.end);
  }

  /** malloc is a carving of the grown heap. */
  lemma GrownFits(g: Config, h: Heap, sz: nat) returns (k: nat)
    requires Inv(g, h) && sz <= MODULUS - NODE && Malloc(g, h, sz).ptr != 0
    ensures var u, o := Grown(g, h, sz), Malloc(g, h, sz);
      && Inv(g, u) && k < |u.chunks| && u.chunks[k].free && u.chunks[k].size >= RealSize(sz)
      && o == Outcome(Heap(Splice(u.chunks, k, k + 1, Carve(u.chunks[k], RealSize(sz))), u.end),
                      u.chunks[k].addr + SIZE_T)
      && (u.end == h.end ==> u == h)
  {
    var xs, need, o := h.chunks, RealSize(sz), Malloc(g, h, sz);
    RealSizeCovers(sz);
    PadOne();
    k := FirstFit(xs, need, 1);
    var u := Grown(g, h, sz);
    if k == |xs| && LastFree(xs) {
      k := |xs| - 1;
      ContigAt(xs, k, g.start, h.end);
      assert !Fits(xs[k], need, 1);
      GrowKeepsInv(g, h, need);
      assert u.chunks[..k] == xs[..k];
    } else if k == |xs| {
      AppendKeepsInv(g, h, need);
      assert u.chunks[..k] == xs;
    }
  }

  // ---------------------------------------------------------------- realloc

  ghost predicate ReallocOutcome(h: Heap, p: nat, sz: nat, o: Outcome)
    requires Owned(h, p)
  {
    var was := h.chunks[IndexOf(h.chunks, p - SIZE_T)];
    if o.ptr == 0 then o.heap == h
    else exists c: Chunk ::
      && c.addr + SIZE_T == o.ptr && !c.free && sz + SIZE_T <= RealSize(sz) <= c.size < RealSize(sz) + NODE
      && c !in LiveSet(h.chunks) - {was}
      && LiveSet(o.heap.chunks) == LiveSet(h.chunks) - {was} + {c}
      && (o.ptr == p ==> c.size == if was.size >= RealSize(sz) + NODE then RealSize(sz) else was.size)
  }

  /** realloc keeps the tiling. When it fails the old block is untouched; otherwise the old live
      chunk is replaced by one with room for the request, less than a free-list entry larger than
      needed, and no other live chunk changes. */
  lemma ReallocCorrect(g: Config, h: Heap, p: nat, sz: nat)
    requires Inv(g, h) && sz <= MODULUS - NODE && Owned(h, p)
    ensures var o := Realloc(g, h, p, sz);
      Inv(g, o.heap) && ReallocOutcome(h, p, sz, o) && (o.ptr != 0 ==> Owned(o.heap, o.ptr))
  {
    hide Contig, Apart, GoodConfig, RealSize, Malloc, Free, Release, Shrink;
    var xs, need := h.chunks, RealSize(sz);
    var k := IndexOf(xs, p - SIZE_T);
    RealSizeCovers(sz);
    if xs[k].size < need {
      ReallocMoves(g, h, p, sz);
    } else if xs[k].size - need >= NODE {
      ReallocShrinks(g, h, k, sz);
    } else {
      ReallocStays(h, p, sz);
    }
  }

  /** What realloc answers for an owned block: null exactly when the block is too small, no free chunk is large
      enough and growing at the end, counting a free chunk there, would pass the limit; the same pointer exactly
      when the block is large enough. */
  lemma ReallocAnswers(g: Config, h: Heap, p: nat, sz: nat)
    requires Inv(g, h) && sz <= MODULUS - NODE && Owned(h, p)
    ensures var o, was, need := Realloc(g, h, p, sz), h.chunks[IndexOf(h.chunks, p - SIZE_T)], RealSize(sz);
      var e := if LastFree(h.chunks) then h.chunks[|h.chunks| - 1].addr else h.end;
      && (o.ptr == 0 <==>
            && was.size < need
            && (forall c | c in h.chunks && c.free :: c.size < need)
            && e + need + GAP > g.limit)
      && (o.ptr == p <==> was.size >= need)
      && o.heap.end == if was.size >= need then h.end else Malloc(g, h, sz).heap.end
  {
    hide Contig, Apart, GoodConfig, RealSize, Malloc, LiveSet, Owned, Realloc, IndexOf, LastFree;
    OwnedAddr(h, p);
    ReallocPointer(g, h, p, sz);
    MallocFails(g, h, sz);
    if LastFree(h.chunks) { LastAddr(g, h); }
  }

  lemma LastAddr(g: Config, h: Heap)
    requires Inv(g, h) && LastFree(h.chunks)
    ensures var c := h.chunks[|h.chunks| - 1]; c.addr == h.end - c.size
  {
    hide Contig, Apart;
    LastEnds(g, h);
  }

  lemma OwnedAddr(h: Heap, p: nat)
    requires Owned(h, p)
    ensures p >= SIZE_T && IndexOf(h.chunks, p - SIZE_T) < |h.chunks|
    ensures var c := h.chunks[IndexOf(h.chunks, p - SIZE_T)]; c.addr + SIZE_T == p && !c.free && c in LiveSet(h.chunks)
  {
  }

  lemma ReallocPointer(g: Config, h: Heap, p: nat, sz: nat)
    requires Inv(g, h) && sz <= MODULUS - NODE && Owned(h, p)
    ensures Realloc(g, h, p, sz).ptr ==
      if h.chunks[IndexOf(h.chunks, p - SIZE_T)].size < RealSize(sz) then Malloc(g, h, sz).ptr else p
    ensures Malloc(g, h, sz).ptr != p
    ensures Realloc(g, h, p, sz).heap.end ==
      if h.chunks[IndexOf(h.chunks, p - SIZE_T)].size < RealSize(sz) then Malloc(g, h, sz).heap.end else h.end
  {
    hide Malloc, Contig, Apart, RealSize, GoodConfig, IndexOf, LiveSet, Shrink, Release;
    OwnedAddr(h, p);
    MallocKeepsOwned(g, h, sz, p);
    var m := Malloc(g, h, sz);
    MallocCorrect(g, h, sz);
    assert MallocOutcome(g, h, sz, m);
    if m.ptr == p {
      var c :| Allocated(h, m.heap, m.ptr, sz, c) && c.size < RealSize(sz) + NODE;
      OwnedMeans(g, m.heap, p, c);
      OwnedMeans(g, m.heap, p, h.chunks[IndexOf(h.chunks, p - SIZE_T)]);
    }
  }

  /** A live chunk with room for a request is as large as the request's real size. */
  lemma GoodCovers(g: Config, h: Heap, c: Chunk, sz: nat)
    requires Inv(g, h) && c in h.chunks && sz <= MODULUS - NODE && sz + SIZE_T <= c.size
    ensures RealSize(sz) <= c.size
  {
    hide RealSize, Contig, Apart;
    var k :| 0 <= k < |h.chunks| && h.chunks[k] == c;
    ContigAt(h.chunks, k, g.start, h.end);
    RealSizeLeast(sz, c.size);
  }

  lemma ReallocStays(h: Heap, p: nat, sz: nat)
    requires Owned(h, p) && sz + SIZE_T <= RealSize(sz)
    requires RealSize(sz) <= h.chunks[IndexOf(h.chunks, p - SIZE_T)].size < RealSize(sz) + NODE
    ensures ReallocOutcome(h, p, sz, Outcome(h, p))
  {
    hide RealSize;
    var c := h.chunks[IndexOf(h.chunks, p - SIZE_T)];
    assert c in LiveSet(h.chunks);
    assert LiveSet(h.chunks) - {c} + {c} == LiveSet(h.chunks);
  }

  lemma ReallocMoves(g: Config, h: Heap, p: nat, sz: nat)
    requires Inv(g, h) && sz <= MODULUS - NODE && Owned(h, p)
    requires h.chunks[IndexOf(h.chunks, p - SIZE_T)].size < RealSize(sz)
    ensures var o := Realloc(g, h, p, sz);
      Inv(g, o.heap) && ReallocOutcome(h, p, sz, o) && (o.ptr != 0 ==> Owned(o.heap, o.ptr))
  {
    hide Malloc, Contig, Apart, RealSize, GoodConfig, IndexOf, Free;
    var m := Malloc(g, h, sz);
    MallocCorrect(g, h, sz);
    MallocKeepsOwned(g, h, sz, p);
    if m.ptr != 0 {
      var c :| Allocated(h, m.heap, m.ptr, sz, c) && c.size < RealSize(sz) + NODE;
      LiveMember(h, m.heap, c);
      GoodCovers(g, m.heap, c, sz);
      RealSizeCovers(sz);
      ReallocFrees(g, h, m.heap, p, sz, c);
    }
  }

  lemma ReallocFrees(g: Config, h: Heap, m: Heap, p: nat, sz: nat, c: Chunk)
    requires Inv(g, h) && Inv(g, m) && Owned(h, p) && Owned(m, p)
    requires Allocated(h, m, c.addr + SIZE_T, sz, c) && sz + SIZE_T <= RealSize(sz) <= c.size < RealSize(sz) + NODE
    ensures var o := Outcome(Free(m, p), c.addr + SIZE_T);
      Inv(g, o.heap) && ReallocOutcome(h, p, sz, o) && Owned(o.heap, o.ptr)
  {
    hide Contig, Apart, GoodConfig, Free, RealSize;
    var was := h.chunks[IndexOf(h.chunks, p - SIZE_T)];
    assert was in LiveSet(h.chunks) && was in LiveSet(m.chunks);
    OwnedMeans(g, m, p, was);
    FreeCorrect(g, m, p, was);
    var h' := Free(m, p);
    assert LiveSet(h'.chunks) == LiveSet(h.chunks) - {was} + {c};
    OwnedMeans(g, h', c.addr + SIZE_T, c);
    if c.addr + SIZE_T == p { OwnedMeans(g, m, p, c); }
  }

  lemma ShrinkAway(g: Config, h: Heap, k: nat, need: nat, t: nat)
    requires Inv(g, h) && k < |h.chunks| && GoodSize(need) && need + NODE <= h.chunks[k].size
    requires t < |Shrink(h.chunks, k, need)|
    ensures Shrink(h.chunks, k, need)[t] != h.chunks[k]
  {
    var xs := h.chunks;
    UniqueChunk(xs, k, g.start, h.end);
    if t < k { assert Shrink(xs, k, need)[t] == xs[t]; }
    if t > k + 1 { assert Shrink(xs, k, need)[t] == xs[t - 1]; }
  }

  lemma ShrinkInv(g: Config, h: Heap, k: nat, need: nat)
    requires Inv(g, h) && k < |h.chunks| && !h.chunks[k].free && GoodSize(need)
    requires need + NODE <= h.chunks[k].size
    ensures var xs := h.chunks; var ys := Shrink(xs, k, need);
      && Inv(g, Heap(ys, h.end)) && k + 1 < |ys| && !ys[k + 1].free && ys[k] == Chunk(xs[k].addr, need, false)
      && ys[k + 1].addr == xs[k].addr + need
      && LiveSet(ys) == LiveSet(xs) - {xs[k]} + {ys[k], ys[k + 1]}
  {
    hide Contig, Apart;
    var xs := h.chunks;
    var ys := Shrink(xs, k, need);
    var head, tail := Chunk(xs[k].addr, need, false), Chunk(xs[k].addr + need, xs[k].size - need, false);
    var mid := [head, tail];
    ContigAt(xs, k, g.start, h.end);
    ContigOne(head);
    ContigOne(tail);
    ContigJoin([head], [tail], head.addr, tail.addr, head.addr + xs[k].size);
    assert [head] + [tail] == mid;
    assert Apart(mid) by { TwoLiveApart(head, tail); }
    ReplaceKeepsInv(g, h, k, mid);
    assert ys[k] == head && ys[k + 1] == tail;
    forall t | 0 <= t < |ys| ensures ys[t] != xs[k] { ShrinkAway(g, h, k, need, t); }
    ShrinkLive(xs, k, need);
  }

  lemma TwoLiveApart(c: Chunk, d: Chunk)
    requires !c.free || !d.free
    ensures Apart([c, d])
  {
  }

  lemma ShrinkLive(xs: seq<Chunk>, k: nat, need: nat)
    requires k < |xs| && !xs[k].free && need <= xs[k].size
    requires xs[k] !in Shrink(xs, k, need)
    ensures var ys := Shrink(xs, k, need);
      LiveSet(ys) == LiveSet(xs) - {xs[k]} + {ys[k], ys[k + 1]}
  {
    var head, tail := Chunk(xs[k].addr, need, false), Chunk(xs[k].addr + need, xs[k].size - need, false);
    var ys := Shrink(xs, k, need);
    SpliceLive(xs, k, k + 1, [head, tail]);
    assert ys[k] == head && ys[k + 1] == tail;
    assert xs[k..k + 1] == [xs[k]];
    assert LiveSet([head, tail]) == {head, tail};
    assert LiveSet([xs[k]]) == {xs[k]};
  }

  lemma ReallocShrinks(g: Config, h: Heap, k: nat, sz: nat)
    requires Inv(g, h) && k < |h.chunks| && !h.chunks[k].free && sz <= MODULUS - NODE
    requires Owned(h, h.chunks[k].addr + SIZE_T) && IndexOf(h.chunks, h.chunks[k].addr) == k
    requires h.chunks[k].size - RealSize(sz) >= NODE && GoodSize(RealSize(sz))
    ensures var p := h.chunks[k].addr + SIZE_T;
      var o := Outcome(Heap(Release(Shrink(h.chunks, k, RealSize(sz)), k + 1), h.end), p);
      Inv(g, o.heap) && ReallocOutcome(h, p, sz, o) && Owned(o.heap, o.ptr)
  {
    hide Contig, Apart, GoodConfig, RealSize, Release, Shrink, LiveSet;
    var xs, need := h.chunks, RealSize(sz);
    RealSizeCovers(sz);
    ShrinkInv(g, h, k, need);
    var ys := Shrink(xs, k, need);
    ReleaseCorrect(g, Heap(ys, h.end), k + 1);
    ShrunkLive(g, h, k, need);
    var zs := Release(ys, k + 1);
    assert LiveSet(zs) == LiveSet(xs) - {xs[k]} + {ys[k]};
    OwnedMeans(g, Heap(zs, h.end), xs[k].addr + SIZE_T, ys[k]);
  }

  lemma ShrunkLive(g: Config, h: Heap, k: nat, need: nat)
    requires Inv(g, h) && k < |h.chunks| && !h.chunks[k].free && GoodSize(need)
    requires need + NODE <= h.chunks[k].size
    ensures var xs := h.chunks; var ys := Shrink(xs, k, need);
      && k + 1 < |ys| && xs[k] in LiveSet(xs) && ys[k] !in LiveSet(xs) && ys[k + 1] !in LiveSet(xs)
      && ys[k] != ys[k + 1]
  {
    hide Contig, Apart, GoodConfig;
    ShrinkFreshChunks(g, h, k, need);
  }

  lemma ShrinkFreshChunks(g: Config, h: Heap, k: nat, need: nat)
    requires Inv(g, h) && k < |h.chunks| && GoodSize(need) && need + NODE <= h.chunks[k].size
    ensures Chunk(h.chunks[k].addr, need, false) !in h.chunks
    ensures Chunk(h.chunks[k].addr + need, h.chunks[k].size - need, false) !in h.chunks
  {
    var xs := h.chunks;
    forall t | 0 <= t < |xs|
      ensures xs[t] != Chunk(xs[k].addr, need, false) && xs[t] != Chunk(xs[k].addr + need, xs[k].size - need, false)
    {
      ContigAt(xs, t, g.start, h.end);
      if t < k { Ordered(xs, t, k, g.start, h.end); }
      if k < t { Ordered(xs, k, t, g.start, h.end); }
    }
  }

  // ---------------------------------------------------------------- memalign

  lemma PadMeaning(addr: nat, align: nat)
    requires IsPow2(align) && 1 <= align < MODULUS && addr % SIZE_T == 0
    ensures Aligned(addr + Pad(addr, align) + SIZE_T, align)
    ensures Pad(addr, align) != 0 ==> GoodSize(Pad(addr, align))
    ensures MAlign(addr + SIZE_T, align) % SIZE_T == 0
    ensures Pad(addr, align) < align + NODE
  {
    hide Aligned, MAlign, IsPow2;
    MAlignMeaning(addr + SIZE_T, align);
    MAlignWords(addr + SIZE_T, align);
    MAlignMeaning(addr + NODE + SIZE_T, align);
    MAlignWords(addr + NODE + SIZE_T, align);
    if MAlign(addr + SIZE_T, align) != 0 {
      var m := MAlign(addr + NODE + SIZE_T, align);
      assert addr + Pad(addr, align) + SIZE_T == addr + NODE + SIZE_T + m;
    }
  }

  ghost predicate MemalignOutcome(g: Config, h: Heap, align: nat, sz: nat, o: Outcome)
    requires align >= 1
  {
    && Inv(g, o.heap)
    && (o.ptr == 0 ==> LiveSet(o.heap.chunks) == LiveSet(h.chunks))
    && (o.ptr != 0 ==>
          && Owned(o.heap, o.ptr) && Aligned(o.ptr, align) && o.ptr % SIZE_T == 0
          && exists c :: Allocated(h, o.heap, o.ptr, sz, c) && c.size <= RealSize(sz) + NODE)
  }

  /** memalign without wrapping, on every request: the tiling is kept, the result is aligned, can be passed to
      free, and heads a new live chunk with room for the request. A failing call leaves every live chunk alone. */
  lemma MemalignLayout(g: Config, h: Heap, align: nat, sz: nat)
    requires Inv(g, h) && sz <= MODULUS - NODE && 1 <= align < MODULUS
    ensures MemalignOutcome(g, h, align, sz, Memalign(g, h, align, sz))
    ensures !IsPow2(align) ==> Memalign(g, h, align, sz) == Outcome(h, 0)
  {
    PowerTest(align);
    if And(align, align - 1) == 0 {
      var xs, need := h.chunks, RealSize(sz);
      var k := FirstFit(xs, need, align);
      RealSizeCovers(sz);
      if k < |xs| {
        PlaceAlignedCorrect(g, h, k, align, sz);
      } else if LastFree(xs) {
        assert !Fits(xs[|xs| - 1], need, align);
        GrowLastCorrect(g, h, align, sz);
      } else {
        MemalignAppends(g, h, align, sz);
      }
    }
  }

  lemma SizeSum(x: nat, y: nat)
    requires x < MODULUS && y < MODULUS
    ensures SizeAdd(x, y) == if x + y < MODULUS then x + y else x + y - MODULUS
  {
  }

  lemma RealSizeBound(sz: nat)
    ensures RealSize(sz) < MODULUS
  {
  }

  lemma PadBound(addr: nat, align: nat)
    requires IsPow2(align) && 1 <= align < MODULUS && addr % SIZE_T == 0
    ensures Pad(addr, align) <= align + SIZE_T && MAlign(addr + SIZE_T, align) < align
    ensures MAlign(addr + SIZE_T, align) <= Pad(addr, align)
    ensures align <= SIZE_T ==> Pad(addr, align) == 0 && MAlign(addr + SIZE_T, align) == 0
    ensures Pad(addr, align) < MODULUS
  {
    hide MAlign, IsPow2, Aligned;
    MAlignMeaning(addr + SIZE_T, align);
    PadCovers(addr, align);
    HalfModulus(align);
    PadAtMost(addr, align);
  }

  lemma PadAtMost(addr: nat, align: nat)
    requires IsPow2(align) && 1 <= align < MODULUS && addr % SIZE_T == 0
    ensures Pad(addr, align) <= align + SIZE_T
    ensures align <= SIZE_T ==> Pad(addr, align) == 0 && MAlign(addr + SIZE_T, align) == 0
  {
    var m := MAlign(addr + SIZE_T, align);
    hide MAlign, IsPow2, Aligned, Pad;
    PadMeaning(addr, align);
    MAlignMeaning(addr + SIZE_T, align);
    WordPower(align);
    if align > SIZE_T && Pad(addr, align) != 0 {
      assert align == NODE * (align / NODE);
      WordBelow(Pad(addr, align), align / NODE);
    }
    assert align <= SIZE_T ==> m == 0;
    NoPad(addr, align);
  }

  /** Whole words: a distance below two words is one word at most. */
  lemma WordBelow(p: nat, u: nat)
    requires p % SIZE_T == 0 && p < NODE * u + NODE
    ensures p <= NODE * u + SIZE_T
  {
    var v := p / SIZE_T;
    assert p == SIZE_T * v;
  }

  lemma NoPad(addr: nat, align: nat)
    requires 1 <= align
    ensures MAlign(addr + SIZE_T, align) == 0 ==> Pad(addr, align) == 0
  {
    hide MAlign;
  }

  /** The padding is the least that puts the payload on a multiple of align and leaves either nothing or a whole
      free-list entry in front. */
  lemma PadLeast(addr: nat, align: nat, p: nat)
    requires IsPow2(align) && 1 <= align < MODULUS && addr % SIZE_T == 0
    ensures var q := Pad(addr, align); (q == 0 || q >= NODE) && Aligned(addr + q + SIZE_T, align)
    ensures (p == 0 || p >= NODE) && Aligned(addr + p + SIZE_T, align) ==> Pad(addr, align) <= p
  {
    PadMeaning(addr, align);
    MAlignMeaning(addr + SIZE_T, align);
    MAlignMeaning(addr + NODE + SIZE_T, align);
    hide Aligned, MAlign, IsPow2;
    if (p == 0 || p >= NODE) && Aligned(addr + p + SIZE_T, align) && p < Pad(addr, align) {
      if p == 0 {
        Multiples(addr + SIZE_T + MAlign(addr + SIZE_T, align), addr + SIZE_T, align);
      } else {
        var m := MAlign(addr + NODE + SIZE_T, align);
        assert addr + Pad(addr, align) + SIZE_T == addr + NODE + SIZE_T + m;
        Multiples(addr + NODE + SIZE_T + m, addr + p + SIZE_T, align);
      }
    }
  }

  lemma WordPower(align: nat)
    requires IsPow2(align)
    ensures align > SIZE_T ==> align % NODE == 0
    ensures align <= NODE ==> align == 1 || align == 2 || align == 4 || align == 8 || align == 16
  {
    var k: nat :| align == Pow2(k);
    assert Pow2(1) == 2 && Pow2(2) == 4 && Pow2(3) == 8 && Pow2(4) == 16;
    if k >= 4 {
      Pow2Add(4, k - 4);
      ModUnique(align, NODE, Pow2(k - 4), 0);
      Pow2Mono(4, k);
    } else {
      assert k == 0 || k == 1 || k == 2 || k == 3;
    }
  }

  lemma HalfModulus(align: nat)
    requires IsPow2(align) && align < MODULUS
    ensures 2 * align <= MODULUS
  {
    var k: nat :| align == Pow2(k);
    Pow2Of64();
    if k >= 64 { Pow2Mono(64, k); }
    Pow2Mono(k + 1, 64);
    assert Pow2(k + 1) == 2 * Pow2(k);
  }

  /** The padding in front of a block covers the distance to the aligned address. */
  lemma PadCovers(addr: nat, align: nat)
    requires IsPow2(align) && 1 <= align < MODULUS && addr % SIZE_T == 0
    ensures MAlign(addr + SIZE_T, align) <= Pad(addr, align)
  {
    hide Aligned, MAlign, IsPow2;
    MAlignMeaning(addr + SIZE_T, align);
    MAlignMeaning(addr + NODE + SIZE_T, align);
    var m, m' := MAlign(addr + SIZE_T, align), MAlign(addr + NODE + SIZE_T, align);
    if m > NODE + m' {
      Multiples(addr + SIZE_T + m, addr + SIZE_T + NODE + m', align);
    }
  }

  lemma Multiples(x: nat, y: nat, align: nat)
    requires align >= 1 && Aligned(x, align) && Aligned(y, align) && y < x
    ensures x - y >= align
  {
    assert x == x / align * align && y == y / align * align;
    MulDistribute(x / align, y / align, align);
    MulBound(x / align - y / align, align);
  }

  /** Wherever no sum wraps, the code takes the chunk the layout function takes. */
  lemma {:induction false} AcceptedIsFit(xs: seq<Chunk>, need: nat, align: nat)
    requires align >= 1 && forall c | c in xs :: c.size < MODULUS
    ensures var k := FirstAccepted(xs, need, align);
      && k <= FirstFit(xs, need, align)
      && (k < |xs| && need + Pad(xs[k].addr, align) < MODULUS ==> FirstFit(xs, need, align) == k)
  {
    hide Pad;
    if xs != [] {
      assert xs[0] in xs;
      assert forall c | c in xs[1..] :: c in xs;
      AcceptedIsFit(xs[1..], need, align);
    }
  }

  lemma SizesBound(g: Config, h: Heap)
    requires Inv(g, h)
    ensures forall c | c in h.chunks :: c.addr % SIZE_T == 0 && c.size < MODULUS && c.addr + c.size <= h.end
  {
    hide Contig, Apart;
    forall c | c in h.chunks ensures c.addr % SIZE_T == 0 && c.size < MODULUS && c.addr + c.size <= h.end {
      var k :| 0 <= k < |h.chunks| && h.chunks[k] == c;
      ContigAt(h.chunks, k, g.start, h.end);
    }
  }

  lemma GrowAgrees(g: Config, h: Heap, need: nat, align: nat)
    requires Inv(g, h) && IsPow2(align) && 1 <= align < MODULUS && need < MODULUS
    requires LastFree(h.chunks) && !Accepts(h.chunks[|h.chunks| - 1], need, align)
    ensures !Fits(h.chunks[|h.chunks| - 1], need, align)
    ensures var v := GrowCode(g, h, need, align); v.Returns? ==> v.o == GrowLast(g, h, need, align)
  {
    SizesBound(g, h);
    var c := h.chunks[|h.chunks| - 1];
    assert c in h.chunks;
    PadBound(c.addr, align);
    SizeSum(need, Pad(c.addr, align));
    hide Pad, Inv, PlaceAligned, SizeAdd;
  }

  lemma AppendAgrees(g: Config, h: Heap, align: nat, sz: nat)
    requires Inv(g, h) && IsPow2(align) && 1 <= align < MODULUS && sz <= MODULUS - NODE && !LastFree(h.chunks)
    ensures var v := AppendCode(g, h, RealSize(sz), align);
      v.Returns? ==> v.o == AppendAligned(g, h, RealSize(sz), align)
  {
    hide Pad, MAlign, RealSize, PlaceAligned, IsPow2, Contig, Apart, GrowCode, GrowLast, SizeAdd, TakeCode, Accepts,
         Fits, Aligned;
    var xs, need := h.chunks, RealSize(sz);
    RealSizeCovers(sz);
    RealSizeBound(sz);
    ContigWords(xs, g.start, h.end);
    PadMeaning(h.end, align);
    PadBound(h.end, align);
    var more := MAlign(h.end + SIZE_T, align);
    SizeSum(need, more);
    if need + more < MODULUS && h.end + need + more + GAP <= g.limit {
      AppendKeepsInv(g, h, need + more);
      var h' := Heap(xs + [Chunk(h.end, need + more, true)], h.end + (need + more));
      if Accepts(h'.chunks[|xs|], need, align) {
        TakeAgrees(g, h', |xs|, need, align);
      } else {
        GrowAgrees(g, h', need, align);
      }
    }
  }

  lemma TakeAgrees(g: Config, h: Heap, k: nat, need: nat, align: nat)
    requires Inv(g, h) && align >= 1 && need < MODULUS && k < |h.chunks| && Accepts(h.chunks[k], need, align)
    ensures k == |h.chunks| - 1 ==> LastFree(h.chunks)
    ensures TakeCode(h, k, need, align).Returns? ==>
      Fits(h.chunks[k], need, align) && TakeCode(h, k, need, align).o == PlaceAligned(h, k, need, align)
  {
    hide Pad, PlaceAligned, Contig, Apart;
  }

  /** Whenever the code returns, it returns what the layout function says. */
  lemma CodeAgrees(g: Config, h: Heap, align: nat, sz: nat)
    requires Inv(g, h) && align < MODULUS && sz <= MODULUS - NODE
    ensures var v := MemalignCode(g, h, align, sz); v.Returns? ==> v.o == Memalign(g, h, align, sz)
  {
    if align != 0 && And(align, align - 1) == 0 {
      PowerTest(align);
      var xs, need := h.chunks, RealSize(sz);
      RealSizeBound(sz);
      SizesBound(g, h);
      AcceptedIsFit(xs, need, align);
      hide Inv, RealSize, And, IsPow2, Pad, MAlign, PlaceAligned, GrowCode, GrowLast, AppendCode, AppendAligned;
      var k := FirstAccepted(xs, need, align);
      if k < |xs| {
        TakeAgrees(g, h, k, need, align);
      } else if LastFree(xs) {
        GrowAgrees(g, h, need, align);
      } else {
        AppendAgrees(g, h, align, sz);
      }
    }
  }

  /** memalign, whenever no sum of sizes has wrapped: the tiling is kept, the result is aligned, can be passed to
      free, and heads a new live chunk with room for the request. A failing call leaves every live chunk alone. */
  lemma MemalignCorrect(g: Config, h: Heap, align: nat, sz: nat)
    requires Inv(g, h) && sz <= MODULUS - NODE && 1 <= align < MODULUS
    ensures var v := MemalignCode(g, h, align, sz);
      && (AlignSafe(align, sz) ==> v.Returns?)
      && (v.Returns? ==> v.o == Memalign(g, h, align, sz) && MemalignOutcome(g, h, align, sz, v.o))
    ensures !IsPow2(align) ==> MemalignCode(g, h, align, sz) == Returns(Outcome(h, 0))
  {
    hide MemalignCode, Memalign, MemalignOutcome, AlignSafe, IsPow2;
    CodeAgrees(g, h, align, sz);
    MemalignLayout(g, h, align, sz);
    if AlignSafe(align, sz) { NeverWraps(g, h, align, sz); }
    NotPower(g, h, align, sz);
  }

  lemma NotPower(g: Config, h: Heap, align: nat, sz: nat)
    requires align >= 1
    ensures !IsPow2(align) ==> MemalignCode(g, h, align, sz) == Returns(Outcome(h, 0))
  {
    PowerTest(align);
  }

  lemma NeverWraps(g: Config, h: Heap, align: nat, sz: nat)
    requires Inv(g, h) && align < MODULUS && sz <= MODULUS - NODE && AlignSafe(align, sz)
    ensures MemalignCode(g, h, align, sz).Returns?
  {
    if align != 0 && And(align, align - 1) == 0 {
      hide RealSize, And, IsPow2, Pad, MAlign, PlaceAligned, Inv, Aligned, SizeAdd, Accepts, GoodConfig;
      PowerTest(align);
      var xs, need := h.chunks, RealSize(sz);
      RealSizeBound(sz);
      SizesBound(g, h);
      EndAligned(g, h);
      PadBound(h.end, align);
      forall c | c in xs ensures need + Pad(c.addr, align) < MODULUS { PadBound(c.addr, align); }
    }
  }

  lemma EndAligned(g: Config, h: Heap)
    requires Inv(g, h)
    ensures h.end % SIZE_T == 0
  {
    ContigWords(h.chunks, g.start, h.end);
  }

  lemma MemalignAppends(g: Config, h: Heap, align: nat, sz: nat)
    requires Inv(g, h) && sz <= MODULUS - NODE && IsPow2(align) && 1 <= align < MODULUS
    requires FirstFit(h.chunks, RealSize(sz), align) == |h.chunks| && !LastFree(h.chunks)
    requires And(align, align - 1) == 0
    ensures MemalignOutcome(g, h, align, sz, AppendAligned(g, h, RealSize(sz), align))
  {
    hide Aligned, MAlign, IsPow2, RealSize, Owned, Contig, Apart, PlaceAligned, GrowLast, FirstFit, And, LiveSet, Pad;
    var xs, need := h.chunks, RealSize(sz);
    RealSizeCovers(sz);
    ContigWords(xs, g.start, h.end);
    PadMeaning(h.end, align);
    var room := need + MAlign(h.end + SIZE_T, align);
    if h.end + room + GAP <= g.limit {
      AppendKeepsInv(g, h, room);
      var h' := Heap(xs + [Chunk(h.end, room, true)], h.end + room);
      if Fits(h'.chunks[|xs|], need, align) {
        PlaceAlignedCorrect(g, h', |xs|, align, sz);
        SameLive(g, h', h, align, sz, AppendAligned(g, h, need, align));
      } else {
        GrowLastCorrect(g, h', align, sz);
        SameLive(g, h', h, align, sz, AppendAligned(g, h, need, align));
      }
    }
  }

  lemma SameLive(g: Config, h': Heap, h: Heap, align: nat, sz: nat, o: Outcome)
    requires align >= 1 && MemalignOutcome(g, h', align, sz, o) && LiveSet(h'.chunks) == LiveSet(h.chunks)
    ensures MemalignOutcome(g, h, align, sz, o)
  {
    if o.ptr != 0 {
      var c :| Allocated(h', o.heap, o.ptr, sz, c) && c.size <= RealSize(sz) + NODE;
      assert Allocated(h, o.heap, o.ptr, sz, c);
    }
  }

  lemma GrowLastCorrect(g: Config, h: Heap, align: nat, sz: nat)
    requires Inv(g, h) && sz <= MODULUS - NODE && IsPow2(align) && 1 <= align < MODULUS
    requires LastFree(h.chunks) && !Fits(h.chunks[|h.chunks| - 1], RealSize(sz), align)
    ensures MemalignOutcome(g, h, align, sz, GrowLast(g, h, RealSize(sz), align))
  {
    hide Aligned, MAlign, Inv, PlaceAligned, LiveSet, Pad, RealSize, IsPow2, Owned, MemalignOutcome, GoodSize;
    var xs, need, n := h.chunks, RealSize(sz), |h.chunks| - 1;
    LastEnds(g, h);
    RealSizeCovers(sz);
    PadMeaning(xs[n].addr, align);
    GoodSum(Pad(xs[n].addr, align), need);
    var want := Pad(xs[n].addr, align) + need;
    if h.end + (want - xs[n].size) + GAP <= g.limit {
      GrowKeepsInv(g, h, want);
      var h' := Heap(xs[..n] + [Chunk(xs[n].addr, want, true)], xs[n].addr + want);
      PlaceAlignedCorrect(g, h', n, align, sz);
      SameLive(g, h', h, align, sz, GrowLast(g, h, need, align));
    } else {
      FailOutcome(g, h, align, sz);
    }
  }

  lemma FailOutcome(g: Config, h: Heap, align: nat, sz: nat)
    requires Inv(g, h) && align >= 1
    ensures MemalignOutcome(g, h, align, sz, Outcome(h, 0))
  {
  }

  lemma CarveAlignedContig(c: Chunk, need: nat, align: nat)
    requires IsPow2(align) && 1 <= align < MODULUS && c.addr % SIZE_T == 0
    requires GoodSize(c.size) && GoodSize(need) && Fits(c, need, align)
    ensures var mid := CarveAligned(c, need, align);
      var j := if Pad(c.addr, align) == 0 then 0 else 1;
      && Contig(mid, c.addr, c.addr + c.size)
      && j < |mid| <= j + 2 && (forall t | 0 <= t < |mid| :: mid[t].free <==> t != j)
      && mid[j].addr == c.addr + Pad(c.addr, align) && need <= mid[j].size <= need + NODE
  {
    hide Aligned, MAlign, IsPow2, Pad, Contig;
    PadMeaning(c.addr, align);
    var pad := Pad(c.addr, align);
    PiecesContig(c, pad, if c.size - pad <= need + NODE then c.size - pad else need);
  }

  lemma PiecesContig(c: Chunk, pad: nat, live: nat)
    requires pad + live <= c.size && GoodSize(c.size) && GoodSize(live)
    requires pad == 0 || GoodSize(pad)
    requires pad + live == c.size || pad + live + NODE <= c.size
    ensures Contig(Pieces(c, pad, live), c.addr, c.addr + c.size)
  {
    hide Contig;
    var l := Chunk(c.addr + pad, live, false);
    var front := if pad == 0 then [] else [Chunk(c.addr, pad, true)];
    var back := if pad + live == c.size then [] else [Chunk(c.addr + pad + live, c.size - pad - live, true)];
    ContigOne(l);
    ContigNone(c.addr);
    ContigNone(c.addr + c.size);
    if pad != 0 { ContigOne(front[0]); }
    if back != [] { ContigOne(back[0]); }
    ContigJoin(front, [l], c.addr, l.addr, l.addr + live);
    ContigJoin(front + [l], back, c.addr, l.addr + live, c.addr + c.size);
  }

  lemma ContigNone(a: nat)
    ensures Contig([], a, a)
  {
  }

  lemma ContigOne(c: Chunk)
    requires GoodSize(c.size)
    ensures Contig([c], c.addr, c.addr + c.size)
  {
  }

  lemma LiveOfPieces(mid: seq<Chunk>, j: nat)
    requires j < |mid| && (forall t | 0 <= t < |mid| :: mid[t].free <==> t != j)
    requires |mid| <= j + 2 && j <= 1
    ensures Apart(mid) && mid[j] in mid && LiveSet(mid) == {mid[j]}
  {
  }

  lemma PlaceAlignedCorrect(g: Config, h: Heap, k: nat, align: nat, sz: nat)
    requires Inv(g, h) && sz <= MODULUS - NODE && IsPow2(align) && 1 <= align < MODULUS
    requires k < |h.chunks| && Fits(h.chunks[k], RealSize(sz), align)
    ensures MemalignOutcome(g, h, align, sz, PlaceAligned(h, k, RealSize(sz), align))
  {
    hide Aligned, MAlign, IsPow2, RealSize, Owned, Contig, Apart, CarveAligned, Pad, Splice;
    var c, need := h.chunks[k], RealSize(sz);
    RealSizeCovers(sz);
    ContigAt(h.chunks, k, g.start, h.end);
    PadMeaning(c.addr, align);
    CarveAlignedContig(c, need, align);
    var mid := CarveAligned(c, need, align);
    var j := if Pad(c.addr, align) == 0 then 0 else 1;
    LiveOfPieces(mid, j);
    PlaceLive(g, h, k, mid, mid[j]);
    var o := PlaceAligned(h, k, need, align);
    assert Allocated(h, o.heap, o.ptr, sz, mid[j]);
  }

  /** What memalign carves, free puts back. */
  lemma FreeUndoesPlaceAligned(g: Config, h: Heap, k: nat, align: nat, sz: nat)
    requires Inv(g, h) && sz <= MODULUS - NODE && IsPow2(align) && 1 <= align < MODULUS
    requires k < |h.chunks| && Fits(h.chunks[k], RealSize(sz), align)
    ensures var o := PlaceAligned(h, k, RealSize(sz), align);
      Owned(o.heap, o.ptr) && Free(o.heap, o.ptr) == h
  {
    hide Aligned, MAlign, IsPow2, RealSize, Contig, Apart, CarveAligned, Release, Pad, LiveSet, Splice;
    var c, need := h.chunks[k], RealSize(sz);
    RealSizeCovers(sz);
    ContigAt(h.chunks, k, g.start, h.end);
    PlaceAlignedCorrect(g, h, k, align, sz);
    CarveAlignedContig(c, need, align);
    var mid := CarveAligned(c, need, align);
    var j := if Pad(c.addr, align) == 0 then 0 else 1;
    ReleaseUndoesPlace(h.chunks, k, mid, j);
    SplicedIndex(h.chunks, k, mid, j, g.start, h.end);
  }

  lemma SplicedIndex(xs: seq<Chunk>, k: nat, mid: seq<Chunk>, j: nat, a: nat, b: nat)
    requires k < |xs| && j < |mid| && Contig(Splice(xs, k, k + 1, mid), a, b)
    ensures IndexOf(Splice(xs, k, k + 1, mid), mid[j].addr) == k + j
  {
    var ys := Splice(xs, k, k + 1, mid);
    assert ys[k + j] == mid[j];
    IndexIs(ys, k + j, a, b);
  }

  /** memalign without wrapping fails exactly when the alignment is no power of two, or no free chunk fits and
      the end of the heap, from its last free chunk on, cannot take padding and block below the limit. */
  lemma MemalignFails(g: Config, h: Heap, align: nat, sz: nat)
    requires Inv(g, h) && sz <= MODULUS - NODE && 1 <= align < MODULUS
    ensures var e := if LastFree(h.chunks) then h.chunks[|h.chunks| - 1].addr else h.end;
      Memalign(g, h, align, sz).ptr == 0 <==>
        !IsPow2(align)
        || ((forall c | c in h.chunks :: !Fits(c, RealSize(sz), align))
            && e + Pad(e, align) + RealSize(sz) + GAP > g.limit)
  {
    PowerTest(align);
    if IsPow2(align) {
      var xs, need := h.chunks, RealSize(sz);
      RealSizeCovers(sz);
      ContigWords(xs, g.start, h.end);
      PadBound(h.end, align);
      NoneFits(xs, need, align);
      if LastFree(xs) { ContigAt(xs, |xs| - 1, g.start, h.end); }
      hide RealSize, And, IsPow2, Pad, MAlign, Contig, Apart, Aligned, CarveAligned;
    }
  }

  /** A failing memalign changes nothing, or, when it appended a free chunk that was too small after all, leaves it. */
  lemma MemalignNull(g: Config, h: Heap, align: nat, sz: nat)
    requires Inv(g, h) && sz <= MODULUS - NODE && 1 <= align < MODULUS && Memalign(g, h, align, sz).ptr == 0
    ensures var h', room := Memalign(g, h, align, sz).heap, RealSize(sz) + MAlign(h.end + SIZE_T, align);
      if IsPow2(align) && !LastFree(h.chunks) && h.end + room + GAP <= g.limit
         && forall c | c in h.chunks :: !Fits(c, RealSize(sz), align)
      then h' == Heap(h.chunks + [Chunk(h.end, room, true)], h.end + room)
      else h' == h
  {
    hide RealSize, And, IsPow2, Inv, Fits, MAlign, Pad, CarveAligned, Splice;
    PowerTest(align);
    if IsPow2(align) {
      hide Memalign, GrowLast;
      MemalignCases(g, h, align, sz);
      NoneFits(h.chunks, RealSize(sz), align);
      if FirstFit(h.chunks, RealSize(sz), align) == |h.chunks| {
        if LastFree(h.chunks) { GrowNull(g, h, RealSize(sz), align); } else { AppendNull(g, h, RealSize(sz), align); }
      }
    }
  }

  lemma GrowNull(g: Config, h: Heap, need: nat, align: nat)
    requires align >= 1 && LastFree(h.chunks) && !Fits(h.chunks[|h.chunks| - 1], need, align)
    ensures GrowLast(g, h, need, align).ptr == 0 ==> GrowLast(g, h, need, align).heap == h
  {
    hide Pad, CarveAligned, Splice;
  }

  lemma AppendNull(g: Config, h: Heap, need: nat, align: nat)
    requires align >= 1 && AppendAligned(g, h, need, align).ptr == 0
    ensures var h', room := AppendAligned(g, h, need, align).heap, need + MAlign(h.end + SIZE_T, align);
      h' == if h.end + room + GAP <= g.limit then Heap(h.chunks + [Chunk(h.end, room, true)], h.end + room) else h
  {
    hide Pad, CarveAligned, Splice, MAlign;
  }

  /** All of a free chunk behind its padding, or just the block if more than a free-list entry would be left. */
  function AlignedPiece(c: Chunk, need: nat, align: nat): Chunk
    requires align >= 1 && Fits(c, need, align)
  {
    var room := c.size - Pad(c.addr, align);
    Chunk(c.addr + Pad(c.addr, align), if room > need + NODE then need else room, false)
  }

  lemma PieceThere(h: Heap, k: nat, need: nat, align: nat)
    requires align >= 1 && k < |h.chunks| && Fits(h.chunks[k], need, align)
    ensures AlignedPiece(h.chunks[k], need, align) in PlaceAligned(h, k, need, align).heap.chunks
  {
    hide Pad;
    var c := h.chunks[k];
    var mid, pad := CarveAligned(c, need, align), Pad(c.addr, align);
    var j := if pad == 0 then 0 else 1;
    assert mid[j] == AlignedPiece(c, need, align);
    assert PlaceAligned(h, k, need, align).heap.chunks[k + j] == mid[j];
  }

  /** Where the block goes: behind its padding in the lowest free chunk with room for both; if there is none, at
      the end of the heap or in the free chunk there, which grows to just padding and block. */
  lemma MemalignPlace(g: Config, h: Heap, align: nat, sz: nat)
    requires Inv(g, h) && sz <= MODULUS - NODE && 1 <= align < MODULUS && Memalign(g, h, align, sz).ptr != 0
    ensures var o, need := Memalign(g, h, align, sz), RealSize(sz);
      var e := if LastFree(h.chunks) then h.chunks[|h.chunks| - 1].addr else h.end;
      if exists c :: c in h.chunks && Fits(c, need, align) then
        && o.heap.end == h.end
        && (exists c :: c in h.chunks && Fits(c, need, align) && o.ptr == c.addr + Pad(c.addr, align) + SIZE_T
              && AlignedPiece(c, need, align) in o.heap.chunks)
        && (forall c | c in h.chunks && Fits(c, need, align) :: o.ptr <= c.addr + Pad(c.addr, align) + SIZE_T)
      else
        && o.ptr == e + Pad(e, align) + SIZE_T && o.heap.end == e + Pad(e, align) + need
        && Chunk(e + Pad(e, align), need, false) in o.heap.chunks
  {
    hide RealSize, And, IsPow2, Inv, Memalign, GrowLast, AppendAligned, Fits, MAlign, Pad, CarveAligned, Splice,
         AlignedPiece, Enlarged;
    PowerTest(align);
    var xs, need := h.chunks, RealSize(sz);
    var k := FirstFit(xs, need, align);
    NullOnly(g, h, align, sz);
    MemalignCases(g, h, align, sz);
    NoneFits(xs, need, align);
    if k < |xs| {
      assert xs[k] in xs;
      PieceThere(h, k, need, align);
      forall c | c in xs && Fits(c, need, align)
        ensures xs[k].addr + Pad(xs[k].addr, align) <= c.addr + Pad(c.addr, align)
      {
        LowestFit(g, h, need, align, c);
        PadInside(xs[k], need, align);
        LowestAligned(g, h, xs[k], c, align);
      }
    } else if LastFree(xs) {
      LastEnds(g, h);
      GrowLastIs(g, h, need, align);
      GrownPiece(h, need, align);
    } else {
      AppendPlace(g, h, need, align);
    }
  }

  lemma PadInside(c: Chunk, need: nat, align: nat)
    requires align >= 1 && Fits(c, need, align)
    ensures c.size >= Pad(c.addr, align)
  {
    hide Pad;
  }

  lemma GrownPiece(h: Heap, need: nat, align: nat)
    requires align >= 1 && LastFree(h.chunks)
    ensures var c, n, h' := h.chunks[|h.chunks| - 1], |h.chunks| - 1, Enlarged(h, need, align);
      && |h'.chunks| == n + 1 && Fits(h'.chunks[n], need, align)
      && Chunk(c.addr + Pad(c.addr, align), need, false) in PlaceAligned(h', n, need, align).heap.chunks
  {
    hide Pad, Splice, CarveAligned, PlaceAligned;
    PieceThere(Enlarged(h, need, align), |h.chunks| - 1, need, align);
  }

  /** Of two chunks the lower one also has the lower aligned place, if the padding fits. */
  lemma LowestAligned(g: Config, h: Heap, c: Chunk, d: Chunk, align: nat)
    requires Inv(g, h) && c in h.chunks && d in h.chunks && c.addr <= d.addr && align >= 1
    requires c.size >= Pad(c.addr, align)
    ensures c.addr + Pad(c.addr, align) <= d.addr + Pad(d.addr, align)
  {
    hide Contig, Apart, Pad;
    var i :| 0 <= i < |h.chunks| && h.chunks[i] == c;
    var j :| 0 <= j < |h.chunks| && h.chunks[j] == d;
    ContigAt(h.chunks, i, g.start, h.end);
    ContigAt(h.chunks, j, g.start, h.end);
    if i < j { Ordered(h.chunks, i, j, g.start, h.end); }
    if j < i { Ordered(h.chunks, j, i, g.start, h.end); }
  }

  lemma AppendPlace(g: Config, h: Heap, need: nat, align: nat)
    requires Inv(g, h) && IsPow2(align) && 1 <= align < MODULUS && AppendAligned(g, h, need, align).ptr != 0
    ensures var o := AppendAligned(g, h, need, align);
      && o.ptr == h.end + Pad(h.end, align) + SIZE_T && o.heap.end == h.end + Pad(h.end, align) + need
      && Chunk(h.end + Pad(h.end, align), need, false) in o.heap.chunks
  {
    hide IsPow2, Contig, Apart, MAlign, Pad, CarveAligned, Splice, AlignedPiece, PlaceAligned, GrowLast;
    ContigWords(h.chunks, g.start, h.end);
    PadCovers(h.end, align);
    var xs, room := h.chunks, need + MAlign(h.end + SIZE_T, align);
    var h' := Heap(xs + [Chunk(h.end, room, true)], h.end + room);
    if Fits(h'.chunks[|xs|], need, align) {
      PieceThere(h', |xs|, need, align);
      PlacedAt(h', |xs|, need, align);
      AlignedAll(h'.chunks[|xs|], need, align);
    } else {
      GrowLastIs(g, h', need, align);
      GrownPiece(h', need, align);
      PlacedAt(Enlarged(h', need, align), |xs|, need, align);
    }
  }

  lemma PlacedAt(h: Heap, k: nat, need: nat, align: nat)
    requires align >= 1 && k < |h.chunks| && Fits(h.chunks[k], need, align)
    ensures var o, c := PlaceAligned(h, k, need, align), h.chunks[k];
      o.heap.end == h.end && o.ptr == c.addr + Pad(c.addr, align) + SIZE_T
  {
    hide Pad, CarveAligned, Splice;
  }

  lemma AlignedAll(c: Chunk, need: nat, align: nat)
    requires align >= 1 && Fits(c, need, align) && c.size <= need + Pad(c.addr, align)
    ensures AlignedPiece(c, need, align) == Chunk(c.addr + Pad(c.addr, align), need, false)
  {
    hide Pad;
  }

  lemma NoneFits(xs: seq<Chunk>, need: nat, align: nat)
    requires align >= 1
    ensures FirstFit(xs, need, align) == |xs| <==> forall c | c in xs :: !Fits(c, need, align)
  {
    hide Fits;
    var k := FirstFit(xs, need, align);
    if k < |xs| {
      assert xs[k] in xs;
    } else {
      forall c | c in xs ensures !Fits(c, need, align) {
        var i :| 0 <= i < |xs| && xs[i] == c;
        FirstFitIsFirst(xs, need, align, i);
      }
    }
  }

  /** The heap just before memalign carves it: the same heap, or one whose end grew by free space. */
  function GrownAligned(h: Heap, align: nat, sz: nat): Heap
    requires align >= 1
  {
    var xs, need := h.chunks, RealSize(sz);
    if FirstFit(xs, need, align) < |xs| then h
    else if LastFree(xs) then Enlarged(h, need, align)
    else
      var room := need + MAlign(h.end + SIZE_T, align);
      var h' := Heap(xs + [Chunk(h.end, room, true)], h.end + room);
      if Fits(h'.chunks[|xs|], need, align) then h' else Enlarged(h', need, align)
  }

  /** The free chunk at the end enlarged to what padding and block take. */
  function Enlarged(h: Heap, need: nat, align: nat): Heap
    requires align >= 1 && LastFree(h.chunks)
  {
    var xs := h.chunks;
    var c := xs[|xs| - 1];
    var want := Pad(c.addr, align) + need;
    Heap(xs[..|xs| - 1] + [Chunk(c.addr, want, true)], c.addr + want)
  }

  /** free undoes memalign: it restores the very same heap, pads included, except that space memalign had to
      claim at the end stays, as free space. */
  lemma FreeUndoesMemalign(g: Config, h: Heap, align: nat, sz: nat)
    requires Inv(g, h) && sz <= MODULUS - NODE && 1 <= align < MODULUS && Memalign(g, h, align, sz).ptr != 0
    ensures var o := Memalign(g, h, align, sz);
      && Owned(o.heap, o.ptr)
      && Free(o.heap, o.ptr) == GrownAligned(h, align, sz)
      && (o.heap.end == h.end ==> Free(o.heap, o.ptr) == h)
  {
    hide RealSize, And, IsPow2, Inv, GrownAligned, Memalign, PlaceAligned, Free, Owned, GrowLast, AppendAligned,
         Enlarged, Fits, MAlign;
    PowerTest(align);
    var xs, need := h.chunks, RealSize(sz);
    var k := FirstFit(xs, need, align);
    NullOnly(g, h, align, sz);
    MemalignCases(g, h, align, sz);
    GrownCases(h, align, sz);
    if k < |xs| {
      FreeUndoesPlaceAligned(g, h, k, align, sz);
    } else if LastFree(xs) {
      FreeUndoesGrowth(g, h, align, sz);
    } else {
      FreeUndoesAppend(g, h, align, sz);
    }
  }

  lemma NullOnly(g: Config, h: Heap, align: nat, sz: nat)
    requires 1 <= align && Memalign(g, h, align, sz).ptr != 0
    ensures And(align, align - 1) == 0
  {
    hide And;
  }

  lemma MemalignCases(g: Config, h: Heap, align: nat, sz: nat)
    requires 1 <= align && And(align, align - 1) == 0
    ensures var xs, need := h.chunks, RealSize(sz);
      var k := FirstFit(xs, need, align);
      if k < |xs| then Memalign(g, h, align, sz) == PlaceAligned(h, k, need, align)
      else if LastFree(xs) then
        !Fits(xs[|xs| - 1], need, align) && Memalign(g, h, align, sz) == GrowLast(g, h, need, align)
      else Memalign(g, h, align, sz) == AppendAligned(g, h, need, align)
  {
    hide And, RealSize, PlaceAligned, GrowLast, AppendAligned, Fits;
  }

  lemma GrownCases(h: Heap, align: nat, sz: nat)
    requires 1 <= align
    ensures var xs, need := h.chunks, RealSize(sz);
      if FirstFit(xs, need, align) < |xs| then GrownAligned(h, align, sz) == h
      else if LastFree(xs) then GrownAligned(h, align, sz) == Enlarged(h, need, align)
      else
        var room := need + MAlign(h.end + SIZE_T, align);
        var h' := Heap(xs + [Chunk(h.end, room, true)], h.end + room);
        GrownAligned(h, align, sz) == if Fits(h'.chunks[|xs|], need, align) then h' else Enlarged(h', need, align)
  {
    hide RealSize, Enlarged, Fits, MAlign;
  }

  lemma PlacedEnd(h: Heap, k: nat, need: nat, align: nat)
    requires align >= 1 && k < |h.chunks| && Fits(h.chunks[k], need, align)
    ensures PlaceAligned(h, k, need, align).heap.end == h.end
  {
  }

  lemma FreeUndoesGrowth(g: Config, h: Heap, align: nat, sz: nat)
    requires Inv(g, h) && sz <= MODULUS - NODE && IsPow2(align) && 1 <= align < MODULUS
    requires LastFree(h.chunks) && !Fits(h.chunks[|h.chunks| - 1], RealSize(sz), align)
    requires GrowLast(g, h, RealSize(sz), align).ptr != 0
    ensures var o := GrowLast(g, h, RealSize(sz), align);
      Owned(o.heap, o.ptr) && Free(o.heap, o.ptr) == Enlarged(h, RealSize(sz), align) && o.heap.end > h.end
  {
    hide RealSize, IsPow2, Pad, Inv, PlaceAligned, Free, Owned, GrowLast, Enlarged, Fits;
    var n := |h.chunks| - 1;
    LastEnds(g, h);
    GrowLastIs(g, h, RealSize(sz), align);
    EnlargedInv(g, h, align, sz);
    FreeUndoesPlaceAligned(g, Enlarged(h, RealSize(sz), align), n, align, sz);
  }

  lemma LastEnds(g: Config, h: Heap)
    requires Inv(g, h) && h.chunks != []
    ensures var c := h.chunks[|h.chunks| - 1]; c.addr + c.size == h.end && c.addr % SIZE_T == 0
  {
    hide Contig, Apart;
    ContigAt(h.chunks, |h.chunks| - 1, g.start, h.end);
  }

  lemma EnlargedInv(g: Config, h: Heap, align: nat, sz: nat)
    requires Inv(g, h) && sz <= MODULUS - NODE && IsPow2(align) && 1 <= align < MODULUS && LastFree(h.chunks)
    requires var c := h.chunks[|h.chunks| - 1]; c.addr + Pad(c.addr, align) + RealSize(sz) + GAP <= g.limit
    ensures Inv(g, Enlarged(h, RealSize(sz), align))
  {
    hide RealSize, IsPow2, Pad, Contig, Apart, Aligned, MAlign;
    var c := h.chunks[|h.chunks| - 1];
    LastEnds(g, h);
    RealSizeCovers(sz);
    PadMeaning(c.addr, align);
    GoodSum(Pad(c.addr, align), RealSize(sz));
    hide GoodSize;
    GrowKeepsInv(g, h, Pad(c.addr, align) + RealSize(sz));
  }

  lemma GoodSum(m: nat, n: nat)
    requires (m == 0 || GoodSize(m)) && GoodSize(n)
    ensures GoodSize(m + n)
  {
  }

  lemma GrowLastIs(g: Config, h: Heap, need: nat, align: nat)
    requires align >= 1 && LastFree(h.chunks) && !Fits(h.chunks[|h.chunks| - 1], need, align)
    requires GrowLast(g, h, need, align).ptr != 0
    requires var c := h.chunks[|h.chunks| - 1]; c.addr + c.size == h.end
    ensures var c, n, h' := h.chunks[|h.chunks| - 1], |h.chunks| - 1, Enlarged(h, need, align);
      && c.addr + Pad(c.addr, align) + need + GAP <= g.limit
      && h' == Heap(h.chunks[..n] + [Chunk(c.addr, Pad(c.addr, align) + need, true)],
                    c.addr + (Pad(c.addr, align) + need))
      && Fits(h'.chunks[n], need, align) && GrowLast(g, h, need, align) == PlaceAligned(h', n, need, align)
      && GrowLast(g, h, need, align).heap.end > h.end
  {
    hide Pad, CarveAligned, Splice;
  }

  lemma FreeUndoesAppend(g: Config, h: Heap, align: nat, sz: nat)
    requires Inv(g, h) && sz <= MODULUS - NODE && IsPow2(align) && 1 <= align < MODULUS && !LastFree(h.chunks)
    requires AppendAligned(g, h, RealSize(sz), align).ptr != 0
    ensures var o := AppendAligned(g, h, RealSize(sz), align);
      var room := RealSize(sz) + MAlign(h.end + SIZE_T, align);
      var h' := Heap(h.chunks + [Chunk(h.end, room, true)], h.end + room);
      && Owned(o.heap, o.ptr) && o.heap.end > h.end
      && Free(o.heap, o.ptr) ==
         if Fits(h'.chunks[|h.chunks|], RealSize(sz), align) then h' else Enlarged(h', RealSize(sz), align)
  {
    hide RealSize, IsPow2, Pad, MAlign, Contig, Apart, PlaceAligned, Free, Owned, Enlarged, GrowLast, Aligned, Fits;
    var xs, need := h.chunks, RealSize(sz);
    RealSizeCovers(sz);
    ContigWords(xs, g.start, h.end);
    PadMeaning(h.end, align);
    var room := need + MAlign(h.end + SIZE_T, align);
    if h.end + room + GAP <= g.limit {
      AppendKeepsInv(g, h, room);
      var h' := Heap(xs + [Chunk(h.end, room, true)], h.end + room);
      if Fits(h'.chunks[|xs|], need, align) {
        FreeUndoesPlaceAligned(g, h', |xs|, align, sz);
        PlacedEnd(h', |xs|, need, align);
      } else {
        FreeUndoesGrowth(g, h', align, sz);
      }
    }
  }

  // ---------------------------------------------------------------- when a sum wraps

  /** malloc keeps every heap tiled if and only if REAL_SIZE of the request does not wrap. */
  lemma MallocExact(sz: nat)
    requires sz < MODULUS
    ensures (forall g, h | Inv(g, h) :: Inv(g, Malloc(g, h, sz).heap)) <==> sz <= MODULUS - NODE
  {
    hide Inv, Malloc;
    if sz <= MODULUS - NODE {
      forall g, h | Inv(g, h) ensures Inv(g, Malloc(g, h, sz).heap) {
        MallocCorrect(g, h, sz);
        assert MallocOutcome(g, h, sz, Malloc(g, h, sz));
      }
    } else {
      var g := Config(NODE, 4 * NODE);
      TooLarge(g, sz);
    }
  }

  /** A wrapped request gets a chunk without room for a free-list entry. */
  lemma TooLarge(g: Config, sz: nat)
    requires MODULUS - NODE < sz < MODULUS && g == Config(NODE, 4 * NODE)
    ensures Inv(g, Empty(g)) && !Inv(g, Malloc(g, Empty(g), sz).heap)
  {
    hide RealSize;
    var need := RealSize(sz);
    WrappedSize(sz);
    var h := Malloc(g, Empty(g), sz).heap;
    assert h.chunks == [Chunk(NODE, need, false)];
  }

  lemma WrappedSize(sz: nat)
    requires MODULUS - NODE < sz < MODULUS
    ensures RealSize(sz) <= SIZE_T
  {
    hide MAlign;
    WordIsPower();
    MAlignMeaning(sz, SIZE_T);
    var q := (sz + MAlign(sz, SIZE_T)) / SIZE_T;
    assert sz + MAlign(sz, SIZE_T) == SIZE_T * q by { AlignedQuotient(sz + MAlign(sz, SIZE_T)); }
  }

  lemma AlignedQuotient(x: nat)
    requires Aligned(x, SIZE_T)
    ensures x == SIZE_T * (x / SIZE_T)
  {
  }

  /** For every request that is not AlignSafe there is a heap on which memalign accepts a block although padding
      and size together exceed the address space: a free chunk of two words in front of a live one. */
  lemma WrapsSomewhere(align: nat, sz: nat) returns (g: Config, h: Heap)
    requires IsPow2(align) && align < MODULUS && sz <= MODULUS - NODE && !AlignSafe(align, sz)
    ensures Inv(g, h) && MemalignCode(g, h, align, sz) == Wraps
  {
    hide RealSize, IsPow2, And, MAlign, Inv, Pad, Contig, Apart;
    PowerTest(align);
    var need := RealSize(sz);
    UnsafeBounds(align, sz);
    var p, a := WrappingPad(align, MODULUS - need);
    g, h := Config(a, a + 4 * NODE), Heap([Chunk(a, NODE, true), Chunk(a + NODE, NODE, false)], a + 2 * NODE);
    TwoChunks(g, a);
    SizeSum(need, p);
    FirstIsTaken(g, h, align, sz);
  }

  lemma UnsafeBounds(align: nat, sz: nat)
    requires IsPow2(align) && align < MODULUS && sz <= MODULUS - NODE && !AlignSafe(align, sz)
    ensures NODE <= align && 2 * align <= MODULUS && align % NODE == 0 && align >= 1
    ensures RealSize(sz) < MODULUS <= RealSize(sz) + align + SIZE_T && (MODULUS - RealSize(sz)) % SIZE_T == 0
  {
    hide RealSize, IsPow2, And;
    WordPower(align);
    HalfModulus(align);
    RealSizeCovers(sz);
    RealSizeBound(sz);
  }

  lemma FirstIsTaken(g: Config, h: Heap, align: nat, sz: nat)
    requires align >= 1 && And(align, align - 1) == 0 && h.chunks != [] && Accepts(h.chunks[0], RealSize(sz), align)
    requires RealSize(sz) + Pad(h.chunks[0].addr, align) >= MODULUS
    ensures MemalignCode(g, h, align, sz) == Wraps
  {
    hide And, Pad, RealSize, Accepts, PlaceAligned;
    assert FirstAccepted(h.chunks, RealSize(sz), align) == 0;
  }

  lemma TwoChunks(g: Config, a: nat)
    requires 0 < a && a % SIZE_T == 0 && g == Config(a, a + 4 * NODE) && g.limit < MODULUS
    ensures Inv(g, Heap([Chunk(a, NODE, true), Chunk(a + NODE, NODE, false)], a + 2 * NODE))
  {
    var xs := [Chunk(a, NODE, true), Chunk(a + NODE, NODE, false)];
    assert xs[1..] == [xs[1]];
    assert Contig([xs[1]], a + NODE, a + 2 * NODE);
  }

  /** An address whose padding, added to a size that is short of the address space by gap, wraps to 16 at most. */
  lemma WrappingPad(align: nat, gap: nat) returns (p: nat, a: nat)
    requires IsPow2(align) && NODE <= align && 2 * align <= MODULUS && align % NODE == 0
    requires 0 < gap <= align + SIZE_T && gap % SIZE_T == 0
    ensures p < MODULUS && gap <= p <= gap + NODE && Pad(a, align) == p
    ensures 0 < a && a % SIZE_T == 0 && a + 4 * NODE < MODULUS
  {
    hide Pad, IsPow2;
    var u, v := align / NODE, gap / SIZE_T;
    assert align == 16 * u && gap == 8 * v;
    if u == 1 {
      p, a := 24, 16;
      PadIs(align, a, 2, 8, 3, 8);
    } else {
      var w := if v == 1 then 2 else if v == 2 * u then v + 1 else v;
      p := 8 * w;
      a := AddressFor(align, u, w);
    }
  }

  /** An address with padding 8 * w. */
  lemma AddressFor(align: nat, u: nat, w: nat) returns (a: nat)
    requires IsPow2(align) && align == 16 * u && 2 <= u && 2 * align <= MODULUS
    requires 2 <= w <= 2 * u + 1 && w != 2 * u
    ensures Pad(a, align) == 8 * w && 0 < a && a % SIZE_T == 0 && a <= align
  {
    hide Pad, IsPow2;
    if w == 2 * u + 1 {
      a := align - NODE;
      PadIs(align, a, 1, SIZE_T, 2, align - SIZE_T);
    } else if w == 2 * u - 1 {
      a := align;
      PadIs(align, a, 2, align - SIZE_T, 2, align - NODE - SIZE_T);
    } else {
      a := 8 * (2 * u - w - 1);
      PadIs(align, a, 1, 8 * w, 1, 8 * w - NODE);
    }
  }

  /** The padding, from the multiples of align that end its two halves. */
  lemma PadIs(align: nat, a: nat, q: nat, d: nat, q': nat, d': nat)
    requires IsPow2(align) && 1 <= align < MODULUS && 0 < d < align && d' < align
    requires a + SIZE_T + d == q * align && a + NODE + SIZE_T + d' == q' * align
    ensures Pad(a, align) == NODE + d'
  {
    hide IsPow2, MAlign;
    MAlignIs(a + SIZE_T, align, q, d);
    MAlignIs(a + NODE + SIZE_T, align, q', d');
  }

  /** The code returns on every heap, and then as the layout function says, if and only if the request is
      AlignSafe: a power-of-two alignment above a word must leave a block of that size room for itself. */
  lemma MemalignExact(align: nat, sz: nat)
    requires align < MODULUS && sz <= MODULUS - NODE
    ensures (forall g, h | Inv(g, h) :: MemalignCode(g, h, align, sz) == Returns(Memalign(g, h, align, sz)))
      <==> AlignSafe(align, sz)
  {
    hide AlignSafe, MemalignCode, Memalign, Inv;
    if AlignSafe(align, sz) {
      forall g, h | Inv(g, h) ensures MemalignCode(g, h, align, sz) == Returns(Memalign(g, h, align, sz)) {
        NeverWraps(g, h, align, sz);
        CodeAgrees(g, h, align, sz);
      }
    } else {
      UnsafePower(align, sz);
      var g, h := WrapsSomewhere(align, sz);
      assert MemalignCode(g, h, align, sz) != Returns(Memalign(g, h, align, sz));
    }
  }

  lemma UnsafePower(align: nat, sz: nat)
    requires !AlignSafe(align, sz)
    ensures IsPow2(align)
  {
    PowerTest(align);
  }

  /** One such call, on the empty heap from 0x10000 to 0x20000: both sums wrap to 0 and the code hands out 2^63. */
  lemma MemalignWraps()
    ensures var g := Config(0x10000, 0x20000);
      var align, sz := 0x8000_0000_0000_0000, 0x8000_0000_0001_0000;
      && Inv(g, Empty(g)) && align < MODULUS && sz <= MODULUS - NODE
      && MemalignCode(g, Empty(g), align, sz) == Wraps && Memalign(g, Empty(g), align, sz) == Outcome(Empty(g), 0)
      && SizeAdd(RealSize(sz), MAlign(0x10000 + SIZE_T, align)) == 0
      && SizeAdd(RealSize(sz), Pad(0x10000, align)) == 0
      && 0x10000 + Pad(0x10000, align) + SIZE_T == align
  {
    hide IsPow2, And, MAlign, Pad, RealSize, Memalign, MemalignCode;
    var g := Config(0x10000, 0x20000);
    var need := 0x8000_0000_0001_0008;
    TopBit();
    TopPad();
    WordIsPower();
    MAlignIs(0x8000_0000_0001_0000, SIZE_T, 0x1000_0000_0000_2000, 0);
    RealSizeOf(0x8000_0000_0001_0000);
    PowerTest(0x8000_0000_0000_0000);
    OnEmpty(g, 0x8000_0000_0000_0000, 0x8000_0000_0001_0000);
    assert Contig([], 0x10000, 0x10000);
  }

  lemma TopPad()
    ensures MAlign(0x10000 + SIZE_T, 0x8000_0000_0000_0000) == 0x7FFF_FFFF_FFFE_FFF8
    ensures Pad(0x10000, 0x8000_0000_0000_0000) == 0x7FFF_FFFF_FFFE_FFF8
  {
    hide IsPow2, MAlign;
    TopBit();
    MAlignIs(0x10000 + SIZE_T, 0x8000_0000_0000_0000, 1, 0x7FFF_FFFF_FFFE_FFF8);
    MAlignIs(0x10000 + NODE + SIZE_T, 0x8000_0000_0000_0000, 1, 0x7FFF_FFFF_FFFE_FFE8);
  }

  lemma RealSizeOf(sz: nat)
    requires sz >= NODE && MAlign(sz, SIZE_T) == 0 && sz + SIZE_T < MODULUS
    ensures RealSize(sz) == sz + SIZE_T
  {
    hide MAlign;
  }

  lemma OnEmpty(g: Config, align: nat, sz: nat)
    requires align >= 1 && And(align, align - 1) == 0
    ensures MemalignCode(g, Empty(g), align, sz) == AppendCode(g, Empty(g), RealSize(sz), align)
    ensures Memalign(g, Empty(g), align, sz) == AppendAligned(g, Empty(g), RealSize(sz), align)
  {
    hide And, RealSize, AppendCode, AppendAligned;
  }

  lemma TopBit()
    ensures IsPow2(0x8000_0000_0000_0000)
  {
    Pow2Of64();
    assert Pow2(64) == 2 * Pow2(63);
  }

  lemma WordIsPower()
    ensures IsPow2(SIZE_T)
  {
    assert Pow2(3) == SIZE_T;
  }

  /** calloc's block has room for n elements exactly when their total size does not wrap. */
  lemma CallocRoom(g: Config, h: Heap, n: nat, elemsize: nat)
    requires var sz := n * elemsize % MODULUS; Inv(g, h) && sz <= MODULUS - NODE && Malloc(g, h, sz).ptr != 0
    ensures var o := Malloc(g, h, n * elemsize % MODULUS);
      && Owned(o.heap, o.ptr)
      && var size := o.heap.chunks[IndexOf(o.heap.chunks, o.ptr - SIZE_T)].size;
         size >= n * elemsize + SIZE_T <==> n * elemsize < MODULUS
  {
    hide Malloc, RealSize, Contig, Apart, LiveSet, Inv, Owned;
    var o := Malloc(g, h, n * elemsize % MODULUS);
    var c := MallocChunk(g, h, n * elemsize % MODULUS);
    SizesBound(g, o.heap);
    RoomIff(n * elemsize, c.size);
  }

  lemma RoomIff(total: nat, size: nat)
    requires total % MODULUS + SIZE_T <= size < MODULUS
    ensures size >= total + SIZE_T <==> total < MODULUS
  {
  }

  /** The chunk a successful malloc hands out. */
  lemma MallocChunk(g: Config, h: Heap, sz: nat) returns (c: Chunk)
    requires Inv(g, h) && sz <= MODULUS - NODE && Malloc(g, h, sz).ptr != 0
    ensures var o := Malloc(g, h, sz);
      && Inv(g, o.heap) && Owned(o.heap, o.ptr) && sz + SIZE_T <= c.size && c in o.heap.chunks
      && o.heap.chunks[IndexOf(o.heap.chunks, o.ptr - SIZE_T)] == c
  {
    hide Malloc, RealSize, Contig, Apart, LiveSet, Owned;
    var o := Malloc(g, h, sz);
    MallocCorrect(g, h, sz);
    assert MallocOutcome(g, h, sz, o);
    c :| Allocated(h, o.heap, o.ptr, sz, c) && c.size < RealSize(sz) + NODE;
    LiveMember(h, o.heap, c);
    InLive(o.heap.chunks, c);
    OwnedMeans(g, o.heap, o.ptr, c);
  }

  lemma InLive(xs: seq<Chunk>, c: Chunk)
    requires c in xs && !c.free
    ensures c in LiveSet(xs)
  {
  }

  lemma LiveMember(h: Heap, h': Heap, c: Chunk)
    requires LiveSet(h'.chunks) == LiveSet(h.chunks) + {c}
    ensures c in h'.chunks && !c.free
  {
    assert c in LiveSet(h'.chunks);
  }

  // ---------------------------------------------------------------- what fixes a layout

  /** Two layouts of the same bytes with the same live chunks are the same: the free chunks are the gaps. */
  lemma LayoutUnique(g: Config, h: Heap, h': Heap)
    requires Inv(g, h) && Inv(g, h') && h.end == h'.end && LiveSet(h.chunks) == LiveSet(h'.chunks)
    ensures h == h'
  {
    GapsUnique(h.chunks, h'.chunks, g.start, h.end);
  }

  lemma {:induction false} GapsUnique(xs: seq<Chunk>, ys: seq<Chunk>, a: nat, b: nat)
    requires Contig(xs, a, b) && Contig(ys, a, b) && Apart(xs) && Apart(ys) && LiveSet(xs) == LiveSet(ys)
    ensures xs == ys
  {
    hide LiveSet, Apart;
    if xs == [] {
      if ys != [] { ContigBounds(ys[1..], a + ys[0].size, b); }
    } else if ys == [] {
      ContigBounds(xs[1..], a + xs[0].size, b);
    } else {
      SameHead(xs, ys, a, b);
      LiveTail(xs, a, b);
      LiveTail(ys, a, b);
      ApartTail(xs);
      ApartTail(ys);
      GapsUnique(xs[1..], ys[1..], a + xs[0].size, b);
    }
  }

  lemma ApartTail(xs: seq<Chunk>)
    requires Apart(xs) && xs != []
    ensures Apart(xs[1..])
  {
    var ys := xs[1..];
    forall i | 0 <= i < |ys| - 1 ensures !(ys[i].free && ys[i + 1].free) {
      assert ys[i] == xs[i + 1] && ys[i + 1] == xs[i + 2];
    }
  }

  lemma LiveTail(xs: seq<Chunk>, a: nat, b: nat)
    requires Contig(xs, a, b) && xs != []
    ensures LiveSet(xs[1..]) == LiveSet(xs) - {xs[0]}
  {
    hide Contig;
    forall c | c in xs[1..] ensures c != xs[0] && c in xs {
      var i :| 0 <= i < |xs[1..]| && xs[1..][i] == c;
      Ordered(xs, 0, i + 1, a, b);
      ContigAt(xs, 0, a, b);
    }
    assert xs == [xs[0]] + xs[1..];
  }

  lemma SameHead(xs: seq<Chunk>, ys: seq<Chunk>, a: nat, b: nat)
    requires Contig(xs, a, b) && Contig(ys, a, b) && Apart(xs) && Apart(ys) && LiveSet(xs) == LiveSet(ys)
    requires xs != [] && ys != []
    ensures xs[0] == ys[0]
  {
    hide Contig;
    ContigAt(xs, 0, a, b);
    ContigAt(ys, 0, a, b);
    if !xs[0].free {
      LiveHead(xs, ys, a, b);
    } else if !ys[0].free {
      LiveHead(ys, xs, a, b);
    } else {
      GapEnds(xs, ys, a, b);
      GapEnds(ys, xs, a, b);
    }
  }

  lemma LiveHead(xs: seq<Chunk>, ys: seq<Chunk>, a: nat, b: nat)
    requires Contig(xs, a, b) && Contig(ys, a, b) && LiveSet(xs) == LiveSet(ys) && xs != [] && ys != [] && !xs[0].free
    ensures xs[0] == ys[0]
  {
    hide Contig;
    ContigAt(xs, 0, a, b);
    ContigAt(ys, 0, a, b);
    assert xs[0] in LiveSet(xs) && xs[0] in ys;
    var j :| 0 <= j < |ys| && ys[j] == xs[0];
    if j > 0 { Ordered(ys, 0, j, a, b); }
  }

  /** A leading gap ends where the next live chunk starts. */
  lemma GapEnds(xs: seq<Chunk>, ys: seq<Chunk>, a: nat, b: nat)
    requires Contig(xs, a, b) && Contig(ys, a, b) && Apart(xs) && LiveSet(xs) == LiveSet(ys)
    requires xs != [] && ys != [] && xs[0].free && ys[0].free
    ensures xs[0].size >= ys[0].size
  {
    hide Contig;
    ContigAt(xs, 0, a, b);
    ContigAt(ys, 0, a, b);
    if |xs| > 1 {
      ContigAt(xs, 1, a, b);
      assert xs[1] in LiveSet(xs) && xs[1] in ys;
      var j :| 0 <= j < |ys| && ys[j] == xs[1];
      if j > 0 { Ordered(ys, 0, j, a, b); }
    }
  }

  // ---------------------------------------------------------------- accounting

  /** Free and live bytes together are the whole arena: mallinfo's uordblks, computed as arena
      minus the free list's total, is the total size of the live chunks. */
  lemma {:induction false} Accounting(xs: seq<Chunk>, a: nat, b: nat)
    requires Contig(xs, a, b)
    ensures Total(xs, true) + Total(xs, false) == b - a
  {
    if xs != [] { Accounting(xs[1..], a + xs[0].size, b); }
  }

  // ---------------------------------------------------------------- whole runs

  datatype Call =
    | CallMalloc(sz: nat)
    | CallFree(p: nat)
    | CallRealloc(p: nat, sz: nat)
    | CallMemalign(align: nat, sz: nat)

  /** What a caller must respect: free and realloc get null or a live pointer, sizes do not wrap. */
  ghost predicate Allowed(h: Heap, c: Call)
  {
    match c
    case CallMalloc(sz) => sz <= MODULUS - NODE
    case CallFree(p) => p == 0 || Owned(h, p)
    case CallRealloc(p, sz) => (p == 0 || Owned(h, p)) && sz <= MODULUS - NODE
    case CallMemalign(align, sz) => align < MODULUS && sz <= MODULUS - NODE && AlignSafe(align, sz)
  }

  ghost function Do(g: Config, h: Heap, c: Call): Heap
    requires Inv(g, h) && Allowed(h, c)
  {
    match c
    case CallMalloc(sz) => Malloc(g, h, sz).heap
    case CallFree(p) => Free(h, p)
    case CallRealloc(p, sz) => Realloc(g, h, p, sz).heap
    case CallMemalign(align, sz) =>
      NeverWraps(g, h, align, sz);
      MemalignCode(g, h, align, sz).o.heap
  }

  /** hs[0], hs[1], ... are the heaps of a run that starts empty and makes the given calls. */
  ghost predicate IsRun(g: Config, hs: seq<Heap>, calls: seq<Call>)
  {
    && |hs| == |calls| + 1 && hs[0] == Empty(g)
    && forall i | 0 <= i < |calls| ::
         Inv(g, hs[i]) ==> Allowed(hs[i], calls[i]) && hs[i + 1] == Do(g, hs[i], calls[i])
  }

  lemma DoKeepsInv(g: Config, h: Heap, c: Call)
    requires Inv(g, h) && Allowed(h, c)
    ensures Inv(g, Do(g, h, c))
  {
    match c
    case CallMalloc(sz) => MallocCorrect(g, h, sz); assert MallocOutcome(g, h, sz, Malloc(g, h, sz));
    case CallFree(p) =>
      if p != 0 { FreeCorrect(g, h, p, h.chunks[IndexOf(h.chunks, p - SIZE_T)]); }
    case CallRealloc(p, sz) =>
      if p == 0 { MallocCorrect(g, h, sz); assert MallocOutcome(g, h, sz, Malloc(g, h, sz)); }
      else { ReallocCorrect(g, h, p, sz); }
    case CallMemalign(align, sz) =>
      NeverWraps(g, h, align, sz);
      if align >= 1 {
        MemalignCorrect(g, h, align, sz);
        assert MemalignOutcome(g, h, align, sz, MemalignCode(g, h, align, sz).o);
      }
  }

  /** In every heap a run reaches, free and live chunks tile the bytes from start to end, no two
      free chunks touch, and every chunk has a legal size. */
  lemma {:induction false} RunsKeepInv(g: Config, hs: seq<Heap>, calls: seq<Call>, n: nat)
    requires GoodConfig(g) && IsRun(g, hs, calls) && n <= |calls|
    ensures Inv(g, hs[n])
  {
    if n > 0 {
      RunsKeepInv(g, hs, calls, n - 1);
      DoKeepsInv(g, hs[n - 1], calls[n - 1]);
    }
  }
}
