/** What each way a routine of tiny-malloc.c can end does to memory: one lemma for each ending, about
    the headers, links and payloads it leaves, and the layout they stand for. The class in module
    Allocator calls them. */
module TinyMalloc {
  import opened Words
  import opened Memory
  import opened HeapLayout
  import opened FreeList

  ghost function Head(loc: nat, v: nat, fl: nat): nat { if loc == 0 then v else fl }

  /** Replacing chunks i..j of a represented heap, with the link in front set to v. */
  lemma Rebuild(g: Config, h: Heap, m: seq<Byte>, fl: nat, h': Heap, m': seq<Byte>,
                i: nat, j: nat, mid: seq<Chunk>, v: nat)
    requires Rep(g, h, m, fl) && Inv(g, h') && |m'| == |m| && v < MODULUS
    requires i <= j <= |h.chunks| && h'.chunks == Splice(h.chunks, i, j, mid)
    requires j < |h.chunks| ==> h'.end == h.end
    requires var xs := h.chunks; var a, b := After(xs, i, h.end), After(xs, j, h'.end);
      && a <= b <= |m| && Contig(mid, a, b) && v == First(mid, First(xs[j..], 0))
      && Seg(m', mid, First(xs[j..], 0))
      && Loc(xs[..i]) + SIZE_T <= |m|
      && var m0 := Patch(m, Loc(xs[..i]), v); m'[..a] == m0[..a] && m'[b..] == m0[b..]
    ensures Rep(g, h', m', Head(Loc(h.chunks[..i]), v, fl))
    ensures Keeps(m, m', h.chunks[..i]) && Keeps(m, m', h.chunks[j..])
  {
    hide Contig, Seg, Inv, Loc, Patch, Keeps, GoodConfig, First;
    var xs := h.chunks;
    var a, b := After(xs, i, h.end), After(xs, j, h'.end);
    RepWords(g, h, m, fl);
    PatchBelow(m, xs, i, v, g.start, h.end);
    SuffixSame(Patch(m, Loc(xs[..i]), v), m, a, b);
    Refit(g, h, m, fl, h', m', Head(Loc(xs[..i]), v, fl), i, j, mid);
  }

  /** When the first free chunk from i on stays the same, the link in front need not be written. */
  lemma LinkSame(g: Config, h: Heap, m: seq<Byte>, fl: nat, i: nat)
    requires Rep(g, h, m, fl) && i <= |h.chunks|
    ensures var xs := h.chunks; var loc, v := Loc(xs[..i]), First(xs[i..], 0);
      && loc + SIZE_T <= |m| && v < MODULUS && Patch(m, loc, v) == m && Head(loc, v, fl) == fl
      && (loc != 0 ==> Load(m, loc) == v) && (loc == 0 ==> fl == v)
  {
    hide Contig, Seg;
    var xs := h.chunks;
    RepWords(g, h, m, fl);
    LinkValue(m, xs, i, 0, g.start, h.end);
    PatchBelow(m, xs, i, 0, g.start, h.end);
    var k := NextFree(xs, i, g.start, h.end);
    if k < |xs| { RepAt(g, h, m, fl, k); }
    if Loc(xs[..i]) != 0 { StoreLoad(m, Loc(xs[..i])); }
  }

  // ---------------------------------------------------------------- malloc's four endings

  /** Free chunk k is split into a live front and a free rest, which takes its place on the list. */
  lemma SplitFront(g: Config, h: Heap, m: seq<Byte>, fl: nat, k: nat, need: nat)
    requires Rep(g, h, m, fl) && k < |h.chunks| && h.chunks[k].free
    requires GoodSize(need) && need + NODE <= h.chunks[k].size
    ensures var xs := h.chunks; var c := xs[k]; var rest := c.addr + need;
      var loc := Loc(xs[..k]);
      && loc + SIZE_T <= |m| && c.addr + c.size <= |m|
      && var m1 := Store(Patch(m, loc, rest), rest, c.size - need);
         var m2 := Store(Store(m1, rest + SIZE_T, Load(m, c.addr + SIZE_T)), c.addr, need);
         var h' := Heap(Splice(xs, k, k + 1, [Chunk(c.addr, need, false), Chunk(rest, c.size - need, true)]), h.end);
         Rep(g, h', m2, Head(loc, rest, fl)) && Keeps(m, m2, xs)
  {
    hide Contig, Seg, Inv, Loc, Patch, Keeps, GoodConfig, Store, Load, First;
    var xs, c := h.chunks, h.chunks[k];
    var rest, loc := c.addr + need, Loc(xs[..k]);
    var live, free := Chunk(c.addr, need, false), Chunk(rest, c.size - need, true);
    var t := First(xs[k + 1..], 0);
    RepAt(g, h, m, fl, k);
    LinkSame(g, h, m, fl, k);
    var m0 := Patch(m, loc, rest);
    SplitMemory(m0, c, need, t);
    SplitInv(g, h, k, live, free);
    FirstOfTwo(live, free, t);
    var m3 := Store(Store(Store(m0, rest, c.size - need), rest + SIZE_T, t), c.addr, need);
    Rebuild(g, h, m, fl, Heap(Splice(xs, k, k + 1, [live, free]), h.end), m3, k, k + 1, [live, free], rest);
    KeepsAround(m, m3, xs, k);
  }

  /** Free chunk k is handed out whole: it is only unlinked. */
  lemma TakeWhole(g: Config, h: Heap, m: seq<Byte>, fl: nat, k: nat)
    requires Rep(g, h, m, fl) && k < |h.chunks| && h.chunks[k].free
    ensures var xs := h.chunks; var c := xs[k]; var loc := Loc(xs[..k]);
      && loc + SIZE_T <= |m| && c.addr + NODE <= |m|
      && var next := Load(m, c.addr + SIZE_T);
         var h' := Heap(Splice(xs, k, k + 1, [Chunk(c.addr, c.size, false)]), h.end);
         var m' := Patch(m, loc, next);
         Rep(g, h', m', Head(loc, next, fl)) && Keeps(m, m', xs)
  {
    hide Contig, Inv, Loc, Patch, Keeps, GoodConfig, Store, Load;
    var xs, c := h.chunks, h.chunks[k];
    var live, t, loc := Chunk(c.addr, c.size, false), First(xs[k + 1..], 0), Loc(xs[..k]);
    RepAt(g, h, m, fl, k);
    RepWords(g, h, m, fl);
    LinkSame(g, h, m, fl, k);
    PatchBelow(m, xs, k, t, g.start, h.end);
    var m' := Patch(m, loc, t);
    LoadSame(m, m', c.addr, c.addr);
    ContigOne(live);
    OneApart(live);
    ReplaceKeepsInv(g, h, k, [live]);
    Rebuild(g, h, m, fl, Heap(Splice(xs, k, k + 1, [live]), h.end), m', k, k + 1, [live], t);
    KeepsAround(m, m', xs, k);
  }

  lemma LoadSame(m: seq<Byte>, m': seq<Byte>, a: nat, x: nat)
    requires |m| == |m'| && a <= x && x + SIZE_T <= |m| && m[a..] == m'[a..]
    ensures Load(m, x) == Load(m', x)
  {
    assert m[a..] == m[a..|m|] && m'[a..] == m'[a..|m|];
    SubRange(m, m', a, |m|, x, x + SIZE_T);
  }

  /** The last chunk, free and touching the end, is enlarged to need bytes and handed out. */
  lemma GrowTake(g: Config, h: Heap, m: seq<Byte>, fl: nat, need: nat)
    requires Rep(g, h, m, fl) && LastFree(h.chunks) && GoodSize(need)
    requires h.chunks[|h.chunks| - 1].addr + need + GAP <= g.limit
    requires need >= h.chunks[|h.chunks| - 1].size
    ensures var xs := h.chunks; var n := |xs| - 1; var c := xs[n]; var loc := Loc(xs[..n]);
      && loc + SIZE_T <= |m| && c.addr + NODE <= |m|
      && var m' := Store(Patch(m, loc, 0), c.addr, need);
         var h' := Heap(xs[..n] + [Chunk(c.addr, need, false)], c.addr + need);
         Rep(g, h', m', Head(loc, 0, fl)) && Keeps(m, m', xs)
  {
    hide Contig, Inv, Loc, Patch, Keeps, GoodConfig, Store, Load;
    var xs, n := h.chunks, |h.chunks| - 1;
    var c := xs[n];
    var live, loc := Chunk(c.addr, need, false), Loc(xs[..n]);
    var h' := Heap(xs[..n] + [live], c.addr + need);
    RepAt(g, h, m, fl, n);
    RepWords(g, h, m, fl);
    LinkSame(g, h, m, fl, n);
    GrowLiveInv(g, h, need);
    ContigOne(live);
    assert h'.chunks == Splice(xs, n, n + 1, [live]);
    var m0 := Patch(m, loc, 0);
    StoreInside(m0, c.addr, need, c.addr, c.addr + need);
    var m' := Store(m0, c.addr, need);
    Rebuild(g, h, m, fl, h', m', n, n + 1, [live], 0);
    KeepsAround(m, m', xs, n);
  }

  lemma GrowLiveInv(g: Config, h: Heap, need: nat)
    requires Inv(g, h) && LastFree(h.chunks) && GoodSize(need)
    requires h.chunks[|h.chunks| - 1].addr + need + GAP <= g.limit
    ensures var n := |h.chunks| - 1; var a := h.chunks[n].addr;
      Inv(g, Heap(h.chunks[..n] + [Chunk(a, need, false)], a + need))
  {
    hide Contig, Apart, GoodConfig;
    var xs, n := h.chunks, |h.chunks| - 1;
    var a := xs[n].addr;
    GrowKeepsInv(g, h, need);
    var grown := Heap(xs[..n] + [Chunk(a, need, true)], a + need);
    ContigOne(Chunk(a, need, false));
    OneApart(Chunk(a, need, false));
    ReplaceKeepsInv(g, grown, n, [Chunk(a, need, false)]);
    assert Splice(grown.chunks, n, n + 1, [Chunk(a, need, false)]) == xs[..n] + [Chunk(a, need, false)];
  }

  /** A new live chunk at the end of the heap: only its size word is written. */
  lemma AppendLive(g: Config, h: Heap, m: seq<Byte>, fl: nat, need: nat)
    requires Rep(g, h, m, fl) && !LastFree(h.chunks) && GoodSize(need) && h.end + need + GAP <= g.limit
    ensures var xs := h.chunks; var c := Chunk(h.end, need, false);
      && h.end + SIZE_T <= |m|
      && var m' := Store(m, h.end, need);
         Rep(g, Heap(xs + [c], h.end + need), m', fl) && Keeps(m, m', xs)
  {
    hide Contig, Inv, Loc, Patch, Keeps, GoodConfig, Store, Load;
    var xs, n, c := h.chunks, |h.chunks|, Chunk(h.end, need, false);
    RepWords(g, h, m, fl);
    LinkSame(g, h, m, fl, n);
    AppendLiveInv(g, h, need);
    ContigOne(c);
    assert xs + [c] == Splice(xs, n, n, [c]);
    StoreInside(m, h.end, need, h.end, h.end + need);
    var m' := Store(m, h.end, need);
    Rebuild(g, h, m, fl, Heap(xs + [c], h.end + need), m', n, n, [c], 0);
    assert xs[..n] == xs;
  }

  lemma AppendLiveInv(g: Config, h: Heap, need: nat)
    requires Inv(g, h) && !LastFree(h.chunks) && GoodSize(need) && h.end + need + GAP <= g.limit
    ensures Inv(g, Heap(h.chunks + [Chunk(h.end, need, false)], h.end + need))
  {
    hide Contig, Apart, GoodConfig;
    AppendKeepsInv(g, h, need);
    var n, c := |h.chunks|, Chunk(h.end, need, false);
    var grown := Heap(h.chunks + [Chunk(h.end, need, true)], h.end + need);
    ContigOne(c);
    OneApart(c);
    ReplaceKeepsInv(g, grown, n, [c]);
    assert Splice(grown.chunks, n, n + 1, [c]) == h.chunks + [c];
  }

  // ---------------------------------------------------------------- free's four endings

  ghost predicate Freed(g: Config, h: Heap, m: seq<Byte>, k: nat, m': seq<Byte>, fl': nat)
    requires k < |h.chunks|
  {
    var h' := Heap(Release(h.chunks, k), h.end);
    Rep(g, h', m', fl') && Keeps(m, m', h'.chunks)
  }

  /** The chunk below is free: it absorbs the freed one. */
  lemma MergeLeft(g: Config, h: Heap, m: seq<Byte>, fl: nat, k: nat)
    requires Rep(g, h, m, fl) && 0 < k < |h.chunks| && h.chunks[k - 1].free && !h.chunks[k].free
    requires k + 1 < |h.chunks| ==> !h.chunks[k + 1].free
    ensures var a, size := h.chunks[k - 1].addr, h.chunks[k - 1].size + h.chunks[k].size;
      a + SIZE_T <= |m| && Freed(g, h, m, k, Store(m, a, size), fl)
  {
    hide Contig, Inv, Loc, Patch, Keeps, GoodConfig, Store, Load;
    var xs, c := h.chunks, Merged(h.chunks, k);
    RepAt(g, h, m, fl, k - 1);
    RepAt(g, h, m, fl, k);
    assert xs[k..][0] == xs[k] && xs[k..][1..] == xs[k + 1..];
    StoreInside(m, c.addr, c.size, c.addr, c.addr + c.size);
    var m' := Store(m, c.addr, c.size);
    LoadAfterStore(m, c.addr, c.size, c.addr + SIZE_T);
    FreedUnlinked(g, h, m, fl, k, m');
  }

  /** Both neighbours are free: all three become one, and the upper one leaves the list. */
  lemma MergeBoth(g: Config, h: Heap, m: seq<Byte>, fl: nat, k: nat)
    requires Rep(g, h, m, fl) && 0 < k < |h.chunks| - 1 && !h.chunks[k].free
    requires h.chunks[k - 1].free && h.chunks[k + 1].free
    ensures var xs := h.chunks; var a := xs[k - 1].addr;
      && a + NODE <= |m| && xs[k + 1].addr + NODE <= |m|
      && var m1 := Store(m, a, xs[k - 1].size + xs[k].size);
         var m2 := Store(m1, a, xs[k - 1].size + xs[k].size + Load(m1, xs[k + 1].addr));
         Load(m1, xs[k + 1].addr) == xs[k + 1].size && Load(m2, xs[k + 1].addr + SIZE_T) < MODULUS &&
         Freed(g, h, m, k, Store(m2, a + SIZE_T, Load(m2, xs[k + 1].addr + SIZE_T)), fl)
  {
    hide Contig, Inv, Loc, Patch, Keeps, GoodConfig, Store, Load;
    var xs, c := h.chunks, Merged(h.chunks, k);
    var t := First(xs[k + 2..], 0);
    RepAt(g, h, m, fl, k - 1);
    RepAt(g, h, m, fl, k);
    RepAt(g, h, m, fl, k + 1);
    var a, b := c.addr, c.addr + c.size;
    StoreInside(m, a, xs[k - 1].size + xs[k].size, a, b);
    var m1 := Store(m, a, xs[k - 1].size + xs[k].size);
    StoreInside(m1, a, c.size, a, b);
    var m2 := Store(m1, a, c.size);
    LoadAfterStore(m, a, xs[k - 1].size + xs[k].size, xs[k + 1].addr);
    LoadAfterStore(m, a, xs[k - 1].size + xs[k].size, xs[k + 1].addr + SIZE_T);
    LoadAfterStore(m1, a, c.size, xs[k + 1].addr + SIZE_T);
    StoreInside(m2, a + SIZE_T, t, a, b);
    LoadAfterStore(m2, a + SIZE_T, t, a);
    FreedUnlinked(g, h, m, fl, k, Store(m2, a + SIZE_T, t));
  }

  /** When the chunk below was already on the list, only that chunk's words change. */
  lemma FreedUnlinked(g: Config, h: Heap, m: seq<Byte>, fl: nat, k: nat, m': seq<Byte>)
    requires Rep(g, h, m, fl) && k < |h.chunks| && !h.chunks[k].free && MergeFrom(h.chunks, k) < k
    requires var c, j := Merged(h.chunks, k), MergeTo(h.chunks, k);
      && |m'| == |m| && c.addr + NODE <= |m| && c.addr + c.size <= |m|
      && m'[..c.addr] == m[..c.addr] && m'[c.addr + c.size..] == m[c.addr + c.size..]
      && Load(m', c.addr) == c.size && Load(m', c.addr + SIZE_T) == First(h.chunks[j..], 0)
    ensures Freed(g, h, m, k, m', fl)
  {
    hide Contig, Inv, Loc, Patch, Keeps, GoodConfig, Load, Apart, Release;
    var xs, i, j, c := h.chunks, MergeFrom(h.chunks, k), MergeTo(h.chunks, k), Merged(h.chunks, k);
    RepWords(g, h, m, fl);
    MergedSpan(xs, k, g.start, h.end);
    ReleaseInv(g, h, k);
    ContigOne(c);
    LinkSame(g, h, m, fl, i);
    RepAt(g, h, m, fl, i);
    assert xs[i..][0] == xs[i];
    SegOne(m', c, First(xs[j..], 0));
    ReleaseIs(xs, k);
    var h' := Heap(Release(xs, k), h.end);
    Rebuild(g, h, m, fl, h', m', i, j, [c], c.addr);
    KeepsSpliced(m, m', xs, i, j, c);
  }

  lemma ReleaseIs(xs: seq<Chunk>, k: nat)
    requires k < |xs|
    ensures Release(xs, k) == Splice(xs, MergeFrom(xs, k), MergeTo(xs, k), [Merged(xs, k)])
    ensures Merged(xs, k).free
  {
  }

  lemma SegOne(m: seq<Byte>, c: Chunk, t: nat)
    requires c.addr + NODE <= |m| && Load(m, c.addr) == c.size
    requires c.free ==> Load(m, c.addr + SIZE_T) == t
    ensures Seg(m, [c], t) && First([c], t) == if c.free then c.addr else t
  {
  }

  lemma KeepsSpliced(m: seq<Byte>, m': seq<Byte>, xs: seq<Chunk>, i: nat, j: nat, c: Chunk)
    requires i <= j <= |xs| && c.free && Keeps(m, m', xs[..i]) && Keeps(m, m', xs[j..])
    ensures Keeps(m, m', Splice(xs, i, j, [c]))
  {
  }

  lemma LoadAfterStore(m: seq<Byte>, x: nat, v: nat, y: nat)
    requires x + SIZE_T <= |m| && y + SIZE_T <= |m| && (y + SIZE_T <= x || x + SIZE_T <= y)
    ensures Load(Store(m, x, v), y) == Load(m, y)
  {
    StoreElsewhere(m, x, Encode(v, SIZE_T), y, y + SIZE_T);
  }

  /** The freed chunk goes on the list itself, first absorbing a free chunk right above it. */
  lemma FreedLinked(g: Config, h: Heap, m: seq<Byte>, fl: nat, k: nat, m1: seq<Byte>)
    requires Rep(g, h, m, fl) && k < |h.chunks| && !h.chunks[k].free && MergeFrom(h.chunks, k) == k
    requires var c, j := Merged(h.chunks, k), MergeTo(h.chunks, k);
      && |m1| == |m| && c.addr + NODE <= |m| && c.addr + c.size <= |m|
      && m1[..c.addr] == m[..c.addr] && m1[c.addr + c.size..] == m[c.addr + c.size..]
      && Load(m1, c.addr) == c.size && Load(m1, c.addr + SIZE_T) == First(h.chunks[j..], 0)
    ensures var loc := Loc(h.chunks[..k]); var a := h.chunks[k].addr;
      loc + SIZE_T <= |m| && Freed(g, h, m, k, Patch(m1, loc, a), Head(loc, a, fl))
  {
    hide Contig, Inv, Loc, Patch, Keeps, GoodConfig, Load, Apart, Release;
    var xs, j, c := h.chunks, MergeTo(h.chunks, k), Merged(h.chunks, k);
    var loc := Loc(xs[..k]);
    RepWords(g, h, m, fl);
    RepAt(g, h, m, fl, k);
    MergedSpan(xs, k, g.start, h.end);
    ReleaseInv(g, h, k);
    ContigOne(c);
    LinkSame(g, h, m, fl, k);
    LocBelow(xs, k, g.start, h.end);
    PatchLate(m, m1, loc, c.addr, c.addr);
    var m' := Patch(m1, loc, c.addr);
    LoadSame(m1, m', c.addr, c.addr);
    LoadSame(m1, m', c.addr, c.addr + SIZE_T);
    SuffixSame(m', m1, c.addr, c.addr + c.size);
    PatchBelow(m, xs, k, c.addr, g.start, h.end);
    SuffixSame(Patch(m, loc, c.addr), m, c.addr, c.addr + c.size);
    SegOne(m', c, First(xs[j..], 0));
    ReleaseIs(xs, k);
    Rebuild(g, h, m, fl, Heap(Release(xs, k), h.end), m', k, j, [c], c.addr);
    KeepsSpliced(m, m', xs, k, j, c);
  }

  lemma LocBelow(xs: seq<Chunk>, k: nat, a: nat, b: nat)
    requires Contig(xs, a, b) && k < |xs|
    ensures Loc(xs[..k]) == 0 || Loc(xs[..k]) + SIZE_T <= xs[k].addr
  {
    ContigSplit(xs, k, a, b);
    LocBounds(xs[..k], a, xs[k].addr);
  }

  lemma PatchLate(m: seq<Byte>, m1: seq<Byte>, loc: nat, v: nat, a: nat)
    requires |m| == |m1| && a <= |m| && m1[..a] == m[..a]
    requires loc + SIZE_T <= |m| && (loc == 0 || loc + SIZE_T <= a)
    ensures Patch(m1, loc, v)[..a] == Patch(m, loc, v)[..a] && Patch(m1, loc, v)[a..] == m1[a..]
  {
    if loc != 0 {
      var e := Encode(v, SIZE_T);
      forall i | 0 <= i < a
        ensures StoreBytes(m1, loc, e)[i] == StoreBytes(m, loc, e)[i]
      {
        assert m1[..a][i] == m[..a][i];
      }
    }
  }

  /** The chunk above is free, the one below is not. */
  lemma MergeRight(g: Config, h: Heap, m: seq<Byte>, fl: nat, k: nat)
    requires Rep(g, h, m, fl) && k < |h.chunks| - 1 && !h.chunks[k].free
    requires h.chunks[k + 1].free && (k > 0 ==> !h.chunks[k - 1].free)
    ensures var xs := h.chunks; var c := xs[k]; var loc := Loc(xs[..k]);
      && c.addr + NODE <= |m| && xs[k + 1].addr + NODE <= |m| && loc + SIZE_T <= |m|
      && var m1 := Store(m, c.addr, c.size + xs[k + 1].size);
         var m2 := Store(m1, c.addr + SIZE_T, Load(m1, xs[k + 1].addr + SIZE_T));
         Freed(g, h, m, k, Patch(m2, loc, c.addr), Head(loc, c.addr, fl))
  {
    hide Contig, Inv, Loc, Patch, Keeps, GoodConfig, Store, Load;
    var xs, c := h.chunks, Merged(h.chunks, k);
    var t := First(xs[k + 2..], 0);
    RepAt(g, h, m, fl, k);
    RepAt(g, h, m, fl, k + 1);
    var a, b := c.addr, c.addr + c.size;
    StoreInside(m, a, c.size, a, b);
    var m1 := Store(m, a, c.size);
    LoadAfterStore(m, a, c.size, xs[k + 1].addr + SIZE_T);
    StoreInside(m1, a + SIZE_T, t, a, b);
    LoadAfterStore(m1, a + SIZE_T, t, a);
    FreedLinked(g, h, m, fl, k, Store(m1, a + SIZE_T, t));
  }

  /** Neither neighbour is free. */
  lemma InsertFreed(g: Config, h: Heap, m: seq<Byte>, fl: nat, k: nat)
    requires Rep(g, h, m, fl) && k < |h.chunks| && !h.chunks[k].free
    requires (k + 1 < |h.chunks| ==> !h.chunks[k + 1].free) && (k > 0 ==> !h.chunks[k - 1].free)
    ensures var xs := h.chunks; var c := xs[k]; var loc := Loc(xs[..k]);
      && c.addr + NODE <= |m| && loc + SIZE_T <= |m|
      && Freed(g, h, m, k, Patch(Store(m, c.addr + SIZE_T, First(xs[k..], 0)), loc, c.addr), Head(loc, c.addr, fl))
  {
    hide Contig, Inv, Loc, Patch, Keeps, GoodConfig, Store, Load;
    var xs, c := h.chunks, Merged(h.chunks, k);
    var t := First(xs[k + 1..], 0);
    assert xs[k..][0] == xs[k] && xs[k..][1..] == xs[k + 1..];
    RepAt(g, h, m, fl, k);
    LinkSame(g, h, m, fl, k + 1);
    StoreInside(m, c.addr + SIZE_T, t, c.addr, c.addr + c.size);
    LoadAfterStore(m, c.addr + SIZE_T, t, c.addr);
    FreedLinked(g, h, m, fl, k, Store(m, c.addr + SIZE_T, t));
  }

  // ---------------------------------------------------------------- realloc and client writes

  /** realloc's cut: live chunk k becomes two live chunks, and its remaining payload is unchanged. */
  lemma CutLive(g: Config, h: Heap, m: seq<Byte>, fl: nat, k: nat, need: nat)
    requires Rep(g, h, m, fl) && k < |h.chunks| && !h.chunks[k].free
    requires GoodSize(need) && need + NODE <= h.chunks[k].size
    ensures var c := h.chunks[k]; var rest := c.addr + need;
      && rest + NODE <= |m|
      && var m' := Store(Store(m, c.addr, need), rest, c.size - need);
         && Rep(g, Heap(Shrink(h.chunks, k, need), h.end), m', fl)
         && Keeps(m, m', h.chunks[..k]) && Keeps(m, m', h.chunks[k + 1..])
         && m'[c.addr + SIZE_T..rest] == m[c.addr + SIZE_T..rest]
  {
    hide Contig, Inv, Loc, Patch, Keeps, GoodConfig, Store, Load, First, Seg;
    var xs, c := h.chunks, h.chunks[k];
    var rest := c.addr + need;
    var head, tail := Chunk(c.addr, need, false), Chunk(rest, c.size - need, false);
    RepAt(g, h, m, fl, k);
    RepWords(g, h, m, fl);
    LinkSame(g, h, m, fl, k);
    ShrinkInv(g, h, k, need);
    ContigPair(head, tail);
    var a, b := c.addr, c.addr + c.size;
    StoreInside(m, a, need, a, b);
    var m1 := Store(m, a, need);
    StoreInside(m1, rest, c.size - need, a, b);
    var m2 := Store(m1, rest, c.size - need);
    LoadAfterStore(m1, rest, c.size - need, a);
    SegTwo(m2, head, tail, First(xs[k + 1..], 0));
    FirstOfTwo(head, tail, First(xs[k + 1..], 0));
    StoredElsewhere(m, a, need, a + SIZE_T, rest);
    StoredElsewhere(m1, rest, c.size - need, a + SIZE_T, rest);
    FirstSkips(xs, k);
    Rebuild(g, h, m, fl, Heap(Shrink(xs, k, need), h.end), m2, k, k + 1, [head, tail], First(xs[k + 1..], 0));
  }

  lemma FirstSkips(xs: seq<Chunk>, k: nat)
    requires k < |xs| && !xs[k].free
    ensures First(xs[k..], 0) == First(xs[k + 1..], 0)
  {
    assert xs[k..][0] == xs[k] && xs[k..][1..] == xs[k + 1..];
  }

  lemma StoredElsewhere(m: seq<Byte>, x: nat, v: nat, lo: nat, hi: nat)
    requires x + SIZE_T <= |m| && lo <= hi <= |m| && (hi <= x || x + SIZE_T <= lo)
    ensures Store(m, x, v)[lo..hi] == m[lo..hi]
  {
    StoreElsewhere(m, x, Encode(v, SIZE_T), lo, hi);
  }

  /** Bytes written inside one live payload change neither the heap nor any other payload. */
  lemma WritePayload(g: Config, h: Heap, m: seq<Byte>, fl: nat, k: nat, at: nat, bytes: seq<Byte>)
    requires Rep(g, h, m, fl) && k < |h.chunks| && !h.chunks[k].free
    requires h.chunks[k].addr + SIZE_T <= at && at + |bytes| <= h.chunks[k].addr + h.chunks[k].size
    ensures at + |bytes| <= |m|
    ensures var m' := StoreBytes(m, at, bytes);
      && Rep(g, h, m', fl) && m'[at..at + |bytes|] == bytes
      && Keeps(m, m', h.chunks[..k]) && Keeps(m, m', h.chunks[k + 1..])
  {
    hide Contig, Inv, Loc, Patch, Keeps, GoodConfig, Load, Seg;
    var xs, c := h.chunks, h.chunks[k];
    RepAt(g, h, m, fl, k);
    RepWords(g, h, m, fl);
    LinkSame(g, h, m, fl, k);
    FirstSkips(xs, k);
    ContigOne(c);
    var m' := StoreBytes(m, at, bytes);
    StoreElsewhere(m, at, bytes, c.addr, c.addr + SIZE_T);
    LoadIs(m, m', c.addr);
    SegOne(m', c, First(xs[k + 1..], 0));
    assert m'[..c.addr] == m[..c.addr] && m'[c.addr + c.size..] == m[c.addr + c.size..];
    assert Splice(xs, k, k + 1, [c]) == xs;
    Rebuild(g, h, m, fl, h, m', k, k + 1, [c], First(xs[k + 1..], 0));
  }

  // ---------------------------------------------------------------- memalign's pieces

  /** Padding in front, everything behind it handed out: the padding keeps the chunk's list place. */
  lemma PadTwo(g: Config, h: Heap, m: seq<Byte>, fl: nat, k: nat, pad: nat)
    requires Rep(g, h, m, fl) && k < |h.chunks| && h.chunks[k].free
    requires GoodSize(pad) && pad + NODE <= h.chunks[k].size
    ensures var xs := h.chunks; var c := xs[k]; var live := c.addr + pad;
      && live + NODE <= |m|
      && var m' := Store(Store(m, c.addr, pad), live, c.size - pad);
         var h' := Heap(Splice(xs, k, k + 1, [Chunk(c.addr, pad, true), Chunk(live, c.size - pad, false)]), h.end);
         Rep(g, h', m', fl) && Keeps(m, m', xs)
  {
    hide Contig, Inv, Loc, Patch, Keeps, GoodConfig, Store, Load, First, Seg;
    var xs, c := h.chunks, h.chunks[k];
    var front, back := Chunk(c.addr, pad, true), Chunk(c.addr + pad, c.size - pad, false);
    var t := First(xs[k + 1..], 0);
    RepAt(g, h, m, fl, k);
    LinkSame(g, h, m, fl, k);
    FirstHere(xs, k);
    SplitInv(g, h, k, front, back);
    var a, b := c.addr, c.addr + c.size;
    StoreInside(m, a, pad, a, b);
    var m1 := Store(m, a, pad);
    StoreInside(m1, back.addr, back.size, a, b);
    var m2 := Store(m1, back.addr, back.size);
    LoadAfterStore(m, a, pad, a + SIZE_T);
    LoadAfterStore(m1, back.addr, back.size, a);
    LoadAfterStore(m1, back.addr, back.size, a + SIZE_T);
    FirstOfTwo(front, back, t);
    FirstOfOne(back, t);
    SegTwo(m2, front, back, t);
    Rebuild(g, h, m, fl, Heap(Splice(xs, k, k + 1, [front, back]), h.end), m2, k, k + 1, [front, back], c.addr);
    KeepsAround(m, m2, xs, k);
  }

  lemma FirstHere(xs: seq<Chunk>, k: nat)
    requires k < |xs| && xs[k].free
    ensures First(xs[k..], 0) == xs[k].addr
  {
    assert xs[k..][0] == xs[k];
  }

  lemma FirstOfOne(c: Chunk, t: nat)
    ensures First([c], t) == if c.free then c.addr else t
  {
  }

  /** Padding in front and a free rest behind, the rest linked after the padding. */
  lemma PadThree(g: Config, h: Heap, m: seq<Byte>, fl: nat, k: nat, pad: nat, need: nat)
    requires Rep(g, h, m, fl) && k < |h.chunks| && h.chunks[k].free
    requires GoodSize(pad) && GoodSize(need) && pad + need + NODE <= h.chunks[k].size
    ensures var xs := h.chunks; var c := xs[k]; var live := c.addr + pad; var rest := live + need;
      && rest + NODE <= |m|
      && var m1 := Store(Store(m, c.addr, pad), rest, c.size - pad - need);
         var m2 := Store(m1, rest + SIZE_T, Load(m1, c.addr + SIZE_T));
         var m' := Store(Store(m2, c.addr + SIZE_T, rest), live, need);
         var h' := Heap(Splice(xs, k, k + 1, Pieces(c, pad, need)), h.end);
         Rep(g, h', m', fl) && Keeps(m, m', xs)
  {
    hide Contig, Inv, Loc, Patch, Keeps, GoodConfig, Store, Load, First, Seg;
    var xs, c := h.chunks, h.chunks[k];
    var live := c.addr + pad;
    var rest := live + need;
    var mid := Pieces(c, pad, need);
    var t := First(xs[k + 1..], 0);
    RepAt(g, h, m, fl, k);
    RepWords(g, h, m, fl);
    LinkSame(g, h, m, fl, k);
    FirstHere(xs, k);
    PiecesContig(c, pad, need);
    LiveOfPieces(mid, 1);
    ReplaceKeepsInv(g, h, k, mid);
    var m5 := PadMemory(m, c, pad, need, t);
    FirstOfPieces(mid, t);
    Rebuild(g, h, m, fl, Heap(Splice(xs, k, k + 1, mid), h.end), m5, k, k + 1, mid, c.addr);
    KeepsAround(m, m5, xs, k);
  }

  lemma FirstOfPieces(mid: seq<Chunk>, t: nat)
    requires mid != [] && mid[0].free
    ensures First(mid, t) == mid[0].addr
  {
  }

  lemma PadMemory(m: seq<Byte>, c: Chunk, pad: nat, need: nat, t: nat) returns (m5: seq<Byte>)
    requires c.addr + c.size <= |m| < MODULUS && NODE <= pad && NODE <= need && pad + need + NODE <= c.size
    requires Load(m, c.addr + SIZE_T) == t < MODULUS
    ensures var live := c.addr + pad; var rest := live + need;
      var m1 := Store(Store(m, c.addr, pad), rest, c.size - pad - need);
      var m2 := Store(m1, rest + SIZE_T, Load(m1, c.addr + SIZE_T));
      && m5 == Store(Store(m2, c.addr + SIZE_T, rest), live, need)
      && m5[..c.addr] == m[..c.addr] && m5[c.addr + c.size..] == m[c.addr + c.size..]
      && Seg(m5, Pieces(c, pad, need), t)
  {
    hide Store, Load, Seg, Pieces;
    var a, b := c.addr, c.addr + c.size;
    var live, rest := a + pad, a + pad + need;
    StoreInside(m, a, pad, a, b);
    var m1 := Store(m, a, pad);
    StoreInside(m1, rest, c.size - pad - need, a, b);
    var m2 := Store(m1, rest, c.size - pad - need);
    LoadAfterStore(m, a, pad, a + SIZE_T);
    LoadAfterStore(m1, rest, c.size - pad - need, a + SIZE_T);
    StoreInside(m2, rest + SIZE_T, t, a, b);
    var m3 := Store(m2, rest + SIZE_T, t);
    StoreInside(m3, a + SIZE_T, rest, a, b);
    var m4 := Store(m3, a + SIZE_T, rest);
    StoreInside(m4, live, need, a, b);
    m5 := Store(m4, live, need);
    assert Load(m5, a) == Load(m4, a) == Load(m3, a) == Load(m2, a) == pad;
    assert Load(m5, a + SIZE_T) == rest;
    assert Load(m5, rest) == Load(m4, rest) == Load(m3, rest) == c.size - pad - need;
    assert Load(m5, rest + SIZE_T) == Load(m4, rest + SIZE_T) == t;
    SegPieces(m5, c, pad, need, t);
  }

  lemma SegPieces(m: seq<Byte>, c: Chunk, pad: nat, need: nat, t: nat)
    requires 0 < pad && pad + need + NODE <= c.size && c.addr + c.size <= |m| && NODE <= need && NODE <= pad
    requires var live := c.addr + pad; var rest := live + need;
      && Load(m, c.addr) == pad && Load(m, c.addr + SIZE_T) == rest
      && Load(m, live) == need
      && Load(m, rest) == c.size - pad - need && Load(m, rest + SIZE_T) == t
    ensures Seg(m, Pieces(c, pad, need), t)
  {
    hide Load;
    var front, live := Chunk(c.addr, pad, true), Chunk(c.addr + pad, need, false);
    var rest := Chunk(c.addr + pad + need, c.size - pad - need, true);
    FirstOfTwo(live, rest, t);
    FirstOfOne(rest, t);
    SegTwo(m, live, rest, t);
    assert Pieces(c, pad, need) == [front] + [live, rest];
    SegConcat(m, [front], [live, rest], t);
    SegOne(m, front, rest.addr);
  }

  /** A new free chunk at the end of the heap, linked behind the last free one. */
  lemma AppendFree(g: Config, h: Heap, m: seq<Byte>, fl: nat, size: nat)
    requires Rep(g, h, m, fl) && !LastFree(h.chunks) && GoodSize(size) && h.end + size + GAP <= g.limit
    ensures var xs := h.chunks; var c := Chunk(h.end, size, true); var loc := Loc(xs);
      && loc + SIZE_T <= |m| && h.end + NODE <= |m|
      && var m' := Store(Store(Patch(m, loc, h.end), h.end, size), h.end + SIZE_T, 0);
         Rep(g, Heap(xs + [c], h.end + size), m', Head(loc, h.end, fl)) && Keeps(m, m', xs)
  {
    hide Contig, Inv, Loc, Patch, Keeps, GoodConfig, Store, Load, Seg;
    var xs, n, c := h.chunks, |h.chunks|, Chunk(h.end, size, true);
    assert xs[..n] == xs;
    RepWords(g, h, m, fl);
    LinkSame(g, h, m, fl, n);
    AppendKeepsInv(g, h, size);
    ContigOne(c);
    assert xs + [c] == Splice(xs, n, n, [c]);
    var m0 := Patch(m, Loc(xs), h.end);
    StoreInside(m0, h.end, size, h.end, h.end + size);
    var m1 := Store(m0, h.end, size);
    StoreInside(m1, h.end + SIZE_T, 0, h.end, h.end + size);
    var m2 := Store(m1, h.end + SIZE_T, 0);
    LoadAfterStore(m1, h.end + SIZE_T, 0, h.end);
    SegOne(m2, c, 0);
    Rebuild(g, h, m, fl, Heap(xs + [c], h.end + size), m2, n, n, [c], h.end);
  }

  /** The last free chunk, touching the end, is enlarged in place. */
  lemma GrowFree(g: Config, h: Heap, m: seq<Byte>, fl: nat, size: nat)
    requires Rep(g, h, m, fl) && LastFree(h.chunks) && GoodSize(size)
    requires h.chunks[|h.chunks| - 1].addr + size + GAP <= g.limit && size >= h.chunks[|h.chunks| - 1].size
    ensures var xs := h.chunks; var n := |xs| - 1; var a := xs[n].addr;
      && a + SIZE_T <= |m|
      && var m' := Store(m, a, size);
         Rep(g, Heap(xs[..n] + [Chunk(a, size, true)], a + size), m', fl) && Keeps(m, m', xs)
  {
    hide Contig, Inv, Loc, Patch, Keeps, GoodConfig, Store, Load, Seg;
    var xs, n := h.chunks, |h.chunks| - 1;
    var c := Chunk(xs[n].addr, size, true);
    RepAt(g, h, m, fl, n);
    RepWords(g, h, m, fl);
    LinkSame(g, h, m, fl, n);
    FirstHere(xs, n);
    GrowKeepsInv(g, h, size);
    ContigOne(c);
    var h' := Heap(xs[..n] + [c], c.addr + size);
    assert h'.chunks == Splice(xs, n, n + 1, [c]);
    StoreInside(m, c.addr, size, c.addr, c.addr + size);
    var m' := Store(m, c.addr, size);
    LoadAfterStore(m, c.addr, size, c.addr + SIZE_T);
    SegOne(m', c, 0);
    Rebuild(g, h, m, fl, h', m', n, n + 1, [c], c.addr);
    KeepsAround(m, m', xs, n);
  }

  // ---------------------------------------------------------------- memory facts

  lemma SuffixSame(m: seq<Byte>, m': seq<Byte>, a: nat, b: nat)
    requires a <= b <= |m| == |m'| && m[a..] == m'[a..]
    ensures m[b..] == m'[b..]
  {
    SubRange(m, m', a, |m|, b, |m|);
    assert m[a..] == m[a..|m|] && m'[a..] == m'[a..|m|];
    assert m[b..] == m[b..|m|] && m'[b..] == m'[b..|m|];
  }

  lemma FirstOfTwo(c: Chunk, d: Chunk, t: nat)
    ensures First([c, d], t) == if c.free then c.addr else if d.free then d.addr else t
  {
    assert [c, d][1..] == [d] && [d][1..] == [];
    assert First([d], t) == if d.free then d.addr else t;
  }

  /** Everything the code can read about chunk k. */
  lemma RepAt(g: Config, h: Heap, m: seq<Byte>, fl: nat, k: nat)
    requires Rep(g, h, m, fl) && k < |h.chunks|
    ensures var c := h.chunks[k];
      && 0 < g.start <= c.addr && GoodSize(c.size) && c.addr + c.size <= h.end <= |m| < MODULUS
      && After(h.chunks, k, h.end) == c.addr && After(h.chunks, k + 1, h.end) == c.addr + c.size
      && Load(m, c.addr) == c.size
      && (c.free ==> Load(m, c.addr + SIZE_T) == First(h.chunks[k + 1..], 0) < MODULUS)
  {
    ContigAt(h.chunks, k, g.start, h.end);
    SegAt(m, h.chunks, k, 0);
    if h.chunks[k].free { LoadBound(m, h.chunks[k].addr + SIZE_T); }
  }

  lemma RepWords(g: Config, h: Heap, m: seq<Byte>, fl: nat)
    requires Rep(g, h, m, fl)
    ensures Inv(g, h) && Contig(h.chunks, g.start, h.end) && Apart(h.chunks) && 0 < g.start
    ensures SIZE_T <= h.end + GAP <= |m| == g.limit < MODULUS
  {
  }

  lemma SplitInv(g: Config, h: Heap, k: nat, c: Chunk, d: Chunk)
    requires Inv(g, h) && k < |h.chunks| && GoodSize(c.size) && GoodSize(d.size) && c.free != d.free
    requires c.addr == h.chunks[k].addr && d.addr == c.addr + c.size && c.size + d.size == h.chunks[k].size
    requires h.chunks[k].free
    ensures Contig([c, d], c.addr, d.addr + d.size)
    ensures Inv(g, Heap(Splice(h.chunks, k, k + 1, [c, d]), h.end))
  {
    ContigPair(c, d);
    TwoLiveApart(c, d);
    ReplaceKeepsInv(g, h, k, [c, d]);
  }

  lemma SplitMemory(m: seq<Byte>, c: Chunk, need: nat, t: nat)
    requires c.addr + c.size <= |m| < MODULUS && NODE <= need && need + NODE <= c.size && t < MODULUS
    ensures var rest := c.addr + need;
      var m' := Store(Store(Store(m, rest, c.size - need), rest + SIZE_T, t), c.addr, need);
      && m'[..c.addr] == m[..c.addr] && m'[c.addr + c.size..] == m[c.addr + c.size..]
      && Seg(m', [Chunk(c.addr, need, false), Chunk(rest, c.size - need, true)], t)
  {
    hide Store, Load;
    var rest, a, b := c.addr + need, c.addr, c.addr + c.size;
    StoreInside(m, rest, c.size - need, a, b);
    var m1 := Store(m, rest, c.size - need);
    StoreInside(m1, rest + SIZE_T, t, a, b);
    var m2 := Store(m1, rest + SIZE_T, t);
    StoreInside(m2, a, need, a, b);
    var m3 := Store(m2, a, need);
    assert Load(m3, rest) == Load(m2, rest) == Load(m1, rest);
    assert Load(m3, rest + SIZE_T) == Load(m2, rest + SIZE_T);
    SegTwo(m3, Chunk(c.addr, need, false), Chunk(rest, c.size - need, true), t);
  }

  lemma SegTwo(m: seq<Byte>, c: Chunk, d: Chunk, t: nat)
    requires c.addr + NODE <= |m| && d.addr + NODE <= |m|
    requires Load(m, c.addr) == c.size && Load(m, d.addr) == d.size
    requires c.free ==> Load(m, c.addr + SIZE_T) == First([d], t)
    requires d.free ==> Load(m, d.addr + SIZE_T) == t
    ensures Seg(m, [c, d], t)
  {
    assert [c, d][1..] == [d];
  }

  lemma ContigPair(c: Chunk, d: Chunk)
    requires GoodSize(c.size) && GoodSize(d.size) && d.addr == c.addr + c.size
    ensures Contig([c, d], c.addr, d.addr + d.size)
  {
    assert [c, d][1..] == [d];
  }

  lemma KeepsAround(m: seq<Byte>, m': seq<Byte>, xs: seq<Chunk>, k: nat)
    requires k < |xs| && xs[k].free
    requires Keeps(m, m', xs[..k]) && Keeps(m, m', xs[k + 1..])
    ensures Keeps(m, m', xs)
  {
    assert xs == xs[..k] + [xs[k]] + xs[k + 1..];
  }
}
