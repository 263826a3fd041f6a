/** How a chunk layout is laid over memory: every chunk starts with its size, and the free ones
    are threaded by a `next` word into the address-ordered free list. Seg, Loc and Rep describe the list;
    the lemmas say what survives a patched link. */
module FreeList {
  import opened Words
  import opened Memory
  import opened HeapLayout

  /** The first free chunk of xs, or t when there is none. */
  ghost function First(xs: seq<Chunk>, t: nat): nat
  {
    if xs == [] then t else if xs[0].free then xs[0].addr else First(xs[1..], t)
  }

  /** Address of the `next` word of the last free chunk of xs; 0 stands for the list head. */
  ghost function Loc(xs: seq<Chunk>): nat
  {
    if xs == [] then 0
    else if xs[|xs| - 1].free then xs[|xs| - 1].addr + SIZE_T
    else Loc(xs[..|xs| - 1])
  }

  /** The words of memory describe the chunks xs; the last link of the list goes to t. */
  ghost predicate Seg(m: seq<Byte>, xs: seq<Chunk>, t: nat)
  {
    xs == [] ||
    (&& xs[0].addr + NODE <= |m|
     && Load(m, xs[0].addr) == xs[0].size
     && (xs[0].free ==> Load(m, xs[0].addr + SIZE_T) == First(xs[1..], t))
     && Seg(m, xs[1..], t))
  }

  /** Memory m and list head fl represent heap h. */
  ghost predicate Rep(g: Config, h: Heap, m: seq<Byte>, fl: nat)
  {
    Inv(g, h) && |m| == g.limit && fl == First(h.chunks, 0) && Seg(m, h.chunks, 0)
  }

  /** Writing v through `*nextfree`, when nextfree is the list head nothing in memory changes. */
  ghost function Patch(m: seq<Byte>, loc: nat, v: nat): (m': seq<Byte>)
    requires loc + SIZE_T <= |m|
    ensures |m'| == |m|
  {
    if loc == 0 then m else Store(m, loc, v)
  }

  /** The payload bytes of every live chunk of xs are the same in both memories. */
  ghost predicate Keeps(m: seq<Byte>, m': seq<Byte>, xs: seq<Chunk>)
  {
    |m| == |m'| &&
    forall c | c in xs && !c.free ::
      SIZE_T <= c.size && c.addr + c.size <= |m| &&
      m[c.addr + SIZE_T..c.addr + c.size] == m'[c.addr + SIZE_T..c.addr + c.size]
  }

  lemma {:induction false} FirstConcat(xs: seq<Chunk>, ys: seq<Chunk>, t: nat)
    ensures First(xs + ys, t) == First(xs, First(ys, t))
  {
    if xs == [] {
      assert xs + ys == ys;
    } else {
      assert (xs + ys)[1..] == xs[1..] + ys;
      FirstConcat(xs[1..], ys, t);
    }
  }

  lemma {:induction false} SegConcat(m: seq<Byte>, xs: seq<Chunk>, ys: seq<Chunk>, t: nat)
    ensures Seg(m, xs + ys, t) <==> Seg(m, xs, First(ys, t)) && Seg(m, ys, t)
  {
    if xs == [] {
      assert xs + ys == ys;
    } else {
      assert (xs + ys)[1..] == xs[1..] + ys;
      SegConcat(m, xs[1..], ys, t);
      FirstConcat(xs[1..], ys, t);
    }
  }

  lemma SegSplit(m: seq<Byte>, xs: seq<Chunk>, k: nat, t: nat)
    requires k <= |xs| && Seg(m, xs, t)
    ensures Seg(m, xs[..k], First(xs[k..], t)) && Seg(m, xs[k..], t)
    ensures First(xs, t) == First(xs[..k], First(xs[k..], t))
  {
    assert xs[..k] + xs[k..] == xs;
    SegConcat(m, xs[..k], xs[k..], t);
    FirstConcat(xs[..k], xs[k..], t);
  }

  /** What memory holds at chunk k. */
  lemma SegAt(m: seq<Byte>, xs: seq<Chunk>, k: nat, t: nat)
    requires k < |xs| && Seg(m, xs, t)
    ensures xs[k].addr + NODE <= |m| && Load(m, xs[k].addr) == xs[k].size
    ensures xs[k].free ==> Load(m, xs[k].addr + SIZE_T) == First(xs[k + 1..], t)
  {
    SegSplit(m, xs, k, t);
    assert xs[k..][0] == xs[k] && xs[k..][1..] == xs[k + 1..];
  }

  lemma {:induction false} SegFrame(m: seq<Byte>, m': seq<Byte>, xs: seq<Chunk>, t: nat, a: nat, b: nat)
    requires Contig(xs, a, b) && b <= |m| == |m'| && a <= b && m[a..b] == m'[a..b]
    requires Seg(m, xs, t)
    ensures Seg(m', xs, t)
  {
    if xs != [] {
      var n := a + xs[0].size;
      ContigBounds(xs[1..], n, b);
      SubRange(m, m', a, b, a, a + SIZE_T);
      SubRange(m, m', a, b, a + SIZE_T, a + NODE);
      SubRange(m, m', a, b, n, b);
      SegFrame(m, m', xs[1..], t, n, b);
    }
  }

  lemma {:induction false} LocBounds(xs: seq<Chunk>, a: nat, b: nat)
    requires Contig(xs, a, b)
    ensures Loc(xs) == 0 || a + SIZE_T <= Loc(xs) <= b - SIZE_T
  {
    if xs != [] {
      var n := |xs| - 1;
      ContigAt(xs, n, a, b);
      ContigSplit(xs, n, a, b);
      LocBounds(xs[..n], a, xs[n].addr);
    }
  }

  /** Storing v in the last link makes the list end at v instead of t. */
  lemma {:induction false} SegRetarget(m: seq<Byte>, xs: seq<Chunk>, t: nat, v: nat, a: nat, b: nat)
    requires Contig(xs, a, b) && b <= |m| && v < MODULUS && Loc(xs) + SIZE_T <= |m|
    requires Seg(m, xs, t)
    ensures Seg(Patch(m, Loc(xs), v), xs, v)
    ensures First(xs, v) == if Loc(xs) == 0 then v else First(xs, t)
  {
    hide Contig, Store, Load;
    if xs != [] {
      var n := |xs| - 1;
      var ys, c := xs[..n], xs[n];
      assert xs == ys + [c];
      ContigAt(xs, n, a, b);
      ContigSplit(xs, n, a, b);
      LocBounds(ys, a, c.addr);
      SegConcat(m, ys, [c], t);
      FirstConcat(ys, [c], t);
      FirstConcat(ys, [c], v);
      var m' := Patch(m, Loc(xs), v);
      if c.free {
        var x, e := c.addr + SIZE_T, Encode(v, SIZE_T);
        StoredIs(m, x, v);
        StoreElsewhere(m, x, e, a, c.addr);
        StoreElsewhere(m, x, e, c.addr, x);
        LoadIs(m, m', c.addr);
        SegFrame(m, m', ys, c.addr, a, c.addr);
        LoadStore(m, x, v);
      } else {
        SegRetarget(m, ys, t, v, a, c.addr);
        if Loc(ys) != 0 {
          StoredIs(m, Loc(ys), v);
          StoreElsewhere(m, Loc(ys), Encode(v, SIZE_T), c.addr, c.addr + SIZE_T);
          LoadIs(m, m', c.addr);
        }
      }
      SegConcat(m', ys, [c], v);
    }
  }

  lemma LoadIs(m: seq<Byte>, m': seq<Byte>, a: nat)
    requires |m| == |m'| && a + SIZE_T <= |m| && m[a..a + SIZE_T] == m'[a..a + SIZE_T]
    ensures Load(m, a) == Load(m', a)
  {
  }

  /** ... and touches no payload of a live chunk. */
  lemma {:induction false} PatchKeeps(m: seq<Byte>, xs: seq<Chunk>, v: nat, a: nat, b: nat)
    requires Contig(xs, a, b) && b <= |m| && Loc(xs) + SIZE_T <= |m|
    ensures Keeps(m, Patch(m, Loc(xs), v), xs)
  {
    hide Contig, Store;
    if xs != [] {
      var n := |xs| - 1;
      var ys, c := xs[..n], xs[n];
      ContigAt(xs, n, a, b);
      ContigSplit(xs, n, a, b);
      LocBounds(ys, a, c.addr);
      var m' := Patch(m, Loc(xs), v);
      if c.free {
        StoreElsewhere(m, c.addr + SIZE_T, Encode(v, SIZE_T), a, c.addr);
        StoredIs(m, c.addr + SIZE_T, v);
        RangeKeeps(m, m', ys, a, c.addr);
      } else {
        PatchKeeps(m, ys, v, a, c.addr);
        if Loc(ys) != 0 {
          StoreElsewhere(m, Loc(ys), Encode(v, SIZE_T), c.addr + SIZE_T, c.addr + c.size);
          StoredIs(m, Loc(ys), v);
        }
      }
      assert xs == ys + [c];
    }
  }

  lemma StoredIs(m: seq<Byte>, a: nat, v: nat)
    requires a + SIZE_T <= |m|
    ensures Store(m, a, v) == StoreBytes(m, a, Encode(v, SIZE_T))
  {
  }

  lemma RangeKeeps(m: seq<Byte>, m': seq<Byte>, xs: seq<Chunk>, a: nat, b: nat)
    requires Contig(xs, a, b) && a <= b <= |m| == |m'| && m[a..b] == m'[a..b]
    ensures Keeps(m, m', xs)
  {
    forall c | c in xs && !c.free
      ensures SIZE_T <= c.size && c.addr + c.size <= |m|
      ensures m[c.addr + SIZE_T..c.addr + c.size] == m'[c.addr + SIZE_T..c.addr + c.size]
    {
      var i :| 0 <= i < |xs| && xs[i] == c;
      ContigAt(xs, i, a, b);
      SubRange(m, m', a, b, c.addr + SIZE_T, c.addr + c.size);
    }
  }

  ghost function After(xs: seq<Chunk>, j: nat, e: nat): nat
    requires j <= |xs|
  {
    if j < |xs| then xs[j].addr else e
  }

  /** The one argument every operation uses. Chunks i..j give way to mid, on the same addresses
      (or, at the end of the heap, on a longer stretch); the last link before them is redirected
      to the new first free chunk, and nothing else outside the stretch changes. Then the new
      memory represents the new layout, and payloads outside the stretch are unchanged. */
  lemma Refit(g: Config, h: Heap, m: seq<Byte>, fl: nat, h': Heap, m': seq<Byte>, fl': nat,
              i: nat, j: nat, mid: seq<Chunk>)
    requires Rep(g, h, m, fl) && Inv(g, h') && |m'| == |m|
    requires i <= j <= |h.chunks| && h'.chunks == Splice(h.chunks, i, j, mid)
    requires j < |h.chunks| ==> h'.end == h.end
    requires var xs := h.chunks; var a, b := After(xs, i, h.end), After(xs, j, h'.end);
      var v := First(mid, First(xs[j..], 0));
      && a <= b <= |m| && Contig(mid, a, b) && v < MODULUS && Loc(xs[..i]) + SIZE_T <= |m|
      && m'[..a] == Patch(m, Loc(xs[..i]), v)[..a] && m'[b..] == m[b..]
      && Seg(m', mid, First(xs[j..], 0))
      && fl' == if Loc(xs[..i]) == 0 then v else fl
    ensures Rep(g, h', m', fl')
    ensures Keeps(m, m', h.chunks[..i]) && Keeps(m, m', h.chunks[j..])
  {
    hide Contig, Seg, Inv, Loc, Patch, Keeps, GoodConfig, First, Store;
    var xs := h.chunks;
    var pre, post := xs[..i], xs[j..];
    var t := First(post, 0);
    var v := First(mid, t);
    var a, b := After(xs, i, h.end), After(xs, j, h'.end);
    RefitPre(g, h, m, m', i, v);
    RefitPost(g, h, m, m', j);
    assert h'.chunks == pre + (mid + post);
    SegConcat(m', mid, post, 0);
    SegConcat(m', pre, mid + post, 0);
    FirstConcat(mid, post, 0);
    FirstConcat(pre, mid + post, 0);
    SegSplit(m, xs, i, 0);
  }

  lemma RefitPre(g: Config, h: Heap, m: seq<Byte>, m': seq<Byte>, i: nat, v: nat)
    requires Inv(g, h) && |m| == g.limit == |m'| && Seg(m, h.chunks, 0)
    requires i <= |h.chunks| && v < MODULUS && Loc(h.chunks[..i]) + SIZE_T <= |m|
    requires var a := After(h.chunks, i, h.end);
      a <= |m| && m'[..a] == Patch(m, Loc(h.chunks[..i]), v)[..a]
    ensures Seg(m', h.chunks[..i], v) && Keeps(m, m', h.chunks[..i])
    ensures First(h.chunks[..i], v) ==
      if Loc(h.chunks[..i]) == 0 then v else First(h.chunks[..i], First(h.chunks[i..], 0))
  {
    hide Contig, Seg, Loc, Patch, First;
    var xs, pre := h.chunks, h.chunks[..i];
    var a := After(xs, i, h.end);
    ContigSplit(xs, i, g.start, h.end);
    ContigBounds(pre, g.start, a);
    SegSplit(m, xs, i, 0);
    SegRetarget(m, pre, First(xs[i..], 0), v, g.start, a);
    var p := Patch(m, Loc(pre), v);
    SubRange(p, m', 0, a, g.start, a);
    SegFrame(p, m', pre, v, g.start, a);
    PatchKeeps(m, pre, v, g.start, a);
    RangeKeeps(p, m', pre, g.start, a);
  }

  lemma RefitPost(g: Config, h: Heap, m: seq<Byte>, m': seq<Byte>, j: nat)
    requires Inv(g, h) && |m| == g.limit == |m'| && Seg(m, h.chunks, 0)
    requires j <= |h.chunks|
    requires j < |h.chunks| ==> h.chunks[j].addr <= |m| && m'[h.chunks[j].addr..] == m[h.chunks[j].addr..]
    ensures Seg(m', h.chunks[j..], 0) && Keeps(m, m', h.chunks[j..])
  {
    var xs := h.chunks;
    if j < |xs| {
      var b := xs[j].addr;
      ContigSplit(xs, j, g.start, h.end);
      SegSplit(m, xs, j, 0);
      ContigBounds(xs[j..], b, h.end);
      SubRange(m, m', b, |m|, b, h.end);
      SegFrame(m, m', xs[j..], 0, b, h.end);
      RangeKeeps(m, m', xs[j..], b, h.end);
    }
  }

  // ---------------------------------------------------------------- walking the list

  /** From position i, the walk's next entry is the first free chunk at or after i. */
  lemma {:induction false} NextFree(xs: seq<Chunk>, i: nat, a: nat, b: nat) returns (k: nat)
    requires i <= |xs| && Contig(xs, a, b) && a > 0
    ensures i <= k <= |xs| && (forall t | i <= t < k :: !xs[t].free)
    ensures First(xs[i..], 0) == if k < |xs| then xs[k].addr else 0
    ensures k < |xs| ==> xs[k].free && xs[k].addr > 0
    ensures Loc(xs[..k]) == Loc(xs[..i])
    decreases |xs| - i
  {
    if i == |xs| || xs[i].free {
      k := i;
      if i < |xs| { ContigAt(xs, i, a, b); }
    } else {
      k := NextFree(xs, i + 1, a, b);
      assert xs[i..][1..] == xs[i + 1..];
      LocStep(xs, i);
    }
  }

  lemma LocStep(xs: seq<Chunk>, k: nat)
    requires k < |xs|
    ensures Loc(xs[..k + 1]) == if xs[k].free then xs[k].addr + SIZE_T else Loc(xs[..k])
  {
    assert xs[..k + 1][..k] == xs[..k];
  }

  /** The link that leads to position k, read back: `*nextfree`. */
  lemma LinkValue(m: seq<Byte>, xs: seq<Chunk>, k: nat, t: nat, a: nat, b: nat)
    requires Contig(xs, a, b) && k <= |xs| && Seg(m, xs, t)
    ensures Loc(xs[..k]) != 0 ==> Loc(xs[..k]) + SIZE_T <= |m| && Load(m, Loc(xs[..k])) == First(xs[k..], t)
    ensures Loc(xs[..k]) == 0 ==> First(xs, t) == First(xs[k..], t)
    decreases k
  {
    if k > 0 {
      LocStep(xs, k - 1);
      assert xs[k - 1..][1..] == xs[k..];
      if xs[k - 1].free {
        SegAt(m, xs, k - 1, t);
      } else {
        LinkValue(m, xs, k - 1, t, a, b);
      }
    } else {
      assert xs[0..] == xs;
    }
  }

  // ---------------------------------------------------------------- stores inside one stretch

  /** A store inside [a, b) leaves the memory below a and from b on alone. */
  lemma StoreInside(m: seq<Byte>, x: nat, v: nat, a: nat, b: nat)
    requires a <= x && x + SIZE_T <= b <= |m| && v < MODULUS
    ensures var m' := Store(m, x, v);
      && m'[..a] == m[..a] && m'[b..] == m[b..] && Load(m', x) == v
      && (forall y: nat {:trigger Load(m', y)} | y + SIZE_T <= x || x + SIZE_T <= y <= |m| - SIZE_T ::
            Load(m', y) == Load(m, y))
  {
    LoadStore(m, x, v);
    var e := Encode(v, SIZE_T);
    var m' := Store(m, x, v);
    StoreElsewhere(m, x, e, 0, a);
    StoreElsewhere(m, x, e, b, |m|);
    assert m'[..a] == m'[0..a] && m[..a] == m[0..a];
    assert m'[b..] == m'[b..|m|] && m[b..] == m[b..|m|];
    forall y: nat | y + SIZE_T <= x || x + SIZE_T <= y <= |m| - SIZE_T
      ensures Load(Store(m, x, v), y) == Load(m, y)
    {
      StoreElsewhere(m, x, e, y, y + SIZE_T);
    }
  }

  /** The link in front of position i, rewritten, is below chunk i. */
  lemma PatchBelow(m: seq<Byte>, xs: seq<Chunk>, i: nat, v: nat, s: nat, e: nat)
    requires Contig(xs, s, e) && i <= |xs| && e <= |m| && SIZE_T <= |m|
    ensures var a := After(xs, i, e);
      && a <= e && Loc(xs[..i]) <= a && Loc(xs[..i]) + SIZE_T <= |m|
      && Patch(m, Loc(xs[..i]), v)[a..] == m[a..]
  {
    hide Contig, Loc;
    var a := After(xs, i, e);
    ContigSplit(xs, i, s, e);
    ContigBounds(xs[..i], s, a);
    ContigBounds(xs[i..], a, e);
    LocBounds(xs[..i], s, a);
    var l := Loc(xs[..i]);
    if l != 0 {
      StoreElsewhere(m, l, Encode(v, SIZE_T), a, |m|);
      var m' := Patch(m, l, v);
      assert m'[a..] == m'[a..|m|] && m[a..] == m[a..|m|];
    }
  }
}
