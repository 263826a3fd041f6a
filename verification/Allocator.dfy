/** tiny-malloc.c for MALLOC_DIRECTION > 0: the allocator's own code over byte memory. */
module Allocator {
  // Each routine is proved equal to its meaning on chunk layouts (module HeapLayout).

  import opened Words
  import opened Memory
  import opened HeapLayout
  import opened FreeList
  import opened TinyMalloc

  class TinyAllocator {
    const g: Config              // __malloc_start and MALLOC_LIMIT
    var mem: seq<Byte>           // the address space below MALLOC_LIMIT
    var end: nat                 // __malloc_end
    var freelist: nat            // __malloc_freelist
    ghost var heap: Heap         // the layout this state stands for

    ghost predicate Valid()
      reads this
    {
      Rep(g, heap, mem, freelist) && end == heap.end
    }

    constructor (g: Config, mem: seq<Byte>)
      requires GoodConfig(g) && |mem| == g.limit
      ensures Valid() && this.g == g && heap == Empty(g)
    {
      this.g, this.mem, this.end, this.freelist, this.heap := g, mem, g.start, 0, Empty(g);
    }

    /** CAN_ALLOC_P, in size_t arithmetic. */
    function CanAlloc(required: nat): (r: bool)
      requires end + GAP <= g.limit < MODULUS
      reads this
      ensures r <==> end + required + GAP <= g.limit
    {
      (g.limit + MODULUS - end - GAP) % MODULUS >= required
    }

    /** `*nextfree = v`, where nextfree is the list head (0) or a chunk's next word. */
    method SetLink(loc: nat, v: nat)
      requires loc + SIZE_T <= |mem|
      modifies this
      ensures mem == Patch(old(mem), loc, v) && freelist == Head(loc, v, old(freelist))
      ensures end == old(end) && heap == old(heap)
    {
      if loc == 0 { freelist := v; } else { mem := Store(mem, loc, v); }
    }

    /** malloc's block found on the list: unlink it, or split it and leave the rest on the list. */
    method TakeBlock(nextfree: nat, block: nat, need: nat, ghost k: nat)
      requires Valid() && GoodSize(need) && k < |heap.chunks| && heap.chunks[k].free
      requires nextfree == Loc(heap.chunks[..k]) && block == heap.chunks[k].addr && need <= heap.chunks[k].size
      modifies this
      ensures Valid()
      ensures heap ==
        Heap(Splice(old(heap).chunks, k, k + 1, HeapLayout.Carve(old(heap).chunks[k], need)), old(heap).end)
      ensures Keeps(old(mem), mem, old(heap).chunks)
    {
      hide Contig, Seg, Apart, Keeps, Load, Store, Patch, GoodConfig, Splice, Inv;
      ghost var h, xs, m, fl := heap, heap.chunks, mem, freelist;
      RepAt(g, h, m, fl, k);
      var size, next := Load(mem, block), Load(mem, block + SIZE_T);
      if size < need + NODE {
        TakeWhole(g, h, m, fl, k);
        SetLink(nextfree, next);
      } else {
        SplitFront(g, h, m, fl, k, need);
        SetLink(nextfree, block + need);
        mem := Store(mem, block + need, size - need);
        mem := Store(mem, block + need + SIZE_T, next);
        mem := Store(mem, block, need);
      }
      heap := Heap(Splice(xs, k, k + 1, HeapLayout.Carve(xs[k], need)), h.end);
    }

    /** malloc's enlargement of the free block that touches the end of the heap. */
    method EnlargeLast(nextfree: nat, block: nat, need: nat)
      requires Valid() && GoodSize(need) && LastFree(heap.chunks)
      requires nextfree == Loc(heap.chunks[..|heap.chunks| - 1]) && block == heap.chunks[|heap.chunks| - 1].addr
      requires heap.chunks[|heap.chunks| - 1].size <= need && block + need + GAP <= g.limit
      modifies this
      ensures Valid()
      ensures heap == Heap(old(heap).chunks[..|old(heap).chunks| - 1] + [Chunk(block, need, false)], block + need)
      ensures Keeps(old(mem), mem, old(heap).chunks)
    {
      hide Contig, Seg, Apart, Keeps, Load, Store, Patch, GoodConfig, Inv, Loc;
      ghost var h, xs, m, fl := heap, heap.chunks, mem, freelist;
      GrowTake(g, h, m, fl, need);
      SetLink(nextfree, 0);
      end := block + need;
      mem := Store(mem, block, need);
      heap := Heap(xs[..|xs| - 1] + [Chunk(block, need, false)], block + need);
    }

    method Malloc(sz: nat) returns (p: nat)
      requires Valid() && sz <= MODULUS - NODE
      modifies this
      ensures Valid()
      ensures Outcome(heap, p) == HeapLayout.Malloc(g, old(heap), sz)
      ensures Keeps(old(mem), mem, old(heap).chunks)
    {
      hide Contig, Seg, Apart, RealSize, Keeps, Load, Store, Patch, GoodConfig, Inv, Rep, Splice, HeapLayout.Malloc,
           HeapLayout.Carve, FirstFit, Fits, Loc, First, MAlign;
      var need := RealSize(sz);
      ghost var h, xs, m, fl := heap, heap.chunks, mem, freelist;
      RealSizeCovers(sz);
      PadOne();
      RepWords(g, h, m, fl);
      KeepsSame(g, h, m, fl);
      var nextfree, block := 0, freelist;
      ghost var i := 0;
      WalkStarts(g, h, m, fl);
      while block != 0
        invariant i <= |xs| && nextfree == Loc(xs[..i]) && block == First(xs[i..], 0)
        invariant i <= FirstFit(xs, need, 1)
        invariant i == |xs| ==> !LastFree(xs)
        invariant heap == h && mem == m && freelist == fl && end == h.end
        decreases |xs| - i
      {
        ghost var k := Step(g, h, m, fl, i, need);
        var size, next := Load(mem, block), Load(mem, block + SIZE_T);
        if size >= need {
          MallocFound(g, h, sz, k);
          TakeBlock(nextfree, block, need, k);
          return block + SIZE_T;
        }
        Unfit(xs, need, k);
        if next == 0 && end == block + size {
          MallocEnlarges(g, h, sz);
          var moresize := need - size;
          if !CanAlloc(moresize) { return 0; }
          EnlargeLast(nextfree, block, need);
          return block + SIZE_T;
        }
        nextfree, block, i := block + SIZE_T, next, k + 1;
      }
      WalkEnds(g, h, m, fl, i, need);
      MallocExtends(g, h, sz);
      if !CanAlloc(need) { return 0; }
      AppendLive(g, h, m, fl, need);
      block := end;
      end := end + need;
      mem := Store(mem, block, need);
      heap := Heap(xs + [Chunk(block, need, false)], block + need);
      return block + SIZE_T;
    }

    /** The free block below takes over the freed one, and then the free block above, if any. */
    method AbsorbInto(this_: nat, block: nat, ghost k: nat)
      requires Rep(g, heap, mem, freelist) && 0 < k < |heap.chunks| && heap.chunks[k - 1].free && !heap.chunks[k].free
      requires this_ == heap.chunks[k - 1].addr && block == heap.chunks[k].addr && end == heap.end
      modifies this
      ensures Valid() && heap == Heap(Release(old(heap).chunks, k), old(heap).end)
      ensures Keeps(old(mem), mem, heap.chunks)
    {
      hide Contig, Seg, Apart, Keeps, Load, Store, Patch, GoodConfig, Inv, Rep, Loc, First, Splice, Release,
           GoodSize, Freed;
      ghost var h, m, fl := heap, mem, freelist;
      RepWords(g, h, m, fl);
      RepAt(g, h, m, fl, k - 1);
      RepAt(g, h, m, fl, k);
      MergesBelow(g, h, m, fl, k);
      var below, size, next := Load(mem, this_), Load(mem, block), Load(mem, this_ + SIZE_T);
      mem := Store(mem, this_, below + size);
      if next != 0 && block + size == next {
        mem := Store(mem, this_, below + size + Load(mem, next));
        mem := Store(mem, this_ + SIZE_T, Load(mem, next + SIZE_T));
      }
      FreedMeans(g, h, m, k, mem, freelist);
      heap := Heap(Release(h.chunks, k), h.end);
    }

    method Free(p: nat)
      requires Valid() && (p == 0 || Owned(heap, p))
      modifies this
      ensures Valid()
      ensures heap == HeapLayout.Free(old(heap), p)
      ensures Keeps(old(mem), mem, heap.chunks)
    {
      hide Contig, Seg, Apart, Keeps, Load, Store, Patch, GoodConfig, Inv, Rep, Loc, First, Splice, IndexOf, Release,
           GoodSize, Freed,
           HeapLayout.Free, Owned;
      ghost var h, xs, m, fl := heap, heap.chunks, mem, freelist;
      RepWords(g, h, m, fl);
      KeepsSame(g, h, m, fl);
      FreeMeans(h, p);
      if p == 0 { return; }
      var block := p - SIZE_T;
      ghost var k := IndexOf(xs, block);
      RepAt(g, h, m, fl, k);
      WalkStarts(g, h, m, fl);
      var size := Load(mem, block);
      var nextfree, this_ := 0, freelist;
      ghost var i := 0;
      while this_ != 0
        invariant i <= |xs| && nextfree == Loc(xs[..i]) && this_ == First(xs[i..], 0)
        invariant i == 0 || i < k
        invariant mem == m && freelist == fl && end == h.end && heap == h
        decreases |xs| - i
      {
        ghost var j := Entry(g, h, m, fl, i);
        Compare(g, h, m, fl, j, k);
        var thissize, next := Load(mem, this_), Load(mem, this_ + SIZE_T);
        if this_ + thissize == block {
          AbsorbInto(this_, block, k);
          return;
        } else if this_ == block + size {
          MergesAbove(g, h, m, fl, k, i, j);
          mem := Store(mem, block, size + thissize);
          mem := Store(mem, block + SIZE_T, Load(mem, this_ + SIZE_T));
          SetLink(nextfree, block);
          FreedMeans(g, h, m, k, mem, freelist);
          heap := Heap(Release(xs, k), h.end);
          return;
        } else if this_ > block {
          break;
        }
        nextfree, this_, i := this_ + SIZE_T, next, j + 1;
      }
      NotMerged(g, h, m, fl, k, i);
      mem := Store(mem, block + SIZE_T, this_);
      SetLink(nextfree, block);
      FreedMeans(g, h, m, k, mem, freelist);
      heap := Heap(Release(xs, k), h.end);
    }

    /** realloc's allocate, copy and free. */
    method Move(p: nat, sz: nat) returns (r: nat)
      requires Valid() && Owned(heap, p) && sz <= MODULUS - NODE
      requires heap.chunks[IndexOf(heap.chunks, p - SIZE_T)].size < RealSize(sz)
      modifies this
      ensures Valid()
      ensures Outcome(heap, r) == HeapLayout.Realloc(g, old(heap), p, sz)
      ensures KeepsOthers(old(mem), mem, old(heap).chunks, p)
      ensures r == 0 ==> Keeps(old(mem), mem, old(heap).chunks)
      ensures r != 0 ==> Copied(old(heap), old(mem), mem, p, r, sz)
    {
      hide Contig, Seg, Apart, RealSize, Keeps, Load, Store, StoreBytes, GoodConfig, Inv, Rep, HeapLayout.Malloc,
           HeapLayout.Free, MAlign, KeepsOthers, Copied, Owned, Release, Shrink, HeapLayout.Realloc, IndexOf;
      ghost var h, m := heap, mem;
      RepWords(g, h, m, freelist);
      OwnedAt(h, p);
      RepAt(g, h, m, freelist, IndexOf(h.chunks, p - SIZE_T));
      MallocKeepsOwned(g, h, sz, p);
      ReallocIs(g, h, p, sz);
      var oldsize := Load(mem, p - SIZE_T);
      r := Malloc(sz);
      KeepsAll(m, mem, h.chunks, p);
      if r == 0 { return; }
      ghost var h1, m1 := heap, mem;
      RepWords(g, h1, m1, freelist);
      MovedBlocks(g, h, sz, p, r, m, m1);
      OwnedAt(h1, p);
      OwnedAt(h1, r);
      var n := if oldsize - SIZE_T < sz then oldsize - SIZE_T else sz;
      RepAt(g, h1, m1, freelist, IndexOf(h1.chunks, p - SIZE_T));
      WritePayload(g, h1, m1, freelist, IndexOf(h1.chunks, r - SIZE_T), r, m1[p..p + n]);
      mem := StoreBytes(mem, r, mem[p..p + n]);
      ghost var m2 := mem;
      SameLength(m1, r, m1[p..p + n]);
      Free(p);
      MovedOthers(g, h, h1, m, m1, m2, mem, p, r, sz, IndexOf(h1.chunks, r - SIZE_T));
      MovedCopy(g, h, m, m1, m2, mem, p, r, sz, n);
    }

    /** realloc's release of the tail it does not need. */
    method CutTail(p: nat, sz: nat)
      requires Valid() && Owned(heap, p) && sz <= MODULUS - NODE
      requires heap.chunks[IndexOf(heap.chunks, p - SIZE_T)].size >= RealSize(sz) + NODE
      modifies this
      ensures Valid()
      ensures Outcome(heap, p) == HeapLayout.Realloc(g, old(heap), p, sz)
      ensures KeepsOthers(old(mem), mem, old(heap).chunks, p) && Copied(old(heap), old(mem), mem, p, p, sz)
    {
      hide Contig, Seg, Apart, RealSize, Keeps, Load, Store, GoodConfig, Inv, Rep, Splice, Loc, First, MAlign, GoodSize,
           KeepsOthers, Copied, Owned, Release, Shrink, HeapLayout.Realloc, IndexOf;
      ghost var h, m, fl := heap, mem, freelist;
      OwnedAt(h, p);
      var need, block := RealSize(sz), p - SIZE_T;
      ghost var k := IndexOf(h.chunks, block);
      RealSizeCovers(sz);
      RepWords(g, h, m, fl);
      RepAt(g, h, m, fl, k);
      ReallocIs(g, h, p, sz);
      CutLive(g, h, m, fl, k, need);
      var oldsize := Load(mem, block);
      var newblock := block + need;
      mem := Store(mem, block, need);
      mem := Store(mem, newblock, oldsize - need);
      heap := Heap(Shrink(h.chunks, k, need), h.end);
      ghost var m1 := mem;
      ShrunkOwned(g, h, k, need);
      FreeMeans(heap, newblock + SIZE_T);
      Free(newblock + SIZE_T);
      ShrunkPayloads(g, h, m, m1, mem, k, sz);
    }

    method Realloc(p: nat, sz: nat) returns (r: nat)
      requires Valid() && (p == 0 || Owned(heap, p)) && sz <= MODULUS - NODE
      modifies this
      ensures Valid()
      ensures Outcome(heap, r) == HeapLayout.Realloc(g, old(heap), p, sz)
      ensures KeepsOthers(old(mem), mem, old(heap).chunks, p)
      ensures r == 0 ==> Keeps(old(mem), mem, old(heap).chunks)
      ensures r != 0 && p != 0 ==> Copied(old(heap), old(mem), mem, p, r, sz)
    {
      hide Contig, Seg, Apart, RealSize, Keeps, Load, Store, GoodConfig, Inv, Rep, MAlign, GoodSize,
           KeepsOthers, Copied, Release, Shrink, HeapLayout.Malloc;
      ghost var h, m := heap, mem;
      if p == 0 {
        r := Malloc(sz);
        KeepsAll(m, mem, h.chunks, p);
        return;
      }
      var block, need := p - SIZE_T, RealSize(sz);
      RepAt(g, h, m, freelist, IndexOf(h.chunks, block));
      var oldsize := Load(mem, block);
      if oldsize < need {
        r := Move(p, sz);
        return;
      }
      if oldsize - need >= NODE {
        CutTail(p, sz);
        return p;
      }
      KeepsSame(g, h, m, freelist);
      RepWords(g, h, m, freelist);
      KeepsAll(m, m, h.chunks, p);
      StayedPayload(g, h, m, p, sz);
      return p;
    }

    /** memalign's placement inside a free block that is large enough. */
    method PlaceBlock(nextfree: nat, block: nat, need: nat, before: nat, align: nat, ghost k: nat) returns (p: nat)
      requires Valid() && GoodSize(need) && IsPow2(align) && 1 <= align < MODULUS
      requires k < |heap.chunks| && Fits(heap.chunks[k], need, align) && before == Pad(block, align)
      requires nextfree == Loc(heap.chunks[..k]) && block == heap.chunks[k].addr
      modifies this
      ensures Valid() && Outcome(heap, p) == PlaceAligned(old(heap), k, need, align)
      ensures Keeps(old(mem), mem, old(heap).chunks)
    {
      hide Contig, Seg, Apart, Keeps, Load, Store, Patch, GoodConfig, Inv, Rep, Splice, Loc, First, MAlign, Pad, IsPow2,
           Aligned;
      ghost var h, xs, m, fl := heap, heap.chunks, mem, freelist;
      RepWords(g, h, m, fl);
      RepAt(g, h, m, fl, k);
      WordAddress(g, h, k);
      PadMeaning(block, align);
      var oldsize := Load(mem, block);
      var live := block + before;
      if before != 0 {
        if oldsize - before <= need + NODE {
          PadTwo(g, h, m, fl, k, before);
          mem := Store(mem, block, before);
          mem := Store(mem, live, oldsize - before);
        } else {
          var newblock := live + need;
          PadThree(g, h, m, fl, k, before, need);
          mem := Store(mem, block, before);
          mem := Store(mem, newblock, oldsize - before - need);
          mem := Store(mem, newblock + SIZE_T, Load(mem, block + SIZE_T));
          mem := Store(mem, block + SIZE_T, newblock);
          mem := Store(mem, live, need);
        }
      } else if oldsize <= need + NODE {
        TakeWhole(g, h, m, fl, k);
        SetLink(nextfree, Load(mem, block + SIZE_T));
      } else {
        SplitFront(g, h, m, fl, k, need);
        var newnext := Load(mem, block + SIZE_T);
        SetLink(nextfree, block + need);
        mem := Store(mem, block + need, oldsize - need);
        mem := Store(mem, block + need + SIZE_T, newnext);
        mem := Store(mem, block, need);
      }
      CarvedIs(xs[k], need, align);
      heap := PlaceAligned(h, k, need, align).heap;
      p := live + SIZE_T;
    }

    /** Every sum is taken in size_t arithmetic. wraps says that the code goes on with one that has wrapped; what
        it then writes is not modelled, and by MemalignExact no AlignSafe request gets there. */
    method Memalign(align: nat, sz: nat) returns (p: nat, wraps: bool)
      requires Valid() && sz <= MODULUS - NODE && align < MODULUS
      modifies this
      ensures wraps == MemalignCode(g, old(heap), align, sz).Wraps?
      ensures !wraps ==> Valid() && MemalignCode(g, old(heap), align, sz) == Returns(Outcome(heap, p))
      ensures !wraps ==> Outcome(heap, p) == HeapLayout.Memalign(g, old(heap), align, sz)
      ensures !wraps ==> Keeps(old(mem), mem, old(heap).chunks)
    {
      hide Contig, Seg, Apart, RealSize, Keeps, Load, Store, Patch, GoodConfig, Inv, Rep, Splice, HeapLayout.Memalign,
           FirstAccepted, Accepts, Fits, Loc, First, MAlign, Pad, IsPow2, Aligned, PlaceAligned, GrowLast, LastFree,
           MemalignCode, TakeCode, GrowCode, AppendCode, SizeAdd;
      ghost var h, xs, m, fl := heap, heap.chunks, mem, freelist;
      RepWords(g, h, m, fl);
      KeepsSame(g, h, m, fl);
      CodeIs(g, h, align, sz);
      CodeAgrees(g, h, align, sz);
      if align == 0 || And(align, align - 1) != 0 { return 0, false; }
      PowerTest(align);
      var need := RealSize(sz);
      RealSizeCovers(sz);
      RealSizeBound(sz);
      WalkStarts(g, h, m, fl);
      var nextfree, this_ := 0, freelist;
      ghost var i := 0;
      while this_ != 0
        invariant i <= |xs| && nextfree == Loc(xs[..i]) && this_ == First(xs[i..], 0)
        invariant i <= FirstAccepted(xs, need, align)
        invariant i == |xs| ==> !LastFree(xs)
        invariant heap == h && mem == m && freelist == fl && end == h.end
        decreases |xs| - i
      {
        ghost var k := AlignedStep(g, h, m, fl, i, need, align);
        var oldsize, next := Load(mem, this_), Load(mem, this_ + SIZE_T);
        var before := Pad(this_, align);
        var total := SizeAdd(need, before);
        if next == 0 && oldsize < total && end == this_ + oldsize {
          LastRefused(h, k, need, align);
          GrowIs(g, h, need, align);
          if !CanAlloc(total - oldsize) { return 0, false; }
          if need + before >= MODULUS { return 0, true; }
          p := GrowAndPlace(nextfree, this_, need, before, align);
          return p, false;
        }
        if oldsize >= total {
          AcceptedFound(xs, need, align, k);
          TakeIs(g, h, k, need, align);
          if need + before >= MODULUS { return 0, true; }
          p := PlaceBlock(nextfree, this_, need, before, align, k);
          return p, false;
        }
        Refused(xs, need, align, k, k + 1);
        nextfree, this_, i := this_ + SIZE_T, next, k + 1;
      }
      AlignedWalkEnds(g, h, m, fl, i, need, align);
      p, wraps := AppendAndPlace(nextfree, need, align);
    }

    /** memalign on the free block that touches the end, enlarged as far as needed. */
    method GrowAndPlace(nextfree: nat, block: nat, need: nat, before: nat, align: nat) returns (p: nat)
      requires Valid() && GoodSize(need) && IsPow2(align) && 1 <= align < MODULUS && LastFree(heap.chunks)
      requires !Fits(heap.chunks[|heap.chunks| - 1], need, align) && before == Pad(block, align)
      requires nextfree == Loc(heap.chunks[..|heap.chunks| - 1]) && block == heap.chunks[|heap.chunks| - 1].addr
      requires end + (before + need - heap.chunks[|heap.chunks| - 1].size) + GAP <= g.limit
      modifies this
      ensures Valid() && Outcome(heap, p) == GrowLast(g, old(heap), need, align)
      ensures Keeps(old(mem), mem, old(heap).chunks)
    {
      hide Contig, Seg, Apart, Keeps, Load, Store, Patch, GoodConfig, Inv, Rep, Splice, Loc, First, MAlign, Pad, IsPow2,
           Aligned, PlaceAligned;
      ghost var h, xs, m, fl := heap, heap.chunks, mem, freelist;
      ghost var n := |xs| - 1;
      RepWords(g, h, m, fl);
      RepAt(g, h, m, fl, n);
      WordAddress(g, h, n);
      PadMeaning(block, align);
      GrowFree(g, h, m, fl, before + need);
      end := block + before + need;
      mem := Store(mem, block, before + need);
      heap := Heap(xs[..n] + [Chunk(block, before + need, true)], block + (before + need));
      ghost var m1 := mem;
      assert heap.chunks[..n] == xs[..n];
      p := PlaceBlock(nextfree, block, need, before, align, n);
      KeepsBoth(m, m1, mem, xs, n, Chunk(block, before + need, true));
    }

    /** memalign when the walk ends: a free block is appended and used, enlarged if need be. */
    method AppendAndPlace(nextfree: nat, need: nat, align: nat) returns (p: nat, wraps: bool)
      requires Valid() && GoodSize(need) && need < MODULUS && IsPow2(align) && 1 <= align < MODULUS
      requires !LastFree(heap.chunks) && nextfree == Loc(heap.chunks)
      modifies this
      ensures wraps == AppendCode(g, old(heap), need, align).Wraps?
      ensures !wraps ==> Valid() && AppendCode(g, old(heap), need, align) == Returns(Outcome(heap, p))
      ensures !wraps ==> Keeps(old(mem), mem, old(heap).chunks)
    {
      hide Contig, Seg, Apart, Keeps, Load, Store, Patch, GoodConfig, Inv, Rep, Splice, Loc, First, MAlign, Pad, IsPow2,
           Aligned, PlaceAligned, GrowLast, GrowCode, TakeCode, AppendCode, SizeAdd, Accepts, Fits;
      ghost var h, xs, m, fl := heap, heap.chunks, mem, freelist;
      var block := end;
      RepWords(g, h, m, fl);
      KeepsSame(g, h, m, fl);
      EndWord(g, h);
      PadMeaning(block, align);
      AppendIs(g, h, need, align);
      var oldsize := SizeAdd(need, MAlign(block + SIZE_T, align));
      if !CanAlloc(oldsize) { return 0, false; }
      if need + MAlign(block + SIZE_T, align) >= MODULUS { return 0, true; }
      AppendFree(g, h, m, fl, oldsize);
      end := end + oldsize;
      SetLink(nextfree, block);
      mem := Store(mem, block, oldsize);
      mem := Store(mem, block + SIZE_T, 0);
      ghost var c := Chunk(block, oldsize, true);
      heap := Heap(xs + [c], block + oldsize);
      ghost var m1, h1 := mem, heap;
      assert h1.chunks[..|xs|] == xs && h1.chunks[|xs|] == c && |h1.chunks| == |xs| + 1;
      KeepsAppended(m, m1, xs, c);
      RepWords(g, h1, m1, freelist);
      KeepsSame(g, h1, m1, freelist);
      var before := Pad(block, align);
      var total := SizeAdd(need, before);
      if oldsize < total {
        GrowIs(g, h1, need, align);
        if !CanAlloc(total - oldsize) { return 0, false; }
        if need + before >= MODULUS { return 0, true; }
        p := GrowAndPlace(nextfree, block, need, before, align);
      } else {
        TakeIs(g, h1, |xs|, need, align);
        if need + before >= MODULUS { return 0, true; }
        p := PlaceBlock(nextfree, block, need, before, align, |xs|);
      }
      wraps := false;
      KeepsTrans(m, m1, mem, xs, c);
    }

    /** calloc: the product wraps like any size_t; memset clears what malloc returned. */
    method Calloc(n: nat, elemsize: nat) returns (p: nat)
      requires Valid() && n * elemsize % MODULUS <= MODULUS - NODE
      modifies this
      ensures Valid()
      ensures Outcome(heap, p) == HeapLayout.Malloc(g, old(heap), n * elemsize % MODULUS)
      ensures Keeps(old(mem), mem, old(heap).chunks)
      ensures p != 0 ==>
        && Owned(heap, p)
        && (heap.chunks[IndexOf(heap.chunks, p - SIZE_T)].size >= n * elemsize + SIZE_T <==> n * elemsize < MODULUS)
      ensures p != 0 ==>
        && p + n * elemsize % MODULUS <= |mem|
        && forall i | p <= i < p + n * elemsize % MODULUS :: mem[i] == 0
    {
      hide Contig, Seg, Apart, RealSize, Keeps, StoreBytes, GoodConfig, Inv, Rep, HeapLayout.Malloc, MAlign, Owned,
           IndexOf;
      ghost var h, m := heap, mem;
      var sz := n * elemsize % MODULUS;
      RepWords(g, h, m, freelist);
      p := Malloc(sz);
      if p != 0 {
        ghost var h1, m1 := heap, mem;
        ClearedBlock(g, h, sz, p);
        CallocRoom(g, h, n, elemsize);
        OwnedAt(h1, p);
        ghost var k := IndexOf(h1.chunks, p - SIZE_T);
        var zeros: seq<Byte> := seq(sz, _ => 0);
        WritePayload(g, h1, m1, freelist, k, p, zeros);
        mem := StoreBytes(mem, p, zeros);
        SameLength(m1, p, zeros);
        ClearedKeeps(g, h, sz, p, m, m1, mem, k);
        forall i | p <= i < p + sz ensures mem[i] == 0 { assert mem[p..p + sz][i - p] == 0; }
      }
    }

    /** mallinfo: arena, fordblks, uordblks, ordblks and keepcost. */
    method Mallinfo() returns (arena: nat, fordblks: nat, uordblks: nat, ordblks: nat, keepcost: nat)
      requires Valid()
      ensures arena == heap.end - g.start
      ensures fordblks == Total(heap.chunks, true) && uordblks == Total(heap.chunks, false)
      ensures ordblks == FreeCount(heap.chunks)
      ensures keepcost == if LastFree(heap.chunks) then heap.chunks[|heap.chunks| - 1].size else 0
    {
      hide Contig, Seg, Apart, Load, GoodConfig, Inv, Rep, Loc, First;
      ghost var h, xs, m, fl := heap, heap.chunks, mem, freelist;
      RepWords(g, h, m, fl);
      WalkStarts(g, h, m, fl);
      var fr := freelist;
      fordblks, ordblks, keepcost := 0, 0, 0;
      ghost var i := 0;
      while fr != 0
        invariant i <= |xs| && fr == First(xs[i..], 0)
        invariant fordblks == Total(xs[..i], true) && ordblks == FreeCount(xs[..i])
        invariant keepcost == if i == |xs| && LastFree(xs) then xs[|xs| - 1].size else 0
        decreases |xs| - i
      {
        ghost var k := Entry(g, h, m, fl, i);
        CountStep(xs, i, k);
        LastAtEnd(xs, k, g.start, h.end);
        var size, next := Load(mem, fr), Load(mem, fr + SIZE_T);
        fordblks := fordblks + size;
        ordblks := ordblks + 1;
        LastEntry(g, h, m, fl, k);
        if next == 0 && fr + size == end { keepcost := size; }
        fr, i := next, k + 1;
      }
      CountEnd(g, h, m, fl, i);
      Accounting(xs, g.start, h.end);
      arena := end - g.start;
      uordblks := arena - fordblks;
    }

    method UsableSize(p: nat) returns (n: nat)
      requires Valid() && Owned(heap, p)
      ensures n + SIZE_T == heap.chunks[IndexOf(heap.chunks, p - SIZE_T)].size
    {
      RepAt(g, heap, mem, freelist, IndexOf(heap.chunks, p - SIZE_T));
      n := Load(mem, p - SIZE_T) - SIZE_T;
    }
  }

  lemma WalkStarts(g: Config, h: Heap, m: seq<Byte>, fl: nat)
    requires Rep(g, h, m, fl)
    ensures First(h.chunks[0..], 0) == fl && Loc(h.chunks[..0]) == 0
    ensures |h.chunks| == 0 ==> !LastFree(h.chunks)
  {
    assert h.chunks[0..] == h.chunks;
  }

  lemma MallocFound(g: Config, h: Heap, sz: nat, k: nat)
    requires k < |h.chunks| && k <= FirstFit(h.chunks, RealSize(sz), 1)
    requires h.chunks[k].free && h.chunks[k].size >= RealSize(sz)
    ensures Malloc(g, h, sz) ==
      Outcome(Heap(Splice(h.chunks, k, k + 1, Carve(h.chunks[k], RealSize(sz))), h.end), h.chunks[k].addr + SIZE_T)
  {
    PadOne();
    FitsHere(h.chunks, RealSize(sz), 1, k);
  }

  lemma Unfit(xs: seq<Chunk>, need: nat, k: nat)
    requires k < |xs| && k <= FirstFit(xs, need, 1) && xs[k].size < need
    ensures k + 1 <= FirstFit(xs, need, 1)
  {
    PadOne();
    SkipUnfit(xs, need, 1, k, k + 1);
  }

  lemma MallocEnlarges(g: Config, h: Heap, sz: nat)
    requires FirstFit(h.chunks, RealSize(sz), 1) == |h.chunks| && LastFree(h.chunks)
    ensures var xs, need := h.chunks, RealSize(sz); var c := xs[|xs| - 1];
      && c.size < need
      && Malloc(g, h, sz) ==
           if h.end + (need - c.size) + GAP > g.limit then Outcome(h, 0)
           else Outcome(Heap(xs[..|xs| - 1] + [Chunk(c.addr, need, false)], c.addr + need), c.addr + SIZE_T)
  {
    PadOne();
  }

  lemma MallocExtends(g: Config, h: Heap, sz: nat)
    requires FirstFit(h.chunks, RealSize(sz), 1) == |h.chunks| && !LastFree(h.chunks)
    ensures var xs, need := h.chunks, RealSize(sz);
      Malloc(g, h, sz) ==
        if h.end + need + GAP > g.limit then Outcome(h, 0)
        else Outcome(Heap(xs + [Chunk(h.end, need, false)], h.end + need), h.end + SIZE_T)
  {
  }

  /** One entry of the walk: the chunk it stands at, what is read there, and where it leads. */
  lemma Step(g: Config, h: Heap, m: seq<Byte>, fl: nat, i: nat, need: nat) returns (k: nat)
    requires Rep(g, h, m, fl) && i <= |h.chunks| && First(h.chunks[i..], 0) != 0
    requires i <= FirstFit(h.chunks, need, 1)
    ensures var xs := h.chunks;
      && i <= k < |xs| && xs[k].free && xs[k].addr == First(xs[i..], 0) && Loc(xs[..k]) == Loc(xs[..i])
      && (forall t | i <= t < k :: !xs[t].free) && k <= FirstFit(xs, need, 1)
      && xs[k].addr + NODE <= |m| && Load(m, xs[k].addr) == xs[k].size && GoodSize(xs[k].size)
      && Load(m, xs[k].addr + SIZE_T) == First(xs[k + 1..], 0)
      && Loc(xs[..k + 1]) == xs[k].addr + SIZE_T
      && xs[k].addr + xs[k].size <= h.end && (xs[k].addr + xs[k].size == h.end <==> k == |xs| - 1)
      && (k == |xs| - 1 ==> First(xs[k + 1..], 0) == 0)
  {
    hide Contig, Seg, Apart, Load, Loc;
    var xs := h.chunks;
    RepWords(g, h, m, fl);
    k := NextFree(xs, i, g.start, h.end);
    RepAt(g, h, m, fl, k);
    SkipUnfit(xs, need, 1, i, k);
    LocStep(xs, k);
    LastAtEnd(xs, k, g.start, h.end);
  }

  lemma WalkEnds(g: Config, h: Heap, m: seq<Byte>, fl: nat, i: nat, need: nat)
    requires Rep(g, h, m, fl) && i <= |h.chunks| && First(h.chunks[i..], 0) == 0
    requires i <= FirstFit(h.chunks, need, 1)
    requires i == |h.chunks| ==> !LastFree(h.chunks)
    ensures FirstFit(h.chunks, need, 1) == |h.chunks| && !LastFree(h.chunks)
  {
    hide Contig, Seg, Apart, Load, Loc;
    RepWords(g, h, m, fl);
    var k := NextFree(h.chunks, i, g.start, h.end);
    SkipUnfit(h.chunks, need, 1, i, k);
  }

  lemma KeepsSame(g: Config, h: Heap, m: seq<Byte>, fl: nat)
    requires Rep(g, h, m, fl)
    ensures Keeps(m, m, h.chunks)
  {
    ContigBounds(h.chunks, g.start, h.end);
    RangeKeeps(m, m, h.chunks, g.start, h.end);
  }

  /** Passing over chunks that do not fit brings the walk no further than the first fit. */
  lemma SkipUnfit(xs: seq<Chunk>, need: nat, align: nat, i: nat, k: nat)
    requires align >= 1 && i <= k <= |xs| && i <= FirstFit(xs, need, align)
    requires forall t | i <= t < k :: !Fits(xs[t], need, align)
    ensures k <= FirstFit(xs, need, align)
  {
  }

  lemma FitsHere(xs: seq<Chunk>, need: nat, align: nat, k: nat)
    requires align >= 1 && k < |xs| && k <= FirstFit(xs, need, align) && Fits(xs[k], need, align)
    ensures FirstFit(xs, need, align) == k
  {
    if k < FirstFit(xs, need, align) { FirstFitIsFirst(xs, need, align, k); }
  }

  lemma LastAtEnd(xs: seq<Chunk>, k: nat, a: nat, b: nat)
    requires Contig(xs, a, b) && k < |xs|
    ensures xs[k].addr + xs[k].size == b <==> k == |xs| - 1
  {
    ContigAt(xs, k, a, b);
    if k + 1 < |xs| { ContigAt(xs, k + 1, a, b); }
  }

  lemma FreeMeans(h: Heap, p: nat)
    requires p == 0 || Owned(h, p)
    ensures p == 0 ==> HeapLayout.Free(h, p) == h
    ensures p != 0 ==> p >= SIZE_T && var k := IndexOf(h.chunks, p - SIZE_T);
      k < |h.chunks| && !h.chunks[k].free && h.chunks[k].addr == p - SIZE_T
      && HeapLayout.Free(h, p) == Heap(Release(h.chunks, k), h.end)
  {
  }

  lemma FreedMeans(g: Config, h: Heap, m: seq<Byte>, k: nat, m': seq<Byte>, fl': nat)
    requires k < |h.chunks| && Freed(g, h, m, k, m', fl')
    ensures var h' := Heap(Release(h.chunks, k), h.end);
      Rep(g, h', m', fl') && Keeps(m, m', h'.chunks)
  {
  }

  lemma Entry(g: Config, h: Heap, m: seq<Byte>, fl: nat, i: nat) returns (k: nat)
    requires Rep(g, h, m, fl) && i <= |h.chunks| && First(h.chunks[i..], 0) != 0
    ensures var xs := h.chunks;
      && i <= k < |xs| && xs[k].free && xs[k].addr == First(xs[i..], 0) && Loc(xs[..k]) == Loc(xs[..i])
      && (forall t | i <= t < k :: !xs[t].free)
      && xs[k].addr + NODE <= |m| && Load(m, xs[k].addr) == xs[k].size
      && Load(m, xs[k].addr + SIZE_T) == First(xs[k + 1..], 0)
      && Loc(xs[..k + 1]) == xs[k].addr + SIZE_T
  {
    hide Contig, Seg, Apart, Load, Loc;
    RepWords(g, h, m, fl);
    k := NextFree(h.chunks, i, g.start, h.end);
    RepAt(g, h, m, fl, k);
    LocStep(h.chunks, k);
  }

  /** Addresses tell where chunk j lies relative to chunk k. */
  lemma Compare(g: Config, h: Heap, m: seq<Byte>, fl: nat, j: nat, k: nat)
    requires Rep(g, h, m, fl) && j < |h.chunks| && k < |h.chunks| && h.chunks[j].free && !h.chunks[k].free
    ensures var c, d := h.chunks[j], h.chunks[k];
      && (c.addr + c.size == d.addr <==> j + 1 == k) && (d.addr + d.size == c.addr <==> j == k + 1)
      && (c.addr > d.addr <==> j > k) && j != k
      && (j > k ==> d.addr + d.size <= c.addr)
  {
    hide Seg, Contig;
    RepWords(g, h, m, fl);
    Place(h.chunks, j, k, g.start, h.end);
    Place(h.chunks, k, j, g.start, h.end);
  }

  lemma Place(xs: seq<Chunk>, i: nat, j: nat, a: nat, b: nat)
    requires Contig(xs, a, b) && i < |xs| && j < |xs| && i != j
    ensures i < j ==> xs[i].addr < xs[j].addr && xs[i].addr + xs[i].size <= xs[j].addr
    ensures xs[i].addr + xs[i].size == xs[j].addr <==> i + 1 == j
  {
    hide Contig;
    ContigAt(xs, i, a, b);
    ContigAt(xs, j, a, b);
    if i < j { Ordered(xs, i, j, a, b); } else { Ordered(xs, j, i, a, b); }
    if i + 1 < j {
      Ordered(xs, i + 1, j, a, b);
      ContigAt(xs, i + 1, a, b);
    }
  }

  lemma MergesBelow(g: Config, h: Heap, m: seq<Byte>, fl: nat, k: nat)
    requires Rep(g, h, m, fl) && 0 < k < |h.chunks| && h.chunks[k - 1].free && !h.chunks[k].free
    ensures var xs := h.chunks; var c, d := xs[k - 1], xs[k]; var next := First(xs[k..], 0);
      var m1 := if c.addr + SIZE_T <= |m| then Store(m, c.addr, c.size + d.size) else m;
      && c.addr + NODE <= |m|
      && if next != 0 && d.addr + d.size == next then
           && next + NODE <= |m|
           && var m2 := Store(m1, c.addr, c.size + d.size + Load(m1, next));
              Freed(g, h, m, k, Store(m2, c.addr + SIZE_T, Load(m2, next + SIZE_T)), fl)
         else Freed(g, h, m, k, m1, fl)
  {
    hide Contig, Seg, Inv, Loc, Patch, Keeps, GoodConfig, Store, Load, Freed;
    var xs := h.chunks;
    RepWords(g, h, m, fl);
    RepAt(g, h, m, fl, k - 1);
    RepAt(g, h, m, fl, k);
    assert xs[k..][0] == xs[k] && xs[k..][1..] == xs[k + 1..];
    var j := NextFree(xs, k + 1, g.start, h.end);
    if j < |xs| { Place(xs, k, j, g.start, h.end); }
    if k + 1 < |xs| && xs[k + 1].free {
      RepAt(g, h, m, fl, k + 1);
      MergeBoth(g, h, m, fl, k);
    } else {
      MergeLeft(g, h, m, fl, k);
    }
  }

  lemma MergesAbove(g: Config, h: Heap, m: seq<Byte>, fl: nat, k: nat, i: nat, j: nat)
    requires Rep(g, h, m, fl) && k < |h.chunks| - 1 && !h.chunks[k].free && h.chunks[k + 1].free && j == k + 1
    requires i <= j && (i == 0 || i < k) && forall t | i <= t < j :: !h.chunks[t].free
    requires Loc(h.chunks[..j]) == Loc(h.chunks[..i])
    ensures var xs := h.chunks; var c := xs[k]; var loc := Loc(xs[..i]);
      && c.addr + NODE <= |m| && xs[j].addr + NODE <= |m| && loc + SIZE_T <= |m|
      && var m1 := Store(m, c.addr, c.size + xs[j].size);
         var m2 := Store(m1, c.addr + SIZE_T, Load(m1, xs[j].addr + SIZE_T));
         Freed(g, h, m, k, Patch(m2, loc, c.addr), Head(loc, c.addr, fl))
  {
    hide Contig, Seg, Inv, Loc, Patch, Keeps, GoodConfig, Store, Load, Freed;
    MergeRight(g, h, m, fl, k);
    LocStep(h.chunks, k);
  }

  lemma NotMerged(g: Config, h: Heap, m: seq<Byte>, fl: nat, k: nat, i: nat)
    requires Rep(g, h, m, fl) && k < |h.chunks| && !h.chunks[k].free
    requires i <= |h.chunks| && (i == 0 || i < k)
    requires var t := First(h.chunks[i..], 0); t == 0 || t > h.chunks[k].addr + h.chunks[k].size
    ensures var xs := h.chunks; var c := xs[k]; var loc := Loc(xs[..i]);
      && c.addr + NODE <= |m| && loc + SIZE_T <= |m|
      && Freed(g, h, m, k, Patch(Store(m, c.addr + SIZE_T, First(xs[i..], 0)), loc, c.addr), Head(loc, c.addr, fl))
  {
    hide Contig, Seg, Inv, Patch, Keeps, GoodConfig, Store, Load, Freed;
    var xs := h.chunks;
    RepWords(g, h, m, fl);
    RepAt(g, h, m, fl, k);
    var j := NextFree(xs, i, g.start, h.end);
    if j < |xs| {
      Place(xs, j, k, g.start, h.end);
      Place(xs, k, j, g.start, h.end);
    }
    assert j > k + 1 || j == |xs|;
    var n := NextFree(xs, k, g.start, h.end);
    SameLink(xs, i, k, j, g.start, h.end);
    InsertFreed(g, h, m, fl, k);
  }

  lemma {:induction false} SameLink(xs: seq<Chunk>, i: nat, k: nat, j: nat, a: nat, b: nat)
    requires i <= k <= j <= |xs| && forall t | i <= t < j :: !xs[t].free
    ensures Loc(xs[..k]) == Loc(xs[..i]) && First(xs[k..], 0) == First(xs[i..], 0)
    decreases k - i
  {
    if i < k {
      LocStep(xs, i);
      assert xs[i..][1..] == xs[i + 1..];
      SameLink(xs, i + 1, k, j, a, b);
    }
  }

  // ---------------------------------------------------------------- payloads across realloc

  /** Payloads of all live chunks except the one at p are the same in both memories. */
  ghost predicate KeepsOthers(m: seq<Byte>, m': seq<Byte>, xs: seq<Chunk>, p: nat)
  {
    |m| == |m'| &&
    forall c | c in xs && !c.free && c.addr + SIZE_T != p ::
      SIZE_T <= c.size && c.addr + c.size <= |m| &&
      m[c.addr + SIZE_T..c.addr + c.size] == m'[c.addr + SIZE_T..c.addr + c.size]
  }

  /** The first min(old usable size, sz) bytes at p are found at r afterwards. */
  ghost predicate Copied(h: Heap, m: seq<Byte>, m': seq<Byte>, p: nat, r: nat, sz: nat)
    requires Owned(h, p)
  {
    var size := h.chunks[IndexOf(h.chunks, p - SIZE_T)].size;
    && SIZE_T <= size
    && var n := if size - SIZE_T < sz then size - SIZE_T else sz;
       p + n <= |m| && r + n <= |m'| && m'[r..r + n] == m[p..p + n]
  }

  lemma KeepsAll(m: seq<Byte>, m': seq<Byte>, xs: seq<Chunk>, p: nat)
    requires Keeps(m, m', xs)
    ensures KeepsOthers(m, m', xs, p)
  {
  }

  lemma StayedPayload(g: Config, h: Heap, m: seq<Byte>, p: nat, sz: nat)
    requires Inv(g, h) && |m| == g.limit && Owned(h, p)
    ensures Copied(h, m, m, p, p, sz)
  {
    hide Contig;
    ContigAt(h.chunks, IndexOf(h.chunks, p - SIZE_T), g.start, h.end);
  }

  /** After malloc, both the old and the new block are live, distinct chunks. */
  lemma MovedBlocks(g: Config, h: Heap, sz: nat, p: nat, r: nat, m: seq<Byte>, m1: seq<Byte>)
    requires Inv(g, h) && Owned(h, p) && sz <= MODULUS - NODE
    requires r == Malloc(g, h, sz).ptr && r != 0
    ensures var h1 := Malloc(g, h, sz).heap;
      && Owned(h1, p) && Owned(h1, r) && r != p
      && var i, j := IndexOf(h1.chunks, p - SIZE_T), IndexOf(h1.chunks, r - SIZE_T);
         i != j && h1.chunks[i] == h.chunks[IndexOf(h.chunks, p - SIZE_T)] && sz + SIZE_T <= h1.chunks[j].size
         && h1.chunks[j] !in LiveSet(h.chunks)
  {
    hide Contig, Apart, GoodConfig, Malloc, RealSize;
    var o := Malloc(g, h, sz);
    MallocCorrect(g, h, sz);
    MallocKeepsOwned(g, h, sz, p);
    var c :| Allocated(h, o.heap, o.ptr, sz, c) && c.size < RealSize(sz) + NODE;
    var was := h.chunks[IndexOf(h.chunks, p - SIZE_T)];
    assert was in LiveSet(h.chunks) && was in LiveSet(o.heap.chunks) && c in LiveSet(o.heap.chunks);
    OwnedMeans(g, o.heap, p, was);
    OwnedMeans(g, o.heap, r, c);
  }

  lemma MovedOthers(g: Config, h: Heap, h1: Heap, m: seq<Byte>, m1: seq<Byte>, m2: seq<Byte>, m3: seq<Byte>,
                    p: nat, r: nat, sz: nat, j: nat)
    requires Inv(g, h) && |m| == g.limit && Owned(h, p) && sz <= MODULUS - NODE
    requires Outcome(h1, r) == Malloc(g, h, sz) && r >= SIZE_T && Keeps(m, m1, h.chunks) && |m1| == |m2|
    requires Inv(g, h1) && Owned(h1, p) && j == IndexOf(h1.chunks, r - SIZE_T) && j < |h1.chunks|
    requires Keeps(m1, m2, h1.chunks[..j]) && Keeps(m1, m2, h1.chunks[j + 1..])
    requires Keeps(m2, m3, HeapLayout.Free(h1, p).chunks)
    ensures KeepsOthers(m, m3, h.chunks, p)
  {
    hide Contig, Apart, GoodConfig, Malloc, RealSize, Free, IndexOf, Inv;
    MovedBlocks(g, h, sz, p, r, m, m1);
    var i := IndexOf(h1.chunks, p - SIZE_T);
    var h3 := HeapLayout.Free(h1, p);
    FreeCorrect(g, h1, p, h1.chunks[i]);
    AllocatedKeeps(h, h1, r, sz, g);
    forall d | d in h.chunks && !d.free && d.addr + SIZE_T != p
      ensures SIZE_T <= d.size && d.addr + d.size <= |m|
      ensures m[d.addr + SIZE_T..d.addr + d.size] == m3[d.addr + SIZE_T..d.addr + d.size]
    {
      assert d in LiveSet(h.chunks) && d in LiveSet(h1.chunks) && d in LiveSet(h3.chunks);
      var t :| 0 <= t < |h1.chunks| && h1.chunks[t] == d;
      assert t != j;
      SplitAt(h1.chunks, t, j);
    }
  }

  lemma MovedCopy(g: Config, h: Heap, m: seq<Byte>, m1: seq<Byte>, m2: seq<Byte>, m3: seq<Byte>,
                  p: nat, r: nat, sz: nat, n: nat)
    requires Inv(g, h) && |m| == g.limit && Owned(h, p) && sz <= MODULUS - NODE
    requires r == Malloc(g, h, sz).ptr && r != 0 && Keeps(m, m1, h.chunks) && |m1| == |m2|
    requires var size := h.chunks[IndexOf(h.chunks, p - SIZE_T)].size;
      SIZE_T <= size && n == if size - SIZE_T < sz then size - SIZE_T else sz
    requires var h1 := Malloc(g, h, sz).heap; Inv(g, h1) && Owned(h1, p) && Owned(h1, r)
    requires r + n <= |m| && p + n <= |m| && m2[r..r + n] == m1[p..p + n]
    requires Keeps(m2, m3, HeapLayout.Free(Malloc(g, h, sz).heap, p).chunks)
    ensures Copied(h, m, m3, p, r, sz)
  {
    hide Contig, Apart, GoodConfig, Malloc, RealSize, Free, IndexOf, Inv;
    var h1 := Malloc(g, h, sz).heap;
    MovedBlocks(g, h, sz, p, r, m, m1);
    OwnedAt(h, p);
    OwnedAt(h1, r);
    var i, j := IndexOf(h1.chunks, p - SIZE_T), IndexOf(h1.chunks, r - SIZE_T);
    var was, c := h1.chunks[i], h1.chunks[j];
    var h3 := HeapLayout.Free(h1, p);
    FreeCorrect(g, h1, p, was);
    assert c in LiveSet(h1.chunks) && was in LiveSet(h.chunks);
    assert c in LiveSet(h3.chunks);
    PayloadPrefix(m, m1, h.chunks, was, n);
    PayloadPrefix(m2, m3, h3.chunks, c, n);
  }

  lemma SameLength(m: seq<Byte>, a: nat, s: seq<Byte>)
    requires a + |s| <= |m|
    ensures |StoreBytes(m, a, s)| == |m|
  {
  }

  lemma OwnedAt(h: Heap, p: nat)
    requires Owned(h, p)
    ensures p >= SIZE_T && var k := IndexOf(h.chunks, p - SIZE_T);
      k < |h.chunks| && !h.chunks[k].free && h.chunks[k].addr == p - SIZE_T
  {
  }

  lemma ReallocIs(g: Config, h: Heap, p: nat, sz: nat)
    requires Inv(g, h) && Owned(h, p) && sz <= MODULUS - NODE
    ensures var xs, need := h.chunks, RealSize(sz);
      var k, o := IndexOf(xs, p - SIZE_T), Malloc(g, h, sz);
      if xs[k].size < need then
        Owned(o.heap, p) && Realloc(g, h, p, sz) == if o.ptr == 0 then o else Outcome(Free(o.heap, p), o.ptr)
      else if xs[k].size >= need + NODE then
        && k + 1 < |Shrink(xs, k, need)|
        && Realloc(g, h, p, sz) == Outcome(Heap(Release(Shrink(xs, k, need), k + 1), h.end), p)
      else Realloc(g, h, p, sz) == Outcome(h, p)
  {
    hide Malloc, Free, Release, RealSize, Inv;
    MallocKeepsOwned(g, h, sz, p);
  }

  lemma SplitAt(xs: seq<Chunk>, t: nat, j: nat)
    requires t < |xs| && j < |xs| && t != j
    ensures xs[t] in xs[..j] || xs[t] in xs[j + 1..]
  {
    if t < j { assert xs[..j][t] == xs[t]; } else { assert xs[j + 1..][t - j - 1] == xs[t]; }
  }

  lemma AllocatedKeeps(h: Heap, h1: Heap, r: nat, sz: nat, g: Config)
    requires Inv(g, h) && sz <= MODULUS - NODE && h1 == Malloc(g, h, sz).heap && r == Malloc(g, h, sz).ptr && r != 0
    ensures LiveSet(h.chunks) <= LiveSet(h1.chunks)
  {
    hide Contig, Apart, GoodConfig, Malloc, RealSize;
    MallocCorrect(g, h, sz);
  }

  /** A kept payload is kept in every prefix. */
  lemma PayloadPrefix(m: seq<Byte>, m': seq<Byte>, xs: seq<Chunk>, c: Chunk, n: nat)
    requires Keeps(m, m', xs) && c in xs && !c.free && n + SIZE_T <= c.size
    ensures c.addr + SIZE_T + n <= |m|
    ensures m[c.addr + SIZE_T..c.addr + SIZE_T + n] == m'[c.addr + SIZE_T..c.addr + SIZE_T + n]
  {
    SubRange(m, m', c.addr + SIZE_T, c.addr + c.size, c.addr + SIZE_T, c.addr + SIZE_T + n);
  }

  lemma ShrunkOwned(g: Config, h: Heap, k: nat, need: nat)
    requires Inv(g, h) && k < |h.chunks| && !h.chunks[k].free && GoodSize(need)
    requires need + NODE <= h.chunks[k].size
    ensures var h1 := Heap(Shrink(h.chunks, k, need), h.end); var q := h.chunks[k].addr + need + SIZE_T;
      Owned(h1, q) && IndexOf(h1.chunks, q - SIZE_T) == k + 1
  {
    hide Contig, Apart;
    ShrinkInv(g, h, k, need);
    IndexIs(Shrink(h.chunks, k, need), k + 1, g.start, h.end);
  }

  lemma ShrunkPayloads(g: Config, h: Heap, m: seq<Byte>, m1: seq<Byte>, m2: seq<Byte>, k: nat, sz: nat)
    requires Inv(g, h) && |m| == g.limit && k < |h.chunks| && !h.chunks[k].free && sz <= MODULUS - NODE
    requires IndexOf(h.chunks, h.chunks[k].addr) == k && GoodSize(RealSize(sz))
    requires RealSize(sz) + NODE <= h.chunks[k].size && |m| == |m1|
    requires Keeps(m, m1, h.chunks[..k]) && Keeps(m, m1, h.chunks[k + 1..])
    requires var c := h.chunks[k]; var rest := c.addr + RealSize(sz);
      rest <= |m| && c.addr + SIZE_T <= rest && m1[c.addr + SIZE_T..rest] == m[c.addr + SIZE_T..rest]
    requires k + 1 < |Shrink(h.chunks, k, RealSize(sz))|
    requires Keeps(m1, m2, Release(Shrink(h.chunks, k, RealSize(sz)), k + 1))
    ensures var p := h.chunks[k].addr + SIZE_T;
      Owned(h, p) && KeepsOthers(m, m2, h.chunks, p) && Copied(h, m, m2, p, p, sz)
  {
    hide Contig, Apart, GoodConfig, RealSize, Release, Splice, Shrink, Keeps;
    var xs, need := h.chunks, RealSize(sz);
    var ys := Shrink(xs, k, need);
    var zs := Release(ys, k + 1);
    RealSizeCovers(sz);
    ContigAt(xs, k, g.start, h.end);
    ShrinkInv(g, h, k, need);
    ReleaseCorrect(g, Heap(ys, h.end), k + 1);
    ShrunkLive(g, h, k, need);
    assert ys[k] in LiveSet(ys) && ys[k] in LiveSet(zs);
    PayloadPrefix(m1, m2, zs, ys[k], sz);
    SubRange(m, m1, xs[k].addr + SIZE_T, xs[k].addr + need, xs[k].addr + SIZE_T, xs[k].addr + SIZE_T + sz);
    LengthKept(m1, m2, zs);
    ShrunkOthers(g, h, m, m1, m2, k, need);
  }

  lemma LengthKept(m: seq<Byte>, m': seq<Byte>, xs: seq<Chunk>)
    requires Keeps(m, m', xs)
    ensures |m| == |m'|
  {
  }

  lemma ShrunkOthers(g: Config, h: Heap, m: seq<Byte>, m1: seq<Byte>, m2: seq<Byte>, k: nat, need: nat)
    requires Inv(g, h) && k < |h.chunks| && !h.chunks[k].free && GoodSize(need) && need + NODE <= h.chunks[k].size
    requires Keeps(m, m1, h.chunks[..k]) && Keeps(m, m1, h.chunks[k + 1..])
    requires k + 1 < |Shrink(h.chunks, k, need)| && Keeps(m1, m2, Release(Shrink(h.chunks, k, need), k + 1))
    ensures KeepsOthers(m, m2, h.chunks, h.chunks[k].addr + SIZE_T)
  {
    hide Contig, Apart, GoodConfig, Release, Splice, Shrink, Inv, GoodSize;
    var xs := h.chunks;
    var ys := Shrink(xs, k, need);
    var zs := Release(ys, k + 1);
    ShrinkInv(g, h, k, need);
    ReleaseCorrect(g, Heap(ys, h.end), k + 1);
    ShrunkLive(g, h, k, need);
    forall d | d in xs && !d.free && d.addr != xs[k].addr
      ensures SIZE_T <= d.size && d.addr + d.size <= |m|
      ensures m[d.addr + SIZE_T..d.addr + d.size] == m2[d.addr + SIZE_T..d.addr + d.size]
    {
      assert d in LiveSet(xs) && d in LiveSet(ys) && d in LiveSet(zs);
      var t :| 0 <= t < |xs| && xs[t] == d;
      SplitAt(xs, t, k);
    }
  }

  // ---------------------------------------------------------------- memalign's walk

  lemma WordAddress(g: Config, h: Heap, k: nat)
    requires Inv(g, h) && k < |h.chunks|
    ensures h.chunks[k].addr % SIZE_T == 0
  {
    ContigAt(h.chunks, k, g.start, h.end);
  }

  lemma EndWord(g: Config, h: Heap)
    requires Inv(g, h)
    ensures h.end % SIZE_T == 0
  {
    ContigWords(h.chunks, g.start, h.end);
  }

  lemma CarvedIs(c: Chunk, need: nat, align: nat)
    requires align >= 1 && Fits(c, need, align)
    ensures var pad := Pad(c.addr, align);
      CarveAligned(c, need, align) ==
        if pad == 0 then
          if c.size <= need + NODE then [Chunk(c.addr, c.size, false)]
          else [Chunk(c.addr, need, false), Chunk(c.addr + need, c.size - need, true)]
        else if c.size - pad <= need + NODE then [Chunk(c.addr, pad, true), Chunk(c.addr + pad, c.size - pad, false)]
        else Pieces(c, pad, need)
  {
    hide MAlign, Pad;
  }

  lemma CodeIs(g: Config, h: Heap, align: nat, sz: nat)
    ensures var xs, need := h.chunks, RealSize(sz);
      if align == 0 || And(align, align - 1) != 0 then MemalignCode(g, h, align, sz) == Returns(Outcome(h, 0))
      else
        var k := FirstAccepted(xs, need, align);
        if k < |xs| then MemalignCode(g, h, align, sz) == TakeCode(h, k, need, align)
        else if LastFree(xs) then
          !Accepts(xs[|xs| - 1], need, align) && MemalignCode(g, h, align, sz) == GrowCode(g, h, need, align)
        else MemalignCode(g, h, align, sz) == AppendCode(g, h, need, align)
  {
    hide And, RealSize, TakeCode, GrowCode, AppendCode, Accepts;
  }

  lemma TakeIs(g: Config, h: Heap, k: nat, need: nat, align: nat)
    requires Inv(g, h) && align >= 1 && need < MODULUS && k < |h.chunks|
    requires h.chunks[k].free && h.chunks[k].size >= SizeAdd(need, Pad(h.chunks[k].addr, align))
    ensures Accepts(h.chunks[k], need, align)
    ensures if need + Pad(h.chunks[k].addr, align) >= MODULUS then TakeCode(h, k, need, align) == Wraps
            else
              && Fits(h.chunks[k], need, align)
              && TakeCode(h, k, need, align) == Returns(PlaceAligned(h, k, need, align))
  {
    hide Pad, PlaceAligned, Contig, Apart;
  }

  lemma GrowIs(g: Config, h: Heap, need: nat, align: nat)
    requires Inv(g, h) && IsPow2(align) && 1 <= align < MODULUS && need < MODULUS && LastFree(h.chunks)
    requires var c := h.chunks[|h.chunks| - 1]; c.size < SizeAdd(need, Pad(c.addr, align))
    ensures var c := h.chunks[|h.chunks| - 1];
      var pad := Pad(c.addr, align);
      var total := SizeAdd(need, pad);
      && !Accepts(c, need, align) && !Fits(c, need, align)
      && (need + pad < MODULUS ==> total == need + pad)
      && GrowCode(g, h, need, align) ==
           if h.end + (total - c.size) + GAP > g.limit then Returns(Outcome(h, 0))
           else if need + pad >= MODULUS then Wraps
           else Returns(GrowLast(g, h, need, align))
  {
    hide Pad, PlaceAligned, SizeAdd, Inv, IsPow2;
    GrowAgrees(g, h, need, align);
    SizeSumIs(need, Pad(h.chunks[|h.chunks| - 1].addr, align));
  }

  lemma SizeSumIs(x: nat, y: nat)
    ensures x + y < MODULUS ==> SizeAdd(x, y) == x + y
  {
  }

  lemma AppendIs(g: Config, h: Heap, need: nat, align: nat)
    requires align >= 1
    ensures var xs, more := h.chunks, MAlign(h.end + SIZE_T, align);
      var room := SizeAdd(need, more);
      && (need + more < MODULUS ==> room == need + more)
      && if h.end + room + GAP > g.limit then AppendCode(g, h, need, align) == Returns(Outcome(h, 0))
         else if need + more >= MODULUS then AppendCode(g, h, need, align) == Wraps
         else
           var c := Chunk(h.end, room, true);
           var h' := Heap(xs + [c], h.end + room);
           && (Accepts(c, need, align) <==> room >= SizeAdd(need, Pad(h.end, align)))
           && AppendCode(g, h, need, align) ==
                if Accepts(h'.chunks[|xs|], need, align) then TakeCode(h', |xs|, need, align)
                else GrowCode(g, h', need, align)
  {
    hide Pad, MAlign, TakeCode, GrowCode;
  }

  lemma AlignedStep(g: Config, h: Heap, m: seq<Byte>, fl: nat, i: nat, need: nat, align: nat) returns (k: nat)
    requires Rep(g, h, m, fl) && i <= |h.chunks| && First(h.chunks[i..], 0) != 0
    requires align >= 1 && i <= FirstAccepted(h.chunks, need, align)
    ensures var xs := h.chunks;
      && i <= k < |xs| && xs[k].free && xs[k].addr == First(xs[i..], 0) && Loc(xs[..k]) == Loc(xs[..i])
      && k <= FirstAccepted(xs, need, align)
      && xs[k].addr + NODE <= |m| && Load(m, xs[k].addr) == xs[k].size
      && Load(m, xs[k].addr + SIZE_T) == First(xs[k + 1..], 0)
      && Loc(xs[..k + 1]) == xs[k].addr + SIZE_T
      && xs[k].addr + xs[k].size <= h.end && (xs[k].addr + xs[k].size == h.end <==> k == |xs| - 1)
      && (k == |xs| - 1 ==> First(xs[k + 1..], 0) == 0 && LastFree(xs))
      && (Accepts(xs[k], need, align) <==> xs[k].size >= SizeAdd(need, Pad(xs[k].addr, align)))
  {
    hide Contig, Seg, Apart, Load, Loc, Pad, SizeAdd;
    var xs := h.chunks;
    RepWords(g, h, m, fl);
    k := NextFree(xs, i, g.start, h.end);
    RepAt(g, h, m, fl, k);
    Refused(xs, need, align, i, k);
    LocStep(xs, k);
    LastAtEnd(xs, k, g.start, h.end);
  }

  lemma Refused(xs: seq<Chunk>, need: nat, align: nat, i: nat, k: nat)
    requires align >= 1 && i <= k <= |xs| && i <= FirstAccepted(xs, need, align)
    requires forall t | i <= t < k :: !Accepts(xs[t], need, align)
    ensures k <= FirstAccepted(xs, need, align)
  {
    hide Accepts;
  }

  lemma {:induction false} AcceptedFound(xs: seq<Chunk>, need: nat, align: nat, k: nat)
    requires align >= 1 && k < |xs| && k <= FirstAccepted(xs, need, align) && Accepts(xs[k], need, align)
    ensures FirstAccepted(xs, need, align) == k
  {
    hide Accepts;
    if k > 0 { AcceptedFound(xs[1..], need, align, k - 1); }
  }

  lemma LastRefused(h: Heap, k: nat, need: nat, align: nat)
    requires align >= 1 && k == |h.chunks| - 1 && h.chunks[k].free && !Accepts(h.chunks[k], need, align)
    requires k <= FirstAccepted(h.chunks, need, align)
    ensures FirstAccepted(h.chunks, need, align) == |h.chunks| && LastFree(h.chunks)
  {
    hide Accepts;
    Refused(h.chunks, need, align, k, k + 1);
  }

  lemma AlignedWalkEnds(g: Config, h: Heap, m: seq<Byte>, fl: nat, i: nat, need: nat, align: nat)
    requires Rep(g, h, m, fl) && i <= |h.chunks| && First(h.chunks[i..], 0) == 0
    requires align >= 1 && i <= FirstAccepted(h.chunks, need, align)
    requires i == |h.chunks| ==> !LastFree(h.chunks)
    ensures FirstAccepted(h.chunks, need, align) == |h.chunks| && !LastFree(h.chunks)
    ensures Loc(h.chunks) == Loc(h.chunks[..i])
  {
    hide Contig, Seg, Apart, Load, Loc, Pad, SizeAdd;
    RepWords(g, h, m, fl);
    var k := NextFree(h.chunks, i, g.start, h.end);
    Refused(h.chunks, need, align, i, k);
    assert h.chunks[..|h.chunks|] == h.chunks;
  }

  // ---------------------------------------------------------------- payloads across memalign

  lemma KeepsTrans(m: seq<Byte>, m1: seq<Byte>, m2: seq<Byte>, xs: seq<Chunk>, c: Chunk)
    requires Keeps(m, m1, xs) && Keeps(m1, m2, xs + [c])
    ensures Keeps(m, m2, xs)
  {
    forall d | d in xs && !d.free
      ensures m[d.addr + SIZE_T..d.addr + d.size] == m2[d.addr + SIZE_T..d.addr + d.size]
    {
      assert d in xs + [c];
    }
  }

  lemma KeepsAppended(m: seq<Byte>, m1: seq<Byte>, xs: seq<Chunk>, c: Chunk)
    requires Keeps(m, m1, xs) && c.free
    ensures Keeps(m, m1, xs + [c])
  {
  }

  lemma KeepsBoth(m: seq<Byte>, m1: seq<Byte>, m2: seq<Byte>, xs: seq<Chunk>, n: nat, c: Chunk)
    requires n + 1 == |xs| && xs[n].free && Keeps(m, m1, xs) && Keeps(m1, m2, xs[..n] + [c])
    ensures Keeps(m, m2, xs)
  {
    forall d | d in xs && !d.free
      ensures m[d.addr + SIZE_T..d.addr + d.size] == m2[d.addr + SIZE_T..d.addr + d.size]
    {
      assert xs == xs[..n] + [xs[n]];
      assert d in xs[..n] + [c];
    }
  }

  // ---------------------------------------------------------------- calloc and mallinfo

  lemma ClearedBlock(g: Config, h: Heap, sz: nat, p: nat)
    requires Inv(g, h) && sz <= MODULUS - NODE && p == Malloc(g, h, sz).ptr && p != 0
    ensures var h1 := Malloc(g, h, sz).heap;
      && Owned(h1, p) && var c := h1.chunks[IndexOf(h1.chunks, p - SIZE_T)];
         sz + SIZE_T <= c.size && c !in LiveSet(h.chunks) && LiveSet(h1.chunks) == LiveSet(h.chunks) + {c}
  {
    hide Contig, Apart, GoodConfig, Malloc, RealSize;
    var o := Malloc(g, h, sz);
    MallocCorrect(g, h, sz);
    var c :| Allocated(h, o.heap, o.ptr, sz, c) && c.size < RealSize(sz) + NODE;
    assert c in LiveSet(o.heap.chunks);
    OwnedMeans(g, o.heap, p, c);
  }

  lemma ClearedKeeps(g: Config, h: Heap, sz: nat, p: nat, m: seq<Byte>, m1: seq<Byte>, m2: seq<Byte>, k: nat)
    requires Inv(g, h) && sz <= MODULUS - NODE && p == Malloc(g, h, sz).ptr && p != 0
    requires Keeps(m, m1, h.chunks) && |m1| == |m2|
    requires var ys := Malloc(g, h, sz).heap.chunks;
      p >= SIZE_T && k == IndexOf(ys, p - SIZE_T) && k < |ys| && Keeps(m1, m2, ys[..k]) && Keeps(m1, m2, ys[k + 1..])
    ensures Keeps(m, m2, h.chunks)
  {
    hide Contig, Apart, GoodConfig, Malloc, RealSize, IndexOf;
    ClearedBlock(g, h, sz, p);
    var ys := Malloc(g, h, sz).heap.chunks;
    forall d | d in h.chunks && !d.free
      ensures m[d.addr + SIZE_T..d.addr + d.size] == m2[d.addr + SIZE_T..d.addr + d.size]
    {
      assert d in LiveSet(h.chunks) && d in LiveSet(ys);
      var t :| 0 <= t < |ys| && ys[t] == d;
      SplitAt(ys, t, k);
    }
  }

  ghost function FreeCount(xs: seq<Chunk>): nat
  {
    if xs == [] then 0 else (if xs[0].free then 1 else 0) + FreeCount(xs[1..])
  }

  lemma {:induction false} TotalConcat(xs: seq<Chunk>, ys: seq<Chunk>, free: bool)
    ensures Total(xs + ys, free) == Total(xs, free) + Total(ys, free)
    ensures FreeCount(xs + ys) == FreeCount(xs) + FreeCount(ys)
  {
    if xs == [] {
      assert xs + ys == ys;
    } else {
      assert (xs + ys)[1..] == xs[1..] + ys;
      TotalConcat(xs[1..], ys, free);
    }
  }

  lemma {:induction false} NoneFree(xs: seq<Chunk>)
    requires forall t | 0 <= t < |xs| :: !xs[t].free
    ensures Total(xs, true) == 0 && FreeCount(xs) == 0
  {
    if xs != [] { NoneFree(xs[1..]); }
  }

  lemma CountStep(xs: seq<Chunk>, i: nat, k: nat)
    requires i <= k < |xs| && xs[k].free && forall t | i <= t < k :: !xs[t].free
    ensures Total(xs[..k + 1], true) == Total(xs[..i], true) + xs[k].size
    ensures FreeCount(xs[..k + 1]) == FreeCount(xs[..i]) + 1
  {
    assert xs[..k + 1] == xs[..i] + (xs[i..k] + [xs[k]]);
    TotalConcat(xs[..i], xs[i..k] + [xs[k]], true);
    TotalConcat(xs[i..k], [xs[k]], true);
    NoneFree(xs[i..k]);
    assert Total([xs[k]], true) == xs[k].size && FreeCount([xs[k]]) == 1;
  }

  lemma LastEntry(g: Config, h: Heap, m: seq<Byte>, fl: nat, k: nat)
    requires Rep(g, h, m, fl) && k < |h.chunks| && h.chunks[k].free
    ensures k == |h.chunks| - 1 ==> First(h.chunks[k + 1..], 0) == 0 && LastFree(h.chunks)
  {
  }

  lemma CountEnd(g: Config, h: Heap, m: seq<Byte>, fl: nat, i: nat)
    requires Rep(g, h, m, fl) && i <= |h.chunks| && First(h.chunks[i..], 0) == 0
    ensures Total(h.chunks, true) == Total(h.chunks[..i], true) && FreeCount(h.chunks) == FreeCount(h.chunks[..i])
    ensures LastFree(h.chunks) ==> i == |h.chunks|
  {
    hide Contig, Seg, Apart;
    var xs := h.chunks;
    RepWords(g, h, m, fl);
    var k := NextFree(xs, i, g.start, h.end);
    assert xs == xs[..i] + xs[i..];
    TotalConcat(xs[..i], xs[i..], true);
    NoneFree(xs[i..]);
  }
}
