/** core_list_join.c: CoreMark's in-place list. */
module CoreList {
  // Its caching comparators, the iterative mergesort, and the benchmark that must put the list back.
  // Pointers are indices, -1 is NULL.

  import opened ListData
  import Crc

  /** The fields of core_results that the list works on; calls counts the benchmark calls, whose own memory is not
      modelled. */
  datatype Results = Results(crc: bv16, crcstate: bv16, crcmatrix: bv16, calls: nat)

  class ListPool {
    var next: seq<int>         // next pointer of each list_head
    var info: seq<nat>         // info pointer of each list_head
    var data: seq<Item>        // the list_data items
    var res: Results           // the results structure
    const bench: (nat, nat, nat, bv16) -> nat    // what core_bench_state (0) and core_bench_matrix (1) return

    constructor (next: seq<int>, info: seq<nat>, data: seq<Item>, res: Results, bench: (nat, nat, nat, bv16) -> nat)
      ensures this.next == next && this.info == info && this.data == data && this.res == res && this.bench == bench
    {
      this.next, this.info, this.data, this.res, this.bench := next, info, data, res, bench;
    }

    /** calc_func on item j: the cached value, or the computed one, which it caches and adds to the CRC. */
    method CalcFunc(j: nat) returns (val: int)
      requires j < |data|
      modifies this`data, this`res
      ensures |data| == |old(data)| && Touched(Complex, old(data)[j], data[j])
      ensures data == old(data)[j := data[j]]
      ensures GoodItem(old(data)[j]) ==> GoodItem(data[j])
      ensures val == Key(Complex, data[j]) == data[j].data16 % 128
      ensures (data, res) == Calc(bench, old(data), old(res), j)
      ensures Cached(old(data)[j]) ==> res == old(res)
      ensures !Cached(old(data)[j]) ==>
        var d, r := old(data)[j], old(res);
        var v := Computed(bench, d, r);
        && data[j] == d.(data16 := d.data16 / 256 * 256 + 128 + v % 128)
        && res.crc == Crc.Crc16Of(Bits(v), r.crc)
        && res.crcstate == (if d.data16 % 8 == 0 && r.crcstate == 0 then Bits(v) else r.crcstate)
        && res.crcmatrix == (if d.data16 % 8 == 1 && r.crcmatrix == 0 then Bits(v) else r.crcmatrix)
        && res.calls == (if d.data16 % 8 < 2 then r.calls + 1 else r.calls)
    {
      hide Crc.Crc16Of, Bits, Touched, GoodItem, Key, Dtype, Cached, Ready;
      var d := data[j];
      CachedStays(d);
      if Cached(d) { return d.data16 % 128; }
      var flag := d.data16 % 8;
      var retval := d.data16;
      if flag == 0 {
        retval := bench(res.calls, 0, Dtype(d), res.crc);
        Record(retval, if res.crcstate == 0 then Bits(retval) else res.crcstate, res.crcmatrix, 1);
      } else if flag == 1 {
        retval := bench(res.calls, 1, Dtype(d), res.crc);
        Record(retval, res.crcstate, if res.crcmatrix == 0 then Bits(retval) else res.crcmatrix, 1);
      } else {
        Record(retval, res.crcstate, res.crcmatrix, 0);
      }
      CacheTouches(d, retval);
      data := data[j := Cache(d, retval)];
      return retval % 128;
    }

    /** The stores into the results structure. */
    method Record(retval: nat, crcstate: bv16, crcmatrix: bv16, called: nat)
      modifies this`res
      ensures res == Results(Crc.Crc16Of(Bits(retval), old(res).crc), crcstate, crcmatrix, old(res).calls + called)
    {
      var crc := Crc.CrcU16(Bits(retval), res.crc);
      res := Results(crc, crcstate, crcmatrix, res.calls + called);
    }

    /** cmp(p->info, q->info, res) for the two comparators. */
    method Compare(cmp: Cmp, a: nat, b: nat) returns (r: int)
      requires a < |data| && b < |data| && forall d | d in data :: GoodItem(d)
      modifies this`data, this`res
      ensures AllEvolved(cmp, old(data), data)
      ensures forall j | 0 <= j < |data| && j != a && j != b :: data[j] == old(data)[j]
      ensures Ready(cmp, data[a]) && Ready(cmp, data[b])
      ensures r == Key(cmp, data[a]) - Key(cmp, data[b])
      ensures cmp == Complex ==>
        var s := Calc(bench, old(data), old(res), a); (data, res) == Calc(bench, s.0, s.1, b)
      ensures cmp != Complex ==> res == old(res)
    {
      hide Computed, Calc;
      match cmp
      case Complex =>
        var val1 := CalcFunc(a);
        var val2 := CalcFunc(b);
        r := val1 - val2;
      case Idx(isNull) =>
        if isNull {
          RegenerateTouches(data[a]);
          data := data[a := Regenerate(data[a])];
          RegenerateTouches(data[b]);
          data := data[b := Regenerate(data[b])];
        }
        r := data[a].idx - data[b].idx;
    }

    /** Step insize places along from p. */
    method Advance(p: nat, insize: nat, ghost Z: seq<nat>) returns (q: int, psize: nat)
      requires ListAt(next, p, Z) && Z != [] && insize > 0
      ensures psize == Min(insize, |Z|)
      ensures q == if psize < |Z| then Z[psize] else -1
    {
      q := p;
      psize := 0;
      var i := 0;
      while i < insize
        invariant 0 <= i <= insize && psize == i < |Z| && q == Z[psize]
      {
        assert next[Z[i]] == if i + 1 < |Z| then Z[i + 1] else -1;
        psize := psize + 1;
        q := next[q];
        if q == -1 { break; }
        i := i + 1;
      }
    }

    /** Decide whether the next element of the merge comes from p or from q. */
    method TakeFromP(p: int, q: int, psize: nat, qsize: nat, cmp: Cmp,
                     ghost M: seq<nat>, ghost P: seq<nat>, ghost Q: seq<nat>, ghost xs: seq<nat>,
                     ghost pos: map<nat, nat>)
      returns (fromP: bool)
      requires psize == |P| && (qsize == 0 || q == -1 <==> Q == []) && (P != [] || Q != [])
      requires P != [] ==> p == P[0] && P[0] in xs
      requires Q != [] ==> q == Q[0] && Q[0] in xs
      requires Order(cmp, info, data, pos, M, P, Q) && Carried(info, data, xs)
      modifies this`data, this`res
      ensures Order(cmp, info, data, pos, M, P, Q) && Carried(info, data, xs)
      ensures AllEvolved(cmp, old(data), data) && Traced(cmp, bench, old(data), old(res), data, res)
      ensures if fromP then P != [] else Q != []
      ensures P != [] && Q != [] ==>
        var d, e := ItemOf(info, data, P[0]), ItemOf(info, data, Q[0]);
        Ready(cmp, d) && Ready(cmp, e) && (fromP <==> Key(cmp, d) <= Key(cmp, e))
    {
      hide Order, AllEvolved, Carried, Calc, Traced;
      Unchanged(cmp, data, next, xs);
      TracedSame(cmp, bench, data, res);
      if psize == 0 { return false; }
      if qsize == 0 || q == -1 { return true; }
      CarriedAt(info, data, xs, p);
      CarriedAt(info, data, xs, q);
      var r := Compare(cmp, info[p], info[q]);
      TracedTwo(cmp, bench, old(data), old(res), info[p], info[q], data, res);
      OrderKept(cmp, info, old(data), data, pos, M, P, Q);
      CarriedKept(cmp, info, old(data), data, xs);
      CarriedAt(info, data, xs, p);
      CarriedAt(info, data, xs, q);
      return r <= 0;
    }

    /** Merge the run of psize nodes at p with the next qsize nodes at q onto the output list. */
    method MergeRuns(list0: int, tail0: int, p0: int, q0: int, psize0: nat, qsize0: nat, cmp: Cmp,
                     ghost O: seq<nat>, ghost P0: seq<nat>, ghost Q0: seq<nat>, ghost R: seq<nat>,
                     ghost pos: map<nat, nat>)
      returns (list: int, tail: int, q: int, ghost M: seq<nat>)
      requires Links(next, list0, tail0, O, p0, P0, q0, Q0 + R)
      requires psize0 == |P0| && |Q0| <= qsize0 && (|Q0| == qsize0 || R == [])
      requires Order(cmp, info, data, pos, [], P0, Q0) && Carried(info, data, P0 + Q0)
      modifies this`next, this`data, this`res
      ensures exists p :: Links(next, list, tail, O + M, p, [], q, R)
      ensures Sorted(cmp, info, data, pos, M) && multiset(M) == multiset(P0) + multiset(Q0)
      ensures AllEvolved(cmp, old(data), data) && NextKept(old(next), next, O + P0 + Q0)
      ensures Traced(cmp, bench, old(data), old(res), data, res)
    {
      hide Links, Order, Sorted, AllEvolved, Carried, NextKept, SameNodes, Traced;
      TracedSame(cmp, bench, data, res);
      list, tail, q := list0, tail0, q0;
      var p, psize, qsize := p0, psize0, qsize0;
      ghost var P, Q := P0, Q0;
      M := [];
      assert O + M == O;
      Unchanged(cmp, data, next, O + P0 + Q0);
      AllThere(P0, Q0);
      while psize > 0 || (qsize > 0 && q != -1)
        invariant Links(next, list, tail, O + M, p, P, q, Q + R)
        invariant psize == |P| && |Q| <= qsize && (|Q| == qsize || R == [])
        invariant Order(cmp, info, data, pos, M, P, Q)
        invariant Carried(info, data, P0 + Q0) && SameNodes(M, P, Q, P0, Q0)
        invariant AllEvolved(cmp, old(data), data) && NextKept(old(next), next, O + P0 + Q0)
        invariant Traced(cmp, bench, old(data), old(res), data, res)
        decreases |P| + |Q|
      {
        HeadsOf(next, list, tail, O + M, p, P, q, Q, R);
        Members(O, M, P, Q, P0, Q0);
        ghost var data0, res0 := data, res;
        var fromP := TakeFromP(p, q, psize, qsize, cmp, M, P, Q, P0 + Q0, pos);
        AllEvolvedTrans(cmp, old(data), data0, data);
        TracedTrans(cmp, bench, old(data), old(res), data0, res0, data, res);
        LinkKept(old(next), next, tail, if fromP then p else q, O + P0 + Q0);
        var e: int;
        ghost var next0 := next;
        if fromP {
          StepP(cmp, info, data, pos, next, list, tail, O, M, p, P, q, Q, R, P0, Q0);
          e := p;
          p := next[p];
          psize := psize - 1;
          M, P := M + [P[0]], P[1..];
        } else {
          StepQ(cmp, info, data, pos, next, list, tail, O, M, p, P, q, Q, R, P0, Q0);
          e := q;
          q := next[q];
          qsize := qsize - 1;
          M, Q := M + [Q[0]], Q[1..];
        }
        if tail != -1 {
          next := next[tail := e];
        } else {
          list := e;
        }
        assert next == Link(next0, tail, e);
        tail := e;
      }
      HeadsOf(next, list, tail, O + M, p, P, q, Q, R);
      assert Q + R == R;
      OrderSorted(cmp, info, data, pos, M, P, Q);
      AllMerged(M, P, Q, P0, Q0);
    }

    /** One pass of the mergesort: merge neighbouring runs of insize nodes into runs of twice that. */
    method Pass(list0: int, insize: nat, cmp: Cmp, ghost L: seq<nat>, ghost pos: map<nat, nat>)
      returns (list: int, nmerges: nat, ghost O: seq<nat>)
      requires ListAt(next, list0, L) && Distinct(L) && L != [] && Carried(info, data, L)
      requires insize > 0 && Runs(cmp, info, data, pos, L, insize)
      modifies this`next, this`data, this`res
      ensures ListAt(next, list, O) && Distinct(O) && multiset(O) == multiset(L)
      ensures Runs(cmp, info, data, pos, O, 2 * insize)
      ensures nmerges <= 1 <==> |L| <= 2 * insize
      ensures AllEvolved(cmp, old(data), data) && NextKept(old(next), next, L)
      ensures Traced(cmp, bench, old(data), old(res), data, res)
    {
      hide Links, Sorted, AllEvolved, Carried, NextKept, Runs, Whole, Earlier, ListAt, Distinct, Before, Traced;
      TracedSame(cmp, bench, data, res);
      var p := list0;
      list, nmerges, O := -1, 0, [];
      var tail := -1;
      ghost var Z := L;
      PassStarts(cmp, info, data, pos, next, p, L, insize);
      Unchanged(cmp, data, next, L);
      while p != -1
        invariant Rest(cmp, info, data, pos, next, list, tail, O, p, Z, insize)
        invariant multiset(O) + multiset(Z) == multiset(L) && Carried(info, data, L)
        invariant nmerges == 0 <==> O == []
        invariant nmerges == 1 ==> |O| <= 2 * insize && (Z == [] || |O| == 2 * insize)
        invariant nmerges >= 2 ==> |O| > 2 * insize
        invariant AllEvolved(cmp, old(data), data) && NextKept(old(next), next, L)
        invariant Traced(cmp, bench, old(data), old(res), data, res)
        decreases |Z|
      {
        nmerges := nmerges + 1;
        RestHead(cmp, info, data, pos, next, list, tail, O, p, Z, insize);
        var q, psize := Advance(p, insize, Z);
        ghost var m := Min(insize, |Z|);
        ghost var n := Min(insize, |Z[m..]|);
        ghost var P0, Q0, R := Z[..m], Z[m..][..n], Z[m..][n..];
        SplitRest(cmp, info, data, pos, next, list, tail, O, p, Z, insize);
        CarriedPart(info, data, L, O, Z, m, n);
        ghost var data0, res0, next0 := data, res, next;
        ghost var M;
        list, tail, q, M := MergeRuns(list, tail, p, q, psize, insize, cmp, O, P0, Q0, R, pos);
        AllEvolvedTrans(cmp, old(data), data0, data);
        TracedTrans(cmp, bench, old(data), old(res), data0, res0, data, res);
        NextKeptTrans(old(next), next0, next, O + P0 + Q0, L, O, Z, m, n);
        CarriedKept(cmp, info, data0, data, L);
        JoinRest(cmp, info, data0, data, pos, next, list, tail, O, q, Z, M, insize);
        p := q;
        O, Z := O + M, R;
      }
      RestEnds(cmp, info, data, pos, next, list, tail, O, p, Z, insize);
      assert multiset(O) == multiset(L);
      MultisetMembers(O, L);
      LinkKept(old(next), next, tail, -1, L);
      next := next[tail := -1];
    }

    /** core_list_mergesort: sorts any non-empty list in place. */
    method MergeSort(list0: int, cmp: Cmp, ghost L: seq<nat>) returns (list: int, ghost O: seq<nat>)
      requires ListAt(next, list0, L) && Distinct(L) && L != [] && Carried(info, data, L)
      modifies this`next, this`data, this`res
      ensures ListAt(next, list, O) && Distinct(O) && multiset(O) == multiset(L)
      ensures Sorted(cmp, info, data, Positions(L), O)
      ensures AllEvolved(cmp, old(data), data) && NextKept(old(next), next, L)
      ensures Traced(cmp, bench, old(data), old(res), data, res)
    {
      hide Sorted, AllEvolved, Carried, NextKept, Runs, ListAt, Distinct, Traced;
      TracedSame(cmp, bench, data, res);
      ghost var pos := Positions(L);
      list, O := list0, L;
      var insize := 1;
      SingleRuns(cmp, info, data, L, L);
      Unchanged(cmp, data, next, L);
      while true
        invariant ListAt(next, list, O) && Distinct(O) && multiset(O) == multiset(L) && O != [] && insize > 0
        invariant Carried(info, data, O) && Runs(cmp, info, data, pos, O, insize)
        invariant AllEvolved(cmp, old(data), data) && NextKept(old(next), next, L)
        invariant Traced(cmp, bench, old(data), old(res), data, res)
        decreases |L| - insize
      {
        ghost var O0, data0, res0, next0 := O, data, res, next;
        var nmerges;
        MultisetMembers(O, L);
        list, nmerges, O := Pass(list, insize, cmp, O, pos);
        MultisetMembers(O, L);
        AllEvolvedTrans(cmp, old(data), data0, data);
        TracedTrans(cmp, bench, old(data), old(res), data0, res0, data, res);
        NextKeptAgain(old(next), next0, next, O0, L);
        CarriedKept(cmp, info, data0, data, O0);
        CarriedSame(info, data, O0, O);
        if nmerges <= 1 {
          OneRun(cmp, info, data, pos, O, 2 * insize);
          return;
        }
        insize := insize * 2;
      }
    }

    /** core_list_find: the first node whose idx matches, or, for a negative idx, whose lower data
        byte matches. */
    method Find(list0: int, idx: int, data16: int, ghost L: seq<nat>) returns (list: int, ghost k: nat)
      requires ListAt(next, list0, L) && Carried(info, data, L)
      ensures k == FirstMatch(info, data, L, idx, data16)
      ensures list == var n := FirstMatch(info, data, L, idx, data16); if n < |L| then L[n] else -1
    {
      hide FirstMatch;
      list, k := list0, 0;
      if idx >= 0 {
        while list != -1 && data[info[list]].idx != idx
          invariant k <= |L| && list == (if k < |L| then L[k] else -1)
          invariant forall i | 0 <= i < k :: !Matches(ItemOf(info, data, L[i]), idx, data16)
          invariant k < |L| ==> L[k] in L
          decreases |L| - k
        {
          NextOf(next, list0, L, k);
          list, k := next[list], k + 1;
        }
      } else {
        while list != -1 && Low(data[info[list]]) != data16
          invariant k <= |L| && list == (if k < |L| then L[k] else -1)
          invariant forall i | 0 <= i < k :: !Matches(ItemOf(info, data, L[i]), idx, data16)
          invariant k < |L| ==> L[k] in L
          decreases |L| - k
        {
          NextOf(next, list0, L, k);
          list, k := next[list], k + 1;
        }
      }
      FirstMatchIs(info, data, L, idx, data16, k);
    }

    /** core_list_reverse. */
    method Reverse(list0: int, ghost L: seq<nat>) returns (r: int)
      requires ListAt(next, list0, L) && Distinct(L)
      modifies this`next
      ensures ListAt(next, r, Reversed(L)) && NextKept(old(next), next, L)
    {
      var list := list0;
      r := -1;
      ghost var k := 0;
      assert L[0..] == L && L[..0] == [];
      while list != -1
        invariant k <= |L| && ListAt(next, list, L[k..]) && ListAt(next, r, Reversed(L[..k]))
        invariant NextKept(old(next), next, L)
        decreases |L| - k
      {
        ReverseStep(next, list, r, L, k);
        var tmp := next[list];
        next := next[list := r];
        r := list;
        list := tmp;
        k := k + 1;
      }
      assert L[..k] == L;
    }

    /** The benchmark's caching move: the node after the found one becomes the second of the list. */
    method MoveUp(list: int, found: int, ghost X: seq<nat>, ghost k: nat)
      requires ListAt(next, list, X) && Distinct(X) && k < |X| && found == X[k]
      modifies this`next
      ensures ListAt(next, list, MovedUp(X, k)) && NextKept(old(next), next, X)
    {
      if next[found] != -1 {
        MovedUpList(next, X, k);
        var finder := next[found];
        next := next[found := next[finder]];
        next := next[finder := next[list]];
        next := next[list := finder];
      }
    }

    /** core_list_remove: the next node is unlinked, after its item has changed places with the
        item of the node given. */
    method Remove(item: nat) returns (ret: nat)
      requires item < |next| == |info| && 0 <= next[item] < |next|
      modifies this`next, this`info
      ensures ret == old(next)[item]
      ensures info == old(info)[item := old(info)[ret]][ret := old(info)[item]]
      ensures next == old(next)[item := old(next)[ret]][ret := -1]
    {
      ret := next[item];
      var tmp := info[item];
      info := info[item := info[ret]];
      info := info[ret := tmp];
      next := next[item := next[next[item]]];
      next := next[ret := -1];
    }

    /** core_list_undo_remove: the removed node is linked back in and the items change places again. */
    method UndoRemove(removed: nat, modified: nat)
      requires removed < |next| == |info| && modified < |next|
      modifies this`next, this`info
      ensures info == old(info)[removed := old(info)[modified]][modified := old(info)[removed]]
      ensures next == old(next)[removed := old(next)[modified]][modified := removed]
    {
      var tmp := info[removed];
      info := info[removed := info[modified]];
      info := info[modified := tmp];
      next := next[removed := next[modified]];
      next := next[modified := removed];
    }

    /** One round of the benchmark's first loop: find, reverse, score, and move up what follows the found. */
    method FindOnce(list0: int, idx: int, i: nat, ghost L: seq<nat>)
      returns (list: int, hit: bool, add: nat, ghost O: seq<nat>)
      requires ListAt(next, list0, L) && Distinct(L) && Carried(info, data, L) && |L| >= 2
      modifies this`next
      ensures ListAt(next, list, O) && Distinct(O) && multiset(O) == multiset(L) && NextKept(old(next), next, L)
      ensures var k := FirstMatch(info, data, L, idx, i % 256);
        O == Moved(L, k) && hit == (k < |L|) && add == Score(info, data, L, k)
      ensures exists k: nat ::
        && k <= |L| && (forall j | 0 <= j < k :: !Matches(ItemOf(info, data, L[j]), idx, i % 256))
        && (k < |L| ==> Matches(ItemOf(info, data, L[k]), idx, i % 256))
        && hit == (k < |L|) && RoundOrder(L, O, k) && Relinked(next, list, L, k)
    {
      hide ListAt, Distinct, Carried, NextKept, Matches, Reversed, MovedUp, FirstMatch, Relinked, RoundOrder;
      FirstMatchMeans(info, data, L, idx, i % 256);
      MovedOrder(L, FirstMatch(info, data, L, idx, i % 256));
      ghost var k;
      var thisFind;
      thisFind, k := Find(list0, idx, i % 256, L);
      list := Reverse(list0, L);
      O := Reversed(L);
      ReversedNodes(L);
      hit := thisFind != -1;
      if !hit {
        NextOf(next, list, O, 0);
        HeadOf(next, list, O);
        ReversedAt(L, |L| - 1);
        ReversedAt(L, |L| - 2);
        CarriedAt(info, data, L, L[|L| - 2]);
        add := High(data[info[next[list]]]) % 2;
      } else {
        ghost var next1, n := next, |L| - 1 - k;
        CarriedAt(info, data, L, L[k]);
        var d := data[info[thisFind]].data16;
        add := if d % 2 == 1 then d / 512 % 2 else 0;
        ReversedAt(L, k);
        MovedUpNodes(O, n);
        MoveUp(list, thisFind, O, n);
        SameMembers(L, O, L, L);
        NextKeptAgain(old(next), next1, next, O, L);
        O := MovedUp(O, n);
      }
      RoundLinks(next, list, L, k);
    }

    /** The benchmark's first loop. */
    method FindRounds(list0: int, findNum: int, finderIdx: int, data16: int, ghost L: seq<nat>)
      returns (list: int, idx: int, last: int, found: nat, missed: nat, score: nat, ghost O: seq<nat>)
      requires ListAt(next, list0, L) && Distinct(L) && Carried(info, data, L) && |L| >= 3
      modifies this`next
      ensures ListAt(next, list, O) && Distinct(O) && multiset(O) == multiset(L) && NextKept(old(next), next, L)
      ensures Search(O, idx, found, missed, score) == Rounds(info, data, L, finderIdx, Max0(findNum))
      ensures last == LastData16(findNum, data16)
    {
      hide ListAt, Distinct, Carried, NextKept, FirstMatch, Moved, Score, Relinked, RoundOrder, Matches, ItemOf;
      list, O, idx, last, found, missed, score := list0, L, finderIdx, data16, 0, 0, 0;
      var i := 0;
      KeptSame(next, L);
      while i < findNum
        invariant 0 <= i <= Max0(findNum) && last == LastData16(i, data16)
        invariant ListAt(next, list, O) && Distinct(O) && multiset(O) == multiset(L) && |O| == |L|
        invariant NextKept(old(next), next, L) && Carried(info, data, O)
        invariant Search(O, idx, found, missed, score) == Rounds(info, data, L, finderIdx, i)
        decreases findNum - i
      {
        ghost var O1, next0 := O, next;
        last := i % 256;
        var hit, add;
        list, hit, add, O := FindOnce(list, idx, i, O);
        SameMembers(O1, O1, O, L);
        NextKeptAgain(old(next), next0, next, O1, L);
        CarriedSame(info, data, O1, O);
        if hit { found := found + 1; } else { missed := missed + 1; }
        score := score + add;
        idx := NextIdx(idx);
        i := i + 1;
      }
    }

    /** The benchmark's checksum loops: crc16 of the first item, once for every node from finder on. */
    method CrcNodes(list: nat, finder0: int, crc0: bv16, ghost X: seq<nat>) returns (crc: bv16)
      requires list < |info| && info[list] < |data| && ListAt(next, finder0, X)
      ensures crc == CrcTimes(Bits(data[info[list]].data16), |X|, crc0)
    {
      hide Crc.Crc16Of, Bits, ListAt;
      crc := crc0;
      var finder := finder0;
      ghost var i := 0;
      HeadIs(next, finder, X);
      while finder != -1
        invariant i <= |X| && finder == (if i < |X| then X[i] else -1)
        invariant crc == CrcTimes(Bits(data[info[list]].data16), i, crc0)
        decreases |X| - i
      {
        NextOf(next, finder0, X, i);
        crc := Crc.CrcU16(Bits(data[info[list]].data16), crc);
        finder := next[finder];
        i := i + 1;
      }
    }

    /** The benchmark's removal: unlink the node behind the second one, find in what is left, add the
        checksum of the rest from there, and undo the removal. */
    method RemoveAndCrc(list: int, idx: int, data16: int, crc0: bv16, ghost O: seq<nat>) returns (crc: bv16)
      requires ListAt(next, list, O) && Distinct(O) && |O| >= 3 && Carried(info, data, O) && |next| == |info|
      modifies this`next, this`info
      ensures next == old(next) && info == old(info)
      ensures crc == RemovedCrc(info, data, O, idx, data16, crc0)
    {
      hide ListAt, Distinct, Carried, FirstMatch, CrcTimes;
      ghost var next0, info0, T := next, info, WithoutThird(O);
      SecondNode(next, list, O);
      RemovedList(next, info, data, list, O);
      RemoveUndone(next, info, list, O);
      var removed := Remove(next[list]);
      var finder, k := Find(list, idx, data16, T);
      ListSuffix(next, list, T, if finder == -1 then 1 else k);
      if finder == -1 { finder := next[list]; }
      CarriedAt(info, data, T, O[0]);
      crc := CrcNodes(list, finder, crc0, T[if k < |T| then k else 1..]);
      UndoRemove(removed, next[list]);
    }

    /** core_bench_list, on a list of at least three nodes; data16 is what the stack holds where info.data16 is.
        O2 and data2 are the list and its data between the two sorts. */
    method BenchList(list0: int, findNum: int, finderIdx: Short, data16: int, ghost L: seq<nat>)
      returns (list: int, retval: bv16, ghost O: seq<nat>, ghost O2: seq<nat>, ghost data2: seq<Item>)
      requires ListAt(next, list0, L) && Distinct(L) && |L| >= 3 && Carried(info, data, L) && |next| == |info|
      modifies this`next, this`info, this`data, this`res
      ensures ListAt(next, list, O) && multiset(O) == multiset(L) && info == old(info)
      ensures |data| == |old(data)|
      ensures forall j | 0 <= j < |data| :: data[j].idx == old(data)[j].idx && High(data[j]) == High(old(data)[j])
      ensures forall x | x in L :: Low(ItemOf(info, data, x)) == High(ItemOf(info, data, x))
      ensures forall i, j | 0 <= i < j < |O| :: ItemOf(info, data, O[i]).idx <= ItemOf(info, data, O[j]).idx
      ensures NextKept(old(next), next, L)
      ensures var s := Rounds(info, old(data), L, finderIdx, Max0(findNum));
        && |O2| == |O| == |L| && multiset(O2) == multiset(L)
        && (finderIdx <= 0 ==> O2 == s.order && data2 == old(data))
        && (finderIdx > 0 ==> Sorted(Complex, info, data2, Positions(s.order), O2))
        && (finderIdx > 0 ==> AllEvolved(Complex, old(data), data2))
        && Sorted(Idx(true), info, data, Positions(O2), O) && AllEvolved(Idx(true), data2, data)
        && retval == Checksum(info, data2, data, s, LastData16(findNum, data16), O2, O)
      ensures if finderIdx > 0 then Traced(Complex, bench, old(data), old(res), data2, res) else res == old(res)
      ensures Answer(info, old(data), data2, data, L, O2, O, finderIdx, if findNum < 0 then 0 else findNum,
                     if findNum > 0 then (findNum - 1) % 256 else data16, retval)
      ensures Tidy(info, old(data), L) ==> (O == L <==> TiesKept(info, old(data), L, O2))
    {
      hide ListAt, Distinct, Sorted, Carried, NextKept, AllEvolved, Evolved, Rounds, RemovedCrc, CrcTimes, Positions,
           TiesKept, Tidy, GoodItem, Answer, Grew;
      var idx, last, found, missed, score;
      list, idx, last, found, missed, score, O := FindRounds(list0, findNum, finderIdx, data16, L);
      ghost var s := Rounds(info, data, L, finderIdx, Max0(findNum));
      SameMembers(L, L, O, L);
      CarriedSame(info, data, L, O);
      retval := Bits((score + found * 4) as int - missed);
      ghost var data0 := data;
      if finderIdx > 0 {
        ghost var O1, next0 := O, next;
        list, O := MergeSort(list, Complex, O);
        SameMembers(O1, O1, O, L);
        NextKeptAgain(old(next), next0, next, O1, L);
        CarriedKept(Complex, info, data0, data, O1);
        CarriedSame(info, data, O1, O);
      }
      EvolvedKeeps(Complex, data0, data);
      O2, data2 := O, data;
      SameSize(old(next), next, L);
      retval := RemoveAndCrc(list, idx, last, retval, O);
      ghost var next2 := next;
      list, O := MergeSort(list, Idx(true), O);
      SameMembers(O2, O2, O, L);
      NextKeptAgain(old(next), next2, next, O2, L);
      EvolvedKeeps(Idx(true), data2, data);
      SortedByIdx(info, data, Positions(O2), O);
      CarriedKept(Idx(true), info, data2, data, O2);
      CarriedSame(info, data, O2, O);
      SecondNode(next, list, O);
      CarriedAt(info, data, O, O[0]);
      ListSuffix(next, list, O, 1);
      retval := CrcNodes(list, next[list], retval, O[1..]);
      TidyRestored(info, data0, data, L, O2, O);
      NodesThere(info, data0, L);
      ChecksumMeans(info, data0, data2, data, L, O2, O, finderIdx, Max0(findNum), LastData16(findNum, data16));
    }
  }

  // ---------------------------------------------------------------- what the benchmark returns

  function Max0(n: int): nat { if n < 0 then 0 else n }

  /** A 16-bit register's contents for an integer. */
  function Bits(n: int): bv16 { (n % 0x1_0000) as bv16 }

  /** Bits 3 to 6 of the item, replicated to eight bits; core_bench_state gets at least 0x22. */
  function Dtype(d: Item): nat
  {
    var t := d.data16 / 8 % 16 * 17;
    if d.data16 % 8 == 0 && t < 0x22 then 0x22 else t
  }

  /** The value of an item that is not cached: what one of the two benchmarks returns, or the item itself. */
  function Computed(bench: (nat, nat, nat, bv16) -> nat, d: Item, res: Results): nat
  {
    if d.data16 % 8 < 2 then bench(res.calls, d.data16 % 8, Dtype(d), res.crc) else d.data16
  }

  /** What calc_func does to item j and the results. */
  function Calc(bench: (nat, nat, nat, bv16) -> nat, data: seq<Item>, res: Results, j: nat): (r: (seq<Item>, Results))
    requires j < |data|
    ensures |r.0| == |data|
  {
    if Cached(data[j]) then (data, res)
    else
      var flag, v := data[j].data16 % 8, Computed(bench, data[j], res);
      (data[j := Cache(data[j], v)],
       Results(Crc.Crc16Of(Bits(v), res.crc), if flag == 0 && res.crcstate == 0 then Bits(v) else res.crcstate,
               if flag == 1 && res.crcmatrix == 0 then Bits(v) else res.crcmatrix,
               if flag < 2 then res.calls + 1 else res.calls))
  }

  // ---------------------------------------------------------------- what comparing computes

  /** The items and results after calc_func has been called on the items of the log, in that order. */
  ghost function Replay(bench: (nat, nat, nat, bv16) -> nat, data: seq<Item>, res: Results, log: seq<nat>):
      (r: (seq<Item>, Results))
    ensures |r.0| == |data|
  {
    if log == [] then (data, res)
    else
      var s := Replay(bench, data, res, log[..|log| - 1]);
      var j := log[|log| - 1];
      if j < |data| then Calc(bench, s.0, s.1, j) else s
  }

  /** data and res became data' and res' by calls of calc_func that all found nothing cached. */
  ghost predicate Grew(bench: (nat, nat, nat, bv16) -> nat, data: seq<Item>, res: Results,
                       data': seq<Item>, res': Results)
  {
    exists log :: AllNew(bench, data, res, log) && Replay(bench, data, res, log) == (data', res')
  }

  ghost predicate AllNew(bench: (nat, nat, nat, bv16) -> nat, data: seq<Item>, res: Results, log: seq<nat>)
  {
    forall i | 0 <= i < |log| :: log[i] < |data| && !Cached(Replay(bench, data, res, log[..i]).0[log[i]])
  }

  /** What comparing may do to the results: nothing by idx; by content, calls of calc_func. */
  ghost predicate Traced(cmp: Cmp, bench: (nat, nat, nat, bv16) -> nat, data: seq<Item>, res: Results,
                         data': seq<Item>, res': Results)
  {
    if cmp == Complex then Grew(bench, data, res, data', res') else res' == res
  }

  lemma TracedSame(cmp: Cmp, bench: (nat, nat, nat, bv16) -> nat, data: seq<Item>, res: Results)
    ensures Traced(cmp, bench, data, res, data, res)
  {
    hide Calc;
    assert AllNew(bench, data, res, []) && Replay(bench, data, res, []) == (data, res);
  }

  lemma GrewOne(bench: (nat, nat, nat, bv16) -> nat, data: seq<Item>, res: Results, j: nat)
    requires j < |data|
    ensures var s := Calc(bench, data, res, j); Grew(bench, data, res, s.0, s.1)
  {
    if Cached(data[j]) {
      TracedSame(Complex, bench, data, res);
    } else {
      hide Calc;
      assert [j][..0] == [];
      assert Replay(bench, data, res, []) == (data, res);
      assert AllNew(bench, data, res, [j]) && Replay(bench, data, res, [j]) == Calc(bench, data, res, j);
    }
  }

  lemma TracedTwo(cmp: Cmp, bench: (nat, nat, nat, bv16) -> nat, data: seq<Item>, res: Results, a: nat, b: nat,
                  data': seq<Item>, res': Results)
    requires a < |data| && b < |data|
    requires cmp == Complex ==> var s := Calc(bench, data, res, a); (data', res') == Calc(bench, s.0, s.1, b)
    requires cmp != Complex ==> res' == res
    ensures Traced(cmp, bench, data, res, data', res')
  {
    hide Calc, Grew;
    if cmp == Complex {
      var s := Calc(bench, data, res, a);
      GrewOne(bench, data, res, a);
      GrewOne(bench, s.0, s.1, b);
      TracedTrans(cmp, bench, data, res, s.0, s.1, data', res');
    }
  }

  lemma {:induction false} ReplayAppend(bench: (nat, nat, nat, bv16) -> nat, data: seq<Item>, res: Results,
                                        xs: seq<nat>, ys: seq<nat>)
    ensures var s := Replay(bench, data, res, xs); Replay(bench, data, res, xs + ys) == Replay(bench, s.0, s.1, ys)
  {
    hide Calc;
    if ys == [] {
      assert xs + ys == xs;
    } else {
      ReplayAppend(bench, data, res, xs, ys[..|ys| - 1]);
      assert (xs + ys)[..|xs + ys| - 1] == xs + ys[..|ys| - 1];
    }
  }

  lemma TracedTrans(cmp: Cmp,
                    bench: (nat, nat, nat, bv16) -> nat, d0: seq<Item>, r0: Results, d1: seq<Item>, r1: Results,
                    d2: seq<Item>, r2: Results)
    requires Traced(cmp, bench, d0, r0, d1, r1) && Traced(cmp, bench, d1, r1, d2, r2)
    ensures Traced(cmp, bench, d0, r0, d2, r2)
  {
    hide Replay, Cached;
    if cmp == Complex {
      var xs :| AllNew(bench, d0, r0, xs) && Replay(bench, d0, r0, xs) == (d1, r1);
      var ys :| AllNew(bench, d1, r1, ys) && Replay(bench, d1, r1, ys) == (d2, r2);
      ReplayAppend(bench, d0, r0, xs, ys);
      forall i | 0 <= i < |xs + ys|
        ensures (xs + ys)[i] < |d0| && !Cached(Replay(bench, d0, r0, (xs + ys)[..i]).0[(xs + ys)[i]])
      {
        if i < |xs| {
          assert (xs + ys)[..i] == xs[..i];
        } else {
          ReplayAppend(bench, d0, r0, xs, ys[..i - |xs|]);
          assert (xs + ys)[..i] == xs + ys[..i - |xs|];
        }
      }
    }
  }

  /** Every item that has become cached was computed exactly once, and the CRC is that of the computed values in the
      order of the log; items whose type asks for no benchmark are their own value. */
  ghost predicate ComputedOnce(data: seq<Item>, res: Results, data': seq<Item>, res': Results,
                               log: seq<nat>, vs: seq<nat>)
  {
    && |log| == |vs| && Distinct(log) && |data'| == |data|
    && (forall j: nat | j < |data| :: j in log <==> !Cached(data[j]) && Cached(data'[j]))
    && (forall j: nat | j < |data| && j !in log :: data'[j] == data[j])
    && (forall i | 0 <= i < |log| ::
          && log[i] < |data| && data'[log[i]] == Cache(data[log[i]], vs[i])
          && (data[log[i]].data16 % 8 >= 2 ==> vs[i] == data[log[i]].data16))
    && res'.crc == Crc.Stream(Words(vs), res.crc)
  }

  function Words(vs: seq<nat>): (ws: seq<bv16>)
    ensures |ws| == |vs|
  {
    seq(|vs|, i requires 0 <= i < |vs| => Bits(vs[i]))
  }

  lemma OnceEach(bench: (nat, nat, nat, bv16) -> nat, data: seq<Item>, res: Results, data': seq<Item>, res': Results)
      returns (log: seq<nat>, vs: seq<nat>)
    requires Grew(bench, data, res, data', res')
    ensures ComputedOnce(data, res, data', res', log, vs)
  {
    hide AllNew, Replay, ComputedOnce;
    log :| AllNew(bench, data, res, log) && Replay(bench, data, res, log) == (data', res');
    vs := ReplayOnce(bench, data, res, log);
  }

  lemma {:induction false} ReplayOnce(bench: (nat, nat, nat, bv16) -> nat, data: seq<Item>, res: Results, log: seq<nat>)
      returns (vs: seq<nat>)
    requires AllNew(bench, data, res, log)
    ensures var s := Replay(bench, data, res, log); ComputedOnce(data, res, s.0, s.1, log, vs)
  {
    hide Cached, ComputedOnce, Calc;
    if log == [] {
      vs := [];
      NothingComputed(data, res);
    } else {
      var n := |log| - 1;
      ReplayNew(bench, data, res, log);
      var us := ReplayOnce(bench, data, res, log[..n]);
      var s := Replay(bench, data, res, log[..n]);
      assert log[..n] + [log[n]] == log;
      vs := OneMoreComputed(bench, data, res, s.0, s.1, log[..n], us, log[n]);
    }
  }

  lemma ReplayNew(bench: (nat, nat, nat, bv16) -> nat, data: seq<Item>, res: Results, log: seq<nat>)
    requires AllNew(bench, data, res, log) && log != []
    ensures AllNew(bench, data, res, log[..|log| - 1])
    ensures var s := Replay(bench, data, res, log[..|log| - 1]);
      log[|log| - 1] < |data| && !Cached(s.0[log[|log| - 1]])
  {
    hide Replay, Cached;
    var xs := log[..|log| - 1];
    forall i | 0 <= i < |xs| ensures xs[i] < |data| && !Cached(Replay(bench, data, res, xs[..i]).0[xs[i]]) {
      assert xs[..i] == log[..i];
    }
  }

  lemma NothingComputed(data: seq<Item>, res: Results)
    ensures ComputedOnce(data, res, data, res, [], [])
  {
    hide Cached;
    assert Words([]) == [];
  }

  lemma OneMoreComputed(bench: (nat, nat, nat, bv16) -> nat, data: seq<Item>, res: Results, d1: seq<Item>, r1: Results,
                        log: seq<nat>, us: seq<nat>, j: nat) returns (vs: seq<nat>)
    requires ComputedOnce(data, res, d1, r1, log, us) && j < |data| && |d1| == |data| && !Cached(d1[j])
    ensures var s := Calc(bench, d1, r1, j); ComputedOnce(data, res, s.0, s.1, log + [j], vs)
  {
    var v := Computed(bench, d1[j], r1);
    vs := us + [v];
    CacheTouches(d1[j], v);
    hide Cached, Crc.Crc16Of, Bits, Cache;
    assert j !in log;
    assert Words(vs)[..|us|] == Words(us) && Words(vs)[|us|] == Bits(v);
  }

  /** Both nibbles are the four bits, unless they are raised to the least value core_bench_state gets. */
  lemma DtypeNibbles(d: Item)
    ensures var t, x := Dtype(d), d.data16 / 8 % 16;
      if d.data16 % 8 == 0 && x < 2 then t == 0x22 else t % 16 == x && t / 16 == x
  {
  }

  /** info.idx++ of a 16-bit idx that is not negative. */
  function NextIdx(idx: int): int { if idx < 0 then idx else if idx == 0x7fff then -0x8000 else idx + 1 }

  /** info.data16 after the first loop. */
  function LastData16(n: int, data16: int): int { if n > 0 then (n - 1) % 256 else data16 }

  ghost function FirstMatch(info: seq<nat>, data: seq<Item>, L: seq<nat>, idx: int, data16: int): (k: nat)
    ensures k <= |L|
    decreases L
  {
    if L == [] || Matches(ItemOf(info, data, L[0]), idx, data16) then 0
    else 1 + FirstMatch(info, data, L[1..], idx, data16)
  }

  /** It is the first node that matches, and there is none when it is the length. */
  lemma {:induction false} FirstMatchMeans(info: seq<nat>, data: seq<Item>, L: seq<nat>, idx: int, data16: int)
    ensures var k := FirstMatch(info, data, L, idx, data16);
      && (forall i | 0 <= i < k :: !Matches(ItemOf(info, data, L[i]), idx, data16))
      && (k < |L| ==> Matches(ItemOf(info, data, L[k]), idx, data16))
    decreases L
  {
    hide Matches, ItemOf;
    if L != [] && !Matches(ItemOf(info, data, L[0]), idx, data16) {
      FirstMatchMeans(info, data, L[1..], idx, data16);
      var k := FirstMatch(info, data, L, idx, data16);
      forall i | 0 <= i < k ensures !Matches(ItemOf(info, data, L[i]), idx, data16) {
        if i > 0 { assert L[i] == L[1..][i - 1]; }
      }
    }
  }

  lemma {:induction false} FirstMatchIs(info: seq<nat>, data: seq<Item>, L: seq<nat>, idx: int, data16: int, k: nat)
    requires k <= |L| && forall i | 0 <= i < k :: !Matches(ItemOf(info, data, L[i]), idx, data16)
    requires k < |L| ==> Matches(ItemOf(info, data, L[k]), idx, data16)
    ensures FirstMatch(info, data, L, idx, data16) == k
    decreases L
  {
    hide Matches, ItemOf;
    if k > 0 {
      assert forall i | 0 <= i < k - 1 :: L[1..][i] == L[i + 1];
      FirstMatchIs(info, data, L[1..], idx, data16, k - 1);
    }
  }

  /** The list after a round that found position k, or nothing if k is the length. */
  ghost function Moved(L: seq<nat>, k: nat): (O: seq<nat>)
    ensures |O| == |L|
  {
    if k < |L| then MovedUp(Reversed(L), |L| - 1 - k) else Reversed(L)
  }

  /** What the round adds: bit 9 of a found item whose bit 0 is set; if nothing is found, bit 8 of the item
      that is second from the end of the list, and so second when the list is reversed. */
  ghost function Score(info: seq<nat>, data: seq<Item>, L: seq<nat>, k: nat): nat
    requires |L| >= 2
  {
    if k == |L| then High(ItemOf(info, data, L[|L| - 2])) % 2
    else
      var d := ItemOf(info, data, if k < |L| then L[k] else 0).data16;
      if d % 2 == 1 then d / 512 % 2 else 0
  }

  datatype Search = Search(order: seq<nat>, idx: int, found: nat, missed: nat, score: nat)

  /** After n rounds of the first loop. */
  ghost function Rounds(info: seq<nat>, data: seq<Item>, L: seq<nat>, idx: int, n: nat): (s: Search)
    requires |L| >= 2
    ensures |s.order| == |L|
  {
    if n == 0 then Search(L, idx, 0, 0, 0)
    else
      var s := Rounds(info, data, L, idx, n - 1);
      var k := FirstMatch(info, data, s.order, s.idx, (n - 1) % 256);
      var hit := if k < |L| then 1 else 0;
      Search(Moved(s.order, k), NextIdx(s.idx), s.found + hit, s.missed + 1 - hit,
             s.score + Score(info, data, s.order, k))
  }

  ghost function CrcTimes(w: bv16, n: nat, crc: bv16): bv16
  {
    if n == 0 then crc else Crc.Crc16Of(w, CrcTimes(w, n - 1, crc))
  }

  function WithoutThird(O: seq<nat>): seq<nat>
    requires |O| >= 3
  {
    O[..2] + O[3..]
  }

  /** info while the third node is removed: the second and the third have changed items. */
  ghost function Exchanged(info: seq<nat>, O: seq<nat>): seq<nat>
    requires |O| >= 3
  {
    if O[1] < |info| && O[2] < |info| then info[O[1] := info[O[2]]][O[2] := info[O[1]]] else info
  }

  /** The checksum taken while the third node is removed: from the first match on, or all but the first node. */
  ghost function RemovedCrc(info: seq<nat>, data: seq<Item>, O: seq<nat>, idx: int, data16: int, crc: bv16): bv16
    requires |O| >= 3
  {
    var T, held := WithoutThird(O), Exchanged(info, O);
    var k := FirstMatch(held, data, T, idx, data16);
    CrcTimes(Bits(ItemOf(held, data, O[0]).data16), if k < |T| then |T| - k else |T| - 1, crc)
  }

  /** retval of core_bench_list, from the result s of the first loop and the lists O2 and O before and after
      the last sort. */
  ghost function Checksum(info: seq<nat>, data2: seq<Item>, data: seq<Item>, s: Search, data16: int, O2: seq<nat>,
                          O: seq<nat>): bv16
    requires |O2| >= 3 && |O| >= 1
  {
    var first := RemovedCrc(info, data2, O2, s.idx, data16, Bits((s.score + s.found * 4) as int - s.missed));
    CrcTimes(Bits(ItemOf(info, data, O[0]).data16), |O| - 1, first)
  }

  lemma HeadOf(next: seq<int>, p: int, xs: seq<nat>)
    requires ListAt(next, p, xs) && xs != []
    ensures p == xs[0] && 0 <= p < |next|
  {
  }

  lemma HeadIs(next: seq<int>, p: int, xs: seq<nat>)
    requires ListAt(next, p, xs)
    ensures p == if xs == [] then -1 else xs[0]
  {
  }

  lemma ListSuffix(next: seq<int>, p: int, xs: seq<nat>, k: nat)
    requires ListAt(next, p, xs) && k <= |xs|
    ensures ListAt(next, if k < |xs| then xs[k] else -1, xs[k..])
    ensures 0 < k ==> xs[k - 1] < |next| && next[xs[k - 1]] == if k < |xs| then xs[k] else -1
  {
    var ys := xs[k..];
    forall i | 0 <= i < |ys| ensures ys[i] < |next| && next[ys[i]] == if i + 1 < |ys| then ys[i + 1] else -1 {
      assert ys[i] == xs[k + i] && (i + 1 < |ys| ==> ys[i + 1] == xs[k + i + 1]);
      NextOf(next, p, xs, k + i);
    }
    if ys != [] { ListFrom(next, xs[k], ys); }
    if k > 0 { NextOf(next, p, xs, k - 1); }
  }

  lemma SameSize(next: seq<int>, next': seq<int>, xs: seq<nat>)
    requires NextKept(next, next', xs)
    ensures |next'| == |next|
  {
  }

  lemma RemovedList(next: seq<int>, info: seq<nat>, data: seq<Item>, list: int, O: seq<nat>)
    requires ListAt(next, list, O) && Distinct(O) && |O| >= 3 && Carried(info, data, O) && |next| == |info|
    ensures O[1] < |next| && O[2] < |next| && list == O[0]
    ensures ListAt(next[O[1] := next[O[2]]][O[2] := -1], list, WithoutThird(O))
    ensures Carried(Exchanged(info, O), data, WithoutThird(O))
  {
    SecondNode(next, list, O);
    var T := WithoutThird(O);
    var n1 := next[O[1] := next[O[2]]][O[2] := -1];
    forall i | 0 <= i < |T| ensures T[i] < |n1| && n1[T[i]] == if i + 1 < |T| then T[i + 1] else -1 {
      var j := if i < 2 then i else i + 1;
      assert T[i] == O[j] && (i + 1 < |T| ==> T[i + 1] == O[if i + 1 < 2 then i + 1 else i + 2]);
      NextOf(next, list, O, j);
      NextOf(next, list, O, 2);
      assert O[j] != O[2] && (j != 1 ==> O[j] != O[1]);
    }
    ListFrom(n1, list, T);
    forall x | x in T ensures x < |info| && Exchanged(info, O)[x] < |data| {
      assert x in O && O[1] in O && O[2] in O;
    }
  }

  ghost predicate SameNodes(M: seq<nat>, P: seq<nat>, Q: seq<nat>, P0: seq<nat>, Q0: seq<nat>)
  {
    multiset(M) + multiset(P) + multiset(Q) == multiset(P0) + multiset(Q0)
  }

  lemma AllThere(P0: seq<nat>, Q0: seq<nat>)
    ensures SameNodes([], P0, Q0, P0, Q0)
  {
  }

  lemma AllMerged(M: seq<nat>, P: seq<nat>, Q: seq<nat>, P0: seq<nat>, Q0: seq<nat>)
    requires SameNodes(M, P, Q, P0, Q0) && P == [] && Q == []
    ensures multiset(M) == multiset(P0) + multiset(Q0)
  {
  }

  lemma SameTakeP(M: seq<nat>, P: seq<nat>, Q: seq<nat>, P0: seq<nat>, Q0: seq<nat>)
    requires SameNodes(M, P, Q, P0, Q0) && P != []
    ensures SameNodes(M + [P[0]], P[1..], Q, P0, Q0)
  {
    MovedHead(M, P);
  }

  lemma SameTakeQ(M: seq<nat>, P: seq<nat>, Q: seq<nat>, P0: seq<nat>, Q0: seq<nat>)
    requires SameNodes(M, P, Q, P0, Q0) && Q != []
    ensures SameNodes(M + [Q[0]], P, Q[1..], P0, Q0)
  {
    MovedHead(M, Q);
  }

  /** One element moved from the head of P to the output. */
  lemma StepP(cmp: Cmp, info: seq<nat>, data: seq<Item>, pos: map<nat, nat>, next: seq<int>, list: int, tail: int,
              O: seq<nat>, M: seq<nat>, p: int, P: seq<nat>, q: int, Q: seq<nat>, R: seq<nat>,
              P0: seq<nat>, Q0: seq<nat>)
    requires Links(next, list, tail, O + M, p, P, q, Q + R) && Order(cmp, info, data, pos, M, P, Q) && P != []
    requires Q != [] ==>
      var d, e := ItemOf(info, data, P[0]), ItemOf(info, data, Q[0]);
      Ready(cmp, d) && Ready(cmp, e) && Key(cmp, d) <= Key(cmp, e)
    requires SameNodes(M, P, Q, P0, Q0)
    ensures 0 <= p < |next| && (tail == -1 <==> O + M == []) && tail < |next| && tail >= -1
    ensures Links(Link(next, tail, p), if tail == -1 then p else list, p, O + (M + [P[0]]), next[p], P[1..], q, Q + R)
    ensures Order(cmp, info, data, pos, M + [P[0]], P[1..], Q) && SameNodes(M + [P[0]], P[1..], Q, P0, Q0)
  {
    hide Links, Order, SameNodes;
    HeadsOf(next, list, tail, O + M, p, P, q, Q, R);
    OrderTakeP(cmp, info, data, pos, M, P, Q);
    TakeP(next, list, tail, O + M, p, P, q, Q + R);
    SameTakeP(M, P, Q, P0, Q0);
    assert O + M + [P[0]] == O + (M + [P[0]]);
  }

  /** One element moved from the head of Q to the output. */
  lemma StepQ(cmp: Cmp, info: seq<nat>, data: seq<Item>, pos: map<nat, nat>, next: seq<int>, list: int, tail: int,
              O: seq<nat>, M: seq<nat>, p: int, P: seq<nat>, q: int, Q: seq<nat>, R: seq<nat>,
              P0: seq<nat>, Q0: seq<nat>)
    requires Links(next, list, tail, O + M, p, P, q, Q + R) && Order(cmp, info, data, pos, M, P, Q) && Q != []
    requires P != [] ==>
      var d, e := ItemOf(info, data, P[0]), ItemOf(info, data, Q[0]);
      Ready(cmp, d) && Ready(cmp, e) && Key(cmp, e) < Key(cmp, d)
    requires SameNodes(M, P, Q, P0, Q0)
    ensures 0 <= q < |next| && (tail == -1 <==> O + M == []) && tail < |next| && tail >= -1
    ensures Links(Link(next, tail, q), if tail == -1 then q else list, q, O + (M + [Q[0]]), p, P, next[q], Q[1..] + R)
    ensures Order(cmp, info, data, pos, M + [Q[0]], P, Q[1..]) && SameNodes(M + [Q[0]], P, Q[1..], P0, Q0)
  {
    hide Links, Order, SameNodes;
    HeadsOf(next, list, tail, O + M, p, P, q, Q, R);
    OrderTakeQ(cmp, info, data, pos, M, P, Q);
    TakeQ(next, list, tail, O + M, p, P, q, Q + R);
    SameTakeQ(M, P, Q, P0, Q0);
    assert O + M + [Q[0]] == O + (M + [Q[0]]);
    assert (Q + R)[0] == Q[0] && (Q + R)[1..] == Q[1..] + R;
  }

  lemma Unchanged(cmp: Cmp, data: seq<Item>, next: seq<int>, xs: seq<nat>)
    ensures AllEvolved(cmp, data, data) && NextKept(next, next, xs)
  {
  }

  lemma OrderSorted(cmp: Cmp, info: seq<nat>, data: seq<Item>, pos: map<nat, nat>, M: seq<nat>, P: seq<nat>,
                    Q: seq<nat>)
    requires Order(cmp, info, data, pos, M, P, Q)
    ensures Sorted(cmp, info, data, pos, M)
  {
  }

  lemma CarriedAt(info: seq<nat>, data: seq<Item>, xs: seq<nat>, x: nat)
    requires Carried(info, data, xs) && x in xs
    ensures x < |info| && info[x] < |data| && forall d | d in data :: GoodItem(d)
  {
  }

  lemma CarriedKept(cmp: Cmp, info: seq<nat>, data: seq<Item>, data': seq<Item>, xs: seq<nat>)
    requires AllEvolved(cmp, data, data') && Carried(info, data, xs)
    ensures Carried(info, data', xs)
  {
    hide Evolved, GoodItem;
    forall d | d in data' ensures GoodItem(d) {
      var j :| 0 <= j < |data'| && data'[j] == d;
      assert data[j] in data;
    }
  }

  /** What the loop's tests on psize, qsize and q say about the sequences. */
  lemma HeadsOf(next: seq<int>, list: int, tail: int, O: seq<nat>, p: int, P: seq<nat>, q: int, Q: seq<nat>,
                R: seq<nat>)
    requires Links(next, list, tail, O, p, P, q, Q + R)
    ensures P != [] ==> p == P[0]
    ensures Q != [] ==> q == Q[0]
    ensures q == -1 <==> Q + R == []
    ensures tail == -1 <==> O == []
    ensures O != [] ==> 0 <= tail < |next| && tail == O[|O| - 1]
  {
    if Q + R != [] { assert q == (Q + R)[0]; }
  }

  lemma Members(O: seq<nat>, M: seq<nat>, P: seq<nat>, Q: seq<nat>, P0: seq<nat>, Q0: seq<nat>)
    requires SameNodes(M, P, Q, P0, Q0)
    ensures P != [] ==> P[0] in P0 + Q0
    ensures Q != [] ==> Q[0] in P0 + Q0
    ensures forall x | x in M || x in P || x in Q :: x in P0 + Q0
    ensures O + M != [] ==> (O + M)[|O + M| - 1] in O + P0 + Q0
  {
    forall x | x in M || x in P || x in Q ensures x in P0 + Q0 {
      assert x in multiset(M) + multiset(P) + multiset(Q);
      assert x in multiset(P0) + multiset(Q0);
    }
    if M != [] { assert M[|M| - 1] in M; }
  }

  lemma LinkKept(next: seq<int>, next1: seq<int>, tail: int, e: int, xs: seq<nat>)
    requires NextKept(next, next1, xs) && (tail >= 0 ==> tail in xs)
    ensures NextKept(next, Link(next1, tail, e), xs)
  {
  }

  // ---------------------------------------------------------------- one pass

  /** The state of a pass: O holds finished runs of 2s nodes, Z the rest of the list at p. */
  ghost predicate Rest(cmp: Cmp, info: seq<nat>, data: seq<Item>, pos: map<nat, nat>, next: seq<int>,
                       list: int, tail: int, O: seq<nat>, p: int, Z: seq<nat>, s: nat)
  {
    && s > 0 && Links(next, list, tail, O, -1, [], p, Z)
    && Runs(cmp, info, data, pos, O, 2 * s) && (Z != [] ==> Whole(O, 2 * s))
    && Earlier(pos, O, Z) && Runs(cmp, info, data, pos, Z, s)
  }

  lemma PassStarts(cmp: Cmp, info: seq<nat>, data: seq<Item>, pos: map<nat, nat>, next: seq<int>, p: int, L: seq<nat>,
                   s: nat)
    requires ListAt(next, p, L) && Distinct(L) && s > 0 && Runs(cmp, info, data, pos, L, s)
    ensures Rest(cmp, info, data, pos, next, -1, -1, [], p, L, s)
  {
  }

  lemma RestHead(cmp: Cmp, info: seq<nat>, data: seq<Item>, pos: map<nat, nat>, next: seq<int>,
                 list: int, tail: int, O: seq<nat>, p: int, Z: seq<nat>, s: nat)
    requires Rest(cmp, info, data, pos, next, list, tail, O, p, Z, s) && p != -1
    ensures Z != [] && p >= 0 && ListAt(next, p, Z)
  {
  }

  /** The two runs at p, cut off from the rest. */
  lemma SplitRest(cmp: Cmp, info: seq<nat>, data: seq<Item>, pos: map<nat, nat>, next: seq<int>,
                  list: int, tail: int, O: seq<nat>, p: int, Z: seq<nat>, s: nat)
    requires Rest(cmp, info, data, pos, next, list, tail, O, p, Z, s) && Z != []
    ensures var m := Min(s, |Z|); var Y := Z[m..]; var n := Min(s, |Y|);
      var P0, Q0, R := Z[..m], Y[..n], Y[n..];
      && Links(next, list, tail, O, p, P0, if m < |Z| then Z[m] else -1, Q0 + R)
      && Order(cmp, info, data, pos, [], P0, Q0)
      && Earlier(pos, P0, R) && Earlier(pos, Q0, R) && Runs(cmp, info, data, pos, R, s)
  {
    hide Sorted, Before, Earlier, Runs, Links;
    var m := Min(s, |Z|);
    var Y := Z[m..];
    var n := Min(s, |Y|);
    var P0, Q0, R := Z[..m], Y[..n], Y[n..];
    assert Y == Q0 + R;
    RunsHead(cmp, info, data, pos, Z, s);
    RunsHead(cmp, info, data, pos, Y, s);
    CutLinks(next, list, tail, O, p, Z, m);
    EarlierParts(pos, P0, Y, n);
    EmptySorted(cmp, info, data, pos);
  }

  lemma RunsHead(cmp: Cmp, info: seq<nat>, data: seq<Item>, pos: map<nat, nat>, xs: seq<nat>, s: nat)
    requires s > 0 && Runs(cmp, info, data, pos, xs, s)
    ensures var m := Min(s, |xs|);
      Sorted(cmp, info, data, pos, xs[..m]) && Earlier(pos, xs[..m], xs[m..]) && Runs(cmp, info, data, pos, xs[m..], s)
  {
    hide Before;
  }

  lemma EmptySorted(cmp: Cmp, info: seq<nat>, data: seq<Item>, pos: map<nat, nat>)
    ensures Sorted(cmp, info, data, pos, [])
    ensures forall xs :: Earlier(pos, [], xs) && Earlier(pos, xs, [])
  {
  }

  lemma EarlierParts(pos: map<nat, nat>, xs: seq<nat>, ys: seq<nat>, n: nat)
    requires n <= |ys| && Earlier(pos, xs, ys)
    ensures Earlier(pos, xs, ys[..n]) && Earlier(pos, xs, ys[n..])
  {
    assert forall y | y in ys[..n] :: y in ys;
    assert forall y | y in ys[n..] :: y in ys;
  }

  lemma CutLinks(next: seq<int>, list: int, tail: int, O: seq<nat>, p: int, Z: seq<nat>, m: nat)
    requires Links(next, list, tail, O, -1, [], p, Z) && 0 < m <= |Z|
    ensures Links(next, list, tail, O, p, Z[..m], if m < |Z| then Z[m] else -1, Z[m..])
  {
    ListStrung(next, p, Z, m);
    assert forall x | x in Z[..m] :: x in Z;
    assert forall x | x in Z[m..] :: x in Z;
    DistinctCut(Z, m);
  }

  lemma DistinctCut(Z: seq<nat>, m: nat)
    requires Distinct(Z) && m <= |Z|
    ensures Distinct(Z[..m]) && Distinct(Z[m..]) && Apart(Z[..m], Z[m..])
  {
    forall x | x in Z[..m] ensures x !in Z[m..] {
      var i :| 0 <= i < m && Z[i] == x;
      forall j | 0 <= j < |Z[m..]| ensures Z[m..][j] != x { assert Z[m..][j] == Z[m + j]; }
    }
  }

  lemma PartsOf(L: seq<nat>, O: seq<nat>, Z: seq<nat>, m: nat, n: nat, x: nat)
    requires m <= |Z| && n <= |Z[m..]| && multiset(O) + multiset(Z) == multiset(L)
    requires x in O || x in Z[..m] || x in Z[m..][..n] || x in Z[m..][n..]
    ensures x in L
  {
    if x !in O {
      assert x in Z[..m] ==> x in Z;
      assert x in Z[m..] ==> x in Z;
      assert x in Z;
    }
    assert x in multiset(O) + multiset(Z);
    assert x in multiset(L);
  }

  lemma CarriedPart(info: seq<nat>, data: seq<Item>, L: seq<nat>, O: seq<nat>, Z: seq<nat>, m: nat, n: nat)
    requires Carried(info, data, L) && multiset(O) + multiset(Z) == multiset(L) && m <= |Z| && n <= |Z[m..]|
    ensures Carried(info, data, Z[..m] + Z[m..][..n])
  {
    forall x | x in Z[..m] + Z[m..][..n] ensures x < |info| && info[x] < |data| { PartsOf(L, O, Z, m, n, x); }
  }

  lemma NextKeptTrans(a: seq<int>, b: seq<int>, c: seq<int>, xs: seq<nat>, L: seq<nat>, O: seq<nat>, Z: seq<nat>,
                      m: nat, n: nat)
    requires NextKept(a, b, L) && NextKept(b, c, xs) && multiset(O) + multiset(Z) == multiset(L)
    requires m <= |Z| && n <= |Z[m..]| && xs == O + Z[..m] + Z[m..][..n]
    ensures NextKept(a, c, L)
  {
    forall x: nat | x < |a| && x !in L ensures c[x] == a[x] {
      if x in xs { PartsOf(L, O, Z, m, n, x); }
    }
  }

  /** After the merge, one more finished run of 2s nodes, and the rest as it was. */
  lemma JoinRest(cmp: Cmp, info: seq<nat>, data0: seq<Item>, data: seq<Item>, pos: map<nat, nat>, next: seq<int>,
                 list: int, tail: int, O: seq<nat>, q: int, Z: seq<nat>, M: seq<nat>, s: nat)
    requires s > 0 && Z != [] && AllEvolved(cmp, data0, data)
    requires Runs(cmp, info, data0, pos, O, 2 * s) && Whole(O, 2 * s) && Earlier(pos, O, Z)
    requires Runs(cmp, info, data0, pos, Z, s)
    requires var m := Min(s, |Z|); var Y := Z[m..]; var n := Min(s, |Y|);
      var P0, Q0, R := Z[..m], Y[..n], Y[n..];
      && (exists p :: Links(next, list, tail, O + M, p, [], q, R))
      && Sorted(cmp, info, data, pos, M) && multiset(M) == multiset(P0) + multiset(Q0)
      && Earlier(pos, P0, R) && Earlier(pos, Q0, R) && Runs(cmp, info, data0, pos, R, s)
    ensures var m := Min(s, |Z|); var Y := Z[m..]; var n := Min(s, |Y|); var R := Y[n..];
      && Rest(cmp, info, data, pos, next, list, tail, O + M, q, R, s)
      && |M| == m + n && multiset(O + M) + multiset(R) == multiset(O) + multiset(Z)
      && |R| < |Z| && (R != [] ==> |M| == 2 * s)
  {
    hide Sorted, Runs, Whole, AllEvolved, Earlier, Links;
    var m := Min(s, |Z|);
    var Y := Z[m..];
    var n := Min(s, |Y|);
    var P0, Q0, R := Z[..m], Y[..n], Y[n..];
    MergedNodes(O, Z, M, m, n);
    RunsKept(cmp, info, data0, data, pos, O, 2 * s);
    RunsKept(cmp, info, data0, data, pos, R, s);
    EarlierMerged(pos, O, Z, M, P0, Q0, R);
    RunsAppend(cmp, info, data, pos, O, M, 2 * s);
    var p :| Links(next, list, tail, O + M, p, [], q, R);
    NoRun(next, list, tail, O + M, p, q, R);
  }

  lemma NoRun(next: seq<int>, list: int, tail: int, O: seq<nat>, p: int, q: int, R: seq<nat>)
    requires Links(next, list, tail, O, p, [], q, R)
    ensures Links(next, list, tail, O, -1, [], q, R)
  {
  }

  lemma MergedNodes(O: seq<nat>, Z: seq<nat>, M: seq<nat>, m: nat, n: nat)
    requires m <= |Z| && n <= |Z[m..]| && multiset(M) == multiset(Z[..m]) + multiset(Z[m..][..n])
    ensures |M| == m + n && Z == Z[..m] + (Z[m..][..n] + Z[m..][n..])
    ensures multiset(O + M) + multiset(Z[m..][n..]) == multiset(O) + multiset(Z)
  {
    var Y := Z[m..];
    assert Z == Z[..m] + Y && Y == Y[..n] + Y[n..];
    assert |multiset(M)| == |M| && |multiset(Z[..m])| == m && |multiset(Y[..n])| == n;
    assert multiset(Y) == multiset(Y[..n]) + multiset(Y[n..]);
    assert multiset(Z) == multiset(Z[..m]) + multiset(Y);
  }

  lemma EarlierMerged(pos: map<nat, nat>, O: seq<nat>, Z: seq<nat>, M: seq<nat>, P0: seq<nat>, Q0: seq<nat>,
                      R: seq<nat>)
    requires Z == P0 + (Q0 + R) && multiset(M) == multiset(P0) + multiset(Q0)
    requires Earlier(pos, O, Z) && Earlier(pos, P0, R) && Earlier(pos, Q0, R)
    ensures Earlier(pos, O, M) && Earlier(pos, O + M, R)
  {
    forall x | x in M ensures x in P0 || x in Q0 {
      assert x in multiset(M);
      assert x in multiset(P0) + multiset(Q0);
    }
    forall x, y | x in O && y in M ensures x in pos && y in pos && pos[x] < pos[y] { assert y in Z; }
    forall x, y | x in O && y in R ensures x in pos && y in pos && pos[x] < pos[y] { assert y in Z; }
  }

  lemma RestEnds(cmp: Cmp, info: seq<nat>, data: seq<Item>, pos: map<nat, nat>, next: seq<int>,
                 list: int, tail: int, O: seq<nat>, p: int, Z: seq<nat>, s: nat)
    requires Rest(cmp, info, data, pos, next, list, tail, O, p, Z, s) && p == -1
    ensures Z == [] && Distinct(O) && Runs(cmp, info, data, pos, O, 2 * s)
    ensures O != [] ==> 0 <= tail < |next| && tail in O && ListAt(next[tail := -1], list, O)
  {
    hide Runs, Whole, Earlier;
  }

  // ---------------------------------------------------------------- the whole sort

  /** Original positions in the list. */
  function Positions(L: seq<nat>): map<nat, nat>
  {
    if L == [] then map[] else Positions(L[..|L| - 1])[L[|L| - 1] := |L| - 1]
  }

  lemma {:induction false} PositionsAre(L: seq<nat>, i: nat)
    requires Distinct(L) && i < |L|
    ensures L[i] in Positions(L) && Positions(L)[L[i]] == i
  {
    var n := |L| - 1;
    if i < n {
      PositionsAre(L[..n], i);
      assert L[..n][i] == L[i];
    }
  }

  lemma {:induction false} SingleRuns(cmp: Cmp, info: seq<nat>, data: seq<Item>, L: seq<nat>, xs: seq<nat>)
    requires Distinct(L) && |xs| <= |L| && xs == L[|L| - |xs|..]
    ensures Runs(cmp, info, data, Positions(L), xs, 1)
    decreases |xs|
  {
    hide Before, Earlier, Distinct, Positions;
    if xs != [] {
      var k := |L| - |xs|;
      assert xs[1..] == L[k + 1..] && xs[..1] == [L[k]];
      SingleRuns(cmp, info, data, L, xs[1..]);
      EarlierSuffix(L, k);
    }
  }

  lemma EarlierSuffix(L: seq<nat>, k: nat)
    requires Distinct(L) && k < |L|
    ensures Earlier(Positions(L), [L[k]], L[k + 1..])
  {
    hide Positions;
    PositionsAre(L, k);
    forall y | y in L[k + 1..] ensures y in Positions(L) && k < Positions(L)[y] {
      var j :| 0 <= j < |L[k + 1..]| && L[k + 1..][j] == y;
      PositionsAre(L, k + 1 + j);
    }
  }

  lemma NextKeptAgain(a: seq<int>, b: seq<int>, c: seq<int>, xs: seq<nat>, L: seq<nat>)
    requires NextKept(a, b, L) && NextKept(b, c, xs) && forall x :: x in xs <==> x in L
    ensures NextKept(a, c, L)
  {
  }

  lemma CarriedSame(info: seq<nat>, data: seq<Item>, xs: seq<nat>, ys: seq<nat>)
    requires Carried(info, data, xs) && forall x :: x in xs <==> x in ys
    ensures Carried(info, data, ys)
  {
  }

  lemma OneRun(cmp: Cmp, info: seq<nat>, data: seq<Item>, pos: map<nat, nat>, xs: seq<nat>, s: nat)
    requires s > 0 && |xs| <= s && Runs(cmp, info, data, pos, xs, s)
    ensures Sorted(cmp, info, data, pos, xs)
  {
    hide Before;
    if xs != [] { assert xs[..Min(s, |xs|)] == xs; } else { EmptySorted(cmp, info, data, pos); }
  }

  // ---------------------------------------------------------------- the benchmark's list operations

  predicate Matches(d: Item, idx: int, data16: int)
  {
    if idx >= 0 then d.idx == idx else Low(d) == data16
  }

  function Reversed(xs: seq<nat>): (ys: seq<nat>)
    ensures |ys| == |xs|
  {
    if xs == [] then [] else [xs[|xs| - 1]] + Reversed(xs[..|xs| - 1])
  }

  lemma {:induction false} ReversedAt(xs: seq<nat>, i: nat)
    requires i < |xs|
    ensures Reversed(xs)[|xs| - 1 - i] == xs[i]
  {
    var n := |xs| - 1;
    if i < n { ReversedAt(xs[..n], i); }
  }

  lemma {:induction false} ReversedNodes(xs: seq<nat>)
    ensures multiset(Reversed(xs)) == multiset(xs) && (Distinct(xs) ==> Distinct(Reversed(xs)))
  {
    if xs != [] {
      var n := |xs| - 1;
      ReversedNodes(xs[..n]);
      assert xs == xs[..n] + [xs[n]];
      MultisetMembers(Reversed(xs[..n]), xs[..n]);
      if Distinct(xs) {
        assert xs[n] !in xs[..n];
        DistinctCons(xs[n], Reversed(xs[..n]));
      }
    }
  }

  lemma DistinctCons(e: nat, xs: seq<nat>)
    requires Distinct(xs) && e !in xs
    ensures Distinct([e] + xs)
  {
  }

  lemma ReverseStep(next: seq<int>, list: int, r: int, L: seq<nat>, k: nat)
    requires k < |L| && Distinct(L) && ListAt(next, list, L[k..]) && ListAt(next, r, Reversed(L[..k]))
    ensures 0 <= list < |next| && list in L
    ensures ListAt(next[list := r], next[list], L[k + 1..])
    ensures ListAt(next[list := r], list, Reversed(L[..k + 1]))
  {
    var x := L[k];
    assert L[k..][0] == x;
    NextOf(next, list, L[k..], 0);
    ListStrung(next, list, L[k..], 1);
    assert L[k..][1..] == L[k + 1..];
    assert L[..k + 1][..k] == L[..k];
    DistinctCut(L, k);
    assert x !in L[..k];
    DistinctCut(L, k + 1);
    assert x in L[..k + 1];
    ReversedNodes(L[..k]);
    MultisetMembers(Reversed(L[..k]), L[..k]);
    ListUpdated(next, r, Reversed(L[..k]), x, r);
    ListUpdated(next, next[list], L[k + 1..], x, r);
    ListCons(next[list := r], r, Reversed(L[..k]), x);
  }

  lemma ListUpdated(next: seq<int>, p: int, xs: seq<nat>, x: nat, v: int)
    requires ListAt(next, p, xs) && x !in xs && x < |next|
    ensures ListAt(next[x := v], p, xs)
  {
  }

  lemma ListCons(next: seq<int>, p: int, xs: seq<nat>, x: nat)
    requires ListAt(next, p, xs) && x < |next| && next[x] == p
    ensures ListAt(next, x, [x] + xs)
  {
    var ys := [x] + xs;
    forall i | 0 <= i < |ys|
      ensures ys[i] < |next| && next[ys[i]] == if i + 1 < |ys| then ys[i + 1] else -1
    {
      if i > 0 {
        assert ys[i] == xs[i - 1];
        assert i + 1 < |ys| ==> ys[i + 1] == xs[i];
        NextOf(next, p, xs, i - 1);
      }
    }
    ListFrom(next, x, ys);
  }

  /** The list after the node behind position k has moved up behind the first node. */
  function MovedUp(X: seq<nat>, k: nat): seq<nat>
    requires k < |X|
  {
    if k == 0 || k + 1 == |X| then X else [X[0], X[k + 1]] + X[1..k + 1] + X[k + 2..]
  }

  lemma MovedUpNodes(X: seq<nat>, k: nat)
    requires k < |X| && Distinct(X)
    ensures multiset(MovedUp(X, k)) == multiset(X) && Distinct(MovedUp(X, k))
  {
    if k > 0 && k + 1 < |X| {
      var a, b, c, d := [X[0]], X[1..k + 1], [X[k + 1]], X[k + 2..];
      assert X == a + b + c + d;
      assert MovedUp(X, k) == a + c + b + d;
      DistinctSame(X, MovedUp(X, k));
    }
  }

  lemma {:induction false} DistinctCount(xs: seq<nat>, x: nat)
    requires Distinct(xs)
    ensures multiset(xs)[x] <= 1
  {
    if xs != [] {
      var n := |xs| - 1;
      assert xs == xs[..n] + [xs[n]];
      assert xs[n] !in xs[..n];
      DistinctCount(xs[..n], x);
      assert multiset(xs) == multiset(xs[..n]) + multiset{xs[n]};
    }
  }

  lemma DistinctSame(xs: seq<nat>, ys: seq<nat>)
    requires Distinct(xs) && multiset(xs) == multiset(ys)
    ensures Distinct(ys)
  {
    forall i, j | 0 <= i < j < |ys| ensures ys[i] != ys[j] {
      DistinctCount(xs, ys[i]);
      assert ys == ys[..j] + ys[j..];
      assert ys[i] in ys[..j] && ys[j] in ys[j..];
      assert multiset(ys) == multiset(ys[..j]) + multiset(ys[j..]);
    }
  }

  /** The three stores of the move, seen from each node. */
  lemma MovedLinks(next: seq<int>, X: seq<nat>, k: nat, t: nat)
    requires X != [] && ListAt(next, X[0], X) && Distinct(X) && 0 < k && k + 1 < |X| && t < |X|
    ensures X[k] < |next| && X[k + 1] < |next| && X[0] < |next| && X[t] < |next|
    ensures var n1 := next[X[k] := next[X[k + 1]]];
      var n2 := n1[X[k + 1] := n1[X[0]]];
      n2[X[0] := X[k + 1]][X[t]] ==
        if t == 0 then X[k + 1] else if t == k + 1 then X[1]
        else if t == k then (if k + 2 < |X| then X[k + 2] else -1)
        else if t + 1 < |X| then X[t + 1] else -1
  {
    assert X[0] != X[k] && X[k] != X[k + 1] && X[0] != X[k + 1];
    assert t != 0 ==> X[t] != X[0];
    assert t != k ==> X[t] != X[k];
    assert t != k + 1 ==> X[t] != X[k + 1];
  }

  lemma MovedUpList(next: seq<int>, X: seq<nat>, k: nat)
    requires X != [] && ListAt(next, X[0], X) && Distinct(X) && k < |X| && next[X[k]] != -1
    ensures k + 1 < |X| && next[X[k]] == X[k + 1] && X[k + 1] < |next| && X[k] in X && X[k + 1] in X && X[0] in X
    ensures var n1 := next[X[k] := next[X[k + 1]]];
      var n2 := n1[X[k + 1] := n1[X[0]]];
      ListAt(n2[X[0] := X[k + 1]], X[0], MovedUp(X, k))
  {
    NextOf(next, X[0], X, k);
    NextOf(next, X[0], X, k + 1);
    var n1 := next[X[k] := next[X[k + 1]]];
    var n2 := n1[X[k + 1] := n1[X[0]]];
    if k == 0 {
      assert n2[X[0] := X[k + 1]] == next;
    } else {
      MovedUpLinks(next, X, k, n2[X[0] := X[k + 1]]);
    }
  }

  lemma MovedUpLinks(next: seq<int>, X: seq<nat>, k: nat, n3: seq<int>)
    requires X != [] && ListAt(next, X[0], X) && Distinct(X) && 0 < k && k + 1 < |X|
    requires n3 == next[X[k] := next[X[k + 1]]][X[k + 1] := next[X[k] := next[X[k + 1]]][X[0]]][X[0] := X[k + 1]]
    ensures ListAt(n3, X[0], MovedUp(X, k))
  {
    hide ListAt, Distinct;
    var Y := MovedUp(X, k);
    forall i | 0 <= i < |Y|
      ensures Y[i] < |n3| && n3[Y[i]] == if i + 1 < |Y| then Y[i + 1] else -1
    {
      MovedAt(X, k, i);
      if i + 1 < |Y| { MovedAt(X, k, i + 1); }
      MovedLinks(next, X, k, if i == 0 then 0 else if i == 1 then k + 1 else if i <= k + 1 then i - 1 else i);
    }
    ListFrom(n3, X[0], Y);
  }

  lemma ListFrom(next: seq<int>, p: int, xs: seq<nat>)
    requires xs != [] && p == xs[0]
    requires forall i | 0 <= i < |xs| :: xs[i] < |next| && next[xs[i]] == if i + 1 < |xs| then xs[i + 1] else -1
    ensures ListAt(next, p, xs)
  {
  }

  lemma MovedAt(X: seq<nat>, k: nat, i: nat)
    requires 0 < k && k + 1 < |X| && i < |X|
    ensures |MovedUp(X, k)| == |X|
    ensures MovedUp(X, k)[i] ==
      if i == 0 then X[0] else if i == 1 then X[k + 1] else if i <= k + 1 then X[i - 1] else X[i]
  {
  }

  lemma KeptSame(next: seq<int>, xs: seq<nat>)
    ensures NextKept(next, next, xs)
  {
  }

  lemma SameMembers(O1: seq<nat>, O2: seq<nat>, O: seq<nat>, L: seq<nat>)
    requires multiset(O1) == multiset(L) && multiset(O2) == multiset(L) && multiset(O) == multiset(L)
    ensures |O| == |L| && forall x :: (x in O1 <==> x in L) && (x in O2 <==> x in L) && (x in O <==> x in L)
    ensures forall x :: x in O1 <==> x in O
  {
    MultisetMembers(O1, L);
    MultisetMembers(O2, L);
    MultisetMembers(O, L);
  }

  lemma EvolvedKeeps(cmp: Cmp, data: seq<Item>, data': seq<Item>)
    requires AllEvolved(cmp, data, data') || data == data'
    ensures |data| == |data'|
    ensures forall j | 0 <= j < |data| :: data'[j].idx == data[j].idx && High(data'[j]) == High(data[j])
  {
    if data != data' {
      forall j | 0 <= j < |data| ensures data'[j].idx == data[j].idx && High(data'[j]) == High(data[j]) {
        assert Evolved(cmp, data[j], data'[j]);
      }
    }
  }

  lemma SecondNode(next: seq<int>, list: int, O: seq<nat>)
    requires ListAt(next, list, O) && |O| >= 3
    ensures list == O[0] && O[0] < |next| && next[list] == O[1] && O[1] < |next| && next[O[1]] == O[2] && O[2] < |next|
    ensures Distinct(O) ==> O[0] != O[1] && O[0] != O[2] && O[1] != O[2]
  {
  }

  /** Undoing the removal of the node behind the second one restores every pointer. */
  lemma RemoveUndone(next: seq<int>, info: seq<nat>, list: int, O: seq<nat>)
    requires ListAt(next, list, O) && Distinct(O) && |O| >= 3 && |next| == |info|
    ensures O[0] < |next| && O[1] < |next| && O[2] < |next| && next[O[1]] == O[2]
    ensures var item, ret := O[1], O[2];
      var n1, i1 := next[item := next[ret]][ret := -1], info[item := info[ret]][ret := info[item]];
      && n1[O[0]] == O[1]
      && n1[ret := n1[item]][item := ret] == next
      && i1[ret := i1[item]][item := i1[ret]] == info
  {
    SecondNode(next, list, O);
  }

  lemma SortedByIdx(info: seq<nat>, data: seq<Item>, pos: map<nat, nat>, O: seq<nat>)
    requires Sorted(Idx(true), info, data, pos, O) && |O| >= 2
    ensures forall i, j | 0 <= i < j < |O| :: ItemOf(info, data, O[i]).idx <= ItemOf(info, data, O[j]).idx
    ensures forall x | x in O :: Low(ItemOf(info, data, x)) == High(ItemOf(info, data, x))
  {
    forall x | x in O ensures Low(ItemOf(info, data, x)) == High(ItemOf(info, data, x)) {
      AllReady(Idx(true), info, data, pos, O, x);
    }
    forall i, j | 0 <= i < j < |O| ensures ItemOf(info, data, O[i]).idx <= ItemOf(info, data, O[j]).idx {
      assert Before(Idx(true), info, data, pos, O[i], O[j]);
    }
  }

  /** After sorting two or more nodes, every item is cached, or regenerated. */
  lemma AllReady(cmp: Cmp, info: seq<nat>, data: seq<Item>, pos: map<nat, nat>, O: seq<nat>, x: nat)
    requires Sorted(cmp, info, data, pos, O) && |O| >= 2 && x in O
    ensures Ready(cmp, ItemOf(info, data, x))
  {
    var i :| 0 <= i < |O| && O[i] == x;
    if i > 0 {
      assert Before(cmp, info, data, pos, O[0], O[i]);
    } else {
      assert Before(cmp, info, data, pos, O[0], O[1]);
    }
  }

  // ---------------------------------------------------------------- what the answer means

  /** An ee_s16. */
  type Short = x: int | -0x8000 <= x < 0x8000

  /** Whether d is what the search looks for after i increments of an idx that started at idx: by idx as long as it
      has not been negative or overflowed, by the lower data byte otherwise. */
  predicate Hit(d: Item, idx: int, i: nat, low: int)
  {
    if idx >= 0 && idx + i <= 0x7fff then d.idx == idx + i else d.data16 % 256 == low
  }

  ghost predicate Precedes(xs: seq<nat>, a: nat, b: nat)
  {
    exists i, j :: 0 <= i < j < |xs| && xs[i] == a && xs[j] == b
  }

  /** From A to B in one round that found the node at k, or none if k is the length: the last node comes first, the
      node in front of the found one second, and all other nodes in reverse. */
  ghost predicate RoundOrder(A: seq<nat>, B: seq<nat>, k: nat)
  {
    var n := |A|;
    && multiset(B) == multiset(A) && n == |B| >= 2 && k <= n && B[0] == A[n - 1]
    && (0 < k < n ==> B[1] == A[k - 1])
    && forall a, b | 0 <= a < b < n && !(0 < k < n && (a == k - 1 || b == k - 1)) :: Precedes(B, A[b], A[a])
  }

  /** The first node of A that round i looks for is at k, or none if k is the length. */
  ghost predicate FirstHit(info: seq<nat>, data: seq<Item>, A: seq<nat>, idx: int, i: nat, low: int, k: nat)
  {
    && k <= |A|
    && (forall j | 0 <= j < k :: !Hit(ItemOf(info, data, A[j]), idx, i, low))
    && (k < |A| ==> Hit(ItemOf(info, data, A[k]), idx, i, low))
  }

  /** Round i leads from A to B and adds bit: bit 9 of a found item whose bit 0 is set, or bit 8 of the item that is
      second afterwards. */
  ghost predicate RoundAt(info: seq<nat>, data: seq<Item>, A: seq<nat>, B: seq<nat>, idx: int, i: nat, k: nat, bit: nat)
  {
    && FirstHit(info, data, A, idx, i, i % 256, k) && RoundOrder(A, B, k)
    && bit ==
         if k == |A| then ItemOf(info, data, B[1]).data16 / 256 % 2
         else if ItemOf(info, data, A[k]).data16 % 2 == 1 then ItemOf(info, data, A[k]).data16 / 512 % 2
         else 0
  }

  function Sum(xs: seq<nat>): nat { if xs == [] then 0 else Sum(xs[..|xs| - 1]) + xs[|xs| - 1] }

  /** The number of the first n rounds in which some node of L is what the search looks for. */
  ghost function HitRounds(info: seq<nat>, data: seq<Item>, L: seq<nat>, idx: int, n: nat): nat
  {
    if n == 0 then 0
    else
      HitRounds(info, data, L, idx, n - 1) +
      if exists x :: x in L && Hit(ItemOf(info, data, x), idx, n - 1, (n - 1) % 256) then 1 else 0
  }

  /** hist is the list before and after each of the n rounds, ks the places found, bits what they add. */
  ghost predicate Loop(info: seq<nat>, data: seq<Item>, L: seq<nat>, idx: int, n: nat,
                       hist: seq<seq<nat>>, ks: seq<nat>, bits: seq<nat>)
  {
    && |hist| == n + 1 && |ks| == n == |bits| && hist[0] == L
    && forall i | 0 <= i < n :: RoundAt(info, data, hist[i], hist[i + 1], idx, i, ks[i], bits[i])
  }

  /** What core_bench_list answers, in terms of items: the register starts from the bits of all rounds, four for each
      round that found something less one for each other; it is fed the first item once for every item from the
      first one looked for on, or behind the first if there is none, while the second item of O2 is gone; and
      then the first item of O once for every other node. */
  ghost predicate Answer(info: seq<nat>, data: seq<Item>, data2: seq<Item>, data3: seq<Item>, L: seq<nat>, O2: seq<nat>,
                         O: seq<nat>, idx: int, n: nat, low: int, retval: bv16)
  {
    exists hist, ks, bits, k ::
      && Loop(info, data, L, idx, n, hist, ks, bits)
      && (if idx > 0 then Sorted(Complex, info, data2, Positions(hist[n]), O2) else O2 == hist[n] && data2 == data)
      && Fed(info, data, data2, data3, L, O2, O, idx, n, low, Sum(bits), k, retval)
  }

  ghost predicate Fed(info: seq<nat>, data: seq<Item>, data2: seq<Item>, data3: seq<Item>, L: seq<nat>,
                      O2: seq<nat>, O: seq<nat>, idx: int, n: nat, low: int, score: nat, k: nat, retval: bv16)
  {
    && |O2| >= 3 && O != []
    && FirstHit(info, data2, [O2[0]] + O2[2..], idx, n, low, k)
    && var found := HitRounds(info, data, L, idx, n);
       var start := Bits(score + 4 * found - (n - found));
       var w2, w3 := Bits(ItemOf(info, data2, O2[0]).data16), Bits(ItemOf(info, data3, O[0]).data16);
       var count := if k < |O2| - 1 then |O2| - 1 - k else |O2| - 2;
       retval == Crc.Stream(seq(|O| - 1, _ => w3), Crc.Stream(seq(count, _ => w2), start))
  }

  ghost predicate Tracks(now: int, idx: int, i: nat)
  {
    if idx >= 0 && idx + i <= 0x7fff then now == idx + i else now < 0
  }

  lemma TracksNext(now: int, idx: Short, i: nat)
    requires Tracks(now, idx, i)
    ensures Tracks(NextIdx(now), idx, i + 1)
  {
  }

  lemma HitIs(d: Item, now: int, idx: int, i: nat, low: int)
    requires Tracks(now, idx, i)
    ensures Matches(d, now, low) <==> Hit(d, idx, i, low)
  {
  }

  lemma FirstHitIs(info: seq<nat>, data: seq<Item>, A: seq<nat>, now: int, idx: int, i: nat, low: int)
    requires Tracks(now, idx, i)
    ensures FirstHit(info, data, A, idx, i, low, FirstMatch(info, data, A, now, low))
  {
    hide Matches, Hit, ItemOf;
    FirstMatchMeans(info, data, A, now, low);
    forall d ensures Matches(d, now, low) <==> Hit(d, idx, i, low) { HitIs(d, now, idx, i, low); }
  }

  /** Where the node at t is after the round. */
  function PlaceOf(n: nat, k: nat, t: nat): nat
    requires t < n
  {
    if 0 < k < n - 1 then if t == n - 1 then 0 else if t == k - 1 then 1 else if t >= k then n - t else n - 1 - t
    else n - 1 - t
  }

  lemma PlaceAt(A: seq<nat>, k: nat, t: nat)
    requires t < |A| && k <= |A|
    ensures PlaceOf(|A|, k, t) < |A| && Moved(A, k)[PlaceOf(|A|, k, t)] == A[t]
  {
    hide Reversed, MovedUp;
    ReversedAt(A, t);
    if 0 < k < |A| - 1 {
      var X, m := Reversed(A), |A| - 1 - k;
      ReversedAt(A, k - 1);
      ReversedAt(A, |A| - 1);
      MovedAt(X, m, PlaceOf(|A|, k, t));
    } else if k < |A| {
      StaysPut(Reversed(A), |A| - 1 - k);
    }
  }

  lemma StaysPut(X: seq<nat>, k: nat)
    requires k < |X| && (k == 0 || k + 1 == |X|)
    ensures MovedUp(X, k) == X
  {
  }

  lemma MovedNodes(A: seq<nat>, k: nat)
    requires Distinct(A) && k <= |A|
    ensures multiset(Moved(A, k)) == multiset(A) && Distinct(Moved(A, k))
  {
    hide Reversed, MovedUp, Distinct;
    ReversedNodes(A);
    if k < |A| { MovedUpNodes(Reversed(A), |A| - 1 - k); }
  }

  lemma MovedOrder(A: seq<nat>, k: nat)
    requires Distinct(A) && |A| >= 2 && k <= |A|
    ensures RoundOrder(A, Moved(A, k), k)
  {
    hide Distinct, Moved;
    var n, B := |A|, Moved(A, k);
    MovedNodes(A, k);
    PlaceAt(A, k, n - 1);
    if 0 < k < n { PlaceAt(A, k, k - 1); }
    forall a, b | 0 <= a < b < n && !(0 < k < n && (a == k - 1 || b == k - 1)) ensures Precedes(B, A[b], A[a]) {
      PlaceAt(A, k, a);
      PlaceAt(A, k, b);
      assert PlaceOf(n, k, b) < PlaceOf(n, k, a);
    }
  }

  /** After a round, node by node: the node in front of the found one stands second, and every other node is
      followed by the one that was in front of it, that one left out. */
  ghost predicate Relinked(next: seq<int>, list: int, A: seq<nat>, k: nat)
  {
    var n := |A|;
    && n > 0 && list == A[n - 1]
    && forall t | 0 <= t < n ::
         && A[t] < |next|
         && next[A[t]] ==
              if 0 < k < n - 1 then
                if t == n - 1 then A[k - 1]
                else if t == k - 1 then A[n - 2]
                else if t == k then (if k >= 2 then A[k - 2] else -1)
                else if t >= 1 then A[t - 1] else -1
              else if t >= 1 then A[t - 1] else -1
  }

  lemma RoundLinks(next: seq<int>, list: int, A: seq<nat>, k: nat)
    requires Distinct(A) && |A| >= 2 && k <= |A| && ListAt(next, list, Moved(A, k))
    ensures Relinked(next, list, A, k)
  {
    hide Distinct, Moved, ListAt;
    var n, B := |A|, Moved(A, k);
    PlaceAt(A, k, n - 1);
    HeadOf(next, list, B);
    forall t | 0 <= t < n
      ensures A[t] < |next| && next[A[t]] == (if PlaceOf(n, k, t) + 1 < n then B[PlaceOf(n, k, t) + 1] else -1)
    {
      PlaceAt(A, k, t);
      NextOf(next, list, B, PlaceOf(n, k, t));
    }
    forall t | 0 <= t < n ensures B[PlaceOf(n, k, t)] == A[t] && PlaceOf(n, k, t) < n { PlaceAt(A, k, t); }
    if 0 < k < n - 1 {
      assert PlaceOf(n, k, k - 1) == 1 && PlaceOf(n, k, n - 2) == 2;
      forall t | 0 < t < n - 1 && t != k - 1 && t != k
        ensures PlaceOf(n, k, t - 1) == PlaceOf(n, k, t) + 1
      { }
    } else {
      forall t | 0 < t < n ensures PlaceOf(n, k, t - 1) == PlaceOf(n, k, t) + 1 { }
    }
  }

  /** The first loop in those terms. */
  lemma {:induction false} RoundsLoop(info: seq<nat>, data: seq<Item>, L: seq<nat>, idx: Short, n: nat)
      returns (hist: seq<seq<nat>>, ks: seq<nat>, bits: seq<nat>)
    requires Distinct(L) && |L| >= 2
    ensures var s := Rounds(info, data, L, idx, n);
      && Loop(info, data, L, idx, n, hist, ks, bits) && hist[n] == s.order
      && s.found == HitRounds(info, data, L, idx, n) && s.missed == n - s.found && s.score == Sum(bits)
      && Tracks(s.idx, idx, n) && multiset(s.order) == multiset(L) && Distinct(s.order)
  {
    hide RoundAt, Distinct, ItemOf, Hit, Moved, FirstMatch, NextIdx, Score, Tracks;
    if n == 0 {
      hist, ks, bits := [L], [], [];
      assert Tracks(idx, idx, 0) by { TracksStart(idx); }
    } else {
      var s := Rounds(info, data, L, idx, n - 1);
      var low := (n - 1) % 256;
      var k := FirstMatch(info, data, s.order, s.idx, low);
      hist, ks, bits := RoundsLoop(info, data, L, idx, n - 1);
      OneRound(info, data, L, s.order, s.idx, idx, n - 1);
      MovedNodes(s.order, k);
      TracksNext(s.idx, idx, n - 1);
      LoopMore(info, data, L, idx, n - 1, hist, ks, bits, Moved(s.order, k), k, Score(info, data, s.order, k));
      hist, ks, bits := hist + [Moved(s.order, k)], ks + [k], bits + [Score(info, data, s.order, k)];
      assert bits[..|bits| - 1] + [bits[|bits| - 1]] == bits;
    }
  }

  lemma TracksStart(idx: Short)
    ensures Tracks(idx, idx, 0)
  {
  }

  lemma LoopMore(info: seq<nat>, data: seq<Item>, L: seq<nat>, idx: int, n: nat,
                 hist: seq<seq<nat>>, ks: seq<nat>, bits: seq<nat>, B: seq<nat>, k: nat, bit: nat)
    requires Loop(info, data, L, idx, n, hist, ks, bits) && RoundAt(info, data, hist[n], B, idx, n, k, bit)
    ensures Loop(info, data, L, idx, n + 1, hist + [B], ks + [k], bits + [bit])
    ensures Sum(bits + [bit]) == Sum(bits) + bit
  {
    hide RoundAt;
    assert (bits + [bit])[..n] == bits;
  }

  lemma OneRound(info: seq<nat>, data: seq<Item>, L: seq<nat>, A: seq<nat>, now: int, idx: int, i: nat)
    requires Distinct(A) && |A| >= 2 && multiset(A) == multiset(L) && Tracks(now, idx, i)
    ensures var k := FirstMatch(info, data, A, now, i % 256);
      && RoundAt(info, data, A, Moved(A, k), idx, i, k, Score(info, data, A, k))
      && (k < |A| <==> exists x :: x in L && Hit(ItemOf(info, data, x), idx, i, i % 256))
  {
    hide Distinct, ItemOf, Hit, FirstMatch, Tracks, Moved;
    var k := FirstMatch(info, data, A, now, i % 256);
    FirstHitIs(info, data, A, now, idx, i, i % 256);
    MovedOrder(A, k);
    MultisetMembers(A, L);
    if k < |A| {
      assert A[k] in L;
    } else {
      PlaceAt(A, k, |A| - 2);
      forall x | x in L ensures !Hit(ItemOf(info, data, x), idx, i, i % 256) {
        assert x in A;
        var j :| 0 <= j < |A| && A[j] == x;
      }
    }
  }

  lemma {:induction false} RepeatedStream(w: bv16, n: nat, crc: bv16)
    ensures CrcTimes(w, n, crc) == Crc.Stream(seq(n, _ => w), crc)
  {
    hide Crc.Crc16Of;
    if n > 0 {
      RepeatedStream(w, n - 1, crc);
      assert seq(n, _ => w)[..n - 1] == seq(n - 1, _ => w);
    }
  }

  /** While the third node is out, the list carries all items but the second. */
  lemma HeldItems(info: seq<nat>, data: seq<Item>, O: seq<nat>, i: nat)
    requires Distinct(O) && |O| >= 3 && i < |O| - 1 && forall x | x in O :: x < |info|
    ensures |WithoutThird(O)| == |O| - 1 == |[O[0]] + O[2..]|
    ensures WithoutThird(O)[0] == O[0]
    ensures ItemOf(Exchanged(info, O), data, WithoutThird(O)[i]) == ItemOf(info, data, ([O[0]] + O[2..])[i])
  {
    var j := if i < 2 then i else i + 1;
    assert WithoutThird(O)[i] == O[j] && ([O[0]] + O[2..])[i] == O[if i == 0 then 0 else i + 1];
    assert O[j] in O && O[1] in O && O[2] in O;
    assert j != 1 ==> O[j] != O[1] && O[j] != O[2];
  }

  lemma HeldHit(info: seq<nat>, data: seq<Item>, O: seq<nat>, idx: int, i: nat, low: int, k: nat)
    requires Distinct(O) && |O| >= 3 && forall x | x in O :: x < |info|
    requires FirstHit(Exchanged(info, O), data, WithoutThird(O), idx, i, low, k)
    ensures FirstHit(info, data, [O[0]] + O[2..], idx, i, low, k)
  {
    hide Hit, ItemOf, Exchanged, WithoutThird, Distinct;
    HeldItems(info, data, O, 0);
    forall j | 0 <= j < |O| - 1
      ensures ItemOf(Exchanged(info, O), data, WithoutThird(O)[j]) == ItemOf(info, data, ([O[0]] + O[2..])[j])
    {
      HeldItems(info, data, O, j);
    }
  }

  lemma NodesThere(info: seq<nat>, data: seq<Item>, L: seq<nat>)
    requires Carried(info, data, L)
    ensures forall x | x in L :: x < |info|
  {
  }

  /** The returned value is that answer. */
  lemma ChecksumMeans(info: seq<nat>, data: seq<Item>, data2: seq<Item>, data3: seq<Item>, L: seq<nat>, O2: seq<nat>,
                      O: seq<nat>, idx: Short, n: nat, low: int)
    requires Distinct(L) && |L| >= 3 && |O2| >= 3 && multiset(O2) == multiset(L) && O != []
    requires forall x | x in L :: x < |info|
    requires var O1 := Rounds(info, data, L, idx, n).order;
      if idx > 0 then Sorted(Complex, info, data2, Positions(O1), O2) else O2 == O1 && data2 == data
    ensures var s := Rounds(info, data, L, idx, n);
      Answer(info, data, data2, data3, L, O2, O, idx, n, low, Checksum(info, data2, data3, s, low, O2, O))
  {
    hide Rounds, Loop, Distinct, HitRounds, Sum, Sorted, Positions, Checksum, FirstHit, Fed, Tracks;
    var s := Rounds(info, data, L, idx, n);
    var hist, ks, bits := RoundsLoop(info, data, L, idx, n);
    MultisetMembers(O2, L);
    DistinctSame(L, O2);
    var k := ChecksumFed(info, data, data2, data3, L, s, O2, O, idx, n, low);
    assert Loop(info, data, L, idx, n, hist, ks, bits);
  }

  lemma ChecksumFed(info: seq<nat>, data: seq<Item>, data2: seq<Item>, data3: seq<Item>, L: seq<nat>, s: Search,
                    O2: seq<nat>, O: seq<nat>, idx: int, n: nat, low: int) returns (k: nat)
    requires Distinct(O2) && |O2| >= 3 && O != [] && (forall x | x in O2 :: x < |info|) && Tracks(s.idx, idx, n)
    requires s.found == HitRounds(info, data, L, idx, n) && s.missed == n - s.found
    ensures Fed(info, data, data2, data3, L, O2, O, idx, n, low, s.score, k,
                Checksum(info, data2, data3, s, low, O2, O))
  {
    hide Distinct, HitRounds, ItemOf, FirstHit, Crc.Stream, CrcTimes, Tracks, Checksum, Exchanged, WithoutThird,
         FirstMatch,
         Bits;
    k := FirstMatch(Exchanged(info, O2), data2, WithoutThird(O2), s.idx, low);
    FirstHitIs(Exchanged(info, O2), data2, WithoutThird(O2), s.idx, idx, n, low);
    HeldHit(info, data2, O2, idx, n, low, k);
    HeldItems(info, data2, O2, 0);
    var w2, w3 := Bits(ItemOf(info, data2, O2[0]).data16), Bits(ItemOf(info, data3, O[0]).data16);
    var count := if k < |O2| - 1 then |O2| - 1 - k else |O2| - 2;
    var start := Bits((s.score + s.found * 4) as int - s.missed);
    RepeatedStream(w2, count, start);
    RepeatedStream(w3, |O| - 1, CrcTimes(w2, count, start));
    ChecksumIs(info, data2, data3, s, low, O2, O, k, ItemOf(info, data2, O2[0]));
  }

  lemma ChecksumIs(info: seq<nat>, data2: seq<Item>, data3: seq<Item>, s: Search, low: int, O2: seq<nat>, O: seq<nat>,
                   k: nat, d: Item)
    requires |O2| >= 3 && O != [] && k == FirstMatch(Exchanged(info, O2), data2, WithoutThird(O2), s.idx, low)
    requires ItemOf(Exchanged(info, O2), data2, O2[0]) == d && |WithoutThird(O2)| == |O2| - 1
    ensures Checksum(info, data2, data3, s, low, O2, O) ==
      CrcTimes(Bits(ItemOf(info, data3, O[0]).data16), |O| - 1,
               CrcTimes(Bits(d.data16), if k < |O2| - 1 then |O2| - 1 - k else |O2| - 2,
                        Bits((s.score + s.found * 4) as int - s.missed)))
  {
    hide ItemOf, CrcTimes, Bits, Exchanged, WithoutThird, FirstMatch;
  }

  // ---------------------------------------------------------------- what sorting means

  /** Sorted by key, and nodes with equal keys in the order they had in the list L sorted. */
  lemma SortedIsStable(cmp: Cmp, info: seq<nat>, data: seq<Item>, L: seq<nat>, O: seq<nat>, i: nat, j: nat, a: nat,
                       b: nat)
    requires Distinct(L) && Sorted(cmp, info, data, Positions(L), O)
    requires i < j < |O| && a < |L| && b < |L| && L[a] == O[i] && L[b] == O[j]
    ensures Key(cmp, ItemOf(info, data, O[i])) <= Key(cmp, ItemOf(info, data, O[j]))
    ensures Key(cmp, ItemOf(info, data, O[i])) == Key(cmp, ItemOf(info, data, O[j])) ==> a < b
  {
    PositionsAre(L, a);
    PositionsAre(L, b);
    assert Before(cmp, info, data, Positions(L), O[i], O[j]);
  }

  /** The order is strict and total, so it leaves only one result: any two sorted arrangements of
      the same nodes are equal. */
  lemma {:induction false} SortedUnique(cmp: Cmp, info: seq<nat>, data: seq<Item>, pos: map<nat, nat>, O: seq<nat>,
                                        O': seq<nat>)
    requires Sorted(cmp, info, data, pos, O) && Sorted(cmp, info, data, pos, O') && multiset(O) == multiset(O')
    ensures O == O'
  {
    hide Before, Sorted;
    MultisetMembers(O, O');
    if O != [] {
      FirstSame(cmp, info, data, pos, O, O');
      TailBags(O, O');
      SortedTail(cmp, info, data, pos, O);
      SortedTail(cmp, info, data, pos, O');
      SortedUnique(cmp, info, data, pos, O[1..], O'[1..]);
    }
  }

  lemma SortedTail(cmp: Cmp, info: seq<nat>, data: seq<Item>, pos: map<nat, nat>, xs: seq<nat>)
    requires xs != [] && Sorted(cmp, info, data, pos, xs)
    ensures Sorted(cmp, info, data, pos, xs[1..])
  {
    hide Before;
    forall i, j | 0 <= i < j < |xs[1..]| ensures Before(cmp, info, data, pos, xs[1..][i], xs[1..][j]) {
      assert xs[1..][i] == xs[i + 1] && xs[1..][j] == xs[j + 1];
    }
  }

  lemma TailBags<T>(xs: seq<T>, ys: seq<T>)
    requires xs != [] && ys != [] && xs[0] == ys[0] && multiset(xs) == multiset(ys)
    ensures multiset(xs[1..]) == multiset(ys[1..])
  {
    BagTail(xs);
    BagTail(ys);
  }

  lemma BagTail<T>(xs: seq<T>)
    requires xs != []
    ensures multiset(xs[1..]) == multiset(xs) - multiset{xs[0]}
  {
    assert xs == [xs[0]] + xs[1..];
  }

  lemma FirstSame(cmp: Cmp, info: seq<nat>, data: seq<Item>, pos: map<nat, nat>, O: seq<nat>, O': seq<nat>)
    requires Sorted(cmp, info, data, pos, O) && Sorted(cmp, info, data, pos, O') && |O| == |O'| > 0
    requires forall x :: x in O <==> x in O'
    ensures O[0] == O'[0]
  {
    assert O[0] in O && O'[0] in O';
    var i :| 0 <= i < |O'| && O'[i] == O[0];
    var j :| 0 <= j < |O| && O[j] == O'[0];
    assert i > 0 ==> Before(cmp, info, data, pos, O'[0], O'[i]);
    assert j > 0 ==> Before(cmp, info, data, pos, O[0], O[j]);
  }

  // ---------------------------------------------------------------- the list is put back

  /** The form core_list_init leaves: ascending idx, lower data bytes equal to the upper ones. */
  ghost predicate Tidy(info: seq<nat>, data: seq<Item>, L: seq<nat>)
  {
    && (forall i, j | 0 <= i < j < |L| :: ItemOf(info, data, L[i]).idx <= ItemOf(info, data, L[j]).idx)
    && (forall x | x in L :: Low(ItemOf(info, data, x)) == High(ItemOf(info, data, x)))
  }

  function Indices(info: seq<nat>, data: seq<Item>, L: seq<nat>): (r: seq<int>)
    ensures |r| == |L|
  {
    seq(|L|, (i: nat) requires i < |L| => ItemOf(info, data, L[i]).idx)
  }

  ghost predicate Ascending(xs: seq<int>) { forall i, j | 0 <= i < j < |xs| :: xs[i] <= xs[j] }

  lemma {:induction false} AscendingUnique(xs: seq<int>, ys: seq<int>)
    requires Ascending(xs) && Ascending(ys) && multiset(xs) == multiset(ys)
    ensures xs == ys
  {
    assert |xs| == |multiset(xs)| == |multiset(ys)| == |ys|;
    if xs != [] {
      LeastSame(xs, ys);
      TailBags(xs, ys);
      AscendingUnique(xs[1..], ys[1..]);
    }
  }

  lemma LeastSame(xs: seq<int>, ys: seq<int>)
    requires Ascending(xs) && Ascending(ys) && multiset(xs) == multiset(ys) && xs != [] && ys != []
    ensures xs[0] == ys[0]
  {
    assert xs[0] in multiset(ys) && ys[0] in multiset(xs);
    assert xs[0] in ys && ys[0] in xs;
  }

  lemma {:induction false} IndicesBag(info: seq<nat>, data: seq<Item>, L: seq<nat>, O: seq<nat>)
    requires multiset(L) == multiset(O)
    ensures multiset(Indices(info, data, L)) == multiset(Indices(info, data, O))
  {
    hide Indices;
    MultisetMembers(L, O);
    if L != [] {
      var j := PlaceIn(L[0], L, O);
      var O' := O[..j] + O[j + 1..];
      BagTail(L);
      BagWithout(O, j);
      IndicesBag(info, data, L[1..], O');
      IndicesTail(info, data, L);
      IndicesWithout(info, data, O, j);
      BagFrom(Indices(info, data, L), Indices(info, data, O), j);
    } else {
      assert O == [];
    }
  }

  lemma PlaceIn(x: nat, L: seq<nat>, O: seq<nat>) returns (j: nat)
    requires x in L && forall y :: y in L <==> y in O
    ensures j < |O| && O[j] == x
  {
    j :| 0 <= j < |O| && O[j] == x;
  }

  lemma IndicesTail(info: seq<nat>, data: seq<Item>, L: seq<nat>)
    requires L != []
    ensures var a := Indices(info, data, L);
      a[1..] == Indices(info, data, L[1..]) && a[0] == ItemOf(info, data, L[0]).idx
  {
    hide ItemOf;
  }

  lemma IndicesWithout(info: seq<nat>, data: seq<Item>, L: seq<nat>, j: nat)
    requires j < |L|
    ensures var a := Indices(info, data, L);
      a[..j] + a[j + 1..] == Indices(info, data, L[..j] + L[j + 1..]) && a[j] == ItemOf(info, data, L[j]).idx
  {
    hide ItemOf;
  }

  lemma BagWithout<T>(xs: seq<T>, j: nat)
    requires j < |xs|
    ensures multiset(xs[..j] + xs[j + 1..]) == multiset(xs) - multiset{xs[j]}
  {
    assert xs == xs[..j] + [xs[j]] + xs[j + 1..];
  }

  lemma BagFrom(a: seq<int>, b: seq<int>, j: nat)
    requires a != [] && j < |b| && a[0] == b[j] && multiset(a[1..]) == multiset(b[..j] + b[j + 1..])
    ensures multiset(a) == multiset(b)
  {
    assert a == [a[0]] + a[1..];
    assert b == b[..j] + [b[j]] + b[j + 1..];
  }

  /** What BenchList ensures puts a tidy list back: the same idx at every place, the same items in
      the nodes, and the very same list when no two nodes share an idx. */
  lemma PutBack(info: seq<nat>, data: seq<Item>, data': seq<Item>, L: seq<nat>, O: seq<nat>)
    requires Tidy(info, data, L) && Tidy(info, data', O) && multiset(L) == multiset(O) && Carried(info, data, L)
    requires |data'| == |data|
    requires forall j | 0 <= j < |data| :: data'[j].idx == data[j].idx && High(data'[j]) == High(data[j])
    ensures Indices(info, data', O) == Indices(info, data, L)
    ensures forall x | x in L :: ItemOf(info, data', x) == ItemOf(info, data, x)
    ensures (forall i, j | 0 <= i < j < |L| :: ItemOf(info, data, L[i]).idx != ItemOf(info, data, L[j]).idx) ==> O == L
  {
    hide GoodItem, Ascending, High, Low, Tidy;
    MultisetMembers(L, O);
    ItemsPutBack(info, data, data', L, O);
    IndicesBag(info, data, L, O);
    assert forall i | 0 <= i < |O| :: O[i] in L;
    assert Indices(info, data', O) == Indices(info, data, O);
    TidyAscends(info, data, L);
    TidyAscends(info, data', O);
    AscendingUnique(Indices(info, data, L), Indices(info, data, O));
    if forall i, j | 0 <= i < j < |L| :: ItemOf(info, data, L[i]).idx != ItemOf(info, data, L[j]).idx {
      forall i | 0 <= i < |L| ensures O[i] == L[i] {
        assert O[i] in L;
        var j :| 0 <= j < |L| && L[j] == O[i];
        assert Indices(info, data, L)[i] == Indices(info, data, O)[i];
      }
    }
  }

  /** Nodes of L with the same idx stand in the same order in xs. */
  ghost predicate TiesKept(info: seq<nat>, data: seq<Item>, L: seq<nat>, xs: seq<nat>)
  {
    var pos := Positions(xs);
    forall i, j | 0 <= i < j < |L| && ItemOf(info, data, L[i]).idx == ItemOf(info, data, L[j]).idx ::
      L[i] in pos && L[j] in pos && pos[L[i]] < pos[L[j]]
  }

  /** The last sort, started from the list O2, brings back the very list L if and only if O2 has kept the order
      of the nodes whose idx is the same. */
  lemma RestoredIff(info: seq<nat>, data: seq<Item>, data': seq<Item>, L: seq<nat>, O2: seq<nat>, O: seq<nat>)
    requires Tidy(info, data, L) && Carried(info, data, L) && |data'| == |data|
    requires forall j | 0 <= j < |data| :: data'[j].idx == data[j].idx && High(data'[j]) == High(data[j])
    requires multiset(O) == multiset(L) && Tidy(info, data', O) && Sorted(Idx(true), info, data', Positions(O2), O)
    ensures O == L <==> TiesKept(info, data, L, O2)
  {
    hide Carried, GoodItem, High, Low, Positions, Before;
    PutBack(info, data, data', L, O);
    forall i, j | 0 <= i < j < |L| ensures TieIsBefore(info, data, Positions(O2), L[i], L[j])
        <==> Before(Idx(true), info, data', Positions(O2), L[i], L[j]) {
      assert L[i] in L && L[j] in L;
      BeforeIff(info, data, L, Positions(O2), i, j);
      SameBefore(info, data, data', Positions(O2), L[i], L[j]);
    }
    if TiesKept(info, data, L, O2) {
      forall i, j | 0 <= i < j < |L| ensures Before(Idx(true), info, data', Positions(O2), L[i], L[j]) {
        assert TieIsBefore(info, data, Positions(O2), L[i], L[j]);
      }
      assert Sorted(Idx(true), info, data', Positions(O2), L);
      SortedUnique(Idx(true), info, data', Positions(O2), O, L);
    }
    if O == L {
      forall i, j | 0 <= i < j < |L| ensures TieIsBefore(info, data, Positions(O2), L[i], L[j]) {
        assert Before(Idx(true), info, data', Positions(O2), L[i], L[j]);
      }
      assert TiesKept(info, data, L, O2);
    }
  }

  lemma TidyRestored(info: seq<nat>, data: seq<Item>, data': seq<Item>, L: seq<nat>, O2: seq<nat>, O: seq<nat>)
    requires Carried(info, data, L) && |data'| == |data| && multiset(O) == multiset(L)
    requires forall j | 0 <= j < |data| :: data'[j].idx == data[j].idx && High(data'[j]) == High(data[j])
    requires forall i, j | 0 <= i < j < |O| :: ItemOf(info, data', O[i]).idx <= ItemOf(info, data', O[j]).idx
    requires forall x | x in L :: Low(ItemOf(info, data', x)) == High(ItemOf(info, data', x))
    requires Sorted(Idx(true), info, data', Positions(O2), O)
    ensures Tidy(info, data, L) ==> (O == L <==> TiesKept(info, data, L, O2))
  {
    hide Carried, GoodItem, High, Low, Positions, Sorted, TiesKept;
    MultisetMembers(O, L);
    if Tidy(info, data, L) { RestoredIff(info, data, data', L, O2, O); }
  }

  ghost predicate TieIsBefore(info: seq<nat>, data: seq<Item>, pos: map<nat, nat>, a: nat, b: nat)
  {
    ItemOf(info, data, a).idx == ItemOf(info, data, b).idx ==> a in pos && b in pos && pos[a] < pos[b]
  }

  lemma BeforeIff(info: seq<nat>, data: seq<Item>, L: seq<nat>, pos: map<nat, nat>, i: nat, j: nat)
    requires Tidy(info, data, L) && i < j < |L|
    ensures Before(Idx(true), info, data, pos, L[i], L[j]) <==> TieIsBefore(info, data, pos, L[i], L[j])
  {
  }

  lemma SameBefore(info: seq<nat>, data: seq<Item>, data': seq<Item>, pos: map<nat, nat>, a: nat, b: nat)
    requires ItemOf(info, data, a) == ItemOf(info, data', a) && ItemOf(info, data, b) == ItemOf(info, data', b)
    ensures Before(Idx(true), info, data, pos, a, b) <==> Before(Idx(true), info, data', pos, a, b)
  {
  }

  /** When no round finds anything the list is reversed in each, so before the sorts it stands as it was or
      reversed; without the sort by content it is then restored if and only if the rounds are even in number or
      no idx occurs twice. */
  lemma NothingFound(info: seq<nat>, data: seq<Item>, L: seq<nat>, idx: int, n: nat)
    requires Distinct(L) && |L| >= 2 && Rounds(info, data, L, idx, n).found == 0
    ensures Rounds(info, data, L, idx, n).order == if n % 2 == 0 then L else Reversed(L)
    ensures TiesKept(info, data, L, Rounds(info, data, L, idx, n).order) <==>
      n % 2 == 0 || forall i, j | 0 <= i < j < |L| :: ItemOf(info, data, L[i]).idx != ItemOf(info, data, L[j]).idx
  {
    hide ItemOf, Rounds, Distinct, Positions, Reversed;
    MissedOrder(info, data, L, idx, n);
    forall i, j | 0 <= i < j < |L|
      ensures i < |Reversed(L)| && L[i] in Positions(L) && L[j] in Positions(L)
      ensures L[i] in Positions(Reversed(L)) && L[j] in Positions(Reversed(L))
      ensures Positions(L)[L[i]] < Positions(L)[L[j]] && Positions(Reversed(L))[L[i]] > Positions(Reversed(L))[L[j]]
    {
      PositionsAre(L, i);
      PositionsAre(L, j);
      ReversedNodes(L);
      ReversedAt(L, i);
      ReversedAt(L, j);
      PositionsAre(Reversed(L), |L| - 1 - i);
      PositionsAre(Reversed(L), |L| - 1 - j);
    }
  }

  lemma {:induction false} MissedOrder(info: seq<nat>, data: seq<Item>, L: seq<nat>, idx: int, n: nat)
    requires |L| >= 2 && Rounds(info, data, L, idx, n).found == 0
    ensures Rounds(info, data, L, idx, n).order == if n % 2 == 0 then L else Reversed(L)
  {
    hide Reversed, Score, FirstMatch, MovedUp, Rounds;
    LastRound(info, data, L, idx, n);
    if n > 0 {
      MissedOrder(info, data, L, idx, n - 1);
      ReversedTwice(L);
      assert n % 2 == 0 <==> (n - 1) % 2 != 0;
    }
  }

  lemma LastRound(info: seq<nat>, data: seq<Item>, L: seq<nat>, idx: int, n: nat)
    requires |L| >= 2 && Rounds(info, data, L, idx, n).found == 0
    ensures n == 0 ==> Rounds(info, data, L, idx, n).order == L
    ensures n > 0 ==> Rounds(info, data, L, idx, n - 1).found == 0
    ensures n > 0 ==> Rounds(info, data, L, idx, n).order == Reversed(Rounds(info, data, L, idx, n - 1).order)
  {
    hide Reversed, Score, FirstMatch, MovedUp;
  }

  lemma ReversedTwice(xs: seq<nat>)
    ensures Reversed(Reversed(xs)) == xs
  {
    hide Reversed;
    forall i | 0 <= i < |xs| ensures Reversed(Reversed(xs))[i] == xs[i] {
      ReversedAt(xs, i);
      ReversedAt(Reversed(xs), |xs| - 1 - i);
    }
  }

  /** A tidy list that is not restored: the first two of three nodes share an idx and one round finds nothing. */
  lemma NotRestored()
    ensures var info, L := [0, 1, 2], [0, 1, 2];
      var data := [Item(0x0101, 5), Item(0x0101, 5), Item(0x0101, 6)];
      && Distinct(L) && Tidy(info, data, L) && Carried(info, data, L)
      && Rounds(info, data, L, -1, 1).order == [2, 1, 0] && !TiesKept(info, data, L, [2, 1, 0])
  {
    hide Positions, Rounds, FirstMatch, TiesKept, Reversed, ItemOf, Tidy, Distinct, High, Low;
    var info: seq<nat>, L: seq<nat> := [0, 1, 2], [0, 1, 2];
    var data := [Item(0x0101, 5), Item(0x0101, 5), Item(0x0101, 6)];
    ThreeItems(info, data, L);
    FirstMatchIs(info, data, L, -1, 0, 3);
    MissedOnce(info, data, L, -1);
    ThreeReversed();
    NothingFound(info, data, L, -1, 1);
    assert ItemOf(info, data, L[0]).idx == ItemOf(info, data, L[1]).idx;
  }

  lemma ThreeItems(info: seq<nat>, data: seq<Item>, L: seq<nat>)
    requires info == L == [0, 1, 2] && data == [Item(0x0101, 5), Item(0x0101, 5), Item(0x0101, 6)]
    ensures forall i | 0 <= i < 3 :: ItemOf(info, data, L[i]) == data[i] && Low(data[i]) == High(data[i]) == 1
    ensures Distinct(L) && Tidy(info, data, L)
  {
    assert forall x | x in L :: x == 0 || x == 1 || x == 2;
  }

  lemma ThreeReversed()
    ensures Reversed([0, 1, 2]) == [2, 1, 0]
  {
    var L: seq<nat> := [0, 1, 2];
    ReversedAt(L, 0);
    ReversedAt(L, 1);
    ReversedAt(L, 2);
  }

  lemma MissedOnce(info: seq<nat>, data: seq<Item>, L: seq<nat>, idx: int)
    requires |L| >= 2 && FirstMatch(info, data, L, idx, 0) == |L|
    ensures Rounds(info, data, L, idx, 1).order == Reversed(L) && Rounds(info, data, L, idx, 1).found == 0
  {
    hide Reversed, Score, FirstMatch;
    assert Rounds(info, data, L, idx, 0) == Search(L, idx, 0, 0, 0);
  }

  /** After the sort by content it has kept that order if and only if nodes with the same idx came in order of
      their cached results, equal results as the rounds left them. */
  lemma TiesByContent(info: seq<nat>, data: seq<Item>, data2: seq<Item>, L: seq<nat>, O1: seq<nat>, O2: seq<nat>)
    requires Distinct(L) && multiset(O2) == multiset(L) && Sorted(Complex, info, data2, Positions(O1), O2)
    ensures TiesKept(info, data, L, O2) <==>
      forall i, j | 0 <= i < j < |L| && ItemOf(info, data, L[i]).idx == ItemOf(info, data, L[j]).idx ::
        Before(Complex, info, data2, Positions(O1), L[i], L[j])
  {
    hide ItemOf, Distinct, Before, Sorted, Positions;
    DistinctSame(L, O2);
    MultisetMembers(L, O2);
    forall i, j | 0 <= i < j < |L|
      ensures L[i] in Positions(O2) && L[j] in Positions(O2)
      ensures Positions(O2)[L[i]] < Positions(O2)[L[j]] <==> Before(Complex, info, data2, Positions(O1), L[i], L[j])
    {
      assert L[i] in O2 && L[j] in O2;
      var a :| 0 <= a < |O2| && O2[a] == L[i];
      var b :| 0 <= b < |O2| && O2[b] == L[j];
      PositionsAre(O2, a);
      PositionsAre(O2, b);
      DifferentPlaces(L, i, j);
      SortedIff(Complex, info, data2, Positions(O1), O2, a, b);
    }
  }

  lemma DifferentPlaces(L: seq<nat>, i: nat, j: nat)
    requires Distinct(L) && i < j < |L|
    ensures L[i] != L[j]
  {
  }

  lemma SortedIff(cmp: Cmp, info: seq<nat>, data: seq<Item>, pos: map<nat, nat>, xs: seq<nat>, a: nat, b: nat)
    requires Sorted(cmp, info, data, pos, xs) && a < |xs| && b < |xs| && xs[a] != xs[b]
    ensures a < b <==> Before(cmp, info, data, pos, xs[a], xs[b])
  {
    if b < a { assert Before(cmp, info, data, pos, xs[b], xs[a]); }
    if a < b { assert Before(cmp, info, data, pos, xs[a], xs[b]); }
  }

  lemma TidyAscends(info: seq<nat>, data: seq<Item>, L: seq<nat>)
    requires Tidy(info, data, L)
    ensures Ascending(Indices(info, data, L))
  {
  }

  lemma ItemsPutBack(info: seq<nat>, data: seq<Item>, data': seq<Item>, L: seq<nat>, O: seq<nat>)
    requires Tidy(info, data, L) && Tidy(info, data', O) && Carried(info, data, L) && |data'| == |data|
    requires forall x :: x in L <==> x in O
    requires forall j | 0 <= j < |data| :: data'[j].idx == data[j].idx && High(data'[j]) == High(data[j])
    ensures forall x | x in L :: ItemOf(info, data', x) == ItemOf(info, data, x)
  {
    hide GoodItem, High, Low;
    forall x | x in L ensures ItemOf(info, data', x) == ItemOf(info, data, x) {
      assert x in O;
      SameBytes(ItemOf(info, data, x), ItemOf(info, data', x));
    }
  }

  lemma SameBytes(d: Item, e: Item)
    requires Low(d) == High(d) && Low(e) == High(e) && High(d) == High(e) && d.idx == e.idx
    ensures d == e
  {
  }
}
