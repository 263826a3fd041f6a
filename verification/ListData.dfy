/** CoreMark's list items and comparators (core_list_join.c), the orders they sort by, and what the
    pointers of a chain of nodes look like while runs of it are being merged. */
module ListData {

  /** list_data: the 16-bit pattern of data16, and the signed idx. */
  datatype Item = Item(data16: nat, idx: int)

  /** cmp_complex; cmp_idx with a null or non-null third argument. */
  datatype Cmp = Complex | Idx(isNull: bool)

  predicate GoodItem(d: Item) { d.data16 < 0x1_0000 && -0x8000 <= d.idx < 0x8000 }

  function High(d: Item): nat { d.data16 / 256 }
  function Low(d: Item): nat { d.data16 % 256 }

  /** Bit 7: the lower seven bits are a cached result. */
  predicate Cached(d: Item) { d.data16 / 128 % 2 == 1 }

  /** A comparison leaves this item alone: it is cached, or already regenerated. */
  predicate Ready(cmp: Cmp, d: Item)
  {
    match cmp
    case Complex => Cached(d)
    case Idx(isNull) => isNull ==> Low(d) == High(d)
  }

  function Key(cmp: Cmp, d: Item): int
  {
    match cmp
    case Complex => d.data16 % 128
    case Idx(_) => d.idx
  }

  /** calc_func's cache write: upper byte, bit 7, and the lower seven bits of the result. */
  function Cache(d: Item, retval: nat): Item { d.(data16 := High(d) * 256 + 128 + retval % 128) }

  /** cmp_idx's regeneration of the lower byte from the upper one. */
  function Regenerate(d: Item): Item { d.(data16 := High(d) * 256 + High(d) % 256) }

  /** What a comparison may do to an item: nothing if it is ready; otherwise make it ready,
      keeping idx and the upper byte. */
  ghost predicate Touched(cmp: Cmp, d: Item, d': Item)
  {
    d'.idx == d.idx && High(d') == High(d) && Ready(cmp, d') && (Ready(cmp, d) ==> d' == d)
  }

  lemma CacheTouches(d: Item, retval: nat)
    requires !Cached(d)
    ensures Touched(Complex, d, Cache(d, retval)) && Key(Complex, Cache(d, retval)) == retval % 128
    ensures GoodItem(d) ==> GoodItem(Cache(d, retval))
  {
  }

  lemma CachedStays(d: Item)
    ensures Cached(d) ==> Touched(Complex, d, d) && Key(Complex, d) == d.data16 % 128
  {
  }

  lemma RegenerateTouches(d: Item)
    requires GoodItem(d)
    ensures Touched(Idx(true), d, Regenerate(d)) && GoodItem(Regenerate(d))
  {
  }

  /** One item may have been touched. */
  ghost predicate Evolved(cmp: Cmp, d: Item, d': Item) { d' == d || Touched(cmp, d, d') }

  lemma EvolvedTrans(cmp: Cmp, a: Item, b: Item, c: Item)
    requires Evolved(cmp, a, b) && Evolved(cmp, b, c)
    ensures Evolved(cmp, a, c)
  {
  }

  // ---------------------------------------------------------------- sequences of nodes

  ghost predicate Distinct(xs: seq<nat>) { forall i, j | 0 <= i < j < |xs| :: xs[i] != xs[j] }

  ghost predicate Apart(xs: seq<nat>, ys: seq<nat>) { forall x | x in xs :: x !in ys }

  /** next strings xs together, from p to a NULL (-1) behind the last one. */
  ghost predicate ListAt(next: seq<int>, p: int, xs: seq<nat>)
  {
    && p == (if xs == [] then -1 else xs[0])
    && forall i | 0 <= i < |xs| ::
         xs[i] < |next| && next[xs[i]] == if i + 1 < |xs| then xs[i + 1] else -1
  }

  /** next strings xs together; what follows the last one does not matter. */
  ghost predicate Strung(next: seq<int>, xs: seq<nat>)
  {
    && (forall i | 0 <= i < |xs| :: xs[i] < |next|)
    && forall i | 0 <= i < |xs| - 1 :: next[xs[i]] == xs[i + 1]
  }

  /** The item a node carries. */
  function ItemOf(info: seq<nat>, data: seq<Item>, x: nat): Item
  {
    if x < |info| && info[x] < |data| then data[info[x]] else Item(0, 0)
  }

  // ---------------------------------------------------------------- the order

  /** a belongs strictly before b: by key, and by original position among equal keys. */
  ghost predicate Before(cmp: Cmp, info: seq<nat>, data: seq<Item>, pos: map<nat, nat>, a: nat, b: nat)
  {
    var d, e := ItemOf(info, data, a), ItemOf(info, data, b);
    && Ready(cmp, d) && Ready(cmp, e)
    && (Key(cmp, d) < Key(cmp, e) || (Key(cmp, d) == Key(cmp, e) && a in pos && b in pos && pos[a] < pos[b]))
  }

  ghost predicate Sorted(cmp: Cmp, info: seq<nat>, data: seq<Item>, pos: map<nat, nat>, xs: seq<nat>)
  {
    forall i, j | 0 <= i < j < |xs| :: Before(cmp, info, data, pos, xs[i], xs[j])
  }

  ghost predicate Cross(cmp: Cmp, info: seq<nat>, data: seq<Item>, pos: map<nat, nat>, xs: seq<nat>, ys: seq<nat>)
  {
    forall x, y | x in xs && y in ys :: Before(cmp, info, data, pos, x, y)
  }

  /** All of xs come before all of ys in the original list. */
  ghost predicate Earlier(pos: map<nat, nat>, xs: seq<nat>, ys: seq<nat>)
  {
    forall x, y | x in xs && y in ys :: x in pos && y in pos && pos[x] < pos[y]
  }

  function Min(a: nat, b: nat): nat { if a < b then a else b }

  /** xs falls into sorted runs of s nodes (the last may be shorter), earlier runs from earlier
      parts of the original list. */
  ghost predicate Runs(cmp: Cmp, info: seq<nat>, data: seq<Item>, pos: map<nat, nat>, xs: seq<nat>, s: nat)
  {
    s == 0 || xs == [] ||
    (var m := Min(s, |xs|);
     && Sorted(cmp, info, data, pos, xs[..m])
     && Earlier(pos, xs[..m], xs[m..])
     && Runs(cmp, info, data, pos, xs[m..], s))
  }

  /** xs consists of whole runs of s nodes. */
  ghost predicate Whole(xs: seq<nat>, s: nat)
  {
    xs == [] || (0 < s <= |xs| && Whole(xs[s..], s))
  }

  // ---------------------------------------------------------------- comparisons disturb nothing

  /** The data items after some comparisons. */
  ghost predicate AllEvolved(cmp: Cmp, data: seq<Item>, data': seq<Item>)
  {
    && |data'| == |data|
    && forall j | 0 <= j < |data| ::
         Evolved(cmp, data[j], data'[j]) && (GoodItem(data[j]) ==> GoodItem(data'[j]))
  }

  lemma AllEvolvedTrans(cmp: Cmp, a: seq<Item>, b: seq<Item>, c: seq<Item>)
    requires AllEvolved(cmp, a, b) && AllEvolved(cmp, b, c)
    ensures AllEvolved(cmp, a, c)
  {
    hide Evolved, GoodItem;
    forall j | 0 <= j < |a| ensures Evolved(cmp, a[j], c[j]) { EvolvedTrans(cmp, a[j], b[j], c[j]); }
  }

  lemma BeforeKept(cmp: Cmp, info: seq<nat>, data: seq<Item>, data': seq<Item>, pos: map<nat, nat>, a: nat, b: nat)
    requires AllEvolved(cmp, data, data') && Before(cmp, info, data, pos, a, b)
    ensures Before(cmp, info, data', pos, a, b)
  {
    ItemKept(cmp, info, data, data', a);
    ItemKept(cmp, info, data, data', b);
  }

  lemma ItemKept(cmp: Cmp, info: seq<nat>, data: seq<Item>, data': seq<Item>, a: nat)
    requires AllEvolved(cmp, data, data')
    ensures var d, e := ItemOf(info, data, a), ItemOf(info, data', a);
      e.idx == d.idx && High(e) == High(d) && (Ready(cmp, d) ==> e == d)
  {
    if a < |info| && info[a] < |data| { assert Evolved(cmp, data[info[a]], data'[info[a]]); }
  }

  lemma SortedKept(cmp: Cmp, info: seq<nat>, data: seq<Item>, data': seq<Item>, pos: map<nat, nat>, xs: seq<nat>)
    requires AllEvolved(cmp, data, data') && Sorted(cmp, info, data, pos, xs)
    ensures Sorted(cmp, info, data', pos, xs)
  {
    hide Before, AllEvolved;
    forall i, j | 0 <= i < j < |xs| ensures Before(cmp, info, data', pos, xs[i], xs[j]) {
      BeforeKept(cmp, info, data, data', pos, xs[i], xs[j]);
    }
  }

  lemma CrossKept(cmp: Cmp, info: seq<nat>, data: seq<Item>, data': seq<Item>, pos: map<nat, nat>, xs: seq<nat>,
                  ys: seq<nat>)
    requires AllEvolved(cmp, data, data') && Cross(cmp, info, data, pos, xs, ys)
    ensures Cross(cmp, info, data', pos, xs, ys)
  {
    hide Before, AllEvolved;
    forall x, y | x in xs && y in ys ensures Before(cmp, info, data', pos, x, y) {
      BeforeKept(cmp, info, data, data', pos, x, y);
    }
  }

  lemma {:induction false} RunsKept(cmp: Cmp, info: seq<nat>, data: seq<Item>, data': seq<Item>, pos: map<nat, nat>,
                                    xs: seq<nat>, s: nat)
    requires AllEvolved(cmp, data, data') && Runs(cmp, info, data, pos, xs, s)
    ensures Runs(cmp, info, data', pos, xs, s)
    decreases |xs|
  {
    hide Sorted, Earlier, AllEvolved;
    if s > 0 && xs != [] {
      var m := Min(s, |xs|);
      SortedKept(cmp, info, data, data', pos, xs[..m]);
      RunsKept(cmp, info, data, data', pos, xs[m..], s);
    }
  }

  // ---------------------------------------------------------------- lists

  lemma {:induction false} RunsAppend(cmp: Cmp, info: seq<nat>, data: seq<Item>, pos: map<nat, nat>,
                                      xs: seq<nat>, ys: seq<nat>, s: nat)
    requires s > 0 && Runs(cmp, info, data, pos, xs, s) && Whole(xs, s)
    requires |ys| <= s && Sorted(cmp, info, data, pos, ys) && Earlier(pos, xs, ys)
    ensures Runs(cmp, info, data, pos, xs + ys, s)
    ensures |ys| == s ==> Whole(xs + ys, s)
    decreases |xs|
  {
    hide Sorted, Earlier;
    if xs == [] {
      assert xs + ys == ys;
      RunAlone(cmp, info, data, pos, ys, s);
    } else {
      var zs := xs + ys;
      assert zs[..s] == xs[..s] && zs[s..] == xs[s..] + ys;
      EarlierJoin(pos, xs, ys, s);
      RunsAppend(cmp, info, data, pos, xs[s..], ys, s);
    }
  }

  lemma RunAlone(cmp: Cmp, info: seq<nat>, data: seq<Item>, pos: map<nat, nat>, ys: seq<nat>, s: nat)
    requires 0 < s && |ys| <= s && Sorted(cmp, info, data, pos, ys)
    ensures Runs(cmp, info, data, pos, ys, s)
    ensures |ys| == s ==> Whole(ys, s)
  {
    hide Sorted;
    assert ys[..|ys|] == ys && ys[|ys|..] == [];
  }

  lemma EarlierJoin(pos: map<nat, nat>, xs: seq<nat>, ys: seq<nat>, s: nat)
    requires s <= |xs| && Earlier(pos, xs[..s], xs[s..]) && Earlier(pos, xs, ys)
    ensures Earlier(pos, xs[..s], xs[s..] + ys) && Earlier(pos, xs[s..], ys)
  {
    assert forall x | x in xs[..s] :: x in xs;
    assert forall x | x in xs[s..] :: x in xs;
  }

  lemma NextOf(next: seq<int>, p: int, xs: seq<nat>, i: nat)
    requires ListAt(next, p, xs) && i < |xs|
    ensures xs[i] < |next| && next[xs[i]] == if i + 1 < |xs| then xs[i + 1] else -1
  {
  }

  lemma ListStrung(next: seq<int>, p: int, xs: seq<nat>, k: nat)
    requires ListAt(next, p, xs) && k <= |xs|
    ensures Strung(next, xs) && Strung(next, xs[..k])
    ensures ListAt(next, if k < |xs| then xs[k] else -1, xs[k..])
  {
    forall i | 0 <= i < |xs[k..]|
      ensures xs[k..][i] < |next|
      ensures next[xs[k..][i]] == if i + 1 < |xs[k..]| then xs[k..][i + 1] else -1
    {
      assert xs[k..][i] == xs[k + i];
      NextOf(next, p, xs, k + i);
      assert i + 1 < |xs[k..]| ==> xs[k..][i + 1] == xs[k + i + 1];
    }
  }

  /** Everything the merge loop holds in memory: the output list O, what is left of the first run
      at p, and the rest Z of the list at q. */
  ghost predicate Links(next: seq<int>, list: int, tail: int, O: seq<nat>, p: int, P: seq<nat>, q: int, Z: seq<nat>)
  {
    && Strung(next, O) && (if O == [] then list == -1 && tail == -1 else list == O[0] && tail == O[|O| - 1])
    && Strung(next, P) && (P != [] ==> p == P[0])
    && ListAt(next, q, Z)
    && Distinct(O) && Distinct(P) && Distinct(Z) && Apart(O, P) && Apart(O, Z) && Apart(P, Z)
  }

  function Link(next: seq<int>, tail: int, e: int): seq<int>
  {
    if 0 <= tail < |next| then next[tail := e] else next
  }

  lemma TakeP(next: seq<int>, list: int, tail: int, O: seq<nat>, p: int, P: seq<nat>, q: int, Z: seq<nat>)
    requires Links(next, list, tail, O, p, P, q, Z) && P != []
    ensures 0 <= p < |next|
    ensures Links(Link(next, tail, p), if O == [] then p else list, p, O + [P[0]], next[p], P[1..], q, Z)
  {
    var next' := Link(next, tail, p);
    StrungAppend(next, tail, O, P[0]);
    StrungElsewhere(next, tail, O, P, P[0]);
    ListElsewhere(next, tail, O, q, Z, P[0]);
    assert Strung(next', P[1..]);
    assert forall x | x in P[1..] :: x in P;
    DistinctAppend(O, P[0]);
    assert Distinct(P[1..]);
    assert P[0] !in P[1..];
  }

  lemma TakeQ(next: seq<int>, list: int, tail: int, O: seq<nat>, p: int, P: seq<nat>, q: int, Z: seq<nat>)
    requires Links(next, list, tail, O, p, P, q, Z) && Z != []
    ensures 0 <= q < |next|
    ensures Links(Link(next, tail, q), if O == [] then q else list, q, O + [Z[0]], p, P, next[q], Z[1..])
  {
    var next' := Link(next, tail, q);
    assert Z[0] in Z;
    assert Z[0] !in P && Z[0] !in O;
    StrungAppend(next, tail, O, Z[0]);
    StrungElsewhere(next, tail, O, P, Z[0]);
    ListElsewhere(next, tail, O, q, Z, Z[0]);
    ListStrung(next', q, Z, 1);
    assert forall x | x in Z[1..] :: x in Z;
    DistinctAppend(O, Z[0]);
    assert Distinct(Z[1..]);
    assert Z[0] !in Z[1..];
  }

  lemma DistinctAppend(O: seq<nat>, e: nat)
    requires Distinct(O) && e !in O
    ensures Distinct(O + [e])
  {
  }

  lemma StrungAppend(next: seq<int>, tail: int, O: seq<nat>, e: nat)
    requires Strung(next, O) && Distinct(O) && e !in O && e < |next|
    requires if O == [] then tail == -1 else tail == O[|O| - 1]
    ensures Strung(Link(next, tail, e), O + [e])
  {
  }

  lemma StrungElsewhere(next: seq<int>, tail: int, O: seq<nat>, P: seq<nat>, e: nat)
    requires Strung(next, P) && Apart(O, P)
    requires if O == [] then tail == -1 else tail == O[|O| - 1]
    ensures Strung(Link(next, tail, e), P)
  {
    assert tail >= 0 ==> tail in O;
  }

  lemma ListElsewhere(next: seq<int>, tail: int, O: seq<nat>, q: int, Z: seq<nat>, e: nat)
    requires ListAt(next, q, Z) && Apart(O, Z)
    requires if O == [] then tail == -1 else tail == O[|O| - 1]
    ensures ListAt(Link(next, tail, e), q, Z)
  {
    assert tail >= 0 ==> tail in O;
  }

  // ---------------------------------------------------------------- merging

  /** The order facts of the merge loop: M merged so far, P and Q what is left of the two runs. */
  ghost predicate Order(cmp: Cmp, info: seq<nat>, data: seq<Item>, pos: map<nat, nat>, M: seq<nat>, P: seq<nat>,
                        Q: seq<nat>)
  {
    && Sorted(cmp, info, data, pos, M) && Sorted(cmp, info, data, pos, P) && Sorted(cmp, info, data, pos, Q)
    && Cross(cmp, info, data, pos, M, P) && Cross(cmp, info, data, pos, M, Q) && Earlier(pos, P, Q)
  }

  lemma SortedAppend(cmp: Cmp, info: seq<nat>, data: seq<Item>, pos: map<nat, nat>, M: seq<nat>, e: nat)
    requires Sorted(cmp, info, data, pos, M) && Cross(cmp, info, data, pos, M, [e])
    ensures Sorted(cmp, info, data, pos, M + [e])
  {
    hide Before;
    assert e in [e];
    forall i, j | 0 <= i < j < |M + [e]| ensures Before(cmp, info, data, pos, (M + [e])[i], (M + [e])[j]) {
      assert M[i] in M;
    }
  }

  /** The head of P goes next: Q is empty, or both heads are ready and P's key is no larger. */
  lemma OrderTakeP(cmp: Cmp, info: seq<nat>, data: seq<Item>, pos: map<nat, nat>, M: seq<nat>, P: seq<nat>, Q: seq<nat>)
    requires Order(cmp, info, data, pos, M, P, Q) && P != []
    requires Q != [] ==>
      var d, e := ItemOf(info, data, P[0]), ItemOf(info, data, Q[0]);
      Ready(cmp, d) && Ready(cmp, e) && Key(cmp, d) <= Key(cmp, e)
    ensures Order(cmp, info, data, pos, M + [P[0]], P[1..], Q)
  {
    hide Before;
    var e := P[0];
    assert e in P;
    SortedAppend(cmp, info, data, pos, M, e);
    assert P[1..] <= P[1..] && forall x | x in P[1..] :: x in P;
    forall x, y | x in M + [e] && y in P[1..] ensures Before(cmp, info, data, pos, x, y) {
      if x !in M {
        var j :| 0 <= j < |P[1..]| && P[1..][j] == y;
        assert Before(cmp, info, data, pos, P[0], P[j + 1]);
      }
    }
    forall x, y | x in M + [e] && y in Q ensures Before(cmp, info, data, pos, x, y) {
      if x !in M { HeadBeforeAll(cmp, info, data, pos, e, Q, y); }
    }
  }

  lemma HeadBeforeAll(cmp: Cmp, info: seq<nat>, data: seq<Item>, pos: map<nat, nat>, e: nat, Q: seq<nat>, y: nat)
    requires y in Q && Sorted(cmp, info, data, pos, Q)
    requires var d, f := ItemOf(info, data, e), ItemOf(info, data, Q[0]);
      Ready(cmp, d) && Ready(cmp, f) && Key(cmp, d) <= Key(cmp, f)
    requires Earlier(pos, [e], Q)
    ensures Before(cmp, info, data, pos, e, y)
  {
    assert e in [e] && Q[0] in Q;
    var j :| 0 <= j < |Q| && Q[j] == y;
    if j > 0 { assert Before(cmp, info, data, pos, Q[0], Q[j]); }
  }

  /** The head of Q goes next: P is empty, or both heads are ready and Q's key is smaller. */
  lemma OrderTakeQ(cmp: Cmp, info: seq<nat>, data: seq<Item>, pos: map<nat, nat>, M: seq<nat>, P: seq<nat>, Q: seq<nat>)
    requires Order(cmp, info, data, pos, M, P, Q) && Q != []
    requires P != [] ==>
      var d, e := ItemOf(info, data, P[0]), ItemOf(info, data, Q[0]);
      Ready(cmp, d) && Ready(cmp, e) && Key(cmp, e) < Key(cmp, d)
    ensures Order(cmp, info, data, pos, M + [Q[0]], P, Q[1..])
  {
    hide Before;
    var e := Q[0];
    assert e in Q;
    SortedAppend(cmp, info, data, pos, M, e);
    assert forall x | x in Q[1..] :: x in Q;
    forall x, y | x in M + [e] && y in Q[1..] ensures Before(cmp, info, data, pos, x, y) {
      if x !in M {
        var j :| 0 <= j < |Q[1..]| && Q[1..][j] == y;
        assert Before(cmp, info, data, pos, Q[0], Q[j + 1]);
      }
    }
    forall x, y | x in M + [e] && y in P ensures Before(cmp, info, data, pos, x, y) {
      if x !in M { SmallerBeforeAll(cmp, info, data, pos, e, P, y); }
    }
  }

  lemma SmallerBeforeAll(cmp: Cmp, info: seq<nat>, data: seq<Item>, pos: map<nat, nat>, e: nat, P: seq<nat>, y: nat)
    requires y in P && Sorted(cmp, info, data, pos, P)
    requires var d, f := ItemOf(info, data, P[0]), ItemOf(info, data, e);
      Ready(cmp, d) && Ready(cmp, f) && Key(cmp, f) < Key(cmp, d)
    ensures Before(cmp, info, data, pos, e, y)
  {
    var j :| 0 <= j < |P| && P[j] == y;
    if j > 0 { assert Before(cmp, info, data, pos, P[0], P[j]); }
  }

  lemma OrderKept(cmp: Cmp, info: seq<nat>, data: seq<Item>, data': seq<Item>, pos: map<nat, nat>, M: seq<nat>,
                  P: seq<nat>, Q: seq<nat>)
    requires AllEvolved(cmp, data, data') && Order(cmp, info, data, pos, M, P, Q)
    ensures Order(cmp, info, data', pos, M, P, Q)
  {
    hide AllEvolved, Sorted, Cross, Earlier;
    SortedKept(cmp, info, data, data', pos, M);
    SortedKept(cmp, info, data, data', pos, P);
    SortedKept(cmp, info, data, data', pos, Q);
    CrossKept(cmp, info, data, data', pos, M, P);
    CrossKept(cmp, info, data, data', pos, M, Q);
  }

  // ---------------------------------------------------------------- who is where

  lemma MultisetMembers(xs: seq<nat>, ys: seq<nat>)
    requires multiset(xs) == multiset(ys)
    ensures |xs| == |ys| && forall x :: x in xs <==> x in ys
  {
    forall x ensures x in xs <==> x in ys {
      assert x in xs <==> x in multiset(xs);
      assert x in ys <==> x in multiset(ys);
    }
    assert |multiset(xs)| == |xs| && |multiset(ys)| == |ys|;
  }

  lemma MovedHead(M: seq<nat>, P: seq<nat>)
    requires P != []
    ensures multiset(M + [P[0]]) == multiset(M) + multiset{P[0]}
    ensures multiset(P) == multiset{P[0]} + multiset(P[1..])
  {
    assert P == [P[0]] + P[1..];
  }

  /** Nodes outside xs keep their next pointer. */
  ghost predicate NextKept(next: seq<int>, next': seq<int>, xs: seq<nat>)
  {
    |next'| == |next| && forall x: nat | x < |next| && x !in xs :: next'[x] == next[x]
  }

  ghost predicate Carried(info: seq<nat>, data: seq<Item>, xs: seq<nat>)
  {
    (forall x | x in xs :: x < |info| && info[x] < |data|) && forall d | d in data :: GoodItem(d)
  }
}
