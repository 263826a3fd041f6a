/** towers_main.c: Towers of Hanoi on lists whose nodes share one pool. */
module Towers {
  import opened Words

  const NULL: int := -1
  const FREE: nat := 0
  const A: nat := 1
  const B: nat := 2
  const C: nat := 3

  // ---------------------------------------------------------------- the game

  /** The discs on each list, top first; entry 0 belongs to the free list and is ignored. */
  type Pegs = p: seq<seq<int>> | |p| == 4 witness [[], [], [], []]

  datatype Move = Move(from: nat, to: nat)

  predicate IsPeg(k: nat) { 1 <= k < 4 }
  predicate ThreePegs(s: nat, t: nat, d: nat) { IsPeg(s) && IsPeg(t) && IsPeg(d) && s != t && s != d && t != d }

  /** A disc may go on an empty peg or on a larger disc. */
  ghost predicate Legal(p: Pegs, m: Move)
  {
    && IsPeg(m.from) && IsPeg(m.to) && m.from != m.to && p[m.from] != []
    && (p[m.to] == [] || p[m.from][0] < p[m.to][0])
  }

  ghost function Apply(p: Pegs, m: Move): Pegs
    requires Legal(p, m)
  {
    p[m.from := p[m.from][1..]][m.to := [p[m.from][0]] + p[m.to]]
  }

  /** Every move is legal when its turn comes. */
  ghost predicate AllLegal(p: Pegs, ms: seq<Move>)
    decreases ms
  {
    ms == [] || (Legal(p, ms[0]) && AllLegal(Apply(p, ms[0]), ms[1..]))
  }

  ghost function Play(p: Pegs, ms: seq<Move>): Pegs
    requires AllLegal(p, ms)
    decreases ms
  {
    if ms == [] then p else Play(Apply(p, ms[0]), ms[1..])
  }

  /** The moves of the recursive solution. */
  ghost function Hanoi(n: nat, s: nat, t: nat, d: nat): seq<Move>
  {
    if n == 0 then []
    else if n == 1 then [Move(s, d)]
    else Hanoi(n - 1, s, d, t) + Hanoi(1, s, t, d) + Hanoi(n - 1, t, s, d)
  }

  /** No larger disc on a smaller one. */
  ghost predicate Increasing(s: seq<int>) { forall i, j | 0 <= i < j < |s| :: s[i] < s[j] }

  ghost predicate Ordered(p: Pegs) { forall k | 1 <= k < 4 :: Increasing(p[k]) }

  lemma LegalKeepsOrder(p: Pegs, m: Move)
    requires Ordered(p) && Legal(p, m)
    ensures Ordered(Apply(p, m))
  {
    assert Increasing(p[m.from]) && Increasing(p[m.to]);
    assert Increasing(p[m.from][1..]);
    assert Increasing([p[m.from][0]] + p[m.to]);
  }

  /** At every point of a legal game the pegs are ordered. */
  lemma {:induction false} AlwaysOrdered(p: Pegs, ms: seq<Move>, k: nat)
    requires Ordered(p) && AllLegal(p, ms) && k <= |ms|
    ensures AllLegal(p, ms[..k]) && Ordered(Play(p, ms[..k]))
    decreases ms
  {
    hide Ordered, Legal, Apply;
    if k > 0 {
      LegalKeepsOrder(p, ms[0]);
      AlwaysOrdered(Apply(p, ms[0]), ms[1..], k - 1);
      assert ms[..k][0] == ms[0] && ms[..k][1..] == ms[1..][..k - 1];
    }
  }

  lemma {:induction false} PlayConcat(p: Pegs, ms: seq<Move>, ns: seq<Move>)
    requires AllLegal(p, ms) && AllLegal(Play(p, ms), ns)
    ensures AllLegal(p, ms + ns) && Play(p, ms + ns) == Play(Play(p, ms), ns)
    decreases ms
  {
    hide Legal, Apply;
    if ms == [] {
      assert ms + ns == ns;
    } else {
      PlayConcat(Apply(p, ms[0]), ms[1..], ns);
      assert (ms + ns)[0] == ms[0] && (ms + ns)[1..] == ms[1..] + ns;
    }
  }

  ghost predicate Smaller(x: seq<int>, y: seq<int>) { forall i, j | 0 <= i < |x| && 0 <= j < |y| :: x[i] < y[j] }

  /** The top n discs of s may travel: each fits on d, and all but the largest fit on t. */
  ghost predicate Ready(p: Pegs, n: nat, s: nat, t: nat, d: nat)
  {
    && n >= 1 && ThreePegs(s, t, d) && Ordered(p)
    && |p[s]| >= n && Smaller(p[s][..n], p[d]) && Smaller(p[s][..n - 1], p[t])
  }

  /** p after the n top discs of s went to d. */
  ghost function Shifted(p: Pegs, n: nat, s: nat, d: nat): Pegs
    requires IsPeg(s) && IsPeg(d) && |p[s]| >= n
  {
    p[s := p[s][n..]][d := p[s][..n] + p[d]]
  }

  lemma ReadyPegs(p: Pegs, n: nat, s: nat, t: nat, d: nat)
    requires Ready(p, n, s, t, d)
    ensures n >= 1 && IsPeg(s) && IsPeg(t) && IsPeg(d) && |p[s]| >= n
  {
  }

  lemma OneMoveApplied(p: Pegs, s: nat, t: nat, d: nat)
    requires Ready(p, 1, s, t, d)
    ensures Legal(p, Move(s, d)) && Apply(p, Move(s, d)) == Shifted(p, 1, s, d)
  {
    assert p[s][..1][0] == p[s][0] && p[s][..1] == [p[s][0]];
  }

  lemma OneMove(p: Pegs, s: nat, t: nat, d: nat)
    requires Ready(p, 1, s, t, d)
    ensures AllLegal(p, Hanoi(1, s, t, d)) && Play(p, Hanoi(1, s, t, d)) == Shifted(p, 1, s, d)
  {
    hide Ready, Shifted, Legal, Apply;
    ReadyPegs(p, 1, s, t, d);
    OneMoveApplied(p, s, t, d);
    var m := Move(s, d);
    assert [m][1..] == [];
  }

  /** Before, between and after the three recursive calls. */
  lemma Stages(p: Pegs, n: nat, s: nat, t: nat, d: nat)
    requires Ready(p, n, s, t, d) && n >= 2
    ensures Ready(p, n - 1, s, d, t)
    ensures var p1 := Shifted(p, n - 1, s, t); var p2 := Shifted(p1, 1, s, d);
      && (Ordered(p1) ==> Ready(p1, 1, s, t, d))
      && (Ordered(p2) ==> Ready(p2, n - 1, t, s, d))
      && Shifted(p2, n - 1, t, d) == Shifted(p, n, s, d)
  {
    var x := p[s];
    var p1 := Shifted(p, n - 1, s, t);
    var p2 := Shifted(p1, 1, s, d);
    assert Increasing(x);
    PegSlices(x, p[t], p[d], n);
    assert p1[s] == x[n - 1..] && p1[d] == p[d];
    assert p2[s] == x[n..] && p2[d] == [x[n - 1]] + p[d] && p2[t] == x[..n - 1] + p[t];
    hide Ordered, Increasing;
  }

  lemma PegSlices(x: seq<int>, y: seq<int>, z: seq<int>, n: nat)
    requires 2 <= n <= |x| && Increasing(x) && Smaller(x[..n], z)
    ensures Smaller(x[..n - 1], z) && x[n - 1..][..1] == [x[n - 1]] && x[n - 1..][1..] == x[n..]
    ensures Smaller([x[n - 1]], z)
    ensures (x[..n - 1] + y)[..n - 1] == x[..n - 1] && (x[..n - 1] + y)[n - 1..] == y
    ensures (x[..n - 1] + y)[..n - 2] == x[..n - 2]
    ensures Smaller(x[..n - 1], [x[n - 1]] + z) && Smaller(x[..n - 2], x[n..]) && Smaller(x[..n - 2], z)
    ensures x[..n - 1] + ([x[n - 1]] + z) == x[..n] + z
  {
    assert x[..n - 1] == x[..n][..n - 1] && x[..n][n - 1] == x[n - 1];
  }

  /** The recursive solution is legal throughout and moves the tower. */
  lemma {:induction false} HanoiWorks(p: Pegs, n: nat, s: nat, t: nat, d: nat)
    requires Ready(p, n, s, t, d)
    ensures AllLegal(p, Hanoi(n, s, t, d)) && Play(p, Hanoi(n, s, t, d)) == Shifted(p, n, s, d)
    ensures Ordered(Shifted(p, n, s, d))
    decreases n
  {
    if n == 1 {
      OneMove(p, s, t, d);
    } else {
      Stages(p, n, s, t, d);
      hide AllLegal, Play, Shifted, Ordered, Smaller;
      HanoiWorks(p, n - 1, s, d, t);
      var p1 := Shifted(p, n - 1, s, t);
      HanoiWorks(p1, 1, s, t, d);
      var p2 := Shifted(p1, 1, s, d);
      HanoiWorks(p2, n - 1, t, s, d);
      var m1, m2, m3 := Hanoi(n - 1, s, d, t), Hanoi(1, s, t, d), Hanoi(n - 1, t, s, d);
      PlayConcat(p, m1, m2);
      PlayConcat(p, m1 + m2, m3);
    }
    AlwaysOrdered(p, Hanoi(n, s, t, d), |Hanoi(n, s, t, d)|);
    assert Hanoi(n, s, t, d)[..|Hanoi(n, s, t, d)|] == Hanoi(n, s, t, d);
  }

  /** The discs 1 to n, top first. */
  ghost function Tower(n: nat): (s: seq<int>) { seq(n, i => i + 1) }

  /** From the initial position no move of the solution ever puts a larger disc on a smaller one. */
  lemma SolutionLegal(n: nat, k: nat)
    requires n >= 1 && k <= |Hanoi(n, A, B, C)|
    ensures var p: Pegs := [[], Tower(n), [], []]; var ms := Hanoi(n, A, B, C);
      && AllLegal(p, ms) && Play(p, ms) == [[], [], [], Tower(n)]
      && AllLegal(p, ms[..k]) && Ordered(Play(p, ms[..k]))
  {
    var p: Pegs := [[], Tower(n), [], []];
    assert Increasing(Tower(n)) && Ordered(p);
    assert Ready(p, n, A, B, C);
    assert Tower(n)[..n] + [] == Tower(n);
    hide Ready, Ordered, AllLegal, Play, Hanoi, Tower;
    HanoiWorks(p, n, A, B, C);
    AlwaysOrdered(p, Hanoi(n, A, B, C), k);
  }

  /** It takes 2^n - 1 moves. */
  lemma {:induction false} HanoiLength(n: nat, s: nat, t: nat, d: nat)
    ensures |Hanoi(n, s, t, d)| == Pow2(n) - 1
  {
    if n >= 2 {
      HanoiLength(n - 1, s, d, t);
      HanoiLength(n - 1, t, s, d);
    }
  }

  const SHIFTS: nat := 30               // 1 << n is defined for a 32-bit int up to here

  /** Up to that many discs the moves made at any time, and 1 << n itself, fit a 32-bit int. */
  lemma MovesFit(n: nat, s: nat, t: nat, d: nat)
    ensures n <= SHIFTS <==> Pow2(n) < 0x8000_0000
    ensures n <= SHIFTS ==> |Hanoi(n, s, t, d)| < 0x8000_0000
  {
    hide Pow2;
    HanoiLength(n, s, t, d);
    Pow2Of31();
    if n <= SHIFTS { Pow2Double(SHIFTS); Pow2Mono(n, SHIFTS); } else { Pow2Mono(SHIFTS + 1, n); }
  }

  lemma Pow2Double(k: nat)
    ensures Pow2(k + 1) == 2 * Pow2(k) && Pow2(k) >= 1
  {
  }

  lemma Pow2Of31()
    ensures Pow2(31) == 0x8000_0000
  {
    assert Pow2(1) == 2 && Pow2(2) == 4;
    hide Pow2;
    Pow2Add(1, 2);
    Pow2Add(2, 2);
    Pow2Add(4, 4);
    Pow2Add(8, 8);
    Pow2Add(3, 4);
    Pow2Add(7, 8);
    Pow2Add(15, 16);
  }

  // ---------------------------------------------------------------- lists in a pool

  function First(l: seq<nat>): int { if l == [] then NULL else l[0] }

  /** Following next from the first node of l visits l and then stops. */
  ghost predicate Chain(next: seq<int>, l: seq<nat>)
    decreases l
  {
    l == [] || (l[0] < |next| && next[l[0]] == First(l[1..]) && Chain(next, l[1..]))
  }

  ghost function Values(val: seq<int>, l: seq<nat>): (v: seq<int>)
    ensures |v| == |l|
    decreases l
  {
    if l == [] then [] else [if l[0] < |val| then val[l[0]] else 0] + Values(val, l[1..])
  }

  ghost function Bag(lists: seq<seq<nat>>): multiset<nat>
    requires |lists| == 4
  {
    multiset(lists[0]) + multiset(lists[1]) + multiset(lists[2]) + multiset(lists[3])
  }

  /** Nodes 0 to n - 1, once each. */
  ghost function Pool(n: nat): multiset<nat> { if n == 0 then multiset{} else Pool(n - 1) + multiset{n - 1} }

  lemma {:induction false} PoolCount(n: nat, x: nat)
    ensures Pool(n)[x] == if x < n then 1 else 0
  {
    if n > 0 { PoolCount(n - 1, x); }
  }

  lemma {:induction false} ChainKept(next: seq<int>, l: seq<nat>, x: nat, y: int)
    requires Chain(next, l) && x !in l && x < |next|
    ensures Chain(next[x := y], l)
    decreases l
  {
    if l != [] {
      assert l[0] in l && forall z | z in l[1..] :: z in l;
      ChainKept(next, l[1..], x, y);
    }
  }

  lemma {:induction false} ValuesKept(val: seq<int>, l: seq<nat>, x: nat, v: int)
    requires x !in l && x < |val|
    ensures Values(val[x := v], l) == Values(val, l)
    decreases l
  {
    if l != [] {
      assert l[0] in l && forall z | z in l[1..] :: z in l;
      ValuesKept(val, l[1..], x, v);
    }
  }

  /** Every node of the pool is on exactly one list, once. */
  lemma OnOneList(lists: seq<seq<nat>>, n: nat, j: nat, k: nat, x: nat)
    requires |lists| == 4 && Bag(lists) == Pool(n) && j < 4 && k < 4 && x in lists[j]
    ensures x < n
    ensures j != k ==> x !in lists[k]
    ensures lists[j][0] == x ==> x !in lists[j][1..]
  {
    assert x in multiset(lists[j]) && x in Bag(lists);
    PoolCount(n, x);
    assert multiset(lists[0])[x] + multiset(lists[1])[x] + multiset(lists[2])[x] + multiset(lists[3])[x] == 1;
    assert x in lists[k] ==> x in multiset(lists[k]);
    if lists[j][0] == x {
      var tail: seq<nat> := lists[j][1..];
      assert lists[j] == [x] + tail;
      assert multiset(lists[j])[x] == 1 + multiset(tail)[x];
      assert x !in multiset(tail);
    }
  }

  lemma BagMove(lists: seq<seq<nat>>, j: nat, k: nat)
    requires |lists| == 4 && j < 4 && k < 4 && j != k && lists[j] != []
    ensures Bag(lists[j := lists[j][1..]][k := [lists[j][0]] + lists[k]]) == Bag(lists)
  {
    var x := lists[j][0];
    var m := lists[j := lists[j][1..]];
    assert lists[j] == [x] + lists[j][1..];
    forall y: nat ensures Bag(m[k := [x] + lists[k]])[y] == Bag(lists)[y] {
      BagUpdate(lists, j, lists[j][1..], y);
      BagUpdate(m, k, [x] + lists[k], y);
      assert multiset(lists[j])[y] == multiset{x}[y] + multiset(lists[j][1..])[y];
    }
  }

  lemma BagUpdate(l: seq<seq<nat>>, i: nat, z: seq<nat>, y: nat)
    requires |l| == 4 && i < 4
    ensures Bag(l[i := z])[y] == Bag(l)[y] - multiset(l[i])[y] + multiset(z)[y]
  {
    assert i == 0 || i == 1 || i == 2 || i == 3;
  }

  /** The discs n down to k + 1 have been pushed: those larger than k. */
  ghost function Upper(k: nat, n: nat): seq<int>
    requires k <= n
  {
    seq(n - k, i => k + i + 1)
  }

  /** Four lists that share the pool: the free list and the three pegs. */
  ghost predicate Sound(val: seq<int>, next: seq<int>, head: seq<int>, size: seq<int>, lists: seq<seq<nat>>)
  {
    && |val| == |next| && |head| == 4 && |size| == 4 && |lists| == 4
    && (forall k: nat | k < 4 :: head[k] == First(lists[k]) && Chain(next, lists[k]))
    && (forall k: nat | 1 <= k < 4 :: size[k] == |lists[k]|)
    && Bag(lists) == Pool(|val|)
  }

  ghost function PegValues(val: seq<int>, lists: seq<seq<nat>>): Pegs
    requires |lists| == 4
  {
    [[], Values(val, lists[A]), Values(val, lists[B]), Values(val, lists[C])]
  }

  /** lists after the first node of list j became the first of list k. */
  ghost function Handed(lists: seq<seq<nat>>, j: nat, k: nat): (m: seq<seq<nat>>)
    requires |lists| == 4 && j < 4 && k < 4 && j != k && lists[j] != []
    ensures |m| == 4
  {
    lists[j := lists[j][1..]][k := [lists[j][0]] + lists[k]]
  }

  // ---------------------------------------------------------------- the program

  class Puzzle {
    var val: seq<int>         // the node pool
    var next: seq<int>
    var head: seq<int>        // free list, peg A, peg B, peg C
    var size: seq<int>
    var numDiscs: nat
    var numMoves: nat
    ghost var lists: seq<seq<nat>>
    ghost var log: seq<Move>  // the disc moves made so far

    ghost predicate Valid()
      reads this
    {
      |head| == 4 && |size| == 4 && |lists| == 4 && Sound(val, next, head, size, lists)
    }

    /** The discs on the pegs. */
    ghost function Discs(): Pegs
      reads this
      requires Valid()
    {
      PegValues(val, lists)
    }

    /** main's set-up of the free list, and empty pegs. */
    constructor (n: nat)
      requires n >= 1
      ensures Valid() && numDiscs == n && |val| == n && Discs() == [[], [], [], []] && |lists[FREE]| == n
    {
      var nodes := seq(n, i => if i < n - 1 then i + 1 else NULL);
      next := nodes;
      val := seq(n, i => if i < n - 1 then i else 99);
      head := [0, NULL, NULL, NULL];
      size := [n, 0, 0, 0];
      numDiscs := n;
      numMoves := 0;
      lists := [seq(n, i => i), [], [], []];
      log := [];
      new;
      FreeChain(n, nodes, 0);
      assert seq(n, i => i)[0..] == seq(n, i => i);
      FreeBag(n);
    }

    /** list_push. */
    method Push(k: nat, v: int)
      requires Valid() && IsPeg(k) && lists[FREE] != []
      modifies this
      ensures Valid() && Discs() == old(Discs())[k := [v] + old(Discs())[k]]
      ensures |lists[FREE]| == old(|lists[FREE]|) - 1 && |val| == old(|val|)
      ensures numDiscs == old(numDiscs) && numMoves == old(numMoves) && log == old(log)
    {
      hide Sound, PegValues, Handed;
      PushSound(val, next, head, size, lists, k, v);
      var node := head[FREE];
      head := head[FREE := next[head[FREE]]];
      next := next[node := head[k]];
      head := head[k := node];
      val := val[head[k] := v];
      size := size[k := size[k] + 1];
      lists := Handed(lists, FREE, k);
    }

    /** list_pop. */
    method Pop(k: nat) returns (v: int)
      requires Valid() && IsPeg(k) && lists[k] != []
      modifies this
      ensures Valid() && [v] + Discs()[k] == old(Discs())[k] && Discs() == old(Discs())[k := Discs()[k]]
      ensures |lists[FREE]| == old(|lists[FREE]|) + 1 && |val| == old(|val|)
      ensures numDiscs == old(numDiscs) && numMoves == old(numMoves) && log == old(log)
    {
      hide Sound, PegValues, Handed;
      PopSound(val, next, head, size, lists, k);
      v := val[head[k]];
      var freed := head[k];
      head := head[k := next[head[k]]];
      next := next[freed := head[FREE]];
      head := head[FREE := freed];
      size := size[k := size[k] - 1];
      lists := Handed(lists, k, FREE);
    }

    /** list_clear. */
    method ClearList(k: nat)
      requires Valid() && IsPeg(k)
      modifies this
      ensures Valid() && Discs() == old(Discs())[k := []]
      ensures |val| == old(|val|) && numDiscs == old(numDiscs) && numMoves == old(numMoves) && log == old(log)
    {
      hide Sound, PegValues;
      SizeIs(val, next, head, size, lists, k);
      while size[k] > 0
        invariant Valid() && Discs() == old(Discs())[k := Discs()[k]] && size[k] == |lists[k]| == |Discs()[k]|
        invariant |val| == old(|val|) && numDiscs == old(numDiscs) && numMoves == old(numMoves) && log == old(log)
        decreases |Discs()[k]|
      {
        var _ := Pop(k);
        SizeIs(val, next, head, size, lists, k);
      }
    }

    /** towers_init, on empty pegs. */
    method Init(n: nat)
      requires Valid() && Discs() == [[], [], [], []] && n <= |val|
      modifies this
      ensures Valid() && Discs() == [[], Tower(n), [], []]
      ensures numDiscs == n && numMoves == 0 && |val| == old(|val|) && log == old(log)
    {
      hide Sound, PegValues, Bag, Pool;
      AllFree(val, next, head, size, lists);
      numDiscs := n;
      numMoves := 0;
      head := head[A := NULL][B := NULL][C := NULL];
      size := size[A := 0][B := 0][C := 0];
      assert Upper(n, n) == [];
      var i := 0;
      while i < n
        invariant i <= n && Valid() && Discs() == [[], Upper(n - i, n), [], []] && |lists[FREE]| == |val| - i
        invariant numDiscs == n && numMoves == 0 && |val| == old(|val|) && log == old(log)
      {
        Push(A, n - i);
        assert [n - i] + Upper(n - i, n) == Upper(n - (i + 1), n);
        i := i + 1;
      }
      assert Upper(0, n) == Tower(n);
    }

    /** towers_clear. */
    method Clear()
      requires Valid() && numDiscs <= |val|
      modifies this
      ensures Valid() && Discs() == [[], Tower(numDiscs), [], []]
      ensures numDiscs == old(numDiscs) && numMoves == 0 && |val| == old(|val|) && log == old(log)
    {
      hide Sound, PegValues;
      DiscsShape(val, lists);
      ClearList(A);
      ClearList(B);
      ClearList(C);
      Init(numDiscs);
    }

    /** The branch of towers_solve_h for one disc. */
    method MoveDisc(startPeg: nat, destPeg: nat)
      requires Valid() && Legal(Discs(), Move(startPeg, destPeg))
      modifies this
      ensures Valid() && Discs() == Apply(old(Discs()), Move(startPeg, destPeg))
      ensures log == old(log) + [Move(startPeg, destPeg)] && numMoves == old(numMoves) + 1
      ensures numDiscs == old(numDiscs) && |val| == old(|val|)
    {
      hide Sound, PegValues;
      NotEmpty(val, lists, startPeg);
      var v := Pop(startPeg);
      Push(destPeg, v);
      numMoves := numMoves + 1;
      log := log + [Move(startPeg, destPeg)];
    }

    /** towers_solve_h: the moves it makes are those of Hanoi, in that order. */
    method SolveH(n: nat, startPeg: nat, tempPeg: nat, destPeg: nat)
      requires Valid() && Ready(Discs(), n, startPeg, tempPeg, destPeg)
      modifies this
      ensures Valid() && Discs() == Shifted(old(Discs()), n, startPeg, destPeg)
      ensures log == old(log) + Hanoi(n, startPeg, tempPeg, destPeg) && numMoves == old(numMoves) + Pow2(n) - 1
      ensures numDiscs == old(numDiscs) && |val| == old(|val|)
      decreases n
    {
      hide Sound, PegValues, Ready, Shifted, Legal, Apply;
      ghost var p := Discs();
      ReadyPegs(p, n, startPeg, tempPeg, destPeg);
      assert Pow2(1) == 2 * Pow2(0) == 2;
      if n == 1 {
        OneMoveApplied(p, startPeg, tempPeg, destPeg);
        MoveDisc(startPeg, destPeg);
      } else {
        Stages(p, n, startPeg, tempPeg, destPeg);
        HanoiWorks(p, n - 1, startPeg, destPeg, tempPeg);
        SolveH(n - 1, startPeg, destPeg, tempPeg);
        HanoiWorks(Discs(), 1, startPeg, tempPeg, destPeg);
        SolveH(1, startPeg, tempPeg, destPeg);
        SolveH(n - 1, tempPeg, startPeg, destPeg);
      }
    }

    /** towers_solve. */
    method Solve()
      requires Valid() && numDiscs >= 1 && Discs() == [[], Tower(numDiscs), [], []]
      modifies this
      ensures Valid() && Discs() == [[], [], [], Tower(numDiscs)]
      ensures log == old(log) + Hanoi(numDiscs, A, B, C) && numMoves == old(numMoves) + Pow2(numDiscs) - 1
      ensures numDiscs == old(numDiscs) && |val| == old(|val|)
    {
      hide Sound, PegValues;
      assert Ready(Discs(), numDiscs, A, B, C) by { assert Increasing(Tower(numDiscs)); }
      SolveH(numDiscs, A, B, C);
      assert Tower(numDiscs)[..numDiscs] + [] == Tower(numDiscs);
    }

    /** towers_verify; `1 << numDiscs` is defined for an int up to 30 discs. */
    method Verify() returns (r: int)
      requires Valid() && numDiscs <= SHIFTS
      ensures r == 0 <==> Discs() == [[], [], [], Tower(numDiscs)] && numMoves == Pow2(numDiscs) - 1
      ensures r ==
        if Discs()[A] != [] then 2
        else if Discs()[B] != [] then 3
        else if |Discs()[C]| != numDiscs then 4
        else if Discs()[C] != Tower(numDiscs) then 5
        else if numMoves != Pow2(numDiscs) - 1 then 6
        else 0
    {
      hide Chain, Values, Bag, Pool, Pow2;
      SizeIs(val, next, head, size, lists, A);
      SizeIs(val, next, head, size, lists, B);
      SizeIs(val, next, head, size, lists, C);
      if size[A] != 0 { return 2; }
      if size[B] != 0 { return 3; }
      if size[C] != numDiscs { return 4; }
      ghost var l := lists[C];
      var seen := 0;
      var ptr := head[C];
      assert l[0..] == l;
      while ptr != NULL
        invariant seen <= |l| && ptr == First(l[seen..]) && Chain(next, l[seen..])
        invariant forall i: nat | i < seen :: Values(val, l)[i] == i + 1
        decreases |l| - seen
      {
        seen := seen + 1;
        ChainNext(next, l, seen - 1);
        ValueAt(val, l, seen - 1);
        if val[ptr] != seen { return 5; }
        ptr := next[ptr];
      }
      assert Values(val, l) == Tower(numDiscs);
      if numMoves != Pow2(numDiscs) - 1 { return 6; }
      return 0;
    }

    /** main without its measurements: set up, clear, solve, check. By MovesFit the int numMoves never overflows. */
    static method Benchmark(n: nat) returns (r: int)
      requires 1 <= n <= SHIFTS
      ensures r == 0
    {
      var towers := new Puzzle(n);
      towers.Init(n);
      towers.Clear();
      towers.Solve();
      r := towers.Verify();
    }
  }

  lemma SizeIs(val: seq<int>, next: seq<int>, head: seq<int>, size: seq<int>, l: seq<seq<nat>>, k: nat)
    requires Sound(val, next, head, size, l) && IsPeg(k)
    ensures |size| == 4 && |l| == 4 && size[k] == |l[k]| == |PegValues(val, l)[k]|
  {
    hide Values, Chain, Bag, Pool;
  }

  lemma DiscsShape(val: seq<int>, l: seq<seq<nat>>)
    requires |l| == 4
    ensures PegValues(val, l)[FREE] == []
  {
  }

  lemma NotEmpty(val: seq<int>, l: seq<seq<nat>>, k: nat)
    requires |l| == 4 && IsPeg(k) && PegValues(val, l)[k] != []
    ensures l[k] != []
  {
    hide Values;
  }

  /** With empty pegs every node is free. */
  lemma AllFree(val: seq<int>, next: seq<int>, head: seq<int>, size: seq<int>, l: seq<seq<nat>>)
    requires Sound(val, next, head, size, l) && PegValues(val, l) == [[], [], [], []]
    ensures |head| == 4 && |size| == 4 && |l| == 4 && |l[FREE]| == |val|
    ensures head == head[A := NULL][B := NULL][C := NULL] && size == size[A := 0][B := 0][C := 0]
  {
    SizeIs(val, next, head, size, l, A);
    SizeIs(val, next, head, size, l, B);
    SizeIs(val, next, head, size, l, C);
    hide Values, Chain, Pool;
    assert l[A] == [] && l[B] == [] && l[C] == [];
    assert |Bag(l)| == |multiset(l[FREE])| == |l[FREE]|;
    PoolSize(|val|);
  }

  lemma {:induction false} PoolSize(n: nat)
    ensures |Pool(n)| == n
  {
    if n > 0 { PoolSize(n - 1); }
  }

  lemma ChainNext(next: seq<int>, l: seq<nat>, i: nat)
    requires i < |l| && Chain(next, l[i..])
    ensures l[i] < |next| && next[l[i]] == First(l[i + 1..]) && Chain(next, l[i + 1..])
  {
    assert l[i..][1..] == l[i + 1..];
  }

  lemma {:induction false} ValueAt(val: seq<int>, l: seq<nat>, i: nat)
    requires i < |l| && l[i] < |val|
    ensures Values(val, l)[i] == val[l[i]]
    decreases l
  {
    if i > 0 { ValueAt(val, l[1..], i - 1); }
  }

  /** The first node of list j is nowhere else. */
  lemma Apart(l: seq<seq<nat>>, n: nat, j: nat)
    requires |l| == 4 && Bag(l) == Pool(n) && j < 4 && l[j] != []
    ensures var x := l[j][0]; x < n && x !in l[j][1..] && forall i: nat | i < 4 && i != j :: x !in l[i]
  {
    forall i: nat | i < 4 ensures i != j ==> l[j][0] !in l[i] { OnOneList(l, n, j, i, l[j][0]); }
    OnOneList(l, n, j, j, l[j][0]);
  }

  lemma Relinked(next: seq<int>, l: seq<seq<nat>>, j: nat, k: nat)
    requires |l| == 4 && j < 4 && k < 4 && j != k && l[j] != [] && forall i: nat | i < 4 :: Chain(next, l[i])
    requires var x := l[j][0]; x !in l[j][1..] && forall i: nat | i < 4 && i != j :: x !in l[i]
    ensures var x := l[j][0]; var m := l[j := l[j][1..]][k := [x] + l[k]];
      x < |next| && next[x] == First(l[j][1..]) && forall i: nat | i < 4 :: Chain(next[x := First(l[k])], m[i])
  {
    var x := l[j][0];
    assert Chain(next, l[j]);
    var m := l[j := l[j][1..]][k := [x] + l[k]];
    forall i: nat | i < 4 ensures Chain(next[x := First(l[k])], m[i]) {
      if i == k {
        assert Chain(next, l[k]);
        ChainKept(next, l[k], x, First(l[k]));
        assert m[k][1..] == l[k];
      } else {
        assert i == j || Chain(next, l[i]);
        ChainKept(next, m[i], x, First(l[k]));
      }
    }
  }

  lemma Revalued(val: seq<int>, l: seq<seq<nat>>, j: nat, k: nat, v: int)
    requires |l| == 4 && j < 4 && k < 4 && j != k && l[j] != [] && l[j][0] < |val|
    requires var x := l[j][0]; x !in l[j][1..] && forall i: nat | i < 4 && i != j :: x !in l[i]
    ensures var x := l[j][0]; var m := l[j := l[j][1..]][k := [x] + l[k]];
      forall i: nat | i < 4 && i != j ::
        Values(val[x := v], m[i]) == if i == k then [v] + Values(val, l[k]) else Values(val, l[i])
  {
    var x := l[j][0];
    forall i: nat | i < 4 && i != j ensures Values(val[x := v], l[i]) == Values(val, l[i]) {
      ValuesKept(val, l[i], x, v);
    }
    assert ([x] + l[k])[1..] == l[k];
  }

  /** Heads and links after the first node x of list j was put in front of list k. */
  lemma HandedLinks(next: seq<int>, head: seq<int>, l: seq<seq<nat>>, j: nat, k: nat, n: nat)
    requires |l| == 4 && |head| == 4 && j < 4 && k < 4 && j != k && l[j] != [] && Bag(l) == Pool(n) && |next| == n
    requires forall i: nat | i < 4 :: head[i] == First(l[i]) && Chain(next, l[i])
    ensures 0 <= head[j] < n && Bag(Handed(l, j, k)) == Pool(n)
    ensures var x := head[j]; var h := head[j := next[x]][k := x];
      forall i: nat | i < 4 :: h[i] == First(Handed(l, j, k)[i]) && Chain(next[x := head[k]], Handed(l, j, k)[i])
  {
    hide Bag, Pool, Chain;
    Apart(l, n, j);
    BagMove(l, j, k);
    Relinked(next, l, j, k);
  }

  lemma PushSound(val: seq<int>, next: seq<int>, head: seq<int>, size: seq<int>, l: seq<seq<nat>>, k: nat, v: int)
    requires Sound(val, next, head, size, l) && IsPeg(k) && l[FREE] != []
    ensures |head| == 4 && |size| == 4 && |l| == 4 && 0 <= head[FREE] < |next| == |val|
    ensures var x := head[FREE]; var m := Handed(l, FREE, k);
      && Sound(val[x := v], next[x := head[k]], head[FREE := next[x]][k := x], size[k := size[k] + 1], m)
      && PegValues(val[x := v], m) == PegValues(val, l)[k := [v] + PegValues(val, l)[k]]
      && |m[FREE]| == |l[FREE]| - 1
  {
    hide Bag, Pool, Chain, Values;
    HandedLinks(next, head, l, FREE, k, |val|);
    PushValues(val, l, k, v);
  }

  lemma PushValues(val: seq<int>, l: seq<seq<nat>>, k: nat, v: int)
    requires |l| == 4 && Bag(l) == Pool(|val|) && IsPeg(k) && l[FREE] != []
    ensures l[FREE][0] < |val|
    ensures PegValues(val[l[FREE][0] := v], Handed(l, FREE, k)) == PegValues(val, l)[k := [v] + PegValues(val, l)[k]]
  {
    hide Bag, Pool, Values, PegValues;
    Apart(l, |val|, FREE);
    Revalued(val, l, FREE, k, v);
    var val', m := val[l[FREE][0] := v], Handed(l, FREE, k);
    forall i: nat | i < 4
      ensures PegValues(val', m)[i] == if i == k then [v] + PegValues(val, l)[k] else PegValues(val, l)[i]
    {
      PegValuesAt(val, l, i);
      PegValuesAt(val', m, i);
    }
  }

  lemma PegValuesAt(val: seq<int>, l: seq<seq<nat>>, i: nat)
    requires |l| == 4 && i < 4
    ensures PegValues(val, l)[i] == if i == FREE then [] else Values(val, l[i])
  {
    hide Values;
  }

  lemma PopSound(val: seq<int>, next: seq<int>, head: seq<int>, size: seq<int>, l: seq<seq<nat>>, k: nat)
    requires Sound(val, next, head, size, l) && IsPeg(k) && l[k] != []
    ensures |head| == 4 && |size| == 4 && |l| == 4 && 0 <= head[k] < |next| == |val|
    ensures var x := head[k]; var m := Handed(l, k, FREE);
      && Sound(val, next[x := head[FREE]], head[k := next[x]][FREE := x], size[k := size[k] - 1], m)
      && [val[x]] + PegValues(val, m)[k] == PegValues(val, l)[k]
      && PegValues(val, m) == PegValues(val, l)[k := PegValues(val, m)[k]]
      && |m[FREE]| == |l[FREE]| + 1
  {
    hide Bag, Pool, Chain, Values;
    HandedLinks(next, head, l, k, FREE, |val|);
    PopValues(val, l, k);
  }

  lemma PopValues(val: seq<int>, l: seq<seq<nat>>, k: nat)
    requires |l| == 4 && Bag(l) == Pool(|val|) && IsPeg(k) && l[k] != []
    ensures var x := l[k][0]; var m := Handed(l, k, FREE);
      && x < |val| && [val[x]] + PegValues(val, m)[k] == PegValues(val, l)[k]
      && PegValues(val, m) == PegValues(val, l)[k := PegValues(val, m)[k]]
  {
    hide Bag, Pool, PegValues, Values;
    Apart(l, |val|, k);
    var m := Handed(l, k, FREE);
    PopHead(val, l, k);
    PegsExcept(val, l, m, k);
  }

  lemma PopHead(val: seq<int>, l: seq<seq<nat>>, k: nat)
    requires |l| == 4 && IsPeg(k) && l[k] != [] && l[k][0] < |val|
    ensures [val[l[k][0]]] + PegValues(val, Handed(l, k, FREE))[k] == PegValues(val, l)[k]
  {
    hide PegValues;
    PegValuesAt(val, l, k);
    PegValuesAt(val, Handed(l, k, FREE), k);
  }

  lemma PegsExcept(val: seq<int>, l: seq<seq<nat>>, m: seq<seq<nat>>, k: nat)
    requires |l| == 4 == |m| && IsPeg(k) && forall i | 1 <= i < 4 && i != k :: m[i] == l[i]
    ensures PegValues(val, m) == PegValues(val, l)[k := PegValues(val, m)[k]]
  {
    hide PegValues, Values;
    forall i: nat | i < 4 && i != k ensures PegValues(val, m)[i] == PegValues(val, l)[i] {
      PegValuesAt(val, l, i);
      PegValuesAt(val, m, i);
    }
  }

  lemma {:induction false} FreeChain(n: nat, nodes: seq<int>, k: nat)
    requires k <= n && nodes == seq(n, i => if i < n - 1 then i + 1 else NULL)
    ensures Chain(nodes, seq(n, i => i)[k..])
    decreases n - k
  {
    var l := seq(n, i => i);
    if k < n {
      FreeChain(n, nodes, k + 1);
      assert l[k..][1..] == l[k + 1..];
    }
  }

  lemma FreeBag(n: nat)
    ensures Bag([seq(n, i => i), [], [], []]) == Pool(n)
  {
    Naturals(n);
  }

  lemma {:induction false} Naturals(n: nat)
    ensures multiset(seq(n, i => i)) == Pool(n)
  {
    if n > 0 {
      Naturals(n - 1);
      var s: seq<nat> := seq(n - 1, i => i);
      assert seq(n, i => i) == s + [n - 1];
    }
  }
}
