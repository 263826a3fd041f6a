/** ae_matmul.c under every interleaving. */
module AeMatmul {
  // N cores build a shared transpose BB of B, separated by barriers, and then multiply rows of A with
  // rows of BB. Every interleaving of the cores' shared accesses.

  import opened Matrix
  import B = Barrier

  /** Number of cores, matrix order and the input matrices. */
  datatype Input = Input(n: nat, lda: nat, a: seq<int>, b: seq<int>) {
    /** ncores divides lda, 8 divides lda (the unrolled loop over k), and BB has 1024 entries. */
    ghost predicate Good()
    {
      && n > 0 && lda % n == 0 && lda % 8 == 0 && lda <= 32
      && |a| == Area(lda) == |b|
    }
    function W(): nat { if n == 0 then 0 else lda / n }
  }

  /** A core's place in the program; u counts the 32 products of the unrolled loop body. */
  datatype Pos =
    | Trans(k: nat, i: nat)
    | Head(i: nat, j: nat)
    | Mul(i: nat, j: nat, k: nat, u: nat, acc: seq<int>)
    | Put(i: nat, j: nat, q: nat, acc: seq<int>)
    | Done

  /** The barrier, the cores' places, the entries of BB written so far, and C. */
  datatype Sys = Sys(bar: B.State, pos: seq<Pos>, bb: map<nat, int>, c: seq<int>)

  function At(s: seq<int>, i: nat): int { if i < |s| then s[i] else 0 }

  function Start(p: Input, c0: seq<int>): Sys
  {
    Sys(B.Start(p.n), seq(p.n, (x: nat) => Trans(0, Lo(x, p.W()))), map[], c0)
  }

  /** One step of core c: inside the barrier, one of its steps; outside, one shared access. */
  function Step(p: Input, s: Sys, c: nat): Sys
    requires c < |s.pos| == |s.bar.cores|
  {
    if s.bar.cores[c].pc != B.Out then s.(bar := B.Step(s.bar, c))
    else
      var lda := p.lda;
      match s.pos[c]
      case Trans(k, i) =>
        if k >= lda then s.(pos := s.pos[c := Head(0, Lo(c, p.W()))])
        else if i < Hi(c, p.W()) then
          s.(bb := s.bb[Idx(i, k, lda) := At(p.b, Idx(k, i, lda))], pos := s.pos[c := Trans(k, i + 1)])
        else s.(bar := B.Step(s.bar, c), pos := s.pos[c := Trans(k + 1, Lo(c, p.W()))])
      case Head(i, j) =>
        if i >= lda then s.(pos := s.pos[c := Done])
        else if j < Hi(c, p.W()) then s.(pos := s.pos[c := Mul(i, j, 0, 0, [0, 0, 0, 0])])
        else s.(pos := s.pos[c := Head(i + 4, Lo(c, p.W()))])
      case Mul(i, j, k, u, acc) =>
        if k >= lda then s.(pos := s.pos[c := Put(i, j, 0, acc)])
        else
          var q, r := u / 8, u % 8;
          var read := Idx(i + q, k + r, lda);
          var sum := At(acc, q) + At(p.a, Idx(j, k + r, lda)) * (if read in s.bb then s.bb[read] else 0);
          var acc' := if q < |acc| then acc[q := sum] else acc;
          s.(pos := s.pos[c := if u == 31 then Mul(i, j, k + 8, 0, acc') else Mul(i, j, k, u + 1, acc')])
      case Put(i, j, q, acc) =>
        if q < 4 then
          var x := Idx(j, i + q, lda);
          s.(c := if x < |s.c| then s.c[x := At(acc, q)] else s.c, pos := s.pos[c := Put(i, j, q + 1, acc)])
        else s.(bar := B.Step(s.bar, c), pos := s.pos[c := Head(i, j + 1)])
      case Done => s
  }

  /** The access core c makes next is inside its array, and an entry of BB it reads is written. */
  ghost predicate AccessOk(p: Input, s: Sys, c: nat)
    requires c < |s.pos| == |s.bar.cores|
  {
    s.bar.cores[c].pc == B.Out ==>
      match s.pos[c]
      case Trans(k, i) => k < p.lda && i < Hi(c, p.W()) ==> Idx(i, k, p.lda) < 1024 && Idx(k, i, p.lda) < |p.b|
      case Mul(i, j, k, u, acc) =>
        k < p.lda ==> u / 8 < |acc| && Idx(j, k + u % 8, p.lda) < |p.a| && Idx(i + u / 8, k + u % 8, p.lda) in s.bb
      case Put(i, j, q, acc) => q < 4 ==> Idx(j, i + q, p.lda) < |s.c| && q < |acc|
      case _ => true
  }

  // ---------------------------------------------------------------- the invariant

  /** How many barrier calls a core has made when it is at pos. */
  ghost function Calls(p: Input, c: nat, pos: Pos): int
  {
    var w, lo := p.W(), Lo(c, p.W());
    match pos
    case Trans(k, _) => k
    case Head(i, j) => p.lda + i / 4 * w + (j - lo)
    case Mul(i, j, _, _, _) => p.lda + i / 4 * w + (j - lo)
    case Put(i, j, _, _) => p.lda + i / 4 * w + (j - lo)
    case Done => p.lda + p.lda / 4 * w
  }

  ghost predicate InRange(p: Input, c: nat, pos: Pos)
  {
    var lo, hi := Lo(c, p.W()), Hi(c, p.W());
    match pos
    case Trans(k, i) => k <= p.lda && lo <= i <= hi && (k == p.lda ==> i == lo)
    case Head(i, j) => i <= p.lda && i % 4 == 0 && lo <= j <= hi && (i == p.lda ==> j == lo)
    case Mul(i, j, k, u, acc) =>
      && i + 4 <= p.lda && i % 4 == 0 && lo <= j < hi && k <= p.lda && k % 8 == 0 && u < 32 && |acc| == 4
      && (k == p.lda ==> u == 0)
    case Put(i, j, q, acc) => i + 4 <= p.lda && i % 4 == 0 && lo <= j < hi && q <= 4 && |acc| == 4
    case Done => true
  }

  /** Core c has already written entry (i, k) of BB. */
  ghost predicate Wrote(pos: Pos, i: nat, k: nat)
  {
    pos.Trans? ==> k < pos.k || (k == pos.k && i < pos.i)
  }

  /** Core c has already stored entry (row j, column i) of C. */
  ghost predicate Stored(pos: Pos, j: nat, i: nat)
  {
    match pos
    case Trans(_, _) => false
    case Head(x, y) => i < x || (i < x + 4 && j < y)
    case Mul(x, y, _, _, _) => i < x || (i < x + 4 && j < y)
    case Put(x, y, q, _) => i < x || (i < x + 4 && j < y) || (j == y && i < x + q)
    case Done => true
  }

  ghost predicate WrittenBy(p: Input, c: nat, pos: Pos, bb: map<nat, int>)
    requires p.Good()
  {
    forall i: nat, k: nat | Lo(c, p.W()) <= i < Hi(c, p.W()) && i < p.lda && k < p.lda && Wrote(pos, i, k) ::
      Entry(p, bb, i, k)
  }

  ghost predicate Entry(p: Input, bb: map<nat, int>, i: nat, k: nat)
    requires p.Good() && i < p.lda && k < p.lda
  {
    Index(k, i, p.lda);
    Idx(i, k, p.lda) in bb && bb[Idx(i, k, p.lda)] == p.b[Idx(k, i, p.lda)]
  }

  ghost predicate ProductAt(p: Input, c: seq<int>, j: nat, i: nat)
    requires p.Good() && i < p.lda && j < p.lda && |c| == Area(p.lda)
  {
    Index(j, i, p.lda);
    c[Idx(j, i, p.lda)] == Dot(p.a, p.b, p.lda, j, i, p.lda)
  }

  ghost predicate StoredBy(p: Input, x: nat, pos: Pos, c: seq<int>)
    requires p.Good() && |c| == Area(p.lda)
  {
    forall j: nat, i: nat | Lo(x, p.W()) <= j < Hi(x, p.W()) && j < p.lda && i < p.lda && Stored(pos, j, i) ::
      ProductAt(p, c, j, i)
  }

  /** How far accumulator q has got when the body's first u products are done. */
  function Reach(k: nat, u: nat, q: nat): nat
  {
    if u <= 8 * q then k else if u >= 8 * q + 8 then k + 8 else k + (u - 8 * q)
  }

  ghost predicate SumsOk(p: Input, pos: Pos)
    requires p.Good()
  {
    match pos
    case Mul(i, j, k, u, acc) =>
      i + 4 <= p.lda && j < p.lda && |acc| == 4 && k <= p.lda && (u > 0 ==> k + 8 <= p.lda) &&
      forall q | 0 <= q < 4 :: acc[q] == Dot(p.a, p.b, p.lda, j, i + q, Reach(k, u, q))
    case Put(i, j, _, acc) =>
      i + 4 <= p.lda && j < p.lda && |acc| == 4 &&
      forall q | 0 <= q < 4 :: acc[q] == Dot(p.a, p.b, p.lda, j, i + q, p.lda)
    case _ => true
  }

  ghost predicate CoreOk(p: Input, s: Sys, c: nat)
    requires p.Good() && c < |s.pos| == |s.bar.cores| && |s.c| == Area(p.lda)
  {
    var pos := s.pos[c];
    && InRange(p, c, pos)
    && s.bar.cores[c].entered == Calls(p, c, pos)
    && WrittenBy(p, c, pos, s.bb)
    && SumsOk(p, pos)
    && StoredBy(p, c, pos, s.c)
  }

  ghost predicate Inv(p: Input, s: Sys)
  {
    && p.Good() && p.n * p.W() == p.lda
    && B.Inv(s.bar) && |s.bar.cores| == |s.pos| == p.n && |s.c| == Area(p.lda)
    && forall c | 0 <= c < p.n :: CoreOk(p, s, c)
  }

  // ---------------------------------------------------------------- one step keeps the invariant

  lemma CoreFacts(p: Input, s: Sys, c: nat)
    requires Inv(p, s) && c < p.n
    ensures p.Good() && |s.pos| == |s.bar.cores| == p.n && |s.c| == Area(p.lda) && p.n * p.W() == p.lda && B.Inv(s.bar)
    ensures var pos := s.pos[c];
      InRange(p, c, pos) && s.bar.cores[c].entered == Calls(p, c, pos) && WrittenBy(p, c, pos, s.bb)
      && SumsOk(p, pos) && StoredBy(p, c, pos, s.c)
    ensures p.n * p.W() == p.lda && 0 <= Lo(c, p.W()) <= Hi(c, p.W()) <= p.lda
  {
    assert CoreOk(p, s, c);
    BlockInside(c, p.n, p.W(), p.lda);
  }

  lemma FrameBB(p: Input, d: nat, pos: Pos, bb: map<nat, int>, i: nat, k: nat, v: int)
    requires p.Good() && i < p.lda && k < p.lda && WrittenBy(p, d, pos, bb)
    requires !(Lo(d, p.W()) <= i < Hi(d, p.W()))
    ensures WrittenBy(p, d, pos, bb[Idx(i, k, p.lda) := v])
  {
    hide Lo, Hi, Idx, Area;
    forall i': nat, k': nat | Lo(d, p.W()) <= i' < Hi(d, p.W()) && i' < p.lda && k' < p.lda && Wrote(pos, i', k')
      ensures Entry(p, bb[Idx(i, k, p.lda) := v], i', k')
    {
      assert Entry(p, bb, i', k');
      if Idx(i, k, p.lda) == Idx(i', k', p.lda) { IndexUnique(i, k, i', k', p.lda); }
    }
  }

  lemma FrameC(p: Input, d: nat, pos: Pos, c: seq<int>, j: nat, i: nat, v: int)
    requires p.Good() && i < p.lda && j < p.lda && |c| == Area(p.lda) && StoredBy(p, d, pos, c)
    requires !(Lo(d, p.W()) <= j < Hi(d, p.W()))
    ensures Idx(j, i, p.lda) < |c| && StoredBy(p, d, pos, c[Idx(j, i, p.lda) := v])
  {
    hide Lo, Hi, Dot, Idx, Area;
    Index(j, i, p.lda);
    var c' := c[Idx(j, i, p.lda) := v];
    forall j': nat, i': nat | Lo(d, p.W()) <= j' < Hi(d, p.W()) && j' < p.lda && i' < p.lda && Stored(pos, j', i')
      ensures ProductAt(p, c', j', i')
    {
      assert ProductAt(p, c, j', i');
      Index(j', i', p.lda);
      if Idx(j, i, p.lda) == Idx(j', i', p.lda) { IndexUnique(j, i, j', i', p.lda); }
    }
  }

  /** Core c at a transposition step: it writes its entry and disturbs nobody. */
  lemma TransStep(p: Input, s: Sys, c: nat)
    requires Inv(p, s) && c < p.n && |s.pos| == |s.bar.cores| == p.n && s.bar.cores[c].pc == B.Out && s.pos[c].Trans?
    requires s.pos[c].k < p.lda && s.pos[c].i < Hi(c, p.W())
    ensures Inv(p, Step(p, s, c)) && AccessOk(p, s, c)
  {
    hide Inv, CoreOk, B.Inv, Idx, Area, Dot, Lo, Hi, WrittenBy, StoredBy;
    var k, i := s.pos[c].k, s.pos[c].i;
    TransBounds(p, s, c);
    var bb := s.bb[Idx(i, k, p.lda) := p.b[Idx(k, i, p.lda)]];
    TransMoves(p, s, c, bb);
  }

  lemma TransBounds(p: Input, s: Sys, c: nat)
    requires Inv(p, s) && c < p.n && |s.pos| == |s.bar.cores| == p.n && s.pos[c].Trans? && s.pos[c].k < p.lda
    requires s.pos[c].i < Hi(c, p.W())
    ensures var k, i := s.pos[c].k, s.pos[c].i;
      Lo(c, p.W()) <= i < p.lda && Idx(i, k, p.lda) < 1024 && Idx(k, i, p.lda) < |p.b|
  {
    hide Inv, CoreOk, B.Inv, Idx, Area, Dot, Lo, Hi, WrittenBy, StoredBy;
    CoreFacts(p, s, c);
    var k, i := s.pos[c].k, s.pos[c].i;
    Index(i, k, p.lda);
    Index(k, i, p.lda);
    Small(p.lda);
  }

  lemma Small(lda: nat)
    requires lda <= 32
    ensures Area(lda) <= 1024
  {
    MulMono(lda, 32, lda);
  }

  lemma TransMoves(p: Input, s: Sys, c: nat, bb: map<nat, int>)
    requires Inv(p, s) && c < p.n && s.pos[c].Trans?
    requires var k, i := s.pos[c].k, s.pos[c].i;
      && k < p.lda && Lo(c, p.W()) <= i < p.lda && i < Hi(c, p.W())
      && Idx(k, i, p.lda) < |p.b| && bb == s.bb[Idx(i, k, p.lda) := p.b[Idx(k, i, p.lda)]]
    ensures Inv(p, s.(bb := bb, pos := s.pos[c := Trans(s.pos[c].k, s.pos[c].i + 1)]))
  {
    hide B.Inv, Idx, Area, Dot, Lo, Hi, WrittenBy, StoredBy;
    var k, i := s.pos[c].k, s.pos[c].i;
    assert CoreOk(p, s, c);
    TransWrites(p, c, s.pos[c], s.bb);
    forall d | 0 <= d < p.n && d != c
      ensures WrittenBy(p, d, s.pos[d], bb) && StoredBy(p, d, s.pos[d], s.c)
    {
      assert CoreOk(p, s, d);
      OtherBlock(c, d, p.W(), i);
      FrameBB(p, d, s.pos[d], s.bb, i, k, p.b[Idx(k, i, p.lda)]);
    }
    StoredTrans(p, c, Trans(k, i + 1), s.c);
    Move(p, s, c, s.bar, Trans(k, i + 1), bb, s.c);
  }

  lemma StoredTrans(p: Input, c: nat, pos: Pos, m: seq<int>)
    requires p.Good() && |m| == Area(p.lda) && pos.Trans?
    ensures StoredBy(p, c, pos, m)
  {
  }

  /** Core c moves on to pos; the shared arrays change only in ways the other cores do not see. */
  lemma Move(p: Input, s: Sys, c: nat, bar: B.State, pos: Pos, bb: map<nat, int>, m: seq<int>)
    requires Inv(p, s) && c < p.n && B.Inv(bar) && |bar.cores| == p.n && |m| == |s.c|
    requires forall d | 0 <= d < p.n && d != c :: bar.cores[d].entered == s.bar.cores[d].entered
    requires InRange(p, c, pos) && bar.cores[c].entered == Calls(p, c, pos) && SumsOk(p, pos)
    requires WrittenBy(p, c, pos, bb) && StoredBy(p, c, pos, m)
    requires forall d | 0 <= d < p.n && d != c :: WrittenBy(p, d, s.pos[d], bb) && StoredBy(p, d, s.pos[d], m)
    ensures Inv(p, Sys(bar, s.pos[c := pos], bb, m))
  {
    hide B.Inv, Idx, Area, Dot, Lo, Hi, WrittenBy, StoredBy, InRange, SumsOk, Calls;
    var s' := Sys(bar, s.pos[c := pos], bb, m);
    forall d | 0 <= d < p.n ensures CoreOk(p, s', d) {
      assert CoreOk(p, s, d);
    }
  }

  lemma OtherBlock(c: nat, d: nat, w: nat, i: nat)
    requires c != d && Lo(c, w) <= i < Hi(c, w)
    ensures !(Lo(d, w) <= i < Hi(d, w))
  {
    Blocks(c, d, w);
    Blocks(d, c, w);
  }

  lemma TransWrites(p: Input, c: nat, pos: Pos, bb: map<nat, int>)
    requires p.Good() && pos.Trans? && pos.k < p.lda && pos.i < p.lda && WrittenBy(p, c, pos, bb)
    requires Idx(pos.k, pos.i, p.lda) < |p.b|
    ensures WrittenBy(p, c, Trans(pos.k, pos.i + 1), bb[Idx(pos.i, pos.k, p.lda) := p.b[Idx(pos.k, pos.i, p.lda)]])
  {
    hide Lo, Hi, Idx, Area;
    var bb' := bb[Idx(pos.i, pos.k, p.lda) := p.b[Idx(pos.k, pos.i, p.lda)]];
    forall i': nat, k': nat |
        Lo(c, p.W()) <= i' < Hi(c, p.W()) && i' < p.lda && k' < p.lda && Wrote(Trans(pos.k, pos.i + 1), i', k')
      ensures Entry(p, bb', i', k')
    {
      if Idx(pos.i, pos.k, p.lda) == Idx(i', k', p.lda) {
        IndexUnique(pos.i, pos.k, i', k', p.lda);
      } else {
        assert Entry(p, bb, i', k');
      }
    }
  }

  /** Steps that only move core c's own place (and enter or advance the barrier). */
  lemma PlaceStep(p: Input, s: Sys, c: nat, bar: B.State, pos: Pos)
    requires Inv(p, s) && c < p.n && B.Inv(bar) && |bar.cores| == p.n
    requires forall d | 0 <= d < p.n && d != c :: bar.cores[d].entered == s.bar.cores[d].entered
    requires InRange(p, c, pos) && bar.cores[c].entered == Calls(p, c, pos) && SumsOk(p, pos)
    requires WrittenBy(p, c, pos, s.bb) && StoredBy(p, c, pos, s.c)
    ensures Inv(p, s.(bar := bar, pos := s.pos[c := pos]))
  {
    hide B.Inv, Idx, Area, Dot, Lo, Hi, WrittenBy, StoredBy, InRange, SumsOk, Calls;
    forall d | 0 <= d < p.n && d != c
      ensures WrittenBy(p, d, s.pos[d], s.bb) && StoredBy(p, d, s.pos[d], s.c)
    {
      assert CoreOk(p, s, d);
    }
    Move(p, s, c, bar, pos, s.bb, s.c);
  }

  lemma BarrierStep(p: Input, s: Sys, c: nat)
    requires Inv(p, s) && c < p.n && s.bar.cores[c].pc != B.Out
    ensures Inv(p, Step(p, s, c)) && AccessOk(p, s, c)
  {
    hide B.Inv, Idx, Area, Dot, Lo, Hi;
    B.StepInv(s.bar, c);
    assert CoreOk(p, s, c);
    PlaceStep(p, s, c, B.Step(s.bar, c), s.pos[c]);
    assert s.pos[c := s.pos[c]] == s.pos;
  }

  /** Leaving row block after row block: the loop heads, and the barrier calls between them. */
  lemma TransEnds(p: Input, s: Sys, c: nat)
    requires Inv(p, s) && c < p.n && |s.pos| == |s.bar.cores| == p.n && s.bar.cores[c].pc == B.Out && s.pos[c].Trans?
    requires s.pos[c].k >= p.lda || s.pos[c].i >= Hi(c, p.W())
    ensures Inv(p, Step(p, s, c)) && AccessOk(p, s, c)
  {
    hide Inv, CoreOk, B.Inv, Dot, StoredBy, Idx, Area;
    var k := s.pos[c].k;
    CoreFacts(p, s, c);
    if k >= p.lda {
      StoredTrans(p, c, s.pos[c], s.c);
      StoredStart(p, c, s.c);
      PlaceStep(p, s, c, s.bar, Head(0, Lo(c, p.W())));
    } else {
      B.StepInv(s.bar, c);
      StoredTrans(p, c, Trans(k + 1, Lo(c, p.W())), s.c);
      PlaceStep(p, s, c, B.Step(s.bar, c), Trans(k + 1, Lo(c, p.W())));
    }
  }

  lemma StoredStart(p: Input, c: nat, m: seq<int>)
    requires p.Good() && |m| == Area(p.lda)
    ensures StoredBy(p, c, Head(0, Lo(c, p.W())), m)
  {
  }

  lemma HeadStep(p: Input, s: Sys, c: nat)
    requires Inv(p, s) && c < p.n && |s.pos| == |s.bar.cores| == p.n && s.bar.cores[c].pc == B.Out && s.pos[c].Head?
    ensures Inv(p, Step(p, s, c)) && AccessOk(p, s, c)
  {
    hide Inv, CoreOk, B.Inv, WrittenBy, ProductAt, Idx, Area, Lo, Hi;
    var i, j, lda, w := s.pos[c].i, s.pos[c].j, p.lda, p.W();
    CoreFacts(p, s, c);
    Blocks(c, c, w);
    WroteAll(p, c, s.pos[c], Done, s.bb);
    if i >= lda {
      PlaceStep(p, s, c, s.bar, Done);
    } else if j < Hi(c, w) {
      WroteAll(p, c, s.pos[c], Mul(i, j, 0, 0, [0, 0, 0, 0]), s.bb);
      PlaceStep(p, s, c, s.bar, Mul(i, j, 0, 0, [0, 0, 0, 0]));
    } else {
      WroteAll(p, c, s.pos[c], Head(i + 4, Lo(c, w)), s.bb);
      NextBlock(i, w);
      PlaceStep(p, s, c, s.bar, Head(i + 4, Lo(c, w)));
    }
  }

  lemma NextBlock(i: nat, w: nat)
    ensures (i + 4) / 4 * w == i / 4 * w + w
  {
    assert (i + 4) / 4 == i / 4 + 1;
  }

  lemma WroteAll(p: Input, c: nat, pos: Pos, pos': Pos, bb: map<nat, int>)
    requires p.Good() && !pos.Trans? && !pos'.Trans? && WrittenBy(p, c, pos, bb)
    ensures WrittenBy(p, c, pos', bb)
  {
    forall i: nat, k: nat | Lo(c, p.W()) <= i < Hi(c, p.W()) && i < p.lda && k < p.lda
      ensures Entry(p, bb, i, k)
    {
      assert Wrote(pos, i, k);
    }
  }

  /** Past the transposition the whole of BB is written: every core has entered lda barriers. */
  lemma AllWritten(p: Input, s: Sys, c: nat, i: nat, k: nat)
    requires Inv(p, s) && c < p.n && s.bar.cores[c].pc == B.Out && !s.pos[c].Trans?
    requires i < p.lda && k < p.lda
    ensures Entry(p, s.bb, i, k)
  {
    hide B.Step, Dot, StoredBy, ProductAt, Idx, Area;
    assert CoreOk(p, s, c);
    BlockInside(c, p.n, p.W(), p.lda);
    CallsPast(p, c, s.pos[c]);
    B.InvMeans(s.bar);
    var d := Owner(i, p.n, p.W(), p.lda);
    assert CoreOk(p, s, d);
    assert B.CoreInv(s.bar.cores[c], s.bar.round);
    assert s.bar.cores[d].entered >= s.bar.cores[c].left >= p.lda;
    assert Wrote(s.pos[d], i, k);
  }

  lemma CallsPast(p: Input, c: nat, pos: Pos)
    requires p.Good() && InRange(p, c, pos) && !pos.Trans?
    ensures Calls(p, c, pos) >= p.lda
  {
    var x := match pos case Head(i, _) => i case Mul(i, _, _, _, _) => i case Put(i, _, _, _) => i case _ => p.lda;
    MulMono(0, x / 4, p.W());
  }

  /** Where core c is after one more product, when the accumulator it works on becomes sum. */
  ghost function NextMul(pos: Pos, sum: int): Pos
    requires pos.Mul? && pos.u / 8 < |pos.acc|
  {
    var acc := pos.acc[pos.u / 8 := sum];
    if pos.u == 31 then Mul(pos.i, pos.j, pos.k + 8, 0, acc) else Mul(pos.i, pos.j, pos.k, pos.u + 1, acc)
  }

  /** The entry of BB that a product reads is written, and the sum is the next prefix of the dot product. */
  lemma MulReads(p: Input, s: Sys, c: nat) returns (sum: int)
    requires Inv(p, s) && c < p.n && |s.pos| == |s.bar.cores| == p.n && s.bar.cores[c].pc == B.Out && s.pos[c].Mul?
    requires s.pos[c].k < p.lda
    ensures AccessOk(p, s, c) && p.Good() && s.pos[c].u < 32 && |s.pos[c].acc| == 4 && s.pos[c].k + 8 <= p.lda
    ensures var pos := s.pos[c]; var q, r := pos.u / 8, pos.u % 8;
      pos.j < p.lda && pos.i + q < p.lda && sum == Dot(p.a, p.b, p.lda, pos.j, pos.i + q, pos.k + r + 1)
    ensures Step(p, s, c) == s.(pos := s.pos[c := NextMul(s.pos[c], sum)])
  {
    hide Inv, CoreOk, B.Inv, WrittenBy, StoredBy, ProductAt, Idx, Area, Lo, Hi, Dot, Calls, Wrote, Stored, Step,
         AccessOk,
         Reach, NextMul;
    var i, j, k, u, acc := s.pos[c].i, s.pos[c].j, s.pos[c].k, s.pos[c].u, s.pos[c].acc;
    CoreFacts(p, s, c);
    var q, r, lda := u / 8, u % 8, p.lda;
    UnrolledAt(k, u, lda);
    AllWritten(p, s, c, i + q, k + r);
    assert Entry(p, s.bb, i + q, k + r);
    Index(j, k + r, lda);
    Index(i + q, k + r, lda);
    Index(k + r, i + q, lda);
    sum := acc[q] + p.a[Idx(j, k + r, lda)] * p.b[Idx(k + r, i + q, lda)];
    DotNext(p, j, i + q, k + r);
    MulUnfold(p, s, c, sum);
  }

  lemma UnrolledAt(k: nat, u: nat, lda: nat)
    requires k % 8 == 0 && lda % 8 == 0 && k < lda && u < 32
    ensures k + 8 <= lda && u / 8 < 4 && Reach(k, u, u / 8) == k + u % 8
  {
  }

  lemma MulUnfold(p: Input, s: Sys, c: nat, sum: int)
    requires c < |s.pos| == |s.bar.cores| && s.bar.cores[c].pc == B.Out && s.pos[c].Mul? && s.pos[c].k < p.lda
    requires var pos := s.pos[c];
      var q, r := pos.u / 8, pos.u % 8;
      && q < |pos.acc| && Idx(pos.j, pos.k + r, p.lda) < |p.a| && Idx(pos.i + q, pos.k + r, p.lda) in s.bb
      && sum == pos.acc[q] + p.a[Idx(pos.j, pos.k + r, p.lda)] * s.bb[Idx(pos.i + q, pos.k + r, p.lda)]
    ensures AccessOk(p, s, c) && Step(p, s, c) == s.(pos := s.pos[c := NextMul(s.pos[c], sum)])
  {
    hide Idx;
  }

  /** One product: the entry read is written, and the accumulator stays a prefix of the dot product. */
  lemma MulStep(p: Input, s: Sys, c: nat)
    requires Inv(p, s) && c < p.n && |s.pos| == |s.bar.cores| == p.n && s.bar.cores[c].pc == B.Out && s.pos[c].Mul?
    requires s.pos[c].k < p.lda
    ensures Inv(p, Step(p, s, c)) && AccessOk(p, s, c)
  {
    hide Inv, CoreOk, B.Inv, WrittenBy, StoredBy, ProductAt, Idx, Area, Lo, Hi, Dot, Calls, Step, AccessOk;
    CoreFacts(p, s, c);
    var sum := MulReads(p, s, c);
    var pos' := NextMul(s.pos[c], sum);
    SumsNext(p, s.pos[c], sum);
    WroteAll(p, c, s.pos[c], pos', s.bb);
    StoredSame(p, c, s.pos[c], pos', s.c);
    CallsSame(p, c, s.pos[c], pos');
    PlaceStep(p, s, c, s.bar, pos');
  }

  lemma CallsSame(p: Input, c: nat, pos: Pos, pos': Pos)
    requires pos.Mul?
    requires ((pos'.Mul? && pos'.i == pos.i && pos'.j == pos.j) || (pos'.Put? && pos'.i == pos.i && pos'.j == pos.j))
    ensures Calls(p, c, pos) == Calls(p, c, pos')
  {
  }

  lemma StoredSame(p: Input, c: nat, pos: Pos, pos': Pos, m: seq<int>)
    requires p.Good() && |m| == Area(p.lda) && StoredBy(p, c, pos, m)
    requires forall j: nat, i: nat :: Stored(pos', j, i) ==> Stored(pos, j, i)
    ensures StoredBy(p, c, pos', m)
  {
  }

  lemma DotNext(p: Input, row: nat, col: nat, k: nat)
    requires p.Good() && row < p.lda && col < p.lda && k < p.lda
    ensures Idx(row, k, p.lda) < |p.a| && Idx(k, col, p.lda) < |p.b|
    ensures Dot(p.a, p.b, p.lda, row, col, k + 1) ==
      Dot(p.a, p.b, p.lda, row, col, k) + p.a[Idx(row, k, p.lda)] * p.b[Idx(k, col, p.lda)]
  {
    hide Idx, Area;
    Index(row, k, p.lda);
    Index(k, col, p.lda);
  }

  /** The four accumulators advance one product at a time, eight for each in turn. */
  lemma SumsNext(p: Input, pos: Pos, sum: int)
    requires p.Good() && pos.Mul? && SumsOk(p, pos) && pos.k + 8 <= p.lda && pos.u < 32
    requires var q, r := pos.u / 8, pos.u % 8;
      sum == Dot(p.a, p.b, p.lda, pos.j, pos.i + q, pos.k + r + 1)
    ensures var acc' := pos.acc[pos.u / 8 := sum];
      SumsOk(p, if pos.u == 31 then Mul(pos.i, pos.j, pos.k + 8, 0, acc')
                else Mul(pos.i, pos.j, pos.k, pos.u + 1, acc'))
  {
    hide Dot, Idx, Area;
    var k, u := pos.k, pos.u;
    assert Reach(k, u, u / 8) == k + u % 8;
    assert forall q | 0 <= q < 4 && q != u / 8 ::
      Reach(k, u, q) == if u == 31 then Reach(k + 8, 0, q) else Reach(k, u + 1, q);
  }

  lemma MulEnds(p: Input, s: Sys, c: nat)
    requires Inv(p, s) && c < p.n && |s.pos| == |s.bar.cores| == p.n && s.bar.cores[c].pc == B.Out && s.pos[c].Mul?
    requires s.pos[c].k >= p.lda
    ensures Inv(p, Step(p, s, c)) && AccessOk(p, s, c)
  {
    hide Inv, CoreOk, B.Inv, WrittenBy, StoredBy, ProductAt, Idx, Area, Lo, Hi, Dot, Calls;
    var pos := s.pos[c];
    CoreFacts(p, s, c);
    var pos' := Put(pos.i, pos.j, 0, pos.acc);
    WroteAll(p, c, pos, pos', s.bb);
    StoredSame(p, c, pos, pos', s.c);
    CallsSame(p, c, pos, pos');
    PlaceStep(p, s, c, s.bar, pos');
  }

  lemma PutStep(p: Input, s: Sys, c: nat)
    requires Inv(p, s) && c < p.n && |s.pos| == |s.bar.cores| == p.n && s.bar.cores[c].pc == B.Out && s.pos[c].Put?
    requires s.pos[c].q < 4
    ensures Inv(p, Step(p, s, c)) && AccessOk(p, s, c)
  {
    hide Inv, CoreOk, B.Inv, WrittenBy, StoredBy, ProductAt, Idx, Area, Lo, Hi, Dot, Calls;
    var i, j, q, acc := s.pos[c].i, s.pos[c].j, s.pos[c].q, s.pos[c].acc;
    CoreFacts(p, s, c);
    Index(j, i + q, p.lda);
    var m := s.c[Idx(j, i + q, p.lda) := acc[q]];
    var pos' := Put(i, j, q + 1, acc);
    forall d | 0 <= d < p.n && d != c
      ensures WrittenBy(p, d, s.pos[d], s.bb) && StoredBy(p, d, s.pos[d], m)
    {
      CoreFacts(p, s, d);
      OtherBlock(c, d, p.W(), j);
      FrameC(p, d, s.pos[d], s.c, j, i + q, acc[q]);
    }
    WroteAll(p, c, s.pos[c], pos', s.bb);
    StoredNext(p, c, s.pos[c], s.c);
    PutCalls(p, c, s.pos[c], pos');
    Move(p, s, c, s.bar, pos', s.bb, m);
  }

  lemma PutCalls(p: Input, c: nat, pos: Pos, pos': Pos)
    requires pos.Put? && pos'.Put? && pos'.i == pos.i && pos'.j == pos.j
    ensures Calls(p, c, pos) == Calls(p, c, pos')
  {
  }

  lemma StoredNext(p: Input, c: nat, pos: Pos, m: seq<int>)
    requires p.Good() && |m| == Area(p.lda) && pos.Put? && pos.q < 4 && SumsOk(p, pos) && StoredBy(p, c, pos, m)
    ensures Idx(pos.j, pos.i + pos.q, p.lda) < |m|
    ensures StoredBy(p, c, Put(pos.i, pos.j, pos.q + 1, pos.acc), m[Idx(pos.j, pos.i + pos.q, p.lda) := pos.acc[pos.q]])
  {
    hide Dot, Idx, Area, Lo, Hi;
    var x, y := pos.j, pos.i + pos.q;
    Index(x, y, p.lda);
    var m' := m[Idx(x, y, p.lda) := pos.acc[pos.q]];
    var pos' := Put(pos.i, pos.j, pos.q + 1, pos.acc);
    forall j: nat, i: nat | Lo(c, p.W()) <= j < Hi(c, p.W()) && j < p.lda && i < p.lda && Stored(pos', j, i)
      ensures ProductAt(p, m', j, i)
    {
      Index(j, i, p.lda);
      if Idx(x, y, p.lda) == Idx(j, i, p.lda) {
        IndexUnique(x, y, j, i, p.lda);
      } else {
        assert Stored(pos, j, i);
        assert ProductAt(p, m, j, i);
      }
    }
  }

  lemma PutEnds(p: Input, s: Sys, c: nat)
    requires Inv(p, s) && c < p.n && |s.pos| == |s.bar.cores| == p.n && s.bar.cores[c].pc == B.Out && s.pos[c].Put?
    requires s.pos[c].q >= 4
    ensures Inv(p, Step(p, s, c)) && AccessOk(p, s, c)
  {
    hide Inv, CoreOk, B.Inv, WrittenBy, StoredBy, ProductAt, Idx, Area, Dot;
    var pos := s.pos[c];
    CoreFacts(p, s, c);
    var pos' := Head(pos.i, pos.j + 1);
    B.StepInv(s.bar, c);
    WroteAll(p, c, pos, pos', s.bb);
    StoredRow(p, c, pos, s.c);
    PlaceStep(p, s, c, B.Step(s.bar, c), pos');
  }

  lemma StoredRow(p: Input, c: nat, pos: Pos, m: seq<int>)
    requires p.Good() && |m| == Area(p.lda) && pos.Put? && pos.q == 4 && StoredBy(p, c, pos, m)
    ensures StoredBy(p, c, Head(pos.i, pos.j + 1), m)
  {
    hide ProductAt, Idx, Area, Lo, Hi;
    forall j: nat, i: nat |
        Lo(c, p.W()) <= j < Hi(c, p.W()) && j < p.lda && i < p.lda && Stored(Head(pos.i, pos.j + 1), j, i)
      ensures ProductAt(p, m, j, i)
    {
      assert Stored(pos, j, i);
    }
  }

  /** Every step of every core keeps the invariant and makes only legal accesses. */
  lemma StepInv(p: Input, s: Sys, c: nat)
    requires Inv(p, s) && c < p.n
    ensures Inv(p, Step(p, s, c)) && AccessOk(p, s, c)
  {
    hide B.Inv, CoreOk;
    if s.bar.cores[c].pc != B.Out {
      BarrierStep(p, s, c);
    } else {
      match s.pos[c]
      case Trans(k, i) =>
        if k < p.lda && i < Hi(c, p.W()) { TransStep(p, s, c); } else { TransEnds(p, s, c); }
      case Head(_, _) => HeadStep(p, s, c);
      case Mul(_, _, k, _, _) =>
        if k < p.lda { MulStep(p, s, c); } else { MulEnds(p, s, c); }
      case Put(_, _, q, _) =>
        if q < 4 { PutStep(p, s, c); } else { PutEnds(p, s, c); }
      case Done =>
    }
  }

  // ---------------------------------------------------------------- whole runs

  ghost predicate IsRun(p: Input, c0: seq<int>, run: seq<Sys>, who: seq<nat>)
  {
    && p.Good() && |c0| == Area(p.lda)
    && |run| == |who| + 1 && run[0] == Start(p, c0)
    && forall t | 0 <= t < |who| ::
         who[t] < |run[t].pos| == |run[t].bar.cores| && run[t + 1] == Step(p, run[t], who[t])
  }

  lemma StartInv(p: Input, c0: seq<int>)
    requires p.Good() && |c0| == Area(p.lda)
    ensures Inv(p, Start(p, c0))
  {
    hide B.Inv, Idx, Area, Dot;
    B.StartInv(p.n);
    var s := Start(p, c0);
    assert p.n * p.W() == p.lda;
    forall c | 0 <= c < p.n ensures CoreOk(p, s, c) {
      BlockInside(c, p.n, p.W(), p.lda);
      StoredTrans(p, c, s.pos[c], s.c);
    }
  }

  lemma {:induction false} RunInv(p: Input, c0: seq<int>, run: seq<Sys>, who: seq<nat>, t: nat)
    requires IsRun(p, c0, run, who) && t <= |who|
    ensures Inv(p, run[t])
  {
    hide Inv, Step, Start;
    if t == 0 {
      StartInv(p, c0);
    } else {
      RunInv(p, c0, run, who, t - 1);
      InvSizes(p, run[t - 1]);
      StepInv(p, run[t - 1], who[t - 1]);
    }
  }

  lemma InvSizes(p: Input, s: Sys)
    requires Inv(p, s)
    ensures |s.pos| == |s.bar.cores| == p.n && |s.c| == Area(p.lda)
  {
  }

  /** Under every interleaving no entry of BB is read before it is written and every access is in
      bounds. */
  lemma NoEarlyRead(p: Input, c0: seq<int>, run: seq<Sys>, who: seq<nat>, t: nat, c: nat)
    requires IsRun(p, c0, run, who) && t <= |who| && c < p.n
    ensures |run[t].pos| == |run[t].bar.cores| == p.n && AccessOk(p, run[t], c)
  {
    hide Step, AccessOk;
    RunInv(p, c0, run, who, t);
    StepInv(p, run[t], c);
  }

  /** Under every interleaving, when all cores are done, C is the product of A and B. */
  lemma Product(p: Input, c0: seq<int>, run: seq<Sys>, who: seq<nat>, t: nat, row: nat, col: nat)
    requires IsRun(p, c0, run, who) && t <= |who| && row < p.lda && col < p.lda
    requires forall c | 0 <= c < |run[t].pos| :: run[t].pos[c].Done?
    ensures Idx(row, col, p.lda) < |run[t].c|
    ensures run[t].c[Idx(row, col, p.lda)] == Dot(p.a, p.b, p.lda, row, col, p.lda)
  {
    hide Step, B.Inv, Idx, Area, Dot, Lo, Hi;
    RunInv(p, c0, run, who, t);
    Index(row, col, p.lda);
    var c := Owner(row, p.n, p.W(), p.lda);
    assert CoreOk(p, run[t], c);
    assert Stored(run[t].pos[c], row, col);
    assert ProductAt(p, run[t].c, row, col);
  }

  /** No deadlock: until all cores are done, some core has a step that changes the state. */
  lemma NeverStuck(p: Input, s: Sys) returns (c: nat)
    requires Inv(p, s) && exists x :: 0 <= x < |s.pos| && !s.pos[x].Done?
    ensures c < p.n && Step(p, s, c) != s
  {
    hide Idx, Area, Dot, WrittenBy, StoredBy, SumsOk, CoreOk;
    var y := B.NeverStuck(s.bar);
    c := y;
    if s.bar.cores[y].pc == B.Out && s.pos[y].Done? {
      c :| 0 <= c < p.n && !s.pos[c].Done?;
      DoneIsLast(p, s, c, y);
      B.StepProgress(s.bar, c);
    }
    if s.bar.cores[c].pc == B.Out { MovesOn(p, s, c); }
  }

  lemma MovesOn(p: Input, s: Sys, c: nat)
    requires c < |s.pos| == |s.bar.cores| && s.bar.cores[c].pc == B.Out && !s.pos[c].Done?
    ensures Step(p, s, c) != s
  {
    hide Idx;
    var s' := Step(p, s, c);
    assert s'.pos[c] != s.pos[c];
  }

  /** Nobody waits in a round that a finished core will never enter. */
  lemma DoneIsLast(p: Input, s: Sys, x: nat, y: nat)
    requires Inv(p, s) && x < p.n && y < p.n && s.pos[y].Done? && s.bar.cores[y].pc == B.Out
    ensures !B.Idle(s.bar, x)
  {
    hide Idx, Area, Dot, WrittenBy, StoredBy, SumsOk;
    assert CoreOk(p, s, x) && CoreOk(p, s, y);
    assert B.CoreInv(s.bar.cores[x], s.bar.round) && B.CoreInv(s.bar.cores[y], s.bar.round);
    CallsBound(p, x, s.pos[x]);
    assert Calls(p, y, Done) == Calls(p, x, Done);
  }

  lemma CallsBound(p: Input, c: nat, pos: Pos)
    requires p.Good() && c < p.n && InRange(p, c, pos)
    ensures Calls(p, c, pos) <= Calls(p, c, Done)
  {
    var w := p.W();
    Blocks(c, c, w);
    MulMono(0, p.lda / 4, w);
    var x := match pos case Head(i, _) => i case Mul(i, _, _, _, _) => i case Put(i, _, _, _) => i case _ => p.lda;
    hide Lo, Hi;
    if x < p.lda {
      NextBlock(x, w);
      MulMono((x + 4) / 4, p.lda / 4, w);
    }
  }

  // ---------------------------------------------------------------- the program comes to an end

  /** A bound on what core c has before it at pos; every loop's weight covers a whole run of the loop inside. */
  ghost function Left(p: Input, c: nat, pos: Pos): int
  {
    var lo, hi, lda := Lo(c, p.W()), Hi(c, p.W()), p.lda;
    match pos
    case Trans(k, i) => 70000 + 40 * (lda - k) + (hi - i)
    case Head(i, j) => 1 + 1700 * (lda - i) + 210 * (hi - j)
    case Mul(i, j, k, u, _) => 1700 * (lda - i) + 210 * (hi - j - 1) + 11 + 5 * (lda - k) + (32 - u)
    case Put(i, j, q, _) => 1700 * (lda - i) + 210 * (hi - j - 1) + 2 + (4 - q)
    case Done => 0
  }

  const LONGEST: nat := 72000

  lemma LeftBounds(p: Input, s: Sys, c: nat)
    requires Inv(p, s) && c < p.n && |s.pos| == p.n
    ensures 0 <= Left(p, c, s.pos[c]) <= LONGEST
  {
    hide Inv, CoreOk, B.Inv, Idx, Area, Dot, Lo, Hi, WrittenBy, StoredBy, SumsOk, ProductAt, Calls;
    CoreFacts(p, s, c);
  }

  ghost function Weights(p: Input, s: Sys): (r: seq<int>)
    requires |s.pos| == |s.bar.cores|
    ensures |r| == |s.pos|
  {
    seq(|s.pos|, (c: nat) requires c < |s.pos| => 6 * Left(p, c, s.pos[c]) + B.Ahead(s.bar.cores[c].pc))
  }

  /** Outside the barrier every step brings the core strictly closer to its end. */
  lemma LeftFalls(p: Input, s: Sys, c: nat)
    requires Inv(p, s) && c < p.n && |s.pos| == |s.bar.cores| == p.n && s.bar.cores[c].pc == B.Out && !s.pos[c].Done?
    ensures |Step(p, s, c).pos| == |s.pos| && Left(p, c, Step(p, s, c).pos[c]) < Left(p, c, s.pos[c])
    ensures |Step(p, s, c).bar.cores| == |s.bar.cores| && B.Ahead(Step(p, s, c).bar.cores[c].pc) <= 4
  {
    hide Inv, CoreOk, B.Inv, Idx, Area, Dot, Lo, Hi, WrittenBy, StoredBy, SumsOk, ProductAt, Calls;
    CoreFacts(p, s, c);
  }

  /** A step of core c leaves the other cores where they are. */
  lemma OnlyMine(p: Input, s: Sys, c: nat, d: nat)
    requires c < |s.pos| == |s.bar.cores| && d < |s.pos| && d != c
    ensures var s' := Step(p, s, c);
      |s'.pos| == |s'.bar.cores| == |s.pos| && s'.pos[d] == s.pos[d] && s'.bar.cores[d] == s.bar.cores[d]
  {
    hide Idx, B.Step;
    B.OthersStay(s.bar, c, d);
  }

  /** Every step that changes the state lowers the total. */
  lemma StepLowers(p: Input, s: Sys, c: nat)
    requires Inv(p, s) && c < p.n && |s.pos| == |s.bar.cores| == p.n && Step(p, s, c) != s
    ensures var s' := Step(p, s, c);
      |s'.pos| == |s'.bar.cores| == p.n && B.Total(Weights(p, s')) < B.Total(Weights(p, s))
  {
    hide Inv, Step, Left, B.Ahead;
    StepInv(p, s, c);
    var s' := Step(p, s, c);
    InvSizes(p, s');
    forall d: nat | d < p.n && d != c ensures Weights(p, s')[d] == Weights(p, s)[d] { OnlyMine(p, s, c, d); }
    MineFalls(p, s, c);
    B.TotalFalls(Weights(p, s), Weights(p, s'), c);
  }

  lemma MineFalls(p: Input, s: Sys, c: nat)
    requires Inv(p, s) && c < p.n && |s.pos| == |s.bar.cores| == p.n && Step(p, s, c) != s
    ensures var s' := Step(p, s, c);
      |s'.pos| == |s'.bar.cores| == p.n &&
      6 * Left(p, c, s'.pos[c]) + B.Ahead(s'.bar.cores[c].pc) < 6 * Left(p, c, s.pos[c]) + B.Ahead(s.bar.cores[c].pc)
  {
    hide Inv, Left, Idx, B.Step;
    if s.bar.cores[c].pc == B.Out {
      hide Step;
      DoneStays(p, s, c);
      LeftFalls(p, s, c);
    } else {
      B.AheadFalls(s.bar, c);
    }
  }

  lemma DoneStays(p: Input, s: Sys, c: nat)
    requires c < |s.pos| == |s.bar.cores| && s.bar.cores[c].pc == B.Out
    ensures s.pos[c].Done? ==> Step(p, s, c) == s
  {
    hide Idx;
  }

  lemma WeightBounds(p: Input, s: Sys)
    requires Inv(p, s)
    ensures |s.pos| == |s.bar.cores| == p.n && 0 <= B.Total(Weights(p, s)) <= (6 * LONGEST + 4) * p.n
  {
    hide Inv, Left;
    InvSizes(p, s);
    var ws := Weights(p, s);
    forall x | x in ws ensures 0 <= x <= 6 * LONGEST + 4 {
      var c :| 0 <= c < |ws| && ws[c] == x;
      LeftBounds(p, s, c);
    }
    B.TotalBounds(ws, 6 * LONGEST + 4);
  }

  lemma {:induction false} MovesLower(p: Input, c0: seq<int>, run: seq<Sys>, who: seq<nat>, t: nat)
    requires IsRun(p, c0, run, who) && t <= |who|
    ensures |run[0].pos| == |run[0].bar.cores| && |run[t].pos| == |run[t].bar.cores| == p.n
    ensures B.Moves(run, t) + B.Total(Weights(p, run[t])) <= B.Total(Weights(p, run[0]))
  {
    hide Inv, Step, Weights;
    RunInv(p, c0, run, who, t);
    InvSizes(p, run[t]);
    if t > 0 {
      MovesLower(p, c0, run, who, t - 1);
      RunInv(p, c0, run, who, t - 1);
      if run[t] != run[t - 1] { StepLowers(p, run[t - 1], who[t - 1]); }
    }
  }

  /** Under every interleaving, however long, a bounded number of steps changes the state. */
  lemma MovesBounded(p: Input, c0: seq<int>, run: seq<Sys>, who: seq<nat>)
    requires IsRun(p, c0, run, who)
    ensures B.Moves(run, |who|) <= (6 * LONGEST + 4) * p.n
  {
    hide Inv, Step, Weights;
    MovesLower(p, c0, run, who, |who|);
    RunInv(p, c0, run, who, 0);
    RunInv(p, c0, run, who, |who|);
    WeightBounds(p, run[0]);
    WeightBounds(p, run[|who|]);
  }

  ghost predicate AllDone(s: Sys) { forall c | 0 <= c < |s.pos| :: s.pos[c].Done? }

  /** And every run can be continued, without idle steps, until all cores are done. */
  lemma {:induction false} CanFinish(p: Input, c0: seq<int>, run: seq<Sys>,
                                     who: seq<nat>) returns (run': seq<Sys>, who': seq<nat>)
    requires IsRun(p, c0, run, who)
    ensures IsRun(p, c0, run', who') && run <= run' && AllDone(run'[|who'|])
    ensures forall t | |who| <= t < |who'| :: run'[t + 1] != run'[t]
    decreases (6 * LONGEST + 4) * p.n - B.Moves(run, |who|)
  {
    hide Inv, Step;
    MovesBounded(p, c0, run, who);
    var s := run[|who|];
    RunInv(p, c0, run, who, |who|);
    InvSizes(p, s);
    if AllDone(s) {
      run', who' := run, who;
    } else {
      var c := NeverStuck(p, s);
      var run1, who1 := run + [Step(p, s, c)], who + [c];
      Extended(p, c0, run, who, c);
      B.MovesSame(run, run1, |who|);
      run', who' := CanFinish(p, c0, run1, who1);
    }
  }

  lemma Extended(p: Input, c0: seq<int>, run: seq<Sys>, who: seq<nat>, c: nat)
    requires IsRun(p, c0, run, who) && c < p.n && |run[|who|].pos| == |run[|who|].bar.cores| == p.n
    ensures IsRun(p, c0, run + [Step(p, run[|who|], c)], who + [c])
  {
    hide Step;
  }
}
