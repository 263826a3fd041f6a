/** dm_matmul.c under every interleaving. */
module DmMatmul {
  // The last core copies the first part of B into the shared B1, the others copy the rest, all meet
  // at one barrier, and then each core adds its rows of A * B to C in 4-by-4 tiles, the last core
  // reading B1 where the others read B.

  import opened Matrix
  import B = Barrier

  datatype Input = Input(n: nat, lda: nat, a: seq<int>, b: seq<int>, c0: seq<int>) {
    /** ncores divides lda, 4 divides a core's rows, and B1 has 32 * 32 entries. */
    ghost predicate Good()
    {
      && n > 0 && lda % n == 0 && lda / n % 4 == 0 && lda <= 32
      && |a| == |b| == |c0| == Area(lda)
    }
    function W(): nat { if n == 0 then 0 else lda / n }
    /** The number of entries the last core copies. */
    function Part(): nat { if n == 0 then 0 else Area(lda) / n }
    function From(c: nat): nat { if c + 1 == n then 0 else Part() }
    function To(c: nat): nat { if c + 1 == n then Part() else Area(lda) }
    /** The loop bound on i: max/4*4, and lda/4*4 for the last core. */
    function Limit(c: nat): nat { if c + 1 == n then lda / 4 * 4 else (W() * c + W()) / 4 * 4 }
  }

  /** Tile position u = 4 * (column offset) + (row offset), as the sixteen temporaries are listed. */
  datatype Pos =
    | Copy(i: nat)
    | Head(i: nat, j: nat)
    | Load(i: nat, j: nat, u: nat, acc: seq<int>)
    | Mul(i: nat, j: nat, k: nat, q: nat, acc: seq<int>)
    | Put(i: nat, j: nat, u: nat, acc: seq<int>)
    | Done

  datatype Sys = Sys(bar: B.State, pos: seq<Pos>, b1: map<nat, int>, c: seq<int>)

  function At(s: seq<int>, i: nat): int { if i < |s| then s[i] else 0 }
  function Set(s: seq<int>, i: nat, v: int): seq<int> { if i < |s| then s[i := v] else s }

  function Zeros(): seq<int> { [0, 0, 0, 0, 0, 0, 0, 0, 0, 0, 0, 0, 0, 0, 0, 0] }

  function Start(p: Input): Sys
  {
    Sys(B.Start(p.n), seq(p.n, (x: nat) => Copy(p.From(x))), map[], p.c0)
  }

  /** The four updates that follow one read of tempB, for tile column q. */
  function AddColumn(p: Input, acc: seq<int>, i: nat, k: nat, q: nat, v: int): (r: seq<int>)
    ensures |r| == |acc|
  {
    if |acc| != 16 || q >= 4 then acc
    else
      acc[4 * q := acc[4 * q] + At(p.a, Idx(i, k, p.lda)) * v]
         [4 * q + 1 := acc[4 * q + 1] + At(p.a, Idx(i + 1, k, p.lda)) * v]
         [4 * q + 2 := acc[4 * q + 2] + At(p.a, Idx(i + 2, k, p.lda)) * v]
         [4 * q + 3 := acc[4 * q + 3] + At(p.a, Idx(i + 3, k, p.lda)) * v]
  }

  function Step(p: Input, s: Sys, c: nat): Sys
    requires c < |s.pos| == |s.bar.cores|
  {
    if s.bar.cores[c].pc != B.Out then s.(bar := B.Step(s.bar, c))
    else
      var lda := p.lda;
      match s.pos[c]
      case Copy(i) =>
        if i < p.To(c) then s.(b1 := s.b1[i := At(p.b, i)], pos := s.pos[c := Copy(i + 1)])
        else s.(bar := B.Step(s.bar, c), pos := s.pos[c := Head(p.W() * c, 0)])
      case Head(i, j) =>
        if i >= p.Limit(c) then s.(pos := s.pos[c := Done])
        else if j < lda / 4 * 4 then s.(pos := s.pos[c := Load(i, j, 0, Zeros())])
        else s.(pos := s.pos[c := Head(i + 4, 0)])
      case Load(i, j, u, acc) =>
        if u < 16 then
          s.(pos := s.pos[c := Load(i, j, u + 1, Set(acc, u, At(s.c, Idx(i + u % 4, j + u / 4, lda))))])
        else s.(pos := s.pos[c := Mul(i, j, 0, 0, acc)])
      case Mul(i, j, k, q, acc) =>
        if k >= lda then s.(pos := s.pos[c := Put(i, j, 0, acc)])
        else
          var read := Idx(k, j + q, lda);
          var tempB := if c + 1 == p.n then (if read in s.b1 then s.b1[read] else 0) else At(p.b, read);
          var acc' := AddColumn(p, acc, i, k, q, tempB);
          s.(pos := s.pos[c := if q == 3 then Mul(i, j, k + 1, 0, acc') else Mul(i, j, k, q + 1, acc')])
      case Put(i, j, u, acc) =>
        if u < 16 then
          s.(c := Set(s.c, Idx(i + u % 4, j + u / 4, lda), At(acc, u)), pos := s.pos[c := Put(i, j, u + 1, acc)])
        else s.(pos := s.pos[c := Head(i, j + 4)])
      case Done => s
  }

  /** The access core c makes next is inside its array, and an entry of B1 it reads is written. */
  ghost predicate AccessOk(p: Input, s: Sys, c: nat)
    requires c < |s.pos| == |s.bar.cores|
  {
    s.bar.cores[c].pc == B.Out ==>
      match s.pos[c]
      case Copy(i) => i < p.To(c) ==> i < 1024 && i < |p.b|
      case Load(i, j, u, acc) => u < 16 ==> |acc| == 16 && Idx(i + u % 4, j + u / 4, p.lda) < |s.c|
      case Mul(i, j, k, q, acc) =>
        k < p.lda ==>
          && |acc| == 16 && q < 4 && Idx(i, k, p.lda) < |p.a| && Idx(i + 1, k, p.lda) < |p.a|
          && Idx(i + 2, k, p.lda) < |p.a| && Idx(i + 3, k, p.lda) < |p.a|
          && (if c + 1 == p.n then Idx(k, j + q, p.lda) in s.b1 else Idx(k, j + q, p.lda) < |p.b|)
      case Put(i, j, u, acc) => u < 16 ==> |acc| == 16 && Idx(i + u % 4, j + u / 4, p.lda) < |s.c|
      case _ => true
  }

  // ---------------------------------------------------------------- the invariant

  function Calls(pos: Pos): nat { if pos.Copy? then 0 else 1 }

  ghost predicate TileOk(p: Input, c: nat, i: nat, j: nat)
  {
    Lo(c, p.W()) <= i && i + 4 <= Hi(c, p.W()) && i % 4 == 0 && j + 4 <= p.lda && j % 4 == 0
  }

  ghost predicate InRange(p: Input, c: nat, pos: Pos)
  {
    match pos
    case Copy(i) => p.From(c) <= i <= p.To(c)
    case Head(i, j) => Lo(c, p.W()) <= i <= Hi(c, p.W()) && i % 4 == 0 && j <= p.lda && j % 4 == 0
    case Load(i, j, u, acc) => TileOk(p, c, i, j) && u <= 16 && |acc| == 16
    case Mul(i, j, k, q, acc) => TileOk(p, c, i, j) && k <= p.lda && q < 4 && (k == p.lda ==> q == 0) && |acc| == 16
    case Put(i, j, u, acc) => TileOk(p, c, i, j) && u <= 16 && |acc| == 16
    case Done => true
  }

  /** Every entry of B1 that exists is the entry of B. */
  ghost predicate Faithful(p: Input, b1: map<nat, int>)
  {
    forall x | x in b1 :: x < |p.b| && b1[x] == p.b[x]
  }

  ghost predicate CopiedBy(p: Input, c: nat, pos: Pos, b1: map<nat, int>)
  {
    forall x: nat | p.From(c) <= x < (if pos.Copy? then pos.i else p.To(c)) :: x in b1
  }

  /** Core c has already stored entry (row, col) of its part of C. */
  ghost predicate Stored(pos: Pos, row: nat, col: nat)
  {
    match pos
    case Copy(_) => false
    case Head(i, j) => row < i || (row < i + 4 && col < j)
    case Load(i, j, _, _) => row < i || (row < i + 4 && col < j)
    case Mul(i, j, _, _, _) => row < i || (row < i + 4 && col < j)
    case Put(i, j, u, _) =>
      row < i || (row < i + 4 && col < j) || (row < i + 4 && j <= col < j + 4 && 4 * (col - j) + (row - i) < u)
    case Done => true
  }

  ghost function Target(p: Input, row: nat, col: nat, k: nat): int
    requires p.Good() && row < p.lda && col < p.lda && k <= p.lda
  {
    Index(row, col, p.lda);
    p.c0[Idx(row, col, p.lda)] + Dot(p.a, p.b, p.lda, row, col, k)
  }

  ghost predicate CellOk(p: Input, pos: Pos, m: seq<int>, row: nat, col: nat)
    requires p.Good() && row < p.lda && col < p.lda && |m| == Area(p.lda)
  {
    Index(row, col, p.lda);
    m[Idx(row, col, p.lda)] == Target(p, row, col, if Stored(pos, row, col) then p.lda else 0)
  }

  ghost predicate StoredBy(p: Input, c: nat, pos: Pos, m: seq<int>)
    requires p.Good() && |m| == Area(p.lda)
  {
    forall row: nat, col: nat | Lo(c, p.W()) <= row < Hi(c, p.W()) && row < p.lda && col < p.lda ::
      CellOk(p, pos, m, row, col)
  }

  ghost predicate SumsOk(p: Input, c: nat, pos: Pos)
    requires p.Good()
  {
    match pos
    case Load(i, j, u, acc) =>
      i + 4 <= p.lda && j + 4 <= p.lda && |acc| == 16 &&
      forall v: nat | v < u && v < 16 :: acc[v] == Target(p, i + v % 4, j + v / 4, 0)
    case Mul(i, j, k, q, acc) =>
      i + 4 <= p.lda && j + 4 <= p.lda && |acc| == 16 && k <= p.lda && (q > 0 ==> k < p.lda) &&
      forall v: nat | v < 16 :: acc[v] == Target(p, i + v % 4, j + v / 4, if v / 4 < q then k + 1 else k)
    case Put(i, j, u, acc) =>
      i + 4 <= p.lda && j + 4 <= p.lda && |acc| == 16 &&
      forall v: nat | v < 16 :: acc[v] == Target(p, i + v % 4, j + v / 4, p.lda)
    case _ => true
  }

  ghost predicate CoreOk(p: Input, s: Sys, c: nat)
    requires p.Good() && c < |s.pos| == |s.bar.cores| && |s.c| == Area(p.lda)
  {
    var pos := s.pos[c];
    && InRange(p, c, pos)
    && s.bar.cores[c].entered == Calls(pos)
    && CopiedBy(p, c, pos, s.b1)
    && SumsOk(p, c, pos)
    && StoredBy(p, c, pos, s.c)
  }

  ghost predicate Inv(p: Input, s: Sys)
  {
    && p.Good() && p.n * p.W() == p.lda
    && B.Inv(s.bar) && |s.bar.cores| == |s.pos| == p.n && |s.c| == Area(p.lda)
    && Faithful(p, s.b1)
    && forall c | 0 <= c < p.n :: CoreOk(p, s, c)
  }

  lemma CoreFacts(p: Input, s: Sys, c: nat)
    requires Inv(p, s) && c < p.n
    ensures p.Good() && |s.pos| == |s.bar.cores| == p.n && |s.c| == Area(p.lda) && B.Inv(s.bar) && Faithful(p, s.b1)
    ensures var pos := s.pos[c];
      InRange(p, c, pos) && s.bar.cores[c].entered == Calls(pos) && CopiedBy(p, c, pos, s.b1)
      && SumsOk(p, c, pos) && StoredBy(p, c, pos, s.c)
    ensures p.n * p.W() == p.lda && Lo(c, p.W()) <= Hi(c, p.W()) <= p.lda
  {
    assert CoreOk(p, s, c);
    BlockInside(c, p.n, p.W(), p.lda);
  }

  // ---------------------------------------------------------------- one step keeps the invariant

  /** Core c moves on to pos; the shared arrays change only in ways the other cores do not see. */
  lemma Move(p: Input, s: Sys, c: nat, bar: B.State, pos: Pos, b1: map<nat, int>, m: seq<int>)
    requires Inv(p, s) && c < p.n && B.Inv(bar) && |bar.cores| == p.n && |m| == |s.c| && Faithful(p, b1)
    requires forall d | 0 <= d < p.n && d != c :: bar.cores[d].entered == s.bar.cores[d].entered
    requires InRange(p, c, pos) && bar.cores[c].entered == Calls(pos) && SumsOk(p, c, pos)
    requires CopiedBy(p, c, pos, b1) && StoredBy(p, c, pos, m)
    requires forall x | x in s.b1 :: x in b1
    requires forall d | 0 <= d < p.n && d != c :: StoredBy(p, d, s.pos[d], m)
    ensures Inv(p, Sys(bar, s.pos[c := pos], b1, m))
  {
    hide B.Inv, Dot, Lo, Hi, StoredBy, InRange, SumsOk, Calls, Idx, Area;
    var s' := Sys(bar, s.pos[c := pos], b1, m);
    forall d | 0 <= d < p.n ensures CoreOk(p, s', d) {
      assert CoreOk(p, s, d);
    }
  }

  /** Steps that only move core c's own place (and enter or advance the barrier). */
  lemma PlaceStep(p: Input, s: Sys, c: nat, bar: B.State, pos: Pos)
    requires Inv(p, s) && c < p.n && B.Inv(bar) && |bar.cores| == p.n
    requires forall d | 0 <= d < p.n && d != c :: bar.cores[d].entered == s.bar.cores[d].entered
    requires InRange(p, c, pos) && bar.cores[c].entered == Calls(pos) && SumsOk(p, c, pos)
    requires CopiedBy(p, c, pos, s.b1) && StoredBy(p, c, pos, s.c)
    ensures Inv(p, s.(bar := bar, pos := s.pos[c := pos]))
  {
    hide B.Inv, Dot, Lo, Hi, StoredBy, InRange, SumsOk, Calls, CopiedBy, Idx, Area, Faithful;
    forall d | 0 <= d < p.n && d != c
      ensures StoredBy(p, d, s.pos[d], s.c)
    {
      assert CoreOk(p, s, d);
    }
    Move(p, s, c, bar, pos, s.b1, s.c);
  }

  lemma BarrierStep(p: Input, s: Sys, c: nat)
    requires Inv(p, s) && c < p.n && |s.pos| == |s.bar.cores| == p.n && s.bar.cores[c].pc != B.Out
    ensures Inv(p, Step(p, s, c)) && AccessOk(p, s, c)
  {
    hide Inv, CoreOk, B.Inv, StoredBy, InRange, SumsOk, Calls, CopiedBy, Faithful;
    CoreFacts(p, s, c);
    B.StepInv(s.bar, c);
    PlaceStep(p, s, c, B.Step(s.bar, c), s.pos[c]);
    assert s.pos[c := s.pos[c]] == s.pos;
  }

  lemma PartBound(p: Input)
    requires p.Good()
    ensures p.Part() <= Area(p.lda) <= 1024 && (p.n == 1 ==> p.Part() == Area(p.lda))
  {
    MulMono(p.lda, 32, p.lda);
    PartOf(Area(p.lda), p.n);
  }

  lemma PartOf(area: nat, n: nat)
    requires n > 0
    ensures area / n <= area && area / 1 == area
  {
    assert area == n * (area / n) + area % n;
    MulMono(1, n, area / n);
  }

  lemma CopyStep(p: Input, s: Sys, c: nat)
    requires Inv(p, s) && c < p.n && |s.pos| == |s.bar.cores| == p.n && s.bar.cores[c].pc == B.Out && s.pos[c].Copy?
    ensures Inv(p, Step(p, s, c)) && AccessOk(p, s, c)
  {
    hide Inv, CoreOk, B.Inv, StoredBy, Area, Idx, Dot;
    CoreFacts(p, s, c);
    PartBound(p);
    Blocks(c, c, p.W());
    var i := s.pos[c].i;
    if i < p.To(c) {
      StoredStart(p, c, s.pos[c], Copy(i + 1), s.c);
      forall d | 0 <= d < p.n && d != c ensures StoredBy(p, d, s.pos[d], s.c) { CoreFacts(p, s, d); }
      Move(p, s, c, s.bar, Copy(i + 1), s.b1[i := p.b[i]], s.c);
    } else {
      B.StepInv(s.bar, c);
      StoredStart(p, c, s.pos[c], Head(p.W() * c, 0), s.c);
      RowsAligned(p, c);
      PlaceStep(p, s, c, B.Step(s.bar, c), Head(p.W() * c, 0));
    }
  }

  lemma StoredStart(p: Input, c: nat, pos: Pos, pos': Pos, m: seq<int>)
    requires p.Good() && |m| == Area(p.lda) && pos.Copy? && StoredBy(p, c, pos, m)
    requires pos'.Copy? || pos' == Head(p.W() * c, 0)
    ensures StoredBy(p, c, pos', m)
  {
    hide Area, Idx, Target;
    assert Lo(c, p.W()) == p.W() * c;
    forall row: nat, col: nat | Lo(c, p.W()) <= row < Hi(c, p.W()) && row < p.lda && col < p.lda
      ensures CellOk(p, pos', m, row, col)
    {
      assert CellOk(p, pos, m, row, col);
      assert !Stored(pos', row, col);
    }
  }

  /** A core's rows start and end on multiples of four, and its loop bound is their end. */
  lemma RowsAligned(p: Input, c: nat)
    requires p.Good() && c < p.n && p.n * p.W() == p.lda
    ensures Lo(c, p.W()) == p.W() * c && Lo(c, p.W()) % 4 == 0 && Hi(c, p.W()) % 4 == 0 && p.lda % 4 == 0
    ensures p.Limit(c) == Hi(c, p.W())
  {
    var w := p.W();
    var v := w / 4;
    assert w == 4 * v;
    assert c * w == 4 * (c * v);
    assert (c + 1) * w == 4 * ((c + 1) * v);
    assert p.n * w == 4 * (p.n * v);
    assert w * c + w == (c + 1) * w;
  }

  lemma HeadStep(p: Input, s: Sys, c: nat)
    requires Inv(p, s) && c < p.n && |s.pos| == |s.bar.cores| == p.n && s.bar.cores[c].pc == B.Out && s.pos[c].Head?
    ensures Inv(p, Step(p, s, c)) && AccessOk(p, s, c)
  {
    hide Inv, CoreOk, B.Inv, Area, Idx, Dot, StoredBy, Lo, Hi, SumsOk, InRange, Stored, Input.Limit, CopiedBy, Faithful;
    CoreFacts(p, s, c);
    RowsAligned(p, c);
    var i, j := s.pos[c].i, s.pos[c].j;
    assert p.lda / 4 * 4 == p.lda;
    var pos' := if i >= p.Limit(c) then Done else if j < p.lda then Load(i, j, 0, Zeros()) else Head(i + 4, 0);
    HeadNext(p, c, s.pos[c], pos');
    StoredMore(p, c, s.pos[c], pos', s.c);
    CopiedOn(p, c, s.pos[c], pos', s.b1);
    PlaceStep(p, s, c, s.bar, pos');
  }

  lemma HeadNext(p: Input, c: nat, pos: Pos, pos': Pos)
    requires p.Good() && pos.Head? && InRange(p, c, pos) && p.lda % 4 == 0 && Hi(c, p.W()) % 4 == 0
    requires Hi(c, p.W()) <= p.lda
    requires pos' ==
      if pos.i >= Hi(c, p.W()) then Done
      else if pos.j < p.lda then Load(pos.i, pos.j, 0, Zeros())
      else Head(pos.i + 4, 0)
    ensures InRange(p, c, pos') && SumsOk(p, c, pos')
    ensures
      forall row: nat, col: nat | Lo(c, p.W()) <= row < Hi(c, p.W()) && row < p.lda && col < p.lda ::
        Stored(pos', row, col) == Stored(pos, row, col)
  {
    hide Lo, Hi, Dot, Area, Idx;
    if pos.i < Hi(c, p.W()) { StepsOfFour(pos.i, Hi(c, p.W())); }
    if pos.j < p.lda { StepsOfFour(pos.j, p.lda); }
  }

  lemma StepsOfFour(i: nat, n: nat)
    requires i < n && i % 4 == 0 && n % 4 == 0
    ensures i + 4 <= n
  {
  }

  lemma CopiedOn(p: Input, c: nat, pos: Pos, pos': Pos, b1: map<nat, int>)
    requires CopiedBy(p, c, pos, b1) && pos.Copy? == pos'.Copy? && (pos.Copy? ==> pos'.i <= pos.i)
    ensures CopiedBy(p, c, pos', b1)
  {
  }

  /** Places that stand for the same set of stored entries of the core's own rows. */
  lemma StoredMore(p: Input, c: nat, pos: Pos, pos': Pos, m: seq<int>)
    requires p.Good() && |m| == Area(p.lda) && StoredBy(p, c, pos, m)
    requires forall row: nat, col: nat | Lo(c, p.W()) <= row < Hi(c, p.W()) && row < p.lda && col < p.lda ::
      Stored(pos', row, col) == Stored(pos, row, col)
    ensures StoredBy(p, c, pos', m)
  {
    hide Area, Idx, Target, Lo, Hi;
    forall row: nat, col: nat | Lo(c, p.W()) <= row < Hi(c, p.W()) && row < p.lda && col < p.lda
      ensures CellOk(p, pos', m, row, col)
    {
      assert CellOk(p, pos, m, row, col);
      assert Stored(pos', row, col) == Stored(pos, row, col);
    }
  }

  lemma LoadStep(p: Input, s: Sys, c: nat)
    requires Inv(p, s) && c < p.n && |s.pos| == |s.bar.cores| == p.n && s.bar.cores[c].pc == B.Out && s.pos[c].Load?
    ensures Inv(p, Step(p, s, c)) && AccessOk(p, s, c)
  {
    hide Inv, CoreOk, B.Inv, Area, Idx, Dot, StoredBy, Lo, Hi, Target;
    CoreFacts(p, s, c);
    var i, j, u, acc := s.pos[c].i, s.pos[c].j, s.pos[c].u, s.pos[c].acc;
    if u < 16 {
      var row, col := i + u % 4, j + u / 4;
      Index(row, col, p.lda);
      var pos' := Load(i, j, u + 1, acc[u := s.c[Idx(row, col, p.lda)]]);
      CellAt(p, c, s.pos[c], s.c, row, col);
      StoredMore(p, c, s.pos[c], pos', s.c);
      PlaceStep(p, s, c, s.bar, pos');
    } else {
      StoredMore(p, c, s.pos[c], Mul(i, j, 0, 0, acc), s.c);
      PlaceStep(p, s, c, s.bar, Mul(i, j, 0, 0, acc));
    }
  }

  lemma CellAt(p: Input, c: nat, pos: Pos, m: seq<int>, row: nat, col: nat)
    requires p.Good() && |m| == Area(p.lda) && StoredBy(p, c, pos, m) && row < p.lda && col < p.lda
    requires Lo(c, p.W()) <= row < Hi(c, p.W())
    ensures Idx(row, col, p.lda) < |m|
    ensures m[Idx(row, col, p.lda)] == Target(p, row, col, if Stored(pos, row, col) then p.lda else 0)
  {
    hide Area, Idx, Target, Lo, Hi;
    assert CellOk(p, pos, m, row, col);
    Index(row, col, p.lda);
  }

  /** After the barrier the last core finds every entry of B1 written. */
  lemma AllCopied(p: Input, s: Sys, c: nat, x: nat)
    requires Inv(p, s) && c < p.n && |s.pos| == |s.bar.cores| == p.n && s.bar.cores[c].pc == B.Out && !s.pos[c].Copy?
    requires x < Area(p.lda)
    ensures x in s.b1 && x < |p.b| && s.b1[x] == p.b[x]
  {
    hide Inv, CoreOk, B.Inv, Area, StoredBy, SumsOk;
    CoreFacts(p, s, c);
    B.InvMeans(s.bar);
    PartBound(p);
    var d := if x < p.Part() then p.n - 1 else 0;
    CoreFacts(p, s, d);
    assert B.CoreInv(s.bar.cores[c], s.bar.round) by { assert B.Inv(s.bar); CoreOut(s.bar, c); }
    assert s.bar.cores[d].entered >= s.bar.cores[c].left;
  }

  lemma CoreOut(bar: B.State, c: nat)
    requires B.Inv(bar) && c < |bar.cores|
    ensures B.CoreInv(bar.cores[c], bar.round)
  {
  }

  lemma DotNext(p: Input, row: nat, col: nat, k: nat)
    requires p.Good() && row < p.lda && col < p.lda && k < p.lda
    ensures Idx(row, k, p.lda) < |p.a| && Idx(k, col, p.lda) < |p.b|
    ensures Target(p, row, col, k + 1) ==
      Target(p, row, col, k) + p.a[Idx(row, k, p.lda)] * p.b[Idx(k, col, p.lda)]
  {
    hide Idx, Area;
    Index(row, k, p.lda);
    Index(k, col, p.lda);
    Index(row, col, p.lda);
  }

  lemma MulStep(p: Input, s: Sys, c: nat)
    requires Inv(p, s) && c < p.n && |s.pos| == |s.bar.cores| == p.n && s.bar.cores[c].pc == B.Out && s.pos[c].Mul?
    ensures Inv(p, Step(p, s, c)) && AccessOk(p, s, c)
  {
    hide Inv, CoreOk, B.Inv, Area, Idx, Dot, StoredBy, Lo, Hi, Target, AddColumn, CopiedBy, Faithful, SumsOk, Stored;
    CoreFacts(p, s, c);
    var i, j, k, q, acc := s.pos[c].i, s.pos[c].j, s.pos[c].k, s.pos[c].q, s.pos[c].acc;
    if k < p.lda {
      Index(k, j + q, p.lda);
      AllCopied(p, s, c, Idx(k, j + q, p.lda));
      RowsInBounds(p, i, k);
      SumsNext(p, c, s.pos[c]);
      var acc' := AddColumn(p, acc, i, k, q, p.b[Idx(k, j + q, p.lda)]);
      var pos' := if q == 3 then Mul(i, j, k + 1, 0, acc') else Mul(i, j, k, q + 1, acc');
      SameStored(s.pos[c], pos');
      StoredMore(p, c, s.pos[c], pos', s.c);
      CopiedOn(p, c, s.pos[c], pos', s.b1);
      PlaceStep(p, s, c, s.bar, pos');
    } else {
      SumsDone(p, c, s.pos[c]);
      SameStored(s.pos[c], Put(i, j, 0, acc));
      StoredMore(p, c, s.pos[c], Put(i, j, 0, acc), s.c);
      CopiedOn(p, c, s.pos[c], Put(i, j, 0, acc), s.b1);
      PlaceStep(p, s, c, s.bar, Put(i, j, 0, acc));
    }
  }

  lemma RowsInBounds(p: Input, i: nat, k: nat)
    requires p.Good() && i + 4 <= p.lda && k < p.lda
    ensures Idx(i, k, p.lda) < |p.a| && Idx(i + 1, k, p.lda) < |p.a| && Idx(i + 2, k, p.lda) < |p.a|
    ensures Idx(i + 3, k, p.lda) < |p.a|
  {
    hide Idx, Area;
    Index(i, k, p.lda);
    Index(i + 1, k, p.lda);
    Index(i + 2, k, p.lda);
    Index(i + 3, k, p.lda);
  }

  lemma SameStored(pos: Pos, pos': Pos)
    requires pos.Mul? && ((pos'.Mul? && pos'.i == pos.i && pos'.j == pos.j) || pos' == Put(pos.i, pos.j, 0, pos.acc))
    ensures forall row: nat, col: nat :: Stored(pos', row, col) == Stored(pos, row, col)
  {
  }

  lemma SumsDone(p: Input, c: nat, pos: Pos)
    requires p.Good() && pos.Mul? && pos.k == p.lda && pos.q == 0 && SumsOk(p, c, pos)
    ensures SumsOk(p, c, Put(pos.i, pos.j, 0, pos.acc))
  {
    hide Target;
  }

  /** One read of tempB and its four updates take one tile column one product further. */
  lemma SumsNext(p: Input, c: nat, pos: Pos)
    requires p.Good() && pos.Mul? && pos.k < p.lda && pos.q < 4 && SumsOk(p, c, pos)
    requires Idx(pos.k, pos.j + pos.q, p.lda) < |p.b|
    ensures var acc' := AddColumn(p, pos.acc, pos.i, pos.k, pos.q, p.b[Idx(pos.k, pos.j + pos.q, p.lda)]);
      SumsOk(p, c, if pos.q == 3 then Mul(pos.i, pos.j, pos.k + 1, 0, acc')
                   else Mul(pos.i, pos.j, pos.k, pos.q + 1, acc'))
  {
    hide Dot, Idx, Area, Target, AddColumn;
    var q, k, acc := pos.q, pos.k, pos.acc;
    var acc' := AddColumn(p, acc, pos.i, k, q, p.b[Idx(k, pos.j + q, p.lda)]);
    forall v: nat | v < 16
      ensures acc'[v] == Target(p, pos.i + v % 4, pos.j + v / 4, if v / 4 <= q then k + 1 else k)
    {
      SumNext(p, c, pos, v);
    }
  }

  lemma SumNext(p: Input, c: nat, pos: Pos, v: nat)
    requires p.Good() && pos.Mul? && pos.k < p.lda && pos.q < 4 && SumsOk(p, c, pos) && v < 16
    requires Idx(pos.k, pos.j + pos.q, p.lda) < |p.b|
    ensures AddColumn(p, pos.acc, pos.i, pos.k, pos.q, p.b[Idx(pos.k, pos.j + pos.q, p.lda)])[v] ==
      Target(p, pos.i + v % 4, pos.j + v / 4, if v / 4 <= pos.q then pos.k + 1 else pos.k)
  {
    hide Dot, Idx, Area, Target, AddColumn;
    var b := p.b[Idx(pos.k, pos.j + pos.q, p.lda)];
    if v / 4 == pos.q {
      DotNext(p, pos.i + v % 4, pos.j + pos.q, pos.k);
      ColumnAdded(p, pos.acc, pos.i, pos.k, pos.q, b, v);
    } else {
      ColumnKept(p, pos.acc, pos.i, pos.k, pos.q, b, v);
    }
  }

  lemma ColumnAdded(p: Input, acc: seq<int>, i: nat, k: nat, q: nat, b: int, v: nat)
    requires |acc| == 16 && q < 4 && v / 4 == q && Idx(i + v % 4, k, p.lda) < |p.a|
    ensures AddColumn(p, acc, i, k, q, b)[v] == acc[v] + p.a[Idx(i + v % 4, k, p.lda)] * b
  {
    hide Idx;
    assert v == 4 * q + v % 4;
  }

  lemma ColumnKept(p: Input, acc: seq<int>, i: nat, k: nat, q: nat, b: int, v: nat)
    requires |acc| == 16 && q < 4 && v / 4 != q && v < 16
    ensures AddColumn(p, acc, i, k, q, b)[v] == acc[v]
  {
    hide Idx;
  }

  lemma PutStep(p: Input, s: Sys, c: nat)
    requires Inv(p, s) && c < p.n && |s.pos| == |s.bar.cores| == p.n && s.bar.cores[c].pc == B.Out && s.pos[c].Put?
    ensures Inv(p, Step(p, s, c)) && AccessOk(p, s, c)
  {
    hide Inv, CoreOk, B.Inv, Area, Idx, Dot, StoredBy, Lo, Hi, Target, CopiedBy, Faithful, SumsOk, Stored;
    CoreFacts(p, s, c);
    var i, j, u, acc := s.pos[c].i, s.pos[c].j, s.pos[c].u, s.pos[c].acc;
    if u < 16 {
      var row, col := i + u % 4, j + u / 4;
      Index(row, col, p.lda);
      var m := s.c[Idx(row, col, p.lda) := acc[u]];
      PutElsewhere(p, s, c, row, col, acc[u]);
      StoredNext(p, c, s.pos[c], s.c);
      CopiedOn(p, c, s.pos[c], Put(i, j, u + 1, acc), s.b1);
      SumsKept(p, c, s.pos[c]);
      Move(p, s, c, s.bar, Put(i, j, u + 1, acc), s.b1, m);
    } else {
      TileDone(p, c, s.pos[c]);
      StoredMore(p, c, s.pos[c], Head(i, j + 4), s.c);
      CopiedOn(p, c, s.pos[c], Head(i, j + 4), s.b1);
      PlaceStep(p, s, c, s.bar, Head(i, j + 4));
    }
  }

  lemma SumsKept(p: Input, c: nat, pos: Pos)
    requires p.Good() && pos.Put? && SumsOk(p, c, pos)
    ensures SumsOk(p, c, Put(pos.i, pos.j, pos.u + 1, pos.acc))
  {
    hide Target;
  }

  lemma TileDone(p: Input, c: nat, pos: Pos)
    requires p.Good() && pos.Put? && pos.u == 16 && InRange(p, c, pos)
    ensures InRange(p, c, Head(pos.i, pos.j + 4)) && SumsOk(p, c, Head(pos.i, pos.j + 4))
    ensures forall row: nat, col: nat :: Stored(Head(pos.i, pos.j + 4), row, col) == Stored(pos, row, col)
  {
    hide Lo, Hi;
  }

  lemma PutElsewhere(p: Input, s: Sys, c: nat, row: nat, col: nat, v: int)
    requires Inv(p, s) && c < p.n && |s.pos| == |s.bar.cores| == p.n && |s.c| == Area(p.lda) && p.Good()
    requires Lo(c, p.W()) <= row < Hi(c, p.W()) && row < p.lda && col < p.lda
    ensures Idx(row, col, p.lda) < |s.c|
    ensures forall d | 0 <= d < p.n && d != c :: StoredBy(p, d, s.pos[d], s.c[Idx(row, col, p.lda) := v])
  {
    hide Inv, Area, Idx, Dot, StoredBy, Lo, Hi, InRange, SumsOk, CopiedBy, Faithful;
    Index(row, col, p.lda);
    forall d | 0 <= d < p.n && d != c
      ensures StoredBy(p, d, s.pos[d], s.c[Idx(row, col, p.lda) := v])
    {
      CoreFacts(p, s, d);
      OtherBlock(c, d, p.W(), row);
      FrameC(p, d, s.pos[d], s.c, row, col, v);
    }
  }

  lemma OtherBlock(c: nat, d: nat, w: nat, i: nat)
    requires c != d && Lo(c, w) <= i < Hi(c, w)
    ensures !(Lo(d, w) <= i < Hi(d, w))
  {
    Blocks(c, d, w);
    Blocks(d, c, w);
  }

  lemma FrameC(p: Input, d: nat, pos: Pos, m: seq<int>, row: nat, col: nat, v: int)
    requires p.Good() && row < p.lda && col < p.lda && |m| == Area(p.lda) && StoredBy(p, d, pos, m)
    requires !(Lo(d, p.W()) <= row < Hi(d, p.W()))
    ensures Idx(row, col, p.lda) < |m| && StoredBy(p, d, pos, m[Idx(row, col, p.lda) := v])
  {
    hide Lo, Hi, Dot, Idx, Area, Target;
    Index(row, col, p.lda);
    var m' := m[Idx(row, col, p.lda) := v];
    forall r: nat, c: nat | Lo(d, p.W()) <= r < Hi(d, p.W()) && r < p.lda && c < p.lda
      ensures CellOk(p, pos, m', r, c)
    {
      assert CellOk(p, pos, m, r, c);
      Index(r, c, p.lda);
      if Idx(row, col, p.lda) == Idx(r, c, p.lda) { IndexUnique(row, col, r, c, p.lda); }
    }
  }

  lemma StoredNext(p: Input, c: nat, pos: Pos, m: seq<int>)
    requires p.Good() && |m| == Area(p.lda) && pos.Put? && pos.u < 16 && SumsOk(p, c, pos) && StoredBy(p, c, pos, m)
    ensures var x := Idx(pos.i + pos.u % 4, pos.j + pos.u / 4, p.lda);
      x < |m| && StoredBy(p, c, Put(pos.i, pos.j, pos.u + 1, pos.acc), m[x := pos.acc[pos.u]])
  {
    hide Dot, Idx, Area, Lo, Hi, Target;
    var i, j, u := pos.i, pos.j, pos.u;
    var row, col := i + u % 4, j + u / 4;
    Index(row, col, p.lda);
    var m' := m[Idx(row, col, p.lda) := pos.acc[u]];
    var pos' := Put(i, j, u + 1, pos.acc);
    forall r: nat, d: nat | Lo(c, p.W()) <= r < Hi(c, p.W()) && r < p.lda && d < p.lda
      ensures CellOk(p, pos', m', r, d)
    {
      assert CellOk(p, pos, m, r, d);
      Index(r, d, p.lda);
      if Idx(row, col, p.lda) == Idx(r, d, p.lda) {
        IndexUnique(row, col, r, d, p.lda);
      } else {
        assert Stored(pos', r, d) == Stored(pos, r, d);
      }
    }
  }

  /** Every step of every core keeps the invariant and makes only legal accesses. */
  lemma StepInv(p: Input, s: Sys, c: nat)
    requires Inv(p, s) && c < p.n && |s.pos| == |s.bar.cores| == p.n
    ensures Inv(p, Step(p, s, c)) && AccessOk(p, s, c)
  {
    hide Inv;
    if s.bar.cores[c].pc != B.Out {
      BarrierStep(p, s, c);
    } else {
      match s.pos[c]
      case Copy(_) => CopyStep(p, s, c);
      case Head(_, _) => HeadStep(p, s, c);
      case Load(_, _, _, _) => LoadStep(p, s, c);
      case Mul(_, _, _, _, _) => MulStep(p, s, c);
      case Put(_, _, _, _) => PutStep(p, s, c);
      case Done =>
    }
  }

  // ---------------------------------------------------------------- whole runs

  ghost predicate IsRun(p: Input, run: seq<Sys>, who: seq<nat>)
  {
    && p.Good() && |run| == |who| + 1 && run[0] == Start(p)
    && forall t | 0 <= t < |who| ::
         who[t] < |run[t].pos| == |run[t].bar.cores| && run[t + 1] == Step(p, run[t], who[t])
  }

  lemma StartInv(p: Input)
    requires p.Good()
    ensures Inv(p, Start(p))
  {
    hide B.Inv, Idx, Area;
    B.StartInv(p.n);
    PartBound(p);
    var s := Start(p);
    assert p.n * p.W() == p.lda;
    forall c | 0 <= c < p.n ensures CoreOk(p, s, c) {
      forall row: nat, col: nat | row < p.lda && col < p.lda
        ensures CellOk(p, s.pos[c], s.c, row, col)
      {
        Index(row, col, p.lda);
      }
    }
  }

  lemma {:induction false} RunInv(p: Input, run: seq<Sys>, who: seq<nat>, t: nat)
    requires IsRun(p, run, who) && t <= |who|
    ensures Inv(p, run[t]) && |run[t].pos| == |run[t].bar.cores| == p.n && |run[t].c| == Area(p.lda)
  {
    hide Inv, Step, Start;
    if t == 0 {
      StartInv(p);
    } else {
      RunInv(p, run, who, t - 1);
      StepInv(p, run[t - 1], who[t - 1]);
    }
    InvSizes(p, run[t]);
  }

  lemma InvSizes(p: Input, s: Sys)
    requires Inv(p, s)
    ensures |s.pos| == |s.bar.cores| == p.n && |s.c| == Area(p.lda)
  {
  }

  /** Under every interleaving the last core reads no entry of B1 before it is written, and every
      access is in bounds. */
  lemma NoEarlyRead(p: Input, run: seq<Sys>, who: seq<nat>, t: nat, c: nat)
    requires IsRun(p, run, who) && t <= |who| && c < p.n
    ensures |run[t].pos| == |run[t].bar.cores| == p.n && AccessOk(p, run[t], c)
  {
    hide Step, AccessOk, Inv;
    RunInv(p, run, who, t);
    StepInv(p, run[t], c);
  }

  /** Under every interleaving, when all cores are done, the product has been added to C. */
  lemma Product(p: Input, run: seq<Sys>, who: seq<nat>, t: nat, row: nat, col: nat)
    requires IsRun(p, run, who) && t <= |who| && row < p.lda && col < p.lda
    requires forall c | 0 <= c < |run[t].pos| :: run[t].pos[c].Done?
    ensures Idx(row, col, p.lda) < |run[t].c| == |p.c0|
    ensures run[t].c[Idx(row, col, p.lda)] ==
      p.c0[Idx(row, col, p.lda)] + Dot(p.a, p.b, p.lda, row, col, p.lda)
  {
    hide Step, B.Inv, Idx, Area, Dot, Lo, Hi, Inv;
    RunInv(p, run, who, t);
    Index(row, col, p.lda);
    CoreFacts(p, run[t], 0);
    var c := Owner(row, p.n, p.W(), p.lda);
    CoreFacts(p, run[t], c);
    CellAt(p, c, run[t].pos[c], run[t].c, row, col);
  }

  /** No deadlock: until all cores are done, some core has a step that changes the state. */
  lemma NeverStuck(p: Input, s: Sys) returns (c: nat)
    requires Inv(p, s) && exists x :: 0 <= x < |s.pos| && !s.pos[x].Done?
    ensures c < p.n && Step(p, s, c) != s
  {
    hide Idx, Area, Dot, CopiedBy, StoredBy, SumsOk, CoreOk;
    var y := B.NeverStuck(s.bar);
    c := y;
    if s.bar.cores[y].pc == B.Out && s.pos[y].Done? {
      c :| 0 <= c < p.n && !s.pos[c].Done?;
      DoneIsLast(p, s, c, y);
      B.StepProgress(s.bar, c);
    }
    if s.bar.cores[c].pc == B.Out { MovesOn(p, s, c); }
  }

  lemma MovesOn(p: Input, s: Sys, c: nat)
    requires c < |s.pos| == |s.bar.cores| && s.bar.cores[c].pc == B.Out && !s.pos[c].Done?
    ensures Step(p, s, c) != s
  {
    hide Idx;
    var s' := Step(p, s, c);
    assert s'.pos[c] != s.pos[c];
  }

  /** Nobody waits in a round that a finished core will never enter. */
  lemma DoneIsLast(p: Input, s: Sys, x: nat, y: nat)
    requires Inv(p, s) && x < p.n && y < p.n && s.pos[y].Done? && s.bar.cores[y].pc == B.Out
    ensures !B.Idle(s.bar, x)
  {
    hide Idx, Area, Dot, CopiedBy, StoredBy, SumsOk;
    assert CoreOk(p, s, x) && CoreOk(p, s, y);
    assert B.CoreInv(s.bar.cores[x], s.bar.round) && B.CoreInv(s.bar.cores[y], s.bar.round);
  }

  // ---------------------------------------------------------------- the program comes to an end

  /** A bound on what core c has before it at pos; every loop's weight covers a whole run of the loop inside. */
  ghost function Left(p: Input, c: nat, pos: Pos): int
  {
    var hi, lda := Hi(c, p.W()), p.lda;
    match pos
    case Copy(i) => 100000 + (p.To(c) - i)
    case Head(i, j) => 1 + 2600 * (hi - i) + 320 * (lda - j)
    case Load(i, j, u, _) => 2600 * (hi - i) + 320 * (lda - j - 1) + 302 + (16 - u)
    case Mul(i, j, k, q, _) => 2600 * (hi - i) + 320 * (lda - j - 1) + 100 + 5 * (lda - k) + (4 - q)
    case Put(i, j, u, _) => 2600 * (hi - i) + 320 * (lda - j - 1) + 2 + (16 - u)
    case Done => 0
  }

  const LONGEST: nat := 102000

  lemma LeftBounds(p: Input, s: Sys, c: nat)
    requires Inv(p, s) && c < p.n && |s.pos| == p.n
    ensures 0 <= Left(p, c, s.pos[c]) <= LONGEST
  {
    hide Inv, CoreOk, B.Inv, Idx, Area, Dot, Lo, Hi, CopiedBy, StoredBy, SumsOk, Faithful, CellOk, Calls;
    CoreFacts(p, s, c);
    PartBound(p);
  }

  ghost function Weights(p: Input, s: Sys): (r: seq<int>)
    requires |s.pos| == |s.bar.cores|
    ensures |r| == |s.pos|
  {
    seq(|s.pos|, (c: nat) requires c < |s.pos| => 6 * Left(p, c, s.pos[c]) + B.Ahead(s.bar.cores[c].pc))
  }

  /** Outside the barrier every step brings the core strictly closer to its end. */
  lemma LeftFalls(p: Input, s: Sys, c: nat)
    requires Inv(p, s) && c < p.n && |s.pos| == |s.bar.cores| == p.n && s.bar.cores[c].pc == B.Out && !s.pos[c].Done?
    ensures |Step(p, s, c).pos| == |s.pos| && Left(p, c, Step(p, s, c).pos[c]) < Left(p, c, s.pos[c])
    ensures |Step(p, s, c).bar.cores| == |s.bar.cores| && B.Ahead(Step(p, s, c).bar.cores[c].pc) <= 4
  {
    hide Inv, CoreOk, B.Inv, Idx, Area, Dot, Lo, Hi, CopiedBy, StoredBy, SumsOk, Faithful, CellOk, Calls;
    CoreFacts(p, s, c);
    PartBound(p);
  }

  /** A step of core c leaves the other cores where they are. */
  lemma OnlyMine(p: Input, s: Sys, c: nat, d: nat)
    requires c < |s.pos| == |s.bar.cores| && d < |s.pos| && d != c
    ensures var s' := Step(p, s, c);
      |s'.pos| == |s'.bar.cores| == |s.pos| && s'.pos[d] == s.pos[d] && s'.bar.cores[d] == s.bar.cores[d]
  {
    hide Idx, B.Step;
    B.OthersStay(s.bar, c, d);
  }

  /** Every step that changes the state lowers the total. */
  lemma StepLowers(p: Input, s: Sys, c: nat)
    requires Inv(p, s) && c < p.n && |s.pos| == |s.bar.cores| == p.n && Step(p, s, c) != s
    ensures var s' := Step(p, s, c);
      |s'.pos| == |s'.bar.cores| == p.n && B.Total(Weights(p, s')) < B.Total(Weights(p, s))
  {
    hide Inv, Step, Left, B.Ahead;
    StepInv(p, s, c);
    var s' := Step(p, s, c);
    InvSizes(p, s');
    forall d: nat | d < p.n && d != c ensures Weights(p, s')[d] == Weights(p, s)[d] { OnlyMine(p, s, c, d); }
    MineFalls(p, s, c);
    B.TotalFalls(Weights(p, s), Weights(p, s'), c);
  }

  lemma MineFalls(p: Input, s: Sys, c: nat)
    requires Inv(p, s) && c < p.n && |s.pos| == |s.bar.cores| == p.n && Step(p, s, c) != s
    ensures var s' := Step(p, s, c);
      |s'.pos| == |s'.bar.cores| == p.n &&
      6 * Left(p, c, s'.pos[c]) + B.Ahead(s'.bar.cores[c].pc) < 6 * Left(p, c, s.pos[c]) + B.Ahead(s.bar.cores[c].pc)
  {
    hide Inv, Left, Idx, B.Step;
    if s.bar.cores[c].pc == B.Out {
      hide Step;
      DoneStays(p, s, c);
      LeftFalls(p, s, c);
    } else {
      B.AheadFalls(s.bar, c);
    }
  }

  lemma DoneStays(p: Input, s: Sys, c: nat)
    requires c < |s.pos| == |s.bar.cores| && s.bar.cores[c].pc == B.Out
    ensures s.pos[c].Done? ==> Step(p, s, c) == s
  {
    hide Idx;
  }

  lemma WeightBounds(p: Input, s: Sys)
    requires Inv(p, s)
    ensures |s.pos| == |s.bar.cores| == p.n && 0 <= B.Total(Weights(p, s)) <= (6 * LONGEST + 4) * p.n
  {
    hide Inv, Left;
    InvSizes(p, s);
    var ws := Weights(p, s);
    forall x | x in ws ensures 0 <= x <= 6 * LONGEST + 4 {
      var c :| 0 <= c < |ws| && ws[c] == x;
      LeftBounds(p, s, c);
    }
    B.TotalBounds(ws, 6 * LONGEST + 4);
  }

  lemma {:induction false} MovesLower(p: Input, run: seq<Sys>, who: seq<nat>, t: nat)
    requires IsRun(p, run, who) && t <= |who|
    ensures |run[0].pos| == |run[0].bar.cores| && |run[t].pos| == |run[t].bar.cores| == p.n
    ensures B.Moves(run, t) + B.Total(Weights(p, run[t])) <= B.Total(Weights(p, run[0]))
  {
    hide Inv, Step, Weights;
    RunInv(p, run, who, t);
    InvSizes(p, run[t]);
    if t > 0 {
      MovesLower(p, run, who, t - 1);
      RunInv(p, run, who, t - 1);
      if run[t] != run[t - 1] { StepLowers(p, run[t - 1], who[t - 1]); }
    }
  }

  /** Under every interleaving, however long, a bounded number of steps changes the state. */
  lemma MovesBounded(p: Input, run: seq<Sys>, who: seq<nat>)
    requires IsRun(p, run, who)
    ensures B.Moves(run, |who|) <= (6 * LONGEST + 4) * p.n
  {
    hide Inv, Step, Weights;
    MovesLower(p, run, who, |who|);
    RunInv(p, run, who, 0);
    RunInv(p, run, who, |who|);
    WeightBounds(p, run[0]);
    WeightBounds(p, run[|who|]);
  }

  ghost predicate AllDone(s: Sys) { forall c | 0 <= c < |s.pos| :: s.pos[c].Done? }

  /** And every run can be continued, without idle steps, until all cores are done. */
  lemma {:induction false} CanFinish(p: Input, run: seq<Sys>, who: seq<nat>) returns (run': seq<Sys>, who': seq<nat>)
    requires IsRun(p, run, who)
    ensures IsRun(p, run', who') && run <= run' && AllDone(run'[|who'|])
    ensures forall t | |who| <= t < |who'| :: run'[t + 1] != run'[t]
    decreases (6 * LONGEST + 4) * p.n - B.Moves(run, |who|)
  {
    hide Inv, Step;
    MovesBounded(p, run, who);
    var s := run[|who|];
    RunInv(p, run, who, |who|);
    InvSizes(p, s);
    if AllDone(s) {
      run', who' := run, who;
    } else {
      var c := NeverStuck(p, s);
      var run1, who1 := run + [Step(p, s, c)], who + [c];
      Extended(p, run, who, c);
      B.MovesSame(run, run1, |who|);
      run', who' := CanFinish(p, run1, who1);
    }
  }

  lemma Extended(p: Input, run: seq<Sys>, who: seq<nat>, c: nat)
    requires IsRun(p, run, who) && c < p.n && |run[|who|].pos| == |run[|who|].bar.cores| == p.n
    ensures IsRun(p, run + [Step(p, run[|who|], c)], who + [c])
  {
    hide Step;
  }
}
