/** multicore.c: the spinlock protocol. */
module SpinLock {
  // Harts take a swap-based spinlock, check that the shared buffer is one cyclic alphabet, waiting
  // inside the critical section while a character looks wrong, and overwrite it. One shared access
  // per step, any interleaving, sequentially consistent.

  const SIZE: nat := 32                    // sizeof (buf)
  const WRAP: nat := 0x1_0000_0000         // unsigned arithmetic is modulo this
  const UPPER: int := 65                   // 'A'
  const LOWER: int := 97                   // 'a'

  datatype Pc =
    | Try                                  // while (atomic_xchg(lock, 1) == 1)
    | Check                                // if (!buf_initialized)
    | Init(i: nat)                         // buf[i] = 'A' + (i % 26)
    | First                                // first = buf[0]
    | Scan(i: nat, first: int)             // while (buf[i] != ...)
    | Write(i: nat, first: int)            // buf[i] = ...
    | Unlock                               // put_lock
    | Count                                // hart_count[hartid]++

  datatype Hart = Hart(pc: Pc, count: nat)
  datatype State = State(locked: bool, initialized: bool, buf: seq<int>, harts: seq<Hart>)

  function Start(n: nat, buf: seq<int>): State
  {
    State(false, false, buf, seq(n, _ => Hart(Try, 0)))
  }

  /** first & ~0x20, for characters. */
  function ClearCase(c: int): int { if c / 32 % 2 == 1 then c - 32 else c }

  /** The character the scan expects at i, given buf[0]; offset + i is unsigned arithmetic. */
  function Expected(first: int, i: nat): int
  {
    var offset := ClearCase(first) - UPPER;
    first - offset + (offset + i) % WRAP % 26
  }

  function Base(hart: nat): int { if hart % 2 == 1 then UPPER else LOWER }

  /** The character hart writes at i in its count-th pass. */
  function Written(hart: nat, count: nat, i: nat): int
  {
    Base(hart) + (i + hart + count) % WRAP % 26
  }

  function Set(s: seq<int>, i: nat, v: int): seq<int> { if i < |s| then s[i := v] else s }

  function Step(s: State, h: nat): State
    requires h < |s.harts|
  {
    var k := s.harts[h];
    match k.pc
    case Try =>
      if s.locked then s
      else s.(locked := true, harts := s.harts[h := k.(pc := Check)])
    case Check =>
      s.(harts := s.harts[h := k.(pc := if s.initialized then First else Init(0))])
    case Init(i) =>
      if i < SIZE then s.(buf := Set(s.buf, i, UPPER + i % 26), harts := s.harts[h := k.(pc := Init(i + 1))])
      else s.(initialized := true, harts := s.harts[h := k.(pc := First)])
    case First =>
      s.(harts := s.harts[h := k.(pc := Scan(0, if |s.buf| > 0 then s.buf[0] else 0))])
    case Scan(i, first) =>
      if i >= SIZE then s.(harts := s.harts[h := k.(pc := Unlock)])
      else if i < |s.buf| && s.buf[i] == Expected(first, i) then s.(harts := s.harts[h := k.(pc := Write(i, first))])
      else s
    case Write(i, first) =>
      s.(buf := Set(s.buf, i, Written(h, k.count, i)), harts := s.harts[h := k.(pc := Scan(i + 1, first))])
    case Unlock =>
      s.(locked := false, harts := s.harts[h := k.(pc := Count)])
    case Count =>
      s.(harts := s.harts[h := Hart(Try, (k.count + 1) % WRAP)])
  }

  // ---------------------------------------------------------------- the buffer's contents

  /** One cyclic alphabet of a single case. */
  ghost predicate Alphabet(base: int, offset: nat, buf: seq<int>)
  {
    |buf| == SIZE && (base == UPPER || base == LOWER) && offset < 26 &&
    forall i: nat | i < SIZE :: buf[i] == base + (offset + i) % 26
  }

  ghost predicate Cyclic(buf: seq<int>) { exists base, offset :: Alphabet(base, offset, buf) }

  function Pass(hart: nat, count: nat): seq<int> { seq(SIZE, (i: nat) => Written(hart, count, i)) }

  /** What a scan started on a cyclic buffer expects is that buffer. */
  lemma ExpectedOfAlphabet(base: int, offset: nat, buf: seq<int>, i: nat)
    requires Alphabet(base, offset, buf) && i < SIZE
    ensures Expected(buf[0], i) == buf[i]
  {
    assert buf[0] == base + (offset + 0) % 26;
    ExpectedPlain(base, offset, i);
  }

  /** A whole pass leaves a cyclic alphabet exactly when the counter does not wrap inside it. */
  lemma PassIsCyclic(hart: nat, count: nat)
    ensures Cyclic(Pass(hart, count)) <==> NoWrapIn(hart, count)
    ensures Letters(Pass(hart, count), hart, count)
  {
    SameLetters(Pass(hart, count), hart, count, count);
    if NoWrapIn(hart, count) {
      forall i: nat | i < SIZE ensures Pass(hart, count)[i] == Base(hart) + ((hart + count) % WRAP % 26 + i) % 26 {
        WrittenPlain(hart, count, i);
      }
      assert Alphabet(Base(hart), (hart + count) % WRAP % 26, Pass(hart, count));
    } else {
      forall base: int, offset: nat ensures !Alphabet(base, offset, Pass(hart, count)) {
        WrapBreaks(hart, count, base, offset);
      }
    }
  }

  /** The 32 values hart + count, ..., hart + count + 31 stay below the unsigned wrap. */
  predicate NoWrapIn(hart: nat, count: nat) { (hart + count) % WRAP + SIZE - 1 < WRAP }

  lemma WrittenPlain(hart: nat, count: nat, i: nat)
    requires NoWrapIn(hart, count) && i < SIZE
    ensures Written(hart, count, i) == Base(hart) + ((hart + count) % WRAP % 26 + i) % 26
  {
    ModShift(hart + count, i);
    var b := (hart + count) % WRAP;
    assert (b + i) % WRAP == b + i;
    assert (b + i) % 26 == (b % 26 + i) % 26;
  }

  /** At the wrap the alphabet jumps from the 22nd letter back to the first. */
  lemma WrapBreaks(hart: nat, count: nat, base: int, offset: nat)
    requires !NoWrapIn(hart, count)
    ensures !Alphabet(base, offset, Pass(hart, count))
  {
    var b := (hart + count) % WRAP;
    var i := WRAP - b;
    ModShift(hart + count, i);
    ModShift(hart + count, i - 1);
    assert (b + i) % WRAP == 0 && (b + (i - 1)) % WRAP == WRAP - 1;
    assert Pass(hart, count)[i] == Base(hart) && Pass(hart, count)[i - 1] == Base(hart) + 21;
    if Alphabet(base, offset, Pass(hart, count)) { AlphabetNeighbours(base, offset, Pass(hart, count), i - 1); }
  }

  lemma ModShift(x: nat, i: nat)
    ensures (i + x) % WRAP == (x % WRAP + i) % WRAP
  {
  }

  lemma AlphabetNeighbours(base: int, offset: nat, buf: seq<int>, i: nat)
    requires Alphabet(base, offset, buf) && i + 1 < SIZE
    ensures buf[i + 1] == buf[i] + 1 || buf[i + 1] == buf[i] - 25
  {
    var v := (offset + i) % 26;
    assert buf[i] == base + (offset + i) % 26 && buf[i + 1] == base + (offset + (i + 1)) % 26;
  }

  // ---------------------------------------------------------------- mutual exclusion

  ghost predicate Inside(k: Hart) { k.pc != Try && k.pc != Count }

  /** At most one hart is between get_lock and put_lock, and the lock says whether one is. */
  ghost predicate Mutex(s: State)
  {
    && (forall g, h | 0 <= g < |s.harts| && 0 <= h < |s.harts| && Inside(s.harts[g]) && Inside(s.harts[h]) :: g == h)
    && (s.locked <==> exists h :: 0 <= h < |s.harts| && Inside(s.harts[h]))
  }

  lemma StepMutex(s: State, h: nat)
    requires Mutex(s) && h < |s.harts|
    ensures Mutex(Step(s, h))
  {
    var s' := Step(s, h);
    assert forall g | 0 <= g < |s.harts| && g != h :: s'.harts[g] == s.harts[g];
    if Inside(s'.harts[h]) { assert s'.locked; }
  }

  // ---------------------------------------------------------------- the data invariant

  /** The holder's place fits the buffer: what it has passed is overwritten, the rest is as the
      scan expects. */
  ghost predicate HolderOk(s: State, h: nat)
    requires h < |s.harts|
  {
    var k := s.harts[h];
    |s.buf| == SIZE &&
    match k.pc
    case Check => s.initialized ==> Cyclic(s.buf)
    case Init(i) => !s.initialized && i <= SIZE && forall t: nat | t < i :: s.buf[t] == UPPER + t % 26
    case First => s.initialized && Cyclic(s.buf)
    case Scan(i, first) => s.initialized && i <= SIZE && Halfway(s.buf, h, k.count, i, first)
    case Write(i, first) => s.initialized && i < SIZE && Halfway(s.buf, h, k.count, i, first)
    case Unlock => s.initialized && Cyclic(s.buf)
    case _ => true
  }

  ghost predicate Halfway(buf: seq<int>, hart: nat, count: nat, i: nat, first: int)
  {
    && |buf| == SIZE
    && (forall t: nat | t < i && t < SIZE :: buf[t] == Written(hart, count, t))
    && (forall t: nat | i <= t < SIZE :: buf[t] == Expected(first, t))
  }

  ghost predicate Inv(s: State)
  {
    && Mutex(s) && |s.buf| == SIZE
    && (!s.locked && s.initialized ==> Cyclic(s.buf))
    && (forall h | 0 <= h < |s.harts| && Inside(s.harts[h]) :: HolderOk(s, h))
  }

  /** A step of hart h keeps the data invariant unless it completes a pass that wrapped. */
  lemma StepInv(s: State, h: nat)
    requires Inv(s) && h < |s.harts|
    requires s.harts[h].pc.Scan? && s.harts[h].pc.i == SIZE ==> NoWrapIn(h, s.harts[h].count)
    ensures Inv(Step(s, h))
  {
    hide Mutex, Cyclic, Expected, Written, Alphabet;
    StepMutex(s, h);
    var s' := Step(s, h);
    HolderStep(s, h);
    OnlyHolder(s, h);
    OnlyHolder(s', h);
    if !Inside(s.harts[h]) {
      forall g | 0 <= g < |s'.harts| && Inside(s'.harts[g]) ensures HolderOk(s', g) {
        if g != h { assert HolderOk(s, g); }
      }
    }
  }

  lemma OnlyHolder(s: State, h: nat)
    requires Mutex(s) && h < |s.harts|
    ensures Inside(s.harts[h]) ==> s.locked && forall g | 0 <= g < |s.harts| && g != h :: !Inside(s.harts[g])
    ensures !s.locked ==> forall g | 0 <= g < |s.harts| :: !Inside(s.harts[g])
  {
  }

  lemma HolderStep(s: State, h: nat)
    requires Inv(s) && h < |s.harts|
    requires s.harts[h].pc.Scan? && s.harts[h].pc.i == SIZE ==> NoWrapIn(h, s.harts[h].count)
    ensures var s' := Step(s, h);
      && |s'.buf| == SIZE && |s'.harts| == |s.harts|
      && (Inside(s'.harts[h]) ==> HolderOk(s', h))
      && (!s'.locked && s'.initialized ==> Cyclic(s'.buf))
  {
    hide Mutex, Expected, Written, Alphabet, Cyclic;
    var k := s.harts[h];
    OnlyHolder(s, h);
    match k.pc
    case Init(i) => if i == SIZE { InitialAlphabet(s.buf); }
    case First => CyclicExpects(s.buf);
    case Scan(i, first) => if i == SIZE { WholePass(s.buf, h, k.count, first); }
    case Write(i, first) =>
    case Check =>
    case Try =>
    case Unlock =>
    case Count =>
  }

  lemma InitialAlphabet(buf: seq<int>)
    requires |buf| == SIZE && forall t: nat | t < SIZE :: buf[t] == UPPER + t % 26
    ensures Cyclic(buf)
  {
    assert Alphabet(UPPER, 0, buf);
  }

  lemma CyclicExpects(buf: seq<int>)
    requires Cyclic(buf)
    ensures |buf| == SIZE && forall i: nat | i < SIZE :: buf[i] == Expected(buf[0], i)
  {
    var base, offset :| Alphabet(base, offset, buf);
    forall i: nat | i < SIZE ensures buf[i] == Expected(buf[0], i) { ExpectedOfAlphabet(base, offset, buf, i); }
  }

  lemma WholePass(buf: seq<int>, hart: nat, count: nat, first: int)
    requires Halfway(buf, hart, count, SIZE, first)
    ensures buf == Pass(hart, count)
    ensures Cyclic(buf) <==> NoWrapIn(hart, count)
  {
    assert buf == Pass(hart, count);
    PassIsCyclic(hart, count);
  }

  // ---------------------------------------------------------------- every run

  ghost predicate IsRun(s0: State, run: seq<State>, who: seq<nat>)
  {
    && |run| == |who| + 1 && run[0] == s0
    && forall t | 0 <= t < |who| :: who[t] < |run[t].harts| && run[t + 1] == Step(run[t], who[t])
  }

  /** Hart h is at the end of its pass: its next step leads to put_lock. */
  ghost predicate Completes(s: State, h: nat)
  {
    h < |s.harts| && s.harts[h].pc.Scan? && s.harts[h].pc.i == SIZE
  }

  /** No hart completes a pass in which its counter wraps. */
  ghost predicate NoPassWraps(run: seq<State>, who: seq<nat>)
  {
    forall t | 0 <= t < |who| && t < |run| && Completes(run[t], who[t]) :: NoWrapIn(who[t], run[t].harts[who[t]].count)
  }

  /** Mutual exclusion in every reachable state. */
  lemma {:induction false} MutualExclusion(n: nat, buf: seq<int>, run: seq<State>, who: seq<nat>, t: nat)
    requires IsRun(Start(n, buf), run, who) && t <= |who|
    ensures Mutex(run[t])
  {
    if t > 0 {
      MutualExclusion(n, buf, run, who, t - 1);
      StepMutex(run[t - 1], who[t - 1]);
    }
  }

  lemma {:induction false} RunInv(n: nat, buf: seq<int>, run: seq<State>, who: seq<nat>, t: nat)
    requires IsRun(Start(n, buf), run, who) && t <= |who| && |buf| == SIZE
    requires NoPassWraps(run, who[..t])
    ensures Inv(run[t])
  {
    hide Inv;
    if t > 0 {
      assert who[..t][t - 1] == who[t - 1] && forall u | 0 <= u < t - 1 :: who[..t - 1][u] == who[..t][u];
      RunInv(n, buf, run, who, t - 1);
      StepInv(run[t - 1], who[t - 1]);
    } else {
      StartInv(n, buf);
    }
  }

  lemma StartInv(n: nat, buf: seq<int>)
    requires |buf| == SIZE
    ensures Inv(Start(n, buf))
  {
  }

  /** As long as no pass wraps its counter, the wait inside the critical section never blocks, and
      whenever the lock is free and the buffer initialised, the buffer is one cyclic alphabet. */
  lemma NeverWaits(n: nat, buf: seq<int>, run: seq<State>, who: seq<nat>, t: nat, h: nat)
    requires IsRun(Start(n, buf), run, who) && t <= |who| && |buf| == SIZE && h < |run[t].harts|
    requires NoPassWraps(run, who[..t])
    ensures |run[t].buf| == SIZE
    ensures run[t].harts[h].pc.Scan? && run[t].harts[h].pc.i < SIZE ==>
      run[t].buf[run[t].harts[h].pc.i] == Expected(run[t].harts[h].pc.first, run[t].harts[h].pc.i)
    ensures !run[t].locked && run[t].initialized ==> Cyclic(run[t].buf)
  {
    hide Expected, Cyclic, Mutex;
    RunInv(n, buf, run, who, t);
    if Inside(run[t].harts[h]) { assert HolderOk(run[t], h); }
  }

  // ---------------------------------------------------------------- which letters are written

  /** buf holds what hart h writes in a pass after c earlier ones: capitals if h is odd, small letters if it is even,
      starting h + c letters into the alphabet, in unsigned arithmetic. */
  ghost predicate Letters(buf: seq<int>, h: nat, c: nat)
  {
    |buf| == 32 && forall i: nat | i < 32 ::
      buf[i] == (if h % 2 == 1 then 'A' else 'a') as int + (i + h + c) % 0x1_0000_0000 % 26
  }

  /** buf holds what the initialising hart writes. */
  ghost predicate FirstLetters(buf: seq<int>)
  {
    |buf| == 32 && forall i: nat | i < 32 :: buf[i] == 'A' as int + i % 26
  }

  /** How many passes hart h has completed in the first t steps. */
  ghost function Passes(run: seq<State>, who: seq<nat>, h: nat, t: nat): nat
    requires t <= |who| <= |run|
  {
    if t == 0 then 0 else Passes(run, who, h, t - 1) + if who[t - 1] == h && Completes(run[t - 1], h) then 1 else 0
  }

  /** The last pass completed before step t is what the buffer holds at t. */
  ghost predicate HoldsLast(run: seq<State>, who: seq<nat>, t: nat)
    requires t <= |who| <= |run| && t < |run|
  {
    exists u: nat :: u < t && LastPassAt(run, who, u, t)
  }

  ghost predicate LastPassAt(run: seq<State>, who: seq<nat>, u: nat, t: nat)
    requires u < t <= |who| <= |run| && t < |run|
  {
    && Completes(run[u], who[u]) && Letters(run[t].buf, who[u], Passes(run, who, who[u], u))
    && forall v | u < v < t :: !Completes(run[v], who[v])
  }

  /** What the holder has written so far. */
  ghost predicate Progress(s: State, h: nat)
    requires h < |s.harts| && |s.buf| == SIZE
  {
    var k := s.harts[h];
    match k.pc
    case Init(i) => i <= SIZE && forall t: nat | t < i :: s.buf[t] == UPPER + t % 26
    case Scan(i, _) => i <= SIZE && forall t: nat | t < i :: s.buf[t] == Written(h, k.count, t)
    case Write(i, _) => i < SIZE && forall t: nat | t < i :: s.buf[t] == Written(h, k.count, t)
    case _ => true
  }

  ghost predicate InProgress(s: State)
  {
    && Mutex(s) && |s.buf| == SIZE
    && forall h: nat | h < |s.harts| && Inside(s.harts[h]) :: Progress(s, h)
  }

  lemma ProgressStep(s: State, h: nat)
    requires InProgress(s) && h < |s.harts|
    ensures InProgress(Step(s, h))
  {
    hide Expected, Written, Mutex;
    StepMutex(s, h);
    OnlyHolder(s, h);
    var s' := Step(s, h);
    OnlyHolder(s', h);
    HolderProgress(s, h);
    if !Inside(s.harts[h]) {
      forall g: nat | g < |s'.harts| && Inside(s'.harts[g]) ensures Progress(s', g) {
        if g != h { assert Progress(s, g); }
      }
    }
  }

  lemma HolderProgress(s: State, h: nat)
    requires InProgress(s) && h < |s.harts|
    ensures |Step(s, h).buf| == SIZE && |Step(s, h).harts| == |s.harts|
    ensures Inside(Step(s, h).harts[h]) ==> Progress(Step(s, h), h)
  {
    hide Expected, Written, Mutex;
    if Inside(s.harts[h]) { assert Progress(s, h); }
  }

  lemma {:induction false} RunProgress(n: nat, buf: seq<int>, run: seq<State>, who: seq<nat>, t: nat)
    requires IsRun(Start(n, buf), run, who) && t <= |who| && |buf| == SIZE
    ensures InProgress(run[t])
  {
    hide InProgress, Step;
    if t > 0 {
      RunProgress(n, buf, run, who, t - 1);
      ProgressStep(run[t - 1], who[t - 1]);
    } else {
      StartProgress(n, buf);
    }
  }

  lemma StartProgress(n: nat, buf: seq<int>)
    requires |buf| == SIZE
    ensures InProgress(Start(n, buf))
  {
  }

  ghost predicate Counts(k: Hart, passes: nat)
  {
    && k.count < 0x1_0000_0000
    && (k.count + if k.pc == Unlock || k.pc == Count then 1 else 0) % 0x1_0000_0000 == passes % 0x1_0000_0000
  }

  /** A hart's counter is the number of passes it has completed, modulo 2^32; between put_lock and the increment
      it is one behind. */
  lemma {:induction false} CountIsPasses(n: nat, buf: seq<int>, run: seq<State>, who: seq<nat>, t: nat, h: nat)
    requires IsRun(Start(n, buf), run, who) && t <= |who| && |buf| == SIZE && h < n
    ensures |run[t].harts| == n && Counts(run[t].harts[h], Passes(run, who, h, t))
  {
    hide Counts, Step, Completes;
    if t > 0 {
      CountIsPasses(n, buf, run, who, t - 1, h);
      ScanInside(n, buf, run, who, t - 1, h);
      CountStep(run[t - 1], who[t - 1], h, Passes(run, who, h, t - 1));
    } else {
      assert Counts(Hart(Try, 0), 0) by { CountsStart(); }
    }
  }

  lemma CountsStart()
    ensures Counts(Hart(Try, 0), 0)
  {
  }

  lemma ScanInside(n: nat, buf: seq<int>, run: seq<State>, who: seq<nat>, t: nat, h: nat)
    requires IsRun(Start(n, buf), run, who) && t <= |who| && |buf| == SIZE && h < |run[t].harts|
    ensures run[t].harts[h].pc.Scan? ==> run[t].harts[h].pc.i <= SIZE
  {
    hide Step, Expected, Written, Mutex;
    RunProgress(n, buf, run, who, t);
    assert Inside(run[t].harts[h]) ==> Progress(run[t], h);
  }

  lemma CountStep(s: State, g: nat, h: nat, passes: nat)
    requires g < |s.harts| && h < |s.harts| && Counts(s.harts[h], passes)
    requires s.harts[h].pc.Scan? ==> s.harts[h].pc.i <= SIZE
    ensures |Step(s, g).harts| == |s.harts|
    ensures Counts(Step(s, g).harts[h], passes + if g == h && Completes(s, h) then 1 else 0)
  {
    hide Expected, Written;
    if g == h && Completes(s, h) { SameSum(1, s.harts[h].count, passes); }
  }

  lemma SameLetters(buf: seq<int>, h: nat, count: nat, passes: nat)
    requires |buf| == SIZE && forall t: nat | t < SIZE :: buf[t] == Written(h, count, t)
    requires count % WRAP == passes % WRAP
    ensures Letters(buf, h, passes)
  {
    hide Written;
    forall i: nat | i < 32
      ensures buf[i] == (if h % 2 == 1 then 'A' else 'a') as int + (i + h + passes) % 0x1_0000_0000 % 26
    {
      SameLetter(h, count, passes, i);
    }
  }

  lemma SameLetter(h: nat, count: nat, passes: nat, i: nat)
    requires count % WRAP == passes % WRAP
    ensures Written(h, count, i) == (if h % 2 == 1 then 'A' else 'a') as int + (i + h + passes) % 0x1_0000_0000 % 26
  {
    SameSum(i + h, count, passes);
  }

  lemma SameSum(x: nat, c: nat, d: nat)
    requires c % WRAP == d % WRAP
    ensures (x + c) % WRAP == (x + d) % WRAP
  {
    ModShift(c, x);
    ModShift(d, x);
  }

  /** Whenever a hart completes a pass, it leaves its own letters, for the passes it has completed before. */
  lemma PassLetters(n: nat, buf: seq<int>, run: seq<State>, who: seq<nat>, t: nat)
    requires IsRun(Start(n, buf), run, who) && t < |who| && |buf| == SIZE && Completes(run[t], who[t])
    ensures Letters(run[t + 1].buf, who[t], Passes(run, who, who[t], t))
  {
    hide Expected, Written, Mutex, Letters;
    var s, h := run[t], who[t];
    RunProgress(n, buf, run, who, t);
    RunSize(n, buf, run, who, t);
    CountIsPasses(n, buf, run, who, t, h);
    assert Progress(s, h);
    assert Step(s, h).buf == s.buf;
    SameLetters(s.buf, h, s.harts[h].count, Passes(run, who, h, t));
  }

  lemma {:induction false} RunSize(n: nat, buf: seq<int>, run: seq<State>, who: seq<nat>, t: nat)
    requires IsRun(Start(n, buf), run, who) && t <= |who|
    ensures |run[t].harts| == n
  {
    if t > 0 { RunSize(n, buf, run, who, t - 1); }
  }

  /** While nobody writes, the buffer holds the last completed pass, or before the first one the initial letters. */
  ghost predicate BufferKnown(run: seq<State>, who: seq<nat>, t: nat)
    requires t <= |who| <= |run| && t < |run|
  {
    var s := run[t];
    && (!s.locked && s.initialized ==> HoldsLast(run, who, t))
    && forall h: nat | h < |s.harts| ::
         match s.harts[h].pc
         case Check => s.initialized ==> HoldsLast(run, who, t)
         case First => HoldsLast(run, who, t) || FirstLetters(s.buf)
         case Unlock => HoldsLast(run, who, t)
         case _ => true
  }

  /** In every state of every run in which the lock is free and the buffer initialised, the buffer holds the
      letters of the last completed pass; the first hart to scan finds the initial ones. */
  lemma {:induction false} FreeBuffer(n: nat, buf: seq<int>, run: seq<State>, who: seq<nat>, t: nat)
    requires IsRun(Start(n, buf), run, who) && t <= |who| && |buf| == SIZE
    ensures BufferKnown(run, who, t)
  {
    if t > 0 {
      FreeBuffer(n, buf, run, who, t - 1);
      RunProgress(n, buf, run, who, t - 1);
      if Completes(run[t - 1], who[t - 1]) {
        PassLetters(n, buf, run, who, t - 1);
        assert LastPassAt(run, who, t - 1, t);
      } else if run[t].buf == run[t - 1].buf && HoldsLast(run, who, t - 1) {
        StillLast(run, who, t);
      }
      KnownStep(run, who, t);
    }
  }

  lemma StillLast(run: seq<State>, who: seq<nat>, t: nat)
    requires 0 < t <= |who| < |run| && HoldsLast(run, who, t - 1) && run[t].buf == run[t - 1].buf
    requires !Completes(run[t - 1], who[t - 1])
    ensures HoldsLast(run, who, t)
  {
    hide Letters, Completes;
    var u: nat :| u < t - 1 && LastPassAt(run, who, u, t - 1);
    assert LastPassAt(run, who, u, t);
  }

  lemma KnownStep(run: seq<State>, who: seq<nat>, t: nat)
    requires 0 < t <= |who| < |run| && who[t - 1] < |run[t - 1].harts| && run[t] == Step(run[t - 1], who[t - 1])
    requires InProgress(run[t - 1]) && BufferKnown(run, who, t - 1)
    requires Completes(run[t - 1], who[t - 1]) ==> HoldsLast(run, who, t)
    requires !Completes(run[t - 1], who[t - 1]) && run[t].buf == run[t - 1].buf && HoldsLast(run, who, t - 1) ==>
      HoldsLast(run, who, t)
    ensures BufferKnown(run, who, t)
  {
    hide Expected, Written, Mutex, HoldsLast, Letters;
    var s, h, s' := run[t - 1], who[t - 1], run[t];
    OnlyHolder(s, h);
    StepMutex(s, h);
    OnlyHolder(s', h);
    if Inside(s.harts[h]) { assert Progress(s, h); }
  }

  // ---------------------------------------------------------------- progress

  /** So some hart can always move: the holder, or any hart when nobody holds the lock. */
  lemma NeverStuck(s: State) returns (h: nat)
    requires Inv(s) && |s.harts| > 0
    ensures h < |s.harts| && Step(s, h) != s
  {
    hide Expected, Cyclic, Written;
    if s.locked {
      h :| 0 <= h < |s.harts| && Inside(s.harts[h]);
      assert HolderOk(s, h);
    } else {
      h := 0;
    }
    assert Step(s, h).harts[h] != s.harts[h];
  }

  // ---------------------------------------------------------------- and when a pass does wrap

  /** Hart h is scanning towards a character that is not the expected one. */
  ghost predicate Doomed(s: State, h: nat, i: nat)
  {
    && Mutex(s) && |s.buf| == SIZE && h < |s.harts| && i < SIZE
    && match s.harts[h].pc
       case Scan(j, first) => j <= i && s.buf[i] != Expected(first, i)
       case Write(j, first) => j < i && s.buf[i] != Expected(first, i)
       case _ => false
  }

  /** A hart that meets a wrong character never leaves the critical section again. */
  lemma {:induction false} DoomedForever(s: State, h: nat, i: nat, run: seq<State>, who: seq<nat>, t: nat)
    requires Doomed(s, h, i) && IsRun(s, run, who) && t <= |who|
    ensures Doomed(run[t], h, i) && run[t].locked && Inside(run[t].harts[h])
  {
    hide Expected, Written, Mutex;
    if t > 0 {
      DoomedForever(s, h, i, run, who, t - 1);
      var r, g := run[t - 1], who[t - 1];
      StepMutex(r, g);
      if g != h { OnlyHolder(r, h); }
    }
    OnlyHolder(run[t], h);
  }

  /** A pass that wraps leaves a buffer on which the next hart to scan it hangs: once it has read
      the first character it holds the lock for ever. */
  lemma WrapHangs(s: State, g: nat, count: nat, h: nat, run: seq<State>, who: seq<nat>, t: nat)
    requires Mutex(s) && h < |s.harts| && s.harts[h].pc == First && s.buf == Pass(g, count) && !NoWrapIn(g, count)
    requires IsRun(Step(s, h), run, who) && t <= |who|
    ensures h < |run[t].harts| && run[t].locked && Inside(run[t].harts[h])
  {
    var i := WrongCharacter(g, count);
    StepMutex(s, h);
    assert Doomed(Step(s, h), h, i);
    DoomedForever(Step(s, h), h, i, run, who, t);
  }

  /** The character at i is one that a scan of the whole buffer stops at, and every scan under way will. */
  ghost predicate Poisoned(s: State, i: nat)
  {
    && Mutex(s) && |s.buf| == SIZE && i < SIZE && s.initialized
    && (!s.locked ==> s.buf[i] != Expected(s.buf[0], i))
    && forall h: nat | h < |s.harts| && Inside(s.harts[h]) :: Stuck(s, h, i)
  }

  ghost predicate Stuck(s: State, h: nat, i: nat)
    requires h < |s.harts| && |s.buf| == SIZE && i < SIZE
  {
    match s.harts[h].pc
    case Scan(j, first) => j <= i && s.buf[i] != Expected(first, i)
    case Write(j, first) => j < i && s.buf[i] != Expected(first, i)
    case Init(_) => false
    case _ => s.buf[i] != Expected(s.buf[0], i)
  }

  lemma PoisonedStep(s: State, h: nat, i: nat)
    requires Poisoned(s, i) && h < |s.harts|
    ensures Poisoned(Step(s, h), i)
  {
    hide Expected, Written, Mutex;
    StepMutex(s, h);
    OnlyHolder(s, h);
    var s' := Step(s, h);
    OnlyHolder(s', h);
    StuckStep(s, h, i);
    if !Inside(s.harts[h]) {
      forall g: nat | g < |s'.harts| && Inside(s'.harts[g]) ensures Stuck(s', g, i) {
        if g != h { assert Stuck(s, g, i); }
      }
    }
  }

  lemma StuckStep(s: State, h: nat, i: nat)
    requires Poisoned(s, i) && h < |s.harts|
    ensures var s' := Step(s, h);
      && |s'.buf| == SIZE && |s'.harts| == |s.harts| && s'.initialized
      && (Inside(s'.harts[h]) ==> Stuck(s', h, i))
      && (!s'.locked ==> s'.buf[i] != Expected(s'.buf[0], i))
  {
    hide Expected, Written, Mutex;
    OnlyHolder(s, h);
    if Inside(s.harts[h]) { assert Stuck(s, h, i); }
  }

  /** In every run the first completed pass that wraps is the last pass that any hart completes. */
  lemma {:induction false} LastPass(n: nat, buf: seq<int>, run: seq<State>, who: seq<nat>, t: nat, u: nat)
      returns (i: nat)
    requires IsRun(Start(n, buf), run, who) && |buf| == SIZE && t < |who| && NoPassWraps(run, who[..t])
    requires Completes(run[t], who[t]) && !NoWrapIn(who[t], run[t].harts[who[t]].count)
    requires t < u <= |who|
    ensures Poisoned(run[u], i) && forall h: nat :: !Completes(run[u], h)
    decreases u
  {
    hide Mutex, Inv, Poisoned, Expected, Step;
    var g := who[t];
    if u == t + 1 {
      RunInv(n, buf, run, who, t);
      i := PassPoisons(run[t], g);
    } else {
      i := LastPass(n, buf, run, who, t, u - 1);
      PoisonedStep(run[u - 1], who[u - 1], i);
    }
    NoneCompletes(run[u], i);
  }

  lemma NoneCompletes(s: State, i: nat)
    requires Poisoned(s, i)
    ensures forall h: nat :: !Completes(s, h)
  {
    hide Expected, Mutex;
    forall h: nat ensures !Completes(s, h) {
      if h < |s.harts| && Inside(s.harts[h]) { assert Stuck(s, h, i); }
    }
  }

  lemma PassPoisons(s: State, g: nat) returns (i: nat)
    requires Inv(s) && Completes(s, g) && !NoWrapIn(g, s.harts[g].count)
    ensures Poisoned(Step(s, g), i)
  {
    hide Expected, Written, Mutex, Cyclic;
    assert HolderOk(s, g);
    WholePass(s.buf, g, s.harts[g].count, s.harts[g].pc.first);
    i := WrongCharacter(g, s.harts[g].count);
    StepMutex(s, g);
    OnlyHolder(s, g);
    OnlyHolder(Step(s, g), g);
  }

  // One hart alone gets there: pass after pass its counter grows until a pass wraps.

  /** k steps of hart 0. */
  function Iter(s: State, k: nat): (r: State)
    requires |s.harts| > 0
    ensures |r.harts| == |s.harts|
    decreases k
  {
    if k == 0 then s else Iter(Step(s, 0), k - 1)
  }

  lemma {:induction false} IterAdd(s: State, a: nat, b: nat)
    requires |s.harts| > 0
    ensures Iter(s, a + b) == Iter(Iter(s, a), b)
    decreases a
  {
    if a > 0 { IterAdd(Step(s, 0), a - 1, b); }
  }

  function Alone(s: State, k: nat): (run: seq<State>)
    requires |s.harts| > 0
  {
    seq(k + 1, i requires 0 <= i => Iter(s, i))
  }

  lemma AloneIsRun(s: State, k: nat)
    requires |s.harts| > 0
    ensures IsRun(s, Alone(s, k), seq(k, _ => 0))
  {
    hide Step;
    forall t | 0 <= t < k ensures Alone(s, k)[t + 1] == Step(Alone(s, k)[t], 0) {
      IterAdd(s, t, 1);
      assert Iter(Iter(s, t), 1) == Iter(Step(Iter(s, t), 0), 0);
    }
  }

  /** Hart 0, in its pass number count, stands at pc. */
  ghost predicate At(s: State, pc: Pc, count: nat)
  {
    |s.harts| > 0 && s.harts[0] == Hart(pc, count) && |s.buf| == SIZE && s.initialized
  }

  lemma SweepStep(s: State, count: nat, i: nat, first: int)
    requires At(s, Scan(i, first), count) && i < SIZE && Halfway(s.buf, 0, count, i, first)
    ensures At(Iter(s, 2), Scan(i + 1, first), count) && Halfway(Iter(s, 2).buf, 0, count, i + 1, first)
  {
    hide Expected, Written;
    var s1 := Step(s, 0);
    assert s1 == s.(harts := s.harts[0 := Hart(Write(i, first), count)]);
    assert Iter(s, 2) == Iter(s1, 1) == Step(s1, 0);
  }

  lemma {:induction false} Sweep(s: State, count: nat, i: nat, first: int)
    requires At(s, Scan(i, first), count) && i <= SIZE && Halfway(s.buf, 0, count, i, first)
    ensures var s' := Iter(s, 2 * (SIZE - i)); At(s', Scan(SIZE, first), count) && s'.buf == Pass(0, count)
    decreases SIZE - i
  {
    hide Step, Expected, Written;
    if i < SIZE {
      SweepStep(s, count, i, first);
      Sweep(Iter(s, 2), count, i + 1, first);
      IterAdd(s, 2, 2 * (SIZE - (i + 1)));
    } else {
      WholePass(s.buf, 0, count, first);
    }
  }

  const SWEEP: nat := 1 + 2 * SIZE          // steps from First to the end of the scan
  const ROUND: nat := SWEEP + 5             // steps from First to First

  /** On a cyclic buffer hart 0 completes its pass and comes back for the next one. */
  lemma OnePass(s: State, count: nat)
    requires At(s, First, count) && Cyclic(s.buf)
    ensures exists first :: At(Iter(s, SWEEP), Scan(SIZE, first), count)
    ensures At(Iter(s, ROUND), First, (count + 1) % WRAP) && Iter(s, ROUND).buf == Pass(0, count)
  {
    hide Iter, Step, Cyclic, Expected, Written;
    CyclicExpects(s.buf);
    var s1, first := Entered(s, count);
    Sweep(s1, count, 0, first);
    IterAdd(s, 1, 2 * SIZE);
    var s2 := Iter(s, SWEEP);
    assert At(s2, Scan(SIZE, first), count);
    BackToFirst(s2, count, first);
    IterAdd(s, SWEEP, 5);
  }

  lemma Entered(s: State, count: nat) returns (s1: State, first: int)
    requires At(s, First, count) && forall i: nat | i < SIZE :: s.buf[i] == Expected(s.buf[0], i)
    ensures s1 == Iter(s, 1) && At(s1, Scan(0, first), count) && Halfway(s1.buf, 0, count, 0, first)
  {
    hide Expected, Written;
    s1, first := Step(s, 0), s.buf[0];
    assert Iter(s, 1) == Iter(s1, 0);
  }

  lemma BackToFirst(s: State, count: nat, first: int)
    requires At(s, Scan(SIZE, first), count)
    ensures At(Iter(s, 5), First, (count + 1) % WRAP) && Iter(s, 5).buf == s.buf
  {
    var s1 := Step(s, 0);
    var s2 := Step(s1, 0);
    var s3 := Step(s2, 0);
    var s4 := Step(s3, 0);
    var s5 := Step(s4, 0);
    assert s2.harts[0] == Hart(Count, count) && !s2.locked;
    assert s4.harts[0] == Hart(Check, (count + 1) % WRAP);
    assert Iter(s, 5) == Iter(s1, 4) == Iter(s2, 3) == Iter(s3, 2) == Iter(s4, 1) == Iter(s5, 0);
  }

  lemma {:induction false} FillsAlone(s: State, i: nat)
    requires |s.harts| > 0 && s.harts[0] == Hart(Init(i), 0) && |s.buf| == SIZE && i <= SIZE
    requires forall t: nat | t < i :: s.buf[t] == UPPER + t % 26
    ensures var s' := Iter(s, SIZE - i + 1); At(s', First, 0) && Cyclic(s'.buf)
    decreases SIZE - i
  {
    hide Cyclic;
    if i < SIZE { FillsAlone(Step(s, 0), i + 1); } else { InitialAlphabet(s.buf); assert Iter(s, 1) == Step(s, 0); }
  }

  /** Up to the first pass that wraps, hart 0 alone begins each pass on a cyclic buffer. */
  lemma {:induction false} BeginsPass(n: nat, buf: seq<int>, count: nat) returns (k: nat)
    requires n > 0 && |buf| == SIZE && count + SIZE - 1 <= WRAP
    ensures var s := Iter(Start(n, buf), k); At(s, First, count) && Cyclic(s.buf)
  {
    hide Iter, Step, Cyclic, At;
    if count == 0 {
      k := FirstPass(n, buf);
    } else {
      var j := BeginsPass(n, buf, count - 1);
      OnePass(Iter(Start(n, buf), j), count - 1);
      PassIsCyclic(0, count - 1);
      k := j + ROUND;
      IterAdd(Start(n, buf), j, ROUND);
    }
  }

  lemma FirstPass(n: nat, buf: seq<int>) returns (k: nat)
    requires n > 0 && |buf| == SIZE
    ensures var s := Iter(Start(n, buf), k); At(s, First, 0) && Cyclic(s.buf)
  {
    hide Cyclic;
    var s := Start(n, buf);
    var s1 := Step(s, 0);
    var s2 := Step(s1, 0);
    assert Iter(s, 2) == Iter(s1, 1) == Iter(s2, 0);
    FillsAlone(s2, 0);
    k := 2 + (SIZE + 1);
    IterAdd(s, 2, SIZE + 1);
  }

  /** So the failure is real: for any number of harts some run from the start has a pass that wraps, and after
      that run, whatever the harts do, hart 0 keeps the lock for ever. */
  lemma SomeRunHangs(n: nat, buf: seq<int>) returns (run: seq<State>, who: seq<nat>)
    requires n > 0 && |buf| == SIZE
    ensures IsRun(Start(n, buf), run, who) && !NoPassWraps(run, who)
    ensures forall more: seq<State>, whom: seq<nat>, t: nat | IsRun(run[|who|], more, whom) && t <= |whom| ::
      |more[t].harts| > 0 && more[t].locked && Inside(more[t].harts[0])
  {
    hide Iter, Step, Cyclic, Inside, Mutex, Pass, Written;
    var start, count := Start(n, buf), WRAP - SIZE + 1;
    var k := BeginsPass(n, buf, count);
    var s := Iter(start, k);
    OnePass(s, count);
    var s' := Iter(s, ROUND);
    IterAdd(start, k, SWEEP);
    IterAdd(start, k, ROUND);
    IterAdd(start, k + ROUND, 1);
    run, who := Alone(start, k + ROUND + 1), seq(k + ROUND + 1, _ => 0);
    AloneIsRun(start, k + ROUND + 1);
    WrapsAt(run, who, k + SWEEP, count);
    MutualExclusion(n, buf, run, who, k + ROUND);
    assert Step(s', 0) == run[k + ROUND + 1];
    forall more: seq<State>, whom: seq<nat>, t: nat | IsRun(run[|who|], more, whom) && t <= |whom|
      ensures |more[t].harts| > 0 && more[t].locked && Inside(more[t].harts[0])
    {
      WrapHangs(s', 0, count, 0, more, whom, t);
    }
  }

  lemma WrapsAt(run: seq<State>, who: seq<nat>, t: nat, count: nat)
    requires t < |run| && t < |who| && who[t] == 0 && !NoWrapIn(0, count)
    requires exists first :: At(run[t], Scan(SIZE, first), count)
    ensures !NoPassWraps(run, who)
  {
    var first :| At(run[t], Scan(SIZE, first), count);
    assert Completes(run[t], who[t]);
  }

  lemma WrongCharacter(g: nat, count: nat) returns (i: nat)
    requires !NoWrapIn(g, count)
    ensures i < SIZE && Pass(g, count)[i] != Expected(Pass(g, count)[0], i)
  {
    hide Expected, Written;
    ExpectedIsCyclic(g, count);
    PassIsCyclic(g, count);
    i :| i < SIZE && Pass(g, count)[i] != Expected(Pass(g, count)[0], i);
  }

  lemma ExpectedIsCyclic(g: nat, count: nat)
    ensures (forall i: nat | i < SIZE :: Pass(g, count)[i] == Expected(Pass(g, count)[0], i)) ==> Cyclic(Pass(g, count))
  {
    var buf := Pass(g, count);
    if forall i: nat | i < SIZE :: buf[i] == Expected(buf[0], i) {
      var offset := buf[0] - Base(g);
      forall i: nat | i < SIZE ensures buf[i] == Base(g) + (offset + i) % 26 {
        ExpectedPlain(Base(g), offset, i);
      }
      assert Alphabet(Base(g), offset, buf);
    }
  }

  lemma ExpectedPlain(base: int, offset: nat, i: nat)
    requires (base == UPPER || base == LOWER) && offset < 26 && i < SIZE
    ensures Expected(base + offset, i) == base + (offset + i) % 26
  {
    assert ClearCase(base + offset) == UPPER + offset;
    assert (offset + i) % WRAP == offset + i;
  }
}
