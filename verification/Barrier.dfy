/** The sense-reversing barrier of util.h. */
module Barrier {
  // A step system: N cores, sequentially consistent shared variables, one shared access per step,
  // any interleaving.

  /** Where a core stands inside barrier(): between calls, about to fetch-and-add, about to reset
      the count, about to release, or spinning. */
  datatype Pc = Out | Add | Reset | Release | Spin

  /** threadsense, and how many calls the core has entered and left. */
  datatype Core = Core(pc: Pc, threadsense: bool, entered: nat, left: nat)

  /** The shared variables sense and count; round counts the releases so far. */
  datatype State = State(sense: bool, count: nat, round: nat, cores: seq<Core>)

  function Start(n: nat): State
  {
    State(false, 0, 0, seq(n, _ => Core(Out, false, 0, 0)))
  }

  /** One step of core c. */
  function Step(s: State, c: nat): State
    requires c < |s.cores|
  {
    var k := s.cores[c];
    match k.pc
    case Out =>
      s.(cores := s.cores[c := k.(pc := Add, threadsense := !k.threadsense, entered := k.entered + 1)])
    case Add =>
      s.(count := s.count + 1,
         cores := s.cores[c := k.(pc := if s.count == |s.cores| - 1 then Reset else Spin)])
    case Reset =>
      s.(count := 0, cores := s.cores[c := k.(pc := Release)])
    case Release =>
      s.(sense := k.threadsense, round := s.round + 1,
         cores := s.cores[c := k.(pc := Out, left := k.left + 1)])
    case Spin =>
      if s.sense == k.threadsense then s.(cores := s.cores[c := k.(pc := Out, left := k.left + 1)]) else s
  }

  // ---------------------------------------------------------------- the invariant

  predicate Odd(n: nat) { n % 2 == 1 }

  /** The core has counted itself in for the round that is not yet released. */
  predicate Arrived(k: Core, round: nat)
  {
    k.entered == round + 1 && k.pc != Add
  }

  function Arrivals(cores: seq<Core>, round: nat): (n: nat)
    ensures n <= |cores|
  {
    if cores == [] then 0
    else (if Arrived(cores[0], round) then 1 else 0) + Arrivals(cores[1..], round)
  }

  ghost predicate CoreInv(k: Core, round: nat)
  {
    && k.threadsense == Odd(k.entered)
    && k.entered == (if k.pc == Out then k.left else k.left + 1)
    && match k.pc
       case Out => k.entered == round
       case Spin => k.entered == round || k.entered == round + 1
       case _ => k.entered == round + 1
  }

  ghost predicate Leading(k: Core) { k.pc == Reset || k.pc == Release }

  /** Still gathering: nobody leads, and count is the number of cores counted in, not all of them. */
  ghost predicate Gathering(s: State)
  {
    && (forall c | 0 <= c < |s.cores| :: !Leading(s.cores[c]))
    && s.count == Arrivals(s.cores, s.round) < |s.cores|
  }

  /** All cores are in and core c, the last one, resets and releases while the others spin. */
  ghost predicate Led(s: State, c: nat)
  {
    && c < |s.cores| && Leading(s.cores[c])
    && (forall d | 0 <= d < |s.cores| && d != c :: s.cores[d].pc == Spin && s.cores[d].entered == s.round + 1)
    && s.count == if s.cores[c].pc == Reset then |s.cores| else 0
  }

  ghost predicate Inv(s: State)
  {
    && |s.cores| > 0
    && s.sense == Odd(s.round)
    && (forall c | 0 <= c < |s.cores| :: CoreInv(s.cores[c], s.round))
    && (Gathering(s) || exists c :: Led(s, c))
  }

  lemma {:induction false} ArrivalsUpdate(cores: seq<Core>, round: nat, c: nat, k: Core)
    requires c < |cores|
    ensures Arrivals(cores[c := k], round) ==
      Arrivals(cores, round) - (if Arrived(cores[c], round) then 1 else 0) + (if Arrived(k, round) then 1 else 0)
  {
    if c == 0 {
      assert cores[c := k][1..] == cores[1..];
    } else {
      assert cores[c := k][1..] == cores[1..][c - 1 := k];
      ArrivalsUpdate(cores[1..], round, c - 1, k);
    }
  }

  lemma {:induction false} AllArrived(cores: seq<Core>, round: nat)
    ensures Arrivals(cores, round) == |cores| <==> forall c | 0 <= c < |cores| :: Arrived(cores[c], round)
  {
    if cores != [] {
      AllArrived(cores[1..], round);
      if forall c | 0 <= c < |cores| :: Arrived(cores[c], round) {
        forall c | 0 <= c < |cores[1..]| ensures Arrived(cores[1..][c], round) { assert cores[1..][c] == cores[c + 1]; }
      }
      if Arrivals(cores, round) == |cores| {
        forall c | 0 <= c < |cores| ensures Arrived(cores[c], round) {
          if c > 0 { assert cores[c] == cores[1..][c - 1]; }
        }
      }
    }
  }

  lemma {:induction false} NoneArrived(cores: seq<Core>, round: nat)
    requires forall c | 0 <= c < |cores| :: !Arrived(cores[c], round)
    ensures Arrivals(cores, round) == 0
  {
    if cores != [] { NoneArrived(cores[1..], round); }
  }

  lemma StartInv(n: nat)
    requires n > 0
    ensures Inv(Start(n))
  {
    NoneArrived(Start(n).cores, 0);
  }

  lemma StepGathering(s: State, c: nat)
    requires Inv(s) && Gathering(s) && c < |s.cores|
    ensures Inv(Step(s, c))
  {
    hide Arrivals;
    var k, s' := s.cores[c], Step(s, c);
    ArrivalsUpdate(s.cores, s.round, c, s'.cores[c]);
    if k.pc == Add && s.count == |s.cores| - 1 {
      AllArrived(s'.cores, s.round);
      assert Led(s', c);
    } else {
      assert s'.cores == s.cores[c := s'.cores[c]];
      assert Gathering(s');
    }
  }

  lemma StepLed(s: State, c: nat, d: nat)
    requires Inv(s) && Led(s, d) && c < |s.cores|
    ensures Inv(Step(s, c))
  {
    hide Arrivals;
    var s' := Step(s, c);
    if c != d {
      assert s' == s;
    } else if s.cores[c].pc == Reset {
      assert Led(s', c);
    } else {
      forall e | 0 <= e < |s'.cores| ensures !Arrived(s'.cores[e], s'.round) && !Leading(s'.cores[e]) { }
      NoneArrived(s'.cores, s'.round);
      assert Gathering(s');
    }
  }

  lemma StepInv(s: State, c: nat)
    requires Inv(s) && c < |s.cores|
    ensures Inv(Step(s, c))
  {
    if Gathering(s) {
      StepGathering(s, c);
    } else {
      var d :| Led(s, d);
      StepLed(s, c, d);
    }
  }

  // ---------------------------------------------------------------- safety over every run

  /** A run: any interleaving of the cores' steps from the start. */
  ghost predicate IsRun(n: nat, run: seq<State>, who: seq<nat>)
  {
    && n > 0 && |run| == |who| + 1 && run[0] == Start(n)
    && forall i | 0 <= i < |who| :: who[i] < |run[i].cores| && run[i + 1] == Step(run[i], who[i])
  }

  /** What a barrier promises: nobody has left its r-th call unless everybody has entered its
      r-th call, and cores are never more than one round apart. */
  ghost predicate Synchronised(s: State)
  {
    forall c, d | 0 <= c < |s.cores| && 0 <= d < |s.cores| ::
      && s.cores[c].left <= s.cores[d].entered
      && s.cores[c].entered <= s.cores[d].entered + 1
  }

  /** While any core can still count itself in, the count holds exactly the cores counted in for
      the open round: the previous round's count has been reset. */
  ghost predicate CountReset(s: State)
  {
    (exists c :: 0 <= c < |s.cores| && (s.cores[c].pc == Out || s.cores[c].pc == Add)) ==>
      s.count == Arrivals(s.cores, s.round) < |s.cores|
  }

  lemma InvMeans(s: State)
    requires Inv(s)
    ensures Synchronised(s) && CountReset(s)
  {
    if exists c :: 0 <= c < |s.cores| && (s.cores[c].pc == Out || s.cores[c].pc == Add) {
      var c :| 0 <= c < |s.cores| && (s.cores[c].pc == Out || s.cores[c].pc == Add);
      forall d ensures !Led(s, d) { }
    }
  }

  lemma {:induction false} RunInv(n: nat, run: seq<State>, who: seq<nat>, i: nat)
    requires IsRun(n, run, who) && i <= |who|
    ensures Inv(run[i]) && |run[i].cores| == n
  {
    if i == 0 {
      StartInv(n);
    } else {
      RunInv(n, run, who, i - 1);
      StepInv(run[i - 1], who[i - 1]);
    }
  }

  /** Safety: in every state of every run, over any number of rounds, the barrier synchronises,
      and it has reset its count before any core can count itself in for the next round. */
  lemma BarrierSafe(n: nat, run: seq<State>, who: seq<nat>, i: nat)
    requires IsRun(n, run, who) && i <= |who|
    ensures Synchronised(run[i]) && CountReset(run[i])
  {
    RunInv(n, run, who, i);
    InvMeans(run[i]);
  }

  /** A core leaves its r-th call only when every core has entered its r-th call. */
  lemma LeavingNeedsAll(n: nat, run: seq<State>, who: seq<nat>, i: nat, d: nat)
    requires IsRun(n, run, who) && i < |who| && d < n
    ensures |run[i].cores| == n
    ensures var c := who[i]; var k, k' := run[i].cores[c], run[i + 1].cores[c];
      k'.left > k.left ==> k'.left == k.entered && run[i].cores[d].entered >= k'.left
  {
    RunInv(n, run, who, i);
    RunInv(n, run, who, i + 1);
    InvMeans(run[i + 1]);
    var c, s := who[i], run[i];
    if run[i + 1].cores[c].left > s.cores[c].left {
      assert CoreInv(s.cores[c], s.round);
      assert run[i + 1].cores[c].left <= run[i + 1].cores[d].entered;
    }
  }

  // ---------------------------------------------------------------- progress

  /** The only step that changes nothing: reading sense while the round is not released. */
  ghost predicate Idle(s: State, c: nat)
    requires c < |s.cores|
  {
    s.cores[c].pc == Spin && s.sense != s.cores[c].threadsense
  }

  /** Steps a core still has to make before it spins for the open round. */
  ghost function Work(k: Core, round: nat): nat
  {
    match k.pc
    case Spin => if k.entered == round + 1 then 0 else 5
    case Out => 4
    case Add => 3
    case Reset => 2
    case Release => 1
  }

  ghost function Rank(cores: seq<Core>, round: nat): (r: nat)
    ensures r <= 5 * |cores|
  {
    if cores == [] then 0 else Work(cores[0], round) + Rank(cores[1..], round)
  }

  lemma {:induction false} RankUpdate(cores: seq<Core>, round: nat, c: nat, k: Core)
    requires c < |cores|
    ensures Rank(cores[c := k], round) + Work(cores[c], round) == Rank(cores, round) + Work(k, round)
  {
    if c == 0 {
      assert cores[c := k][1..] == cores[1..];
    } else {
      assert cores[c := k][1..] == cores[1..][c - 1 := k];
      RankUpdate(cores[1..], round, c - 1, k);
    }
  }

  /** No deadlock: while every core keeps calling, some core can always make a step that is not idle. */
  lemma NeverStuck(s: State) returns (c: nat)
    requires Inv(s)
    ensures c < |s.cores| && !Idle(s, c) && Step(s, c) != s
  {
    if Gathering(s) {
      AllArrived(s.cores, s.round);
      c :| 0 <= c < |s.cores| && !Arrived(s.cores[c], s.round);
    } else {
      c :| Led(s, c);
    }
    assert CoreInv(s.cores[c], s.round);
    assert Step(s, c).cores[c] != s.cores[c];
  }

  /** Every step that is not idle releases the round or brings the release strictly closer. */
  lemma StepProgress(s: State, c: nat)
    requires Inv(s) && c < |s.cores|
    ensures Idle(s, c) ==> Step(s, c) == s
    ensures !Idle(s, c) ==>
      var s' := Step(s, c);
      s'.round == s.round + 1 || (s'.round == s.round && Rank(s'.cores, s.round) < Rank(s.cores, s.round))
  {
    assert CoreInv(s.cores[c], s.round);
    RankUpdate(s.cores, s.round, c, Step(s, c).cores[c]);
  }

  /** So the open round is released after at most 5 N steps that are not idle, whatever the order. */
  lemma {:induction false} ReleasedInTime(s: State, run: seq<State>, who: seq<nat>)
    requires Inv(s) && |run| == |who| + 1 && run[0] == s
    requires forall i | 0 <= i < |who| ::
      who[i] < |run[i].cores| && !Idle(run[i], who[i]) && run[i + 1] == Step(run[i], who[i])
    requires |who| > Rank(s.cores, s.round)
    ensures exists i :: 0 <= i < |run| && run[i].round == s.round + 1
    decreases |who|
  {
    StepInv(s, who[0]);
    StepProgress(s, who[0]);
    if run[1].round != s.round + 1 {
      ReleasedInTime(run[1], run[1..], who[1..]);
      var i :| 0 <= i < |run[1..]| && run[1..][i].round == s.round + 1;
      assert run[i + 1].round == s.round + 1;
    }
  }

  // ---------------------------------------------------------------- measures of a program that calls the barrier

  /** Steps that change the state which a core can still make before its current call returns. */
  function Ahead(pc: Pc): nat
  {
    match pc
    case Out => 0
    case Add => 4
    case Reset => 3
    case Release => 2
    case Spin => 1
  }

  lemma AheadFalls(s: State, c: nat)
    requires c < |s.cores| && s.cores[c].pc != Out && Step(s, c) != s
    ensures |Step(s, c).cores| == |s.cores| && Ahead(Step(s, c).cores[c].pc) < Ahead(s.cores[c].pc)
  {
  }

  /** A step moves no core but its own. */
  lemma OthersStay(s: State, c: nat, d: nat)
    requires c < |s.cores| && d < |s.cores| && d != c
    ensures |Step(s, c).cores| == |s.cores| && Step(s, c).cores[d] == s.cores[d]
  {
  }

  function Total(xs: seq<int>): int { if xs == [] then 0 else xs[0] + Total(xs[1..]) }

  lemma {:induction false} TotalFalls(xs: seq<int>, ys: seq<int>, c: nat)
    requires |xs| == |ys| && c < |xs| && ys[c] < xs[c] && forall d | 0 <= d < |xs| && d != c :: ys[d] == xs[d]
    ensures Total(ys) < Total(xs)
  {
    if c > 0 {
      TotalFalls(xs[1..], ys[1..], c - 1);
    } else {
      assert xs[1..] == ys[1..];
    }
  }

  lemma {:induction false} TotalBounds(xs: seq<int>, k: nat)
    requires forall x | x in xs :: 0 <= x <= k
    ensures 0 <= Total(xs) <= k * |xs|
  {
    if xs != [] {
      assert xs[0] in xs && forall x | x in xs[1..] :: x in xs;
      TotalBounds(xs[1..], k);
      assert k * |xs| == k + k * (|xs| - 1);
    }
  }

  /** How many of the first t steps of a run change the state; the others read sense in vain, or are of a core that
      is done. */
  ghost function Moves<T>(run: seq<T>, t: nat): nat
    requires t < |run|
  {
    if t == 0 then 0 else Moves(run, t - 1) + if run[t] != run[t - 1] then 1 else 0
  }

  lemma {:induction false} MovesSame<T>(run: seq<T>, run1: seq<T>, t: nat)
    requires run <= run1 && t < |run|
    ensures Moves(run1, t) == Moves(run, t)
  {
    if t > 0 { MovesSame(run, run1, t - 1); }
  }
}
