/** core_state.c: the scanner of comma-separated numbers. */
module NumberScanner {
  // The state machine, and the benchmark around it, which corrupts its input between two scans and
  // repairs it afterwards.

  import Crc
  import opened Words

  const COMMA: bv8 := 44
  const PLUS: bv8 := 43
  const MINUS: bv8 := 45
  const DOT: bv8 := 46

  datatype State = Start | Invalid | S1 | S2 | Int | Float | Exponent | Scientific

  /** The position of a state in the enumeration. */
  function Code(st: State): (k: nat)
    ensures k < 8
  {
    match st
    case Start => 0
    case Invalid => 1
    case S1 => 2
    case S2 => 3
    case Int => 4
    case Float => 5
    case Exponent => 6
    case Scientific => 7
  }

  /** The character classes, and which byte each named character is. */
  lemma Characters(c: bv8)
    ensures IsDigit(c) <==> '0' as int <= c as int <= '9' as int
    ensures IsSign(c) <==> c as int == '+' as int || c as int == '-' as int
    ensures IsE(c) <==> c as int == 'E' as int || c as int == 'e' as int
    ensures COMMA as int == ',' as int && DOT as int == '.' as int
  {
  }

  predicate IsDigit(c: bv8) { 48 <= c <= 57 }
  predicate IsSign(c: bv8) { c == PLUS || c == MINUS }
  predicate IsE(c: bv8) { c == 69 || c == 101 }

  /** The state after one more character. */
  function Next(st: State, c: bv8): State {
    match st
    case Start => if IsDigit(c) then Int else if IsSign(c) then S1 else if c == DOT then Float else Invalid
    case S1 => if IsDigit(c) then Int else if c == DOT then Float else Invalid
    case Int => if c == DOT then Float else if IsDigit(c) then Int else Invalid
    case Float => if IsE(c) then S2 else if IsDigit(c) then Float else Invalid
    case S2 => if IsSign(c) then Exponent else Invalid
    case Exponent => if IsDigit(c) then Scientific else Invalid
    case Scientific => if IsDigit(c) then Scientific else Invalid
    case Invalid => Invalid
  }

  ghost function Run(w: seq<bv8>): State { if w == [] then Start else Next(Run(w[..|w| - 1]), w[|w| - 1]) }

  // ---------------------------------------------------------------- the grammar

  ghost predicate Digits(w: seq<bv8>, lo: nat, hi: nat) { forall x | lo <= x < hi && x < |w| :: IsDigit(w[x]) }

  /** w starts with k optional sign characters. */
  ghost predicate Head(w: seq<bv8>, k: nat) { k == 0 || (k == 1 && |w| >= 1 && IsSign(w[0])) }

  /** [sign] digit+ */
  ghost predicate IsInt(w: seq<bv8>) { exists k: nat :: IntAt(w, k) }
  ghost predicate IntAt(w: seq<bv8>, k: nat) { Head(w, k) && k < |w| && Digits(w, k, |w|) }

  /** [sign] digit* . digit* */
  ghost predicate IsFloat(w: seq<bv8>) { exists k: nat, j: nat :: FloatAt(w, k, j) }
  ghost predicate FloatAt(w: seq<bv8>, k: nat, j: nat)
  {
    Head(w, k) && k <= j < |w| && w[j] == DOT && Digits(w, k, j) && Digits(w, j + 1, |w|)
  }

  /** [sign] digit* . digit* e sign digit+ */
  ghost predicate IsScientific(w: seq<bv8>) { exists e: nat :: ScientificAt(w, e) }
  ghost predicate ScientificAt(w: seq<bv8>, e: nat)
  {
    e + 2 < |w| && IsFloat(w[..e]) && IsE(w[e]) && IsSign(w[e + 1]) && Digits(w, e + 2, |w|)
  }

  /** What has been read in the other states. */
  ghost predicate IsMantissaE(w: seq<bv8>) { |w| >= 1 && IsFloat(w[..|w| - 1]) && IsE(w[|w| - 1]) }
  ghost predicate IsMantissaESign(w: seq<bv8>) { |w| >= 1 && IsMantissaE(w[..|w| - 1]) && IsSign(w[|w| - 1]) }

  lemma DigitsPrefix(u: seq<bv8>, c: bv8, lo: nat, hi: nat)
    requires hi <= |u|
    ensures Digits(u + [c], lo, hi) <==> Digits(u, lo, hi)
    ensures lo <= |u| ==> (Digits(u + [c], lo, |u| + 1) <==> Digits(u, lo, |u|) && IsDigit(c))
  {
    var w := u + [c];
    assert forall x | 0 <= x < |u| :: u[x] == w[x];
    assert w[|u|] == c;
  }

  lemma IntSnoc(u: seq<bv8>, c: bv8)
    ensures IsInt(u + [c]) <==> IsDigit(c) && (IsInt(u) || u == [] || (|u| == 1 && IsSign(u[0])))
  {
    var w := u + [c];
    if IsInt(w) {
      var k: nat :| IntAt(w, k);
      assert w[|u|] == c;
      if k < |u| {
        assert forall x | k <= x < |u| :: w[x] == u[x];
        assert IntAt(u, k);
      }
    }
    if IsDigit(c) && IsInt(u) {
      var k: nat :| IntAt(u, k);
      assert IntAt(w, k);
    }
    if IsDigit(c) && u == [] { assert IntAt(w, 0); }
    if IsDigit(c) && |u| == 1 && IsSign(u[0]) { assert IntAt(w, 1); }
  }

  lemma FloatSnoc(u: seq<bv8>, c: bv8)
    ensures IsFloat(u + [c]) <==>
      (IsDigit(c) && IsFloat(u)) || (c == DOT && (IsInt(u) || u == [] || (|u| == 1 && IsSign(u[0]))))
  {
    var w := u + [c];
    if IsFloat(w) {
      var k: nat, j: nat :| FloatAt(w, k, j);
      assert w[|u|] == c;
      if j < |u| {
        DigitsPrefix(u, c, k, j);
        DigitsPrefix(u, c, j + 1, |u|);
        assert FloatAt(u, k, j);
      } else if k < |u| {
        assert forall x | k <= x < |u| :: w[x] == u[x];
        assert IntAt(u, k);
      }
    }
    if IsDigit(c) && IsFloat(u) {
      var k: nat, j: nat :| FloatAt(u, k, j);
      assert FloatAt(w, k, j);
    }
    if c == DOT && IsInt(u) {
      var k: nat :| IntAt(u, k);
      assert FloatAt(w, k, |u|);
    }
    if c == DOT && u == [] { assert FloatAt(w, 0, 0); }
    if c == DOT && |u| == 1 && IsSign(u[0]) { assert FloatAt(w, 1, 1); }
  }

  lemma ScientificSnoc(u: seq<bv8>, c: bv8)
    ensures IsScientific(u + [c]) <==> IsDigit(c) && (IsScientific(u) || IsMantissaESign(u))
  {
    hide IsFloat;
    var w := u + [c];
    assert w[|u|] == c;
    if IsScientific(w) {
      var e: nat :| ScientificAt(w, e);
      assert w[..e] == u[..e];
      if e + 2 < |u| {
        DigitsPrefix(u, c, e + 2, |u|);
        assert ScientificAt(u, e);
      } else {
        assert u[..|u| - 1][..e] == u[..e];
        assert IsMantissaESign(u);
      }
    }
    if IsDigit(c) && IsScientific(u) {
      var e: nat :| ScientificAt(u, e);
      assert w[..e] == u[..e];
      assert ScientificAt(w, e);
    }
    if IsDigit(c) && IsMantissaESign(u) {
      var e := |u| - 2;
      assert u[..|u| - 1][..e] == u[..e] == w[..e];
      assert ScientificAt(w, e);
    }
  }

  lemma NothingYet()
    ensures !IsInt([]) && !IsFloat([]) && !IsScientific([]) && !IsMantissaE([]) && !IsMantissaESign([])
  {
  }

  /** The machine is in a state exactly when what it read has the form that belongs to the state; in
      particular it ends in Int, Float or Scientific exactly on the numbers of that kind. */
  lemma {:induction false} StatesAreForms(w: seq<bv8>)
    ensures Run(w) == Start <==> w == []
    ensures Run(w) == S1 <==> |w| == 1 && IsSign(w[0])
    ensures Run(w) == Int <==> IsInt(w)
    ensures Run(w) == Float <==> IsFloat(w)
    ensures Run(w) == S2 <==> IsMantissaE(w)
    ensures Run(w) == Exponent <==> IsMantissaESign(w)
    ensures Run(w) == Scientific <==> IsScientific(w)
  {
    hide IsInt, IsFloat, IsScientific, IsMantissaE, IsMantissaESign;
    if w == [] {
      NothingYet();
    } else {
      var u, c := w[..|w| - 1], w[|w| - 1];
      StatesAreForms(u);
      assert w == u + [c];
      IntSnoc(u, c);
      FloatSnoc(u, c);
      MantissaSnoc(u, c);
      ScientificSnoc(u, c);
      SignSnoc(u, c);
      assert Run(w) == Next(Run(u), c);
      hide Run, Next, IsDigit, IsSign, IsE;
      NextStates(Run(u), c);
    }
  }

  lemma MantissaSnoc(u: seq<bv8>, c: bv8)
    ensures IsMantissaE(u + [c]) <==> IsE(c) && IsFloat(u)
    ensures IsMantissaESign(u + [c]) <==> IsSign(c) && IsMantissaE(u)
  {
    hide IsFloat;
    assert (u + [c])[..|u + [c]| - 1] == u;
  }

  lemma SignSnoc(u: seq<bv8>, c: bv8)
    ensures |u + [c]| == 1 && IsSign((u + [c])[0]) <==> u == [] && IsSign(c)
  {
  }

  /** From which state, on which character, each state is entered. */
  lemma NextStates(st: State, c: bv8)
    ensures Next(st, c) != Start
    ensures Next(st, c) == S1 <==> st == Start && IsSign(c)
    ensures Next(st, c) == Int <==> IsDigit(c) && (st == Int || st == Start || st == S1)
    ensures Next(st, c) == Float <==>
      (IsDigit(c) && st == Float) || (c == DOT && (st == Int || st == Start || st == S1))
    ensures Next(st, c) == S2 <==> IsE(c) && st == Float
    ensures Next(st, c) == Exponent <==> IsSign(c) && st == S2
    ensures Next(st, c) == Scientific <==> IsDigit(c) && (st == Scientific || st == Exponent)
  {
  }

  // ---------------------------------------------------------------- counting

  /** The counters of transition_count. A character rejected in Start counts twice, and one rejected in
      Scientific counts under Invalid. */
  function Counted(cs: seq<nat>, st: State, c: bv8): (ds: seq<nat>)
    requires |cs| == 8
    ensures |ds| == 8
  {
    var bad := Next(st, c) == Invalid;
    match st
    case Start => Plus(if bad then Plus(cs, Invalid) else cs, Start)
    case Scientific => if bad then Plus(cs, Invalid) else cs
    case Invalid => cs
    case _ => if Next(st, c) != st then Plus(cs, st) else cs
  }

  function Plus(cs: seq<nat>, st: State): (ds: seq<nat>)
    requires |cs| == 8
    ensures |ds| == 8
  {
    cs[Code(st) := cs[Code(st)] + 1]
  }

  function Total(cs: seq<nat>): nat
    requires |cs| == 8
  {
    cs[0] + cs[1] + cs[2] + cs[3] + cs[4] + cs[5] + cs[6] + cs[7]
  }

  lemma PlusTotal(cs: seq<nat>, st: State)
    requires |cs| == 8
    ensures Total(Plus(cs, st)) == Total(cs) + 1
  {
  }

  lemma CountedTotal(cs: seq<nat>, st: State, c: bv8)
    requires |cs| == 8
    ensures Total(Counted(cs, st, c)) ==
      Total(cs) + (if Next(st, c) != st then 1 else 0) + (if st == Start && Next(st, c) == Invalid then 1 else 0)
  {
    PlusTotal(cs, st);
    PlusTotal(cs, Invalid);
    PlusTotal(Plus(cs, Invalid), Start);
    hide Total, Plus;
  }

  // ---------------------------------------------------------------- one token

  ghost predicate Terminated(s: seq<bv8>, i: nat) { exists z :: i <= z < |s| && s[z] == 0 }

  /** Where a scan ended: the token is s[p..end], the next one starts at `at`. */
  datatype Outcome = Outcome(end: nat, at: nat, st: State, counts: seq<nat>)

  /** How the scan ends that has reached i in state st. */
  ghost function Scan(s: seq<bv8>, i: nat, st: State, cs: seq<nat>): (o: Outcome)
    requires Terminated(s, i) && |cs| == 8
    ensures i <= o.end <= o.at < |s| && Terminated(s, o.at) && |o.counts| == 8
    decreases |s| - i
  {
    if s[i] == 0 || st == Invalid then Outcome(i, i, st, cs)
    else if s[i] == COMMA then Outcome(i, i + 1, st, cs)
    else Scan(s, i + 1, Next(st, s[i]), Counted(cs, st, s[i]))
  }

  /** State changes while the token s[i..end] is read from state st. */
  ghost function Changes(s: seq<bv8>, i: nat, end: nat, st: State): nat
    requires i <= end <= |s|
    decreases end - i
  {
    if i == end then 0 else (if Next(st, s[i]) != st then 1 else 0) + Changes(s, i + 1, end, Next(st, s[i]))
  }

  /** 1 for a token rejected at its first character. */
  ghost function Rejected(p: nat, o: Outcome): nat { if o.end == p + 1 && o.st == Invalid then 1 else 0 }

  /** What the scan of one token means: the token s[p..end] has neither comma nor terminator, no shorter part
      of it is invalid, and the scan stopped at the terminator, behind a comma, or behind the first
      character that made the token invalid. */
  ghost predicate IsToken(s: seq<bv8>, p: nat, o: Outcome)
  {
    && p <= o.end <= o.at < |s| && o.st == Run(s[p..o.end])
    && (forall x | p <= x < o.end :: s[x] != 0 && s[x] != COMMA)
    && (forall x | p <= x < o.end :: Run(s[p..x]) != Invalid)
    && ((o.at == o.end && (s[o.end] == 0 || o.st == Invalid))
        || (o.at == o.end + 1 && s[o.end] == COMMA && o.st != Invalid))
  }

  lemma {:induction false} ScanFrom(s: seq<bv8>, p: nat, i: nat, st: State, cs: seq<nat>)
    requires p <= i && Terminated(s, i) && |cs| == 8 && st == Run(s[p..i])
    requires forall x | p <= x < i :: s[x] != 0 && s[x] != COMMA && Run(s[p..x]) != Invalid
    ensures var o := Scan(s, i, st, cs);
      && IsToken(s, p, o)
      && Total(o.counts) == Total(cs) + Changes(s, i, o.end, st) + (if i == p then Rejected(p, o) else 0)
    decreases |s| - i
  {
    hide Total, Counted, Run, Next, IsToken;
    if s[i] == 0 || st == Invalid || s[i] == COMMA {
      TokenEnds(s, p, i, st, cs);
    } else {
      RunSnoc(s, p, i);
      StatesAreForms(s[p..i]);
      ScanFrom(s, p, i + 1, Next(st, s[i]), Counted(cs, st, s[i]));
      CountedTotal(cs, st, s[i]);
      OneRejected(s, i, st, p, Scan(s, i, st, cs));
    }
  }

  lemma RunSnoc(s: seq<bv8>, p: nat, i: nat)
    requires p <= i < |s|
    ensures Run(s[p..i + 1]) == Next(Run(s[p..i]), s[i])
  {
    hide Next;
    assert s[p..i + 1][..|s[p..i + 1]| - 1] == s[p..i];
  }

  lemma TokenEnds(s: seq<bv8>, p: nat, i: nat, st: State, cs: seq<nat>)
    requires p <= i && Terminated(s, i) && |cs| == 8 && st == Run(s[p..i])
    requires forall x | p <= x < i :: s[x] != 0 && s[x] != COMMA && Run(s[p..x]) != Invalid
    requires s[i] == 0 || st == Invalid || s[i] == COMMA
    ensures var o := Scan(s, i, st, cs); o.end == i && o.counts == cs && o.st == st && IsToken(s, p, o)
    ensures i == p ==> st != Invalid
  {
    assert i == p ==> s[p..i] == [];
  }

  /** A first character that is rejected ends the token. */
  lemma OneRejected(s: seq<bv8>, i: nat, st: State, p: nat, o: Outcome)
    requires p <= i < o.end && IsToken(s, p, o) && st == Run(s[p..i]) && (st == Start <==> i == p)
    ensures (i == p && Rejected(p, o) == 1) <==> (st == Start && Next(st, s[i]) == Invalid)
  {
    hide Next;
    RunSnoc(s, p, i);
    hide Run;
  }

  /** The scan of one token. */
  lemma ScanMeaning(s: seq<bv8>, p: nat, cs: seq<nat>)
    requires Terminated(s, p) && |cs| == 8
    ensures var o := Scan(s, p, Start, cs);
      && IsToken(s, p, o)
      && (o.st == Int <==> IsInt(s[p..o.end])) && (o.st == Float <==> IsFloat(s[p..o.end]))
      && (o.st == Scientific <==> IsScientific(s[p..o.end]))
      && (s[p] != 0 ==> p < o.at) && (forall x | p <= x < o.at :: s[x] != 0)
      && Total(o.counts) == Total(cs) + Changes(s, p, o.end, Start) + Rejected(p, o)
  {
    hide IsInt, IsFloat, IsScientific, Total, Scan, Changes, Rejected;
    assert s[p..p] == [];
    ScanFrom(s, p, p, Start, cs);
    hide Run;
    StatesAreForms([]);
    StatesAreForms(s[p..Scan(s, p, Start, cs).end]);
  }

  /** transition_count[st]++ or final_counts[st]++. */
  method Bump(counts: array<nat>, st: State)
    requires counts.Length == 8
    modifies counts
    ensures counts[..] == Plus(old(counts[..]), st)
  {
    counts[Code(st)] := counts[Code(st)] + 1;
  }

  /** The switch of core_state_transition. */
  method Step(counts: array<nat>, st: State, c: bv8) returns (next: State)
    requires counts.Length == 8
    modifies counts
    ensures next == Next(st, c) && counts[..] == Counted(old(counts[..]), st, c)
  {
    hide IsDigit, IsSign, IsE, Plus;
    next := st;
    match st
    case Start =>
      if IsDigit(c) {
        next := Int;
      } else if IsSign(c) {
        next := S1;
      } else if c == DOT {
        next := Float;
      } else {
        next := Invalid;
        Bump(counts, Invalid);
      }
      Bump(counts, Start);
    case S1 =>
      if IsDigit(c) {
        next := Int;
        Bump(counts, S1);
      } else if c == DOT {
        next := Float;
        Bump(counts, S1);
      } else {
        next := Invalid;
        Bump(counts, S1);
      }
    case Int =>
      if c == DOT {
        next := Float;
        Bump(counts, Int);
      } else if !IsDigit(c) {
        next := Invalid;
        Bump(counts, Int);
      }
    case Float =>
      if IsE(c) {
        next := S2;
        Bump(counts, Float);
      } else if !IsDigit(c) {
        next := Invalid;
        Bump(counts, Float);
      }
    case S2 =>
      if IsSign(c) {
        next := Exponent;
        Bump(counts, S2);
      } else {
        next := Invalid;
        Bump(counts, S2);
      }
    case Exponent =>
      if IsDigit(c) {
        next := Scientific;
        Bump(counts, Exponent);
      } else {
        next := Invalid;
        Bump(counts, Exponent);
      }
    case Scientific =>
      if !IsDigit(c) {
        next := Invalid;
        Bump(counts, Invalid);
      }
    case Invalid =>
  }

  /** From p the machine reads one token, ends in st behind it at next, and has counted what it left. */
  ghost predicate OneToken(s: seq<bv8>, p: nat, next: nat, st: State, cs: seq<nat>, ds: seq<nat>)
  {
    |cs| == 8 == |ds| && exists end: nat ::
      p <= end <= |s| && IsToken(s, p, Outcome(end, next, st, ds)) && CountsFrom(s, p, p, end, cs, ds)
  }

  lemma TokenScanned(s: seq<bv8>, p: nat, cs: seq<nat>)
    requires Terminated(s, p) && |cs| == 8
    ensures var o := Scan(s, p, Start, cs); OneToken(s, p, o.at, o.st, cs, o.counts)
  {
    hide Run, Scan, CountsFrom, IsToken, Total;
    ScanMeaning(s, p, cs);
    assert s[p..p] == [];
    StatesAreForms([]);
    ScanCounts(s, p, p, Start, cs);
  }

  /** core_state_transition. */
  method Transition(s: seq<bv8>, p: nat, counts: array<nat>) returns (str: nat, state: State)
    requires counts.Length == 8 && Terminated(s, p)
    modifies counts
    ensures var o := Scan(s, p, Start, old(counts[..])); str == o.at && state == o.st && counts[..] == o.counts
    ensures OneToken(s, p, str, state, old(counts[..]), counts[..])
  {
    TokenScanned(s, p, counts[..]);
    hide Counted, Next, OneToken;
    ghost var o := Scan(s, p, Start, counts[..]);
    str, state := p, Start;
    while s[str] != 0 && state != Invalid
      invariant Terminated(s, str) && Scan(s, str, state, counts[..]) == o
      decreases |s| - str
    {
      var symbol := s[str];
      if symbol == COMMA {
        str := str + 1;
        break;
      }
      state := Step(counts, state, symbol);
      str := str + 1;
    }
  }

  // ---------------------------------------------------------------- the whole block

  /** final_counts and transition_count after all tokens from p on. */
  ghost function ScanBlock(s: seq<bv8>, p: nat, fs: seq<nat>, ts: seq<nat>): (r: (seq<nat>, seq<nat>))
    requires Terminated(s, p) && |fs| == 8 == |ts|
    ensures |r.0| == 8 == |r.1|
    decreases |s| - p
  {
    if s[p] == 0 then (fs, ts)
    else
      ScanMeaning(s, p, ts);
      var o := Scan(s, p, Start, ts);
      ScanBlock(s, o.at, Plus(fs, o.st), o.counts)
  }

  /** Tokens, state changes, and tokens rejected at their first character, from p on. */
  ghost function BlockTotals(s: seq<bv8>, p: nat, ts: seq<nat>): (nat, nat, nat)
    requires Terminated(s, p) && |ts| == 8
    decreases |s| - p
  {
    if s[p] == 0 then (0, 0, 0)
    else
      ScanMeaning(s, p, ts);
      var o := Scan(s, p, Start, ts);
      var r := BlockTotals(s, o.at, o.counts);
      (r.0 + 1, r.1 + Changes(s, p, o.end, Start), r.2 + Rejected(p, o))
  }

  /** Every token is counted once by its final state, and the transition counters together count the state
      changes plus the tokens rejected at their first character. */
  lemma {:induction false} BlockCounts(s: seq<bv8>, p: nat, fs: seq<nat>, ts: seq<nat>)
    requires Terminated(s, p) && |fs| == 8 == |ts|
    ensures var r, b := ScanBlock(s, p, fs, ts), BlockTotals(s, p, ts);
      Total(r.0) == Total(fs) + b.0 && Total(r.1) == Total(ts) + b.1 + b.2
    decreases |s| - p
  {
    hide Total, Scan, Changes, Plus;
    if s[p] != 0 {
      ScanMeaning(s, p, ts);
      var o := Scan(s, p, Start, ts);
      PlusTotal(fs, o.st);
      BlockCounts(s, o.at, Plus(fs, o.st), o.counts);
    }
  }

  // ---------------------------------------------------------------- what each counter counts

  /** A token s[start..end] of the block; the next one starts at next. */
  datatype Token = Token(start: nat, end: nat, next: nat)

  /** ts are the tokens of s from p on, in order. */
  ghost predicate Cut(s: seq<bv8>, p: nat, ts: seq<Token>)
    decreases ts
  {
    p < |s| &&
    if s[p] == 0 then ts == []
    else
      && ts != [] && ts[0].start == p && p <= ts[0].end <= ts[0].next < |s|
      && IsToken(s, p, Outcome(ts[0].end, ts[0].next, Run(s[p..ts[0].end]), []))
      && Cut(s, ts[0].next, ts[1..])
  }

  /** Every block is cut in one way. */
  lemma {:induction false} CutUnique(s: seq<bv8>, p: nat, ts: seq<Token>, us: seq<Token>)
    requires Cut(s, p, ts) && Cut(s, p, us)
    ensures ts == us
    decreases ts
  {
    hide Run;
    if ts != [] {
      TokenUnique(s, p, ts[0].end, ts[0].next, us[0].end, us[0].next);
      CutUnique(s, ts[0].next, ts[1..], us[1..]);
    }
  }

  lemma TokenUnique(s: seq<bv8>, p: nat, e: nat, n: nat, e': nat, n': nat)
    requires p <= e <= n < |s| && p <= e' <= n' < |s|
    requires IsToken(s, p, Outcome(e, n, Run(s[p..e]), [])) && IsToken(s, p, Outcome(e', n', Run(s[p..e']), []))
    ensures e == e' && n == n'
  {
    hide Run;
  }

  ghost function Tokens(s: seq<bv8>, p: nat): (ts: seq<Token>)
    requires Terminated(s, p)
    decreases |s| - p
  {
    if s[p] == 0 then []
    else
      ScanMeaning(s, p, Zeros());
      var o := Scan(s, p, Start, Zeros());
      [Token(p, o.end, o.at)] + Tokens(s, o.at)
  }

  /** And the scanning loop finds that cut. */
  lemma {:induction false} TokensCut(s: seq<bv8>, p: nat)
    requires Terminated(s, p)
    ensures Cut(s, p, Tokens(s, p))
    decreases |s| - p
  {
    hide Run, Scan, Total;
    InBlock(s, p);
    if s[p] != 0 {
      ScanMeaning(s, p, Zeros());
      TokensCut(s, Scan(s, p, Start, Zeros()).at);
    }
  }

  /** How many of the tokens leave the machine in state st. */
  ghost function Ending(s: seq<bv8>, ts: seq<Token>, st: State): nat
  {
    if ts == [] then 0
    else
      var t := ts[0];
      (if t.start <= t.end <= |s| && Run(s[t.start..t.end]) == st then 1 else 0) + Ending(s, ts[1..], st)
  }

  /** At how many of the characters s[i..end] the machine, started at p, leaves state st. */
  ghost function LeavingIn(s: seq<bv8>, p: nat, i: nat, end: nat, st: State): nat
    requires p <= i <= end <= |s|
    decreases end - i
  {
    if i == end then 0
    else (if Run(s[p..i]) == st && Run(s[p..i + 1]) != st then 1 else 0) + LeavingIn(s, p, i + 1, end, st)
  }

  ghost function Leaving(s: seq<bv8>, ts: seq<Token>, st: State): nat
  {
    if ts == [] then 0
    else
      var t := ts[0];
      (if t.start <= t.end <= |s| then LeavingIn(s, t.start, t.start, t.end, st) else 0) + Leaving(s, ts[1..], st)
  }

  /** Tokens whose first character is rejected. */
  ghost function RejectedAtOnce(s: seq<bv8>, ts: seq<Token>): nat
  {
    if ts == [] then 0
    else
      var t := ts[0];
      (if t.start < t.end <= |s| && Run(s[t.start..t.start + 1]) == Invalid then 1 else 0) + RejectedAtOnce(s, ts[1..])
  }

  /** One character: each transition counter counts the leavings of its own state, except that what leaves
      SCIENTIFIC, and a first character that is rejected, count under INVALID. */
  lemma CountedAt(cs: seq<nat>, st: State, c: bv8)
    requires |cs| == 8
    ensures var ds, n := Counted(cs, st, c), Next(st, c);
      && ds[0] == cs[0] + (if st == Start && n != st then 1 else 0)
      && ds[1] == cs[1] + (if st == Scientific && n != st then 1 else 0)
                  + (if st == Start && n == Invalid then 1 else 0)
      && ds[2] == cs[2] + (if st == S1 && n != st then 1 else 0)
      && ds[3] == cs[3] + (if st == S2 && n != st then 1 else 0)
      && ds[4] == cs[4] + (if st == Int && n != st then 1 else 0)
      && ds[5] == cs[5] + (if st == Float && n != st then 1 else 0)
      && ds[6] == cs[6] + (if st == Exponent && n != st then 1 else 0)
      && ds[7] == cs[7]
  {
    hide IsDigit, IsSign, IsE;
  }

  ghost predicate CountsFrom(s: seq<bv8>, p: nat, i: nat, end: nat, cs: seq<nat>, ds: seq<nat>)
    requires p <= i <= end <= |s| && |cs| == 8 == |ds|
  {
    && ds[0] == cs[0] + LeavingIn(s, p, i, end, Start)
    && ds[1] == cs[1] + LeavingIn(s, p, i, end, Scientific)
                + (if i == p && i < end && Run(s[p..p + 1]) == Invalid then 1 else 0)
    && ds[2] == cs[2] + LeavingIn(s, p, i, end, S1)
    && ds[3] == cs[3] + LeavingIn(s, p, i, end, S2)
    && ds[4] == cs[4] + LeavingIn(s, p, i, end, Int)
    && ds[5] == cs[5] + LeavingIn(s, p, i, end, Float)
    && ds[6] == cs[6] + LeavingIn(s, p, i, end, Exponent)
    && ds[7] == cs[7]
  }

  lemma {:induction false} ScanCounts(s: seq<bv8>, p: nat, i: nat, st: State, cs: seq<nat>)
    requires p <= i && Terminated(s, i) && |cs| == 8 && st == Run(s[p..i])
    ensures CountsFrom(s, p, i, Scan(s, i, st, cs).end, cs, Scan(s, i, st, cs).counts)
    decreases |s| - i
  {
    hide Counted, Run, Next;
    if s[i] == 0 || st == Invalid || s[i] == COMMA {
      assert Scan(s, i, st, cs).end == i;
    } else {
      RunSnoc(s, p, i);
      CountedAt(cs, st, s[i]);
      ScanCounts(s, p, i + 1, Next(st, s[i]), Counted(cs, st, s[i]));
      StatesAreForms(s[p..i]);
      CountsStep(s, p, i, Scan(s, i, st, cs).end, st, cs, Scan(s, i, st, cs).counts);
    }
  }

  lemma CountsStep(s: seq<bv8>, p: nat, i: nat, end: nat, st: State, cs: seq<nat>, ds: seq<nat>)
    requires p <= i < end <= |s| && |cs| == 8 == |ds| && st == Run(s[p..i]) && Run(s[p..i + 1]) == Next(st, s[i])
    requires st == Start <==> s[p..i] == []
    requires CountsFrom(s, p, i + 1, end, Counted(cs, st, s[i]), ds)
    ensures CountsFrom(s, p, i, end, cs, ds)
  {
    hide Counted, Run, Next;
    CountedAt(cs, st, s[i]);
    assert s[p..i] == [] <==> i == p;
  }

  /** Over a whole block, by the position of the state in the enumeration: each final counter counts the tokens
      that end in that state, each transition counter the places where the machine leaves it, but the places
      where it leaves SCIENTIFIC, and the tokens rejected at once, count under INVALID. */
  lemma {:induction false} EachCounter(s: seq<bv8>, p: nat, fs: seq<nat>, tr: seq<nat>, ts: seq<Token>)
    requires Terminated(s, p) && |fs| == 8 == |tr| && Cut(s, p, ts)
    ensures var r := ScanBlock(s, p, fs, tr);
      && r.0[0] == fs[0] + Ending(s, ts, Start) && r.1[0] == tr[0] + Leaving(s, ts, Start)
      && r.0[1] == fs[1] + Ending(s, ts, Invalid)
      && r.1[1] == tr[1] + Leaving(s, ts, Scientific) + RejectedAtOnce(s, ts)
      && r.0[2] == fs[2] + Ending(s, ts, S1) && r.1[2] == tr[2] + Leaving(s, ts, S1)
      && r.0[3] == fs[3] + Ending(s, ts, S2) && r.1[3] == tr[3] + Leaving(s, ts, S2)
      && r.0[4] == fs[4] + Ending(s, ts, Int) && r.1[4] == tr[4] + Leaving(s, ts, Int)
      && r.0[5] == fs[5] + Ending(s, ts, Float) && r.1[5] == tr[5] + Leaving(s, ts, Float)
      && r.0[6] == fs[6] + Ending(s, ts, Exponent) && r.1[6] == tr[6] + Leaving(s, ts, Exponent)
      && r.0[7] == fs[7] + Ending(s, ts, Scientific) && r.1[7] == tr[7]
    decreases |s| - p
  {
    hide Scan, Run, IsToken, Total, LeavingIn;
    if s[p] != 0 {
      ScanMeaning(s, p, tr);
      var o := Scan(s, p, Start, tr);
      SameToken(s, p, o, ts[0]);
      assert s[p..p] == [];
      StatesAreForms([]);
      ScanCounts(s, p, p, Start, tr);
      PlusAt(fs, o.st);
      EachCounter(s, o.at, Plus(fs, o.st), o.counts, ts[1..]);
      hide Plus, ScanBlock;
    }
  }

  lemma SameToken(s: seq<bv8>, p: nat, o: Outcome, t: Token)
    requires IsToken(s, p, o) && p <= t.end <= t.next < |s|
    requires IsToken(s, p, Outcome(t.end, t.next, Run(s[p..t.end]), []))
    ensures o.end == t.end && o.at == t.next && o.st == Run(s[p..t.end])
  {
    hide Run;
  }

  lemma PlusAt(cs: seq<nat>, st: State)
    requires |cs| == 8
    ensures var ds := Plus(cs, st);
      && ds[0] == cs[0] + (if st == Start then 1 else 0) && ds[1] == cs[1] + (if st == Invalid then 1 else 0)
      && ds[2] == cs[2] + (if st == S1 then 1 else 0) && ds[3] == cs[3] + (if st == S2 then 1 else 0)
      && ds[4] == cs[4] + (if st == Int then 1 else 0) && ds[5] == cs[5] + (if st == Float then 1 else 0)
      && ds[6] == cs[6] + (if st == Exponent then 1 else 0) && ds[7] == cs[7] + (if st == Scientific then 1 else 0)
  {
  }

  /** One of the two scanning loops of core_bench_state. */
  method ScanAll(s: seq<bv8>, finals: array<nat>, tracks: array<nat>)
    requires finals != tracks && finals.Length == 8 == tracks.Length && Terminated(s, 0)
    modifies finals, tracks
    ensures (finals[..], tracks[..]) == ScanBlock(s, 0, old(finals[..]), old(tracks[..]))
  {
    hide Scan, Plus, Terminated;
    ghost var r := ScanBlock(s, 0, finals[..], tracks[..]);
    var p := 0;
    InBlock(s, p);
    while s[p] != 0
      invariant p < |s| && Terminated(s, p) && ScanBlock(s, p, finals[..], tracks[..]) == r
      decreases |s| - p
    {
      ScanMeaning(s, p, tracks[..]);
      ghost var fs, o := finals[..], Scan(s, p, Start, tracks[..]);
      var q, st := Transition(s, p, tracks);
      assert finals[..] == fs;
      Bump(finals, st);
      assert tracks[..] == o.counts;
      p := q;
      InBlock(s, p);
    }
  }

  lemma InBlock(s: seq<bv8>, p: nat)
    requires Terminated(s, p)
    ensures p < |s|
  {
  }

  // ---------------------------------------------------------------- corrupting and repairing

  ghost predicate Visited(x: nat, step: nat)
    requires step >= 1
  {
    x % step == 0
  }

  /** Every visited byte other than a comma is xored with the seed. */
  ghost function Flipped(s: seq<bv8>, seed: bv8, step: nat): (t: seq<bv8>)
    requires step >= 1
    ensures |t| == |s|
  {
    seq(|s|, x requires 0 <= x < |s| => if Visited(x, step) && s[x] != COMMA then s[x] ^ seed else s[x])
  }

  /** At every multiple of the step. */
  lemma FlippedAt(s: seq<bv8>, seed: bv8, step: nat, x: nat)
    requires step >= 1 && x < |s|
    ensures (exists k: nat :: x == Times(k, step)) && s[x] as int != ',' as int ==>
      Flipped(s, seed, step)[x] == s[x] ^ seed
    ensures (forall k: nat :: x != Times(k, step)) || s[x] as int == ',' as int ==> Flipped(s, seed, step)[x] == s[x]
  {
    Characters(s[x]);
    if exists k: nat :: x == Times(k, step) {
      var k: nat :| x == Times(k, step);
      ModUnique(x, step, k, 0);
    } else {
      assert x != Times(x / step, step);
    }
  }

  function Times(k: nat, step: nat): nat { k * step }

  lemma VisitedNext(p: nat, step: nat)
    requires step >= 1 && Visited(p, step)
    ensures Visited(p + step, step) && forall x | p < x < p + step :: !Visited(x, step)
  {
    var k := p / step;
    assert p == k * step && p + step == (k + 1) * step;
    ModUnique(p + step, step, k + 1, 0);
    forall x | p < x < p + step ensures !Visited(x, step) { ModUnique(x, step, k, x - p); }
  }

  /** The corrupting loop, and with the other seed the repairing one. */
  method Flip(mem: array<bv8>, seed: bv8, step: nat)
    requires step >= 1
    modifies mem
    ensures mem[..] == Flipped(old(mem[..]), seed, step)
  {
    hide Visited;
    ghost var s, t := mem[..], Flipped(mem[..], seed, step);
    ZeroVisited(step);
    var p := 0;
    while p < mem.Length
      invariant Visited(p, step)
      invariant forall x | 0 <= x < mem.Length :: mem[x] == if x < p then t[x] else s[x]
      decreases mem.Length - p
    {
      VisitedNext(p, step);
      if mem[p] != COMMA {
        mem[p] := mem[p] ^ seed;
      }
      p := p + step;
    }
  }

  lemma ZeroVisited(step: nat)
    requires step >= 1
    ensures Visited(0, step)
  {
  }

  /** Corrupting twice with the same seed restores the block exactly when no visited byte that is not a comma
      becomes one. */
  lemma FlipTwice(s: seq<bv8>, seed: bv8, step: nat)
    requires step >= 1
    ensures Flipped(Flipped(s, seed, step), seed, step) == s <==>
      forall x | 0 <= x < |s| && Visited(x, step) && s[x] != COMMA :: s[x] ^ seed != COMMA
  {
    hide Visited;
    var t := Flipped(s, seed, step);
    var u := Flipped(t, seed, step);
    forall x | 0 <= x < |s|
      ensures u[x] == s[x] <==> !(Visited(x, step) && s[x] != COMMA && s[x] ^ seed == COMMA)
    {
      XorBack(s[x], seed);
    }
    if u == s {
      forall x | 0 <= x < |s| && Visited(x, step) && s[x] != COMMA ensures s[x] ^ seed != COMMA { assert u[x] == s[x]; }
    }
  }

  lemma XorBack(x: bv8, seed: bv8)
    ensures (x ^ seed) ^ seed == x
  {
  }

  // ---------------------------------------------------------------- core_bench_state

  /** A counter as a 32-bit word. */
  function Word(n: nat): bv32 { (n % 0x1_0000_0000) as bv32 }

  /** The CRC after the first k pairs of counters. */
  ghost function CountCrc(fs: seq<nat>, ts: seq<nat>, k: nat, crc: bv16): bv16
    requires k <= |fs| == |ts|
  {
    if k == 0 then crc else FeedWord(Word(ts[k - 1]), FeedWord(Word(fs[k - 1]), CountCrc(fs, ts, k - 1, crc)))
  }

  ghost function FeedWord(v: bv32, crc: bv16): bv16 { Crc.Stream([Crc.LowHalf(v), Crc.HighHalf(v)], crc) }

  ghost function Zeros(): (z: seq<nat>)
    ensures |z| == 8
  {
    [0, 0, 0, 0, 0, 0, 0, 0]
  }

  /** The counters after both scans. */
  ghost function BothScans(s: seq<bv8>, t: seq<bv8>): (r: (seq<nat>, seq<nat>))
    requires Terminated(s, 0) && Terminated(t, 0)
    ensures |r.0| == 8 == |r.1|
  {
    var r := ScanBlock(s, 0, Zeros(), Zeros());
    ScanBlock(t, 0, r.0, r.1)
  }

  ghost predicate TwoCuts(s: seq<bv8>, t: seq<bv8>, ts: seq<Token>, us: seq<Token>, fs: seq<nat>, tr: seq<nat>)
    requires |fs| == 8 == |tr|
  {
    && fs[0] == Ending(s, ts, Start) + Ending(t, us, Start)
    && fs[1] == Ending(s, ts, Invalid) + Ending(t, us, Invalid)
    && fs[2] == Ending(s, ts, S1) + Ending(t, us, S1)
    && fs[3] == Ending(s, ts, S2) + Ending(t, us, S2)
    && fs[4] == Ending(s, ts, Int) + Ending(t, us, Int)
    && fs[5] == Ending(s, ts, Float) + Ending(t, us, Float)
    && fs[6] == Ending(s, ts, Exponent) + Ending(t, us, Exponent)
    && fs[7] == Ending(s, ts, Scientific) + Ending(t, us, Scientific)
    && tr[0] == Leaving(s, ts, Start) + Leaving(t, us, Start)
    && tr[1] == Leaving(s, ts, Scientific) + RejectedAtOnce(s, ts)
                + Leaving(t, us, Scientific) + RejectedAtOnce(t, us)
    && tr[2] == Leaving(s, ts, S1) + Leaving(t, us, S1)
    && tr[3] == Leaving(s, ts, S2) + Leaving(t, us, S2)
    && tr[4] == Leaving(s, ts, Int) + Leaving(t, us, Int)
    && tr[5] == Leaving(s, ts, Float) + Leaving(t, us, Float)
    && tr[6] == Leaving(s, ts, Exponent) + Leaving(t, us, Exponent)
    && tr[7] == 0
  }

  /** The counters of both blocks together, by the position of the state in the enumeration. */
  ghost predicate TwoBlocks(s: seq<bv8>, t: seq<bv8>, fs: seq<nat>, tr: seq<nat>)
  {
    |fs| == 8 == |tr| && forall ts, us | Cut(s, 0, ts) && Cut(t, 0, us) :: TwoCuts(s, t, ts, us, fs, tr)
  }

  /** The counters fed to the CRC are those. */
  lemma BothCounters(s: seq<bv8>, t: seq<bv8>)
    requires Terminated(s, 0) && Terminated(t, 0)
    ensures TwoBlocks(s, t, BothScans(s, t).0, BothScans(s, t).1)
  {
    hide ScanBlock, Cut, Ending, Leaving, RejectedAtOnce, Terminated;
    var r := ScanBlock(s, 0, Zeros(), Zeros());
    forall ts, us | Cut(s, 0, ts) && Cut(t, 0, us)
      ensures TwoCuts(s, t, ts, us, BothScans(s, t).0, BothScans(s, t).1)
    {
      EachCounter(s, 0, Zeros(), Zeros(), ts);
      EachCounter(t, 0, r.0, r.1, us);
    }
  }

  /** For each state its final and then its transition counter, the low half of each first. */
  ghost predicate CounterWords(fs: seq<nat>, ts: seq<nat>, ws: seq<bv16>)
  {
    && |fs| == 8 == |ts| && |ws| == 32
    && forall i: nat | i < 8 ::
         && ws[4 * i] == Crc.LowHalf(Word(fs[i])) && ws[4 * i + 1] == Crc.HighHalf(Word(fs[i]))
         && ws[4 * i + 2] == Crc.LowHalf(Word(ts[i])) && ws[4 * i + 3] == Crc.HighHalf(Word(ts[i]))
  }

  lemma SomeWords(fs: seq<nat>, ts: seq<nat>) returns (ws: seq<bv16>)
    requires |fs| == 8 == |ts|
    ensures CounterWords(fs, ts, ws)
  {
    hide Crc.LowHalf, Crc.HighHalf, Word, WordAt;
    ws := seq(32, x requires 0 <= x < 32 => WordAt(fs, ts, x));
    forall i: nat | i < 8
      ensures ws[4 * i] == Crc.LowHalf(Word(fs[i])) && ws[4 * i + 1] == Crc.HighHalf(Word(fs[i]))
      ensures ws[4 * i + 2] == Crc.LowHalf(Word(ts[i])) && ws[4 * i + 3] == Crc.HighHalf(Word(ts[i]))
    {
      WordsAt(fs, ts, i);
    }
  }

  ghost function WordAt(fs: seq<nat>, ts: seq<nat>, x: nat): bv16
    requires x < 32 && |fs| == 8 == |ts|
  {
    var i, k := x / 4, x % 4;
    if k == 0 then Crc.LowHalf(Word(fs[i])) else if k == 1 then Crc.HighHalf(Word(fs[i]))
    else if k == 2 then Crc.LowHalf(Word(ts[i])) else Crc.HighHalf(Word(ts[i]))
  }

  lemma WordsAt(fs: seq<nat>, ts: seq<nat>, i: nat)
    requires i < 8 && |fs| == 8 == |ts|
    ensures WordAt(fs, ts, 4 * i) == Crc.LowHalf(Word(fs[i])) && WordAt(fs, ts, 4 * i + 1) == Crc.HighHalf(Word(fs[i]))
    ensures WordAt(fs, ts, 4 * i + 2) == Crc.LowHalf(Word(ts[i])) && WordAt(fs, ts, 4 * i + 3) == Crc.HighHalf(Word(ts[i]))
  {
    hide Crc.LowHalf, Crc.HighHalf, Word;
  }

  /** The CRC is that of the stream of 16-bit words of the counters. */
  lemma CounterStream(fs: seq<nat>, ts: seq<nat>, crc: bv16, ws: seq<bv16>)
    requires CounterWords(fs, ts, ws)
    ensures CountCrc(fs, ts, 8, crc) == Crc.Stream(ws, crc)
  {
    hide Crc.LowHalf, Crc.HighHalf, Word, Crc.Stream, CountCrc;
    CounterPrefix(fs, ts, 8, crc, ws);
    assert ws[..32] == ws;
  }

  lemma {:induction false} CounterPrefix(fs: seq<nat>, ts: seq<nat>, k: nat, crc: bv16, ws: seq<bv16>)
    requires CounterWords(fs, ts, ws) && k <= 8
    ensures CountCrc(fs, ts, k, crc) == Crc.Stream(ws[..4 * k], crc)
  {
    hide Crc.LowHalf, Crc.HighHalf, Word, Crc.Crc16Of;
    if k > 0 {
      CounterPrefix(fs, ts, k - 1, crc, ws);
      hide Crc.Stream;
      var u, v := ws[4 * (k - 1)..4 * (k - 1) + 2], ws[4 * (k - 1) + 2..4 * k];
      assert ws[..4 * k] == ws[..4 * (k - 1)] + (u + v);
      assert u == [Crc.LowHalf(Word(fs[k - 1])), Crc.HighHalf(Word(fs[k - 1]))];
      assert v == [Crc.LowHalf(Word(ts[k - 1])), Crc.HighHalf(Word(ts[k - 1]))];
      Crc.StreamSplit(ws[..4 * (k - 1)], u + v, crc);
      Crc.StreamSplit(u, v, Crc.Stream(ws[..4 * (k - 1)], crc));
    } else {
      assert ws[..0] == [];
    }
  }

  /** core_bench_state on a block of mem.Length bytes. */
  method BenchState(mem: array<bv8>, seed1: bv16, seed2: bv16, step: nat, crc0: bv16) returns (crc: bv16)
    requires step >= 1 && Terminated(mem[..], 0) && Terminated(Flipped(mem[..], Crc.Low(seed1), step), 0)
    modifies mem
    ensures mem[..] == Flipped(Flipped(old(mem[..]), Crc.Low(seed1), step), Crc.Low(seed2), step)
    ensures var r := BothScans(old(mem[..]), Flipped(old(mem[..]), Crc.Low(seed1), step));
      crc == CountCrc(r.0, r.1, 8, crc0)
    ensures exists fs, ts, ws ::
      && TwoBlocks(old(mem[..]), Flipped(old(mem[..]), Crc.Low(seed1), step), fs, ts)
      && CounterWords(fs, ts, ws) && crc == Crc.Stream(ws, crc0)
  {
    hide Flipped, Terminated, ScanBlock, Crc.Low, Word, TwoBlocks, CounterWords, Crc.Stream;
    ghost var s, t := mem[..], Flipped(mem[..], Crc.Low(seed1), step);
    var finals, tracks := new nat[8], new nat[8];
    var i := 0;
    while i < 8
      invariant i <= 8 && mem[..] == s && forall x | 0 <= x < i :: finals[x] == 0 == tracks[x]
    {
      finals[i], tracks[i] := 0, 0;
      i := i + 1;
    }
    assert finals[..] == Zeros() && tracks[..] == Zeros();
    ScanAll(mem[..], finals, tracks);
    Flip(mem, Crc.Low(seed1), step);
    assert mem[..] == t;
    ScanAll(mem[..], finals, tracks);
    Flip(mem, Crc.Low(seed2), step);
    crc := crc0;
    i := 0;
    ghost var fs, ts, u := finals[..], tracks[..], mem[..];
    while i < 8
      invariant i <= 8 && crc == CountCrc(fs, ts, i, crc0) && finals[..] == fs && tracks[..] == ts && mem[..] == u
    {
      crc := Crc.CrcU32(Word(finals[i]), crc);
      crc := Crc.CrcU32(Word(tracks[i]), crc);
      i := i + 1;
    }
    BothCounters(s, t);
    ghost var ws := SomeWords(fs, ts);
    CounterStream(fs, ts, crc0, ws);
  }
}
