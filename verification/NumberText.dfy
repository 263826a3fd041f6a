/** ee_printf.c's number and skip_atoi against core_util.c's parseval. */
module NumberText {
  // long is 32 bits wide.

  import opened Words

  const M: nat := 0x1_0000_0000
  const NUL: char := '\0'
  const LOWER: string := "0123456789abcdefghijklmnopqrstuvwxyz"
  const UPPER: string := "0123456789ABCDEFGHIJKLMNOPQRSTUVWXYZ"

  type Long = x: int | -0x8000_0000 <= x < 0x8000_0000

  datatype Flags = Flags(zeropad: bool, sign: bool, plus: bool, space: bool, left: bool, hexPrep: bool, uppercase: bool)
  datatype Option<T> = None | Some(value: T)

  function Max(x: int, y: int): int { if x < y then y else x }

  // ---------------------------------------------------------------- digits

  function Table(upper: bool): string { if upper then UPPER else LOWER }

  function DigitChar(d: nat, upper: bool): char
    requires d < 36
  {
    Table(upper)[d]
  }

  /** The digits of u > 0, most significant first; none for 0. */
  ghost function DigitsOf(u: nat, base: nat, upper: bool): string
    requires 2 <= base <= 36
  {
    if u == 0 then [] else
      Smaller(u, base);
      DigitsOf(u / base, base, upper) + [DigitChar(u % base, upper)]
  }

  lemma Smaller(u: nat, base: nat)
    requires u > 0 && base >= 2
    ensures 0 <= u / base < u && 0 <= u % base < base && u == base * (u / base) + u % base
  {
  }

  ghost function Repeat(c: char, n: int): (s: string)
    ensures |s| == Max(n, 0) && forall x | 0 <= x < |s| :: s[x] == c
  {
    if n <= 0 then [] else Repeat(c, n - 1) + [c]
  }

  ghost function Backwards(s: string): (t: string)
    ensures |t| == |s|
  {
    if s == [] then [] else [s[|s| - 1]] + Backwards(s[..|s| - 1])
  }

  // ---------------------------------------------------------------- what number prints

  ghost function SignOf(num: Long, f: Flags): string
  {
    if !f.sign then "" else if num < 0 then "-" else if f.plus then "+" else if f.space then " " else ""
  }

  ghost function PrefixOf(base: nat, f: Flags): string
  {
    if f.hexPrep && base == 16 then "0x" else if f.hexPrep && base == 8 then "0" else ""
  }

  /** The number whose digits are printed. */
  function Magnitude(num: Long, f: Flags): (u: nat)
    ensures u < M
  {
    var n: int := num;
    if n >= 0 then n else if f.sign then -n else n + M
  }

  ghost function Numeral(u: nat, base: nat, upper: bool): (s: string)
    requires 2 <= base <= 36
    ensures |s| >= 1
  {
    if u == 0 then "0" else DigitsOf(u, base, upper)
  }

  /** Padding goes in front as blanks, behind the prefix as zeros, or at the end as blanks. */
  ghost function Lead(gap: int, f: Flags): string { if f.left || f.zeropad then "" else Repeat(' ', gap) }
  ghost function Middle(gap: int, f: Flags): string { if !f.left && f.zeropad then Repeat('0', gap) else "" }
  ghost function Tail(gap: int, f: Flags): string { if f.left then Repeat(' ', gap) else "" }

  /** Sign, prefix, zeros up to the precision, digits, and padding up to the field width. */
  ghost function Rendered(num: Long, base: nat, size: int, precision: int, f: Flags): string
    requires 2 <= base <= 36
  {
    var ds := Numeral(Magnitude(num, f), base, f.uppercase);
    var zeros := Repeat('0', precision - |ds|);
    var gap := size - (|SignOf(num, f)| + |PrefixOf(base, f)| + |zeros| + |ds|);
    Lead(gap, f) + SignOf(num, f) + PrefixOf(base, f) + Middle(gap, f) + zeros + ds + Tail(gap, f)
  }

  /** number emits the larger of the field width and sign, prefix and max(digits, precision). */
  lemma RenderedLength(num: Long, base: nat, size: int, precision: int, f: Flags)
    requires 2 <= base <= 36
    ensures |Rendered(num, base, size, precision, f)| ==
      Max(size, |SignOf(num, f)| + |PrefixOf(base, f)|
                + Max(precision, |Numeral(Magnitude(num, f), base, f.uppercase)|))
  {
    hide Numeral, SignOf, PrefixOf, Magnitude, Repeat;
  }

  // ---------------------------------------------------------------- what the printed text looks like

  /** c is a digit of the base in the case asked for. */
  predicate IsDigitOf(c: char, base: nat, upper: bool)
  {
    || ('0' <= c <= '9' && c as int - '0' as int < base)
    || (upper && 'A' <= c <= 'Z' && c as int - 'A' as int + 10 < base)
    || (!upper && 'a' <= c <= 'z' && c as int - 'a' as int + 10 < base)
  }

  function DigitValue(c: char): int
  {
    if '0' <= c <= '9' then c as int - '0' as int
    else if 'A' <= c <= 'Z' then c as int - 'A' as int + 10
    else c as int - 'a' as int + 10
  }

  ghost predicate AllDigits(s: string, base: nat, upper: bool)
  {
    forall x | 0 <= x < |s| :: IsDigitOf(s[x], base, upper)
  }

  ghost predicate AllBlank(s: string) { forall x | 0 <= x < |s| :: s[x] == ' ' }

  ghost function Worth(s: string, base: nat): int
  {
    if s == [] then 0 else Worth(s[..|s| - 1], base) * base + DigitValue(s[|s| - 1])
  }

  function Power(base: nat, n: nat): nat { if n == 0 then 1 else base * Power(base, n - 1) }

  /** u takes n digits. */
  predicate TakesDigits(u: nat, base: nat, n: nat)
  {
    n >= 1 && u < Power(base, n) && (n == 1 || Power(base, n - 1) <= u)
  }

  /** Minus for a negative number, and for others plus or a blank if asked for; none of an unsigned one. */
  predicate IsSign(sign: string, num: Long, f: Flags)
  {
    sign == if !f.sign then "" else if num < 0 then "-" else if f.plus then "+" else if f.space then " " else ""
  }

  predicate IsPrefix(prefix: string, base: nat, f: Flags)
  {
    prefix == if f.hexPrep && base == 16 then "0x" else if f.hexPrep && base == 8 then "0" else ""
  }

  /** Blanks, a sign, a prefix, digits and blanks, and how long each part is. */
  ghost predicate Parts(text: string, num: Long, base: nat, size: int, precision: int, f: Flags,
                        lead: string, sign: string, prefix: string, digits: string, tail: string, n: nat)
  {
    var m: int := num;
    var u := if m >= 0 then m else if f.sign then -m else m + 0x1_0000_0000;
    && text == lead + sign + prefix + digits + tail
    && AllBlank(lead) && AllBlank(tail)
    && IsSign(sign, num, f) && IsPrefix(prefix, base, f)
    && AllDigits(digits, base, f.uppercase) && Worth(digits, base) == u >= 0 && TakesDigits(u, base, n)
    && Lengths(size, precision, f, |lead|, |sign| + |prefix|, |digits|, |tail|, n)
  }

  /** The text is as long as the field, or as sign, prefix and digits if they are longer; only one of leading blanks,
      zeros and trailing blanks fills the field. */
  predicate Lengths(size: int, precision: int, f: Flags, lead: nat, head: nat, digits: nat, tail: nat, n: nat)
  {
    && lead + head + digits + tail == Max(size, head + Max(precision, n))
    && (if f.left then lead == 0 && digits == Max(precision, n)
        else if f.zeropad then lead == 0 == tail
        else tail == 0 && digits == Max(precision, n))
  }

  ghost predicate PrintsAs(text: string, num: Long, base: nat, size: int, precision: int, f: Flags)
  {
    exists lead, sign, prefix, digits, tail, n ::
      Parts(text, num, base, size, precision, f, lead, sign, prefix, digits, tail, n)
  }

  lemma DigitShown(d: nat, base: nat, upper: bool)
    requires d < base <= 36
    ensures IsDigitOf(DigitChar(d, upper), base, upper) && DigitValue(DigitChar(d, upper)) == d
  {
    if upper { UpperTable(); } else { LowerTable(); }
  }

  lemma LowerTable()
    ensures forall d: nat | d < 36 :: LOWER[d] as int == if d < 10 then '0' as int + d else 'a' as int + d - 10
  {
  }

  lemma UpperTable()
    ensures forall d: nat | d < 36 :: UPPER[d] as int == if d < 10 then '0' as int + d else 'A' as int + d - 10
  {
  }

  lemma WorthSnoc(s: string, c: char, base: nat)
    ensures Worth(s + [c], base) == Worth(s, base) * base + DigitValue(c)
  {
    hide DigitValue;
    assert (s + [c])[..|s|] == s;
  }

  lemma {:induction false} DigitsWorth(u: nat, base: nat, upper: bool)
    requires 2 <= base <= 36
    ensures AllDigits(DigitsOf(u, base, upper), base, upper) && Worth(DigitsOf(u, base, upper), base) == u
    ensures u > 0 ==> TakesDigits(u, base, |DigitsOf(u, base, upper)|)
  {
    hide DigitChar, DigitValue, IsDigitOf, Worth, Power;
    if u > 0 {
      Smaller(u, base);
      DigitsWorth(u / base, base, upper);
      DigitShown(u % base, base, upper);
      DigitsStep(u, base, upper);
      var ds := DigitsOf(u / base, base, upper);
      WorthSnoc(ds, DigitChar(u % base, upper), base);
      Commute(u / base, base);
      OneMoreDigit(u, base, |ds|);
      if u / base == 0 { NoDigits(base, upper); }
    } else {
      NoDigits(base, upper);
      WorthNone(base);
    }
  }

  lemma WorthNone(base: nat)
    ensures Worth("", base) == 0
  {
  }

  lemma Commute(a: int, b: int)
    ensures a * b == b * a
  {
  }

  lemma OneMoreDigit(u: nat, base: nat, n: nat)
    requires u > 0 && base >= 2
    requires if u / base == 0 then n == 0 else TakesDigits(u / base, base, n)
    ensures TakesDigits(u, base, n + 1)
  {
    hide Power;
    Smaller(u, base);
    var q, r := u / base, u % base;
    PowerStep(base, n);
    PowerStep(base, 0);
    if q == 0 {
      NoQuotient(base, r);
    } else {
      BelowNext(base, q, r, Power(base, n));
      if n > 1 {
        PowerStep(base, n - 1);
        AboveLast(base, q, r, Power(base, n - 1));
      } else {
        AboveLast(base, q, r, 1);
      }
    }
  }

  lemma NoQuotient(base: nat, r: nat)
    ensures base * 0 + r == r && base * 1 == base
  {
  }

  lemma BelowNext(base: nat, q: nat, r: nat, p: nat)
    requires q < p && r < base
    ensures base * q + r < base * p
  {
    Times(base, q + 1, p);
    Times(base, q, q);
  }

  lemma AboveLast(base: nat, q: nat, r: nat, p: nat)
    requires p <= q
    ensures base * p <= base * q + r
  {
    Times(base, p, q);
  }

  lemma PowerStep(base: nat, n: nat)
    ensures Power(base, n + 1) == base * Power(base, n) && Power(base, 0) == 1
  {
  }

  lemma Times(base: nat, x: nat, y: nat)
    requires x <= y
    ensures base * x <= base * y && base * (x + 1) == base * x + base
  {
    assert base * (y - x) == base * y - base * x;
    assert base * (y - x) >= 0;
  }

  lemma NumeralWorth(u: nat, base: nat, upper: bool)
    requires 2 <= base <= 36
    ensures AllDigits(Numeral(u, base, upper), base, upper) && Worth(Numeral(u, base, upper), base) == u
    ensures TakesDigits(u, base, |Numeral(u, base, upper)|)
  {
    DigitsWorth(u, base, upper);
    if u == 0 {
      assert Numeral(u, base, upper)[..0] == [];
      PowerStep(base, 0);
    }
  }

  lemma {:induction false} WorthZeros(n: int, s: string, base: nat)
    ensures Worth(Repeat('0', n) + s, base) == Worth(s, base)
    decreases |s|, Max(n, 0)
  {
    if s != [] {
      WorthZeros(n, s[..|s| - 1], base);
      assert (Repeat('0', n) + s)[..|Repeat('0', n) + s| - 1] == Repeat('0', n) + s[..|s| - 1];
    } else {
      assert Repeat('0', n) + s == Repeat('0', n);
      if n > 0 {
        WorthZeros(n - 1, s, base);
        assert Repeat('0', n - 1) + s == Repeat('0', n - 1);
        WorthSnoc(Repeat('0', n - 1), '0', base);
      }
    }
  }

  lemma ZerosBefore(m: string, k: int, n: int, ds: string, base: nat, upper: bool)
    requires AllDigits(ds, base, upper) && base >= 2 && (m == "" || m == Repeat('0', k))
    ensures AllDigits(m + (Repeat('0', n) + ds), base, upper)
    ensures Worth(m + (Repeat('0', n) + ds), base) == Worth(ds, base)
  {
    WorthZeros(n, ds, base);
    if m == "" {
      assert m + (Repeat('0', n) + ds) == Repeat('0', n) + ds;
    } else {
      WorthZeros(k, Repeat('0', n) + ds, base);
    }
    hide Worth, DigitValue;
    assert IsDigitOf('0', base, upper);
  }

  /** What number prints, read without its own helpers: blanks, at most one sign, the prefix exactly when it is
      asked for, digits of the base that are worth the number, and blanks; and how long each part is. */
  lemma Printed(num: Long, base: nat, size: int, precision: int, f: Flags)
    requires 2 <= base <= 36
    ensures PrintsAs(Rendered(num, base, size, precision, f), num, base, size, precision, f)
  {
    hide Numeral, Worth, DigitsOf, TakesDigits, AllDigits, Lead, Middle, Tail, Repeat, SignOf, PrefixOf, Magnitude,
         AllBlank;
    var u := Magnitude(num, f);
    var ds := Numeral(u, base, f.uppercase);
    NumeralWorth(u, base, f.uppercase);
    var zeros := Repeat('0', precision - |ds|);
    var sign, prefix := SignOf(num, f), PrefixOf(base, f);
    var gap := size - (|sign| + |prefix| + |zeros| + |ds|);
    var lead, mid, tail := Lead(gap, f), Middle(gap, f), Tail(gap, f);
    Padding(gap, f);
    ZerosBefore(mid, gap, precision - |ds|, ds, base, f.uppercase);
    LengthsFit(size, precision, f, |lead|, |mid|, |tail|, |sign| + |prefix|, |ds|, gap);
    hide Max, Lengths, Rendered;
    HeadParts(num, base, f);
    var digits := mid + (zeros + ds);
    TextOf(num, base, size, precision, f);
    Made(Rendered(num, base, size, precision, f), num, base, size, precision, f,
         lead, sign, prefix, digits, tail, |ds|, u);
  }

  lemma TextOf(num: Long, base: nat, size: int, precision: int, f: Flags)
    requires 2 <= base <= 36
    ensures var ds := Numeral(Magnitude(num, f), base, f.uppercase);
      var zeros := Repeat('0', precision - |ds|);
      var gap := size - (|SignOf(num, f)| + |PrefixOf(base, f)| + |zeros| + |ds|);
      Rendered(num, base, size, precision, f) ==
        Lead(gap, f) + SignOf(num, f) + PrefixOf(base, f) + (Middle(gap, f) + (zeros + ds)) + Tail(gap, f)
  {
    hide Numeral, Lead, Middle, Tail, Repeat, SignOf, PrefixOf, Magnitude;
    var ds := Numeral(Magnitude(num, f), base, f.uppercase);
    var zeros := Repeat('0', precision - |ds|);
    var gap := size - (|SignOf(num, f)| + |PrefixOf(base, f)| + |zeros| + |ds|);
    RegroupDigits(Lead(gap, f), SignOf(num, f), PrefixOf(base, f), Middle(gap, f), zeros, ds, Tail(gap, f));
  }

  lemma Made(text: string, num: Long, base: nat, size: int, precision: int, f: Flags,
             lead: string, sign: string, prefix: string, digits: string, tail: string, n: nat, u: nat)
    requires text == lead + sign + prefix + digits + tail && AllBlank(lead) && AllBlank(tail)
    requires IsSign(sign, num, f) && IsPrefix(prefix, base, f) && AllDigits(digits, base, f.uppercase)
    requires u == Magnitude(num, f) && Worth(digits, base) == u && TakesDigits(u, base, n)
    requires Lengths(size, precision, f, |lead|, |sign| + |prefix|, |digits|, |tail|, n)
    ensures PrintsAs(text, num, base, size, precision, f)
  {
    hide AllBlank, AllDigits, Worth, TakesDigits, Lengths, IsSign, IsPrefix;
    assert Parts(text, num, base, size, precision, f, lead, sign, prefix, digits, tail, n);
  }

  lemma LengthsFit(size: int, precision: int, f: Flags, lead: nat, mid: nat, tail: nat, head: nat, n: nat, gap: int)
    requires n >= 1 && gap == size - (head + Max(precision - n, 0) + n)
    requires lead == if f.left || f.zeropad then 0 else Max(gap, 0)
    requires mid == if !f.left && f.zeropad then Max(gap, 0) else 0
    requires tail == if f.left then Max(gap, 0) else 0
    ensures Lengths(size, precision, f, lead, head, mid + (Max(precision - n, 0) + n), tail, n)
  {
  }

  lemma RegroupDigits(a: string, b: string, c: string, d: string, e: string, f: string, g: string)
    ensures a + b + c + d + e + f + g == a + b + c + (d + (e + f)) + g
  {
    assert a + b + c + d + e + f == a + b + c + (d + (e + f));
  }

  lemma Padding(gap: int, f: Flags)
    ensures AllBlank(Lead(gap, f)) && |Lead(gap, f)| == if f.left || f.zeropad then 0 else Max(gap, 0)
    ensures AllBlank(Tail(gap, f)) && |Tail(gap, f)| == if f.left then Max(gap, 0) else 0
    ensures |Middle(gap, f)| == if !f.left && f.zeropad then Max(gap, 0) else 0
    ensures Middle(gap, f) == "" || Middle(gap, f) == Repeat('0', gap)
  {
  }

  lemma HeadParts(num: Long, base: nat, f: Flags)
    ensures var m: int := num;
      Magnitude(num, f) == if m >= 0 then m else if f.sign then -m else m + 0x1_0000_0000
    ensures IsSign(SignOf(num, f), num, f) && IsPrefix(PrefixOf(base, f), base, f)
  {
  }

  /** That fixes the text. */
  lemma PrintedOnce(s: string, t: string, num: Long, base: nat, size: int, precision: int, f: Flags)
    requires 2 <= base <= 36 && PrintsAs(s, num, base, size, precision, f) && PrintsAs(t, num, base, size, precision, f)
    ensures s == t
  {
    hide AllDigits, Worth, TakesDigits, AllBlank, Max;
    var a, b, c, d, e, n :| Parts(s, num, base, size, precision, f, a, b, c, d, e, n);
    var a', b', c', d', e', n' :| Parts(t, num, base, size, precision, f, a', b', c', d', e', n');
    SameCount(Worth(d, base), base, n, n');
    SameDigits(d, d', base, f.uppercase);
    SameBlanks(a, a');
    SameBlanks(e, e');
  }

  lemma SameBlanks(s: string, t: string)
    requires AllBlank(s) && AllBlank(t) && |s| == |t|
    ensures s == t
  {
  }

  lemma SameCount(u: nat, base: nat, n: nat, n': nat)
    requires base >= 2 && TakesDigits(u, base, n) && TakesDigits(u, base, n')
    ensures n == n'
  {
    if n < n' { PowerMono(base, n, n' - 1); }
    if n' < n { PowerMono(base, n', n - 1); }
  }

  lemma {:induction false} PowerMono(base: nat, m: nat, n: nat)
    requires base >= 2 && m <= n
    ensures Power(base, m) <= Power(base, n)
  {
    if m < n {
      PowerMono(base, m, n - 1);
      PowerStep(base, n - 1);
      Times(Power(base, n - 1), 1, base);
      Commute(base, Power(base, n - 1));
    }
  }

  lemma {:induction false} SameDigits(s: string, t: string, base: nat, upper: bool)
    requires |s| == |t| && base >= 2 && AllDigits(s, base, upper) && AllDigits(t, base, upper)
    requires Worth(s, base) == Worth(t, base)
    ensures s == t
  {
    if s != [] {
      var k := |s| - 1;
      DigitRange(s[k], base, upper);
      DigitRange(t[k], base, upper);
      hide DigitValue, IsDigitOf;
      var x, y := Worth(s[..k], base), Worth(t[..k], base);
      var q := x * base + DigitValue(s[k]);
      ModUnique(q, base, x, DigitValue(s[k]));
      ModUnique(q, base, y, DigitValue(t[k]));
      SameDigits(s[..k], t[..k], base, upper);
      SameChar(s[k], t[k], base, upper);
      assert s == s[..k] + [s[k]] && t == t[..k] + [t[k]];
    }
  }

  lemma DigitRange(c: char, base: nat, upper: bool)
    requires IsDigitOf(c, base, upper)
    ensures 0 <= DigitValue(c) < base
  {
  }

  lemma SameChar(c: char, d: char, base: nat, upper: bool)
    requires IsDigitOf(c, base, upper) && IsDigitOf(d, base, upper) && DigitValue(c) == DigitValue(d)
    ensures c == d
  {
  }

  /** while (size-- > 0) *str++ = c. */
  method Pad(out0: string, size0: int, c: char) returns (out: string, size: int)
    ensures out == out0 + Repeat(c, size0) && size == (if size0 > 0 then -1 else size0 - 1)
  {
    out, size := out0, size0;
    var n := 0;
    while size > 0
      invariant n >= 0 && size == size0 - n && (size0 > 0 ==> size >= 0) && (size0 <= 0 ==> n == 0)
      invariant out == out0 + Repeat(c, n)
    {
      out := out + [c];
      size := size - 1;
      n := n + 1;
    }
    RepeatNone(c, size0, n);
    size := size - 1;
  }

  lemma RepeatNone(c: char, x: int, y: int)
    requires (x <= 0 && y <= 0) || x == y
    ensures Repeat(c, x) == Repeat(c, y)
  {
  }

  /** The digits are found last one first. */
  method FillTmp(num0: nat, base: nat, upper: bool, tmp: array<char>) returns (i: nat)
    requires num0 < M && 2 <= base <= 36 && tmp.Length == 66
    modifies tmp
    ensures 1 <= i <= 33 && Backwards(tmp[..i]) == Numeral(num0, base, upper)
  {
    hide DigitsOf, DigitChar, Backwards, Pow2;
    i := 0;
    var num := num0;
    if num == 0 {
      tmp[i] := '0';
      i := i + 1;
      BackwardsOne('0');
      assert tmp[..1] == ['0'];
    } else {
      BackwardsNone(tmp[..0]);
      WordPower();
      while num != 0
        invariant i <= 32 && 0 <= num < Pow2(32 - i)
        invariant DigitsOf(num0, base, upper) == DigitsOf(num, base, upper) + Backwards(tmp[..i])
        invariant num == 0 ==> i >= 1
        decreases num
      {
        Smaller(num, base);
        PowerLeft(num, base, 32 - i);
        DigitsStep(num, base, upper);
        ghost var t := tmp[..i];
        var d := DigitChar(num % base, upper);
        BackwardsSnoc(t, d);
        tmp[i] := d;
        assert tmp[..i + 1] == t + [d];
        num := num / base;
        i := i + 1;
      }
      NoDigits(base, upper);
      DigitsSome(num0, base, upper);
    }
  }

  lemma DigitsStep(u: nat, base: nat, upper: bool)
    requires u > 0 && 2 <= base <= 36
    ensures 0 <= u % base < 36 && 0 <= u / base
    ensures DigitsOf(u, base, upper) == DigitsOf(u / base, base, upper) + [DigitChar(u % base, upper)]
  {
    Smaller(u, base);
  }

  lemma NoDigits(base: nat, upper: bool)
    requires 2 <= base <= 36
    ensures DigitsOf(0, base, upper) == ""
  {
  }

  lemma DigitsSome(u: nat, base: nat, upper: bool)
    requires u > 0 && 2 <= base <= 36
    ensures |DigitsOf(u, base, upper)| >= 1
  {
    DigitsStep(u, base, upper);
  }

  lemma BackwardsOne(c: char)
    ensures Backwards([c]) == [c]
  {
    BackwardsSnoc([], c);
    assert [] + [c] == [c];
  }

  lemma PowerLeft(num: nat, base: nat, k: int)
    requires 0 < num && base >= 2 && k >= 0 && num < Pow2(k)
    ensures k >= 1 && num / base < Pow2(k - 1)
  {
    Smaller(num, base);
    assert k >= 1 && Pow2(k) == 2 * Pow2(k - 1);
    hide Pow2;
    var q := num / base;
    Twice(base, q);
  }

  lemma Twice(base: nat, q: nat)
    requires base >= 2
    ensures base * q >= 2 * q
  {
    assert base * q == 2 * q + (base - 2) * q;
  }

  lemma BackwardsNone(s: string)
    requires s == []
    ensures Backwards(s) == []
  {
  }

  lemma BackwardsSnoc(s: string, c: char)
    ensures Backwards(s + [c]) == [c] + Backwards(s)
  {
    assert (s + [c])[..|s|] == s;
  }

  lemma WordPower()
    ensures Pow2(32) == M
  {
    assert Pow2(8) == 256;
    assert Pow2(16) == 0x1_0000;
    assert Pow2(24) == 0x100_0000;
  }

  /** The loops of number that write the zeros and then the digits. */
  method EmitDigits(out0: string, tmp: array<char>, i0: nat, precision0: int) returns (out: string)
    requires i0 <= tmp.Length && i0 <= precision0
    ensures out == out0 + Repeat('0', precision0 - i0) + Backwards(tmp[..i0])
  {
    var i: int, precision := i0, precision0;
    out := out0;
    while i < precision
      invariant i0 == i <= precision <= precision0
      invariant out == out0 + Repeat('0', precision0 - precision)
    {
      out := out + ['0'];
      precision := precision - 1;
    }
    ghost var start := out;
    while i > 0
      invariant 0 <= i <= i0
      invariant out + Backwards(tmp[..i]) == start + Backwards(tmp[..i0])
    {
      assert tmp[..i][..i - 1] == tmp[..i - 1];
      i := i - 1;
      out := out + [tmp[i]];
    }
    assert Backwards(tmp[..0]) == [];
  }

  /** The first part of number: the sign, and the room it and the prefix take from the field width. */
  method TakeRoom(num: Long, base: nat, size0: int, f: Flags) returns (sign: string, size: int)
    ensures sign == SignOf(num, f) && size == size0 - |SignOf(num, f)| - |PrefixOf(base, f)|
  {
    sign, size := "", size0;
    if f.sign {
      if num < 0 {
        sign := "-";
        size := size - 1;
      } else if f.plus {
        sign := "+";
        size := size - 1;
      } else if f.space {
        sign := " ";
        size := size - 1;
      }
    }
    if f.hexPrep {
      if base == 16 {
        size := size - 2;
      } else if base == 8 {
        size := size - 1;
      }
    }
  }

  method EmitPrefix(out0: string, base: nat, f: Flags) returns (out: string)
    ensures out == out0 + PrefixOf(base, f)
  {
    out := out0;
    if f.hexPrep {
      if base == 8 {
        out := out + ['0'];
      } else if base == 16 {
        out := out + ['0'];
        out := out + [LOWER[33]];
      }
    }
  }

  /** The last part of number: padding, sign, prefix, zeros and digits in the order of the flags. */
  method Emit(str: string, sign: string, base: nat, size0: int, precision: int, tmp: array<char>, i: nat, f: Flags)
    returns (out: string)
    requires i <= tmp.Length && i <= precision
    ensures out == str + (Lead(size0, f) + sign + PrefixOf(base, f) + Middle(size0, f) + Repeat('0', precision - i)
                          + Backwards(tmp[..i]) + Tail(size0, f))
  {
    hide PrefixOf, Repeat, Backwards;
    var zeropad := f.zeropad && !f.left;
    var c := if zeropad then '0' else ' ';
    var size := size0;
    out := str;
    if !zeropad && !f.left { out, size := Pad(out, size, ' '); }
    ghost var lead := Lead(size0, f);
    assert out == str + lead;
    if sign != "" { out := out + sign; }
    out := EmitPrefix(out, base, f);
    ghost var head := out;
    ghost var left := size;
    if !f.left { out, size := Pad(out, size, c); }
    NoPad(size0, left, f);
    assert out == head + Middle(size0, f);
    out := EmitDigits(out, tmp, i, precision);
    ghost var body := out;
    left := size;
    out, size := Pad(out, size, ' ');
    NoTail(size0, left, f);
    assert out == body + Tail(size0, f);
    Joined(str, lead, sign, PrefixOf(base, f), Middle(size0, f), Repeat('0', precision - i), Backwards(tmp[..i]),
           Tail(size0, f));
  }

  /** Once padded, a negative size pads nothing. */
  lemma NoPad(size0: int, size: int, f: Flags)
    requires size == if f.left || f.zeropad then size0 else if size0 > 0 then -1 else size0 - 1
    ensures !f.left ==> Repeat(if f.zeropad then '0' else ' ', size) == Middle(size0, f)
  {
  }

  lemma NoTail(size0: int, size: int, f: Flags)
    requires f.left ==> size == size0
    requires !f.left ==> size < 0
    ensures Repeat(' ', size) == Tail(size0, f)
  {
  }

  lemma Joined(s: string, a: string, b: string, c: string, d: string, e: string, f: string, g: string)
    ensures s + a + b + c + d + e + f + g == s + (a + b + c + d + e + f + g)
  {
    assert s + a + b == s + (a + b);
    assert s + (a + b) + c == s + (a + b + c);
    assert s + (a + b + c) + d == s + (a + b + c + d);
    assert s + (a + b + c + d) + e == s + (a + b + c + d + e);
    assert s + (a + b + c + d + e) + f == s + (a + b + c + d + e + f);
  }

  /** number, appending to what is already in the buffer; None for a base out of range. */
  method Number(str: string, num: Long, base: int, size0: int, precision0: int, f: Flags) returns (r: Option<string>)
    ensures r == if base < 2 || base > 36 then None else Some(str + Rendered(num, base, size0, precision0, f))
    ensures r.Some? ==> exists text :: r.value == str + text && PrintsAs(text, num, base, size0, precision0, f)
  {
    hide SignOf, PrefixOf, Magnitude, Numeral, Backwards, Lead, Middle, Tail;
    if base < 2 || base > 36 { return None; }
    var tmp := new char[66];
    var sign, size := TakeRoom(num, base, size0, f);
    var i := FillTmp(Magnitude(num, f), base, f.uppercase, tmp);
    var precision := precision0;
    if i > precision { precision := i; }
    size := size - precision;
    var out := Emit(str, sign, base, size, precision, tmp, i, f);
    RepeatNone('0', precision - i, precision0 - i);
    hide Repeat, Rendered, PrintsAs;
    Printed(num, base, size0, precision0, f);
    return Some(out);
  }

  // ---------------------------------------------------------------- parseval

  predicate IsDecimal(c: char) { '0' <= c <= '9' }
  predicate IsHex(c: char) { IsDecimal(c) || 'a' <= c <= 'f' }
  predicate Accepted(c: char, hex: bool) { if hex then IsHex(c) else IsDecimal(c) }

  function DigitOf(c: char): int { if '0' <= c <= '9' then c as int - 48 else 10 + c as int - 97 }

  /** The end of the run of digits that starts at i. */
  ghost function RunEnd(s: string, i: nat, hex: bool): (e: nat)
    requires i <= |s|
    ensures i <= e <= |s|
    decreases |s| - i
  {
    if i < |s| && Accepted(s[i], hex) then RunEnd(s, i + 1, hex) else i
  }

  ghost function ValueOf(s: string, base: nat): int
  {
    if s == [] then 0 else ValueOf(s[..|s| - 1], base) * base + DigitOf(s[|s| - 1])
  }

  ghost function AfterSign(s: string): nat { if s != [] && s[0] == '-' then 1 else 0 }
  ghost predicate HasHexPrefix(s: string, i: nat) { i + 1 < |s| && s[i] == '0' && s[i + 1] == 'x' }

  /** Optional minus, optional 0x, digits, optional K or M: the value modulo 2^32. */
  ghost function Parsed(s: string): (v: nat)
    requires s != [] && s[|s| - 1] == NUL
    ensures v < M
  {
    var i := AfterSign(s);
    var hex := HasHexPrefix(s, i);
    var j := if hex then i + 2 else i;
    var e := RunEnd(s, j, hex);
    var scale := if e < |s| && s[e] == 'K' then 1024 else if e < |s| && s[e] == 'M' then 1024 * 1024 else 1;
    var v := ValueOf(s[j..e], if hex then 16 else 10) * scale;
    (if i == 1 then -v else v) % M
  }

  lemma ModStep(v: int, r: nat, k: int, d: int)
    requires r == v % M
    ensures (r * k + d) % M == (v * k + d) % M
  {
    assert v == M * (v / M) + r;
    ModShift(r * k + d, (v / M) * k);
    assert r * k + d + M * ((v / M) * k) == v * k + d;
  }

  lemma ModShift(x: int, q: int)
    ensures (x + M * q) % M == x % M
  {
  }

  /** One of the two digit loops of parseval, with 32-bit arithmetic. */
  method ReadDigits(s: string, j: nat, hex: bool) returns (e: nat, r: nat)
    requires j < |s| && s[|s| - 1] == NUL
    ensures e == RunEnd(s, j, hex) < |s| && r == ValueOf(s[j..e], if hex then 16 else 10) % M
  {
    hide ValueOf, RunEnd, DigitOf, Accepted;
    e, r := j, 0;
    var base := if hex then 16 else 10;
    NoValue(s, j, base);
    EndBound(s, j, hex);
    while Accepted(s[e], hex)
      invariant j <= e <= RunEnd(s, j, hex) < |s| && RunEnd(s, e, hex) == RunEnd(s, j, hex)
      invariant r == ValueOf(s[j..e], base) % M
      decreases |s| - e
    {
      OneMore(s, j, e, hex, base);
      DigitStep(ValueOf(s[j..e], base), r, base, DigitOf(s[e]));
      r := r * base % M;
      r := (r + DigitOf(s[e])) % M;
      e := e + 1;
    }
    RunStops(s, e, hex);
  }

  lemma NoValue(s: string, j: nat, base: nat)
    requires j <= |s|
    ensures ValueOf(s[j..j], base) == 0 && 0 % M == 0
  {
  }

  lemma {:induction false} EndBound(s: string, j: nat, hex: bool)
    requires j < |s| && s[|s| - 1] == NUL
    ensures RunEnd(s, j, hex) < |s|
    decreases |s| - j
  {
    if Accepted(s[j], hex) { EndBound(s, j + 1, hex); }
  }

  lemma OneMore(s: string, j: nat, e: nat, hex: bool, base: nat)
    requires j <= e < |s| && Accepted(s[e], hex)
    ensures RunEnd(s, e, hex) == RunEnd(s, e + 1, hex)
    ensures ValueOf(s[j..e + 1], base) == ValueOf(s[j..e], base) * base + DigitOf(s[e])
  {
    assert s[j..e + 1][..|s[j..e + 1]| - 1] == s[j..e];
  }

  lemma RunStops(s: string, e: nat, hex: bool)
    requires e < |s| && !Accepted(s[e], hex)
    ensures RunEnd(s, e, hex) == e
  {
  }

  lemma DigitStep(v: int, r: nat, base: nat, d: int)
    requires r == v % M
    ensures ((r * base) % M + d) % M == (v * base + d) % M
  {
    var x := r * base;
    ModStep(x, x % M, 1, d);
    ModStep(v, r, base, d);
  }

  /** parseval, on a NUL-terminated string. */
  method ParseVal(s: string) returns (r: nat)
    requires s != [] && s[|s| - 1] == NUL
    ensures r == Parsed(s)
  {
    hide ValueOf, RunEnd;
    var p, neg := 0, false;
    if s[p] == '-' {
      neg := true;
      p := p + 1;
    }
    var hex := s[p] == '0' && s[p + 1] == 'x';
    if hex { p := p + 2; }
    ghost var j := p;
    p, r := ReadDigits(s, p, hex);
    ghost var v := ValueOf(s[j..p], if hex then 16 else 10);
    ghost var scale := if s[p] == 'K' then 1024 else if s[p] == 'M' then 1024 * 1024 else 1;
    ModStep(v, r, scale, 0);
    if s[p] == 'K' { r := r * 1024 % M; }
    if s[p] == 'M' { r := r * (1024 * 1024) % M; }
    ModStep(v * scale, r, -1, 0);
    if neg { r := (0 - r) % M; }
  }

  // ---------------------------------------------------------------- reading back what was printed

  /** The two notations parseval knows: decimal, and lower-case hexadecimal with the 0x prefix. */
  predicate Readable(base: nat, f: Flags) { base == 10 || (base == 16 && f.hexPrep && !f.uppercase) }

  lemma DigitRead(d: nat, base: nat, upper: bool)
    requires d < base && (base == 10 || (base == 16 && !upper))
    ensures Accepted(DigitChar(d, upper), base == 16) && DigitOf(DigitChar(d, upper)) == d
  {
    if base == 10 { SameDigit(d, upper); }
    if d < 10 { LowDigit(d); } else { HighDigit(d); }
  }

  /** In decimal both digit tables agree. */
  lemma SameDigit(d: nat, upper: bool)
    requires d < 10
    ensures DigitChar(d, upper) == DigitChar(d, false)
  {
    assert UPPER[..10] == LOWER[..10];
    assert UPPER[d] == UPPER[..10][d] && LOWER[d] == LOWER[..10][d];
  }

  lemma LowDigit(d: nat)
    requires d < 10
    ensures DigitChar(d, false) as int == 48 + d
  {
    var t := "0123456789";
    assert LOWER[..10] == t && LOWER[d] == LOWER[..10][d];
    hide DigitChar;
    assert forall x | 0 <= x < 10 :: t[x] as int == 48 + x;
  }

  lemma HighDigit(d: nat)
    requires 10 <= d < 16
    ensures DigitChar(d, false) as int == 97 + d - 10
  {
    var t := "0123456789abcdef";
    assert LOWER[..16] == t && LOWER[d] == LOWER[..16][d];
    hide DigitChar;
    assert forall x | 10 <= x < 16 :: t[x] as int == 97 + x - 10;
  }

  ghost predicate AllAccepted(s: string, hex: bool) { forall x | 0 <= x < |s| :: Accepted(s[x], hex) }

  /** The digits of a number are digits to the reader, and have its value. */
  lemma {:induction false} DigitsRead(u: nat, base: nat, upper: bool)
    requires base == 10 || (base == 16 && !upper)
    ensures AllAccepted(DigitsOf(u, base, upper), base == 16) && ValueOf(DigitsOf(u, base, upper), base) == u
  {
    hide DigitChar, DigitOf, Accepted;
    if u > 0 {
      Smaller(u, base);
      DigitsRead(u / base, base, upper);
      DigitRead(u % base, base, upper);
      ValueSnoc(DigitsOf(u / base, base, upper), DigitChar(u % base, upper), base);
    }
  }

  lemma ValueSnoc(s: string, c: char, base: nat)
    ensures ValueOf(s + [c], base) == ValueOf(s, base) * base + DigitOf(c)
  {
    hide DigitOf;
    assert (s + [c])[..|s|] == s;
  }

  lemma {:induction false} ValueZeros(n: int, s: string, base: nat)
    ensures ValueOf(Repeat('0', n) + s, base) == ValueOf(s, base)
    decreases |s|, Max(n, 0)
  {
    if s != [] {
      ValueZeros(n, s[..|s| - 1], base);
      assert (Repeat('0', n) + s)[..|Repeat('0', n) + s| - 1] == Repeat('0', n) + s[..|s| - 1];
    } else {
      assert Repeat('0', n) + s == Repeat('0', n);
      if n > 0 {
        ValueZeros(n - 1, s, base);
        assert Repeat('0', n - 1) + s == Repeat('0', n - 1);
        ValueSnoc(Repeat('0', n - 1), '0', base);
      }
    }
  }

  lemma {:induction false} RunExact(s: string, j: nat, e: nat, hex: bool)
    requires j <= e < |s| && AllAccepted(s[j..e], hex) && !Accepted(s[e], hex)
    ensures RunEnd(s, j, hex) == e
    decreases e - j
  {
    hide Accepted;
    if j < e {
      assert s[j..e][0] == s[j];
      assert s[j + 1..e] == s[j..e][1..];
      RunExact(s, j + 1, e, hex);
    }
  }

  lemma NumeralRead(u: nat, base: nat, upper: bool)
    requires base == 10 || (base == 16 && !upper)
    ensures AllAccepted(Numeral(u, base, upper), base == 16) && ValueOf(Numeral(u, base, upper), base) == u
  {
    DigitsRead(u, base, upper);
    assert u == 0 ==> Numeral(u, base, upper)[..0] == [];
  }

  /** What parseval makes of a text of sign, prefix, digits and something else, read without its own helpers: the
      number, times 1024 if a K follows it and times 1024 * 1024 if an M does. */
  lemma ReadScaled(sign: string, base: nat, ds: string, rest: string)
    requires (sign == "" || sign == "-") && (base == 10 || base == 16) && |ds| >= 1 && AllDigits(ds, base, false)
    requires rest != [] && !IsDigitOf(rest[0], base, false) && rest[0] != 'x' && rest[|rest| - 1] == NUL
    ensures var text := sign + (if base == 16 then "0x" else "") + ds + rest;
      var v := Worth(ds, base) * (if rest[0] == 'K' then 1024 else if rest[0] == 'M' then 1_048_576 else 1);
      Parsed(text) == (if sign == "-" then -v else v) % 0x1_0000_0000
  {
    hide Worth, ValueOf, DigitValue, Parsed, DigitOf;
    forall x | 0 <= x < |ds| ensures Accepted(ds[x], base == 16) { DigitAccepted(ds[x], base); }
    DigitAccepted(rest[0], base);
    ValueIsWorth(ds, base);
    ParsedParts(sign, base, ds, rest);
  }

  lemma DigitAccepted(c: char, base: nat)
    requires base == 10 || base == 16
    ensures Accepted(c, base == 16) <==> IsDigitOf(c, base, false)
    ensures Accepted(c, base == 16) ==> DigitOf(c) == DigitValue(c)
  {
  }

  lemma {:induction false} ValueIsWorth(s: string, base: nat)
    requires (base == 10 || base == 16) && AllDigits(s, base, false)
    ensures ValueOf(s, base) == Worth(s, base)
  {
    hide DigitValue, DigitOf, Accepted, IsDigitOf;
    if s != [] {
      DigitAccepted(s[|s| - 1], base);
      ValueIsWorth(s[..|s| - 1], base);
    }
  }

  lemma ParsedParts(sign: string, base: nat, ds: string, rest: string)
    requires (sign == "" || sign == "-") && (base == 10 || base == 16) && |ds| >= 1 && AllAccepted(ds, base == 16)
    requires rest != [] && !Accepted(rest[0], base == 16) && rest[0] != 'x' && rest[|rest| - 1] == NUL
    ensures var prefix := if base == 16 then "0x" else "";
      var v := ValueOf(ds, base) * (if rest[0] == 'K' then 1024 else if rest[0] == 'M' then 1024 * 1024 else 1);
      Parsed(sign + prefix + ds + rest) == (if sign == "-" then -v else v) % M
  {
    hide ValueOf;
    var hex := base == 16;
    var prefix := if hex then "0x" else "";
    var s := sign + prefix + ds + rest;
    var j := |sign| + |prefix|;
    var e := j + |ds|;
    assert s[j..e] == ds && s[e] == rest[0];
    assert s[|s| - 1] == NUL;
    assert Accepted(ds[0], hex) && ds[0] != '-' && s[j] == ds[0];
    if |ds| > 1 {
      assert Accepted(ds[1], hex) && ds[1] != 'x' && s[j + 1] == ds[1];
    } else {
      assert s[j + 1] == rest[0];
    }
    assert AfterSign(s) == |sign|;
    assert HasHexPrefix(s, |sign|) <==> hex;
    RunExact(s, j, e, hex);
    hide RunEnd, Accepted;
  }

  /** parseval reads back what number prints, modulo 2^32, whatever the width and the precision, unless
      blanks or a plus come first. */
  lemma ReadBack(num: Long, base: nat, size: int, precision: int, f: Flags)
    requires Readable(base, f) && (SignOf(num, f) == "" || SignOf(num, f) == "-")
    requires f.left || f.zeropad ||
      size <= |SignOf(num, f)| + |PrefixOf(base, f)|
              + Max(precision, |Numeral(Magnitude(num, f), base, f.uppercase)|)
    ensures Parsed(Rendered(num, base, size, precision, f) + [NUL]) == num % M
  {
    hide Numeral, SignOf, Magnitude, Repeat, Middle, Tail, Lead, Parsed, AllAccepted, ValueOf, DigitsOf;
    var u := Magnitude(num, f);
    var ds := Numeral(u, base, f.uppercase);
    var zeros := Repeat('0', precision - |ds|);
    var gap := size - (|SignOf(num, f)| + |PrefixOf(base, f)| + |zeros| + |ds|);
    var sign, prefix, mid := SignOf(num, f), if base == 16 then "0x" else "", Middle(gap, f);
    TableBelowTen(u, base, f.uppercase);
    NumeralRead(u, base, f.uppercase && base == 16);
    var digits := mid + zeros + ds;
    PaddedRead(gap, precision - |ds|, ds, base, f);
    NoLead(gap, f);
    TailRest(gap, f);
    Regroup(sign, prefix, mid, zeros, ds, Tail(gap, f), [NUL]);
    ParsedParts(sign, base, digits, Tail(gap, f) + [NUL]);
    SignedValue(num, f);
  }

  lemma NoLead(gap: int, f: Flags)
    requires f.left || f.zeropad || gap <= 0
    ensures Lead(gap, f) == ""
  {
  }

  /** For decimal numerals the choice of table does not matter. */
  lemma {:induction false} TableBelowTen(u: nat, base: nat, upper: bool)
    requires base == 10 || (base == 16 && !upper)
    ensures Numeral(u, base, upper) == Numeral(u, base, upper && base == 16)
    ensures DigitsOf(u, base, upper) == DigitsOf(u, base, upper && base == 16)
  {
    hide DigitChar;
    if u > 0 {
      Smaller(u, base);
      TableBelowTen(u / base, base, upper);
      if base == 10 { SameDigit(u % base, upper); }
    }
  }

  lemma PaddedRead(gap: int, n: int, ds: string, base: nat, f: Flags)
    requires AllAccepted(ds, base == 16)
    ensures AllAccepted(Middle(gap, f) + Repeat('0', n) + ds, base == 16)
    ensures ValueOf(Middle(gap, f) + Repeat('0', n) + ds, base) == ValueOf(ds, base)
  {
    ValueZeros(n, ds, base);
    assert Middle(gap, f) + Repeat('0', n) + ds == Middle(gap, f) + (Repeat('0', n) + ds);
    if !f.left && f.zeropad {
      ValueZeros(gap, Repeat('0', n) + ds, base);
    } else {
      assert Middle(gap, f) + (Repeat('0', n) + ds) == Repeat('0', n) + ds;
    }
    hide ValueOf;
  }

  lemma TailRest(gap: int, f: Flags)
    ensures var rest := Tail(gap, f) + [NUL];
      rest != [] && (rest[0] == ' ' || rest[0] == NUL) && rest[|rest| - 1] == NUL
  {
  }

  lemma Regroup(sign: string, prefix: string, a: string, b: string, c: string, tail: string, nul: string)
    ensures [] + sign + prefix + a + b + c + tail + nul == sign + prefix + (a + b + c) + (tail + nul)
  {
    assert [] + sign == sign;
    assert sign + prefix + a + b + c == sign + prefix + (a + b + c);
    assert sign + prefix + (a + b + c) + tail + nul == sign + prefix + (a + b + c) + (tail + nul);
  }

  lemma SignedValue(num: Long, f: Flags)
    ensures (if SignOf(num, f) == "-" then 0 - Magnitude(num, f) else Magnitude(num, f)) % M == num % M
  {
    ModShift(num, 1);
  }

  // ---------------------------------------------------------------- skip_atoi

  /** skip_atoi: the decimal number at position p, and where it ends. */
  method SkipAtoi(s: string, p: nat) returns (i: nat, q: nat)
    requires p < |s| && s[|s| - 1] == NUL
    ensures q == RunEnd(s, p, false) && i == ValueOf(s[p..q], 10)
  {
    hide ValueOf, RunEnd, DigitOf;
    i, q := 0, p;
    NoValue(s, p, 10);
    EndBound(s, p, false);
    while IsDecimal(s[q])
      invariant p <= q <= RunEnd(s, p, false) < |s| && RunEnd(s, q, false) == RunEnd(s, p, false)
      invariant i == ValueOf(s[p..q], 10)
      decreases |s| - q
    {
      OneMore(s, p, q, false, 10);
      DecimalDigit(s[q]);
      i := i * 10 + s[q] as int - 48;
      q := q + 1;
    }
    RunStops(s, q, false);
  }

  lemma DecimalDigit(c: char)
    requires IsDecimal(c)
    ensures DigitOf(c) == c as int - 48
  {
  }

  /** A field width printed in decimal is read back by skip_atoi, up to the character that follows it. */
  lemma WidthReadBack(u: nat, upper: bool, rest: string)
    requires rest != [] && !IsDecimal(rest[0])
    ensures var s := Numeral(u, 10, upper) + rest;
      RunEnd(s, 0, false) == |Numeral(u, 10, upper)| && ValueOf(s[0..RunEnd(s, 0, false)], 10) == u
  {
    NumeralRead(u, 10, upper);
    hide Numeral, ValueOf;
    var ds := Numeral(u, 10, upper);
    var s := ds + rest;
    assert s[0..|ds|] == ds && s[|ds|] == rest[0];
    RunExact(s, 0, |ds|, false);
  }
}
