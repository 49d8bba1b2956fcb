/** Numbers as text: what the formatter writes for them and what `atol` reads back. */
module Numbers {

  const LONG_MIN: int := -0x8000_0000_0000_0000
  const LONG_MAX: int := 0x7FFF_FFFF_FFFF_FFFF

  function Digit(d: nat): char
    requires d < 16
  {
    "0123456789abcdef"[d]
  }

  /** The numeral of `n` in `base`, most significant digit first; empty for 0. */
  function Numeral(n: nat, base: nat): string
    requires 2 <= base <= 16
  {
    if n == 0 then "" else Numeral(n / base, base) + [Digit(n % base)]
  }

  function IntText(n: int): string {
    if n < 0 then "-" + Numeral(-n, 10) else if n == 0 then "0" else Numeral(n, 10)
  }

  function Repeat(c: char, n: int): (s: string)
    ensures |s| == (if n > 0 then n else 0) && forall i | 0 <= i < |s| :: s[i] == c
  {
    if n <= 0 then "" else [c] + Repeat(c, n - 1)
  }

  /** A text in a field: positive widths pad on the left, negative ones with spaces on the right. */
  function Padded(s: string, pad: char, width: int): string {
    if width > 0 then Repeat(pad, width - |s|) + s else s + Repeat(' ', -width - |s|)
  }

  // ----- `atol`

  function SkipBlanks(s: string): string {
    if s != "" && (s[0] == ' ' || s[0] == '\t') then SkipBlanks(s[1..]) else s
  }

  predicate IsDigit(c: char) {
    '0' <= c <= '9'
  }

  function DigitValue(c: char): (d: nat)
    requires IsDigit(c)
    ensures d < 10
  {
    c as int - '0' as int
  }

  /** The digits at the start of `s`, read after the digits already in `acc`. */
  function Accumulate(acc: nat, s: string): nat
    decreases |s|
  {
    if s == "" || !IsDigit(s[0]) then acc else Accumulate(acc * 10 + DigitValue(s[0]), s[1..])
  }

  function Value(s: string): int {
    var t := SkipBlanks(s);
    var signed := t != "" && (t[0] == '-' || t[0] == '+');
    var acc: int := Accumulate(0, if signed then t[1..] else t);
    if t != "" && t[0] == '-' then -acc else acc
  }

  /** `atol`; its accumulator overflows a `long`, at some step, exactly when the magnitude of the value does. */
  method Atol(ptr: string) returns (acc: int, ghost overflow: bool)
    ensures acc == Value(ptr)
    ensures overflow <==> acc > LONG_MAX || acc < -LONG_MAX
  {
    var s := 0;
    acc, overflow := 0, false;
    while s < |ptr| && (ptr[s] == ' ' || ptr[s] == '\t')
      invariant 0 <= s <= |ptr| && SkipBlanks(ptr[s..]) == SkipBlanks(ptr)
    {
      assert ptr[s..][1..] == ptr[s + 1..];
      s := s + 1;
    }
    var neg := false;
    if s < |ptr| && ptr[s] == '-' {
      neg := true;
      s := s + 1;
    } else if s < |ptr| && ptr[s] == '+' {
      s := s + 1;
    }
    ghost var start := s;
    while s < |ptr|
      invariant 0 <= s <= |ptr| && acc >= 0 && (overflow <==> acc > LONG_MAX)
      invariant Accumulate(acc, ptr[s..]) == Accumulate(0, ptr[start..])
      decreases |ptr| - s
    {
      if ptr[s] < '0' || ptr[s] > '9' {
        break;
      }
      assert ptr[s..][1..] == ptr[s + 1..];
      acc := acc * 10 + DigitValue(ptr[s]);
      overflow := overflow || acc > LONG_MAX;
      s := s + 1;
    }
    if neg {
      acc := -acc;
    }
  }

  // ----- what is written is read back

  /** Text that begins with something other than a digit ends a number. */
  predicate Ends(s: string) {
    s == "" || !IsDigit(s[0])
  }

  function Pow10(k: nat): nat {
    if k == 0 then 1 else 10 * Pow10(k - 1)
  }

  lemma AccumulateNumeral(n: nat, rest: string)
    requires Ends(rest)
    ensures Accumulate(0, Numeral(n, 10) + rest) == n
  {
    AccumulateInto(0, n, rest);
    assert 0 * Pow10(|Numeral(n, 10)|) == 0;
  }

  /** Reading the digits of `n` shifts what was read before by as many places. */
  lemma {:induction false} AccumulateInto(acc: nat, n: nat, rest: string)
    ensures Accumulate(acc, Numeral(n, 10) + rest) == Accumulate(acc * Pow10(|Numeral(n, 10)|) + n, rest)
    decreases n
  {
    if n == 0 {
      assert "" + rest == rest;
    } else {
      var m, d := n / 10, [Digit(n % 10)];
      AccumulateInto(acc, m, d + rest);
      LastFirst(Numeral(m, 10), d, rest);
      AccumulateDigit(acc * Pow10(|Numeral(m, 10)|) + m, n % 10, rest);
      Shift(acc, Pow10(|Numeral(m, 10)|), m);
    }
  }

  lemma LastFirst(a: string, d: string, rest: string)
    ensures (a + d) + rest == a + (d + rest)
  {}

  lemma AccumulateDigit(acc: nat, d: nat, rest: string)
    requires d < 10
    ensures Accumulate(acc, [Digit(d)] + rest) == Accumulate(acc * 10 + d, rest)
  {
    assert ([Digit(d)] + rest)[1..] == rest;
  }

  lemma Shift(acc: nat, p: nat, m: nat)
    ensures (acc * p + m) * 10 == acc * (10 * p) + 10 * m
  {}

  lemma {:induction false} NumeralDigits(n: nat)
    ensures forall c | c in Numeral(n, 10) :: IsDigit(c)
    ensures n > 0 ==> Numeral(n, 10) != ""
  {
    if n > 0 {
      NumeralDigits(n / 10);
    }
  }

  lemma {:induction false} SkipSpaces(n: int, s: string)
    requires s == "" || (s[0] != ' ' && s[0] != '\t')
    ensures SkipBlanks(Repeat(' ', n) + s) == s
    decreases n
  {
    if n > 0 {
      SkipSpaces(n - 1, s);
      assert (Repeat(' ', n) + s)[1..] == Repeat(' ', n - 1) + s;
    } else {
      assert Repeat(' ', n) + s == s;
    }
  }

  /** The text of `n`, followed by something that is no digit, reads as `n`. */
  lemma ValueOfText(n: int, rest: string)
    requires Ends(rest)
    ensures Value(IntText(n) + rest) == n
  {
    if n < 0 {
      ValueOfNegative(n, rest);
    } else if n == 0 {
      AccumulateDigit(0, 0, rest);
    } else {
      ValueOfNatural(n, rest);
    }
  }

  lemma ValueOfNegative(n: int, rest: string)
    requires n < 0 && Ends(rest)
    ensures Value("-" + Numeral(-n, 10) + rest) == n
  {
    assert ("-" + Numeral(-n, 10) + rest)[1..] == Numeral(-n, 10) + rest;
    AccumulateNumeral(-n, rest);
  }

  lemma ValueOfNatural(n: nat, rest: string)
    requires n > 0 && Ends(rest)
    ensures Value(Numeral(n, 10) + rest) == n
  {
    NumeralDigits(n);
    assert IsDigit((Numeral(n, 10) + rest)[0]) by {
      assert Numeral(n, 10)[0] in Numeral(n, 10);
    }
    AccumulateNumeral(n, rest);
  }

  lemma TextStart(n: int)
    ensures IntText(n) != "" && IntText(n)[0] != ' ' && IntText(n)[0] != '\t' && (n >= 0 ==> IsDigit(IntText(n)[0]))
  {
    NumeralDigits(if n < 0 then -n else n);
    assert n > 0 ==> IntText(n)[0] in Numeral(n, 10);
  }

  /** Round trip: whatever the width, and on whichever side the spaces are, `atol` reads back what `print_int` wrote. */
  lemma RoundTrip(n: int, width: int)
    ensures Value(Padded(IntText(n), ' ', width)) == n
  {
    var t := IntText(n);
    TextStart(n);
    if width > 0 {
      SkipSpaces(width - |t|, t);
      assert t + "" == t;
      ValueOfText(n, "");
      ValueSkips(Repeat(' ', width - |t|) + t, t);
    } else {
      ValueOfText(n, Repeat(' ', -width - |t|));
    }
  }

  lemma ValueSkips(s: string, t: string)
    requires SkipBlanks(s) == t && SkipBlanks(t) == t
    ensures Value(s) == Value(t)
  {}

  /** Zero padding goes before the sign: a number padded with zeros reads back exactly when it is not negative or the
      field is no wider than its text. */
  lemma ZeroPadded(n: int, width: int)
    ensures Value(Padded(IntText(n), '0', width)) == n <==> n >= 0 || width <= |IntText(n)|
  {
    var t := IntText(n);
    TextStart(n);
    if width <= |t| {
      RoundTrip(n, if width > 0 then 0 else width);
      if width > 0 {
        assert Padded(t, '0', width) == t + "";
        assert Padded(t, ' ', 0) == t + "";
      }
    } else {
      LeadingZeros(0, width - |t|, t);
      assert Padded(t, '0', width)[0] == '0';
      if n < 0 {
        assert Accumulate(0, t) == 0;
      } else {
        assert t + "" == t;
        ValueOfText(n, "");
      }
    }
  }

  /** Minus five in a field of four is written `00-5` and reads as 0. */
  lemma ZeroPaddedFive()
    ensures Padded(IntText(-5), '0', 4) == "00-5" && Value("00-5") == 0
  {
    assert Numeral(5, 10) == Numeral(0, 10) + ['5'];
    assert Repeat('0', 2) == ['0'] + (['0'] + "");
    assert "00-5"[1..] == "0-5" && "0-5"[1..] == "-5";
  }

  lemma {:induction false} LeadingZeros(acc: nat, k: int, s: string)
    requires acc == 0
    ensures Accumulate(acc, Repeat('0', k) + s) == Accumulate(0, s)
    decreases k
  {
    if k > 0 {
      assert (Repeat('0', k) + s)[1..] == Repeat('0', k - 1) + s;
      LeadingZeros(0, k - 1, s);
    } else {
      assert Repeat('0', k) + s == s;
    }
  }

  /** How many digits a number below `10^k` has, in any base from 10. */
  lemma {:induction false} NumeralLength(n: nat, base: nat, k: nat)
    requires 10 <= base <= 16 && n < Pow10(k)
    ensures |Numeral(n, base)| <= k
  {
    if n > 0 {
      var q := n / base;
      Quotient(n, base, Pow10(k - 1));
      NumeralLength(q, base, k - 1);
      NumeralLonger(n, base, q);
    }
  }

  lemma NumeralLonger(n: nat, base: nat, q: nat)
    requires 2 <= base <= 16 && n > 0 && q == n / base
    ensures |Numeral(n, base)| == |Numeral(q, base)| + 1
  {}

  lemma Quotient(n: nat, base: nat, p: nat)
    requires 10 <= base <= 16 && n < 10 * p
    ensures n / base < p
  {
    match base
    case 10 =>
    case 11 =>
    case 12 =>
    case 13 =>
    case 14 =>
    case 15 =>
    case _ => assert base == 16;
  }
}
