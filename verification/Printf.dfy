/** The bounded formatter: the untruncated output of a format, and the stream that stores what fits of it. */
module Printf {
  import opened Numbers

  /** One variable argument: a machine word, a string, or a pointer to a 32-bit cell. */
  datatype Arg = Word(w: nat) | Text(s: string) | Cell(w: nat)

  /** `strprops_t`, with the count of `l`s. */
  datatype Spec = Spec(pad: char, npad: int, alternate: bool, nlong: nat)

  const DEFAULT := Spec(' ', 0, false, 0)

  function Int32(w: int): (r: int)
    ensures -0x8000_0000 <= r < 0x8000_0000
  {
    var v := w % 0x1_0000_0000;
    if v >= 0x8000_0000 then v - 0x1_0000_0000 else v
  }

  function Int64(w: int): (r: int)
    ensures LONG_MIN <= r <= LONG_MAX
  {
    var v := w % 0x1_0000_0000_0000_0000;
    if v >= 0x8000_0000_0000_0000 then v - 0x1_0000_0000_0000_0000 else v
  }

  // Reading an argument that is missing or of another kind is undefined in C; the model reads 0 or "".

  function WordArg(args: seq<Arg>, k: nat): nat {
    if k < |args| && args[k].Word? then args[k].w else 0
  }

  function TextArg(args: seq<Arg>, k: nat): string {
    if k < |args| && args[k].Text? then args[k].s else ""
  }

  function CellArg(args: seq<Arg>, k: nat): nat {
    if k < |args| && args[k].Cell? then args[k].w else 0
  }

  // ----- the untruncated output

  /** What `print_unsigned` writes: with `#`, a nonzero hexadecimal number gets its prefix before any zero padding. */
  function UnsignedText(n: nat, base: nat, spec: Spec): string
    requires 2 <= base <= 16
  {
    if n == 0 then Padded("0", spec.pad, spec.npad)
    else if !spec.alternate || base != 16 then Padded(Numeral(n, base), spec.pad, spec.npad)
    else if spec.pad != '0' then Padded("0x" + Numeral(n, base), spec.pad, spec.npad)
    else "0x" + Padded(Numeral(n, base), '0', if spec.npad > 2 then spec.npad - 2 else if spec.npad > 0 then 0 else spec.npad)
  }

  function DigitRun(fmt: string, i: nat): (r: nat)
    requires i <= |fmt|
    ensures i + r <= |fmt|
    decreases |fmt| - i
  {
    if i < |fmt| && IsDigit(fmt[i]) then 1 + DigitRun(fmt, i + 1) else 0
  }

  /** How far `fmtnum` advances; the number itself it takes from `atol`, which may look further. */
  function NumLength(fmt: string, i: nat): (r: nat)
    requires i <= |fmt|
    ensures i + r <= |fmt|
  {
    if i < |fmt| && fmt[i] == '-' then 1 + DigitRun(fmt, i + 1) else DigitRun(fmt, i)
  }

  function Num(fmt: string, i: nat): int
    requires i <= |fmt|
  {
    Int32(Value(fmt[i..]))
  }

  /** The output of a format from position `i`, outside a directive, with `k` arguments used up. */
  function Plain(fmt: string, i: nat, args: seq<Arg>, k: nat): string
    requires i <= |fmt|
    decreases |fmt| - i
  {
    if i == |fmt| then ""
    else if fmt[i] != '%' then [fmt[i]] + Plain(fmt, i + 1, args, k)
    else Directive(fmt, i + 1, args, k, DEFAULT)
  }

  /** The output from position `i`, inside a directive. */
  function Directive(fmt: string, i: nat, args: seq<Arg>, k: nat, spec: Spec): string
    requires i <= |fmt|
    decreases |fmt| - i
  {
    if i == |fmt| then ""
    else if IsFlag(fmt[i]) then Directive(fmt, FlagEnd(fmt, i), args, k, Flagged(fmt, i, spec))
    else Converted(fmt[i], args, k, spec) + Plain(fmt, i + 1, args, if Takes(fmt[i]) then k + 1 else k)
  }

  predicate IsFlag(f: char) {
    f == '#' || f == '-' || IsDigit(f) || f == 'l' || f == 't' || f == 'z'
  }

  /** Where a flag, width or length that starts at `i` ends. */
  function FlagEnd(fmt: string, i: nat): (j: nat)
    requires i < |fmt| && IsFlag(fmt[i])
    ensures i < j <= |fmt|
  {
    if fmt[i] == '0' then i + 1 + NumLength(fmt, i + 1)
    else if fmt[i] == '-' || IsDigit(fmt[i]) then i + NumLength(fmt, i)
    else i + 1
  }

  /** What it makes of the directive. */
  function Flagged(fmt: string, i: nat, spec: Spec): Spec
    requires i < |fmt| && IsFlag(fmt[i])
  {
    match fmt[i]
    case '#' => spec.(alternate := true)
    case '0' => spec.(pad := '0', npad := Num(fmt, i + 1))
    case 'l' => spec.(nlong := spec.nlong + 1)
    case 't' => spec.(nlong := 1)
    case 'z' => spec.(nlong := 1)
    case _ => spec.(npad := Num(fmt, i))
  }

  /** Whether a conversion uses up an argument. */
  predicate Takes(f: char) {
    f == 'c' || f == 'd' || f == 'u' || f == 'x' || f == 'p' || f == 's'
  }

  function Converted(f: char, args: seq<Arg>, k: nat, spec: Spec): string {
    match f
    case 'c' => [(WordArg(args, k) % 256) as char]
    case 'd' => Padded(IntText(if spec.nlong == 0 then Int32(WordArg(args, k)) else Int64(WordArg(args, k))), spec.pad, spec.npad)
    case 'u' => UnsignedText(WordArg(args, k) % 0x1_0000_0000, 10, spec)
    case 'x' => UnsignedText(WordArg(args, k) % 0x1_0000_0000, 16, spec)
    case 'p' => UnsignedText(CellArg(args, k) % 0x1_0000_0000, 16, spec.(alternate := true))
    case 's' => Padded(TextArg(args, k), spec.pad, spec.npad)
    case _ => [f]
  }

  function Output(fmt: string, args: seq<Arg>): string {
    Plain(fmt, 0, args, 0)
  }

  function Min(a: int, b: int): int {
    if a < b then a else b
  }

  // ----- the digit buffers

  function Reverse(s: string): (r: string)
    ensures |r| == |s|
  {
    if s == "" then "" else Reverse(s[1..]) + [s[0]]
  }

  lemma {:induction false} ReverseSnoc(s: string, c: char)
    ensures Reverse(s + [c]) == [c] + Reverse(s)
  {
    if s != "" {
      assert (s + [c])[1..] == s[1..] + [c];
      ReverseSnoc(s[1..], c);
    }
  }

  lemma {:induction false} ReverseAt(s: string, k: nat)
    requires k < |s|
    ensures Reverse(s)[k] == s[|s| - 1 - k]
  {
    if k < |s| - 1 {
      ReverseAt(s[1..], k);
    }
  }

  /** The reversal loop of `print_int` and `print_unsigned`. */
  method ReverseIn(buf: array<char>, p: nat)
    requires p <= buf.Length
    modifies buf
    ensures buf[..p] == Reverse(old(buf[..p]))
  {
    var i := 0;
    while i < p / 2
      invariant 0 <= i <= p / 2
      invariant forall j | 0 <= j < i :: buf[j] == old(buf[p - 1 - j]) && buf[p - 1 - j] == old(buf[j])
      invariant forall j | i <= j < p - i :: buf[j] == old(buf[j])
    {
      var tmp := buf[i];
      buf[i] := buf[p - 1 - i];
      buf[p - 1 - i] := tmp;
      i := i + 1;
    }
    forall j | 0 <= j < p
      ensures buf[..p][j] == Reverse(old(buf[..p]))[j]
    {
      ReverseAt(old(buf[..p]), j);
    }
  }

  /** `*p++ = c`: one more character at the end of a digit buffer is one more at the start of the text. */
  method Push(buf: array<char>, p: nat, c: char) returns (p': nat)
    requires p < buf.Length
    modifies buf
    ensures p' == p + 1 && Reverse(buf[..p']) == [c] + Reverse(old(buf[..p]))
  {
    buf[p] := c;
    p' := p + 1;
    ReverseSnoc(old(buf[..p]), c);
    assert buf[..p'] == old(buf[..p]) + [c];
  }

  /** The digit loop: the digits of `n`, least significant first, without leaving the buffer. */
  method DigitsOf(n0: nat, base: nat, buf: array<char>) returns (p: nat)
    requires 10 <= base <= 16 && |Numeral(n0, base)| <= buf.Length
    modifies buf
    ensures p == |Numeral(n0, base)| && Reverse(buf[..p]) == Numeral(n0, base)
  {
    var n: nat := n0;
    p := 0;
    assert Numeral(n, base) + "" == Numeral(n0, base);
    while n != 0
      invariant p + |Numeral(n, base)| == |Numeral(n0, base)| <= buf.Length
      invariant Numeral(n, base) + Reverse(buf[..p]) == Numeral(n0, base)
      decreases n
    {
      NextDigit(n, base, Reverse(buf[..p]));
      p := Push(buf, p, Digit(n % base));
      n := n / base;
    }
  }

  lemma NextDigit(n: nat, base: nat, rest: string)
    requires 10 <= base <= 16 && n > 0
    ensures Numeral(n, base) + rest == Numeral(n / base, base) + ([Digit(n % base)] + rest)
    ensures |Numeral(n, base)| == |Numeral(n / base, base)| + 1 && n / base < n
  {
    Quotient(n, base, n);
    Join(Numeral(n / base, base), [Digit(n % base)], rest);
  }

  /** The magnitudes of `long` numbers have at most 19 digits, 32-bit ones at most 10. */
  lemma Lengths(n: nat, base: nat)
    requires 10 <= base <= 16
    ensures n <= LONG_MAX + 1 ==> |Numeral(n, base)| <= 19
    ensures n < 0x1_0000_0000 ==> |Numeral(n, base)| <= 10
  {
    assert Pow10(10) == 10_000_000_000;
    assert Pow10(19) == 1_000_000_000 * Pow10(10);
    if n <= LONG_MAX + 1 {
      NumeralLength(n, base, 19);
    }
    if n < 0x1_0000_0000 {
      NumeralLength(n, base, 10);
    }
  }

  // ----- the stream

  class PStream {
    const buffer: array<char>
    const room: nat
    ghost const start: seq<char>
    var pos: nat
    var remain: int
    var added: int
    ghost var text: string

    /** Everything added so far is `text`; the buffer holds as much of it as there is room for. */
    ghost predicate Valid()
      reads this, buffer
    {
      && room <= buffer.Length == |start| && pos == Min(|text|, room) && remain == room - pos && added == |text|
      && buffer[..] == text[..pos] + start[pos..]
    }

    constructor (buffer: array<char>, size: int)
      requires 1 <= size <= buffer.Length
      ensures Valid() && this.buffer == buffer && room == size - 1 && text == "" && start == buffer[..]
    {
      this.buffer := buffer;
      room := size - 1;
      start := buffer[..];
      pos := 0;
      remain := size - 1;
      added := 0;
      text := "";
    }

    /** `addchar` */
    method AddChar(c: char)
      requires Valid()
      modifies this, buffer
      ensures Valid() && text == old(text) + [c]
    {
      if remain != 0 {
        buffer[pos] := c;
        pos := pos + 1;
        remain := remain - 1;
      }
      added := added + 1;
      text := text + [c];
      assert buffer[..] == text[..pos] + start[pos..];
    }

    /** `*s.buffer = 0; return s.added;` */
    method Close() returns (r: int)
      requires Valid() && room < buffer.Length
      modifies buffer
      ensures r == |text|
      ensures var m := Min(r, room); buffer[..] == text[..m] + ['\0'] + start[m + 1..]
    {
      buffer[pos] := '\0';
      r := added;
    }

    /** The padding loops of `print_str`. */
    method Pad(c: char, n: int)
      requires Valid()
      modifies this, buffer
      ensures Valid() && text == old(text) + Repeat(c, n)
    {
      var npad := n;
      assert text + Repeat(c, n) == old(text) + Repeat(c, n);
      while npad > 0
        invariant Valid() && (npad >= 0 || npad == n)
        invariant text + Repeat(c, npad) == old(text) + Repeat(c, n)
      {
        ghost var was := text;
        AddChar(c);
        npad := npad - 1;
        assert text + Repeat(c, npad) == was + ([c] + Repeat(c, npad));
      }
      assert text + "" == text;
    }

    /** `print_str` */
    method PrintStr(s: string, spec: Spec)
      requires Valid()
      modifies this, buffer
      ensures Valid() && text == old(text) + Padded(s, spec.pad, spec.npad)
    {
      var npad := spec.npad;
      ghost var was := text;
      if npad > 0 {
        npad := npad - |s|;
        Pad(spec.pad, npad);
        if npad > 0 {
          npad := 0;
        }
      }
      ghost var left := text;
      var i := 0;
      while i < |s|
        invariant 0 <= i <= |s| && Valid() && text == left + s[..i]
      {
        AddChar(s[i]);
        i := i + 1;
      }
      assert s[..|s|] == s;
      if npad < 0 {
        npad := npad + |s|;
        Pad(' ', -npad);
      }
    }

    /** `print_int` in base 10; negating overflows a `long` exactly for the most negative one. */
    method PrintInt(n0: int, spec: Spec) returns (ghost overflow: bool)
      requires Valid() && LONG_MIN <= n0 <= LONG_MAX
      modifies this, buffer
      ensures Valid() && text == old(text) + Padded(IntText(n0), spec.pad, spec.npad)
      ensures overflow <==> n0 == LONG_MIN
    {
      var buf := new char[26](_ => '\0');
      var n := if n0 < 0 then -n0 else n0;
      overflow := n > LONG_MAX;
      Lengths(n, 10);
      var p := DigitsOf(n, 10, buf);
      if n0 < 0 {
        p := Push(buf, p, '-');
      }
      if p == 0 {
        p := Push(buf, p, '0');
      }
      Finish(buf, p, spec);
    }

    /** The end of `print_int` and `print_unsigned`: the digits are put in order, terminated and written. */
    method Finish(buf: array<char>, p: nat, spec: Spec)
      requires Valid() && buf != buffer && p < buf.Length
      modifies this, buffer, buf
      ensures Valid() && text == old(text) + Padded(Reverse(old(buf[..p])), spec.pad, spec.npad)
    {
      ReverseIn(buf, p);
      buf[p] := '\0';
      PrintStr(buf[..p], spec);
    }

    /** The middle of `print_unsigned`: a lone zero, or the `0x` of the alternate form; before zero padding the prefix
        is written at once and takes its share of the field. */
    method Prefix(n: nat, base: nat, buf: array<char>, p0: nat, spec0: Spec) returns (p: nat, spec: Spec, ghost head: string)
      requires Valid() && buf != buffer && p0 + 2 < buf.Length && (base == 10 || base == 16)
      requires p0 == |Numeral(n, base)| && Reverse(buf[..p0]) == Numeral(n, base)
      modifies this, buffer, buf
      ensures Valid() && text == old(text) + head && p < buf.Length
      ensures head + Padded(Reverse(buf[..p]), spec.pad, spec.npad) == UnsignedText(n, base, spec0)
    {
      p, spec, head := p0, spec0, "";
      if p == 0 {
        p := Push(buf, p, '0');
      } else if spec.alternate && base == 16 {
        if spec.pad == '0' {
          AddChar('0');
          AddChar('x');
          head := "0x";
          if spec.npad > 0 {
            spec := spec.(npad := if spec.npad - 2 > 0 then spec.npad - 2 else 0);
          }
        } else {
          p := Push(buf, p, 'x');
          p := Push(buf, p, '0');
        }
      }
      HeadAndField(n, base, spec0, head, Reverse(buf[..p]), spec);
    }

    /** `print_unsigned` */
    method PrintUnsigned(n: nat, base: nat, spec0: Spec)
      requires Valid() && n < 0x1_0000_0000 && (base == 10 || base == 16)
      modifies this, buffer
      ensures Valid() && text == old(text) + UnsignedText(n, base, spec0)
    {
      var buf := new char[27](_ => '\0');
      Lengths(n, base);
      var p := DigitsOf(n, base, buf);
      var spec;
      ghost var head;
      p, spec, head := Prefix(n, base, buf, p, spec0);
      Join(old(text), head, Padded(Reverse(buf[..p]), spec.pad, spec.npad));
      Finish(buf, p, spec);
    }
  }

  lemma Join(a: string, b: string, c: string)
    ensures a + b + c == a + (b + c)
  {}

  lemma HeadAndField(n: nat, base: nat, spec: Spec, head: string, t: string, spec': Spec)
    requires base == 10 || base == 16
    requires n == 0 ==> head == "" && t == ['0'] + "" && spec' == spec
    requires n > 0 && (base == 10 || !spec.alternate) ==> head == "" && t == Numeral(n, base) && spec' == spec
    requires n > 0 && base == 16 && spec.alternate && spec.pad != '0' ==>
      head == "" && t == ['0'] + (['x'] + Numeral(n, base)) && spec' == spec
    requires n > 0 && base == 16 && spec.alternate && spec.pad == '0' ==>
      head == "0x" && t == Numeral(n, base) && spec' ==
        spec.(npad := if spec.npad > 2 then spec.npad - 2 else if spec.npad > 0 then 0 else spec.npad)
    ensures head + Padded(t, spec'.pad, spec'.npad) == UnsignedText(n, base, spec)
  {
    var field := Padded(t, spec'.pad, spec'.npad);
    assert "" + field == field;
    assert ['0'] + "" == "0";
    assert ['0'] + (['x'] + Numeral(n, base)) == "0x" + Numeral(n, base);
  }

  // ----- the directive parser

  /** `fmtnum` */
  method Fmtnum(fmt: string, i: nat) returns (num: int, j: nat)
    requires i <= |fmt|
    ensures num == Num(fmt, i) && j == i + NumLength(fmt, i)
  {
    j := i;
    if j < |fmt| && fmt[j] == '-' {
      j := j + 1;
    }
    while j < |fmt| && '0' <= fmt[j] <= '9'
      invariant i <= j <= |fmt| && j + DigitRun(fmt, j) == i + NumLength(fmt, i)
    {
      j := j + 1;
    }
    ghost var overflow;
    num, overflow := Atol(fmt[i..]);
    num := Int32(num);
  }

  /** The conversion `f` does not print the most negative `long`, whose negation overflows in `print_int`. */
  predicate Negatable(f: char, args: seq<Arg>, k: nat, spec: Spec) {
    f == 'd' && spec.nlong > 0 ==> Int64(WordArg(args, k)) != LONG_MIN
  }

  /** So it is for every conversion from position `i` on, outside a directive. */
  predicate PlainSafe(fmt: string, i: nat, args: seq<Arg>, k: nat)
    requires i <= |fmt|
    decreases |fmt| - i
  {
    i == |fmt| ||
    if fmt[i] != '%' then PlainSafe(fmt, i + 1, args, k) else DirectiveSafe(fmt, i + 1, args, k, DEFAULT)
  }

  predicate DirectiveSafe(fmt: string, i: nat, args: seq<Arg>, k: nat, spec: Spec)
    requires i <= |fmt|
    decreases |fmt| - i
  {
    i == |fmt| ||
    if IsFlag(fmt[i]) then DirectiveSafe(fmt, FlagEnd(fmt, i), args, k, Flagged(fmt, i, spec))
    else Negatable(fmt[i], args, k, spec) && PlainSafe(fmt, i + 1, args, if Takes(fmt[i]) then k + 1 else k)
  }

  /** The cases of the switch that write something. */
  method Convert(s: PStream, f: char, args: seq<Arg>, k: nat, spec: Spec) returns (ghost overflow: bool)
    requires s.Valid() && !IsFlag(f)
    modifies s, s.buffer
    ensures s.Valid() && s.text == old(s.text) + Converted(f, args, k, spec)
    ensures overflow <==> !Negatable(f, args, k, spec)
  {
    overflow := false;
    match f
    case 'c' => s.AddChar((WordArg(args, k) % 256) as char);
    case 'd' =>
      var n := if spec.nlong == 0 then Int32(WordArg(args, k)) else Int64(WordArg(args, k));
      overflow := s.PrintInt(n, spec);
    case 'u' => s.PrintUnsigned(WordArg(args, k) % 0x1_0000_0000, 10, spec);
    case 'x' => s.PrintUnsigned(WordArg(args, k) % 0x1_0000_0000, 16, spec);
    case 'p' => s.PrintUnsigned(CellArg(args, k) % 0x1_0000_0000, 16, spec.(alternate := true));
    case 's' => s.PrintStr(TextArg(args, k), spec);
    case _ => s.AddChar(f);
  }

  /** `vsnprintf`: it writes within `size`, stores the longest prefix of the untruncated output that leaves room for the
      terminating NUL, and returns the length of the untruncated output; all this unless some conversion negates the
      most negative `long`, where C promises nothing. */
  method Vsnprintf(buf: array<char>, size: int, fmt: string, args: seq<Arg>) returns (r: int, ghost overflow: bool)
    requires 1 <= size <= buf.Length
    modifies buf
    ensures overflow <==> !PlainSafe(fmt, 0, args, 0)
    ensures !overflow ==> r == |Output(fmt, args)|
    ensures !overflow ==>
      var m := Min(r, size - 1); buf[..] == Output(fmt, args)[..m] + ['\0'] + old(buf[m + 1..])
  {
    var s := new PStream(buf, size);
    var i: nat, k: nat := 0, 0;
    overflow := false;
    assert s.text + Output(fmt, args) == Output(fmt, args);
    while i < |fmt|
      invariant i <= |fmt| && s.Valid() && (PlainSafe(fmt, 0, args, 0) <==> !overflow && PlainSafe(fmt, i, args, k))
      invariant s.text + Plain(fmt, i, args, k) == Output(fmt, args)
      decreases |fmt| - i
    {
      ghost var o;
      i, k, o := Piece(s, fmt, i, args, k);
      overflow := overflow || o;
    }
    assert s.text + "" == s.text;
    r := s.Close();
  }

  /** The body of the loop: one character of plain text, or one directive. */
  method Piece(s: PStream, fmt: string, i0: nat, args: seq<Arg>, k0: nat) returns (i: nat, k: nat, ghost overflow: bool)
    requires s.Valid() && i0 < |fmt|
    modifies s, s.buffer
    ensures s.Valid() && i0 < i <= |fmt| && (PlainSafe(fmt, i0, args, k0) <==> !overflow && PlainSafe(fmt, i, args, k))
    ensures s.text + Plain(fmt, i, args, k) == old(s.text) + Plain(fmt, i0, args, k0)
  {
    if fmt[i0] != '%' {
      i, k, overflow := i0 + 1, k0, false;
      Join(s.text, [fmt[i0]], Plain(fmt, i, args, k));
      s.AddChar(fmt[i0]);
    } else {
      i, k, overflow := DirectiveAt(s, fmt, i0 + 1, args, k0);
    }
  }

  /** The flags, width and length of a directive: the cases that end in `goto morefmt`. */
  method Flags(fmt: string, i0: nat, ghost args: seq<Arg>, ghost k: nat) returns (i: nat, spec: Spec)
    requires i0 <= |fmt|
    ensures i0 <= i <= |fmt| && (i < |fmt| ==> !IsFlag(fmt[i]))
    ensures DirectiveSafe(fmt, i, args, k, spec) <==> DirectiveSafe(fmt, i0, args, k, DEFAULT)
    ensures Directive(fmt, i, args, k, spec) == Directive(fmt, i0, args, k, DEFAULT)
  {
    i, spec := i0, DEFAULT;
    while i < |fmt| && IsFlag(fmt[i])
      invariant i0 <= i <= |fmt|
      invariant DirectiveSafe(fmt, i, args, k, spec) <==> DirectiveSafe(fmt, i0, args, k, DEFAULT)
      invariant Directive(fmt, i, args, k, spec) == Directive(fmt, i0, args, k, DEFAULT)
      decreases |fmt| - i
    {
      i, spec := Flag(fmt, i, spec);
    }
  }

  method Flag(fmt: string, i0: nat, spec0: Spec) returns (i: nat, spec: Spec)
    requires i0 < |fmt| && IsFlag(fmt[i0])
    ensures i == FlagEnd(fmt, i0) && spec == Flagged(fmt, i0, spec0)
  {
    i, spec := i0 + 1, spec0;
    match fmt[i0]
    case '#' => spec := spec.(alternate := true);
    case '0' =>
      var num;
      num, i := Fmtnum(fmt, i);
      spec := spec.(pad := '0', npad := num);
    case 'l' => spec := spec.(nlong := spec.nlong + 1);
    case 't' => spec := spec.(nlong := 1);
    case 'z' => spec := spec.(nlong := 1);
    case _ =>
      var num;
      num, i := Fmtnum(fmt, i0);
      spec := spec.(npad := num);
  }

  /** One directive, from after the `%` to the end of the switch. */
  method DirectiveAt(s: PStream, fmt: string, i0: nat, args: seq<Arg>, k0: nat)
    returns (i: nat, k: nat, ghost overflow: bool)
    requires s.Valid() && i0 <= |fmt|
    modifies s, s.buffer
    ensures s.Valid() && i0 <= i <= |fmt|
    ensures DirectiveSafe(fmt, i0, args, k0, DEFAULT) <==> !overflow && PlainSafe(fmt, i, args, k)
    ensures s.text + Plain(fmt, i, args, k) == old(s.text) + Directive(fmt, i0, args, k0, DEFAULT)
  {
    var spec;
    k, overflow := k0, false;
    i, spec := Flags(fmt, i0, args, k);
    if i < |fmt| {
      var f := fmt[i];
      if Takes(f) {
        k := k + 1;
      }
      i := i + 1;
      Join(s.text, Converted(f, args, k0, spec), Plain(fmt, i, args, k));
      overflow := Convert(s, f, args, k0, spec);
    }
  }

  // ----- what the output means

  /** Text before the first directive is copied as it stands. */
  lemma {:induction false} LiteralPrefix(a: string, b: string, i: nat, args: seq<Arg>, k: nat)
    requires i <= |a| && '%' !in a
    ensures Plain(a + b, i, args, k) == a[i..] + Plain(a + b, |a|, args, k)
    decreases |a| - i
  {
    if i == |a| {
      assert a[i..] == "";
    } else {
      assert (a + b)[i] == a[i] && a[i] in a;
      LiteralPrefix(a, b, i + 1, args, k);
      assert a[i..] == [a[i]] + a[i + 1..];
      Join([a[i]], a[i + 1..], Plain(a + b, |a|, args, k));
    }
  }

  lemma NoDirectives(fmt: string, args: seq<Arg>)
    requires '%' !in fmt
    ensures Output(fmt, args) == fmt
  {
    assert fmt + "" == fmt;
    LiteralPrefix(fmt, "", 0, args, 0);
    assert fmt[0..] + "" == fmt;
  }

  /** A run of digits at position `i`. */
  lemma {:induction false} RunOfDigits(fmt: string, i: nat, j: nat)
    requires i <= j < |fmt| && (forall x | i <= x < j :: IsDigit(fmt[x])) && !IsDigit(fmt[j])
    ensures DigitRun(fmt, i) == j - i
    decreases j - i
  {
    if i < j {
      RunOfDigits(fmt, i + 1, j);
    }
  }

  /** The first digit of a positive number is not 0, so a width never reads as the zero flag. */
  lemma {:induction false} FirstDigit(w: nat)
    requires w > 0
    ensures Numeral(w, 10) != "" && Numeral(w, 10)[0] != '0'
  {
    if w >= 10 {
      FirstDigit(w / 10);
    }
  }

  /** A width of either sign is read as one flag. */
  lemma WidthFlag(fmt: string, w: int, tail: string)
    requires -0x8000_0000 <= w < 0x8000_0000 && w != 0
    requires fmt == ['%'] + (IntText(w) + tail) && tail != "" && !IsDigit(tail[0])
    ensures var n := |IntText(w)|;
      n > 0 && IsFlag(fmt[1]) && FlagEnd(fmt, 1) == n + 1 && Flagged(fmt, 1, DEFAULT) == DEFAULT.(npad := w)
  {
    WidthDigits(fmt, w, tail);
    WidthNum(fmt, w, tail);
  }

  lemma WidthNum(fmt: string, w: int, tail: string)
    requires -0x8000_0000 <= w < 0x8000_0000 && fmt == ['%'] + (IntText(w) + tail) && Ends(tail)
    ensures Num(fmt, 1) == w
  {
    assert fmt[1..] == IntText(w) + tail;
    ValueOfText(w, tail);
  }

  lemma DigitsAfter(fmt: string, head: string, ds: string, tail: string)
    requires fmt == head + (ds + tail) && (forall c | c in ds :: IsDigit(c)) && tail != "" && !IsDigit(tail[0])
    ensures DigitRun(fmt, |head|) == |ds|
  {
    var i, j := |head|, |head| + |ds|;
    forall x | i <= x < j
      ensures IsDigit(fmt[x])
    {
      assert fmt[x] == ds[x - i] && ds[x - i] in ds;
    }
    assert fmt[j] == tail[0];
    RunOfDigits(fmt, i, j);
  }

  lemma WidthDigits(fmt: string, w: int, tail: string)
    requires w != 0 && fmt == ['%'] + (IntText(w) + tail) && tail != "" && !IsDigit(tail[0])
    ensures IntText(w) != "" && fmt[1] == IntText(w)[0] && fmt[1] != '0' && (fmt[1] == '-' || IsDigit(fmt[1]))
    ensures NumLength(fmt, 1) == |IntText(w)|
  {
    if w < 0 {
      NegativeDigits(fmt, w, tail);
    } else {
      PositiveDigits(fmt, w, tail);
    }
  }

  lemma NegativeDigits(fmt: string, w: int, tail: string)
    requires w < 0 && fmt == ['%'] + (("-" + Numeral(-w, 10)) + tail) && tail != "" && !IsDigit(tail[0])
    ensures fmt[1] == '-' && NumLength(fmt, 1) == 1 + |Numeral(-w, 10)|
  {
    NumeralDigits(-w);
    assert fmt == ['%', '-'] + (Numeral(-w, 10) + tail);
    DigitsAfter(fmt, ['%', '-'], Numeral(-w, 10), tail);
  }

  lemma PositiveDigits(fmt: string, w: int, tail: string)
    requires w > 0 && fmt == ['%'] + (Numeral(w, 10) + tail) && tail != "" && !IsDigit(tail[0])
    ensures Numeral(w, 10) != "" && fmt[1] == Numeral(w, 10)[0] && fmt[1] != '0' && IsDigit(fmt[1])
    ensures NumLength(fmt, 1) == |Numeral(w, 10)|
  {
    NumeralDigits(w);
    FirstDigit(w);
    DigitsAfter(fmt, ['%'], Numeral(w, 10), tail);
    assert fmt[1] == Numeral(w, 10)[0] && Numeral(w, 10)[0] in Numeral(w, 10);
  }

  lemma OneFlag(fmt: string, args: seq<Arg>)
    requires |fmt| > 1 && fmt[0] == '%' && IsFlag(fmt[1])
    ensures Output(fmt, args) == Directive(fmt, FlagEnd(fmt, 1), args, 0, Flagged(fmt, 1, DEFAULT))
    ensures PlainSafe(fmt, 0, args, 0) == DirectiveSafe(fmt, FlagEnd(fmt, 1), args, 0, Flagged(fmt, 1, DEFAULT))
  {
    assert Plain(fmt, 0, args, 0) == Directive(fmt, 1, args, 0, DEFAULT);
    assert PlainSafe(fmt, 0, args, 0) == DirectiveSafe(fmt, 1, args, 0, DEFAULT);
  }

  lemma LongDecimal(fmt: string, i: nat, args: seq<Arg>, spec: Spec)
    requires i + 2 == |fmt| && fmt[i] == 'l' && fmt[i + 1] == 'd' && spec.nlong == 0
    ensures Directive(fmt, i, args, 0, spec) == Padded(IntText(Int64(WordArg(args, 0))), spec.pad, spec.npad)
    ensures DirectiveSafe(fmt, i, args, 0, spec) <==> Int64(WordArg(args, 0)) != LONG_MIN
  {
    var t, long := Padded(IntText(Int64(WordArg(args, 0))), spec.pad, spec.npad), spec.(nlong := 1);
    assert Directive(fmt, i + 1, args, 0, long) == t + Plain(fmt, i + 2, args, 1);
    assert t + "" == t;
    assert DirectiveSafe(fmt, i + 1, args, 0, long) <==> Negatable('d', args, 0, long);
  }

  /** `%ld` with a width of either sign, or without one (0). */
  predicate LongFormat(fmt: string, w: int) {
    -0x8000_0000 <= w < 0x8000_0000 && fmt == ['%'] + ((if w == 0 then "" else IntText(w)) + ['l', 'd'])
  }

  lemma NoWidth(fmt: string, args: seq<Arg>)
    requires |fmt| == 3 && fmt[0] == '%' && fmt[1] == 'l' && fmt[2] == 'd'
    ensures Output(fmt, args) == Padded(IntText(Int64(WordArg(args, 0))), ' ', 0)
    ensures PlainSafe(fmt, 0, args, 0) <==> Int64(WordArg(args, 0)) != LONG_MIN
  {
    LongDecimal(fmt, 1, args, DEFAULT);
    assert Plain(fmt, 0, args, 0) == Directive(fmt, 1, args, 0, DEFAULT);
    assert PlainSafe(fmt, 0, args, 0) == DirectiveSafe(fmt, 1, args, 0, DEFAULT);
  }

  lemma SomeWidth(fmt: string, w: int, args: seq<Arg>, tail: string)
    requires -0x8000_0000 <= w < 0x8000_0000 && w != 0 && |tail| == 2 && tail[0] == 'l' && tail[1] == 'd'
    requires fmt == ['%'] + (IntText(w) + tail)
    ensures Output(fmt, args) == Padded(IntText(Int64(WordArg(args, 0))), ' ', w)
    ensures PlainSafe(fmt, 0, args, 0) <==> Int64(WordArg(args, 0)) != LONG_MIN
  {
    var n := |IntText(w)|;
    assert |fmt| == n + 3 && fmt[0] == '%' && fmt[n + 1] == tail[0] && fmt[n + 2] == tail[1];
    WidthFlag(fmt, w, tail);
    OneFlag(fmt, args);
    LongDecimal(fmt, n + 1, args, DEFAULT.(npad := w));
  }

  /** It writes the number in a field of that width. */
  lemma WidthDirective(fmt: string, w: int, x: nat)
    requires LongFormat(fmt, w)
    ensures Output(fmt, [Word(x)]) == Padded(IntText(Int64(x)), ' ', w)
    ensures PlainSafe(fmt, 0, [Word(x)], 0) <==> Int64(x) != LONG_MIN
  {
    if w == 0 {
      NoWidth(fmt, [Word(x)]);
    } else {
      SomeWidth(fmt, w, [Word(x)], ['l', 'd']);
    }
  }

  /** Formatting a `long` in a field of any width and parsing it again gives the number. */
  lemma FormatThenParse(fmt: string, w: int, x: nat)
    requires LongFormat(fmt, w)
    ensures Value(Output(fmt, [Word(x)])) == Int64(x)
  {
    WidthDirective(fmt, w, x);
    RoundTrip(Int64(x), w);
  }

  /** The text that `vsnprintf` stores for it, when there is room for all of it, parses to the number. */
  method FormatLong(buf: array<char>, size: int, fmt: string, w: int, x: nat) returns (r: int, ghost overflow: bool)
    requires 1 <= size <= buf.Length && LongFormat(fmt, w)
    modifies buf
    ensures overflow <==> Int64(x) == LONG_MIN
    ensures !overflow ==> r == |Padded(IntText(Int64(x)), ' ', w)|
    ensures !overflow && r < size ==> 0 <= r && buf[r] == '\0' && Value(buf[..r]) == Int64(x)
  {
    WidthDirective(fmt, w, x);
    FormatThenParse(fmt, w, x);
    r, overflow := Vsnprintf(buf, size, fmt, [Word(x)]);
    if !overflow && r < size {
      assert buf[..][..r] == Output(fmt, [Word(x)])[..r] == Output(fmt, [Word(x)]);
      assert buf[..][r] == '\0';
    }
  }
}
