/** The log's format strings (OneROM/firmware/src/rtt.c): directives, the arguments
they take, and what they print. */
module RttPrintf {
  import opened Wrappers
  import opened Bits
  import opened RttRing
  import opened RttDigits
  import opened RttFormat
  import opened RttReadBack

  // ---------------------------------------------------------------------
  // Arguments
  // ---------------------------------------------------------------------

  datatype Arg = Integer(value: int) | Str(text: Option<string>) | Pointer(address: nat) | Real

  datatype Length = Int | Char | Short | Long | LongLong | Size

  /** Bits each length holds on this 32-bit core. */
  function Span(l: Length): nat {
    match l
    case Char => 0x100
    case Short => 0x1_0000
    case LongLong => WORD64
    case _ => 0x1_0000_0000
  }

  /** fmt_uarg and fmt_sarg */
  function Unsigned(l: Length, v: int): (u: nat)
    ensures u < WORD64
  {
    v % Span(l)
  }

  function Signed(l: Length, v: int): (i: int)
    ensures -0x8000_0000_0000_0000 <= i < 0x8000_0000_0000_0000
  {
    var half := Span(l) / 2;
    (v + half) % Span(l) - half
  }

  /** va_arg: the next argument, and those after it. */
  function TakeInt(args: seq<Arg>): (int, seq<Arg>) {
    if args == [] then (0, [])
    else (if args[0].Integer? then args[0].value else 0, args[1..])
  }

  function TakeStr(args: seq<Arg>): (Option<string>, seq<Arg>) {
    if args == [] then (None, [])
    else (if args[0].Str? then args[0].text else None, args[1..])
  }

  function TakePointer(args: seq<Arg>): (p: (nat, seq<Arg>))
    ensures p.0 < 0x1_0000_0000
  {
    if args == [] then (0, [])
    else (if args[0].Pointer? then args[0].address % 0x1_0000_0000 else 0, args[1..])
  }

  function Skip(args: seq<Arg>): seq<Arg> {
    if args == [] then [] else args[1..]
  }

  // ---------------------------------------------------------------------
  // One directive
  // ---------------------------------------------------------------------

  datatype Count = Absent | Literal(n: nat) | FromArgument

  /** Everything after the % and before what is printed. */
  datatype Directive = Directive(flags: Flags, width: Count, precision: Count, length: Length, conv: char)

  const NO_FLAGS: Flags := Flags(false, false, false, false, false, false)

  predicate IsFlag(c: char) {
    c == '-' || c == '0' || c == '#' || c == '+' || c == ' '
  }

  function WithFlag(f: Flags, c: char): Flags {
    if c == '-' then f.(left := true)
    else if c == '0' then f.(zero := true)
    else if c == '#' then f.(alt := true)
    else if c == '+' then f.(plus := true)
    else f.(space := true)
  }

  function ParseFlags(s: string, f: Flags): (r: (Flags, string))
    ensures |r.1| <= |s|
  {
    if s != "" && IsFlag(s[0]) then ParseFlags(s[1..], WithFlag(f, s[0])) else (f, s)
  }

  predicate IsDecimal(c: char) {
    '0' <= c <= '9'
  }

  function ParseNumber(s: string, n: nat): (r: (nat, string))
    ensures |r.1| <= |s|
  {
    if s != "" && IsDecimal(s[0]) then ParseNumber(s[1..], n * 10 + DigitValue(s[0])) else (n, s)
  }

  /** No digits at all read as a width of zero. */
  function ParseWidth(s: string): (r: (Count, string))
    ensures |r.1| <= |s|
  {
    if s != "" && s[0] == '*' then (FromArgument, s[1..])
    else
      var (n, rest) := ParseNumber(s, 0);
      (if n == 0 then Absent else Literal(n), rest)
  }

  function ParsePrecision(s: string): (r: (Count, string))
    ensures |r.1| <= |s|
  {
    if s == "" || s[0] != '.' then (Absent, s)
    else if |s| > 1 && s[1] == '*' then (FromArgument, s[2..])
    else
      var (n, rest) := ParseNumber(s[1..], 0);
      (Literal(n), rest)
  }

  function ParseLength(s: string): (r: (Length, string))
    ensures |r.1| <= |s|
  {
    if s == "" then (Int, s)
    else if s[0] == 'h' then (if |s| > 1 && s[1] == 'h' then (Char, s[2..]) else (Short, s[1..]))
    else if s[0] == 'l' then (if |s| > 1 && s[1] == 'l' then (LongLong, s[2..]) else (Long, s[1..]))
    else if s[0] == 'z' then (Size, s[1..])
    else (Int, s)
  }

  /** None when the string ends before the conversion. */
  function ParseDirective(s: string): (r: Option<(Directive, string)>)
    ensures r.Some? ==> |r.value.1| < |s|
  {
    var (flags, s1) := ParseFlags(s, NO_FLAGS);
    var (width, s2) := ParseWidth(s1);
    var (precision, s3) := ParsePrecision(s2);
    var (length, s4) := ParseLength(s3);
    if s4 == "" then None else Some((Directive(flags, width, precision, length, s4[0]), s4[1..]))
  }

  /** A directive's text, with its flags in any order and as often as wanted. */
  function Render(flagText: string, d: Directive): string {
    flagText + RenderWidth(d.width) + RenderPrecision(d.precision) + RenderLength(d.length) + [d.conv]
  }

  function RenderWidth(c: Count): string {
    match c
    case Absent => ""
    case Literal(n) => Decimal(n)
    case FromArgument => "*"
  }

  function RenderPrecision(c: Count): string {
    match c
    case Absent => ""
    case Literal(n) => "." + Decimal(n)
    case FromArgument => ".*"
  }

  function RenderLength(l: Length): string {
    match l
    case Int => ""
    case Char => "hh"
    case Short => "h"
    case Long => "l"
    case LongLong => "ll"
    case Size => "z"
  }

  function FlagsOf(flagText: string, f: Flags): Flags {
    if flagText == "" then f else FlagsOf(flagText[1..], WithFlag(f, flagText[0]))
  }

  /** A character no earlier part of a directive could take. */
  predicate Plain(c: char) {
    !IsFlag(c) && !IsDecimal(c) && c != '*' && c != '.' && c != 'h' && c != 'l' && c != 'z'
  }

  predicate Proper(flagText: string, d: Directive) {
    && (forall i :: 0 <= i < |flagText| ==> IsFlag(flagText[i]))
    && d.flags == FlagsOf(flagText, NO_FLAGS)
    && (d.width.Literal? ==> d.width.n > 0)
    && Plain(d.conv)
  }

  lemma {:induction false} FlagsParse(flagText: string, rest: string, f: Flags)
    requires forall i :: 0 <= i < |flagText| ==> IsFlag(flagText[i])
    requires rest == "" || !IsFlag(rest[0])
    ensures ParseFlags(flagText + rest, f) == (FlagsOf(flagText, f), rest)
  {
    if flagText == "" {
      assert flagText + rest == rest;
    } else {
      FlagsParse(flagText[1..], rest, WithFlag(f, flagText[0]));
      assert (flagText + rest)[1..] == flagText[1..] + rest;
    }
  }

  function Fold(digits: string, n: nat): nat
    requires forall i :: 0 <= i < |digits| ==> IsDecimal(digits[i])
  {
    if digits == "" then n else Fold(digits[1..], n * 10 + DigitValue(digits[0]))
  }

  lemma {:induction false} NumberParses(digits: string, rest: string, n: nat)
    requires forall i :: 0 <= i < |digits| ==> IsDecimal(digits[i])
    requires rest == "" || !IsDecimal(rest[0])
    ensures ParseNumber(digits + rest, n) == (Fold(digits, n), rest)
  {
    if digits == "" {
      assert digits + rest == rest;
    } else {
      NumberParses(digits[1..], rest, n * 10 + DigitValue(digits[0]));
      assert (digits + rest)[1..] == digits[1..] + rest;
    }
  }

  lemma {:induction false} FoldLast(digits: string, n: nat)
    requires digits != "" && forall i :: 0 <= i < |digits| ==> IsDecimal(digits[i])
    ensures Fold(digits, n) == 10 * Fold(digits[..|digits| - 1], n) + DigitValue(digits[|digits| - 1])
  {
    if |digits| > 1 {
      FoldLast(digits[1..], n * 10 + DigitValue(digits[0]));
      assert digits[1..][..|digits| - 2] == digits[..|digits| - 1][1..];
    }
  }

  lemma {:induction false} FoldIsHorner(digits: string)
    requires forall i :: 0 <= i < |digits| ==> IsDecimal(digits[i])
    ensures Fold(digits, 0) == Horner(digits, 10)
  {
    if digits != "" {
      FoldLast(digits, 0);
      FoldIsHorner(digits[..|digits| - 1]);
    }
  }

  lemma DecimalParses(n: nat, rest: string)
    requires rest == "" || !IsDecimal(rest[0])
    ensures ParseNumber(Decimal(n) + rest, 0) == (n, rest)
    ensures IsDecimal(Decimal(n)[0]) && (n > 0 ==> Decimal(n)[0] != '0')
  {
    hide Decimal, ParseNumber, Fold, Horner;
    DecimalReadsBack(n);
    assert forall i :: 0 <= i < |Decimal(n)| ==> Decimal(n)[i] in Decimal(n);
    NumberParses(Decimal(n), rest, 0);
    FoldIsHorner(Decimal(n));
    DecimalFirst(n);
  }

  lemma DecimalFirst(n: nat)
    ensures Decimal(n)[0] == '0' <==> n == 0
  {
    FirstDigit(n, 10, false);
  }

  lemma WidthParses(c: Count, rest: string)
    requires c.Literal? ==> c.n > 0
    requires rest == "" || (!IsDecimal(rest[0]) && rest[0] != '*')
    ensures ParseWidth(RenderWidth(c) + rest) == (c, rest)
  {
    hide Decimal;
    match c
    case Absent =>
      assert "" + rest == rest;
    case Literal(n) =>
      DecimalParses(n, rest);
    case FromArgument =>
      assert ("*" + rest)[1..] == rest;
  }

  lemma PrecisionParses(c: Count, rest: string)
    requires rest == "" || (!IsDecimal(rest[0]) && rest[0] != '*' && rest[0] != '.')
    ensures ParsePrecision(RenderPrecision(c) + rest) == (c, rest)
  {
    hide Decimal;
    match c
    case Absent =>
      assert "" + rest == rest;
    case Literal(n) =>
      DecimalParses(n, rest);
      assert ("." + Decimal(n) + rest)[1..] == Decimal(n) + rest;
      assert ("." + Decimal(n) + rest)[1] == Decimal(n)[0];
    case FromArgument =>
      assert (".*" + rest)[2..] == rest;
  }

  lemma LengthParses(l: Length, rest: string)
    requires rest == "" || Plain(rest[0])
    ensures ParseLength(RenderLength(l) + rest) == (l, rest)
  {
    var s := RenderLength(l) + rest;
    assert s[|RenderLength(l)|..] == rest;
    assert rest != "" ==> s[|RenderLength(l)|] == rest[0];
  }

  /** Parsing undoes rendering: every directive is taken apart into what it was made of. */
  lemma DirectiveParses(flagText: string, d: Directive, rest: string)
    requires Proper(flagText, d)
    ensures ParseDirective(Render(flagText, d) + rest) == Some((d, rest))
  {
    hide ParseFlags, ParseWidth, ParsePrecision, ParseLength, RenderWidth, RenderPrecision, RenderLength, FlagsOf;
    var r4 := [d.conv] + rest;
    var r3 := RenderLength(d.length) + r4;
    var r2 := RenderPrecision(d.precision) + r3;
    var r1 := RenderWidth(d.width) + r2;
    assert Render(flagText, d) + rest == flagText + r1;
    RenderedStarts(d, r4);
    FlagsParse(flagText, r1, NO_FLAGS);
    WidthParses(d.width, r2);
    PrecisionParses(d.precision, r3);
    LengthParses(d.length, r4);
    assert r4[1..] == rest;
  }

  /** A string that ends before the conversion holds no directive. */
  lemma DirectiveCutShort(flagText: string, d: Directive)
    requires Proper(flagText, d)
    ensures ParseDirective(flagText + RenderWidth(d.width) + RenderPrecision(d.precision) + RenderLength(d.length))
            == None
  {
    hide ParseFlags, ParseWidth, ParsePrecision, ParseLength, RenderWidth, RenderPrecision, RenderLength, FlagsOf;
    var r3 := RenderLength(d.length) + "";
    var r2 := RenderPrecision(d.precision) + r3;
    var r1 := RenderWidth(d.width) + r2;
    assert flagText + RenderWidth(d.width) + RenderPrecision(d.precision) + RenderLength(d.length) == flagText + r1;
    RenderedStarts(d, "");
    FlagsParse(flagText, r1, NO_FLAGS);
    WidthParses(d.width, r2);
    PrecisionParses(d.precision, r3);
    LengthParses(d.length, "");
  }

  lemma RenderedStarts(d: Directive, r4: string)
    requires (r4 == "" || Plain(r4[0])) && (d.width.Literal? ==> d.width.n > 0)
    ensures var r3 := RenderLength(d.length) + r4;
      var r2 := RenderPrecision(d.precision) + r3;
      var r1 := RenderWidth(d.width) + r2;
      && (r3 == "" || (!IsFlag(r3[0]) && !IsDecimal(r3[0]) && r3[0] != '*' && r3[0] != '.'))
      && (r2 == "" || (!IsFlag(r2[0]) && !IsDecimal(r2[0]) && r2[0] != '*'))
      && (r1 == "" || !IsFlag(r1[0]))
  {
    hide Decimal;
    if d.width.Literal? {
      DecimalParses(d.width.n, "");
    }
  }

  // ---------------------------------------------------------------------
  // What a directive prints
  // ---------------------------------------------------------------------

  function Padded(body: string, left: bool, pad: int): string {
    if left then body + Repeat(' ', pad) else Repeat(' ', pad) + body
  }

  /** fmt_string: at most `precision` characters, in a field of `width`. */
  function StringText(text: Option<string>, left: bool, width: int, precision: int): string {
    var s := if text.Some? then text.value else "(null)";
    var shown := if precision < 0 || |s| <= precision then s else s[..precision];
    Padded(shown, left, width - |shown|)
  }

  predicate IsInteger(conv: char) {
    conv == 'd' || conv == 'i' || conv == 'u' || conv == 'o' || conv == 'x' || conv == 'X' || conv == 'b' || conv == 'B'
  }

  predicate IsFloat(conv: char) {
    conv in "fFeEgGaA"
  }

  /** One conversion with its width and precision settled: what is printed, and the
      arguments left.  An unsupported conversion still takes its argument. */
  function Convert(conv: char, l: Length, f: Flags, width: int, precision: int, args: seq<Arg>): (string, seq<Arg>) {
    if conv == 'd' || conv == 'i' then
      var (v, rest) := TakeInt(args);
      var sv := Signed(l, v);
      (NumberText(if sv < 0 then -sv else sv, 10, false, sv < 0, f, width, precision), rest)
    else if conv == 'u' || conv == 'o' || conv == 'x' || conv == 'X' || conv == 'b' || conv == 'B' then
      var (v, rest) := TakeInt(args);
      (NumberText(Unsigned(l, v), BaseOf(conv), conv == 'X' || conv == 'B', false, Signless(f), width, precision), rest)
    else if conv == 'c' then
      var (v, rest) := TakeInt(args);
      (Padded([(v % 0x100) as char], f.left, width - 1), rest)
    else if conv == 's' then
      var (t, rest) := TakeStr(args);
      (StringText(t, f.left, width, precision), rest)
    else if conv == 'p' then
      var (p, rest) := TakePointer(args);
      (NumberText(p, 16, false, false, Signless(f).(alt := true, ptr := true), width, precision), rest)
    else if conv == '%' then ("%", args)
    else if IsFloat(conv) || conv == 'n' then (['%', '!', conv], Skip(args))
    else (['%', '!', conv], args)
  }

  /** A value its length can hold is printed as it is. */
  lemma ArgumentKept(l: Length, v: int)
    ensures 0 <= v < Span(l) ==> Unsigned(l, v) == v
    ensures -(Span(l) as int / 2) <= v < Span(l) as int / 2 ==> Signed(l, v) == v
  {
    var m, half := Span(l), Span(l) / 2;
    if 0 <= v < m {
      SmallMod(v, m);
    }
    if -half <= v < half {
      SmallMod(v + half, m);
    }
  }

  /** An integer conversion says which integer it was, whatever its flags, width and
      precision: signed ones with the sign, the others in their own base. */
  lemma IntegersReadBack(conv: char, l: Length, f: Flags, width: int, precision: int, v: int, rest: seq<Arg>)
    requires IsInteger(conv)
    ensures var (text, left) := Convert(conv, l, f, width, precision, [Integer(v)] + rest);
      && left == rest
      && (if conv == 'd' || conv == 'i'
          then ReadNumber(text, 10) == (Signed(l, v) < 0, if Signed(l, v) < 0 then -Signed(l, v) else Signed(l, v))
          else ReadNumber(text, BaseOf(conv)) == (false, Unsigned(l, v)))
  {
    hide ReadNumber, NumberText;
    var sv := Signed(l, v);
    assert ([Integer(v)] + rest)[1..] == rest;
    if conv == 'd' || conv == 'i' {
      NumberReadsBack(if sv < 0 then -sv else sv, 10, false, sv < 0, f, width, precision);
    } else {
      NumberReadsBack(Unsigned(l, v), BaseOf(conv), conv == 'X' || conv == 'B', false, Signless(f), width, precision);
    }
  }

  /** ... and prints what the standard asks for, whatever the flags, width and precision,
      with the one exception in octal. */
  lemma IntegerMeetsStandardIff(
      conv: char, l: Length, f: Flags, width: int, precision: int, v: int, rest: seq<Arg>)
    requires IsInteger(conv)
    ensures var text := Convert(conv, l, f, width, precision, [Integer(v)] + rest).0;
      var isSigned := conv == 'd' || conv == 'i';
      var n := if isSigned then Signed(l, v) else Unsigned(l, v);
      var base, upper, size := if isSigned then 10 else BaseOf(conv),
        conv == 'X' || conv == 'B', if n < 0 then -n else n;
      text == StandardText(size, base, upper, isSigned, n < 0, f, width, precision)
      <==> !(conv == 'o' && LosesZeroFlag(size, 8, false, false, Signless(f), width, precision))
  {
    hide NumberText, StandardText, DigitChars;
    var isSigned := conv == 'd' || conv == 'i';
    var n := if isSigned then Signed(l, v) else Unsigned(l, v);
    NumberMeetsStandardIff(if n < 0 then -n else n, if isSigned then 10 else BaseOf(conv), conv == 'X' || conv == 'B',
                           isSigned, n < 0, f, width, precision);
    assert ([Integer(v)] + rest)[1..] == rest;
  }

  /** A string is shown as far as its precision lets it, at the side of its field that
      was asked for, with blanks in what is left of the field. */
  lemma StringShown(text: Option<string>, left: bool, width: int, precision: int)
    ensures var s := if text.Some? then text.value else "(null)";
      var n := if precision < 0 || |s| <= precision then |s| else precision;
      var t := StringText(text, left, width, precision);
      && |t| == (if width > n then width else n)
      && forall i :: 0 <= i < |t| ==>
           t[i] == if left then (if i < n then s[i] else ' ')
                   else if i < |t| - n then ' ' else s[i - (|t| - n)]
  {
  }

  function BaseOf(conv: char): (b: nat)
    ensures IsBase(b)
  {
    if conv == 'u' then 10 else if conv == 'o' then 8 else if conv == 'x' || conv == 'X' then 16 else 2
  }

  /** A * takes its count from the arguments; a negative width asks for the left. */
  function SettleWidth(d: Directive, args: seq<Arg>): (Flags, int, seq<Arg>) {
    match d.width
    case Absent => (d.flags, 0, args)
    case Literal(n) => (d.flags, n, args)
    case FromArgument =>
      var (w, rest) := TakeInt(args);
      if w < 0 then (d.flags.(left := true), -w, rest) else (d.flags, w, rest)
  }

  function SettlePrecision(d: Directive, args: seq<Arg>): (int, seq<Arg>) {
    match d.precision
    case Absent => (-1, args)
    case Literal(n) => (n, args)
    case FromArgument => TakeInt(args)
  }

  function PrintDirective(d: Directive, args: seq<Arg>): (string, seq<Arg>) {
    var (f, width, args1) := SettleWidth(d, args);
    var (precision, args2) := SettlePrecision(d, args1);
    Convert(d.conv, d.length, f, width, precision, args2)
  }

  /** The whole of a format string, from the arguments it is given. */
  function Formatted(s: string, args: seq<Arg>): string
    decreases |s|
  {
    if s == "" then ""
    else if s[0] != '%' then [s[0]] + Formatted(s[1..], args)
    else
      var d := ParseDirective(s[1..]);
      if d.None? then ""
      else
        var (text, rest) := PrintDirective(d.value.0, args);
        text + Formatted(d.value.1, rest)
  }

  // ---------------------------------------------------------------------
  // A format string as its pieces
  // ---------------------------------------------------------------------

  datatype Piece = Plainly(text: string) | Directly(flagText: string, d: Directive)

  predicate ProperPiece(p: Piece) {
    match p
    case Plainly(text) => '%' !in text
    case Directly(flagText, d) => Proper(flagText, d)
  }

  function RenderPieces(ps: seq<Piece>): string {
    if ps == [] then ""
    else
      (match ps[0]
       case Plainly(text) => text
       case Directly(flagText, d) => "%" + Render(flagText, d))
      + RenderPieces(ps[1..])
  }

  /** Text as it stands, and each directive with the arguments the ones before it left. */
  function PrintPieces(ps: seq<Piece>, args: seq<Arg>): string {
    if ps == [] then ""
    else
      match ps[0]
      case Plainly(text) => text + PrintPieces(ps[1..], args)
      case Directly(_, d) =>
        var (text, rest) := PrintDirective(d, args);
        text + PrintPieces(ps[1..], rest)
  }

  lemma {:induction false} TextPasses(text: string, rest: string, args: seq<Arg>)
    requires '%' !in text
    ensures Formatted(text + rest, args) == text + Formatted(rest, args)
  {
    hide ParseDirective, PrintDirective;
    if text == "" {
      assert text + rest == rest && "" + Formatted(rest, args) == Formatted(rest, args);
    } else {
      TextPasses(text[1..], rest, args);
      assert (text + rest)[1..] == text[1..] + rest;
      assert [text[0]] + (text[1..] + Formatted(rest, args)) == text + Formatted(rest, args);
    }
  }

  lemma DirectivePasses(flagText: string, d: Directive, rest: string, args: seq<Arg>)
    requires Proper(flagText, d)
    ensures Formatted("%" + Render(flagText, d) + rest, args)
            == PrintDirective(d, args).0 + Formatted(rest, PrintDirective(d, args).1)
  {
    hide Render, ParseDirective, PrintDirective;
    DirectiveParses(flagText, d, rest);
    var s := "%" + Render(flagText, d) + rest;
    assert s[1..] == Render(flagText, d) + rest;
  }

  /** Every format string made of text and proper directives prints piece by piece, and
      the arguments stay in step: also past conversions that are not supported. */
  lemma {:induction false} FormattedByPieces(ps: seq<Piece>, args: seq<Arg>)
    requires forall i :: 0 <= i < |ps| ==> ProperPiece(ps[i])
    ensures Formatted(RenderPieces(ps), args) == PrintPieces(ps, args)
  {
    hide Render, Formatted, PrintDirective;
    if ps == [] {
      NothingFormatted(args);
    } else {
      var rest := RenderPieces(ps[1..]);
      match ps[0]
      case Plainly(text) =>
        TextPasses(text, rest, args);
        FormattedByPieces(ps[1..], args);
      case Directly(flagText, d) =>
        DirectivePasses(flagText, d, rest, args);
        FormattedByPieces(ps[1..], PrintDirective(d, args).1);
    }
  }

  lemma NothingFormatted(args: seq<Arg>)
    ensures Formatted("", args) == ""
  {
  }

  // ---------------------------------------------------------------------
  // onerom_rtt_vprintf
  // ---------------------------------------------------------------------

  /** The flag loop. */
  method ReadFlags(fmt: string, start: nat) returns (f: Flags, pos: nat)
    requires start <= |fmt|
    ensures start <= pos <= |fmt| && ParseFlags(fmt[start..], NO_FLAGS) == (f, fmt[pos..])
  {
    f, pos := NO_FLAGS, start;
    while pos < |fmt| && IsFlag(fmt[pos])
      invariant start <= pos <= |fmt| && ParseFlags(fmt[start..], NO_FLAGS) == ParseFlags(fmt[pos..], f)
    {
      assert fmt[pos..][1..] == fmt[pos + 1..];
      f, pos := WithFlag(f, fmt[pos]), pos + 1;
    }
  }

  /** The digit loops of width and precision. */
  method ReadDigits(fmt: string, start: nat) returns (n: nat, pos: nat)
    requires start <= |fmt|
    ensures start <= pos <= |fmt| && ParseNumber(fmt[start..], 0) == (n, fmt[pos..])
  {
    n, pos := 0, start;
    while pos < |fmt| && IsDecimal(fmt[pos])
      invariant start <= pos <= |fmt| && ParseNumber(fmt[start..], 0) == ParseNumber(fmt[pos..], n)
    {
      assert fmt[pos..][1..] == fmt[pos + 1..];
      n, pos := n * 10 + DigitValue(fmt[pos]), pos + 1;
    }
  }

  method ReadWidth(fmt: string, start: nat, flags: Flags, args: seq<Arg>)
      returns (f: Flags, width: int, rest: seq<Arg>, pos: nat)
    requires start <= |fmt|
    ensures start <= pos <= |fmt| && fmt[pos..] == ParseWidth(fmt[start..]).1
    ensures forall d: Directive :: d.flags == flags && d.width == ParseWidth(fmt[start..]).0
              ==> SettleWidth(d, args) == (f, width, rest)
  {
    f, width, rest, pos := flags, 0, args, start;
    if pos < |fmt| && fmt[pos] == '*' {
      var (w, after) := TakeInt(args);
      width, rest, pos := w, after, pos + 1;
      if width < 0 {
        f, width := f.(left := true), -width;
      }
    } else {
      var n, p := ReadDigits(fmt, pos);
      width, pos := n, p;
    }
  }

  method ReadPrecision(fmt: string, start: nat, args: seq<Arg>) returns (precision: int, rest: seq<Arg>, pos: nat)
    requires start <= |fmt|
    ensures start <= pos <= |fmt| && fmt[pos..] == ParsePrecision(fmt[start..]).1
    ensures forall d: Directive :: d.precision == ParsePrecision(fmt[start..]).0
              ==> SettlePrecision(d, args) == (precision, rest)
  {
    precision, rest, pos := -1, args, start;
    if pos < |fmt| && fmt[pos] == '.' {
      pos := pos + 1;
      if pos < |fmt| && fmt[pos] == '*' {
        var (p, after) := TakeInt(args);
        precision, rest, pos := p, after, pos + 1;
      } else {
        assert fmt[start..][1..] == fmt[pos..];
        var n, p := ReadDigits(fmt, pos);
        precision, pos := n, p;
      }
    }
  }

  method ReadLength(fmt: string, start: nat) returns (l: Length, pos: nat)
    requires start <= |fmt|
    ensures start <= pos <= |fmt| && ParseLength(fmt[start..]) == (l, fmt[pos..])
  {
    l, pos := Int, start;
    if pos < |fmt| && fmt[pos] == 'h' {
      l, pos := Short, pos + 1;
      if pos < |fmt| && fmt[pos] == 'h' {
        l, pos := Char, pos + 1;
      }
    } else if pos < |fmt| && fmt[pos] == 'l' {
      l, pos := Long, pos + 1;
      if pos < |fmt| && fmt[pos] == 'l' {
        l, pos := LongLong, pos + 1;
      }
    } else if pos < |fmt| && fmt[pos] == 'z' {
      l, pos := Size, pos + 1;
    }
  }

  method PutPadded(f: Formatter, body: string, left: bool, pad: int)
    requires f.Valid()
    modifies f, f.buf
    ensures f.Valid() && f.Emitted() == old(f.Emitted()) + Padded(body, left, pad)
  {
    hide Repeat, f.Valid, f.Emitted;
    ghost var was := f.Emitted();
    if !left {
      f.Pad(' ', pad);
    }
    ghost var front := f.Emitted();
    for i := 0 to |body|
      invariant f.Valid() && f.Emitted() == front + body[..i]
    {
      f.Putc(body[i]);
      assert body[..i] + [body[i]] == body[..i + 1];
    }
    assert body[..|body|] == body;
    if left {
      f.Pad(' ', pad);
    }
    assert f.Emitted() == was + Padded(body, left, pad);
  }

  /** The switch on the conversion. */
  method PutConversion(f: Formatter, conv: char, l: Length, flags: Flags, width: int, precision: int, args: seq<Arg>)
    returns (rest: seq<Arg>)
    requires f.Valid()
    modifies f, f.buf
    ensures f.Valid()
    ensures var c := Convert(conv, l, flags, width, precision, args);
      f.Emitted() == old(f.Emitted()) + c.0 && rest == c.1
  {
    hide NumberText, Padded, f.Valid, f.Emitted;
    if conv == 'd' || conv == 'i' {
      var (v, after) := TakeInt(args);
      var sv := Signed(l, v);
      f.Number(if sv < 0 then -sv else sv, 10, false, sv < 0, flags, width, precision);
      rest := after;
    } else if conv == 'u' || conv == 'o' || conv == 'x' || conv == 'X' || conv == 'b' || conv == 'B' {
      var (v, after) := TakeInt(args);
      f.Number(Unsigned(l, v), BaseOf(conv), conv == 'X' || conv == 'B', false, Signless(flags), width, precision);
      rest := after;
    } else if conv == 'c' {
      var (v, after) := TakeInt(args);
      PutPadded(f, [(v % 0x100) as char], flags.left, width - 1);
      rest := after;
    } else if conv == 's' {
      var (t, after) := TakeStr(args);
      var s := if t.Some? then t.value else "(null)";
      var shown := if precision < 0 || |s| <= precision then s else s[..precision];
      PutPadded(f, shown, flags.left, width - |shown|);
      rest := after;
    } else if conv == 'p' {
      var (p, after) := TakePointer(args);
      f.Number(p, 16, false, false, Signless(flags).(alt := true, ptr := true), width, precision);
      rest := after;
    } else if conv == '%' {
      f.Putc('%');
      rest := args;
    } else {
      ghost var was := f.Emitted();
      f.Putc('%');
      f.Putc('!');
      f.Putc(conv);
      assert was + ['%'] + ['!'] + [conv] == was + ['%', '!', conv];
      rest := if IsFloat(conv) || conv == 'n' then Skip(args) else args;
    }
  }

  /** One directive, from the character after its %.  None is left if the string ends
      inside it. */
  method PutDirective(f: Formatter, fmt: string, start: nat, args: seq<Arg>) returns (rest: seq<Arg>, pos: nat)
    requires f.Valid() && start <= |fmt|
    modifies f, f.buf
    ensures f.Valid() && start <= pos <= |fmt|
    ensures var d := ParseDirective(fmt[start..]);
      if d.None? then pos == |fmt| && f.Emitted() == old(f.Emitted())
      else start < pos && fmt[pos..] == d.value.1
           && f.Emitted() == old(f.Emitted()) + PrintDirective(d.value.0, args).0
           && rest == PrintDirective(d.value.0, args).1
  {
    hide ParseFlags, ParseWidth, ParsePrecision, ParseLength, Convert, SettleWidth, SettlePrecision, f.Valid, f.Emitted;
    var flags, p1 := ReadFlags(fmt, start);
    var fl, width, args1, p2 := ReadWidth(fmt, p1, flags, args);
    var precision, args2, p3 := ReadPrecision(fmt, p2, args1);
    var l, p4 := ReadLength(fmt, p3);
    if p4 == |fmt| {
      return args2, p4;
    }
    var conv := fmt[p4];
    ghost var d := Directive(flags, ParseWidth(fmt[p1..]).0, ParsePrecision(fmt[p2..]).0, l, conv);
    assert fmt[p4..][1..] == fmt[p4 + 1..];
    assert ParseDirective(fmt[start..]) == Some((d, fmt[p4 + 1..]));
    rest := PutConversion(f, conv, l, fl, width, precision, args2);
    pos := p4 + 1;
  }

  /** The record, in chunks: all of 64 characters but the last, which is what is left. */
  method Vprintf(fmt: string, args0: seq<Arg>) returns (chunks: seq<string>)
    ensures Flatten(chunks) == Formatted(fmt, args0)
    ensures forall i :: 0 <= i < |chunks| ==> 0 < |chunks[i]| <= BUFFER_SIZE
    ensures forall i :: 0 <= i < |chunks| - 1 ==> |chunks[i]| == BUFFER_SIZE
  {
    hide ParseDirective, PrintDirective;
    var f := new Formatter();
    var args, pos := args0, 0;
    assert fmt[0..] == fmt && [] + Formatted(fmt, args0) == Formatted(fmt, args0);
    while pos < |fmt|
      invariant fresh(f) && fresh(f.buf) && f.Valid() && pos <= |fmt|
      invariant f.Emitted() + Formatted(fmt[pos..], args) == Formatted(fmt, args0)
    {
      ghost var s, was := fmt[pos..], f.Emitted();
      assert s[1..] == fmt[pos + 1..];
      if fmt[pos] != '%' {
        assert was + ([fmt[pos]] + Formatted(s[1..], args)) == was + [fmt[pos]] + Formatted(s[1..], args);
        f.Putc(fmt[pos]);
        pos := pos + 1;
      } else {
        ghost var d := ParseDirective(s[1..]);
        ghost var printed := if d.None? then ("", args) else PrintDirective(d.value.0, args);
        args, pos := PutDirective(f, fmt, pos + 1, args);
        Regroups(was, printed.0, Formatted(fmt[pos..], args));
      }
    }
    f.Flush();
    chunks := f.chunks;
  }

  lemma Regroups(a: string, b: string, c: string)
    ensures a + (b + c) == a + b + c && a + "" == a
  {
  }
}
