/** What a directive of the log's printf prints, said of its characters and arguments
(OneROM/firmware/src/rtt.c; ISO/IEC 9899:2024, section 7.23.6.1). */
module RttMeaning {
  import opened Wrappers
  import opened Bits
  import opened RttDigits
  import opened RttFormat
  import opened RttPrintf

  // ---------------------------------------------------------------------
  // Flags, width, precision and arguments
  // ---------------------------------------------------------------------

  /** A flag is set if its character is there, wherever and however often. */
  lemma {:induction false} FlagsMean(t: string, f: Flags)
    requires forall i :: 0 <= i < |t| ==> IsFlag(t[i])
    ensures FlagsOf(t, f) == Flags(f.left || '-' in t, f.zero || '0' in t, f.alt || '#' in t,
                                   f.plus || '+' in t, f.space || ' ' in t, f.ptr)
  {
    hide WithFlag, IsFlag;
    if t != "" {
      FlagsMean(t[1..], WithFlag(f, t[0]));
      OneFlag(f, t[0]);
      InFirst(t, '-');
      InFirst(t, '0');
      InFirst(t, '#');
      InFirst(t, '+');
      InFirst(t, ' ');
    }
  }

  lemma OneFlag(f: Flags, c: char)
    requires IsFlag(c)
    ensures WithFlag(f, c) == Flags(f.left || c == '-', f.zero || c == '0', f.alt || c == '#',
                                    f.plus || c == '+', f.space || c == ' ', f.ptr)
  {
  }

  lemma InFirst(t: string, c: char)
    requires t != ""
    ensures c in t <==> t[0] == c || c in t[1..]
  {
    assert t == [t[0]] + t[1..];
  }

  lemma ProperFlags(t: string, d: Directive)
    requires Proper(t, d)
    ensures d.flags == Flags('-' in t, '0' in t, '#' in t, '+' in t, ' ' in t, false)
  {
    FlagsMean(t, NO_FLAGS);
  }

  /** The arguments of a directive: a width and a precision for its stars, then the rest. */
  function Given(d: Directive, w: int, p: int, rest: seq<Arg>): seq<Arg> {
    (if d.width.FromArgument? then [Integer(w)] else [])
    + ((if d.precision.FromArgument? then [Integer(p)] else []) + rest)
  }

  function FieldWidth(d: Directive, w: int): nat {
    match d.width
    case Absent => 0
    case Literal(n) => n
    case FromArgument => if w < 0 then -w else w
  }

  /** FlagsAsked for by -, or by a negative width. */
  predicate Leftward(t: string, d: Directive, w: int) {
    '-' in t || (d.width.FromArgument? && w < 0)
  }

  /** A precision left out is none at all, and so is a negative one. */
  function PrecisionGiven(d: Directive, p: int): Option<nat> {
    match d.precision
    case Absent => None
    case Literal(n) => Some(n)
    case FromArgument => if p < 0 then None else Some(p)
  }

  function AsInt(o: Option<nat>): int {
    if o.Some? then o.value else -1
  }

  /** The flags as they stand, with the width's sign counted in. */
  function FlagsAsked(t: string, d: Directive, w: int): Flags {
    Flags(Leftward(t, d, w), '0' in t, '#' in t, '+' in t, ' ' in t, false)
  }

  /** A body in a field: blanks on the other side, if there is room. */
  function InField(body: string, left: bool, width: nat): string {
    if |body| >= width then body
    else if left then body + seq(width - |body|, _ => ' ')
    else seq(width - |body|, _ => ' ') + body
  }

  /** What the stars leave, and what they set. */
  lemma Settled(t: string, d: Directive, w: int, p: int, rest: seq<Arg>)
    requires Proper(t, d)
    ensures SettleWidth(d, Given(d, w, p, rest)).0 == FlagsAsked(t, d, w)
    ensures SettleWidth(d, Given(d, w, p, rest)).1 == FieldWidth(d, w)
    ensures var args := SettleWidth(d, Given(d, w, p, rest)).2;
      SettlePrecision(d, args).1 == rest
      && (SettlePrecision(d, args).0 == AsInt(PrecisionGiven(d, p))
          || (SettlePrecision(d, args).0 < 0 && PrecisionGiven(d, p).None?))
  {
    ProperFlags(t, d);
    var rest' := (if d.precision.FromArgument? then [Integer(p)] else []) + rest;
    assert d.width.FromArgument? ==> Given(d, w, p, rest)[1..] == rest';
    assert d.precision.FromArgument? ==> rest'[1..] == rest;
    assert [] + rest' == rest' && [] + rest == rest;
  }

  /** How a directive prints, with whatever follows it. */
  lemma Printed(t: string, d: Directive, w: int, p: int, rest: seq<Arg>, after: string)
    requires Proper(t, d)
    ensures exists precision: int ::
      && (precision == AsInt(PrecisionGiven(d, p)) || (precision < 0 && PrecisionGiven(d, p).None?))
      && PrintsAs(t, d, w, p, rest, after, precision)
  {
    hide Convert, Render, Formatted;
    DirectivePasses(t, d, after, Given(d, w, p, rest));
    Settled(t, d, w, p, rest);
    var args := SettleWidth(d, Given(d, w, p, rest)).2;
    assert PrintsAs(t, d, w, p, rest, after, SettlePrecision(d, args).0);
  }

  predicate PrintsAs(t: string, d: Directive, w: int, p: int, rest: seq<Arg>, after: string, precision: int) {
    var (text, left) := Convert(d.conv, d.length, FlagsAsked(t, d, w), FieldWidth(d, w), precision, rest);
    Formatted("%" + Render(t, d) + after, Given(d, w, p, rest)) == text + Formatted(after, left)
  }

  lemma PaddedInField(body: string, left: bool, width: nat)
    ensures Padded(body, left, width - |body|) == InField(body, left, width)
  {
    if |body| >= width {
      assert Repeat(' ', width - |body|) == [];
    } else {
      assert Repeat(' ', width - |body|) == seq(width - |body|, _ => ' ');
    }
  }

  // ---------------------------------------------------------------------
  // Each conversion
  // ---------------------------------------------------------------------

  /** %s: the string, or (null), as far as a precision lets it, in its field. */
  lemma StringPrinted(
      t: string, d: Directive, w: int, p: int, text: Option<string>, more: seq<Arg>, after: string)
    requires Proper(t, d) && d.conv == 's'
    ensures var whole := if text.Some? then text.value else "(null)";
      var n := PrecisionGiven(d, p);
      var shown := if n.None? || |whole| <= n.value then whole else whole[..n.value];
      Formatted("%" + Render(t, d) + after, Given(d, w, p, [Str(text)] + more))
      == InField(shown, Leftward(t, d, w), FieldWidth(d, w)) + Formatted(after, more)
  {
    hide Formatted, Render, Padded, InField;
    Printed(t, d, w, p, [Str(text)] + more, after);
    assert ([Str(text)] + more)[1..] == more;
    var whole := if text.Some? then text.value else "(null)";
    var n := PrecisionGiven(d, p);
    var shown := if n.None? || |whole| <= n.value then whole else whole[..n.value];
    PaddedInField(shown, Leftward(t, d, w), FieldWidth(d, w));
  }

  /** %c: one character, in its field. */
  lemma CharPrinted(t: string, d: Directive, w: int, p: int, v: int, more: seq<Arg>, after: string)
    requires Proper(t, d) && d.conv == 'c'
    ensures Formatted("%" + Render(t, d) + after, Given(d, w, p, [Integer(v)] + more))
            == InField([(v % 256) as char], Leftward(t, d, w), FieldWidth(d, w)) + Formatted(after, more)
  {
    hide Formatted, Render, Padded, InField;
    Printed(t, d, w, p, [Integer(v)] + more, after);
    assert ([Integer(v)] + more)[1..] == more;
    PaddedInField([(v % 256) as char], Leftward(t, d, w), FieldWidth(d, w));
  }

  /** %%: itself, whatever stands between. */
  lemma PercentPrinted(t: string, d: Directive, w: int, p: int, more: seq<Arg>, after: string)
    requires Proper(t, d) && d.conv == '%'
    ensures Formatted("%" + Render(t, d) + after, Given(d, w, p, more)) == "%" + Formatted(after, more)
  {
    hide Formatted, Render;
    Printed(t, d, w, p, more, after);
  }

  /** A conversion it does not know shows itself after %!; the floating ones and %n take
      their argument with them. */
  lemma UnknownPrinted(t: string, d: Directive, w: int, p: int, arg: Arg, more: seq<Arg>, after: string)
    requires Proper(t, d) && d.conv !in "diuoxXbBcsp%"
    ensures Formatted("%" + Render(t, d) + after, Given(d, w, p, [arg] + more))
            == "%!" + [d.conv] + Formatted(after, if d.conv in "fFeEgGaAn" then more else [arg] + more)
  {
    hide Formatted, Render;
    Printed(t, d, w, p, [arg] + more, after);
    assert ([arg] + more)[1..] == more;
  }

  /** %p: the address in hexadecimal, with 0x even when it is zero. */
  lemma PointerPrinted(t: string, d: Directive, w: int, p: int, a: nat, more: seq<Arg>, after: string)
    requires Proper(t, d) && d.conv == 'p' && a < 0x1_0000_0000
    ensures Formatted("%" + Render(t, d) + after, Given(d, w, p, [Pointer(a)] + more))
            == StandardText(a, 16, false, false, false, FlagsAsked(t, d, w).(alt := true, ptr := true),
                            FieldWidth(d, w), AsInt(PrecisionGiven(d, p)))
               + Formatted(after, more)
  {
    hide Formatted, Render, NumberText, StandardText, LosesZeroFlag;
    Printed(t, d, w, p, [Pointer(a)] + more, after);
    assert ([Pointer(a)] + more)[1..] == more;
    var f := FlagsAsked(t, d, w).(alt := true, ptr := true);
    SmallMod(a, 0x1_0000_0000);
    assert Signless(FlagsAsked(t, d, w)).(alt := true, ptr := true) == Signless(f);
    forall precision: int | precision == AsInt(PrecisionGiven(d, p)) || (precision < 0 && PrecisionGiven(d, p).None?)
      ensures NumberText(a, 16, false, false, Signless(f), FieldWidth(d, w), precision)
              == StandardText(a, 16, false, false, false, f, FieldWidth(d, w), AsInt(PrecisionGiven(d, p)))
    {
      NumberMeetsStandardIff(a, 16, false, false, false, f, FieldWidth(d, w), precision);
      NotOctal(a, 16, f, FieldWidth(d, w), precision);
      NegativeAlike(a, 16, false, false, false, f, FieldWidth(d, w), precision, AsInt(PrecisionGiven(d, p)));
    }
  }

  lemma NotOctal(value: nat, base: nat, f: Flags, width: int, precision: int)
    requires IsBase(base) && base != 8
    ensures !LosesZeroFlag(value, base, false, false, Signless(f), width, precision)
  {
  }

  /** One negative precision is like another. */
  lemma NegativeAlike(
      value: nat, base: nat, upper: bool, isSigned: bool, negative: bool, f: Flags, width: int, p: int, q: int)
    requires IsBase(base) && (p == q || (p < 0 && q < 0))
    ensures StandardText(value, base, upper, isSigned, negative, f, width, p)
            == StandardText(value, base, upper, isSigned, negative, f, width, q)
    ensures LosesZeroFlag(value, base, upper, negative, f, width, p)
            <==> LosesZeroFlag(value, base, upper, negative, f, width, q)
  {
    hide DigitChars, Reverse, Repeat, WithBase, SignedText, Lead;
  }

  function Width(l: Length): nat {
    match l
    case Char => 8
    case Short => 16
    case LongLong => 64
    case _ => 32
  }

  predicate SignedConversion(c: char) {
    c == 'd' || c == 'i'
  }

  function Radix(c: char): (b: nat)
    ensures IsBase(b)
  {
    if c == 'o' then 8 else if c == 'x' || c == 'X' then 16 else if c == 'b' || c == 'B' then 2 else 10
  }

  /** n is what an argument v is in a type of that many bits. */
  predicate Narrowed(v: int, n: int, bits: nat, isSigned: bool) {
    && bits >= 1 && (v - n) % Pow2(bits) == 0
    && if isSigned then 0 <= n + Pow2(bits - 1) < Pow2(bits) else 0 <= n < Pow2(bits)
  }

  /** The one deviation: # and 0 in octal, with room to pad. */
  predicate Octal0Lost(t: string, d: Directive, w: int, p: int, n: int) {
    && d.conv == 'o' && '#' in t && '0' in t && !Leftward(t, d, w) && PrecisionGiven(d, p).None?
    && n > 0 && FieldWidth(d, w) > 1 + |DigitChars(n, 8, false)|
  }

  /** %d %i %u %o %x %X %b %B: the argument, narrowed to its length, as the standard has it;
      with no precision that is at least one digit, and zero padding stands. */
  lemma IntegerPrinted(t: string, d: Directive, w: int, p: int, v: int, n: int, more: seq<Arg>, after: string)
    requires Proper(t, d) && d.conv in "diuoxXbB"
    requires Narrowed(v, n, Width(d.length), SignedConversion(d.conv))
    ensures Formatted("%" + Render(t, d) + after, Given(d, w, p, [Integer(v)] + more))
            == StandardText(if n < 0 then -n else n, Radix(d.conv), d.conv == 'X' || d.conv == 'B',
                            SignedConversion(d.conv), n < 0, FlagsAsked(t, d, w),
                            FieldWidth(d, w), AsInt(PrecisionGiven(d, p)))
               + Formatted(after, more)
            <==> !Octal0Lost(t, d, w, p, n)
  {
    hide Formatted, Render, Convert, StandardText, LosesZeroFlag, Narrowed;
    Printed(t, d, w, p, [Integer(v)] + more, after);
    var precision: int :|
      (precision == AsInt(PrecisionGiven(d, p)) || (precision < 0 && PrecisionGiven(d, p).None?))
      && PrintsAs(t, d, w, p, [Integer(v)] + more, after, precision);
    var f, width, q := FlagsAsked(t, d, w), FieldWidth(d, w), AsInt(PrecisionGiven(d, p));
    var isSigned, upper, size := SignedConversion(d.conv), d.conv == 'X' || d.conv == 'B', if n < 0 then -n else n;
    IsNarrowed(d.length, v, n, isSigned);
    IntegerMeetsStandardIff(d.conv, d.length, f, width, precision, v, more);
    IntegersReadBack(d.conv, d.length, f, width, precision, v, more);
    NegativeAlike(size, Radix(d.conv), upper, isSigned, n < 0, f, width, precision, q);
    NegativeAlike(size, 8, false, false, false, Signless(f), width, precision, q);
    LossIs(t, d, w, p, n);
    var text := Convert(d.conv, d.length, f, width, precision, [Integer(v)] + more).0;
    SameTail(text, StandardText(size, Radix(d.conv), upper, isSigned, n < 0, f, width, q), Formatted(after, more));
  }

  lemma SameTail(a: string, b: string, tail: string)
    ensures a + tail == b + tail <==> a == b
  {
    if a + tail == b + tail {
      assert |a| == |b| && a == (a + tail)[..|a|] && b == (b + tail)[..|b|];
    }
  }

  lemma LossIs(t: string, d: Directive, w: int, p: int, n: int)
    ensures d.conv == 'o' && n >= 0 ==>
              (LosesZeroFlag(n, 8, false, false, Signless(FlagsAsked(t, d, w)),
                             FieldWidth(d, w), AsInt(PrecisionGiven(d, p)))
               <==> Octal0Lost(t, d, w, p, n))
  {
    hide DigitChars;
  }

  /** fmt_sarg and fmt_uarg narrow. */
  lemma IsNarrowed(l: Length, v: int, n: int, isSigned: bool)
    requires Narrowed(v, n, Width(l), isSigned)
    ensures n == if isSigned then Signed(l, v) else Unsigned(l, v)
  {
    var m := Pow2(Width(l));
    Pow2Values();
    Pow2At64();
    HalfSpan(l);
    var k := (v - n) / m;
    Quotient0(v - n, m);
    if isSigned {
      ModUniqueInt(v + m / 2, m, k, n + m / 2);
    } else {
      ModUniqueInt(v, m, k, n);
    }
  }

  lemma Quotient0(x: int, m: nat)
    requires m > 0 && x % m == 0
    ensures x == m * (x / m)
  {
  }

  /** Bits.ModUnique, below zero too. */
  lemma ModUniqueInt(x: int, m: nat, q: int, r: nat)
    requires r < m && x == m * q + r
    ensures x % m == r
  {
    var q', r' := x / m, x % m;
    assert x == m * q' + r';
    assert m * (q - q') == r' - r && m * (q' - q) == r - r';
    if q > q' {
      AtLeast(m, q - q');
    } else if q < q' {
      AtLeast(m, q' - q);
    }
  }

  lemma AtLeast(m: nat, d: nat)
    requires d >= 1
    ensures m * d >= m
  {
  }

  lemma HalfSpan(l: Length)
    ensures Span(l) == Pow2(Width(l)) == 2 * Pow2(Width(l) - 1) && Span(l) / 2 == Pow2(Width(l) - 1)
  {
    Pow2Values();
    Pow2At64();
  }

  /** A format that ends inside a directive prints nothing of it. */
  lemma CutShortPrinted(t: string, d: Directive, args: seq<Arg>)
    requires Proper(t, d)
    ensures Formatted("%" + (t + RenderWidth(d.width) + RenderPrecision(d.precision) + RenderLength(d.length)), args)
            == ""
  {
    hide ParseDirective, RenderWidth, RenderPrecision, RenderLength, PrintDirective;
    DirectiveCutShort(t, d);
    var s := t + RenderWidth(d.width) + RenderPrecision(d.precision) + RenderLength(d.length);
    assert ("%" + s)[1..] == s;
  }

  // ---------------------------------------------------------------------
  // The plainest formats
  // ---------------------------------------------------------------------

  function Bare(conv: char): Directive {
    Directive(NO_FLAGS, Absent, Absent, Int, conv)
  }

  lemma BareText(conv: char)
    ensures "%" + Render("", Bare(conv)) + "" == ['%', conv]
    ensures Plain(conv) ==> Proper("", Bare(conv))
    ensures FlagsAsked("", Bare(conv), 0) == NO_FLAGS
  {
  }

  lemma BareGiven(conv: char, arg: Arg)
    ensures Given(Bare(conv), 0, 0, [arg] + []) == [arg] && Formatted("", []) == ""
  {
  }

  /** "%s" prints the string. */
  lemma WholeString(text: string)
    ensures Formatted("%s", [Str(Some(text))]) == text
  {
    hide Formatted, Render;
    BareText('s');
    BareGiven('s', Str(Some(text)));
    StringPrinted("", Bare('s'), 0, 0, Some(text), [], "");
  }

  /** "%d" prints a 32-bit number in decimal, zero included. */
  lemma PlainNumber(v: int)
    requires -0x8000_0000 <= v < 0x8000_0000
    ensures Formatted("%d", [Integer(v)]) == (if v < 0 then "-" + Decimal(-v) else Decimal(v))
  {
    hide Formatted, Render, StandardText, DigitChars;
    BareText('d');
    BareGiven('d', Integer(v));
    HalfSpan(Int);
    Pow2Values();
    IntegerPrinted("", Bare('d'), 0, 0, v, v, [], "");
    PlainStandard(if v < 0 then -v else v, 10, true, v < 0);
  }

  /** "%x" prints its digits in hexadecimal. */
  lemma PlainHex(v: nat)
    requires v < 0x1_0000_0000
    ensures Formatted("%x", [Integer(v)]) == Reverse(DigitChars(v, 16, false))
  {
    hide Formatted, Render, StandardText, DigitChars;
    BareText('x');
    BareGiven('x', Integer(v));
    Pow2Values();
    IntegerPrinted("", Bare('x'), 0, 0, v, v, [], "");
    PlainStandard(v, 16, false, false);
  }

  lemma PlainStandard(size: nat, base: nat, isSigned: bool, negative: bool)
    requires IsBase(base) && (negative ==> isSigned)
    ensures StandardText(size, base, false, isSigned, negative, NO_FLAGS, 0, -1)
            == (if negative then "-" else "") + Reverse(DigitChars(size, base, false))
  {
    hide DigitChars, Reverse;
    FirstDigit(size, base, false);
    ZeroPlain(base);
    var plain := Reverse(DigitChars(size, base, false));
    assert size == 0 ==> Repeat('0', 1) + [] == plain;
    assert size != 0 ==> Repeat('0', 1 - |plain|) + plain == plain;
  }

  lemma ZeroPlain(base: nat)
    requires IsBase(base)
    ensures Reverse(DigitChars(0, base, false)) == "0"
  {
    assert Reverse(['0']) == ['0'];
  }
}
