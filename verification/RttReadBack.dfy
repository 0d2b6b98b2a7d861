/** A reader of the log formatter's integers: what fmt_number prints
(OneROM/firmware/src/rtt.c) says which number it was. */
module RttReadBack {
  import opened RttDigits
  import opened RttFormat

  function SkipSpaces(s: seq<char>): seq<char> {
    if s != [] && s[0] == ' ' then SkipSpaces(s[1..]) else s
  }

  /** 0x and 0b, in either case, for their own bases only. */
  function SkipPrefix(s: seq<char>, base: nat): seq<char> {
    if |s| >= 2 && s[0] == '0'
         && ((base == 16 && (s[1] == 'x' || s[1] == 'X')) || (base == 2 && (s[1] == 'b' || s[1] == 'B')))
    then s[2..] else s
  }

  predicate IsDigit(c: char, base: nat) {
    ('0' <= c <= '9' || 'a' <= c <= 'f' || 'A' <= c <= 'F') && DigitValue(c) < base
  }

  function DigitRun(s: seq<char>, base: nat): seq<char> {
    if s != [] && IsDigit(s[0], base) then [s[0]] + DigitRun(s[1..], base) else []
  }

  /** The value of digits, most significant first. */
  function Horner(s: seq<char>, base: nat): nat
    requires IsBase(base)
  {
    if s == [] then 0 else Scaled(Horner(s[..|s| - 1], base), base) + DigitValue(s[|s| - 1])
  }

  /** Spaces, a sign, a base prefix and digits, as strtol reads them: the sign and the magnitude. */
  function ReadNumber(s: seq<char>, base: nat): (bool, nat)
    requires IsBase(base)
  {
    var t := SkipSpaces(s);
    var unsigned := if t != [] && (t[0] == '-' || t[0] == '+') then t[1..] else t;
    (t != [] && t[0] == '-', Horner(DigitRun(SkipPrefix(unsigned, base), base), base))
  }

  predicate AllDigits(s: seq<char>, base: nat) {
    forall i :: 0 <= i < |s| ==> IsDigit(s[i], base)
  }

  lemma {:induction false} SkipsPast(n: int, t: seq<char>)
    ensures SkipSpaces(Repeat(' ', n) + t) == SkipSpaces(t)
    decreases n
  {
    if n > 0 {
      SkipsPast(n - 1, t);
      assert (Repeat(' ', n) + t)[1..] == Repeat(' ', n - 1) + t;
    } else {
      assert Repeat(' ', n) + t == t;
    }
  }

  lemma {:induction false} RunStops(d: seq<char>, base: nat, n: int)
    requires AllDigits(d, base)
    ensures DigitRun(d + Repeat(' ', n), base) == d
  {
    var s := d + Repeat(' ', n);
    if d != [] {
      RunStops(d[1..], base, n);
      assert s[1..] == d[1..] + Repeat(' ', n);
    }
  }

  lemma {:induction false} HornerZeros(n: int, base: nat)
    requires IsBase(base)
    ensures Horner(Repeat('0', n), base) == 0
    decreases n
  {
    if n > 0 {
      HornerZeros(n - 1, base);
      assert Repeat('0', n)[..n - 1] == Repeat('0', n - 1);
    }
  }

  lemma {:induction false} HornerReversed(n: int, figures: seq<char>, base: nat)
    requires IsBase(base)
    ensures Horner(Repeat('0', n) + Reverse(figures), base) == Evaluate(Values(figures), base)
  {
    hide Scaled;
    var s := Repeat('0', n) + Reverse(figures);
    if figures == [] {
      HornerZeros(n, base);
      assert s == Repeat('0', n);
    } else {
      HornerReversed(n, figures[1..], base);
      assert s[..|s| - 1] == Repeat('0', n) + Reverse(figures[1..]);
      assert Values(figures)[1..] == Values(figures[1..]);
    }
  }

  lemma FiguresAreDigits(value: nat, base: nat, upper: bool, precision: int)
    requires IsBase(base)
    ensures var figures := Figures(value, base, upper, precision);
      AllDigits(figures, base) && Evaluate(Values(figures), base) == value
  {
    hide Scaled;
    DigitCharsReadBack(value, base, upper);
    CharsAreDigits(value, base, upper);
    var figures := Figures(value, base, upper, precision);
    if figures == [] {
      assert Values(figures) == [];
    }
  }

  lemma CharsAreDigits(value: nat, base: nat, upper: bool)
    requires IsBase(base)
    ensures AllDigits(DigitChars(value, base, upper), base)
  {
    DigitsEvaluate(value, base);
  }

  lemma {:induction false} ReverseAllDigits(s: seq<char>, base: nat)
    requires AllDigits(s, base)
    ensures AllDigits(Reverse(s), base)
  {
    if s != [] {
      ReverseAllDigits(s[1..], base);
    }
  }

  /** Reading a laid-out number. */
  lemma ReadsLaid(front: int, value: nat, base: nat, upper: bool, negative: bool, f: Flags, d: seq<char>, back: int)
    requires IsBase(base) && AllDigits(d, base)
    ensures ReadNumber(Repeat(' ', front) + Lead(value, base, upper, negative, f) + d + Repeat(' ', back), base)
            == (negative, Horner(d, base))
  {
    hide Horner, DigitRun, Repeat, Scaled, SkipSpaces, SkipPrefix, Sign, Prefix;
    var sign, prefix, tail := Sign(negative, f), Prefix(value, base, upper, f), d + Repeat(' ', back);
    assert Repeat(' ', front) + Lead(value, base, upper, negative, f) + d + Repeat(' ', back)
        == Repeat(' ', front) + (sign + (prefix + tail)) by {
      hide AllDigits, ReadNumber;
    }
    SkipsPast(front, sign + (prefix + tail));
    ReadsSigned(value, base, upper, negative, f, d, back);
  }

  lemma ReadsSigned(value: nat, base: nat, upper: bool, negative: bool, f: Flags, d: seq<char>, back: int)
    requires IsBase(base) && AllDigits(d, base)
    ensures var t := SkipSpaces(Sign(negative, f) + (Prefix(value, base, upper, f) + (d + Repeat(' ', back))));
      var unsigned := if t != [] && (t[0] == '-' || t[0] == '+') then t[1..] else t;
      && (t != [] && t[0] == '-' <==> negative)
      && DigitRun(SkipPrefix(unsigned, base), base) == d
  {
    hide DigitRun, Repeat, SkipPrefix, SkipSpaces, Prefix, AllDigits;
    RunStops(d, base, back);
    PrefixSkipped(value, base, upper, f, d, back);
    StartsPlain(value, base, upper, f, d, back);
    NoDigitsLeft(base);
    AfterSign(Prefix(value, base, upper, f) + (d + Repeat(' ', back)), Sign(negative, f));
  }

  lemma AfterSign(rest: seq<char>, sign: seq<char>)
    ensures sign == [] ==> sign + rest == rest
    ensures sign == [' '] ==> SkipSpaces(sign + rest) == SkipSpaces(rest)
    ensures |sign| == 1 && sign[0] != ' ' ==> SkipSpaces(sign + rest) == sign + rest && (sign + rest)[1..] == rest
  {
    if |sign| == 1 {
      assert (sign + rest)[1..] == rest;
    }
  }

  lemma PrefixSkipped(value: nat, base: nat, upper: bool, f: Flags, d: seq<char>, back: int)
    requires AllDigits(d, base)
    ensures SkipPrefix(Prefix(value, base, upper, f) + (d + Repeat(' ', back)), base) == d + Repeat(' ', back)
  {
    var prefix, tail := Prefix(value, base, upper, f), d + Repeat(' ', back);
    if prefix == [] {
      assert prefix + tail == tail;
      if |d| >= 2 {
        assert tail[1] == d[1] && IsDigit(d[1], base);
      } else if |tail| >= 2 {
        assert tail[1] == Repeat(' ', back)[1 - |d|] == ' ';
      }
    } else {
      assert (prefix + tail)[2..] == tail;
    }
  }

  /** A number with no sign printed starts with its prefix or a digit, or is blank. */
  lemma StartsPlain(value: nat, base: nat, upper: bool, f: Flags, d: seq<char>, back: int)
    requires AllDigits(d, base)
    ensures var rest := Prefix(value, base, upper, f) + (d + Repeat(' ', back));
      if Prefix(value, base, upper, f) == [] && d == [] then SkipSpaces(rest) == []
      else SkipSpaces(rest) == rest && rest != [] && rest[0] != '-' && rest[0] != '+'
  {
    var prefix := Prefix(value, base, upper, f);
    var rest := prefix + (d + Repeat(' ', back));
    if prefix == [] && d == [] {
      SkipsPast(back, []);
      assert rest == Repeat(' ', back) + [];
    } else if prefix == [] {
      assert rest[0] == d[0] && IsDigit(d[0], base);
    }
  }

  lemma NoDigitsLeft(base: nat)
    ensures SkipPrefix([], base) == [] && DigitRun([], base) == []
  {
  }

  /** Whatever the value, base, flags, width and precision, the text reads back to
      the sign and magnitude that were printed. */
  lemma NumberReadsBack(value: nat, base: nat, upper: bool, negative: bool, f: Flags, width: int, precision: int)
    requires IsBase(base)
    ensures ReadNumber(NumberText(value, base, upper, negative, f, width, precision), base) == (negative, value)
  {
    hide ReadNumber, DigitChars, Lead, Reverse, Repeat, Horner, Evaluate, Laid;
    var figures := Figures(value, base, upper, precision);
    var lead := Lead(value, base, upper, negative, f);
    var p := Raised(f, base, figures, precision);
    var zeros := Zeros(|figures|, p);
    var pad := width - |lead| - zeros - |figures|;
    if pad > 0 && ZeroPads(f, p) {
      LaidReadsBack(0, zeros + pad, 0, value, base, upper, negative, f, precision);
      LaidIs(lead, zeros + pad, figures, f, 0);
    } else {
      LaidReadsBack(if f.left then 0 else pad, zeros, if f.left then pad else 0,
                    value, base, upper, negative, f, precision);
      LaidIs(lead, zeros, figures, f, pad);
    }
  }

  lemma LaidIs(lead: seq<char>, zeros: int, figures: seq<char>, f: Flags, pad: int)
    ensures Laid(lead, zeros, figures, f, pad)
            == Repeat(' ', if f.left then 0 else pad) + lead + (Repeat('0', zeros) + Reverse(figures))
               + Repeat(' ', if f.left then pad else 0)
  {
    hide Reverse;
    assert Repeat(' ', 0) == [];
  }

  lemma LaidReadsBack(
      front: int, zeros: int, back: int, value: nat, base: nat, upper: bool, negative: bool, f: Flags, precision: int)
    requires IsBase(base)
    ensures ReadNumber(Repeat(' ', front) + Lead(value, base, upper, negative, f)
                       + (Repeat('0', zeros) + Reverse(Figures(value, base, upper, precision)))
                       + Repeat(' ', back), base)
            == (negative, value)
  {
    hide ReadNumber, Lead, Figures, Horner, Evaluate, Reverse;
    var figures := Figures(value, base, upper, precision);
    FiguresAreDigits(value, base, upper, precision);
    ReverseAllDigits(figures, base);
    HornerReversed(zeros, figures, base);
    assert IsBase(base) ==> IsDigit('0', base);
    ReadsLaid(front, value, base, upper, negative, f, Repeat('0', zeros) + Reverse(figures), back);
  }

  /** Exactly the field width, unless sign, base, zeros and digits need more. */
  lemma NumberLength(value: nat, base: nat, upper: bool, negative: bool, f: Flags, width: int, precision: int)
    requires IsBase(base)
    ensures var least := |Lead(value, base, upper, negative, f)| + |StandardDigits(value, base, upper, f, precision)|;
      |NumberText(value, base, upper, negative, f, width, precision)| == if width > least then width else least
    ensures StandardDigits(value, base, upper, f, precision) == [] <==>
            value == 0 && precision == 0 && !(f.alt && base == 8)
  {
    hide DigitChars, Lead;
    DigitsAgree(value, base, upper, f, precision);
    FirstDigit(value, base, upper);
  }

  /** Plain decimal text is digits only, and reads back. */
  lemma DecimalReadsBack(v: nat)
    ensures Horner(Decimal(v), 10) == v
    ensures forall c :: c in Decimal(v) ==> '0' <= c <= '9'
  {
    hide Evaluate, Digits, Horner, Scaled;
    DigitCharsReadBack(v, 10, false);
    CharsAreDigits(v, 10, false);
    var cs := DigitChars(v, 10, false);
    ReverseAllDigits(cs, 10);
    HornerReversed(0, cs, 10);
    assert Repeat('0', 0) + Reverse(cs) == Reverse(cs);
    BelowTen();
  }

  lemma BelowTen()
    ensures forall c :: IsDigit(c, 10) ==> '0' <= c <= '9'
  {
  }
}
