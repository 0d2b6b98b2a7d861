/** The printf formatter of the log (OneROM/firmware/src/rtt.c): output through a
64-byte buffer, and integer conversions. */
module RttFormat {
  import opened RttDigits
  import opened RttRing

  const BUFFER_SIZE: nat := 64

  datatype Flags = Flags(left: bool, zero: bool, alt: bool, plus: bool, space: bool, ptr: bool)

  // ---------------------------------------------------------------------
  // What an integer conversion prints
  // ---------------------------------------------------------------------

  function Repeat(c: char, count: int): (s: seq<char>)
    ensures |s| == if count > 0 then count else 0
    ensures forall i :: 0 <= i < |s| ==> s[i] == c
  {
    if count > 0 then seq(count, _ => c) else []
  }

  function Reverse(s: seq<char>): (r: seq<char>)
    ensures |r| == |s|
  {
    if s == [] then [] else Reverse(s[1..]) + [s[0]]
  }

  /** A number in decimal, most significant digit first. */
  function Decimal(v: nat): (s: seq<char>)
    ensures |s| >= 1
  {
    DigitCharsReadBack(v, 10, false);
    Reverse(DigitChars(v, 10, false))
  }

  function Sign(negative: bool, f: Flags): seq<char> {
    if negative then ['-'] else if f.plus then ['+'] else if f.space then [' '] else []
  }

  /** The + and space flags ask for a sign, which only a signed conversion has. */
  function Signless(f: Flags): Flags {
    f.(plus := false, space := false)
  }

  function Prefix(value: nat, base: nat, upper: bool, f: Flags): seq<char> {
    if !f.alt then []
    else if base == 16 && (value != 0 || f.ptr) then ['0', if upper then 'X' else 'x']
    else if base == 2 && value != 0 then ['0', if upper then 'B' else 'b']
    else []
  }

  function Lead(value: nat, base: nat, upper: bool, negative: bool, f: Flags): (s: seq<char>)
    ensures |s| <= 3
  {
    Sign(negative, f) + Prefix(value, base, upper, f)
  }

  /** The digits printed, least significant first: none for zero at precision zero. */
  function Figures(value: nat, base: nat, upper: bool, precision: int): seq<char>
    requires IsBase(base)
  {
    if precision == 0 && value == 0 then [] else DigitChars(value, base, upper)
  }

  /** The precision the rest of the conversion sees: # on an octal conversion raises
      it so that the first digit is a zero. */
  function Raised(f: Flags, base: nat, figures: seq<char>, precision: int): int {
    if !(f.alt && base == 8) then precision
    else if figures == [] then 1
    else if figures[|figures| - 1] != '0' && precision <= |figures| then |figures| + 1
    else precision
  }

  function Zeros(figures: nat, precision: int): nat {
    if precision >= 0 && figures < precision then precision - figures else 0
  }

  predicate ZeroPads(f: Flags, precision: int) {
    f.zero && !f.left && precision < 0
  }

  function Laid(lead: seq<char>, zeros: int, figures: seq<char>, f: Flags, pad: int): seq<char> {
    (if f.left then [] else Repeat(' ', pad)) + lead + Repeat('0', zeros) + Reverse(figures)
    + (if f.left then Repeat(' ', pad) else [])
  }

  /** fmt_number's output. */
  function NumberText(
      value: nat, base: nat, upper: bool, negative: bool, f: Flags, width: int, precision: int): seq<char>
    requires IsBase(base)
  {
    var figures := Figures(value, base, upper, precision);
    var lead := Lead(value, base, upper, negative, f);
    var p := Raised(f, base, figures, precision);
    var zeros := Zeros(|figures|, p);
    var pad := width - |lead| - zeros - |figures|;
    if pad > 0 && ZeroPads(f, p) then Laid(lead, zeros + pad, figures, f, 0)
    else Laid(lead, zeros, figures, f, pad)
  }

  // ---------------------------------------------------------------------
  // The buffer it goes through
  // ---------------------------------------------------------------------

  class Formatter {
    const buf: array<char>
    var len: nat
    var chunks: seq<seq<char>>    // what has been handed to the ring

    /** Until the last flush, every chunk handed over is a full buffer. */
    ghost predicate Valid()
      reads this
    {
      && buf.Length == BUFFER_SIZE && len <= BUFFER_SIZE
      && forall i :: 0 <= i < |chunks| ==> |chunks[i]| == BUFFER_SIZE
    }

    ghost function Emitted(): seq<char>
      requires Valid()
      reads this, buf
    {
      Flatten(chunks) + buf[..len]
    }

    constructor ()
      ensures Valid() && fresh(buf) && Emitted() == []
    {
      buf := new char[BUFFER_SIZE];
      len := 0;
      chunks := [];
    }

    /** fmt_flush: nothing is sent for an empty buffer. */
    method Flush()
      requires Valid()
      modifies this
      ensures len == 0
      ensures chunks == if old(len) == 0 then old(chunks) else old(chunks) + [old(buf[..len])]
      ensures Flatten(chunks) == old(Emitted())
    {
      if len != 0 {
        var last := buf[..len];
        assert (chunks + [last])[..|chunks|] == chunks;
        chunks := chunks + [last];
        len := 0;
      } else {
        assert Flatten(chunks) + [] == Flatten(chunks);
      }
    }

    method Putc(c: char)
      requires Valid()
      modifies this, buf
      ensures Valid() && Emitted() == old(Emitted()) + [c]
    {
      if len >= BUFFER_SIZE {
        Flush();
        assert Flatten(chunks) + [] == Flatten(chunks);
      }
      ghost var kept := buf[..len];
      buf[len] := c;
      len := len + 1;
      assert buf[..len] == kept + [c];
    }

    method Pad(c: char, count: int)
      requires Valid()
      modifies this, buf
      ensures Valid() && Emitted() == old(Emitted()) + Repeat(c, count)
    {
      ghost var was := Emitted();
      var left, i := count, 0;
      while left > 0
        invariant Valid() && i == (if count > 0 then count - left else 0) && (count > 0 ==> left >= 0)
        invariant Emitted() == was + Repeat(c, i)
      {
        Putc(c);
        assert Repeat(c, i) + [c] == Repeat(c, i + 1);
        left, i := left - 1, i + 1;
      }
    }

    /** The first n characters of an array, in order. */
    method PutAll(a: array<char>, n: nat)
      requires Valid() && a != buf && n <= a.Length
      modifies this, buf
      ensures Valid() && Emitted() == old(Emitted()) + a[..n]
    {
      ghost var was := Emitted();
      for i := 0 to n
        invariant Valid() && Emitted() == was + a[..i] && a[..] == old(a[..])
      {
        Putc(a[i]);
        assert a[..i] + [a[i]] == a[..i + 1];
      }
    }

    /** The first n characters of an array, last first. */
    method PutReversed(a: array<char>, n: nat)
      requires Valid() && a != buf && n <= a.Length
      modifies this, buf
      ensures Valid() && Emitted() == old(Emitted()) + Reverse(a[..n])
    {
      ghost var was := Emitted();
      var k: nat := n;
      assert was + Reverse(a[n..n]) == was;
      while k > 0
        invariant k <= n && Valid() && a[..] == old(a[..])
        invariant Emitted() + Reverse(a[..k]) == was + Reverse(a[..n])
      {
        k := k - 1;
        ReverseLast(a[..k + 1]);
        assert a[..k + 1][..k] == a[..k];
        Putc(a[k]);
      }
      assert Emitted() + Reverse(a[..0]) == Emitted();
    }

    /** fmt_number */
    method Number(value: nat, base: nat, upper: bool, negative: bool, f: Flags, width: int, prec: int)
      requires Valid() && value < WORD64 && IsBase(base)
      modifies this, buf
      ensures Valid()
      ensures Emitted() == old(Emitted()) + NumberText(value, base, upper, negative, f, width, prec)
    {
      hide Laid, DigitChars, Lead, Repeat, Reverse, Valid, Emitted, DigitChars;
      var digits := new char[MAX_DIGITS];
      var lead := new char[3];
      var precision, ndigits := prec, 0;
      if !(precision == 0 && value == 0) {
        ndigits := FmtDigits(value, base, upper, digits);
      }
      var nlead := PutLead(lead, value, base, upper, negative, f);
      ghost var figures := digits[..ndigits];
      if f.alt && base == 8 {
        if ndigits == 0 {
          precision := 1;
        } else if digits[ndigits - 1] != '0' && precision <= ndigits {
          precision := ndigits + 1;
        }
      }
      var zeros := 0;
      if precision >= 0 && ndigits < precision {
        zeros := precision - ndigits;
      }
      var pad := width - nlead - zeros - ndigits;
      if pad > 0 && f.zero && !f.left && precision < 0 {
        zeros := zeros + pad;
        pad := 0;
      }
      Emit(lead, nlead, zeros, digits, ndigits, f, pad);
    }

    method Emit(lead: array<char>, nlead: nat, zeros: int, digits: array<char>, ndigits: nat, f: Flags, pad: int)
      requires Valid() && lead != buf && digits != buf && nlead <= lead.Length && ndigits <= digits.Length
      modifies this, buf
      ensures Valid()
      ensures Emitted() == old(Emitted()) + Laid(lead[..nlead], zeros, digits[..ndigits], f, pad)
    {
      hide Repeat, Reverse, Valid, Emitted;
      ghost var was := Emitted();
      ghost var front := if f.left then [] else Repeat(' ', pad);
      ghost var back := if f.left then Repeat(' ', pad) else [];
      if !f.left {
        Pad(' ', pad);
      }
      assert Emitted() == was + front;
      PutAll(lead, nlead);
      Pad('0', zeros);
      PutReversed(digits, ndigits);
      Regroup(was, front, lead[..nlead], Repeat('0', zeros), Reverse(digits[..ndigits]), back);
      if f.left {
        Pad(' ', pad);
      }
    }
  }

  lemma Regroup(was: seq<char>, a: seq<char>, b: seq<char>, c: seq<char>, d: seq<char>, e: seq<char>)
    ensures was + a + b + c + d + e == was + (a + b + c + d + e)
    ensures e == [] ==> was + a + b + c + d == was + (a + b + c + d + e)
  {
  }

  method PutLead(lead: array<char>, value: nat, base: nat, upper: bool, negative: bool, f: Flags) returns (n: nat)
    requires lead.Length == 3
    modifies lead
    ensures n <= 3 && lead[..n] == Lead(value, base, upper, negative, f)
  {
    n := 0;
    if negative {
      lead[n] := '-';
      n := n + 1;
    } else if f.plus {
      lead[n] := '+';
      n := n + 1;
    } else if f.space {
      lead[n] := ' ';
      n := n + 1;
    }
    if f.alt {
      if base == 16 && (value != 0 || f.ptr) {
        lead[n], lead[n + 1] := '0', if upper then 'X' else 'x';
        n := n + 2;
      } else if base == 2 && value != 0 {
        lead[n], lead[n + 1] := '0', if upper then 'B' else 'b';
        n := n + 2;
      }
    }
  }

  lemma {:induction false} ReverseLast(s: seq<char>)
    requires s != []
    ensures Reverse(s) == [s[|s| - 1]] + Reverse(s[..|s| - 1])
  {
    if |s| > 1 {
      ReverseLast(s[1..]);
      assert s[1..][..|s| - 2] == s[..|s| - 1][1..];
    }
  }

  // ---------------------------------------------------------------------
  // Against the C standard
  // ---------------------------------------------------------------------

  /** ISO/IEC 9899:2024, section 7.23.6.1: the digits, at least `precision` of them
      (one if none is given), with a zero put in front of an octal value by #. */
  function StandardDigits(value: nat, base: nat, upper: bool, f: Flags, precision: int): seq<char>
    requires IsBase(base)
  {
    var least := if precision < 0 then 1 else precision;
    var plain := if value == 0 then [] else Reverse(DigitChars(value, base, upper));
    var digits := Repeat('0', least - |plain|) + plain;
    if f.alt && base == 8 && (digits == [] || digits[0] != '0') then ['0'] + digits else digits
  }

  /** ... # puts 0x or 0X (0b or 0B) in front of a nonzero result; %p, whose form is the
      implementation's own, always has it here ... */
  function WithBase(text: seq<char>, value: nat, base: nat, upper: bool, f: Flags): seq<char> {
    if !f.alt || (value == 0 && !(f.ptr && base == 16)) || (base != 16 && base != 2) then text
    else (if base == 16 then (if upper then "0X" else "0x") else (if upper then "0B" else "0b")) + text
  }

  /** ... a signed conversion begins with a minus sign for a negative value, and with a plus
      sign otherwise if + asks for one ... */
  function WithSign(text: seq<char>, negative: bool, f: Flags): seq<char> {
    if negative then "-" + text else if f.plus then "+" + text else text
  }

  predicate BeginsWithSign(text: seq<char>) {
    text != [] && (text[0] == '+' || text[0] == '-')
  }

  /** ... and a space goes in front of one that has no sign, if the space flag is given. */
  function WithSpace(text: seq<char>, f: Flags): seq<char> {
    if f.space && !BeginsWithSign(text) then " " + text else text
  }

  function SignedText(text: seq<char>, isSigned: bool, negative: bool, f: Flags): seq<char> {
    if isSigned then WithSpace(WithSign(text, negative, f), f) else text
  }

  /** The field is filled with spaces on the left, on the right with -, or with zeros
      after the sign and base by 0, which - or a precision turns off. */
  function StandardText(
      value: nat, base: nat, upper: bool, isSigned: bool, negative: bool, f: Flags,
      width: int, precision: int): seq<char>
    requires IsBase(base)
  {
    var digits := StandardDigits(value, base, upper, f, precision);
    var text := SignedText(WithBase(digits, value, base, upper, f), isSigned, negative, f);
    var room := width - |text|;
    if f.left then text + Repeat(' ', room)
    else if f.zero && precision < 0 then
      SignedText(WithBase(Repeat('0', room) + digits, value, base, upper, f), isSigned, negative, f)
    else Repeat(' ', room) + text
  }

  /** The sign flags reach fmt_number only from a signed conversion. */
  function Asked(f: Flags, isSigned: bool): Flags {
    if isSigned then f else Signless(f)
  }

  /** What the standard puts in front of the digits is fmt_number's lead. */
  lemma LeadIsStandard(
      digits: seq<char>, value: nat, base: nat, upper: bool, isSigned: bool, negative: bool, f: Flags)
    requires (negative ==> isSigned) && !BeginsWithSign(digits)
    ensures SignedText(WithBase(digits, value, base, upper, f), isSigned, negative, f)
            == Lead(value, base, upper, negative, Asked(f, isSigned)) + digits
  {
    hide WithBase, SignedText, Prefix, Sign;
    var prefix, sign := Prefix(value, base, upper, f), Sign(negative, Asked(f, isSigned));
    BaseIsPrefix(digits, value, base, upper, f);
    SignIsStandard(prefix + digits, isSigned, negative, f);
    assert sign + (prefix + digits) == sign + prefix + digits;
    LeadOf(value, base, upper, negative, Asked(f, isSigned));
    SamePrefix(value, base, upper, f, isSigned);
  }

  lemma LeadOf(value: nat, base: nat, upper: bool, negative: bool, f: Flags)
    ensures Lead(value, base, upper, negative, f) == Sign(negative, f) + Prefix(value, base, upper, f)
  {
  }

  lemma SamePrefix(value: nat, base: nat, upper: bool, f: Flags, isSigned: bool)
    ensures Prefix(value, base, upper, Asked(f, isSigned)) == Prefix(value, base, upper, f)
  {
  }

  lemma BaseIsPrefix(digits: seq<char>, value: nat, base: nat, upper: bool, f: Flags)
    requires !BeginsWithSign(digits)
    ensures WithBase(digits, value, base, upper, f) == Prefix(value, base, upper, f) + digits
    ensures !BeginsWithSign(Prefix(value, base, upper, f) + digits)
  {
  }

  lemma SignIsStandard(text: seq<char>, isSigned: bool, negative: bool, f: Flags)
    requires (negative ==> isSigned) && !BeginsWithSign(text)
    ensures SignedText(text, isSigned, negative, f) == Sign(negative, Asked(f, isSigned)) + text
  {
  }

  /** Digits begin with a digit. */
  lemma {:induction false} DigitsUnsigned(value: nat, base: nat, upper: bool, f: Flags, precision: int, room: int)
    requires IsBase(base)
    ensures !BeginsWithSign(Repeat('0', room) + StandardDigits(value, base, upper, f, precision))
  {
    hide DigitChars, Reverse;
    FirstDigit(value, base, upper);
    LastIsNoSign(value, base, upper);
  }

  lemma LastIsNoSign(value: nat, base: nat, upper: bool)
    requires IsBase(base)
    ensures var s := DigitChars(value, base, upper); s != [] && s[|s| - 1] != '+' && s[|s| - 1] != '-'
  {
  }

  /** #, 0 and no precision on a nonzero octal value with room to pad. */
  predicate LosesZeroFlag(value: nat, base: nat, upper: bool, negative: bool, f: Flags, width: int, precision: int)
    requires IsBase(base)
  {
    && f.alt && base == 8 && value != 0 && ZeroPads(f, precision)
    && width > |Lead(value, base, upper, negative, f)| + 1 + |DigitChars(value, base, upper)|
  }

  lemma FirstDigit(value: nat, base: nat, upper: bool)
    requires IsBase(base)
    ensures var s := DigitChars(value, base, upper);
      s != [] && Reverse(s) != [] && Reverse(s)[0] == s[|s| - 1] && (s[|s| - 1] == '0' <==> value == 0)
  {
    DigitCharsReadBack(value, base, upper);
    ReverseLast(DigitChars(value, base, upper));
  }

  lemma {:induction false} RepeatJoin(c: char, m: int, n: int)
    requires m >= 0 && n >= 0
    ensures Repeat(c, m) + Repeat(c, n) == Repeat(c, m + n)
  {
  }

  /** Zeros and digits as fmt_number prints them are the standard's digits. */
  lemma DigitsAgree(value: nat, base: nat, upper: bool, f: Flags, precision: int)
    requires IsBase(base)
    ensures var figures := Figures(value, base, upper, precision);
      Repeat('0', Zeros(|figures|, Raised(f, base, figures, precision))) + Reverse(figures)
      == StandardDigits(value, base, upper, f, precision)
  {
    if value == 0 {
      ZeroAgrees(base, upper, f, precision);
    } else {
      NonzeroAgrees(value, base, upper, f, precision);
    }
  }

  lemma NonzeroAgrees(value: nat, base: nat, upper: bool, f: Flags, precision: int)
    requires IsBase(base) && value != 0
    ensures var figures := Figures(value, base, upper, precision);
      Repeat('0', Zeros(|figures|, Raised(f, base, figures, precision))) + Reverse(figures)
      == StandardDigits(value, base, upper, f, precision)
  {
    hide DigitChars, Repeat, Reverse;
    FirstDigit(value, base, upper);
    var plain := Reverse(DigitChars(value, base, upper));
    var least := if precision < 0 then 1 else precision;
    assert Repeat('0', 1) + plain == ['0'] + plain;
    if least <= |plain| {
      assert Repeat('0', 0) + plain == plain;
    } else {
      assert (Repeat('0', least - |plain|) + plain)[0] == '0';
    }
  }

  lemma ZeroAgrees(base: nat, upper: bool, f: Flags, precision: int)
    requires IsBase(base)
    ensures var figures := Figures(0, base, upper, precision);
      Repeat('0', Zeros(|figures|, Raised(f, base, figures, precision))) + Reverse(figures)
      == StandardDigits(0, base, upper, f, precision)
  {
    assert Reverse(['0']) == ['0'];
    assert Repeat('0', 1) == ['0'];
  }

  /** An integer conversion prints what the standard asks for, sign, base, digits and
      padding, in every case but one: on an octal conversion with # and 0 and no precision,
      raising the precision turns the zero flag off, and the padding comes out as spaces. */
  lemma NumberMeetsStandardIff(
      value: nat, base: nat, upper: bool, isSigned: bool, negative: bool, f: Flags, width: int, precision: int)
    requires IsBase(base) && (negative ==> isSigned)
    ensures NumberText(value, base, upper, negative, Asked(f, isSigned), width, precision)
            == StandardText(value, base, upper, isSigned, negative, f, width, precision)
            <==> !LosesZeroFlag(value, base, upper, negative, Asked(f, isSigned), width, precision)
  {
    hide StandardText, NumberText, LosesZeroFlag;
    StandardLaid(value, base, upper, isSigned, negative, f, width, precision);
    NumberMeetsLaid(value, base, upper, negative, Asked(f, isSigned), width, precision);
    StandardDigitsAlike(value, base, upper, f, isSigned, precision);
  }

  lemma StandardDigitsAlike(value: nat, base: nat, upper: bool, f: Flags, isSigned: bool, precision: int)
    requires IsBase(base)
    ensures StandardDigits(value, base, upper, Asked(f, isSigned), precision)
            == StandardDigits(value, base, upper, f, precision)
  {
  }

  /** The standard's text, as a lead, digits and padding. */
  function LaidText(lead: seq<char>, digits: seq<char>, f: Flags, width: int, precision: int): seq<char> {
    var room := width - |lead| - |digits|;
    if f.left then lead + digits + Repeat(' ', room)
    else if f.zero && precision < 0 then lead + Repeat('0', room) + digits
    else Repeat(' ', room) + lead + digits
  }

  lemma StandardLaid(
      value: nat, base: nat, upper: bool, isSigned: bool, negative: bool, f: Flags, width: int, precision: int)
    requires IsBase(base) && (negative ==> isSigned)
    ensures StandardText(value, base, upper, isSigned, negative, f, width, precision)
            == LaidText(Lead(value, base, upper, negative, Asked(f, isSigned)),
                        StandardDigits(value, base, upper, f, precision), Asked(f, isSigned), width, precision)
  {
    hide StandardDigits, Lead, SignedText, WithBase, Repeat;
    var lead := Lead(value, base, upper, negative, Asked(f, isSigned));
    var digits := StandardDigits(value, base, upper, f, precision);
    var room := width - |lead| - |digits|;
    NoRepeat();
    DigitsUnsigned(value, base, upper, f, precision, 0);
    DigitsUnsigned(value, base, upper, f, precision, room);
    assert Repeat('0', 0) + digits == digits;
    LeadIsStandard(digits, value, base, upper, isSigned, negative, f);
    LeadIsStandard(Repeat('0', room) + digits, value, base, upper, isSigned, negative, f);
    assert lead + (Repeat('0', room) + digits) == lead + Repeat('0', room) + digits;
    assert Repeat(' ', room) + (lead + digits) == Repeat(' ', room) + lead + digits;
  }

  lemma NoRepeat()
    ensures Repeat('0', 0) == []
  {
  }

  lemma NumberMeetsLaid(value: nat, base: nat, upper: bool, negative: bool, f: Flags, width: int, precision: int)
    requires IsBase(base)
    ensures NumberText(value, base, upper, negative, f, width, precision)
            == LaidText(Lead(value, base, upper, negative, f), StandardDigits(value, base, upper, f, precision),
                        f, width, precision)
            <==> !LosesZeroFlag(value, base, upper, negative, f, width, precision)
  {
    hide DigitChars, Lead, StandardDigits, Reverse, Repeat, Laid;
    DigitsAgree(value, base, upper, f, precision);
    FirstDigit(value, base, upper);
    var figures := Figures(value, base, upper, precision);
    var lead := Lead(value, base, upper, negative, f);
    var p := Raised(f, base, figures, precision);
    var zeros := Zeros(|figures|, p);
    var pad := width - |lead| - zeros - |figures|;
    var digits := StandardDigits(value, base, upper, f, precision);
    assert |digits| == zeros + |figures|;
    LaidWithZeros(lead, zeros, pad, figures, digits, f);
    LaidWithSpaces(lead, zeros, figures, digits, f, pad);
    if ZeroPads(f, precision) && pad > 0 {
      PaddingDiffers(lead, pad, digits, negative, f, value, base, upper);
    } else if pad <= 0 {
      assert Repeat('0', pad) == [] == Repeat(' ', pad);
      assert [] + lead + digits == lead + [] + digits;
    }
  }

  lemma LaidWithSpaces(lead: seq<char>, zeros: int, figures: seq<char>, digits: seq<char>, f: Flags, pad: int)
    requires digits == Repeat('0', zeros) + Reverse(figures)
    ensures Laid(lead, zeros, figures, f, pad)
            == if f.left then lead + digits + Repeat(' ', pad) else Repeat(' ', pad) + lead + digits
  {
    hide Repeat, Reverse;
  }

  lemma LaidWithZeros(lead: seq<char>, zeros: int, pad: int, figures: seq<char>, digits: seq<char>, f: Flags)
    requires digits == Repeat('0', zeros) + Reverse(figures)
    ensures pad > 0 && zeros >= 0 && !f.left ==>
            Laid(lead, zeros + pad, figures, f, 0) == lead + Repeat('0', pad) + digits
  {
    hide Reverse;
    if pad > 0 && zeros >= 0 && !f.left {
      RepeatJoin('0', pad, zeros);
      assert Repeat(' ', 0) == [];
    }
  }

  lemma PaddingDiffers(
      lead: seq<char>, pad: int, digits: seq<char>, negative: bool, f: Flags, value: nat, base: nat, upper: bool)
    requires pad > 0 && lead == Lead(value, base, upper, negative, f)
    ensures Repeat(' ', pad) + lead + digits != lead + Repeat('0', pad) + digits
  {
    var spaces, zeros := Repeat(' ', pad) + lead + digits, lead + Repeat('0', pad) + digits;
    if lead == [] {
      assert spaces[0] == ' ' && zeros[0] == '0';
    } else if lead[0] != ' ' {
      assert spaces[0] == ' ' && zeros[0] == lead[0];
    } else {
      assert spaces[1] == ' ';
      assert zeros[1] == if |lead| > 1 then lead[1] else '0';
    }
  }
}
