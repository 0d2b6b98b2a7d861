/** Digits without a division library (OneROM/firmware/src/rtt.c). */
module RttDigits {
  import opened Bits

  const WORD64: nat := 0x1_0000_0000_0000_0000
  const MAX_DIGITS: nat := 64

  // ---------------------------------------------------------------------
  // Division by ten
  // ---------------------------------------------------------------------

  /** fmt_div10: exact for every 64-bit n.  The shifts and adds estimate the
      quotient at most one low, so a single correction is enough. */
  method Div10(n: nat) returns (q: nat, rem: nat)
    requires n < WORD64
    ensures q == n / 10 && rem == n % 10
  {
    q := EstimateTenth(n);
    var r: nat := n - ((q * 4 + q) * 2);
    if r > 9 {
      q := q + 1;
      r := r - 10;
    }
    rem := r;
  }

  /** `(n >> 1) + (n >> 2)` and the four adds that sharpen it, nothing of which
      exceeds n. */
  method EstimateTenth(n: nat) returns (q: nat)
    requires n < WORD64
    ensures n / 10 - 1 <= q <= n / 10
    ensures 10 * q <= n <= 10 * q + 16
  {
    var q0 := n / 2 + n / 4;
    var q1 := q0 + q0 / 0x10;
    var q2 := q1 + q1 / 0x100;
    var q3 := q2 + q2 / 0x1_0000;
    var q4 := q3 + q3 / 0x1_0000_0000;
    EstimateBounds(n, q0, q1, q2, q3, q4);
    assert q0 <= q1 <= q2 <= q3 <= q4 <= n < WORD64;
    q := q4 / 8;
  }

  lemma EstimateBounds(n: nat, q0: nat, q1: nat, q2: nat, q3: nat, q4: nat)
    requires n < WORD64 && q0 == n / 2 + n / 4 && q1 == q0 + q0 / 0x10 && q2 == q1 + q1 / 0x100
    requires q3 == q2 + q2 / 0x1_0000 && q4 == q3 + q3 / 0x1_0000_0000
    ensures q4 <= n && 80 * (q4 / 8) <= 8 * n <= 80 * (q4 / 8) + 135
  {
    assert 3 * n - 5 <= 4 * q0 <= 3 * n;
    assert 17 * q0 - 15 <= 16 * q1 <= 17 * q0;
    assert 257 * q1 - 255 <= 256 * q2 <= 257 * q1;
    assert 65537 * q2 - 65535 <= 65536 * q3 <= 65537 * q2;
    assert 4294967297 * q3 - 4294967295 <= 4294967296 * q4 <= 4294967297 * q3;
  }

  // ---------------------------------------------------------------------
  // Digits in the four bases
  // ---------------------------------------------------------------------

  predicate IsBase(b: nat) {
    b == 2 || b == 8 || b == 10 || b == 16
  }

  /** Quotient and remainder, one constant divisor at a time. */
  function Quotient(v: nat, b: nat): nat
    requires IsBase(b)
  {
    if b == 2 then v / 2 else if b == 8 then v / 8 else if b == 10 then v / 10 else v / 16
  }

  function Remainder(v: nat, b: nat): (r: nat)
    requires IsBase(b)
    ensures r < b
  {
    if b == 2 then v % 2 else if b == 8 then v % 8 else if b == 10 then v % 10 else v % 16
  }

  function Scaled(v: nat, b: nat): nat
    requires IsBase(b)
  {
    if b == 2 then 2 * v else if b == 8 then 8 * v else if b == 10 then 10 * v else 16 * v
  }

  lemma Recombine(v: nat, b: nat)
    requires IsBase(b)
    ensures Scaled(Quotient(v, b), b) + Remainder(v, b) == v
    ensures v != 0 ==> Quotient(v, b) < v
  {
  }

  lemma Separate(q: nat, r: nat, b: nat)
    requires IsBase(b) && r < b
    ensures Quotient(Scaled(q, b) + r, b) == q && Remainder(Scaled(q, b) + r, b) == r
  {
  }

  /** The value of digits, least significant first. */
  function Evaluate(digits: seq<nat>, b: nat): nat
    requires IsBase(b)
  {
    if digits == [] then 0 else Scaled(Evaluate(digits[1..], b), b) + digits[0]
  }

  /** Digits of a base, none missing and none to spare: no leading zero but zero itself. */
  predicate Canonical(digits: seq<nat>, b: nat) {
    && digits != [] && (forall i :: 0 <= i < |digits| ==> digits[i] < b)
    && (|digits| > 1 ==> digits[|digits| - 1] != 0)
  }

  /** The digits of a nonzero value; none for zero. */
  function Digits(v: nat, b: nat): (digits: seq<nat>)
    requires IsBase(b)
    decreases v
  {
    Recombine(v, b);
    if v == 0 then [] else [Remainder(v, b)] + Digits(Quotient(v, b), b)
  }

  lemma {:induction false} DigitsEvaluate(v: nat, b: nat)
    requires IsBase(b)
    ensures Evaluate(Digits(v, b), b) == v
    ensures v != 0 ==> Canonical(Digits(v, b), b) && Digits(v, b)[|Digits(v, b)| - 1] != 0
    decreases v
  {
    hide Quotient, Remainder, Scaled;
    if v != 0 {
      Recombine(v, b);
      var q := Quotient(v, b);
      DigitsEvaluate(q, b);
      var ds, rest := Digits(v, b), Digits(q, b);
      assert ds == [Remainder(v, b)] + rest && ds[1..] == rest;
      assert forall i :: 0 < i < |ds| ==> ds[i] == rest[i - 1];
      if q == 0 {
        ScaledZero(b);
      }
    }
  }

  lemma ScaledZero(b: nat)
    requires IsBase(b)
    ensures forall q: nat :: Scaled(q, b) == 0 <==> q == 0
  {
  }

  /** Digits of one value, none missing and none to spare, are the same digits. */
  lemma DigitsUnique(s: seq<nat>, t: seq<nat>, b: nat)
    requires IsBase(b) && Canonical(s, b) && Canonical(t, b) && Evaluate(s, b) == Evaluate(t, b)
    ensures s == t
  {
    hide Scaled, Digits;
    if Evaluate(s, b) != 0 {
      CanonicalAreDigits(s, b);
      CanonicalAreDigits(t, b);
    } else {
      OnlyZero(s, b);
      OnlyZero(t, b);
    }
  }

  lemma OnlyZero(digits: seq<nat>, b: nat)
    requires IsBase(b) && Canonical(digits, b) && Evaluate(digits, b) == 0
    ensures digits == [0]
  {
    hide Scaled;
    if |digits| > 1 || digits[0] != 0 {
      LeadingDigitCounts(digits, b);
    }
  }

  lemma {:induction false} CanonicalAreDigits(digits: seq<nat>, b: nat)
    requires IsBase(b) && Canonical(digits, b) && Evaluate(digits, b) != 0
    ensures digits == Digits(Evaluate(digits, b), b)
  {
    hide Quotient, Remainder, Scaled;
    var rest := digits[1..];
    var v := Evaluate(digits, b);
    Separate(Evaluate(rest, b), digits[0], b);
    assert digits == [digits[0]] + rest;
    if |rest| > 0 {
      LeadingDigitCounts(rest, b);
      CanonicalAreDigits(rest, b);
    }
  }

  lemma {:induction false} LeadingDigitCounts(digits: seq<nat>, b: nat)
    requires IsBase(b) && |digits| > 0 && digits[|digits| - 1] != 0
    ensures Evaluate(digits, b) != 0
  {
    if |digits| > 1 {
      LeadingDigitCounts(digits[1..], b);
    }
  }

  /** n digits reach at least 2^(n-1). */
  lemma {:induction false} DigitsCount(v: nat, b: nat, n: nat)
    requires IsBase(b) && v < Pow2(n)
    ensures |Digits(v, b)| <= n
    decreases n
  {
    if v != 0 {
      DigitsCount(Quotient(v, b), b, n - 1);
    }
  }

  lemma Pow2At64()
    ensures Pow2(64) == WORD64
  {
    Pow2Values();
    Pow2Add(32, 32);
  }

  // ---------------------------------------------------------------------
  // As characters
  // ---------------------------------------------------------------------

  function DigitChar(d: nat, upper: bool): (c: char)
    requires d < 16
    ensures DigitValue(c) == d && (c == '0' <==> d == 0)
  {
    if d < 10 then '0' + d as char else if upper then 'A' + (d - 10) as char else 'a' + (d - 10) as char
  }

  function DigitValue(c: char): nat {
    if '0' <= c <= '9' then c as nat - '0' as nat
    else if 'A' <= c <= 'F' then c as nat - 'A' as nat + 10
    else if 'a' <= c <= 'f' then c as nat - 'a' as nat + 10
    else 0
  }

  function Chars(digits: seq<nat>, upper: bool): (s: seq<char>)
    requires forall i :: 0 <= i < |digits| ==> digits[i] < 16
    ensures |s| == |digits|
  {
    seq(|digits|, i requires 0 <= i < |digits| => DigitChar(digits[i], upper))
  }

  function Values(s: seq<char>): (digits: seq<nat>)
    ensures |digits| == |s|
  {
    seq(|s|, i requires 0 <= i < |s| => DigitValue(s[i]))
  }

  /** fmt_digits' output for a value, least significant first; zero is one digit. */
  function DigitChars(v: nat, b: nat, upper: bool): (s: seq<char>)
    requires IsBase(b)
  {
    if v == 0 then ['0']
    else
      DigitsEvaluate(v, b);
      Chars(Digits(v, b), upper)
  }

  /** The characters read back to the value, lead with no zero but zero's own, and
      are at most 64 for a 64-bit value. */
  lemma DigitCharsReadBack(v: nat, b: nat, upper: bool)
    requires IsBase(b)
    ensures var s := DigitChars(v, b, upper);
      && Evaluate(Values(s), b) == v && Canonical(Values(s), b)
      && (s[|s| - 1] == '0' <==> v == 0)
      && (v < WORD64 ==> 1 <= |s| <= MAX_DIGITS)
  {
    hide Scaled, Pow2, Digits;
    var s := DigitChars(v, b, upper);
    DigitsEvaluate(v, b);
    if v == 0 {
      assert Values(s) == [0];
      assert Values(s)[1..] == [];
      ScaledZero(b);
    } else {
      assert Values(s) == Digits(v, b);
      if v < WORD64 {
        Pow2At64();
        DigitsCount(v, b, 64);
      }
    }
  }

  /** fmt_digits */
  method FmtDigits(value: nat, base: nat, upper: bool, out: array<char>) returns (n: nat)
    requires value < WORD64 && IsBase(base) && out.Length == MAX_DIGITS
    modifies out
    ensures n == |DigitChars(value, base, upper)| <= MAX_DIGITS
    ensures out[..n] == DigitChars(value, base, upper)
  {
    DigitCharsReadBack(value, base, upper);
    if value == 0 {
      out[0] := '0';
      return 1;
    }
    if base == 10 {
      n := DecimalDigits(value, upper, out);
    } else {
      n := BinaryDigits(value, base, upper, out);
    }
  }

  /** What the digit loops keep: the digits out so far, followed by those of what is left. */
  ghost predicate Produced(out: array<char>, n: nat, left: nat, value: nat, base: nat, upper: bool)
    requires IsBase(base)
    reads out
  {
    && n + |Digits(left, base)| == |Digits(value, base)| && n <= out.Length
    && (left != 0 ==> n < |Digits(value, base)|)
    && forall i :: 0 <= i < |Digits(value, base)| ==>
         && Digits(value, base)[i] < base
         && (if i < n then out[i] == DigitChar(Digits(value, base)[i], upper)
             else Digits(value, base)[i] == Digits(left, base)[i - n])
  }

  /** Storing the lowest digit of what is left makes progress. */
  method PutDigit(out: array<char>, n: nat, left: nat, value: nat, base: nat, upper: bool)
    requires IsBase(base) && |Digits(value, base)| <= out.Length
    requires left != 0 && Produced(out, n, left, value, base, upper)
    modifies out
    ensures Produced(out, n + 1, Quotient(left, base), value, base, upper)
  {
    hide Quotient, Remainder;
    Recombine(left, base);
    assert Digits(left, base)[1..] == Digits(Quotient(left, base), base);
    assert Digits(value, base)[n] == Digits(left, base)[0];
    out[n] := DigitChar(Remainder(left, base), upper);
  }

  lemma ProducedAll(out: array<char>, n: nat, value: nat, base: nat, upper: bool)
    requires IsBase(base) && value != 0 && Produced(out, n, 0, value, base, upper)
    ensures n == |DigitChars(value, base, upper)| && out[..n] == DigitChars(value, base, upper)
  {
  }

  method DecimalDigits(v: nat, upper: bool, out: array<char>) returns (n: nat)
    requires 0 < v < WORD64 && out.Length == MAX_DIGITS && |Digits(v, 10)| <= MAX_DIGITS
    modifies out
    ensures n == |DigitChars(v, 10, upper)| && out[..n] == DigitChars(v, 10, upper)
  {
    hide Digits, Produced, DigitChars;
    var value: nat := v;
    n := 0;
    NothingProduced(out, v, 10, upper);
    while value > 0xFFFF_FFFF
      invariant value < WORD64 && Produced(out, n, value, v, 10, upper)
    {
      var q, rem := Div10(value);
      PutDigit(out, n, value, v, 10, upper);
      n := n + 1;
      value := q;
    }
    while value != 0
      invariant value < WORD64 && Produced(out, n, value, v, 10, upper)
    {
      PutDigit(out, n, value, v, 10, upper);
      n := n + 1;
      value := value / 10;
    }
    ProducedAll(out, n, v, 10, upper);
  }

  method BinaryDigits(v: nat, base: nat, upper: bool, out: array<char>) returns (n: nat)
    requires 0 < v < WORD64 && IsBase(base) && base != 10
    requires out.Length == MAX_DIGITS && |Digits(v, base)| <= MAX_DIGITS
    modifies out
    ensures n == |DigitChars(v, base, upper)| && out[..n] == DigitChars(v, base, upper)
  {
    hide Digits, Produced, DigitChars;
    var value: nat := v;
    n := 0;
    NothingProduced(out, v, base, upper);
    while value != 0
      invariant value < WORD64 && Produced(out, n, value, v, base, upper)
    {
      PutDigit(out, n, value, v, base, upper);
      n := n + 1;
      value := match base
        case 2 => value / 2
        case 8 => value / 8
        case _ => value / 16;
    }
    ProducedAll(out, n, v, base, upper);
  }

  lemma NothingProduced(out: array<char>, v: nat, base: nat, upper: bool)
    requires IsBase(base) && v != 0
    ensures Produced(out, 0, v, v, base, upper)
  {
    DigitsEvaluate(v, base);
  }
}
