/** From queue word to serial text (1541hud/artifacts/T0.0.16): the probe packs a
word's fields, the USB bridge prints them through a 160-byte line buffer. */
module EventText {
  import opened Bits
  import opened RttDigits
  import opened RttFormat
  import opened EventQueue
  import opened Words
  import opened Wrappers

  const LINE_SIZE: nat := 160

  // ---------------------------------------------------------------------
  // The probe's packers
  // ---------------------------------------------------------------------

  datatype Event =
    | Motor(state: nat)
    | Phase(oldp: nat, newp: nat, delta: nat, motor: nat)
    | TrackWrite(track: nat)
    | WriteProtect(state: nat)
    | Density(density: nat)
    | HdrPhy(track: nat, sector: nat, ticks16: nat)
    | Rpm(track: nat, revolutions: nat, rpm100: nat)
    | Sync(level: nat, count: nat)

  /** The ranges of the probe's own arguments. */
  predicate InFields(e: Event) {
    match e
    case Motor(s) => s <= 1
    case Phase(o, n, d, m) => o <= 3 && n <= 3 && d <= 3 && m <= 1
    case TrackWrite(t) => t <= 0xFF
    case WriteProtect(s) => s <= 1
    case Density(d) => d <= 3
    case HdrPhy(t, s, ticks) => t <= 0x7F && s <= 0x1F && ticks <= 0xFFFF
    case Rpm(t, r, rpm) => t <= 0x7F && r <= 0x1F && rpm <= 0xFFFF
    case Sync(l, c) => l <= 1 && c <= 0x07FF_FFFF
  }

  const TYPE_UNIT: nat := 0x1000_0000    // 1 << 28

  /** The queue_* packers and sync_poll's word. */
  function Pack(e: Event): nat {
    match e
    case Motor(s) => MOTOR * TYPE_UNIT + s % 2
    case Phase(o, n, d, m) => PHASE * TYPE_UNIT + o % 4 + (n % 4) * 4 + (d % 4) * 16 + (m % 2) * 64
    case TrackWrite(t) => TRACK_WRITE * TYPE_UNIT + t
    case WriteProtect(s) => WRITE_PROTECT * TYPE_UNIT + s % 2
    case Density(d) => DENSITY * TYPE_UNIT + d % 4
    case HdrPhy(t, s, ticks) => HDRPHY_DIAG * TYPE_UNIT + (t % 0x80) * 0x20_0000 + (s % 0x20) * 0x1_0000 + ticks
    case Rpm(t, r, rpm) => RPM_DIAG * TYPE_UNIT + (t % 0x80) * 0x20_0000 + (r % 0x20) * 0x1_0000 + rpm
    case Sync(l, c) => SYNC_DIAG * TYPE_UNIT + (l % 2) * 0x0800_0000 + c % 0x0800_0000
  }

  /** The bridge's unpacking, by type. */
  function Unpack(w: nat): Option<Event> {
    var t := TypeOf(w);
    if t == MOTOR then Some(Motor(w % 2))
    else if t == PHASE then Some(Phase(w % 4, (w / 4) % 4, (w / 16) % 4, (w / 64) % 2))
    else if t == TRACK_WRITE then Some(TrackWrite(w % 0x100))
    else if t == WRITE_PROTECT then Some(WriteProtect(w % 2))
    else if t == DENSITY then Some(Density(w % 4))
    else if t == HDRPHY_DIAG then Some(HdrPhy((w / 0x20_0000) % 0x80, (w / 0x1_0000) % 0x20, w % 0x1_0000))
    else if t == RPM_DIAG then Some(Rpm((w / 0x20_0000) % 0x80, (w / 0x1_0000) % 0x20, w % 0x1_0000))
    else if t == SYNC_DIAG then Some(Sync((w / 0x0800_0000) % 2, w % 0x0800_0000))
    else None
  }

  /** Every field survives the word. */
  lemma UnpackPack(e: Event)
    requires InFields(e)
    ensures Unpack(Pack(e)) == Some(e) && Pack(e) < WORD
  {
    hide Pack, Unpack;
    match e
    case Motor(_) => UnpackSmall(e);
    case Phase(o, n, d, m) => UnpackPhase(o, n, d, m);
    case TrackWrite(_) => UnpackSmall(e);
    case WriteProtect(_) => UnpackSmall(e);
    case Density(_) => UnpackSmall(e);
    case HdrPhy(_, _, _) => UnpackDiag(e);
    case Rpm(_, _, _) => UnpackDiag(e);
    case Sync(l, c) => UnpackSync(l, c);
  }

  lemma UnpackSmall(e: Event)
    requires InFields(e) && (e.Motor? || e.TrackWrite? || e.WriteProtect? || e.Density?)
    ensures Unpack(Pack(e)) == Some(e) && Pack(e) < WORD
  {
  }

  lemma UnpackPhase(o: nat, n: nat, d: nat, m: nat)
    requires o <= 3 && n <= 3 && d <= 3 && m <= 1
    ensures Unpack(Pack(Phase(o, n, d, m))) == Some(Phase(o, n, d, m)) && Pack(Phase(o, n, d, m)) < WORD
  {
    hide TypeOf;
    var w := PHASE * TYPE_UNIT + o + n * 4 + d * 16 + m * 64;
    SmallMod(o, 4);
    SmallMod(n, 4);
    SmallMod(d, 4);
    SmallMod(m, 2);
    assert Pack(Phase(o, n, d, m)) == w;
    TypeIs(PHASE, o + n * 4 + d * 16 + m * 64);
    PhaseFields(o, n, d, m);
  }

  lemma UnpackDiag(e: Event)
    requires InFields(e) && (e.HdrPhy? || e.Rpm?)
    ensures Unpack(Pack(e)) == Some(e) && Pack(e) < WORD
  {
    hide TypeOf;
    var k := if e.HdrPhy? then HDRPHY_DIAG else RPM_DIAG;
    var b := if e.HdrPhy? then e.sector else e.revolutions;
    var c := if e.HdrPhy? then e.ticks16 else e.rpm100;
    assert Pack(e) == k * TYPE_UNIT + e.track * 0x20_0000 + b * 0x1_0000 + c;
    TypeIs(k, e.track * 0x20_0000 + b * 0x1_0000 + c);
    DiagFields(k, e.track, b, c);
  }

  lemma UnpackSync(l: nat, c: nat)
    requires l <= 1 && c <= 0x07FF_FFFF
    ensures Unpack(Pack(Sync(l, c))) == Some(Sync(l, c)) && Pack(Sync(l, c)) < WORD
  {
    hide TypeOf;
    assert Pack(Sync(l, c)) == SYNC_DIAG * TYPE_UNIT + l * 0x0800_0000 + c;
    TypeIs(SYNC_DIAG, l * 0x0800_0000 + c);
    SyncFields(l, c);
  }

  lemma TypeIs(k: nat, rest: nat)
    requires k < 16 && rest < TYPE_UNIT
    ensures TypeOf(k * TYPE_UNIT + rest) == k && k * TYPE_UNIT + rest < WORD
  {
  }

  lemma PhaseFields(o: nat, n: nat, d: nat, m: nat)
    requires o <= 3 && n <= 3 && d <= 3 && m <= 1
    ensures var w := PHASE * TYPE_UNIT + o + n * 4 + d * 16 + m * 64;
      w % 4 == o && (w / 4) % 4 == n && (w / 16) % 4 == d && (w / 64) % 2 == m
  {
    var w := PHASE * TYPE_UNIT + o + n * 4 + d * 16 + m * 64;
    ModUnique(w, 4, 0x800_0000 + n + d * 4 + m * 16, o);
    ModUnique(0x800_0000 + n + d * 4 + m * 16, 4, 0x200_0000 + d + m * 4, n);
    ModUnique(w, 16, 0x200_0000 + d + m * 4, o + n * 4);
    ModUnique(0x200_0000 + d + m * 4, 4, 0x80_0000 + m, d);
    ModUnique(w, 64, 0x80_0000 + m, o + n * 4 + d * 16);
    ModUnique(0x80_0000 + m, 2, 0x40_0000, m);
  }

  lemma DiagFields(k: nat, a: nat, b: nat, c: nat)
    requires a <= 0x7F && b <= 0x1F && c <= 0xFFFF
    ensures var w := k * TYPE_UNIT + a * 0x20_0000 + b * 0x1_0000 + c;
      (w / 0x20_0000) % 0x80 == a && (w / 0x1_0000) % 0x20 == b && w % 0x1_0000 == c
  {
    var w := k * TYPE_UNIT + a * 0x20_0000 + b * 0x1_0000 + c;
    ModUnique(w, 0x1_0000, k * 0x1000 + a * 0x20 + b, c);
    ModUnique(k * 0x1000 + a * 0x20 + b, 0x20, k * 0x80 + a, b);
    ModUnique(w, 0x20_0000, k * 0x80 + a, b * 0x1_0000 + c);
    ModUnique(k * 0x80 + a, 0x80, k, a);
  }

  lemma SyncFields(l: nat, c: nat)
    requires l <= 1 && c < 0x0800_0000
    ensures var w := SYNC_DIAG * TYPE_UNIT + l * 0x0800_0000 + c;
      (w / 0x0800_0000) % 2 == l && w % 0x0800_0000 == c
  {
    var w := SYNC_DIAG * TYPE_UNIT + l * 0x0800_0000 + c;
    assert w / 0x0800_0000 == SYNC_DIAG * 2 + l;
  }

  lemma UnpackRanges(w: nat)
    ensures Unpack(w).Some? <==> Known(w)
    ensures Unpack(w).Some? ==> InFields(Unpack(w).value)
  {
  }

  // ---------------------------------------------------------------------
  // What the bridge prints
  // ---------------------------------------------------------------------

  function Hex8(v: nat): string
    requires v < 0x100
  {
    [DigitChar(v / 16, true), DigitChar(v % 16, true)]
  }

  const CRLF: string := "\r\n"

  /** An event's line, without its line end. */
  function Line(e: Event): string
    requires InFields(e)
  {
    match e
    case Motor(s) => "MOTOR state=" + Decimal(s)
    case Phase(o, n, d, m) =>
      "PHASE old=" + Decimal(o) + " new=" + Decimal(n) + " delta=" + Decimal(d) + " motor=" + Decimal(m)
    case TrackWrite(t) => "TRACK_WRITE addr=$0022 data=$" + Hex8(t) + " (" + Decimal(t) + ")"
    case WriteProtect(s) => "WRITE_PROTECT state=" + Decimal(s)
    case Density(d) => "DENSITY state=" + Decimal(d)
    case HdrPhy(t, s, ticks) =>
      "HDRPHY T0.0.16 T=" + Decimal(t) + " S=" + Decimal(s) + " US=" + Decimal(ticks * 16)
    case Rpm(t, r, rpm) =>
      "RPM T0.0.16 T=" + Decimal(t) + " REV=" + Decimal(r) + " RPM=" + Decimal(rpm / 100) + "."
      + (if rpm % 100 < 10 then "0" else "") + Decimal(rpm % 100)
    case Sync(l, c) => "SYNC T0.0.16 COUNT=" + Decimal(c) + " LEVEL=" + Decimal(l)
  }

  lemma {:induction false} DecimalLength(v: nat, n: nat)
    requires v < Ten(n)
    ensures |Digits(v, 10)| <= n
    decreases n
  {
    if v != 0 {
      DecimalLength(v / 10, n - 1);
    }
  }

  function Ten(n: nat): nat {
    if n == 0 then 1 else 10 * Ten(n - 1)
  }

  /** A 32-bit value takes at most ten digits, which is all the bridge has room for. */
  lemma DecimalFits(v: nat)
    requires v < WORD
    ensures |Digits(v, 10)| <= 10 && |Decimal(v)| <= 10
  {
    assert Ten(5) == 100000;
    assert Ten(10) == 10000000000;
    DecimalLength(v, 10);
    DigitsEvaluate(v, 10);
  }

  /** Every record fits its buffer, line end and all. */
  lemma LineFits(e: Event)
    requires InFields(e)
    ensures |Line(e)| + |CRLF| <= LINE_SIZE
  {
    hide Decimal;
    match e
    case Motor(s) => DecimalFits(s);
    case Phase(o, n, d, m) =>
      DecimalFits(o);
      DecimalFits(n);
      DecimalFits(d);
      DecimalFits(m);
    case TrackWrite(t) => DecimalFits(t);
    case WriteProtect(s) => DecimalFits(s);
    case Density(d) => DecimalFits(d);
    case HdrPhy(t, s, ticks) =>
      DecimalFits(t);
      DecimalFits(s);
      DecimalFits(ticks * 16);
    case Rpm(t, r, rpm) =>
      DecimalFits(t);
      DecimalFits(r);
      DecimalFits(rpm / 100);
      DecimalFits(rpm % 100);
    case Sync(l, c) =>
      DecimalFits(l);
      DecimalFits(c);
  }

  function Clip(s: string): string {
    if |s| <= LINE_SIZE then s else s[..LINE_SIZE]
  }

  lemma ClipTwice(a: string, b: string)
    ensures Clip(Clip(a) + b) == Clip(a + b)
  {
    if |a| > LINE_SIZE {
      assert (Clip(a) + b)[..LINE_SIZE] == (a + b)[..LINE_SIZE];
    }
  }

  /** `line`, `p` and `e`: appending stops at the end of the buffer. */
  class LineBuffer {
    const line: array<char>
    var len: nat

    ghost predicate Valid()
      reads this
    {
      line.Length == LINE_SIZE && len <= LINE_SIZE
    }

    function Text(): (s: string)
      requires Valid()
      reads this, line
      ensures |s| <= LINE_SIZE
    {
      line[..len]
    }

    constructor ()
      ensures Valid() && fresh(line) && Text() == ""
    {
      line := new char[LINE_SIZE];
      len := 0;
    }

    method Put(c: char)
      requires Valid()
      modifies this, line
      ensures Valid() && Text() == Clip(old(Text()) + [c])
    {
      if len < LINE_SIZE {
        ghost var was := Text();
        line[len] := c;
        len := len + 1;
        assert Text() == was + [c];
      } else {
        assert (Text() + [c])[..LINE_SIZE] == Text();
      }
    }

    /** drivehud_append_str */
    method Str(s: string)
      requires Valid()
      modifies this, line
      ensures Valid() && Text() == Clip(old(Text()) + s)
    {
      ghost var was := Text();
      assert was + s[..0] == was;
      for i := 0 to |s|
        invariant Valid() && Text() == Clip(was + s[..i])
      {
        ClipTwice(was + s[..i], [s[i]]);
        assert was + s[..i] + [s[i]] == was + s[..i + 1];
        Put(s[i]);
      }
      assert s[..|s|] == s;
    }

    /** drivehud_append_u32 */
    method U32(v: nat)
      requires Valid() && v < WORD
      modifies this, line
      ensures Valid() && Text() == Clip(old(Text()) + Decimal(v))
    {
      hide Clip, Decimal, Reverse;
      DecimalFits(v);
      ghost var was := Text();
      var t := new char[10];
      var n := TenDigits(v, t);
      ghost var digits := t[..n];
      assert digits[..n] == digits;
      while n > 0
        invariant n <= |digits| && t[..|digits|] == digits
        invariant Valid() && Clip(Text() + Reverse(digits[..n])) == Clip(was + Reverse(digits))
      {
        ReverseLast(digits[..n]);
        assert digits[..n][..n - 1] == digits[..n - 1];
        n := n - 1;
        ClipTwice(Text() + [digits[n]], Reverse(digits[..n]));
        assert Text() + [digits[n]] + Reverse(digits[..n]) == Text() + ([digits[n]] + Reverse(digits[..n]));
        Put(t[n]);
      }
      ClipNothing(Text());
    }

    /** drivehud_append_hex8 */
    method Hex(v: nat)
      requires Valid() && v < 0x100
      modifies this, line
      ensures Valid() && Text() == Clip(old(Text()) + Hex8(v))
    {
      hide Clip;
      ghost var was := Text();
      Put(DigitChar(v / 16, true));
      ClipTwice(was + [DigitChar(v / 16, true)], [DigitChar(v % 16, true)]);
      assert was + [DigitChar(v / 16, true)] + [DigitChar(v % 16, true)] == was + Hex8(v);
      Put(DigitChar(v % 16, true));
    }
  }

  lemma ClipNothing(s: string)
    requires |s| <= LINE_SIZE
    ensures Reverse([]) == [] && Clip(s + []) == s
  {
    assert s + [] == s;
  }

  /** The digits of a 32-bit value, least significant first: one for zero. */
  method TenDigits(v: nat, t: array<char>) returns (n: nat)
    requires v < WORD && t.Length == 10
    modifies t
    ensures n <= 10 && Reverse(t[..n]) == Decimal(v)
  {
    hide Digits, DigitChars, Produced, Reverse;
    DecimalFits(v);
    var left: nat := v / 10;
    t[0] := DigitChar(v % 10, false);
    n := 1;
    FirstProduced(t, v);
    while left != 0 && n < 10
      invariant 1 <= n <= 10
      invariant v != 0 ==> Produced(t, n, left, v, 10, false)
      invariant v == 0 ==> left == 0 && n == 1 && t[0] == '0'
      decreases left
    {
      PutDigit(t, n, left, v, 10, false);
      n := n + 1;
      left := left / 10;
    }
    if v != 0 {
      TenIsEnough(t, n, left, v);
      ProducedAll(t, n, v, 10, false);
    } else {
      ZeroChars();
      assert t[..1] == ['0'];
    }
  }

  lemma ZeroChars()
    ensures DigitChars(0, 10, false) == ['0']
  {
  }

  lemma FirstProduced(t: array<char>, v: nat)
    requires t.Length == 10 && t[0] == DigitChar(v % 10, false)
    ensures v != 0 ==> Produced(t, 1, v / 10, v, 10, false)
  {
    if v != 0 {
      NothingProduced(t, v, 10, false);
      assert Digits(v, 10)[1..] == Digits(v / 10, 10);
    }
  }

  lemma TenIsEnough(t: array<char>, n: nat, left: nat, v: nat)
    requires Produced(t, n, left, v, 10, false) && |Digits(v, 10)| <= 10 && (left == 0 || n >= 10)
    ensures left == 0
  {
  }

  // ---------------------------------------------------------------------
  // One record
  // ---------------------------------------------------------------------

  /** The bridge's text for a queue word; none for a type it does not know. */
  method FormatEvent(w: nat) returns (r: Option<string>)
    requires w < WORD
    ensures Unpack(w).None? ==> r == None
    ensures Unpack(w).Some? ==> InFields(Unpack(w).value) && r == Some(Line(Unpack(w).value) + CRLF)
  {
    hide Decimal, Hex8, Clip, Line;
    UnpackRanges(w);
    var t := TypeOf(w);
    var line := new LineBuffer();
    if t == MOTOR {
      FormatState(line, "MOTOR state=", w % 2);
    } else if t == PHASE {
      FormatPhase(line, w % 4, (w / 4) % 4, (w / 16) % 4, (w / 64) % 2);
    } else if t == TRACK_WRITE {
      FormatTrackWrite(line, w % 0x100);
    } else if t == WRITE_PROTECT {
      FormatState(line, "WRITE_PROTECT state=", w % 2);
    } else if t == DENSITY {
      FormatState(line, "DENSITY state=", w % 4);
    } else if t == HDRPHY_DIAG {
      FormatHdrPhy(line, (w / 0x20_0000) % 0x80, (w / 0x1_0000) % 0x20, w % 0x1_0000);
    } else if t == RPM_DIAG {
      FormatRpm(line, (w / 0x20_0000) % 0x80, (w / 0x1_0000) % 0x20, w % 0x1_0000);
    } else if t == SYNC_DIAG {
      FormatSync(line, (w / 0x0800_0000) % 2, w % 0x0800_0000);
    } else {
      return None;
    }
    LineShapes(Unpack(w).value);
    LineFits(Unpack(w).value);
    ClipWhole(Line(Unpack(w).value) + CRLF);
    return Some(line.Text());
  }

  lemma ClipWhole(s: string)
    requires |s| <= LINE_SIZE
    ensures Clip(s) == s
  {
  }

  /** The three types whose record is a name and a small number. */
  lemma LineShapes(e: Event)
    requires InFields(e)
    ensures e.Motor? ==> Line(e) == "MOTOR state=" + Decimal(e.state)
    ensures e.WriteProtect? ==> Line(e) == "WRITE_PROTECT state=" + Decimal(e.state)
    ensures e.Density? ==> Line(e) == "DENSITY state=" + Decimal(e.density)
  {
  }

  method FormatState(line: LineBuffer, name: string, v: nat)
    requires line.Valid() && line.Text() == "" && v < WORD
    modifies line, line.line
    ensures line.Valid() && line.Text() == Clip(name + Decimal(v) + CRLF)
  {
    hide Decimal, Clip;
    line.Str(name);
    line.U32(v);
    line.Str(CRLF);
    assert [] + name == name;
    ClipTwice(name, Decimal(v));
    ClipTwice(name + Decimal(v), CRLF);
  }

  /** The next name and number of a record, given what the buffer holds. */
  method Field(line: LineBuffer, ghost was: string, name: string, v: nat)
    requires line.Valid() && line.Text() == Clip(was) && v < WORD
    modifies line, line.line
    ensures line.Valid() && line.Text() == Clip(was + name + Decimal(v))
  {
    hide Decimal, Clip;
    line.Str(name);
    ClipTwice(was, name);
    line.U32(v);
    ClipTwice(was + name, Decimal(v));
  }

  method FormatPhase(line: LineBuffer, oldp: nat, newp: nat, delta: nat, motor: nat)
    requires line.Valid() && line.Text() == "" && InFields(Phase(oldp, newp, delta, motor))
    modifies line, line.line
    ensures line.Valid() && line.Text() == Clip(Line(Phase(oldp, newp, delta, motor)) + CRLF)
  {
    hide Decimal, Clip;
    ClipWhole("");
    ghost var a := "" + "PHASE old=" + Decimal(oldp);
    ghost var b := a + " new=" + Decimal(newp);
    ghost var c := b + " delta=" + Decimal(delta);
    ghost var d := c + " motor=" + Decimal(motor);
    Field(line, "", "PHASE old=", oldp);
    Field(line, a, " new=", newp);
    Field(line, b, " delta=", delta);
    Field(line, c, " motor=", motor);
    line.Str(CRLF);
    ClipTwice(d, CRLF);
    assert d == Line(Phase(oldp, newp, delta, motor));
  }

  method FormatTrackWrite(line: LineBuffer, data: nat)
    requires line.Valid() && line.Text() == "" && data < 0x100
    modifies line, line.line
    ensures line.Valid() && line.Text() == Clip(Line(TrackWrite(data)) + CRLF)
  {
    hide Decimal, Clip, Hex8;
    ghost var a := "TRACK_WRITE addr=$0022 data=$";
    line.Str("TRACK_WRITE addr=$0022 data=$");
    assert "" + a == a;
    line.Hex(data);
    ClipTwice(a, Hex8(data));
    Field(line, a + Hex8(data), " (", data);
    line.Str(")\r\n");
    ghost var b := a + Hex8(data) + " (" + Decimal(data);
    ClipTwice(b, ")\r\n");
    assert b + ")\r\n" == Line(TrackWrite(data)) + CRLF;
  }

  method FormatHdrPhy(line: LineBuffer, track: nat, sector: nat, ticks16: nat)
    requires line.Valid() && line.Text() == "" && InFields(HdrPhy(track, sector, ticks16))
    modifies line, line.line
    ensures line.Valid() && line.Text() == Clip(Line(HdrPhy(track, sector, ticks16)) + CRLF)
  {
    hide Decimal, Clip;
    ClipWhole("");
    ghost var a := "" + "HDRPHY T0.0.16 T=" + Decimal(track);
    ghost var b := a + " S=" + Decimal(sector);
    ghost var c := b + " US=" + Decimal(ticks16 * 16);
    Field(line, "", "HDRPHY T0.0.16 T=", track);
    Field(line, a, " S=", sector);
    Field(line, b, " US=", ticks16 * 16);
    line.Str(CRLF);
    ClipTwice(c, CRLF);
    assert c == Line(HdrPhy(track, sector, ticks16));
  }

  method FormatRpm(line: LineBuffer, track: nat, revs: nat, rpm100: nat)
    requires line.Valid() && line.Text() == "" && InFields(Rpm(track, revs, rpm100))
    modifies line, line.line
    ensures line.Valid() && line.Text() == Clip(Line(Rpm(track, revs, rpm100)) + CRLF)
  {
    hide Decimal, Clip;
    ClipWhole("");
    ghost var a := "" + "RPM T0.0.16 T=" + Decimal(track);
    ghost var b := a + " REV=" + Decimal(revs);
    ghost var c := b + " RPM=" + Decimal(rpm100 / 100);
    Field(line, "", "RPM T0.0.16 T=", track);
    Field(line, a, " REV=", revs);
    Field(line, b, " RPM=", rpm100 / 100);
    FormatHundredths(line, c, rpm100 % 100);
    assert c + "." + (if rpm100 % 100 < 10 then "0" else "") + Decimal(rpm100 % 100) == Line(Rpm(track, revs, rpm100));
  }

  /** Two digits after the point. */
  method FormatHundredths(line: LineBuffer, ghost was: string, h: nat)
    requires line.Valid() && line.Text() == Clip(was) && h < 100
    modifies line, line.line
    ensures line.Valid()
    ensures line.Text() == Clip(was + "." + (if h < 10 then "0" else "") + Decimal(h) + CRLF)
  {
    hide Decimal, Clip;
    ghost var zero := if h < 10 then "0" else "";
    ghost var d := was + "." + zero;
    line.Str(".");
    ClipTwice(was, ".");
    if h < 10 {
      line.Str("0");
      ClipTwice(was + ".", "0");
    } else {
      assert d == was + ".";
    }
    line.U32(h);
    ClipTwice(d, Decimal(h));
    line.Str(CRLF);
    ClipTwice(d + Decimal(h), CRLF);
  }

  method FormatSync(line: LineBuffer, level: nat, count: nat)
    requires line.Valid() && line.Text() == "" && InFields(Sync(level, count))
    modifies line, line.line
    ensures line.Valid() && line.Text() == Clip(Line(Sync(level, count)) + CRLF)
  {
    hide Decimal, Clip;
    ClipWhole("");
    ghost var a := "" + "SYNC T0.0.16 COUNT=" + Decimal(count);
    ghost var b := a + " LEVEL=" + Decimal(level);
    Field(line, "", "SYNC T0.0.16 COUNT=", count);
    Field(line, a, " LEVEL=", level);
    line.Str(CRLF);
    ClipTwice(b, CRLF);
    assert b == Line(Sync(level, count));
  }
}
