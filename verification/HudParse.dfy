/** The GUI core (1541hud/gui/hud_core_v030.py): splitting the serial stream into
lines, and which parser branch a line goes to. */
module HudParse {
  import opened Wrappers
  import opened RttDigits
  import opened RttFormat
  import opened RttReadBack
  import opened EventText
  import opened TextPattern

  // ---------------------------------------------------------------------
  // The patterns
  // ---------------------------------------------------------------------

  const BLANK: Atom := Run(Space, false)
  const NUMBER: Atom := Run(Digit, true)

  function MotorRe(): seq<Atom> {
    [Lit("MOTOR"), BLANK, Lit("state="), NUMBER]
  }

  function PhaseRe(): seq<Atom> {
    [Lit("PHASE"), BLANK, Lit("old="), NUMBER, BLANK, Lit("new="), NUMBER, BLANK, Lit("delta="), NUMBER,
     BLANK, Lit("motor="), NUMBER]
  }

  function TrackRe(): seq<Atom> {
    [Lit("TRACK_WRITE"), BLANK, Lit("addr=$0022"), BLANK, Lit("data=$"), Run(Hex, false), BLANK,
     Lit("("), NUMBER, Lit(")")]
  }

  function StatusRe(): seq<Atom> {
    [Lit("STATUS"), BLANK, One(Letter('T', 'V')), Run(Version, false)]
  }

  function StateRe(): seq<Atom> {
    [Lit("STATE"), BLANK, One(Letter('T', 'V')), Run(Version, false)]
  }

  function DensityRe(): seq<Atom> {
    [Lit("DENSITY"), BLANK, Lit("state="), NUMBER]
  }

  function WpRe(): seq<Atom> {
    [Lit("WRITE_PROTECT"), BLANK, Lit("state="), NUMBER]
  }

  // The fields of a STATE record.

  function Pair(first: string, second: string): seq<Atom> {
    [Boundary, Lit(first), NUMBER, BLANK, Lit(second), NUMBER]
  }

  function Single(name: string): seq<Atom> {
    [Boundary, Lit(name), NUMBER]
  }

  /** int() of a captured group */
  function ToInt(s: string): nat {
    Horner(s, 10)
  }

  // ---------------------------------------------------------------------
  // The branch a line takes
  // ---------------------------------------------------------------------

  /** A STATE record's fields, where it has them. */
  datatype Snapshot = Snapshot(
    writeProtect: Option<seq<string>>, density: Option<seq<string>>, motor: Option<seq<string>>,
    position: Option<seq<string>>, track: Option<seq<string>>)

  datatype Branch =
    | State(snapshot: Snapshot)
    | DensityRecord(captured: seq<string>)
    | WpRecord(captured: seq<string>)
    | MotorRecord(captured: seq<string>)
    | TrackRecord(captured: seq<string>)
    | PhaseRecord(captured: seq<string>)
    | Ignored

  function SnapshotOf(line: string): Snapshot {
    Snapshot(Search(Pair("WPV=", "WP="), line), Search(Pair("DV=", "D="), line), Search(Single("M="), line),
             Search(Pair("TPV=", "TP2="), line), Search(Pair("TV=", "T="), line))
  }

  /** process_line's order of tests.  STATUS only updates a label and goes on. */
  function Dispatch(line: string): Branch {
    if Search(StateRe(), line).Some? then State(SnapshotOf(line))
    else if Search(DensityRe(), line).Some? then DensityRecord(Search(DensityRe(), line).value)
    else if Search(WpRe(), line).Some? then WpRecord(Search(WpRe(), line).value)
    else if Search(MotorRe(), line).Some? then MotorRecord(Search(MotorRe(), line).value)
    else if Search(TrackRe(), line).Some? then TrackRecord(Search(TrackRe(), line).value)
    else if Search(PhaseRe(), line).Some? then PhaseRecord(Search(PhaseRe(), line).value)
    else Ignored
  }

  /** Which of the seven patterns are found in a line at all. */
  datatype Found = Found(state: bool, status: bool, density: bool, wp: bool, motor: bool, track: bool, phase: bool)

  function FoundIn(line: string): Found {
    Found(Search(StateRe(), line).Some?, Search(StatusRe(), line).Some?, Search(DensityRe(), line).Some?,
          Search(WpRe(), line).Some?, Search(MotorRe(), line).Some?, Search(TrackRe(), line).Some?,
          Search(PhaseRe(), line).Some?)
  }

  // ---------------------------------------------------------------------
  // Decimal text
  // ---------------------------------------------------------------------

  /** A printed number is what \d+ takes, and int() gives it back. */
  lemma NumberTaken(v: nat)
    ensures Decimal(v) != "" && Takes(NUMBER, Decimal(v)) && ToInt(Decimal(v)) == v
    ensures forall c :: c in Decimal(v) ==> '0' <= c <= '9'
  {
    hide Decimal, Horner;
    DecimalReadsBack(v);
    assert forall k :: 0 <= k < |Decimal(v)| ==> Decimal(v)[k] in Decimal(v);
  }

  lemma HexTaken(v: nat)
    requires v < 0x100
    ensures Takes(Run(Hex, false), Hex8(v)) && forall c :: c in Hex8(v) ==> In(c, Hex)
  {
  }

  /** Two digits, in capitals, for the byte. */
  lemma HexReads(v: nat)
    requires v < 0x100
    ensures |Hex8(v)| == 2 && Horner(Hex8(v), 16) == v
    ensures forall c :: c in Hex8(v) ==> '0' <= c <= '9' || 'A' <= c <= 'F'
  {
    TwoHorner(Hex8(v)[0], Hex8(v)[1], 16);
    assert Hex8(v) == [Hex8(v)[0], Hex8(v)[1]];
  }

  lemma TwoHorner(a: char, b: char, base: nat)
    requires base == 10 || base == 16
    ensures Horner([a], base) == DigitValue(a) && Horner([a, b], base) == base * DigitValue(a) + DigitValue(b)
  {
    assert [a, b][..1] == [a] && [a][..0] == [];
    assert Horner([], base) == 0;
  }

  // What the diagnostic records say, for a reader of their numbers.

  lemma HdrPhyText(t: nat, s: nat, ticks: nat) returns (a: string, b: string, c: string)
    requires InFields(HdrPhy(t, s, ticks))
    ensures Line(HdrPhy(t, s, ticks)) == "HDRPHY T0.0.16 T=" + a + " S=" + b + " US=" + c
    ensures ToInt(a) == t && ToInt(b) == s && ToInt(c) == 16 * ticks
  {
    hide Decimal, ToInt;
    a, b, c := Decimal(t), Decimal(s), Decimal(ticks * 16);
    NumberTaken(t);
    NumberTaken(s);
    NumberTaken(ticks * 16);
  }

  lemma SyncText(l: nat, n: nat) returns (a: string, b: string)
    requires InFields(Sync(l, n))
    ensures Line(Sync(l, n)) == "SYNC T0.0.16 COUNT=" + a + " LEVEL=" + b && ToInt(a) == n && ToInt(b) == l
  {
    hide Decimal, ToInt;
    a, b := Decimal(n), Decimal(l);
    NumberTaken(n);
    NumberTaken(l);
  }

  /** The speed in RPM, with two decimals. */
  lemma RpmText(t: nat, r: nat, rpm: nat) returns (a: string, b: string, whole: string, frac: string)
    requires InFields(Rpm(t, r, rpm))
    ensures Line(Rpm(t, r, rpm)) == "RPM T0.0.16 T=" + a + " REV=" + b + " RPM=" + whole + "." + frac
    ensures ToInt(a) == t && ToInt(b) == r && |frac| == 2 && 100 * ToInt(whole) + ToInt(frac) == rpm
  {
    hide Decimal, ToInt;
    a, b, whole := Decimal(t), Decimal(r), Decimal(rpm / 100);
    frac := (if rpm % 100 < 10 then "0" else "") + Decimal(rpm % 100);
    NumberTaken(t);
    NumberTaken(r);
    NumberTaken(rpm / 100);
    TwoDigits(rpm % 100);
    var head := "RPM T0.0.16 T=" + a + " REV=" + b + " RPM=" + whole + ".";
    assert head + (if rpm % 100 < 10 then "0" else "") + Decimal(rpm % 100) == head + frac;
  }

  lemma TwoDigits(v: nat)
    requires v < 100
    ensures var s := (if v < 10 then "0" else "") + Decimal(v); |s| == 2 && ToInt(s) == v
  {
    hide Decimal;
    NumberTaken(v);
    DigitsBelow100(v);
    if v < 10 {
      var d := Decimal(v);
      assert d == [d[0]] && "0" + d == ['0', d[0]];
      TwoHorner('0', d[0], 10);
      TwoHorner(d[0], '0', 10);
    } else {
      assert "" + Decimal(v) == Decimal(v);
    }
  }

  lemma DigitsBelow100(v: nat)
    requires v < 100
    ensures |Decimal(v)| == if v < 10 then 1 else 2
  {
    if v >= 10 {
      assert Digits(v, 10) == [Remainder(v, 10)] + Digits(Quotient(v, 10), 10);
      assert Digits(v / 10, 10) == [Remainder(v / 10, 10)] + Digits(0, 10);
    } else if v > 0 {
      assert Digits(v, 10) == [Remainder(v, 10)] + Digits(0, 10);
    }
  }

  // ---------------------------------------------------------------------
  // Each event's line, read back by its own pattern
  // ---------------------------------------------------------------------

  predicate StartsPast(cls: Class, s: string) {
    s == "" || !In(s[0], cls)
  }

  lemma ReadsNumber(name: string, v: nat, p: seq<Atom>, s: string, captured: seq<string>)
    requires Reads(p, s, captured) && StartsPast(Digit, s)
    ensures Reads([Lit(name), NUMBER] + p, name + Decimal(v) + s, [Decimal(v)] + captured)
  {
    hide Decimal, Reads;
    NumberTaken(v);
    ReadsMore(NUMBER, Decimal(v), p, s, captured);
    ReadsMore(Lit(name), name, [NUMBER] + p, Decimal(v) + s, [Decimal(v)] + captured);
    assert [Lit(name)] + ([NUMBER] + p) == [Lit(name), NUMBER] + p;
    assert name + (Decimal(v) + s) == name + Decimal(v) + s;
    assert [] + ([Decimal(v)] + captured) == [Decimal(v)] + captured;
  }

  lemma ReadsBlank(p: seq<Atom>, s: string, captured: seq<string>)
    requires Reads(p, s, captured) && StartsPast(Space, s)
    ensures Reads([BLANK] + p, " " + s, captured)
  {
    hide Reads;
    ReadsMore(BLANK, " ", p, s, captured);
    assert [] + captured == captured;
  }

  /** MOTOR, DENSITY and WRITE_PROTECT records. */
  lemma NamedStateFound(name: string, v: nat)
    ensures Search([Lit(name), BLANK, Lit("state="), NUMBER], name + " state=" + Decimal(v)) == Some([Decimal(v)])
  {
    hide Decimal, Reads, Search;
    ReadsNothing();
    ReadsNumber("state=", v, [], "", []);
    var p, s := [Lit("state="), NUMBER], "state=" + Decimal(v);
    assert [Lit("state="), NUMBER] + [] == p && "state=" + Decimal(v) + "" == s && [Decimal(v)] + [] == [Decimal(v)];
    ReadsBlank(p, s, [Decimal(v)]);
    ReadsMore(Lit(name), name, [BLANK] + p, " " + s, [Decimal(v)]);
    var q := [Lit(name), BLANK, Lit("state="), NUMBER];
    assert [Lit(name)] + ([BLANK] + p) == q && [] + [Decimal(v)] == [Decimal(v)];
    assert name + (" " + s) == name + " state=" + Decimal(v);
    ReadsFound(q, name + " state=" + Decimal(v), [Decimal(v)]);
  }

  lemma NumberAfterBlank(name: string, v: nat, p: seq<Atom>, s: string, captured: seq<string>)
    requires Reads(p, s, captured) && StartsPast(Digit, s) && name != "" && StartsPast(Space, name)
    ensures Reads([BLANK, Lit(name), NUMBER] + p, " " + name + Decimal(v) + s, [Decimal(v)] + captured)
  {
    hide Decimal, Reads;
    ReadsNumber(name, v, p, s, captured);
    ReadsBlank([Lit(name), NUMBER] + p, name + Decimal(v) + s, [Decimal(v)] + captured);
    assert [BLANK] + ([Lit(name), NUMBER] + p) == [BLANK, Lit(name), NUMBER] + p;
    assert " " + (name + Decimal(v) + s) == " " + name + Decimal(v) + s;
  }

  lemma PhaseFound(o: nat, n: nat, d: nat, m: nat)
    requires InFields(Phase(o, n, d, m))
    ensures Search(PhaseRe(), Line(Phase(o, n, d, m))) == Some([Decimal(o), Decimal(n), Decimal(d), Decimal(m)])
  {
    hide Decimal, Reads, Search, MatchAt;
    PhaseTail(d, m);
    var p2 := [BLANK, Lit("delta="), NUMBER, BLANK, Lit("motor="), NUMBER];
    var s2 := " delta=" + Decimal(d) + " motor=" + Decimal(m);
    NumberAfterBlank("new=", n, p2, s2, [Decimal(d), Decimal(m)]);
    var p3, s3 := [BLANK, Lit("new="), NUMBER] + p2, " " + "new=" + Decimal(n) + s2;
    var c3 := [Decimal(n)] + [Decimal(d), Decimal(m)];
    NumberAfterBlank("old=", o, p3, s3, c3);
    var p4, s4 := [BLANK, Lit("old="), NUMBER] + p3, " " + "old=" + Decimal(o) + s3;
    ReadsMore(Lit("PHASE"), "PHASE", p4, s4, [Decimal(o)] + c3);
    assert [] + ([Decimal(o)] + c3) == [Decimal(o), Decimal(n), Decimal(d), Decimal(m)];
    assert [Lit("PHASE")] + p4 == PhaseRe();
    PhaseText(Decimal(o), Decimal(n), Decimal(d), Decimal(m));
    ReadsFound(PhaseRe(), "PHASE" + s4, [Decimal(o), Decimal(n), Decimal(d), Decimal(m)]);
  }

  lemma PhaseTail(d: nat, m: nat)
    ensures Reads([BLANK, Lit("delta="), NUMBER, BLANK, Lit("motor="), NUMBER],
                  " delta=" + Decimal(d) + " motor=" + Decimal(m), [Decimal(d), Decimal(m)])
  {
    hide Decimal, Reads;
    ReadsNothing();
    NumberAfterBlank("motor=", m, [], "", []);
    var p1, s1 := [BLANK, Lit("motor="), NUMBER], " motor=" + Decimal(m);
    assert [BLANK, Lit("motor="), NUMBER] + [] == p1 && " " + "motor=" + Decimal(m) + "" == s1;
    assert [Decimal(m)] + [] == [Decimal(m)];
    NumberAfterBlank("delta=", d, p1, s1, [Decimal(m)]);
    assert [BLANK, Lit("delta="), NUMBER] + p1 == [BLANK, Lit("delta="), NUMBER, BLANK, Lit("motor="), NUMBER];
    assert " " + "delta=" + Decimal(d) + s1 == " delta=" + Decimal(d) + " motor=" + Decimal(m);
    assert [Decimal(d)] + [Decimal(m)] == [Decimal(d), Decimal(m)];
  }

  lemma PhaseText(o: string, n: string, d: string, m: string)
    ensures "PHASE" + (" " + "old=" + o + (" " + "new=" + n + (" delta=" + d + " motor=" + m)))
            == "PHASE old=" + o + " new=" + n + " delta=" + d + " motor=" + m
  {
    var rest := " delta=" + d + " motor=" + m;
    var a := "PHASE old=" + o + " new=" + n;
    assert a + rest == a + " delta=" + d + " motor=" + m;
    assert "PHASE" + (" " + "old=" + o + (" " + "new=" + n + rest)) == a + rest;
  }

  lemma TrackFound(t: nat)
    requires t <= 0xFF
    ensures Search(TrackRe(), Line(TrackWrite(t))) == Some([Decimal(t)])
  {
    hide Decimal, Hex8, Reads, Search, MatchAt, TrackRe, StartsPast;
    NamesStartPast();
    TrackTail(t);
    var c := [Decimal(t)];
    var none: seq<string> := [];
    assert none + c == c;
    var p2, s2 := [Run(Hex, false), BLANK, Lit("("), NUMBER, Lit(")")], Hex8(t) + " (" + Decimal(t) + ")";
    BlankThen("data=$", p2, s2, c);
    assert " " + "data=$" == " data=$" && " " + "addr=$0022" == " addr=$0022";
    var p3, s3 := [BLANK, Lit("data=$")] + p2, " data=$" + s2;
    BlankThen("addr=$0022", p3, s3, c);
    var p4, s4 := [BLANK, Lit("addr=$0022")] + p3, " addr=$0022" + s3;
    ReadsMore(Lit("TRACK_WRITE"), "TRACK_WRITE", p4, s4, c);
    TrackPattern();
    TrackText(Hex8(t), Decimal(t));
    ReadsFound(TrackRe(), "TRACK_WRITE" + s4, c);
  }

  lemma NamesStartPast()
    ensures StartsPast(Space, "data=$") && StartsPast(Space, "addr=$0022")
  {
  }

  lemma TrackPattern()
    ensures [Lit("TRACK_WRITE")] + ([BLANK, Lit("addr=$0022")] + ([BLANK, Lit("data=$")]
              + [Run(Hex, false), BLANK, Lit("("), NUMBER, Lit(")")])) == TrackRe()
  {
  }

  lemma BlankThen(text: string, p: seq<Atom>, s: string, captured: seq<string>)
    requires Reads(p, s, captured) && text != "" && StartsPast(Space, text)
    ensures Reads([BLANK, Lit(text)] + p, " " + text + s, captured)
  {
    hide Reads;
    assert [] + captured == captured;
    ReadsMore(Lit(text), text, p, s, captured);
    ReadsBlank([Lit(text)] + p, text + s, captured);
    assert [BLANK] + ([Lit(text)] + p) == [BLANK, Lit(text)] + p;
    assert " " + (text + s) == " " + text + s;
  }

  lemma TrackTail(t: nat)
    requires t <= 0xFF
    ensures Reads([Run(Hex, false), BLANK, Lit("("), NUMBER, Lit(")")], Hex8(t) + " (" + Decimal(t) + ")", [Decimal(t)])
  {
    hide Decimal, Hex8, Reads;
    ReadsNothing();
    ReadsMore(Lit(")"), ")", [], "", []);
    assert [Lit(")")] + [] == [Lit(")")] && ")" + "" == ")";
    var none: seq<string> := [];
    assert none + none == none;
    ReadsNumber("(", t, [Lit(")")], ")", []);
    var p1, s1 := [Lit("("), NUMBER] + [Lit(")")], "(" + Decimal(t) + ")";
    var c := [Decimal(t)];
    assert c == [Decimal(t)] + [] && [] + c == c;
    ReadsBlank(p1, s1, c);
    HexTaken(t);
    ReadsMore(Run(Hex, false), Hex8(t), [BLANK] + p1, " " + s1, c);
    assert [Run(Hex, false)] + ([BLANK] + p1) == [Run(Hex, false), BLANK, Lit("("), NUMBER, Lit(")")];
    assert Hex8(t) + (" " + s1) == Hex8(t) + " (" + Decimal(t) + ")";
  }

  lemma TrackText(h: string, d: string)
    ensures "TRACK_WRITE" + (" addr=$0022" + (" data=$" + (h + " (" + d + ")")))
            == "TRACK_WRITE addr=$0022 data=$" + h + " (" + d + ")"
  {
    var rest := h + " (" + d + ")";
    assert "TRACK_WRITE" + (" addr=$0022" + (" data=$" + rest)) == "TRACK_WRITE addr=$0022 data=$" + rest;
  }

  // ---------------------------------------------------------------------
  // One branch each
  // ---------------------------------------------------------------------

  const NOTHING: Found := Found(false, false, false, false, false, false, false)

  /** What the GUI takes a line to say. */
  function Heard(line: string): Option<Event> {
    match Dispatch(line)
    case MotorRecord(c) => if |c| == 1 then Some(Motor(ToInt(c[0]))) else None
    case WpRecord(c) => if |c| == 1 then Some(WriteProtect(ToInt(c[0]))) else None
    case DensityRecord(c) => if |c| == 1 then Some(Density(ToInt(c[0]))) else None
    case TrackRecord(c) => if |c| == 1 then Some(TrackWrite(ToInt(c[0]))) else None
    case PhaseRecord(c) =>
      if |c| == 4 then Some(Phase(ToInt(c[0]), ToInt(c[1]), ToInt(c[2]), ToInt(c[3]))) else None
    case _ => None
  }

  predicate Diagnostic(e: Event) {
    e.HdrPhy? || e.Rpm? || e.Sync?
  }

  /** None of these letters is in the line. */
  predicate Avoids(s: string, cs: string) {
    forall c :: c in s ==> c !in cs
  }

  predicate NoDigits(cs: string) {
    forall c :: c in cs ==> !('0' <= c <= '9')
  }

  /** A record's next name and number. */
  lemma AvoidsField(was: string, name: string, v: nat, cs: string)
    requires Avoids(was, cs) && Avoids(name, cs) && NoDigits(cs)
    ensures Avoids(was + name + Decimal(v), cs)
  {
    hide Decimal;
    NumberTaken(v);
  }

  lemma AvoidsFirst(name: string, v: nat, cs: string)
    requires Avoids(name, cs) && NoDigits(cs)
    ensures Avoids(name + Decimal(v), cs)
  {
    hide Decimal;
    NumberTaken(v);
  }

  lemma AvoidsMore(a: string, b: string, cs: string)
    requires Avoids(a, cs) && Avoids(b, cs)
    ensures Avoids(a + b, cs)
  {
  }

  /** A pattern whose literal has one of the letters is not found. */
  lemma Misses(p: seq<Atom>, text: string, line: string, cs: string, k: nat)
    requires p != [] && p[0] == Lit(text) && k < |cs| && cs[k] in text && Avoids(line, cs)
    ensures Search(p, line) == None
  {
    LackingNeverFound(p, line, 0, cs[k]);
  }

  lemma MotorOnly(s: nat)
    requires s <= 1
    ensures FoundIn(Line(Motor(s))) == NOTHING.(motor := true) && Heard(Line(Motor(s))) == Some(Motor(s))
  {
    hide Decimal, Search, ToInt, Avoids;
    var line, cs := Line(Motor(s)), "SDWP\r\n";
    MotorLetters(s);
    NumberTaken(s);
    NamedStateFound("MOTOR", s);
    assert "MOTOR state=" + Decimal(s) == "MOTOR" + " state=" + Decimal(s);
    Misses(StateRe(), "STATE", line, cs, 0);
    Misses(StatusRe(), "STATUS", line, cs, 0);
    Misses(DensityRe(), "DENSITY", line, cs, 1);
    Misses(WpRe(), "WRITE_PROTECT", line, cs, 2);
    Misses(TrackRe(), "TRACK_WRITE", line, cs, 2);
    Misses(PhaseRe(), "PHASE", line, cs, 3);
  }

  lemma MotorLetters(s: nat)
    requires s <= 1
    ensures Avoids(Line(Motor(s)), "SDWP\r\n")
  {
    AvoidsFirst("MOTOR state=", s, "SDWP\r\n");
  }

  lemma PhaseOnly(o: nat, n: nat, d: nat, m: nat)
    requires InFields(Phase(o, n, d, m))
    ensures FoundIn(Line(Phase(o, n, d, m))) == NOTHING.(phase := true)
    ensures Heard(Line(Phase(o, n, d, m))) == Some(Phase(o, n, d, m))
  {
    hide Decimal, Search, ToInt, Avoids, Line;
    var line, cs := Line(Phase(o, n, d, m)), "TDWM\r\n";
    PhaseLetters(o, n, d, m);
    NumberTaken(o);
    NumberTaken(n);
    NumberTaken(d);
    NumberTaken(m);
    PhaseFound(o, n, d, m);
    Misses(StateRe(), "STATE", line, cs, 0);
    Misses(StatusRe(), "STATUS", line, cs, 0);
    Misses(DensityRe(), "DENSITY", line, cs, 1);
    Misses(WpRe(), "WRITE_PROTECT", line, cs, 2);
    Misses(MotorRe(), "MOTOR", line, cs, 3);
    Misses(TrackRe(), "TRACK_WRITE", line, cs, 2);
  }

  lemma PhaseLetters(o: nat, n: nat, d: nat, m: nat)
    requires InFields(Phase(o, n, d, m))
    ensures Avoids(Line(Phase(o, n, d, m)), "TDWM\r\n")
  {
    hide Decimal;
    var cs := "TDWM\r\n";
    var a := "PHASE old=" + Decimal(o);
    var b := a + " new=" + Decimal(n);
    var c := b + " delta=" + Decimal(d);
    AvoidsFirst("PHASE old=", o, cs);
    AvoidsField(a, " new=", n, cs);
    AvoidsField(b, " delta=", d, cs);
    AvoidsField(c, " motor=", m, cs);
  }

  lemma TrackOnly(t: nat)
    requires t <= 0xFF
    ensures FoundIn(Line(TrackWrite(t))) == NOTHING.(track := true) && Heard(Line(TrackWrite(t))) == Some(TrackWrite(t))
  {
    hide Decimal, Search, ToInt, Avoids, Line;
    var line, cs := Line(TrackWrite(t)), "SNPM\r\n";
    TrackLetters(t);
    NumberTaken(t);
    TrackFound(t);
    Misses(StateRe(), "STATE", line, cs, 0);
    Misses(StatusRe(), "STATUS", line, cs, 0);
    Misses(DensityRe(), "DENSITY", line, cs, 1);
    Misses(WpRe(), "WRITE_PROTECT", line, cs, 2);
    Misses(MotorRe(), "MOTOR", line, cs, 3);
    Misses(PhaseRe(), "PHASE", line, cs, 2);
  }

  lemma TrackLetters(t: nat)
    requires t <= 0xFF
    ensures Avoids(Line(TrackWrite(t)), "SNPM\r\n")
  {
    hide Decimal, Hex8;
    var cs := "SNPM\r\n";
    HexTaken(t);
    var a := "TRACK_WRITE addr=$0022 data=$";
    TrackNameLetters();
    AvoidsMore(a, Hex8(t), cs);
    AvoidsField(a + Hex8(t), " (", t, cs);
    AvoidsMore(a + Hex8(t) + " (" + Decimal(t), ")", cs);
  }

  lemma TrackNameLetters()
    ensures Avoids("TRACK_WRITE addr=$0022 data=$", "SNPM\r\n")
  {
    var cs, a, b, c := "SNPM\r\n", "TRACK_WRITE", " addr=$0022", " data=$";
    TrackWordLetters();
    assert Avoids(c, cs);
    AvoidsMore(a, b, cs);
    AvoidsMore(a + b, c, cs);
    assert a + b + c == "TRACK_WRITE addr=$0022 data=$";
  }

  lemma TrackWordLetters()
    ensures Avoids("TRACK_WRITE", "SNPM\r\n") && Avoids(" addr=$0022", "SNPM\r\n")
  {
  }

  lemma WpOnly(s: nat)
    requires s <= 1
    ensures FoundIn(Line(WriteProtect(s))) == NOTHING.(wp := true)
    ensures Heard(Line(WriteProtect(s))) == Some(WriteProtect(s))
  {
    hide Decimal, Search, ToInt, Avoids;
    var line, cs := Line(WriteProtect(s)), "SDMAH\r\n";
    WpLetters(s);
    NumberTaken(s);
    NamedStateFound("WRITE_PROTECT", s);
    assert "WRITE_PROTECT state=" + Decimal(s) == "WRITE_PROTECT" + " state=" + Decimal(s);
    Misses(StateRe(), "STATE", line, cs, 0);
    Misses(StatusRe(), "STATUS", line, cs, 0);
    Misses(DensityRe(), "DENSITY", line, cs, 1);
    Misses(MotorRe(), "MOTOR", line, cs, 2);
    Misses(TrackRe(), "TRACK_WRITE", line, cs, 3);
    Misses(PhaseRe(), "PHASE", line, cs, 4);
  }

  lemma WpLetters(s: nat)
    requires s <= 1
    ensures Avoids(Line(WriteProtect(s)), "SDMAH\r\n")
  {
    var cs := "SDMAH\r\n";
    AvoidsMore("WRITE_PROTECT", " state=", cs);
    assert "WRITE_PROTECT" + " state=" == "WRITE_PROTECT state=";
    AvoidsFirst("WRITE_PROTECT state=", s, cs);
  }

  lemma DensityOnly(d: nat)
    requires d <= 3
    ensures FoundIn(Line(Density(d))) == NOTHING.(density := true) && Heard(Line(Density(d))) == Some(Density(d))
  {
    hide Decimal, Search, ToInt, Avoids;
    var line, cs := Line(Density(d)), "AWMP\r\n";
    DensityLetters(d);
    NumberTaken(d);
    NamedStateFound("DENSITY", d);
    assert "DENSITY state=" + Decimal(d) == "DENSITY" + " state=" + Decimal(d);
    Misses(StateRe(), "STATE", line, cs, 0);
    Misses(StatusRe(), "STATUS", line, cs, 0);
    Misses(WpRe(), "WRITE_PROTECT", line, cs, 1);
    Misses(MotorRe(), "MOTOR", line, cs, 2);
    Misses(TrackRe(), "TRACK_WRITE", line, cs, 1);
    Misses(PhaseRe(), "PHASE", line, cs, 3);
  }

  lemma DensityLetters(d: nat)
    requires d <= 3
    ensures Avoids(Line(Density(d)), "AWMP\r\n")
  {
    AvoidsFirst("DENSITY state=", d, "AWMP\r\n");
  }

  /** The diagnostic records are not the core's: it passes them by. */
  lemma DiagnosticIgnored(e: Event)
    requires InFields(e) && Diagnostic(e)
    ensures FoundIn(Line(e)) == NOTHING && Heard(Line(e)) == None
  {
    hide Search, ToInt, Line, Avoids;
    DiagnosticLetters(e);
    var line, cs := Line(e), DiagnosticGaps(e);
    Misses(StateRe(), "STATE", line, cs, 0);
    Misses(StatusRe(), "STATUS", line, cs, 0);
    Misses(DensityRe(), "DENSITY", line, cs, 1);
    Misses(WpRe(), "WRITE_PROTECT", line, cs, 2);
    Misses(MotorRe(), "MOTOR", line, cs, 3);
    Misses(TrackRe(), "TRACK_WRITE", line, cs, 2);
    Misses(PhaseRe(), "PHASE", line, cs, 4);
  }

  function DiagnosticGaps(e: Event): string {
    if e.HdrPhy? then "ANWME\r\n" else if e.Rpm? then "SDWOH\r\n" else "ADWMH\r\n"
  }

  lemma DiagnosticLetters(e: Event)
    requires InFields(e) && Diagnostic(e)
    ensures Avoids(Line(e), DiagnosticGaps(e))
  {
    match e
    case HdrPhy(t, s, ticks) => HdrPhyLetters(t, s, ticks);
    case Rpm(t, r, rpm) => RpmLetters(t, r, rpm);
    case Sync(l, c) => SyncLetters(l, c);
  }

  lemma HdrPhyLetters(t: nat, s: nat, ticks: nat)
    requires InFields(HdrPhy(t, s, ticks))
    ensures Avoids(Line(HdrPhy(t, s, ticks)), "ANWME\r\n")
  {
    hide Decimal;
    var cs := "ANWME\r\n";
    var a := "HDRPHY T0.0.16 T=" + Decimal(t);
    var b := a + " S=" + Decimal(s);
    AvoidsFirst("HDRPHY T0.0.16 T=", t, cs);
    AvoidsField(a, " S=", s, cs);
    AvoidsField(b, " US=", ticks * 16, cs);
  }

  lemma RpmLetters(t: nat, r: nat, rpm: nat)
    requires InFields(Rpm(t, r, rpm))
    ensures Avoids(Line(Rpm(t, r, rpm)), "SDWOH\r\n")
  {
    hide Decimal;
    var cs := "SDWOH\r\n";
    var a := "RPM T0.0.16 T=" + Decimal(t);
    var b := a + " REV=" + Decimal(r);
    var c := b + " RPM=" + Decimal(rpm / 100);
    var point, zero := ".", if rpm % 100 < 10 then "0" else "";
    AvoidsFirst("RPM T0.0.16 T=", t, cs);
    AvoidsField(a, " REV=", r, cs);
    AvoidsField(b, " RPM=", rpm / 100, cs);
    AvoidsMore(c, point, cs);
    AvoidsField(c + point, zero, rpm % 100, cs);
  }

  lemma SyncLetters(l: nat, c: nat)
    requires InFields(Sync(l, c))
    ensures Avoids(Line(Sync(l, c)), "ADWMH\r\n")
  {
    hide Decimal;
    var cs := "ADWMH\r\n";
    AvoidsFirst("SYNC T0.0.16 COUNT=", c, cs);
    AvoidsField("SYNC T0.0.16 COUNT=" + Decimal(c), " LEVEL=", l, cs);
  }

  lemma Narrower(s: string, cs: string, k: nat)
    requires Avoids(s, cs) && k < |cs|
    ensures cs[k] !in s
  {
  }

  /** No record has a line end inside it. */
  lemma LineUnbroken(e: Event)
    requires InFields(e)
    ensures '\r' !in Line(e) && '\n' !in Line(e)
  {
    hide Line, Avoids;
    var line := Line(e);
    match e
    case Motor(s) =>
      MotorLetters(s);
      Narrower(line, "SDWP\r\n", 4);
      Narrower(line, "SDWP\r\n", 5);
    case Phase(o, n, d, m) =>
      PhaseLetters(o, n, d, m);
      Narrower(line, "TDWM\r\n", 4);
      Narrower(line, "TDWM\r\n", 5);
    case TrackWrite(t) =>
      TrackLetters(t);
      Narrower(line, "SNPM\r\n", 4);
      Narrower(line, "SNPM\r\n", 5);
    case WriteProtect(s) =>
      WpLetters(s);
      Narrower(line, "SDMAH\r\n", 5);
      Narrower(line, "SDMAH\r\n", 6);
    case Density(d) =>
      DensityLetters(d);
      Narrower(line, "AWMP\r\n", 4);
      Narrower(line, "AWMP\r\n", 5);
    case _ =>
      DiagnosticLetters(e);
      Narrower(line, DiagnosticGaps(e), 5);
      Narrower(line, DiagnosticGaps(e), 6);
  }

  /** How many of the patterns a line matches. */
  function Branches(f: Found): nat {
    One01(f.state) + One01(f.status) + One01(f.density) + One01(f.wp) + One01(f.motor) + One01(f.track) + One01(f.phase)
  }

  function One01(b: bool): nat {
    if b then 1 else 0
  }

  /** The line of every event the core knows matches one pattern and no other, and the
      branch it takes hears exactly the fields that were packed. */
  lemma LineHeard(e: Event)
    requires InFields(e)
    ensures Branches(FoundIn(Line(e))) == if Diagnostic(e) then 0 else 1
    ensures Heard(Line(e)) == if Diagnostic(e) then None else Some(e)
  {
    hide Heard, FoundIn, Line;
    match e
    case Motor(s) => MotorOnly(s);
    case Phase(o, n, d, m) => PhaseOnly(o, n, d, m);
    case TrackWrite(t) => TrackOnly(t);
    case WriteProtect(s) => WpOnly(s);
    case Density(d) => DensityOnly(d);
    case HdrPhy(_, _, _) => DiagnosticIgnored(e);
    case Rpm(_, _, _) => DiagnosticIgnored(e);
    case Sync(_, _) => DiagnosticIgnored(e);
  }
}
