/** The state record a reconnecting GUI is sent first (1541hud/artifacts/T0.0.16 and
1541hud/gui/hud_core_v030.py): its packing, its text, and what the GUI takes from it. */
module HudState {
  import opened Words
  import opened Wrappers
  import opened Bits
  import opened RttFormat
  import opened EventText
  import opened TextPattern
  import opened HudParse
  import opened HudCore

  // ---------------------------------------------------------------------
  // The snapshot
  // ---------------------------------------------------------------------

  /** The mailbox fields a state record shows. */
  datatype Mailbox = Mailbox(
    wpValid: nat, writeProtect: nat, posValid: nat, pos2: nat, trackValid: nat, track: nat,
    densityValid: nat, density: nat, motor: nat)

  predicate Sized(m: Mailbox) {
    && m.wpValid < WORD && m.writeProtect < WORD && m.densityValid < WORD && m.density < WORD && m.motor < WORD
    && m.posValid <= 1 && m.pos2 <= 0xFF && m.trackValid <= 1 && m.track <= 0xFF
  }

  /** publish_track_state */
  function TrackState(m: Mailbox, stepping: bool): nat {
    m.track + m.trackValid * 0x100 + m.pos2 * 0x1_0000 + m.posValid * 0x100_0000 + (if stepping then 0x200_0000 else 0)
  }

  /** The bridge's extractors give each field back. */
  lemma TrackStateFields(m: Mailbox, stepping: bool)
    requires Sized(m)
    ensures var s := TrackState(m, stepping);
      && s < WORD && s % 0x100 == m.track && (s / 0x100) % 2 == m.trackValid
      && (s / 0x1_0000) % 0x100 == m.pos2 && (s / 0x100_0000) % 2 == m.posValid
  {
    var top := m.posValid + if stepping then 2 else 0;
    CutLow(m.track, m.trackValid, m.pos2, top);
  }

  lemma CutLow(a: nat, b: nat, c: nat, d: nat)
    requires a <= 0xFF && b <= 1 && c <= 0xFF && d <= 3
    ensures var s := a + b * 0x100 + c * 0x1_0000 + d * 0x100_0000;
      && s < WORD && s % 0x100 == a && (s / 0x100) % 2 == b && (s / 0x1_0000) % 0x100 == c && s / 0x100_0000 == d
  {
    var s, upper := a + b * 0x100 + c * 0x1_0000 + d * 0x100_0000, c + d * 0x100;
    ModUnique(s, 0x100, b + upper * 0x100, a);
    ModUnique(b + upper * 0x100, 2, upper * 0x80, b);
    ModUnique(s, 0x1_0000, upper, a + b * 0x100);
    ModUnique(upper, 0x100, d, c);
    ModUnique(s, 0x100_0000, d, a + b * 0x100 + c * 0x1_0000);
  }

  // ---------------------------------------------------------------------
  // Its text
  // ---------------------------------------------------------------------

  const HEAD: string := "STATE T0.0.16 "

  // Each field's text and all that follows it.

  function FromMotor(m: Mailbox): string {
    "M=" + Decimal(m.motor)
  }

  function FromDensity(m: Mailbox): string {
    PairText("DV=", m.densityValid, "D=", m.density) + " " + FromMotor(m)
  }

  function FromTrack(m: Mailbox): string {
    PairText("TV=", m.trackValid, "T=", m.track) + " " + FromDensity(m)
  }

  function FromPosition(m: Mailbox): string {
    PairText("TPV=", m.posValid, "TP2=", m.pos2) + " " + FromTrack(m)
  }

  function FromWriteProtect(m: Mailbox): string {
    PairText("WPV=", m.wpValid, "WP=", m.writeProtect) + " " + FromPosition(m)
  }

  function PairText(first: string, a: nat, second: string, b: nat): string {
    first + Decimal(a) + " " + second + Decimal(b)
  }

  function StateLine(m: Mailbox): string {
    HEAD + FromWriteProtect(m)
  }

  /** It fits its buffer, line end and all. */
  lemma StateLineFits(m: Mailbox)
    requires Sized(m)
    ensures |StateLine(m)| + |CRLF| <= LINE_SIZE
  {
    hide Decimal;
    DecimalFits(m.wpValid);
    DecimalFits(m.writeProtect);
    DecimalFits(m.posValid);
    DecimalFits(m.pos2);
    DecimalFits(m.trackValid);
    DecimalFits(m.track);
    DecimalFits(m.densityValid);
    DecimalFits(m.density);
    DecimalFits(m.motor);
  }

  /** The bridge's record. */
  method FormatState(m: Mailbox) returns (record: string)
    requires Sized(m)
    ensures record == StateLine(m) + CRLF
  {
    hide Decimal, Clip, StateLine;
    var line := new LineBuffer();
    ClipWhole("");
    ghost var a := "" + "STATE T0.0.16 WPV=" + Decimal(m.wpValid);
    ghost var b := a + " WP=" + Decimal(m.writeProtect);
    ghost var c := b + " TPV=" + Decimal(m.posValid);
    Field(line, "", "STATE T0.0.16 WPV=", m.wpValid);
    Field(line, a, " WP=", m.writeProtect);
    Field(line, b, " TPV=", m.posValid);
    FormatStateRest(line, c, m);
    StateText(m);
    StateLineFits(m);
    ClipWhole(StateLine(m) + CRLF);
    record := line.Text();
  }

  method FormatStateRest(line: LineBuffer, ghost c: string, m: Mailbox)
    requires line.Valid() && line.Text() == Clip(c) && Sized(m)
    modifies line, line.line
    ensures line.Valid()
    ensures line.Text() == Clip(c + " TP2=" + Decimal(m.pos2)
                              + " TV=" + Decimal(m.trackValid) + " T=" + Decimal(m.track)
                                + " DV=" + Decimal(m.densityValid) + " D=" + Decimal(m.density)
                                + " M=" + Decimal(m.motor)
                                + CRLF)
  {
    hide Decimal, Clip;
    ghost var d := c + " TP2=" + Decimal(m.pos2);
    ghost var e := d + " TV=" + Decimal(m.trackValid);
    ghost var f := e + " T=" + Decimal(m.track);
    ghost var g := f + " DV=" + Decimal(m.densityValid);
    ghost var h := g + " D=" + Decimal(m.density);
    ghost var i := h + " M=" + Decimal(m.motor);
    Field(line, c, " TP2=", m.pos2);
    Field(line, d, " TV=", m.trackValid);
    Field(line, e, " T=", m.track);
    Field(line, f, " DV=", m.densityValid);
    Field(line, g, " D=", m.density);
    Field(line, h, " M=", m.motor);
    line.Str(CRLF);
    ClipTwice(i, CRLF);
  }

  /** The fields appended one by one are the line. */
  lemma StateText(m: Mailbox)
    ensures "" + "STATE T0.0.16 WPV=" + Decimal(m.wpValid) + " WP=" + Decimal(m.writeProtect)
            + " TPV=" + Decimal(m.posValid)
            + " TP2=" + Decimal(m.pos2) + " TV=" + Decimal(m.trackValid) + " T=" + Decimal(m.track)
            + " DV=" + Decimal(m.densityValid) + " D=" + Decimal(m.density) + " M=" + Decimal(m.motor) + CRLF
            == StateLine(m) + CRLF
  {
    hide Decimal;
    JoinPair("", "STATE T0.0.16 WPV=", Decimal(m.wpValid), " WP=", Decimal(m.writeProtect));
    Texts(Decimal(m.wpValid), Decimal(m.writeProtect), Decimal(m.posValid), Decimal(m.pos2), Decimal(m.trackValid),
          Decimal(m.track), Decimal(m.densityValid), Decimal(m.density), Decimal(m.motor));
  }

  lemma JoinPair(was: string, first: string, a: string, second: string, b: string)
    ensures was + first + a + second + b == was + (first + a + second + b)
  {
  }

  lemma Texts(wv: string, w: string, pv: string, p: string, tv: string, t: string, dv: string, d: string, m: string)
    ensures "" + "STATE T0.0.16 WPV=" + wv + " WP=" + w + " TPV=" + pv + " TP2=" + p + " TV=" + tv + " T=" + t
            + " DV=" + dv + " D=" + d + " M=" + m
            == HEAD + ("WPV=" + wv + " " + "WP=" + w + " " + ("TPV=" + pv + " " + "TP2=" + p + " "
               + ("TV=" + tv + " " + "T=" + t + " " + ("DV=" + dv + " " + "D=" + d + " " + ("M=" + m)))))
  {
    var a := "" + "STATE T0.0.16 WPV=" + wv + " WP=" + w;
    assert a == HEAD + ("WPV=" + wv + " " + "WP=" + w);
    var b := a + " TPV=" + pv + " TP2=" + p;
    assert b == a + " " + ("TPV=" + pv + " " + "TP2=" + p);
    var c := b + " TV=" + tv + " T=" + t;
    assert c == b + " " + ("TV=" + tv + " " + "T=" + t);
    var e := c + " DV=" + dv + " D=" + d;
    assert e == c + " " + ("DV=" + dv + " " + "D=" + d);
    assert e + " M=" + m == e + " " + ("M=" + m);
    Nest(HEAD, "WPV=" + wv + " " + "WP=" + w, "TPV=" + pv + " " + "TP2=" + p, "TV=" + tv + " " + "T=" + t,
         "DV=" + dv + " " + "D=" + d, "M=" + m);
  }

  lemma Nest(h: string, a: string, b: string, c: string, d: string, e: string)
    ensures h + a + " " + b + " " + c + " " + d + " " + e
            == h + (a + " " + (b + " " + (c + " " + (d + " " + e))))
  {
  }

  // ---------------------------------------------------------------------
  // What the GUI finds in it
  // ---------------------------------------------------------------------

  /** c is never followed by d. */
  predicate NoPair(s: string, c: char, d: char) {
    forall i :: 0 <= i < |s| - 1 && s[i] == c ==> s[i + 1] != d
  }

  lemma NoPairJoin(a: string, b: string, c: char, d: char)
    requires NoPair(a, c, d) && NoPair(b, c, d) && (a == "" || a[|a| - 1] != c)
    ensures NoPair(a + b, c, d)
  {
  }

  /** Up to here the line holds no match; here it does. */
  lemma {:induction false} SearchSkips(p: seq<Atom>, s: string, i: nat, n: nat, captured: seq<string>)
    requires i <= n <= |s| && MatchAt(p, s, n) == Some(captured)
    requires forall k: nat :: i <= k < n ==> MatchAt(p, s, k) == None
    ensures SearchFrom(p, s, i) == Some(captured)
    decreases n - i
  {
    hide MatchAt;
    if i < n {
      SearchSkips(p, s, i + 1, n, captured);
    }
  }

  /** A name that starts at a word boundary and whose first two letters do not stand
      together earlier is found where it is. */
  lemma NameFound(prefix: string, name: string, p: seq<Atom>, s: string, captured: seq<string>)
    requires |name| >= 2 && IsWord(name[0]) && Reads([Lit(name)] + p, name + s, captured)
    requires prefix != "" && prefix[|prefix| - 1] == ' ' && name[0] != ' ' && NoPair(prefix, name[0], name[1])
    ensures Search([Boundary] + ([Lit(name)] + p), prefix + (name + s)) == Some(captured)
  {
    var q, line, n := [Boundary] + ([Lit(name)] + p), prefix + (name + s), |prefix|;
    assert q[1..] == [Lit(name)] + p;
    UseReads([Lit(name)] + p, name + s, captured, prefix);
    assert line[n] == name[0] && line[n - 1] == ' ';
    forall k: nat | k < n ensures MatchAt(q, line, k) == None {
      NotNamedAt(prefix, name, p, s, k);
    }
    SearchSkips(q, line, 0, n, captured);
  }

  lemma NotNamedAt(prefix: string, name: string, p: seq<Atom>, s: string, k: nat)
    requires |name| >= 2 && k < |prefix|
    requires prefix[|prefix| - 1] == ' ' && name[0] != ' ' && NoPair(prefix, name[0], name[1])
    ensures MatchAt([Boundary] + ([Lit(name)] + p), prefix + (name + s), k) == None
  {
    var q, line := [Boundary] + ([Lit(name)] + p), prefix + (name + s);
    assert q[1..] == [Lit(name)] + p && q[1..][0] == Lit(name);
    AtLetters(line, k, name);
    assert line[k] == prefix[k] && (k < |prefix| - 1 ==> line[k + 1] == prefix[k + 1]);
  }

  lemma AtLetters(s: string, k: nat, text: string)
    ensures |text| >= 2 && At(s, k, text) ==> k + 1 < |s| && s[k] == text[0] && s[k + 1] == text[1]
  {
    if |text| >= 2 && At(s, k, text) {
      assert s[k..k + |text|][0] == s[k] && s[k..k + |text|][1] == s[k + 1];
    }
  }

  lemma PairFound(prefix: string, first: string, a: nat, second: string, b: nat, rest: string)
    requires |first| >= 2 && IsWord(first[0]) && second != "" && StartsPast(Space, second) && StartsPast(Digit, rest)
    requires prefix != "" && prefix[|prefix| - 1] == ' ' && first[0] != ' ' && NoPair(prefix, first[0], first[1])
    ensures Search(Pair(first, second), prefix + (PairText(first, a, second, b) + rest))
            == Some([Decimal(a), Decimal(b)])
  {
    hide Decimal, Reads, Search, MatchAt, NoPair;
    Anywhere(rest);
    NumberAfterBlank(second, b, [], rest, []);
    var p1, s1 := [BLANK, Lit(second), NUMBER], " " + second + Decimal(b) + rest;
    assert [BLANK, Lit(second), NUMBER] + [] == p1 && [Decimal(b)] + [] == [Decimal(b)];
    ReadsNumber(first, a, p1, s1, [Decimal(b)]);
    var p, s := [NUMBER] + p1, Decimal(a) + s1;
    assert [Lit(first), NUMBER] + p1 == [Lit(first)] + p && first + Decimal(a) + s1 == first + s;
    assert [Decimal(a)] + [Decimal(b)] == [Decimal(a), Decimal(b)];
    NameFound(prefix, first, p, s, [Decimal(a), Decimal(b)]);
    assert [Boundary] + ([Lit(first)] + p) == Pair(first, second);
    assert first + s == PairText(first, a, second, b) + rest;
  }

  /** An empty pattern matches before anything. */
  lemma Anywhere(rest: string)
    ensures Reads([], rest, [])
  {
  }

  lemma SingleFound(prefix: string, name: string, a: nat)
    requires |name| >= 2 && IsWord(name[0])
    requires prefix != "" && prefix[|prefix| - 1] == ' ' && name[0] != ' ' && NoPair(prefix, name[0], name[1])
    ensures Search(Single(name), prefix + (name + Decimal(a))) == Some([Decimal(a)])
  {
    hide Decimal, Reads, Search, MatchAt, NoPair;
    ReadsNothing();
    ReadsNumber(name, a, [], "", []);
    assert [Lit(name), NUMBER] + [] == [Lit(name)] + [NUMBER] && name + Decimal(a) + "" == name + Decimal(a);
    assert [Decimal(a)] + [] == [Decimal(a)];
    NameFound(prefix, name, [NUMBER], Decimal(a), [Decimal(a)]);
    assert [Boundary] + ([Lit(name)] + [NUMBER]) == Single(name);
  }

  // The prefixes before each field, and why nothing in them looks like its name.

  function ToPosition(m: Mailbox): string {
    HEAD + (PairText("WPV=", m.wpValid, "WP=", m.writeProtect) + " ")
  }

  function ToTrack(m: Mailbox): string {
    ToPosition(m) + (PairText("TPV=", m.posValid, "TP2=", m.pos2) + " ")
  }

  function ToDensity(m: Mailbox): string {
    ToTrack(m) + (PairText("TV=", m.trackValid, "T=", m.track) + " ")
  }

  function ToMotor(m: Mailbox): string {
    ToDensity(m) + (PairText("DV=", m.densityValid, "D=", m.density) + " ")
  }

  /** A field's text brings no such pair, if its two names do not. */
  lemma NoPairInField(was: string, first: string, a: nat, second: string, b: nat, c: char, d: char)
    requires NoPair(was, c, d) && (was == "" || was[|was| - 1] != c) && NoPair(first, c, d) && NoPair(second, c, d)
    requires !('0' <= c <= '9') && c != ' ' && first != "" && second != ""
    requires first[|first| - 1] != c && second[|second| - 1] != c
    ensures NoPair(was + (PairText(first, a, second, b) + " "), c, d)
  {
    hide Decimal, NoPair;
    NumberTaken(a);
    NumberTaken(b);
    LacksPair(Decimal(a), c, d);
    LacksPair(Decimal(b), c, d);
    LacksPair(" ", c, d);
    NoPairJoin(first, Decimal(a), c, d);
    assert Decimal(a)[|Decimal(a)| - 1] in Decimal(a) && Decimal(b)[|Decimal(b)| - 1] in Decimal(b);
    NoPairJoin(first + Decimal(a), " ", c, d);
    NoPairJoin(first + Decimal(a) + " ", second, c, d);
    NoPairJoin(first + Decimal(a) + " " + second, Decimal(b), c, d);
    NoPairJoin(PairText(first, a, second, b), " ", c, d);
    NoPairJoin(was, PairText(first, a, second, b) + " ", c, d);
  }

  lemma LacksPair(s: string, c: char, d: char)
    requires c !in s
    ensures NoPair(s, c, d)
  {
    assert forall i :: 0 <= i < |s| ==> s[i] in s;
  }

  lemma HeadPairs()
    ensures NoPair(HEAD, 'W', 'P') && NoPair(HEAD, 'T', 'P') && NoPair(HEAD, 'T', 'V')
    ensures NoPair(HEAD, 'D', 'V') && NoPair(HEAD, 'M', '=')
  {
  }

  lemma PositionClear(m: Mailbox)
    ensures NoPair(ToPosition(m), 'T', 'P')
  {
    hide Decimal;
    HeadPairs();
    NoPairInField(HEAD, "WPV=", m.wpValid, "WP=", m.writeProtect, 'T', 'P');
  }

  lemma TrackClear(m: Mailbox)
    ensures NoPair(ToTrack(m), 'T', 'V')
  {
    hide Decimal;
    HeadPairs();
    NoPairInField(HEAD, "WPV=", m.wpValid, "WP=", m.writeProtect, 'T', 'V');
    NoPairInField(ToPosition(m), "TPV=", m.posValid, "TP2=", m.pos2, 'T', 'V');
  }

  lemma DensityClear(m: Mailbox)
    ensures NoPair(ToDensity(m), 'D', 'V')
  {
    hide Decimal;
    HeadPairs();
    NoPairInField(HEAD, "WPV=", m.wpValid, "WP=", m.writeProtect, 'D', 'V');
    NoPairInField(ToPosition(m), "TPV=", m.posValid, "TP2=", m.pos2, 'D', 'V');
    NoPairInField(ToTrack(m), "TV=", m.trackValid, "T=", m.track, 'D', 'V');
  }

  lemma MotorClear(m: Mailbox)
    ensures NoPair(ToMotor(m), 'M', '=')
  {
    hide Decimal;
    HeadPairs();
    NoPairInField(HEAD, "WPV=", m.wpValid, "WP=", m.writeProtect, 'M', '=');
    NoPairInField(ToPosition(m), "TPV=", m.posValid, "TP2=", m.pos2, 'M', '=');
    NoPairInField(ToTrack(m), "TV=", m.trackValid, "T=", m.track, 'M', '=');
    NoPairInField(ToDensity(m), "DV=", m.densityValid, "D=", m.density, 'M', '=');
  }

  lemma LineCuts(m: Mailbox)
    ensures StateLine(m) == HEAD + (PairText("WPV=", m.wpValid, "WP=", m.writeProtect) + (" " + FromPosition(m)))
    ensures StateLine(m) == ToPosition(m) + (PairText("TPV=", m.posValid, "TP2=", m.pos2) + (" " + FromTrack(m)))
    ensures StateLine(m) == ToTrack(m) + (PairText("TV=", m.trackValid, "T=", m.track) + (" " + FromDensity(m)))
    ensures StateLine(m) == ToDensity(m) + (PairText("DV=", m.densityValid, "D=", m.density) + (" " + FromMotor(m)))
    ensures StateLine(m) == ToMotor(m) + ("M=" + Decimal(m.motor))
  {
    hide PairText, Decimal;
    CutAt(HEAD, PairText("WPV=", m.wpValid, "WP=", m.writeProtect), FromPosition(m));
    CutAt(ToPosition(m), PairText("TPV=", m.posValid, "TP2=", m.pos2), FromTrack(m));
    CutAt(ToTrack(m), PairText("TV=", m.trackValid, "T=", m.track), FromDensity(m));
    CutAt(ToDensity(m), PairText("DV=", m.densityValid, "D=", m.density), FromMotor(m));
  }

  lemma CutAt(was: string, field: string, rest: string)
    ensures was + (field + " " + rest) == was + (field + (" " + rest)) == was + (field + " ") + rest
  {
  }

  /** Every field of the record is found, with the value that was printed. */
  lemma FieldsFound(m: Mailbox)
    ensures SnapshotOf(StateLine(m)) == Snapshot(
              Some([Decimal(m.wpValid), Decimal(m.writeProtect)]), Some([Decimal(m.densityValid), Decimal(m.density)]),
              Some([Decimal(m.motor)]), Some([Decimal(m.posValid), Decimal(m.pos2)]),
              Some([Decimal(m.trackValid), Decimal(m.track)]))
  {
    hide Decimal, Search, PairText, StateLine, NoPair, FromMotor, FromDensity, FromTrack, FromPosition;
    LineCuts(m);
    HeadPairs();
    PositionClear(m);
    TrackClear(m);
    DensityClear(m);
    MotorClear(m);
    PairFound(HEAD, "WPV=", m.wpValid, "WP=", m.writeProtect, " " + FromPosition(m));
    PairFound(ToPosition(m), "TPV=", m.posValid, "TP2=", m.pos2, " " + FromTrack(m));
    PairFound(ToTrack(m), "TV=", m.trackValid, "T=", m.track, " " + FromDensity(m));
    PairFound(ToDensity(m), "DV=", m.densityValid, "D=", m.density, " " + FromMotor(m));
    SingleFound(ToMotor(m), "M=", m.motor);
  }

  /** The record is taken for a state record. */
  lemma StateFound(m: Mailbox)
    ensures Search(StateRe(), StateLine(m)).Some?
  {
    hide Decimal, Reads, Search, MatchAt, FromWriteProtect;
    var rest := " " + FromWriteProtect(m);
    Anywhere(rest);
    ReadsMore(Run(Version, false), "0.0.16", [], rest, []);
    var none: seq<string> := [];
    assert none + none == none;
    var p1, s1 := [Run(Version, false)] + [], "0.0.16" + rest;
    ReadsMore(One(Letter('T', 'V')), "T", p1, s1, none);
    ReadsBlank([One(Letter('T', 'V'))] + p1, "T" + s1, none);
    var p2, s2 := [BLANK] + ([One(Letter('T', 'V'))] + p1), " " + ("T" + s1);
    ReadsMore(Lit("STATE"), "STATE", p2, s2, none);
    assert [Lit("STATE")] + p2 == StateRe();
    assert "STATE" + s2 == HEAD + FromWriteProtect(m);
    ReadsFound(StateRe(), "STATE" + s2, none);
  }

  /** What the record does to the GUI, from its fields. */
  function OnMailbox(h: Hud, m: Mailbox): Hud {
    var h1 := if m.wpValid != 0 then h.(wpPending := Some(m.writeProtect != 0)) else h;
    var h2 := if m.densityValid != 0 then OnDensity(h1, m.density) else h1;
    var h3 := OnMotor(h2, m.motor);
    if m.posValid != 0 then h3.(pos2 := Some(if m.pos2 > 2 then m.pos2 else 2), candidate := None)
    else if m.trackValid == 0 then h3
    else if m.track == 1 then h3.(pos2 := Some(2), homeSeen := true)
    else Propose(h3, m.track)
  }

  /** The GUI takes from the record exactly what the mailbox held. */
  lemma StateHeard(h: Hud, m: Mailbox)
    ensures OnBranch(h, Dispatch(StateLine(m))) == OnMailbox(h, m)
  {
    hide Decimal, Search, StateLine, StateRe, ToInt, SnapshotOf;
    StateFound(m);
    FieldsFound(m);
    ReadsAs(m.wpValid);
    ReadsAs(m.writeProtect);
    ReadsAs(m.posValid);
    ReadsAs(m.pos2);
    ReadsAs(m.trackValid);
    ReadsAs(m.track);
    ReadsAs(m.densityValid);
    ReadsAs(m.density);
    ReadsAs(m.motor);
  }

  lemma ReadsAs(v: nat)
    ensures ToInt(Decimal(v)) == v
  {
    hide Decimal, ToInt;
    NumberTaken(v);
  }
}
