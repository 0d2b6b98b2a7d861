/** The GUI core's state (1541hud/gui/hud_core_v030.py): bytes in, position and
lamps out, however the serial port cuts the stream up. */
module HudCore {
  import opened Wrappers
  import opened RttRing
  import opened RttFormat
  import opened EventText
  import opened TextPattern
  import opened HudParse

  // ---------------------------------------------------------------------
  // Lines
  // ---------------------------------------------------------------------

  /** The whole lines of a text, without their newlines, and what is left after the last. */
  function Lines(s: string): (seq<string>, string)
    decreases |s|
  {
    var i := Newline(s, 0);
    if i == |s| then ([], s)
    else
      var (more, rest) := Lines(s[i + 1..]);
      ([s[..i]] + more, rest)
  }

  function Newline(s: string, i: nat): (k: nat)
    requires i <= |s|
    ensures i <= k <= |s| && (k < |s| ==> s[k] == '\n') && forall j :: i <= j < k ==> s[j] != '\n'
    decreases |s| - i
  {
    if i == |s| || s[i] == '\n' then i else Newline(s, i + 1)
  }

  lemma NewlineIs(s: string, i: nat, k: nat)
    requires i <= k <= |s| && (k < |s| ==> s[k] == '\n') && forall j :: i <= j < k ==> s[j] != '\n'
    ensures Newline(s, i) == k
    decreases k - i
  {
    if i < k {
      NewlineIs(s, i + 1, k);
    }
  }

  lemma LinesOfFirst(line: string, rest: string)
    requires '\n' !in line
    ensures Lines(line + "\n" + rest) == ([line] + Lines(rest).0, Lines(rest).1)
  {
    var s := line + "\n" + rest;
    NewlineIs(s, 0, |line|);
    assert s[..|line|] == line && s[|line| + 1..] == rest;
  }

  lemma NoNewline(s: string)
    requires Newline(s, 0) == |s|
    ensures Lines(s) == ([], s)
  {
  }

  /** More text only continues where the last line was left off. */
  lemma {:induction false} LinesContinue(a: string, b: string)
    ensures var (first, rest) := Lines(a);
      Lines(a + b) == (first + Lines(rest + b).0, Lines(rest + b).1)
    decreases |a|
  {
    hide Lines;
    var i := Newline(a, 0);
    if i == |a| {
      NoNewline(a);
      assert [] + Lines(a + b).0 == Lines(a + b).0;
    } else {
      var line, more := a[..i], a[i + 1..];
      LinesContinue(more, b);
      assert a == line + "\n" + more && a + b == line + "\n" + (more + b);
      LinesOfFirst(line, more);
      LinesOfFirst(line, more + b);
      var (first, rest) := Lines(more);
      assert [line] + (first + Lines(rest + b).0) == [line] + first + Lines(rest + b).0;
    }
  }

  predicate IsSpace(c: char) {
    In(c, Space)
  }

  /** str.strip() */
  function Strip(s: string): string
    decreases |s|
  {
    if s == "" then ""
    else if IsSpace(s[0]) then Strip(s[1..])
    else if IsSpace(s[|s| - 1]) then Strip(s[..|s| - 1])
    else s
  }

  // ---------------------------------------------------------------------
  // What a line does
  // ---------------------------------------------------------------------

  /** The parts of the GUI's state that are not widgets or timers. */
  datatype Hud = Hud(
    pos2: Option<nat>, homeSeen: bool, motorOn: bool, direction: int, lastPhase: Option<nat>,
    wpPending: Option<bool>, density: nat, densityValid: bool, candidate: Option<nat>)

  const START: Hud := Hud(None, false, false, 0, None, None, 2, false, None)

  function OnDensity(h: Hud, state: nat): Hud {
    h.(density := state % 4, densityValid := true)
  }

  function OnMotor(h: Hud, state: nat): Hud {
    h.(motorOn := state != 0, direction := if state != 0 then h.direction else 0)
  }

  /** process_phase: one half-step in or out, never below Track 1.0. */
  function OnPhase(h: Hud, newp: nat, delta: nat): Hud {
    var h' := h.(lastPhase := Some(newp));
    if delta == 1 then
      h'.(direction := 1, pos2 := if h.pos2.Some? then Some(h.pos2.value + 1) else None)
    else if delta == 3 then
      h'.(direction := -1,
          pos2 := if h.pos2.Some? then Some(if h.pos2.value > 3 then h.pos2.value - 1 else 2) else None)
    else h'
  }

  /** A track below the GUI's ceiling waits to become the first anchor. */
  function Propose(h: Hud, value: nat): Hud {
    if h.pos2.Some? || !(1 <= value <= 42) then h else h.(candidate := Some(value))
  }

  function OnTrackWrite(h: Hud, value: nat): Hud {
    if value == 1 then h.(pos2 := Some(2), homeSeen := true, candidate := None)
    else if h.pos2.None? then Propose(h, value)
    else h
  }

  /** A captured group, if there are that many. */
  function Group(c: seq<string>, k: nat): nat {
    if k < |c| then ToInt(c[k]) else 0
  }

  function Valued(o: Option<seq<string>>): Option<nat> {
    if o.Some? && Group(o.value, 0) != 0 then Some(Group(o.value, 1)) else None
  }

  function OnSnapshot(h: Hud, s: Snapshot): Hud {
    var h1 := if Valued(s.writeProtect).Some? then h.(wpPending := Some(Valued(s.writeProtect).value != 0)) else h;
    var h2 := if Valued(s.density).Some? then OnDensity(h1, Valued(s.density).value) else h1;
    var h3 := if s.motor.Some? then OnMotor(h2, Group(s.motor.value, 0)) else h2;
    var pos, track := Valued(s.position), Valued(s.track);
    if pos.Some? then h3.(pos2 := Some(if pos.value > 2 then pos.value else 2), candidate := None)
    else if track.None? then h3
    else if track.value == 1 then h3.(pos2 := Some(2), homeSeen := true)
    else Propose(h3, track.value)
  }

  function OnBranch(h: Hud, b: Branch): Hud {
    match b
    case State(s) => OnSnapshot(h, s)
    case DensityRecord(c) => OnDensity(h, Group(c, 0))
    case WpRecord(c) => h.(wpPending := Some(Group(c, 0) != 0))
    case MotorRecord(c) => OnMotor(h, Group(c, 0))
    case TrackRecord(c) => OnTrackWrite(h, Group(c, 0))
    case PhaseRecord(c) => OnPhase(h, Group(c, 1), Group(c, 2))
    case Ignored => h
  }

  /** The same, from the event itself. */
  function OnEvent(h: Hud, e: Event): Hud {
    match e
    case Motor(s) => OnMotor(h, s)
    case Phase(_, n, d, _) => OnPhase(h, n, d)
    case TrackWrite(t) => OnTrackWrite(h, t)
    case WriteProtect(s) => h.(wpPending := Some(s != 0))
    case Density(d) => OnDensity(h, d)
    case _ => h
  }

  function AfterLines(h: Hud, lines: seq<string>): Hud {
    if lines == [] then h
    else OnBranch(AfterLines(h, lines[..|lines| - 1]), Dispatch(Strip(lines[|lines| - 1])))
  }

  function AfterEvents(h: Hud, es: seq<Event>): Hud {
    if es == [] then h else OnEvent(AfterEvents(h, es[..|es| - 1]), es[|es| - 1])
  }

  class DriveHud {
    var rxbuf: string
    var hud: Hud

    constructor ()
      ensures rxbuf == "" && hud == START
    {
      rxbuf := "";
      hud := START;
    }

    /** process_line */
    method ProcessLine(line: string)
      modifies this`hud
      ensures hud == OnBranch(old(hud), Dispatch(line))
    {
      hide Search;
      var m := Search(StateRe(), line);
      if m.Some? {
        hud := OnSnapshot(hud, SnapshotOf(line));
        return;
      }
      m := Search(DensityRe(), line);
      if m.Some? {
        hud := OnDensity(hud, Group(m.value, 0));
        return;
      }
      m := Search(WpRe(), line);
      if m.Some? {
        hud := hud.(wpPending := Some(Group(m.value, 0) != 0));
        return;
      }
      m := Search(MotorRe(), line);
      if m.Some? {
        hud := OnMotor(hud, Group(m.value, 0));
        return;
      }
      m := Search(TrackRe(), line);
      if m.Some? {
        hud := OnTrackWrite(hud, Group(m.value, 0));
        return;
      }
      m := Search(PhaseRe(), line);
      if m.Some? {
        hud := OnPhase(hud, Group(m.value, 1), Group(m.value, 2));
      }
    }

    /** poll, for one read of the serial port: every line now whole is processed. */
    method Poll(data: string)
      modifies this
      ensures rxbuf == Lines(old(rxbuf) + data).1
      ensures hud == AfterLines(old(hud), Lines(old(rxbuf) + data).0)
    {
      hide Dispatch, OnBranch, Strip;
      ghost var all, start := rxbuf + data, hud;
      rxbuf := rxbuf + data;
      ghost var done: seq<string> := [];
      assert [] + Lines(all).0 == Lines(all).0;
      while Newline(rxbuf, 0) < |rxbuf|
        invariant hud == AfterLines(start, done)
        invariant Lines(all) == (done + Lines(rxbuf).0, Lines(rxbuf).1)
        decreases |rxbuf|
      {
        var i := Newline(rxbuf, 0);
        var line := rxbuf[..i];
        ghost var rest := Lines(rxbuf[i + 1..]).0;
        assert done + ([line] + rest) == done + [line] + rest;
        assert (done + [line])[..|done|] == done;
        rxbuf := rxbuf[i + 1..];
        ProcessLine(Strip(line));
        done := done + [line];
      }
      assert done + [] == done;
    }
  }

  // ---------------------------------------------------------------------
  // However the stream is cut up
  // ---------------------------------------------------------------------

  /** The state after a sequence of reads, as Poll leaves it. */
  function AfterReads(h: Hud, reads': seq<string>): (Hud, string) {
    if reads' == [] then (h, "")
    else
      var (before, rest) := AfterReads(h, reads'[..|reads'| - 1]);
      var (lines, rest') := Lines(rest + reads'[|reads'| - 1]);
      (AfterLines(before, lines), rest')
  }

  lemma {:induction false} AfterLinesAppend(h: Hud, a: seq<string>, b: seq<string>)
    ensures AfterLines(h, a + b) == AfterLines(AfterLines(h, a), b)
  {
    hide Dispatch, Strip, OnBranch;
    if b == [] {
      assert a + b == a;
    } else {
      AfterLinesAppend(h, a, b[..|b| - 1]);
      assert (a + b)[..|a| + |b| - 1] == a + b[..|b| - 1];
    }
  }

  /** Only the bytes count, not how the reads divide them. */
  lemma {:induction false} ReadsDoNotMatter(h: Hud, reads': seq<string>)
    ensures AfterReads(h, reads') == (AfterLines(h, Lines(Flatten(reads')).0), Lines(Flatten(reads')).1)
  {
    hide AfterLines, Lines;
    if reads' == [] {
      NoLines(h);
    } else {
      var n := |reads'| - 1;
      ReadsDoNotMatter(h, reads'[..n]);
      var before := Flatten(reads'[..n]);
      LinesContinue(before, reads'[n]);
      AfterLinesAppend(h, Lines(before).0, Lines(Lines(before).1 + reads'[n]).0);
    }
  }

  lemma NoLines(h: Hud)
    ensures Lines("") == ([], "") && AfterLines(h, []) == h
  {
  }

  // ---------------------------------------------------------------------
  // From queue word to GUI
  // ---------------------------------------------------------------------

  /** A record starts with a letter and ends with a digit or a bracket. */
  lemma LineEnds(e: Event)
    requires InFields(e)
    ensures Line(e) != "" && !IsSpace(Line(e)[0]) && !IsSpace(Line(e)[|Line(e)| - 1])
  {
    hide Decimal, Hex8;
    match e
    case Motor(s) => NumberTaken(s);
    case Phase(_, _, _, m) => NumberTaken(m);
    case TrackWrite(_) =>
    case WriteProtect(s) => NumberTaken(s);
    case Density(d) => NumberTaken(d);
    case HdrPhy(_, _, ticks) => NumberTaken(ticks * 16);
    case Rpm(_, _, rpm) => NumberTaken(rpm % 100);
    case Sync(l, _) => NumberTaken(l);
  }

  lemma StripReturn(s: string)
    requires s != "" && !IsSpace(s[0]) && !IsSpace(s[|s| - 1])
    ensures Strip(s + "\r") == s
  {
    assert (s + "\r")[..|s|] == s;
  }

  /** One record more on the wire is one line more. */
  lemma LinesSnoc(s: string, line: string)
    requires '\n' !in line && Lines(s).1 == ""
    ensures Lines(s + (line + CRLF)) == (Lines(s).0 + [line + "\r"], "")
  {
    LinesContinue(s, line + CRLF);
    var whole := line + "\r";
    assert line + CRLF == whole + "\n" + "";
    LinesOfFirst(whole, "");
    assert "" + (line + CRLF) == line + CRLF;
    assert Lines("") == ([], "");
    assert [whole] + [] == [whole];
  }

  /** A heard line does to the GUI what its event says. */
  lemma HeardDoes(h: Hud, e: Event)
    requires InFields(e)
    ensures OnBranch(h, Dispatch(Line(e))) == OnEvent(h, e)
  {
    hide Line, Dispatch, ToInt, OnSnapshot, OnPhase, OnTrackWrite;
    LineHeard(e);
    if Diagnostic(e) {
      DiagnosticFallsThrough(e);
    }
  }

  lemma DiagnosticFallsThrough(e: Event)
    requires InFields(e) && Diagnostic(e)
    ensures Dispatch(Line(e)) == Ignored
  {
    hide Line, Search;
    DiagnosticIgnored(e);
  }

  // ---------------------------------------------------------------------
  // Two copies of the head position
  // ---------------------------------------------------------------------

  /** The probe keeps the same half-step position in a byte (clamp_pos2_in and _out),
      anchored by the same writes of track 1. */
  function FirmwarePosition(pos2: nat, e: Event): nat {
    match e
    case Phase(_, _, delta, _) =>
      if delta == 1 then (if pos2 < 254 then pos2 + 1 else pos2)
      else if delta == 3 then (if pos2 > 2 then pos2 - 1 else 2)
      else pos2
    case TrackWrite(t) => if t == 1 then 2 else pos2
    case _ => pos2
  }

  function FirmwareAfter(pos2: nat, es: seq<Event>): nat {
    if es == [] then pos2 else FirmwarePosition(FirmwareAfter(pos2, es[..|es| - 1]), es[|es| - 1])
  }

  /** The GUI was at half-step 254 and was told to step in. */
  predicate PassesCeiling(h: Hud, es: seq<Event>) {
    exists n :: 0 <= n < |es| && es[n].Phase? && es[n].delta == 1 && AfterEvents(h, es[..n]).pos2 == Some(254)
  }

  lemma {:induction false} PositionsAgree(h: Hud, pos2: nat, es: seq<Event>)
    requires h.pos2 == Some(pos2) && 2 <= pos2 <= 254
    ensures !PassesCeiling(h, es) ==>
              AfterEvents(h, es).pos2 == Some(FirmwareAfter(pos2, es)) && 2 <= FirmwareAfter(pos2, es) <= 254
  {
    if es != [] && !PassesCeiling(h, es) {
      var n := |es| - 1;
      CeilingPrefix(h, es, n);
      PositionsAgree(h, pos2, es[..n]);
      assert es[n].Phase? && es[n].delta == 1 ==> AfterEvents(h, es[..n]).pos2 != Some(254);
    }
  }

  /** At the ceiling they part, as the byte stops and the GUI goes on. */
  lemma CeilingParts(h: Hud, e: Event)
    requires h.pos2 == Some(254) && e.Phase? && e.delta == 1
    ensures OnEvent(h, e).pos2 != Some(FirmwarePosition(254, e))
  {
  }

  predicate AgreeAfter(h: Hud, pos2: nat, es: seq<Event>) {
    AfterEvents(h, es).pos2 == Some(FirmwareAfter(pos2, es))
  }

  /** Told the same events, GUI and probe agree after every one of them if and only if
      the GUI is never told to step in at half-step 254. */
  lemma PositionsAgreeIff(h: Hud, pos2: nat, es: seq<Event>)
    requires h.pos2 == Some(pos2) && 2 <= pos2 <= 254
    ensures (forall n :: 0 <= n <= |es| ==> AgreeAfter(h, pos2, es[..n])) <==> !PassesCeiling(h, es)
  {
    if PassesCeiling(h, es) {
      var k :| 0 <= k < |es| && es[k].Phase? && es[k].delta == 1 && AfterEvents(h, es[..k]).pos2 == Some(254);
      assert es[..k + 1][..k] == es[..k];
      CeilingParts(AfterEvents(h, es[..k]), es[k]);
      assert !(AgreeAfter(h, pos2, es[..k]) && AgreeAfter(h, pos2, es[..k + 1]));
    } else {
      forall n | 0 <= n <= |es| ensures AgreeAfter(h, pos2, es[..n]) {
        CeilingPrefix(h, es, n);
        PositionsAgree(h, pos2, es[..n]);
      }
    }
  }

  lemma CeilingPrefix(h: Hud, es: seq<Event>, n: nat)
    requires n <= |es|
    ensures PassesCeiling(h, es[..n]) ==> PassesCeiling(h, es)
  {
    var before := es[..n];
    if PassesCeiling(h, before) {
      var k :| 0 <= k < |before| && before[k].Phase? && before[k].delta == 1 &&
              AfterEvents(h, before[..k]).pos2 == Some(254);
      assert before[..k] == es[..k] && es[k] == before[k];
    }
  }

  // The GUI's position alone, from where it is known.

  function GuiStep(p: nat, delta: nat): nat {
    if delta == 1 then p + 1 else if delta == 3 then (if p > 3 then p - 1 else 2) else p
  }

  function GuiMove(p: nat, e: Event): nat {
    if e.Phase? then GuiStep(p, e.delta) else if e == TrackWrite(1) then 2 else p
  }

  function GuiAfter(p: nat, es: seq<Event>): nat {
    if es == [] then p else GuiMove(GuiAfter(p, es[..|es| - 1]), es[|es| - 1])
  }

  lemma {:induction false} GuiTracks(h: Hud, es: seq<Event>)
    requires h.pos2.Some?
    ensures AfterEvents(h, es).pos2 == Some(GuiAfter(h.pos2.value, es))
  {
    if es != [] {
      GuiTracks(h, es[..|es| - 1]);
    }
  }

  lemma {:induction false} GuiAppend(p: nat, a: seq<Event>, b: seq<Event>)
    ensures GuiAfter(p, a + b) == GuiAfter(GuiAfter(p, a), b)
  {
    if b == [] {
      assert a + b == a;
    } else {
      GuiAppend(p, a, b[..|b| - 1]);
      assert (a + b)[..|a| + |b| - 1] == a + b[..|b| - 1];
    }
  }

  lemma GuiOne(p: nat, e: Event)
    ensures GuiAfter(p, [e]) == GuiMove(p, e) && GuiAfter(p, []) == p
  {
    assert [e][..0] == [];
  }
}
