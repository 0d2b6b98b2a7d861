/** The whole serial stream, from the bridge to the GUI (1541hud/artifacts/T0.0.16 and
1541hud/gui/hud_core_v030.py): event records, with state and health records among them,
cut into reads anywhere. */
module HudStream {
  import opened Words
  import opened Wrappers
  import opened RttRing
  import opened RttFormat
  import opened EventText
  import opened TextPattern
  import opened HudParse
  import opened HudCore
  import opened HudState

  /** The counters of the health record. */
  datatype Health = Health(captures: nat, produced: nat, consumed: nat, lost: nat, overflow: nat)

  /** What the bridge sends. */
  datatype Record =
    | OfEvent(event: Event)
    | OfState(mailbox: Mailbox)
    | OfHealth(health: Health)
    | Waiting                   // the probe has not set up its mailbox

  predicate Sendable(r: Record) {
    match r
    case OfEvent(e) => InFields(e)
    case OfState(m) => Sized(m)
    case OfHealth(c) =>
      c.captures < WORD && c.produced < WORD && c.consumed < WORD && c.lost < WORD && c.overflow < WORD
    case Waiting => true
  }

  function HealthLine(c: Health): string {
    "STATUS T0.0.16 CAP=" + Decimal(c.captures) + " PROD=" + Decimal(c.produced) + " CONS=" + Decimal(c.consumed)
    + " ROV=" + Decimal(c.lost) + " QOV=" + Decimal(c.overflow)
  }

  function RecordLine(r: Record): string
    requires Sendable(r)
  {
    match r
    case OfEvent(e) => Line(e)
    case OfState(m) => StateLine(m)
    case OfHealth(c) => HealthLine(c)
    case Waiting => "STATUS T0.0.16 WAITING"
  }

  /** The bridge's health record. */
  method FormatHealth(c: Health) returns (record: string)
    requires Sendable(OfHealth(c))
    ensures record == HealthLine(c) + CRLF
  {
    hide Decimal, Clip, HealthLine;
    var line := new LineBuffer();
    ClipWhole("");
    ghost var a := "" + "STATUS T0.0.16 CAP=" + Decimal(c.captures);
    ghost var b := a + " PROD=" + Decimal(c.produced);
    ghost var d := b + " CONS=" + Decimal(c.consumed);
    ghost var e := d + " ROV=" + Decimal(c.lost);
    Field(line, "", "STATUS T0.0.16 CAP=", c.captures);
    Field(line, a, " PROD=", c.produced);
    Field(line, b, " CONS=", c.consumed);
    Field(line, d, " ROV=", c.lost);
    Field(line, e, " QOV=", c.overflow);
    line.Str(CRLF);
    ClipTwice(e + " QOV=" + Decimal(c.overflow), CRLF);
    HealthFits(c);
    ClipWhole(HealthLine(c) + CRLF);
    record := line.Text();
  }

  lemma HealthFits(c: Health)
    requires Sendable(OfHealth(c))
    ensures |HealthLine(c) + CRLF| <= LINE_SIZE
    ensures "" + "STATUS T0.0.16 CAP=" + Decimal(c.captures) + " PROD=" + Decimal(c.produced) + " CONS="
            + Decimal(c.consumed) + " ROV=" + Decimal(c.lost) + " QOV=" + Decimal(c.overflow) == HealthLine(c)
  {
    hide Decimal;
    DecimalFits(c.captures);
    DecimalFits(c.produced);
    DecimalFits(c.consumed);
    DecimalFits(c.lost);
    DecimalFits(c.overflow);
  }

  // ---------------------------------------------------------------------
  // What one record does
  // ---------------------------------------------------------------------

  /** A health record changes nothing the model keeps. */
  function OnRecord(h: Hud, r: Record): Hud {
    match r
    case OfEvent(e) => OnEvent(h, e)
    case OfState(m) => OnMailbox(h, m)
    case OfHealth(_) => h
    case Waiting => h
  }

  lemma RecordHeard(h: Hud, r: Record)
    requires Sendable(r)
    ensures OnBranch(h, Dispatch(RecordLine(r))) == OnRecord(h, r)
  {
    hide OnBranch, OnEvent, OnMailbox, Line, StateLine, HealthLine, Dispatch;
    match r
    case OfEvent(e) => HeardDoes(h, e);
    case OfState(m) => StateHeard(h, m);
    case OfHealth(c) =>
      HealthLetters(c);
      StatusIgnored(h, HealthLine(c));
    case Waiting =>
      WaitingLetters();
      StatusIgnored(h, "STATUS T0.0.16 WAITING");
  }

  /** Each pattern but the STATUS one has an E, an M or a K. */
  lemma StatusIgnored(h: Hud, line: string)
    requires Avoids(line, "EMK\r\n")
    ensures OnBranch(h, Dispatch(line)) == h
  {
    hide Avoids, Search;
    var cs := "EMK\r\n";
    Misses(StateRe(), "STATE", line, cs, 0);
    Misses(DensityRe(), "DENSITY", line, cs, 0);
    Misses(WpRe(), "WRITE_PROTECT", line, cs, 0);
    Misses(MotorRe(), "MOTOR", line, cs, 1);
    Misses(TrackRe(), "TRACK_WRITE", line, cs, 2);
    Misses(PhaseRe(), "PHASE", line, cs, 0);
  }

  lemma HealthLetters(c: Health)
    ensures Avoids(HealthLine(c), "EMK\r\n")
  {
    hide Decimal;
    var cs := "EMK\r\n";
    var a := "STATUS T0.0.16 CAP=" + Decimal(c.captures);
    var b := a + " PROD=" + Decimal(c.produced);
    var d := b + " CONS=" + Decimal(c.consumed);
    var e := d + " ROV=" + Decimal(c.lost);
    AvoidsFirst("STATUS T0.0.16 CAP=", c.captures, cs);
    AvoidsField(a, " PROD=", c.produced, cs);
    AvoidsField(b, " CONS=", c.consumed, cs);
    AvoidsField(d, " ROV=", c.lost, cs);
    AvoidsField(e, " QOV=", c.overflow, cs);
  }

  lemma WaitingLetters()
    ensures Avoids("STATUS T0.0.16 WAITING", "EMK\r\n")
  {
  }

  // ---------------------------------------------------------------------
  // Its place in the stream
  // ---------------------------------------------------------------------

  lemma PairLetters(first: string, a: nat, second: string, b: nat, rest: string)
    requires Avoids(first, "\n") && Avoids(second, "\n") && Avoids(rest, "\n")
    ensures Avoids(PairText(first, a, second, b) + " " + rest, "\n")
  {
    hide Decimal;
    AvoidsFirst(first, a, "\n");
    AvoidsMore(first + Decimal(a), " ", "\n");
    AvoidsField(first + Decimal(a) + " ", second, b, "\n");
    AvoidsMore(PairText(first, a, second, b), " ", "\n");
    AvoidsMore(PairText(first, a, second, b) + " ", rest, "\n");
  }

  lemma StateLetters(m: Mailbox)
    ensures Avoids(StateLine(m), "\n")
  {
    hide Decimal, PairText, Avoids;
    NameLetters();
    AvoidsFirst("M=", m.motor, "\n");
    PairLetters("DV=", m.densityValid, "D=", m.density, FromMotor(m));
    PairLetters("TV=", m.trackValid, "T=", m.track, FromDensity(m));
    PairLetters("TPV=", m.posValid, "TP2=", m.pos2, FromTrack(m));
    PairLetters("WPV=", m.wpValid, "WP=", m.writeProtect, FromPosition(m));
    AvoidsMore(HEAD, FromWriteProtect(m), "\n");
  }

  lemma NameLetters()
    ensures Avoids(HEAD, "\n") && Avoids("WPV=", "\n") && Avoids("WP=", "\n") && Avoids("TPV=", "\n")
    ensures Avoids("TP2=", "\n") && Avoids("TV=", "\n") && Avoids("T=", "\n") && Avoids("DV=", "\n")
    ensures Avoids("D=", "\n") && Avoids("M=", "\n") && NoDigits("\n")
  {
  }

  /** The last character of a state record is the last digit of its motor flag. */
  lemma StateEnds(m: Mailbox)
    ensures var line := StateLine(m); line != "" && line[|line| - 1] in Decimal(m.motor) && line[0] == 'S'
  {
    hide Decimal, FromTrack, FromDensity, FromPosition, FromWriteProtect, PairText;
    LineCuts(m);
    var was, d, line := ToMotor(m), Decimal(m.motor), StateLine(m);
    assert line == was + ("M=" + d);
    assert line[|line| - 1] == d[|d| - 1];
    assert line[0] == HEAD[0];
  }

  /** One line, with nothing at either end for strip() to take. */
  lemma RecordWhole(r: Record)
    requires Sendable(r)
    ensures var line := RecordLine(r);
      '\n' !in line && line != "" && !IsSpace(line[0]) && !IsSpace(line[|line| - 1])
  {
    hide Decimal, Line, StateLine;
    match r
    case OfEvent(e) =>
      LineUnbroken(e);
      LineEnds(e);
    case OfState(m) =>
      StateLetters(m);
      StateEnds(m);
      NumberTaken(m.motor);
    case OfHealth(c) =>
      HealthLetters(c);
      NumberTaken(c.overflow);
      HealthEnds(c);
    case Waiting =>
  }

  lemma HealthEnds(c: Health)
    ensures var line := HealthLine(c); line != "" && line[|line| - 1] in Decimal(c.overflow) && line[0] == 'S'
  {
    hide Decimal;
    var line, d := HealthLine(c), Decimal(c.overflow);
    assert line[|line| - 1] == d[|d| - 1];
  }

  predicate AllSendable(rs: seq<Record>) {
    forall i :: 0 <= i < |rs| ==> Sendable(rs[i])
  }

  /** The serial text of a sequence of records. */
  function Text(rs: seq<Record>): string
    requires AllSendable(rs)
  {
    if rs == [] then "" else Text(rs[..|rs| - 1]) + (RecordLine(rs[|rs| - 1]) + CRLF)
  }

  function AfterRecords(h: Hud, rs: seq<Record>): Hud {
    if rs == [] then h else OnRecord(AfterRecords(h, rs[..|rs| - 1]), rs[|rs| - 1])
  }

  /** From the queue to the lamps: whatever events were packed, wherever state and health
      records stand among them, and however the serial text of it all was cut into reads,
      the GUI ends in the state those records lead to, with nothing left in its buffer. */
  lemma RecordsReachGui(h: Hud, rs: seq<Record>, reads': seq<string>)
    requires AllSendable(rs) && Flatten(reads') == Text(rs)
    ensures AfterReads(h, reads') == (AfterRecords(h, rs), "")
  {
    hide AfterReads, AfterLines, Lines, Text, AfterRecords;
    ReadsDoNotMatter(h, reads');
    TextDoes(h, rs);
  }

  lemma {:induction false} TextDoes(h: Hud, rs: seq<Record>)
    requires AllSendable(rs)
    ensures Lines(Text(rs)).1 == "" && AfterLines(h, Lines(Text(rs)).0) == AfterRecords(h, rs)
  {
    hide Lines, RecordLine, OnBranch, OnRecord, Dispatch, Strip;
    if rs == [] {
      NoLines(h);
    } else {
      var n := |rs| - 1;
      var line := RecordLine(rs[n]);
      TextDoes(h, rs[..n]);
      RecordWhole(rs[n]);
      LinesSnoc(Text(rs[..n]), line);
      StripReturn(line);
      var lines := Lines(Text(rs[..n])).0;
      assert (lines + [line + "\r"])[..|lines|] == lines;
      RecordHeard(AfterRecords(h, rs[..n]), rs[n]);
    }
  }

  /** The events among the records. */
  function EventsOf(rs: seq<Record>): seq<Event> {
    if rs == [] then []
    else EventsOf(rs[..|rs| - 1]) + if rs[|rs| - 1].OfEvent? then [rs[|rs| - 1].event] else []
  }

  /** With no state record among them, only the events count. */
  lemma {:induction false} OnlyEventsCount(h: Hud, rs: seq<Record>)
    requires forall i :: 0 <= i < |rs| ==> !rs[i].OfState?
    ensures AfterRecords(h, rs) == AfterEvents(h, EventsOf(rs))
  {
    hide OnEvent;
    if rs != [] {
      var n := |rs| - 1;
      OnlyEventsCount(h, rs[..n]);
      var es := EventsOf(rs[..n]);
      if rs[n].OfEvent? {
        assert (es + [rs[n].event])[..|es|] == es;
      } else {
        assert es + [] == es;
      }
    }
  }

  // ---------------------------------------------------------------------
  // What the state says after any sequence of records
  // ---------------------------------------------------------------------

  function MotorTold(r: Record): Option<nat> {
    match r
    case OfEvent(Motor(state)) => Some(state)
    case OfState(m) => Some(m.motor)
    case _ => None
  }

  function DensityTold(r: Record): Option<nat> {
    match r
    case OfEvent(Density(d)) => Some(d)
    case OfState(m) => if m.densityValid != 0 then Some(m.density) else None
    case _ => None
  }

  function ProtectTold(r: Record): Option<nat> {
    match r
    case OfEvent(WriteProtect(state)) => Some(state)
    case OfState(m) => if m.wpValid != 0 then Some(m.writeProtect) else None
    case _ => None
  }

  /** The phase a stepper record leaves. */
  function PhaseTold(r: Record): Option<nat> {
    if r.OfEvent? && r.event.Phase? then Some(r.event.newp) else None
  }

  /** A half-step in or out. */
  function StepTold(r: Record): Option<int> {
    if !r.OfEvent? || !r.event.Phase? then None
    else if r.event.delta == 1 then Some(1)
    else if r.event.delta == 3 then Some(-1)
    else None
  }

  /** A position that does not depend on the one before. */
  function AnchorTold(r: Record): Option<nat> {
    match r
    case OfEvent(TrackWrite(t)) => if t == 1 then Some(2) else None
    case OfState(m) =>
      if m.posValid != 0 then Some(if m.pos2 > 2 then m.pos2 else 2)
      else if m.trackValid != 0 && m.track == 1 then Some(2)
      else None
    case _ => None
  }

  /** A track to start from while no position is known. */
  function TrackTold(r: Record): Option<nat> {
    match r
    case OfEvent(TrackWrite(t)) => if 2 <= t <= 42 then Some(t) else None
    case OfState(m) =>
      if m.posValid == 0 && m.trackValid != 0 && 2 <= m.track <= 42 then Some(m.track) else None
    case _ => None
  }

  predicate IsHome(r: Record) {
    r == OfEvent(TrackWrite(1)) || (r.OfState? && r.mailbox.posValid == 0 && AnchorTold(r).Some?)
  }

  /** Record i is the last that tells this. */
  predicate Latest<T(!new)>(told: Record -> Option<T>, rs: seq<Record>, i: nat) {
    i < |rs| && told(rs[i]).Some? && forall j :: i < j < |rs| ==> told(rs[j]).None?
  }

  predicate NeverTold<T(!new)>(told: Record -> Option<T>, rs: seq<Record>) {
    forall j :: 0 <= j < |rs| ==> told(rs[j]).None?
  }

  /** One record, by the fields it tells. */
  predicate FieldsFollow(h: Hud, r: Record, g: Hud) {
    && g.motorOn == (if MotorTold(r).Some? then MotorTold(r).value != 0 else h.motorOn)
    && g.density == (if DensityTold(r).Some? then DensityTold(r).value % 4 else h.density)
    && g.densityValid == (DensityTold(r).Some? || h.densityValid)
    && g.wpPending == (if ProtectTold(r).Some? then Some(ProtectTold(r).value != 0) else h.wpPending)
    && g.lastPhase == (if PhaseTold(r).Some? then PhaseTold(r) else h.lastPhase)
    && g.direction == (if MotorTold(r) == Some(0) then 0
                       else if StepTold(r).Some? then StepTold(r).value else h.direction)
    && g.homeSeen == (IsHome(r) || h.homeSeen)
  }

  lemma FieldsAfter(h: Hud, r: Record)
    ensures FieldsFollow(h, r, OnRecord(h, r))
  {
    hide OnMailbox, FieldsFollow;
    match r
    case OfEvent(e) => EventFields(h, e);
    case OfState(m) => StateFields(h, m);
    case OfHealth(_) => OtherFields(h, r);
    case Waiting => OtherFields(h, r);
  }

  lemma EventFields(h: Hud, e: Event)
    ensures FieldsFollow(h, OfEvent(e), OnEvent(h, e))
  {
  }

  lemma StateFields(h: Hud, m: Mailbox)
    ensures FieldsFollow(h, OfState(m), OnMailbox(h, m))
  {
  }

  lemma OtherFields(h: Hud, r: Record)
    requires !r.OfEvent? && !r.OfState?
    ensures FieldsFollow(h, r, h)
  {
  }

  /** The lamps say what was told last. */
  lemma {:induction false} LampsTold(h: Hud, rs: seq<Record>, i: nat)
    requires i < |rs|
    ensures var g := AfterRecords(h, rs);
      && (Latest(MotorTold, rs, i) ==> g.motorOn == (MotorTold(rs[i]).value != 0))
      && (Latest(DensityTold, rs, i) ==> g.density == DensityTold(rs[i]).value % 4 && g.densityValid)
      && (Latest(ProtectTold, rs, i) ==> g.wpPending == Some(ProtectTold(rs[i]).value != 0))
      && (Latest(PhaseTold, rs, i) ==> g.lastPhase == PhaseTold(rs[i]))
  {
    hide OnRecord, MotorTold, DensityTold, ProtectTold, PhaseTold, StepTold, IsHome;
    var n := |rs| - 1;
    FieldsAfter(AfterRecords(h, rs[..n]), rs[n]);
    if i < n {
      LampsTold(h, rs[..n], i);
      assert rs[..n][i] == rs[i] && forall j :: 0 <= j < n ==> rs[..n][j] == rs[j];
    }
  }

  /** ... and what was never told stays as it was. */
  lemma {:induction false} LampsUntold(h: Hud, rs: seq<Record>)
    ensures var g := AfterRecords(h, rs);
      && (NeverTold(MotorTold, rs) ==> g.motorOn == h.motorOn)
      && (NeverTold(DensityTold, rs) ==> g.density == h.density && g.densityValid == h.densityValid)
      && (NeverTold(ProtectTold, rs) ==> g.wpPending == h.wpPending)
      && (NeverTold(PhaseTold, rs) ==> g.lastPhase == h.lastPhase)
      && (g.homeSeen <==> h.homeSeen || exists j :: 0 <= j < |rs| && IsHome(rs[j]))
  {
    hide OnRecord, MotorTold, DensityTold, ProtectTold, PhaseTold, StepTold, IsHome;
    if rs != [] {
      var n := |rs| - 1;
      LampsUntold(h, rs[..n]);
      FieldsAfter(AfterRecords(h, rs[..n]), rs[n]);
      assert forall j :: 0 <= j < n ==> rs[..n][j] == rs[j];
    }
  }

  /** The direction is that of the last step, unless the motor has been told to be off since. */
  lemma {:induction false} DirectionTold(h: Hud, rs: seq<Record>, i: nat)
    requires i < |rs|
    ensures Latest(StepTold, rs, i) && (forall j :: i < j < |rs| ==> MotorTold(rs[j]) != Some(0)) ==>
              AfterRecords(h, rs).direction == StepTold(rs[i]).value
    ensures MotorTold(rs[i]) == Some(0) && (forall j :: i < j < |rs| ==> StepTold(rs[j]).None?) ==>
              AfterRecords(h, rs).direction == 0
  {
    hide OnRecord, DensityTold, ProtectTold, PhaseTold, IsHome;
    var n := |rs| - 1;
    FieldsAfter(AfterRecords(h, rs[..n]), rs[n]);
    if i < n {
      DirectionTold(h, rs[..n], i);
      assert rs[..n][i] == rs[i] && forall j :: 0 <= j < n ==> rs[..n][j] == rs[j];
    }
  }

  /** The position is the last anchor's, moved by the steps since. */
  lemma {:induction false} PositionTold(h: Hud, rs: seq<Record>, i: nat)
    requires Latest(AnchorTold, rs, i)
    ensures AfterRecords(h, rs).pos2 == Some(GuiAfter(AnchorTold(rs[i]).value, EventsOf(rs[i + 1..])))
  {
    hide OnRecord, AnchorTold, GuiMove;
    var n := |rs| - 1;
    var before := AfterRecords(h, rs[..n]);
    PositionAfter(before, rs[n]);
    if i == n {
      assert rs[i + 1..] == [];
    } else {
      assert forall j :: 0 <= j < n ==> rs[..n][j] == rs[j];
      PositionTold(h, rs[..n], i);
      var since := rs[..n][i + 1..];
      assert rs[i + 1..][..|since|] == since && rs[i + 1..][|since|] == rs[n];
      MoreTold(AnchorTold(rs[i]).value, since, rs[n], rs[i + 1..]);
    }
  }

  lemma MoreTold(p: nat, since: seq<Record>, r: Record, all: seq<Record>)
    requires all == since + [r]
    ensures GuiAfter(p, EventsOf(all)) ==
            if r.OfEvent? then GuiMove(GuiAfter(p, EventsOf(since)), r.event) else GuiAfter(p, EventsOf(since))
  {
    hide GuiMove;
    assert all[..|since|] == since;
    var es := EventsOf(since);
    if r.OfEvent? {
      assert (es + [r.event])[..|es|] == es;
    } else {
      assert es + [] == es;
    }
  }

  lemma PositionAfter(h: Hud, r: Record)
    ensures OnRecord(h, r).pos2 ==
            if AnchorTold(r).Some? then AnchorTold(r)
            else if r.OfEvent? && h.pos2.Some? then Some(GuiMove(h.pos2.value, r.event))
            else h.pos2
  {
  }

  /** Until there is an anchor no position is shown, and the last track told waits to be one;
      a position or a write of track 1 ends the wait. */
  lemma {:induction false} CandidateTold(h: Hud, rs: seq<Record>, i: nat)
    requires h.pos2.None? && NeverTold(AnchorTold, rs)
    ensures AfterRecords(h, rs).pos2.None?
    ensures Latest(TrackTold, rs, i) ==> AfterRecords(h, rs).candidate == TrackTold(rs[i])
    ensures NeverTold(TrackTold, rs) ==> AfterRecords(h, rs).candidate == h.candidate
  {
    hide OnRecord, AnchorTold, TrackTold;
    if rs != [] {
      var n := |rs| - 1;
      assert forall j :: 0 <= j < n ==> rs[..n][j] == rs[j];
      CandidateTold(h, rs[..n], i);
      PositionAfter(AfterRecords(h, rs[..n]), rs[n]);
      CandidateAfter(AfterRecords(h, rs[..n]), rs[n]);
    }
  }

  lemma CandidateAfter(h: Hud, r: Record)
    ensures OnRecord(h, r).candidate ==
            if r == OfEvent(TrackWrite(1)) || (r.OfState? && r.mailbox.posValid != 0) then None
            else if h.pos2.None? && TrackTold(r).Some? then TrackTold(r)
            else h.candidate
    ensures r == OfEvent(TrackWrite(1)) || (r.OfState? && r.mailbox.posValid != 0) ==> AnchorTold(r).Some?
  {
  }
}
