/** The 1541HUD decoder (1541hud/artifacts/T0.0.16, probe): what each captured write does
to its state, what it queues and what it publishes; then whole runs of writes, and the
head position the GUI makes of them. */
module ProbeDecode {
  import opened Wrappers
  import opened BusDecode
  import opened HeaderTiming
  import opened Bits
  import opened EventText
  import HudCore
  import HudState

  const SECTORS: nat := 32
  const LWPT: nat := 0x1E
  const DRVST: nat := 0x20
  const DRVTRK: nat := 0x22

  // ---------------------------------------------------------------------
  // One captured write, on values
  // ---------------------------------------------------------------------

  function MotorBit(orb: nat): nat {
    (orb / 4) % 2
  }

  function DensityBits(orb: nat): nat {
    (orb / 32) % 4
  }

  function MotorEvents(was: Option<nat>, m: nat): seq<Event> {
    if was == Some(m) then [] else [Motor(m)]
  }

  function PhaseEvents(was: Option<nat>, p: nat, m: nat): seq<Event> {
    if was.None? || was.value == p then [] else [Phase(was.value, p, (p - was.value) % 4, m)]
  }

  function DensityEvents(was: Option<nat>, d: nat): seq<Event> {
    if was == Some(d) then [] else [Density(d)]
  }

  /** The events of a write to the drive's output register: a changed motor, then a
      changed stepper phase, then a changed density. */
  function OrbEvents(motor: Option<nat>, phase: Option<nat>, density: Option<nat>, orb: nat): seq<Event> {
    MotorEvents(motor, MotorBit(orb)) + PhaseEvents(phase, orb % 4, MotorBit(orb))
    + DensityEvents(density, DensityBits(orb))
  }

  /** The motor stopped. */
  function MotorMarks(was: Option<nat>, m: nat): seq<Mark> {
    if was.Some? && was.value != m && m == 0 then [Cleared] else []
  }

  /** The head stepped. */
  function PhaseMarks(was: Option<nat>, p: nat): seq<Mark> {
    if was.None? || was.value == p then [] else [Cleared]
  }

  function PhaseMoves(was: Option<nat>, p: nat, pos: Option<nat>): Option<nat> {
    if was.None? then pos else StepPosition(pos, (p - was.value) % 4)
  }

  function StepPosition(pos: Option<nat>, delta: nat): Option<nat> {
    if pos.None? then None
    else if delta == 1 then Some(if pos.value < 254 then pos.value + 1 else pos.value)
    else if delta == 3 then Some(if pos.value > 2 then pos.value - 1 else 2)
    else pos
  }

  function TrackPosition(track: nat): nat {
    if track * 2 > 254 then 254 else track * 2
  }

  /** What one captured write is to the decoder. */
  datatype Access =
    | Orb(value: nat)
    | HeaderWrite(cycle: Cycle)
    | DriveStatus(value: nat)
    | DriveTrack(value: nat)
    | ProtectSense(value: nat)
    | Other

  function AccessOf(v: nat, ticks16: nat): Access {
    if OrbWrite(v) then Orb(Data(v))
    else if Uc2Selected(v) then Other
    else if HeaderAddr(Addr(v)) then HeaderWrite(Write(Addr(v), Data(v), ticks16))
    else if Addr(v) == DRVST then DriveStatus(Data(v))
    else if Addr(v) == DRVTRK then DriveTrack(Data(v))
    else if Addr(v) == LWPT then ProtectSense(Data(v))
    else Other
  }

  /** The locals of the probe's main program; the speed history as its marks. */
  datatype State = State(
    motor: Option<nat>, phase: Option<nat>, density: Option<nat>, protect: Option<nat>, header: Header,
    trackWrite: Option<nat>, stepping: bool, pos2: Option<nat>, marks: seq<Mark>)

  const POWER_UP: State := State(None, None, None, None, NO_HEADER, None, false, None, [])

  /** The head has just settled on a track the drive has named. */
  predicate Settles(s: State, drvst: nat) {
    s.stepping && (drvst / 0x40) % 2 == 0 && s.trackWrite.Some? && 1 <= s.trackWrite.value <= 127
  }

  function ProtectBit(data: nat): nat {
    (data / 0x10) % 2
  }

  function Next(s: State, a: Access): State {
    match a
    case Orb(orb) =>
      s.(motor := Some(MotorBit(orb)), phase := Some(orb % 4), density := Some(DensityBits(orb)),
         marks := s.marks + MotorMarks(s.motor, MotorBit(orb)) + PhaseMarks(s.phase, orb % 4),
         pos2 := PhaseMoves(s.phase, orb % 4, s.pos2))
    case HeaderWrite(c) =>
      s.(header := Recognise(s.header, c),
         marks := if Completes(s.header, c) then s.marks + [Passed(s.header.sector, s.header.ticks16)] else s.marks)
    case DriveStatus(d) =>
      s.(stepping := (d / 0x40) % 2 == 1,
         pos2 := if Settles(s, d) then Some(TrackPosition(s.trackWrite.value)) else s.pos2)
    case DriveTrack(d) =>
      s.(trackWrite := Some(d),
         pos2 := if d == 1 then Some(2)
                 else if s.pos2.None? && !s.stepping && 1 <= d <= 127 then Some(TrackPosition(d)) else s.pos2)
    case ProtectSense(d) => s.(protect := Some(ProtectBit(d)))
    case Other => s
  }

  /** The header's record, then the speed record if it gives one. */
  function HeaderEvents(h: Header, marks: seq<Mark>): seq<Event> {
    var r := RpmOf(h.track, LastPass(marks, h.sector), h.ticks16);
    [HdrPhy(h.track, h.sector, h.ticks16)] + if r.Some? then [r.value] else []
  }

  function Events(s: State, a: Access): seq<Event> {
    match a
    case Orb(orb) => OrbEvents(s.motor, s.phase, s.density, orb)
    case HeaderWrite(c) => if Completes(s.header, c) then HeaderEvents(s.header, s.marks) else []
    case DriveStatus(_) => []
    case DriveTrack(d) => [TrackWrite(d)]
    case ProtectSense(d) => if s.protect == Some(ProtectBit(d)) then [] else [WriteProtect(ProtectBit(d))]
    case Other => []
  }

  function ValueOr(o: Option<nat>, other: nat): nat {
    if o.Some? then o.value else other
  }

  function Flag(b: bool): nat {
    if b then 1 else 0
  }

  /** What a state record read now would show. */
  function MailboxOf(s: State): HudState.Mailbox {
    HudState.Mailbox(
      Flag(s.protect.Some?), ValueOr(s.protect, 0), Flag(s.pos2.Some?), ValueOr(s.pos2, 0),
      Flag(s.trackWrite.Some?), ValueOr(s.trackWrite, 0),
      Flag(s.density.Some?), ValueOr(s.density, 2), ValueOr(s.motor, 0))
  }

  /** The track-state word: position, last track written and the stepping bit. */
  function TrackWord(pos2: Option<nat>, track: Option<nat>, stepping: bool): nat {
    HudState.TrackState(MailboxOf(POWER_UP.(pos2 := pos2, trackWrite := track)), stepping)
  }

  lemma TrackWordIs(s: State)
    ensures HudState.TrackState(MailboxOf(s), s.stepping) == TrackWord(s.pos2, s.trackWrite, s.stepping)
  {
  }

  // ---------------------------------------------------------------------
  // The decoder
  // ---------------------------------------------------------------------

  /** The locals of the main program, and the mailbox fields it keeps for a state record. */
  class Decoder {
    var motor: Option<nat>
    var phase: Option<nat>
    var density: Option<nat>
    var protect: Option<nat>
    var header: Header
    var trackWrite: Option<nat>
    var stepping: bool
    var pos2: Option<nat>
    const rpmSeen: array<bool>
    const rpmTicks: array<nat>
    var trackState: nat
    var lastMotor: nat
    var lastDensity: nat
    var densityValid: nat
    var lastWriteProtect: nat
    var writeProtectValid: nat
    ghost var marks: seq<Mark>

    ghost predicate Valid()
      reads this, rpmSeen, rpmTicks
    {
      && rpmSeen.Length == SECTORS && rpmTicks.Length == SECTORS
      && Remembers()
      && Published()
    }

    ghost predicate Remembers()
      reads this`marks, rpmSeen, rpmTicks
      requires rpmSeen.Length == SECTORS && rpmTicks.Length == SECTORS
    {
      forall s :: 0 <= s < SECTORS ==> LastPass(marks, s) == if rpmSeen[s] then Some(rpmTicks[s]) else None
    }

    ghost function View(): State
      reads this
    {
      State(motor, phase, density, protect, header, trackWrite, stepping, pos2, marks)
    }

    /** Between two writes the mailbox says what the decoder knows. */
    ghost predicate Published()
      reads this
    {
      && trackState == TrackWord(pos2, trackWrite, stepping)
      && lastMotor == ValueOr(motor, 0)
      && lastDensity == ValueOr(density, 2) && densityValid == Flag(density.Some?)
      && lastWriteProtect == ValueOr(protect, 0) && writeProtectValid == Flag(protect.Some?)
    }

    /** What the bridge would read from the mailbox now. */
    ghost function Shown(): HudState.Mailbox
      reads this
    {
      HudState.Mailbox(
        writeProtectValid, lastWriteProtect, (trackState / 0x100_0000) % 2, (trackState / 0x1_0000) % 0x100,
        (trackState / 0x100) % 2, trackState % 0x100, densityValid, lastDensity, lastMotor)
    }

    /** ... and it is what the decoder knows. */
    lemma SnapshotShows()
      requires Valid() && (pos2.Some? ==> pos2.value <= 0xFF) && (trackWrite.Some? ==> trackWrite.value <= 0xFF)
      ensures Shown() == MailboxOf(View())
      ensures Shown().posValid == (if pos2.Some? then 1 else 0) && (pos2.Some? ==> Shown().pos2 == pos2.value)
      ensures Shown().trackValid == (if trackWrite.Some? then 1 else 0)
      ensures trackWrite.Some? ==> Shown().track == trackWrite.value
      ensures Shown().wpValid == (if protect.Some? then 1 else 0)
      ensures protect.Some? ==> Shown().writeProtect == protect.value
      ensures Shown().densityValid == (if density.Some? then 1 else 0)
      ensures density.Some? ==> Shown().density == density.value
      ensures Shown().motor == if motor.Some? then motor.value else 0
    {
      var m := MailboxOf(View());
      HudState.TrackStateFields(m.(density := 0, motor := 0, writeProtect := 0), stepping);
      TrackWordIs(View());
    }

    constructor ()
      ensures Valid() && fresh(rpmSeen) && fresh(rpmTicks)
      ensures View() == POWER_UP
    {
      motor, phase, density, protect := None, None, None, None;
      header, trackWrite, stepping, pos2 := NO_HEADER, None, false, None;
      rpmSeen := new bool[SECTORS](_ => false);
      rpmTicks := new nat[SECTORS](_ => 0);
      trackState, lastMotor, lastDensity, densityValid, lastWriteProtect, writeProtectValid := 0, 0, 2, 0, 0, 0;
      marks := [];
    }

    method ClearRpm()
      requires rpmSeen.Length == SECTORS && rpmTicks.Length == SECTORS && Remembers()
      modifies rpmSeen, this`marks
      ensures Remembers() && marks == old(marks) + [Cleared]
    {
      for i := 0 to SECTORS
        invariant marks == old(marks)
        invariant forall s :: 0 <= s < i ==> !rpmSeen[s]
      {
        rpmSeen[i] := false;
      }
      marks := marks + [Cleared];
      forall s: nat ensures LastPass(marks, s) == None {
        NonePassed(marks, s);
      }
    }

    /** publish_track_state */
    method PublishTrackState()
      modifies this`trackState
      ensures trackState == TrackWord(pos2, trackWrite, stepping)
    {
      trackState := TrackWord(pos2, trackWrite, stepping);
    }

    /** The write to the output register. */
    method DecodeOrb(orb: nat) returns (events: seq<Event>)
      requires Valid()
      modifies this, rpmSeen
      ensures Valid() && View() == Next(old(View()), Orb(orb)) && events == Events(old(View()), Orb(orb))
    {
      hide TrackWord, LastPass, Remembers, MotorBit, DensityBits;
      hide MotorEvents, PhaseEvents, DensityEvents, MotorMarks, PhaseMarks, PhaseMoves;
      events := DecodeLines(MotorBit(orb), orb % 4, DensityBits(orb));
    }

    method DecodeLines(m: nat, p: nat, d: nat) returns (events: seq<Event>)
      requires Valid() && p < 4
      modifies this`motor, this`phase, this`density, this`pos2, this`trackState, this`marks, rpmSeen
      modifies this`lastMotor, this`lastDensity, this`densityValid
      ensures Remembers() && Published()
      ensures motor == Some(m) && phase == Some(p) && density == Some(d)
      ensures pos2 == PhaseMoves(old(phase), p, old(pos2))
      ensures marks == old(marks) + MotorMarks(old(motor), m) + PhaseMarks(old(phase), p)
      ensures events == MotorEvents(old(motor), m) + PhaseEvents(old(phase), p, m) + DensityEvents(old(density), d)
    {
      hide TrackWord, LastPass, Remembers;
      hide MotorEvents, PhaseEvents, DensityEvents, MotorMarks, PhaseMarks, PhaseMoves;
      lastMotor, lastDensity := m, d;
      var e1 := DecodeMotor(m);
      var e2 := DecodePhase(p, m);
      var e3 := DecodeDensity(d);
      events := e1 + e2 + e3;
    }

    method DecodeDensity(d: nat) returns (events: seq<Event>)
      modifies this`density, this`densityValid
      ensures density == Some(d) && events == DensityEvents(old(density), d)
      ensures densityValid == if old(density).None? then 1 else old(densityValid)
    {
      events := [];
      if density.None? {
        density := Some(d);
        densityValid := 1;
        events := [Density(d)];
      } else if d != density.value {
        density := Some(d);
        events := [Density(d)];
      }
    }

    method DecodeMotor(m: nat) returns (events: seq<Event>)
      requires rpmSeen.Length == SECTORS && rpmTicks.Length == SECTORS && Remembers()
      modifies this`motor, this`marks, rpmSeen
      ensures Remembers() && motor == Some(m)
      ensures events == MotorEvents(old(motor), m) && marks == old(marks) + MotorMarks(old(motor), m)
    {
      hide TrackWord, LastPass, Remembers;
      events := [];
      assert marks + [] == marks;
      if motor.None? {
        motor := Some(m);
        events := [Motor(m)];
      } else if m != motor.value {
        motor := Some(m);
        events := [Motor(m)];
        if m == 0 {
          ClearRpm();
        }
      }
    }

    method DecodePhase(p: nat, m: nat) returns (events: seq<Event>)
      requires rpmSeen.Length == SECTORS && rpmTicks.Length == SECTORS && Remembers()
      requires p < 4 && trackState == TrackWord(pos2, trackWrite, stepping)
      modifies this`phase, this`pos2, this`trackState, this`marks, rpmSeen
      ensures Remembers() && phase == Some(p) && trackState == TrackWord(pos2, trackWrite, stepping)
      ensures events == PhaseEvents(old(phase), p, m) && marks == old(marks) + PhaseMarks(old(phase), p)
      ensures pos2 == PhaseMoves(old(phase), p, old(pos2))
    {
      hide TrackWord, LastPass, Remembers;
      events := [];
      assert marks + [] == marks;
      if phase.None? {
        phase := Some(p);
      } else if p != phase.value {
        var oldp := phase.value;
        var delta := (p - oldp) % 4;
        ClearRpm();
        phase := Some(p);
        events := [Phase(oldp, p, delta, m)];
        if pos2.Some? {
          pos2 := StepPosition(pos2, delta);
          PublishTrackState();
        }
      } else {
        NoStep(p, pos2);
      }
    }

    /** A completed header: its event, and a speed record if the sector was seen before. */
    method PassHeader(h: Header) returns (events: seq<Event>)
      requires Valid() && h.sector < SECTORS
      modifies rpmSeen, rpmTicks, this`marks
      ensures Valid() && marks == old(marks) + [Passed(h.sector, h.ticks16)]
      ensures events == HeaderEvents(h, old(marks))
    {
      events := [HdrPhy(h.track, h.sector, h.ticks16)];
      if rpmSeen[h.sector] {
        var r := RpmOf(h.track, Some(rpmTicks[h.sector]), h.ticks16);
        if r.Some? {
          events := events + [r.value];
        }
      }
      rpmSeen[h.sector], rpmTicks[h.sector] := true, h.ticks16;
      assert (marks + [Passed(h.sector, h.ticks16)])[..|marks|] == marks;
      marks := marks + [Passed(h.sector, h.ticks16)];
    }

    /** A write to one of the header's addresses. */
    method DecodeHeader(c: Cycle) returns (events: seq<Event>)
      requires Valid() && c.Write?
      modifies this`header, rpmSeen, rpmTicks, this`marks
      ensures Valid() && View() == Next(old(View()), HeaderWrite(c)) && events == Events(old(View()), HeaderWrite(c))
    {
      hide TrackWord, LastPass, RpmOf, Remembers;
      events := [];
      if Completes(header, c) {
        events := PassHeader(header);
      }
      header := Recognise(header, c);
    }

    /** A write to DRVST: when the head has settled, the last track written is where it is. */
    method DecodeDrvst(data: nat)
      requires Valid()
      modifies this`stepping, this`pos2, this`trackState
      ensures Valid() && View() == Next(old(View()), DriveStatus(data))
    {
      hide TrackWord, LastPass, Remembers;
      var wasStepping := stepping;
      stepping := (data / 0x40) % 2 == 1;
      if wasStepping && !stepping && trackWrite.Some? && 1 <= trackWrite.value <= 127 {
        pos2 := Some(TrackPosition(trackWrite.value));
      }
      PublishTrackState();
    }

    /** A write to DRVTRK. */
    method DecodeDrvtrk(data: nat) returns (events: seq<Event>)
      requires Valid()
      modifies this`trackWrite, this`pos2, this`trackState
      ensures Valid() && View() == Next(old(View()), DriveTrack(data)) && events == [TrackWrite(data)]
    {
      hide TrackWord, LastPass, Remembers;
      trackWrite := Some(data);
      events := [TrackWrite(data)];
      if data == 1 {
        pos2 := Some(2);
      } else if pos2.None? && !stepping && 1 <= data <= 127 {
        pos2 := Some(TrackPosition(data));
      }
      PublishTrackState();
    }

    /** A write to LWPT. */
    method DecodeLwpt(data: nat) returns (events: seq<Event>)
      requires Valid()
      modifies this`protect, this`lastWriteProtect, this`writeProtectValid
      ensures Valid() && View() == Next(old(View()), ProtectSense(data))
      ensures events == Events(old(View()), ProtectSense(data))
    {
      hide TrackWord, LastPass, Remembers;
      var wp := ProtectBit(data);
      lastWriteProtect := wp;
      events := [];
      if protect.None? {
        protect := Some(wp);
        writeProtectValid := 1;
        events := [WriteProtect(wp)];
      } else if wp != protect.value {
        protect := Some(wp);
        events := [WriteProtect(wp)];
      }
    }

    /** decode_snapshot */
    method Decode(v: nat, ticks16: nat) returns (events: seq<Event>)
      requires Valid()
      modifies this, rpmSeen, rpmTicks
      ensures Valid() && View() == Next(old(View()), AccessOf(v, ticks16))
      ensures events == Events(old(View()), AccessOf(v, ticks16))
    {
      hide RpmOf, LastPass, Recognise, Completes, OrbEvents, MotorMarks, PhaseMarks, PhaseMoves, Data, Addr, Valid;
      events := [];
      if OrbWrite(v) {
        events := DecodeOrb(Data(v));
      }
      if !Uc2Selected(v) && HeaderAddr(Addr(v)) {
        events := DecodeHeader(Write(Addr(v), Data(v), ticks16));
      }
      if RamWrite(v, DRVST) {
        DecodeDrvst(Data(v));
      }
      if RamWrite(v, DRVTRK) {
        events := DecodeDrvtrk(Data(v));
      }
      if RamWrite(v, LWPT) {
        events := DecodeLwpt(Data(v));
      }
    }
  }

  lemma NonePassed(marks: seq<Mark>, s: nat)
    requires marks != [] && marks[|marks| - 1] == Cleared
    ensures LastPass(marks, s) == None
  {
  }

  lemma NoStep(p: nat, pos: Option<nat>)
    ensures StepPosition(pos, (p - p) % 4) == pos
  {
    assert (p - p) % 4 == 0;
  }

  // ---------------------------------------------------------------------
  // Whole runs
  // ---------------------------------------------------------------------

  function AfterRun(run: seq<Access>): State {
    if run == [] then POWER_UP else Next(AfterRun(run[..|run| - 1]), run[|run| - 1])
  }

  /** The header writes of a run, as the recogniser sees them. */
  function Cycles(run: seq<Access>): seq<Cycle> {
    if run == [] then []
    else
      var a := run[|run| - 1];
      Cycles(run[..|run| - 1]) + [if a.HeaderWrite? then a.cycle else Elsewhere]
  }

  lemma {:induction false} HeaderOfRun(run: seq<Access>)
    ensures AfterRun(run).header == BusDecode.After(Cycles(run))
  {
    hide Recognise;
    if run != [] {
      HeaderOfRun(run[..|run| - 1]);
      var cs := Cycles(run[..|run| - 1]);
      var a := run[|run| - 1];
      var c := if a.HeaderWrite? then a.cycle else Elsewhere;
      assert (cs + [c])[..|cs|] == cs;
      ElsewhereKeeps(BusDecode.After(cs));
    }
  }

  lemma ElsewhereKeeps(h: Header)
    ensures Recognise(h, Elsewhere) == h
  {
  }

  // What the decoder knows is what the last write of each kind said.

  predicate LastOrb(run: seq<Access>, i: nat) {
    i < |run| && run[i].Orb? && forall j :: i < j < |run| ==> !run[j].Orb?
  }

  predicate LastStatus(run: seq<Access>, i: nat) {
    i < |run| && run[i].DriveStatus? && forall j :: i < j < |run| ==> !run[j].DriveStatus?
  }

  predicate LastTrack(run: seq<Access>, i: nat) {
    i < |run| && run[i].DriveTrack? && forall j :: i < j < |run| ==> !run[j].DriveTrack?
  }

  predicate LastSense(run: seq<Access>, i: nat) {
    i < |run| && run[i].ProtectSense? && forall j :: i < j < |run| ==> !run[j].ProtectSense?
  }

  /** Motor in bit 2, stepper phase in bits 0 and 1, density in bits 5 and 6 of the output
      register; stepping in bit 6 of DRVST; write protect in bit 4 of LWPT. */
  lemma {:induction false} LastWritesKnown(run: seq<Access>, i: nat)
    requires i < |run|
    ensures var s, v := AfterRun(run), run[i];
      && (LastOrb(run, i) ==>
            s.motor == Some((v.value / 4) % 2) && s.phase == Some(v.value % 4) && s.density == Some((v.value / 32) % 4))
      && (LastStatus(run, i) ==> s.stepping == ((v.value / 64) % 2 == 1))
      && (LastTrack(run, i) ==> s.trackWrite == Some(v.value))
      && (LastSense(run, i) ==> s.protect == Some((v.value / 16) % 2))
  {
    hide Next;
    var n := |run| - 1;
    NextKnows(AfterRun(run[..n]), run[n]);
    var before := run[..n];
    if i < n {
      LastWritesKnown(before, i);
      assert before[i] == run[i] && forall j :: 0 <= j < n ==> before[j] == run[j];
    }
  }

  lemma {:induction false} NothingKnown(run: seq<Access>)
    ensures var s := AfterRun(run);
      && ((forall j :: 0 <= j < |run| ==> !run[j].Orb?) ==> s.motor == None && s.phase == None && s.density == None)
      && ((forall j :: 0 <= j < |run| ==> !run[j].DriveStatus?) ==> !s.stepping)
      && ((forall j :: 0 <= j < |run| ==> !run[j].DriveTrack?) ==> s.trackWrite == None)
      && ((forall j :: 0 <= j < |run| ==> !run[j].ProtectSense?) ==> s.protect == None)
  {
    hide Next;
    if run != [] {
      NothingKnown(run[..|run| - 1]);
      NextKnows(AfterRun(run[..|run| - 1]), run[|run| - 1]);
    }
  }

  lemma NextKnows(s: State, a: Access)
    ensures var t := Next(s, a);
      && (if a.Orb?
          then t.motor == Some((a.value / 4) % 2) && t.phase == Some(a.value % 4)
               && t.density == Some((a.value / 32) % 4)
          else t.motor == s.motor && t.phase == s.phase && t.density == s.density)
      && t.stepping == (if a.DriveStatus? then (a.value / 64) % 2 == 1 else s.stepping)
      && t.trackWrite == (if a.DriveTrack? then Some(a.value) else s.trackWrite)
      && t.protect == (if a.ProtectSense? then Some((a.value / 16) % 2) else s.protect)
  {
    hide Recognise, Completes, PhaseMoves, MotorMarks, PhaseMarks, Settles;
  }

  /** Where a write leaves the head: a write of track 1 at half-step 2; a settle at twice
      the track last written; the first track written while not stepping, if no position
      is known, at twice that; a phase one on a half-step further in, up to 254, one back
      a half-step out, down to 2; any other write where it was. */
  lemma PositionAfter(run: seq<Access>, a: Access)
    ensures var s := AfterRun(run);
      AfterRun(run + [a]).pos2
      == match a
         case DriveTrack(d) =>
           if d == 1 then Some(2)
           else if s.pos2 == None && !s.stepping && 1 <= d <= 127 then Some(2 * d) else s.pos2
         case DriveStatus(d) =>
           if s.stepping && (d / 64) % 2 == 0 && s.trackWrite.Some? && 1 <= s.trackWrite.value <= 127
           then Some(2 * s.trackWrite.value) else s.pos2
         case Orb(v) => if s.phase.Some? then Stepped(s.pos2, (v % 4 - s.phase.value) % 4) else s.pos2
         case _ => s.pos2
  {
    hide Recognise, Completes, MotorMarks, PhaseMarks, AfterRun, Stepped;
    AfterSnoc(run, a);
    if a.Orb? && AfterRun(run).phase.Some? {
      StepIs(AfterRun(run).pos2, (a.value % 4 - AfterRun(run).phase.value) % 4);
    }
  }

  /** A half-step in, up to 254, or out, down to 2. */
  function Stepped(pos: Option<nat>, delta: nat): Option<nat> {
    if pos.None? || delta % 2 == 0 then pos
    else if delta == 1 then (if pos.value >= 254 then pos else Some(pos.value + 1))
    else if pos.value <= 3 then Some(2) else Some(pos.value - 1)
  }

  lemma StepIs(pos: Option<nat>, delta: nat)
    requires delta < 4
    ensures StepPosition(pos, delta) == Stepped(pos, delta)
  {
  }

  lemma AfterSnoc(run: seq<Access>, a: Access)
    ensures AfterRun(run + [a]) == Next(AfterRun(run), a)
  {
    hide Next;
    assert (run + [a])[..|run|] == run;
  }

  /** Settling on track t: the last DRVST write said stepping, this one does not, and the
      last track written was t. */
  lemma SettlesOnTrack(run: seq<Access>, i: nat, k: nat, drvst: nat)
    requires LastStatus(run, i) && (run[i].value / 64) % 2 == 1 && (drvst / 64) % 2 == 0
    requires LastTrack(run, k) && 1 <= run[k].value <= 127
    ensures AfterRun(run + [DriveStatus(drvst)]).pos2 == Some(2 * run[k].value)
  {
    hide AfterRun, Next;
    LastWritesKnown(run, i);
    LastWritesKnown(run, k);
    PositionAfter(run, DriveStatus(drvst));
  }

  /** What a write to the output register queues, from the one before it: the motor and
      the density if there was none or they differ, the phase if there was one and it
      differs. */
  lemma OrbQueues(run: seq<Access>, i: nat, v: nat)
    requires LastOrb(run, i)
    ensures var u, m := run[i].value, (v / 4) % 2;
      Events(AfterRun(run), Orb(v))
      == (if (u / 4) % 2 == m then [] else [Motor(m)])
         + (if u % 4 == v % 4 then [] else [Phase(u % 4, v % 4, (v % 4 - u % 4) % 4, m)])
         + (if (u / 32) % 4 == (v / 32) % 4 then [] else [Density((v / 32) % 4)])
  {
    hide AfterRun;
    LastWritesKnown(run, i);
  }

  lemma FirstOrbQueues(run: seq<Access>, v: nat)
    requires forall j :: 0 <= j < |run| ==> !run[j].Orb?
    ensures Events(AfterRun(run), Orb(v)) == [Motor((v / 4) % 2), Density((v / 32) % 4)]
  {
    hide AfterRun;
    NothingKnown(run);
  }

  /** ... and the other writes: a track always, write protect when it is new or changed. */
  lemma OthersQueue(run: seq<Access>, i: nat, v: nat)
    ensures Events(AfterRun(run), DriveTrack(v)) == [TrackWrite(v)] && Events(AfterRun(run), DriveStatus(v)) == []
    ensures LastSense(run, i) ==>
              Events(AfterRun(run), ProtectSense(v))
              == if (run[i].value / 16) % 2 == (v / 16) % 2 then [] else [WriteProtect((v / 16) % 2)]
    ensures (forall j :: 0 <= j < |run| ==> !run[j].ProtectSense?) ==>
              Events(AfterRun(run), ProtectSense(v)) == [WriteProtect((v / 16) % 2)]
  {
    hide AfterRun;
    NothingKnown(run);
    if i < |run| {
      LastWritesKnown(run, i);
    }
  }

  /** Which bus cycle is which write: with UC2 selected, an address ending in zero is the
      output register; otherwise DRVST is $20, DRVTRK $22, LWPT $1E, the header $16-$1A. */
  lemma AccessOfCycle(addr: nat, data: nat, uc2: bool, ticks16: nat)
    requires addr < Pow2(13) && data < Pow2(8)
    ensures AccessOf(OnPins(addr, data, uc2), ticks16) ==
            if uc2 then (if addr % 16 == 0 then Orb(data) else Other)
            else if 0x16 <= addr <= 0x1A then HeaderWrite(Write(addr, data, ticks16))
            else if addr == 0x20 then DriveStatus(data)
            else if addr == 0x22 then DriveTrack(data)
            else if addr == 0x1E then ProtectSense(data)
            else Other
  {
    hide Data, Addr, Uc2Selected, OnPins, Pow2;
    CycleDecodes(addr, data, uc2);
  }

  predicate HasHeader(es: seq<Event>) {
    exists e :: e in es && e.HdrPhy?
  }

  /** After any run, an access queues a header event if and only if the last five
      writes to $16-$1A, this one included, are a plausible header's in order. */
  lemma HeaderEventIff(run: seq<Access>, a: Access)
    requires a.HeaderWrite? ==> a.cycle.Write? && HeaderAddr(a.cycle.addr)
    ensures HasHeader(Events(AfterRun(run), a))
            <==> a.HeaderWrite? && HeaderSeen(HeaderWrites(Cycles(run)) + [a.cycle])
  {
    hide HeaderSeen, HeaderWrites, Completes;
    HeaderOfRun(run);
    if a.HeaderWrite? {
      EventIffHeader(Cycles(run), a.cycle);
      if Completes(AfterRun(run).header, a.cycle) {
        assert HeaderEvents(AfterRun(run).header, AfterRun(run).marks)[0].HdrPhy?;
      }
    }
  }

  /** An access that reports a head step, or a motor that was on going off. */
  predicate Stirs(s: State, a: Access) {
    (exists e :: e in Events(s, a) && e.Phase?) || (s.motor.Some? && s.motor != Some(0) && Motor(0) in Events(s, a))
  }

  /** ... which is one that clears the speed history. */
  lemma ClearedIffStirs(s: State, a: Access)
    ensures |Next(s, a).marks| >= |s.marks| && Next(s, a).marks[..|s.marks|] == s.marks
    ensures Cleared in Next(s, a).marks[|s.marks|..] <==> Stirs(s, a)
  {
    hide Recognise, Completes, LastPass, RpmOf, Stirs, MotorMarks, PhaseMarks;
    var marks := Next(s, a).marks;
    if a.Orb? {
      assert marks[|s.marks|..] == MotorMarks(s.motor, MotorBit(a.value)) + PhaseMarks(s.phase, a.value % 4);
      OrbStirs(s, a.value);
    } else if a.HeaderWrite? {
      var h := s.header;
      assert marks[|s.marks|..] == if Completes(h, a.cycle) then [Passed(h.sector, h.ticks16)] else [];
      HeaderStirsNot(s, a.cycle);
    } else {
      OthersStirNot(s, a);
    }
  }

  lemma OrbStirs(s: State, orb: nat)
    ensures Stirs(s, Orb(orb)) <==> Cleared in MotorMarks(s.motor, MotorBit(orb)) + PhaseMarks(s.phase, orb % 4)
  {
    var es := Events(s, Orb(orb));
    var m, p := MotorBit(orb), orb % 4;
    if s.phase.Some? && s.phase.value != p {
      assert Phase(s.phase.value, p, (p - s.phase.value) % 4, m) in es;
    }
    if s.motor != Some(m) {
      assert es[0] == Motor(m);
    }
  }

  /** Access i of the run completed a header of this sector at this time. */
  predicate PassesAt(run: seq<Access>, i: nat, sector: nat, ticks16: nat)
    requires i < |run|
  {
    var h := AfterRun(run[..i]).header;
    run[i].HeaderWrite? && Completes(h, run[i].cycle) && h.sector == sector && h.ticks16 == ticks16
  }

  /** Nothing after access i moved the head, stopped the motor or passed the sector again. */
  predicate QuietSince(run: seq<Access>, i: nat, sector: nat) {
    forall j :: i < j < |run| ==> !Stirs(AfterRun(run[..j]), run[j]) && !Passes(run, j, sector)
  }

  predicate Passes(run: seq<Access>, j: nat, sector: nat)
    requires j < |run|
  {
    PassesAt(run, j, sector, AfterRun(run[..j]).header.ticks16)
  }

  predicate LastAt(run: seq<Access>, sector: nat, ticks16: nat, i: nat) {
    i < |run| && PassesAt(run, i, sector, ticks16) && QuietSince(run, i, sector)
  }

  /** The speed history, over whole runs. */
  lemma {:induction false} LastPassOfRun(run: seq<Access>, sector: nat, ticks16: nat)
    ensures LastPass(AfterRun(run).marks, sector) == Some(ticks16) <==> exists i: nat :: LastAt(run, sector, ticks16, i)
  {
    hide Recognise, Completes, RpmOf, Next, Events, Stirs;
    if run != [] {
      var n := |run| - 1;
      var s, a := AfterRun(run[..n]), run[n];
      LastPassOfRun(run[..n], sector, ticks16);
      LastPassNext(s, a, sector);
      if Passes(run, n, sector) {
        assert LastAt(run, sector, s.header.ticks16, n);
        forall i: nat ensures LastAt(run, sector, ticks16, i) ==> i == n {
          assert i < n ==> !QuietSince(run, i, sector);
        }
        assert (exists i: nat :: LastAt(run, sector, ticks16, i)) ==> LastAt(run, sector, ticks16, n);
      } else {
        forall i: nat
          ensures LastAt(run, sector, ticks16, i) <==> LastAt(run[..n], sector, ticks16, i) && !Stirs(s, a)
        {
          LastAtEarlier(run, sector, ticks16, i);
        }
      }
    }
  }

  lemma LastAtEarlier(run: seq<Access>, sector: nat, ticks16: nat, i: nat)
    requires run != [] && !Passes(run, |run| - 1, sector)
    ensures LastAt(run, sector, ticks16, i)
            <==> LastAt(run[..|run| - 1], sector, ticks16, i) && !Stirs(AfterRun(run[..|run| - 1]), run[|run| - 1])
  {
    hide Completes, AfterRun, Stirs;
    var n := |run| - 1;
    var before := run[..n];
    forall j: nat | j < n ensures before[..j] == run[..j] && before[j] == run[j] {
    }
    if i < n {
      assert QuietSince(run, i, sector) <==> QuietSince(before, i, sector) && !Stirs(AfterRun(run[..n]), run[n]);
    }
  }

  /** What one access makes of the last pass of a sector. */
  lemma LastPassNext(s: State, a: Access, sector: nat)
    ensures LastPass(Next(s, a).marks, sector) ==
            if a.HeaderWrite? && Completes(s.header, a.cycle) && s.header.sector == sector then Some(s.header.ticks16)
            else if Stirs(s, a) then None
            else LastPass(s.marks, sector)
  {
    hide Recognise, Completes, RpmOf, Stirs, OrbEvents;
    match a
    case Orb(orb) =>
      OrbStirs(s, orb);
      var a, b := MotorMarks(s.motor, MotorBit(orb)), PhaseMarks(s.phase, orb % 4);
      assert s.marks + a + b == s.marks + (a + b);
      LastPassCleared(s.marks, a + b, sector);
    case HeaderWrite(c) =>
      HeaderStirsNot(s, c);
      if Completes(s.header, c) {
        assert (s.marks + [Passed(s.header.sector, s.header.ticks16)])[..|s.marks|] == s.marks;
      }
    case DriveStatus(d) => OthersStirNot(s, a);
    case DriveTrack(d) => OthersStirNot(s, a);
    case ProtectSense(d) => OthersStirNot(s, a);
    case Other => OthersStirNot(s, a);
  }

  lemma HeaderStirsNot(s: State, c: Cycle)
    ensures !Stirs(s, HeaderWrite(c))
  {
    hide LastPass, Completes;
  }

  lemma OthersStirNot(s: State, a: Access)
    ensures !a.Orb? && !a.HeaderWrite? ==> !Stirs(s, a)
  {
  }

  lemma LastPassCleared(marks: seq<Mark>, more: seq<Mark>, sector: nat)
    requires |more| <= 2 && forall i :: 0 <= i < |more| ==> more[i] == Cleared
    ensures LastPass(marks + more, sector) == if Cleared in more then None else LastPass(marks, sector)
  {
    if more == [] {
      assert marks + more == marks;
    } else {
      assert (marks + more)[|marks| + |more| - 1] == Cleared;
    }
  }

  /** After any run, an access queues a speed record if and only if it completes a
      header, an earlier access completed one of the same sector, nothing between them
      moved the head, stopped the motor or passed that sector, and the time between the
      two gives that record. */
  lemma RpmEventIff(run: seq<Access>, a: Access, e: Event)
    requires e.Rpm?
    ensures var h := AfterRun(run).header;
      e in Events(AfterRun(run), a)
      <==> (a.HeaderWrite? && Completes(h, a.cycle)
            && exists i: nat, t: nat :: LastAt(run, h.sector, t, i) && RpmOf(h.track, Some(t), h.ticks16) == Some(e))
  {
    hide RpmOf, LastAt, Completes, AfterRun, LastPass;
    var s := AfterRun(run);
    var h := s.header;
    NoRecord(h.track, h.ticks16);
    RpmAmong(s, a, e);
    var last := LastPass(s.marks, h.sector);
    forall t: nat ensures last == Some(t) <==> exists i: nat :: LastAt(run, h.sector, t, i) {
      LastPassOfRun(run, h.sector, t);
    }
    if last.Some? {
      assert exists i: nat :: LastAt(run, h.sector, last.value, i);
    }
  }

  lemma RpmAmong(s: State, a: Access, e: Event)
    requires e.Rpm?
    ensures e in Events(s, a)
            <==> (a.HeaderWrite? && Completes(s.header, a.cycle)
                  && RpmOf(s.header.track, LastPass(s.marks, s.header.sector), s.header.ticks16) == Some(e))
  {
    hide LastPass, RpmOf, Completes;
  }

  // ---------------------------------------------------------------------
  // The position, here and in the GUI
  // ---------------------------------------------------------------------

  /** The access neither steps in at the probe's ceiling nor settles anywhere but where
      the steps had led. */
  predicate Harmless(s: State, a: Access) {
    && (a.Orb? && s.phase.Some? && (a.value % 4 - s.phase.value) % 4 == 1 ==> s.pos2 != Some(254))
    && (a.DriveStatus? && Settles(s, a.value) ==> s.pos2 == Some(2 * s.trackWrite.value))
  }

  predicate OnScale(s: State) {
    s.pos2.Some? && 2 <= s.pos2.value <= 254
  }

  /** What an access's events do to a position heard from them. */
  function Told(s: State, a: Access, p: nat): nat {
    if a.Orb? && s.phase.Some? then HudCore.GuiStep(p, (a.value % 4 - s.phase.value) % 4)
    else if a.DriveTrack? && a.value == 1 then 2
    else p
  }

  lemma EventsTell(s: State, a: Access, p: nat)
    ensures HudCore.GuiAfter(p, Events(s, a)) == Told(s, a, p)
  {
    match a
    case Orb(orb) => OrbTells(s, orb, p);
    case HeaderWrite(c) =>
      if Completes(s.header, c) {
        HeaderTells(s.header, s.marks, p);
      }
    case DriveTrack(d) => HudCore.GuiOne(p, TrackWrite(d));
    case ProtectSense(d) => HudCore.GuiOne(p, WriteProtect(ProtectBit(d)));
    case DriveStatus(_) =>
    case Other =>
  }

  lemma OrbTells(s: State, orb: nat, p: nat)
    ensures HudCore.GuiAfter(p, OrbEvents(s.motor, s.phase, s.density, orb)) == Told(s, Orb(orb), p)
  {
    var m, q := MotorBit(orb), orb % 4;
    var a, b, c := MotorEvents(s.motor, m), PhaseEvents(s.phase, q, m), DensityEvents(s.density, DensityBits(orb));
    HudCore.GuiAppend(p, a + b, c);
    HudCore.GuiAppend(p, a, b);
    HudCore.GuiOne(p, Motor(m));
    if s.phase.Some? {
      HudCore.GuiOne(p, Phase(s.phase.value, q, (q - s.phase.value) % 4, m));
      NoStep(q, None);
    }
    HudCore.GuiOne(HudCore.GuiAfter(p, a + b), Density(DensityBits(orb)));
  }

  lemma HeaderTells(h: Header, marks: seq<Mark>, p: nat)
    ensures HudCore.GuiAfter(p, HeaderEvents(h, marks)) == p
  {
    hide LastPass;
    var e := HdrPhy(h.track, h.sector, h.ticks16);
    var r := RpmOf(h.track, LastPass(marks, h.sector), h.ticks16);
    HudCore.GuiOne(p, e);
    if r.Some? {
      HudCore.GuiAppend(p, [e], [r.value]);
      HudCore.GuiOne(p, r.value);
    }
  }

  /** From an agreed position, one access leaves them agreed exactly when it is harmless. */
  lemma AgreesNext(s: State, a: Access)
    requires OnScale(s)
    ensures OnScale(Next(s, a))
    ensures Next(s, a).pos2 == Some(HudCore.GuiAfter(s.pos2.value, Events(s, a))) <==> Harmless(s, a)
  {
    hide Events, Recognise, Completes;
    EventsTell(s, a, s.pos2.value);
  }

  /** A settle moves the probe's position without an event. */
  lemma SettleUntold(s: State, drvst: nat)
    requires OnScale(s) && Settles(s, drvst)
    ensures Events(s, DriveStatus(drvst)) == []
    ensures Next(s, DriveStatus(drvst)).pos2 == Some(2 * s.trackWrite.value)
    ensures Next(s, DriveStatus(drvst)).pos2 == s.pos2 <==> s.pos2 == Some(2 * s.trackWrite.value)
  {
    AgreesNext(s, DriveStatus(drvst));
  }

  /** All the events of a run, in order. */
  function AllEvents(s: State, run: seq<Access>): seq<Event> {
    if run == [] then []
    else AllEvents(s, run[..|run| - 1]) + Events(Resumed(s, run[..|run| - 1]), run[|run| - 1])
  }

  function Resumed(s: State, run: seq<Access>): State {
    if run == [] then s else Next(Resumed(s, run[..|run| - 1]), run[|run| - 1])
  }

  /** The GUI that has heard the run's events so far stands where the probe does. */
  predicate AgreeAfter(s: State, run: seq<Access>, h: HudCore.Hud) {
    HudCore.AfterEvents(h, AllEvents(s, run)).pos2 == Resumed(s, run).pos2
  }

  predicate AgreeThroughout(s: State, run: seq<Access>, h: HudCore.Hud) {
    forall n :: 0 <= n <= |run| ==> AgreeAfter(s, run[..n], h)
  }

  predicate AllHarmless(s: State, run: seq<Access>) {
    forall n :: 0 <= n < |run| ==> Harmless(Resumed(s, run[..n]), run[n])
  }

  lemma {:induction false} ResumedOnScale(s: State, run: seq<Access>)
    requires OnScale(s)
    ensures OnScale(Resumed(s, run))
  {
    hide Next, Harmless, Events;
    if run != [] {
      ResumedOnScale(s, run[..|run| - 1]);
      AgreesNext(Resumed(s, run[..|run| - 1]), run[|run| - 1]);
    }
  }

  lemma AgreeStep(s: State, run: seq<Access>, h: HudCore.Hud)
    requires OnScale(s) && h.pos2.Some? && run != [] && AgreeAfter(s, run[..|run| - 1], h)
    ensures AgreeAfter(s, run, h) <==> Harmless(Resumed(s, run[..|run| - 1]), run[|run| - 1])
  {
    hide Next, Harmless, Events;
    var before, a := run[..|run| - 1], run[|run| - 1];
    var t := Resumed(s, before);
    ResumedOnScale(s, before);
    AgreesNext(t, a);
    HudCore.GuiTracks(h, AllEvents(s, before));
    HudCore.GuiTracks(h, AllEvents(s, run));
    HudCore.GuiAppend(h.pos2.value, AllEvents(s, before), Events(t, a));
  }

  /** The GUI stands where the probe does all through a run if and only if no access of
      it steps in at the probe's ceiling and every settle names the track where the steps
      had led. */
  lemma GuiFollowsProbeIff(s: State, run: seq<Access>, h: HudCore.Hud)
    requires OnScale(s) && h.pos2 == s.pos2
    ensures AgreeThroughout(s, run, h) <==> AllHarmless(s, run)
  {
    if AllHarmless(s, run) {
      forall n: nat | n <= |run| ensures AgreeAfter(s, run[..n], h) {
        HarmlessAgrees(s, run, h, n);
      }
    }
    if AgreeThroughout(s, run, h) {
      forall n: nat | n < |run| ensures Harmless(Resumed(s, run[..n]), run[n]) {
        assert run[..n + 1][..n] == run[..n];
        assert AgreeAfter(s, run[..n], h) && AgreeAfter(s, run[..n + 1], h);
        AgreeStep(s, run[..n + 1], h);
      }
    }
  }

  lemma {:induction false} HarmlessAgrees(s: State, run: seq<Access>, h: HudCore.Hud, n: nat)
    requires OnScale(s) && h.pos2 == s.pos2 && AllHarmless(s, run) && n <= |run|
    ensures AgreeAfter(s, run[..n], h)
  {
    hide Harmless;
    if n > 0 {
      HarmlessAgrees(s, run, h, n - 1);
      assert run[..n][..n - 1] == run[..n - 1];
      AgreeStep(s, run[..n], h);
    }
  }
}
