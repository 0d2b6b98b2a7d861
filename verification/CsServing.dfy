/** The chip-select serving programs (OneROM/firmware/src/piodma/piorom2.c): the
state machine that turns the data pins into outputs while the chip is selected. */
module CsServing {
  import opened Wrappers
  import opened Pio

  const BYTE_LANE: nat := 0xFF
  const GPIO_NONE: nat := 0xFF

  /** The algorithm and its polarity or Y preload. */
  datatype Kind =
    | Contiguous(activeLow: bool)        // AlgCs0
    | IgnoringPin(mask: nat)             // AlgCs1
    | Qualified(pattern: nat)            // AlgCs2

  datatype Config = Config(kind: Kind, activeDelay: nat, inactiveDelay: nat, byteMode: bool)

  // ---------------------------------------------------------------------
  // The three programs, with their optional instructions
  // ---------------------------------------------------------------------

  function One(present: bool): nat {
    if present then 1 else 0
  }

  function Plain(op: Op): Instr {
    Instr(op, 0)
  }

  function Delay(cycles: nat): seq<Instr> {
    if cycles > 0 then [Instr(Nop, cycles - 1)] else []
  }

  function Serving(c: Config): Program {
    match c.kind
    case Contiguous(low) =>
      var idle := if low then XDec else NotX;
      var busy := if low then NotX else XDec;
      var poll := 4 + One(c.activeDelay > 0) + One(c.byteMode);
      Program(0,
              [Plain(MovPindirsNull), Plain(MovXPins), Plain(Jmp(idle, 1))]
              + Delay(c.activeDelay)
              + (if c.byteMode then [Plain(Jmp(PinHigh, poll + 2 + One(c.inactiveDelay > 0)))] else [])
              + [Plain(MovPindirsNotNull), Plain(MovXPins), Plain(Jmp(busy, poll))]
              + Delay(c.inactiveDelay)
              + (if c.byteMode then [Plain(MovPindirsY), Plain(Jmp(Always, poll))] else []),
              0, poll + 1 + One(c.inactiveDelay > 0))
    case IgnoringPin(_) =>
      var poll := 5 + One(c.activeDelay > 0);
      Program(0,
              [Plain(MovPindirsNull), Plain(MovXPins), Plain(Jmp(NotX, 4)), Plain(Jmp(XNotY, 1))]
              + Delay(c.activeDelay)
              + [Plain(MovPindirsNotNull), Plain(MovXPins), Plain(Jmp(NotX, poll)), Plain(Jmp(XNotY, 0))]
              + Delay(c.inactiveDelay),
              poll, poll + 2 + One(c.inactiveDelay > 0))
    case Qualified(_) =>
      var poll := 6 + One(c.activeDelay > 0);
      Program(0,
              [Plain(MovPindirsNull), Plain(Jmp(PinHigh, 1)), Plain(MovXPins),
               Plain(Jmp(XNotY, 5)), Plain(Jmp(Always, 1))]
              + Delay(c.activeDelay)
              + [Plain(MovPindirsNotNull), Plain(Jmp(PinHigh, 0)), Plain(MovXPins), Plain(Jmp(XNotY, poll))]
              + Delay(c.inactiveDelay),
              0, poll + 2 + One(c.inactiveDelay > 0))
  }

  function PreloadY(c: Config): nat {
    match c.kind
    case Contiguous(_) => BYTE_LANE
    case IgnoringPin(mask) => mask
    case Qualified(pattern) => pattern
  }

  /** byte_pin is an AlgCs0 parameter. */
  predicate Sensible(c: Config) {
    c.byteMode ==> c.kind.Contiguous?
  }

  method EmitDelay(a: Assembler, cycles: nat)
    modifies a
    ensures a.code == old(a.code) + Delay(cycles)
    ensures a.wrapBottom == old(a.wrapBottom) && a.wrapTop == old(a.wrapTop)
  {
    if cycles > 0 {
      a.AddDelayed(Nop, cycles - 1);
    }
  }

  method EmitCs0Serving(a: Assembler, serveCsLow0: nat, activeDelay: nat, inactiveDelay: nat, bytePin: nat)
    requires a.code == [] && a.start == 0
    modifies a
    ensures a.Built() == Serving(Config(Contiguous(serveCsLow0 == 0), activeDelay, inactiveDelay, bytePin != GPIO_NONE))
  {
    a.WrapBottom();
    EmitCs0Acquire(a, serveCsLow0, activeDelay);
    if bytePin != GPIO_NONE {
      var byteLow := a.Label() + 4 + (if inactiveDelay > 0 then 1 else 0);
      a.Add(Jmp(PinHigh, byteLow));
    }
    EmitCs0Release(a, serveCsLow0, inactiveDelay, bytePin);
  }

  method EmitCs0Acquire(a: Assembler, serveCsLow0: nat, activeDelay: nat)
    requires a.code == [] && a.start == 0
    modifies a
    ensures a.wrapBottom == old(a.wrapBottom)
    ensures a.code == [Plain(MovPindirsNull), Plain(MovXPins), Plain(Jmp(if serveCsLow0 == 0 then XDec else NotX, 1))]
                      + Delay(activeDelay)
  {
    a.Add(MovPindirsNull);
    var loadCs := a.Label();
    a.Add(MovXPins);
    if serveCsLow0 == 0 {
      a.Add(Jmp(XDec, loadCs));
    } else {
      a.Add(Jmp(NotX, loadCs));
    }
    EmitDelay(a, activeDelay);
  }

  method EmitCs0Release(a: Assembler, serveCsLow0: nat, inactiveDelay: nat, bytePin: nat)
    modifies a
    ensures var poll := a.start + |old(a.code)| + 1;
      && a.wrapBottom == old(a.wrapBottom) && a.wrapTop == poll + 1 + One(inactiveDelay > 0)
      && a.code == old(a.code)
           + [Plain(MovPindirsNotNull), Plain(MovXPins), Plain(Jmp(if serveCsLow0 == 0 then NotX else XDec, poll))]
           + Delay(inactiveDelay)
           + if bytePin != GPIO_NONE then [Plain(MovPindirsY), Plain(Jmp(Always, poll))] else []
  {
    a.Add(MovPindirsNotNull);
    var checkCsGoneInactive := a.Label();
    a.Add(MovXPins);
    a.WrapTop();
    if serveCsLow0 == 0 {
      a.Add(Jmp(NotX, checkCsGoneInactive));
    } else {
      a.Add(Jmp(XDec, checkCsGoneInactive));
    }
    if inactiveDelay > 0 {
      a.WrapTop();
      EmitDelay(a, inactiveDelay);
    }
    if bytePin != GPIO_NONE {
      a.Add(MovPindirsY);
      a.Add(Jmp(Always, checkCsGoneInactive));
    }
  }

  method EmitCs1Serving(a: Assembler, mask: nat, activeDelay: nat, inactiveDelay: nat)
    requires a.code == [] && a.start == 0
    modifies a
    ensures a.Built() == Serving(Config(IgnoringPin(mask), activeDelay, inactiveDelay, false))
  {
    var inactive := a.Label();
    a.Add(MovPindirsNull);
    var testIfActive := a.Label();
    a.Add(MovXPins);
    var active := a.Label() + 2;
    a.Add(Jmp(NotX, active));
    a.Add(Jmp(XNotY, testIfActive));
    EmitDelay(a, activeDelay);
    EmitCs1Release(a, inactive, inactiveDelay);
  }

  method EmitCs1Release(a: Assembler, inactive: nat, inactiveDelay: nat)
    modifies a
    ensures var poll := a.start + |old(a.code)| + 1;
      && a.wrapBottom == poll && a.wrapTop == poll + 2 + One(inactiveDelay > 0)
      && a.code == old(a.code)
           + [Plain(MovPindirsNotNull), Plain(MovXPins), Plain(Jmp(NotX, poll)), Plain(Jmp(XNotY, inactive))]
           + Delay(inactiveDelay)
  {
    a.Add(MovPindirsNotNull);
    a.WrapBottom();
    var testIfInactive := a.Label();
    a.Add(MovXPins);
    a.Add(Jmp(NotX, testIfInactive));
    a.WrapTop();
    a.Add(Jmp(XNotY, inactive));
    if inactiveDelay > 0 {
      a.WrapTop();
      EmitDelay(a, inactiveDelay);
    }
  }

  method EmitCs2Serving(a: Assembler, pattern: nat, activeDelay: nat, inactiveDelay: nat)
    requires a.code == [] && a.start == 0 && a.wrapBottom == 0
    modifies a
    ensures a.Built() == Serving(Config(Qualified(pattern), activeDelay, inactiveDelay, false))
  {
    var inactive := a.Label();
    a.Add(MovPindirsNull);
    var inactivePoll := a.Label();
    a.Add(Jmp(PinHigh, inactivePoll));
    a.Add(MovXPins);
    var active := a.Label() + 2;
    a.Add(Jmp(XNotY, active));
    a.Add(Jmp(Always, inactivePoll));
    EmitDelay(a, activeDelay);
    a.Add(MovPindirsNotNull);
    EmitCs2Poll(a, inactive, inactiveDelay);
  }

  method EmitCs2Poll(a: Assembler, inactive: nat, inactiveDelay: nat)
    modifies a
    ensures var poll := a.start + |old(a.code)|;
      && a.wrapBottom == old(a.wrapBottom) && a.wrapTop == poll + 2 + One(inactiveDelay > 0)
      && a.code == old(a.code)
           + [Plain(Jmp(PinHigh, inactive)), Plain(MovXPins), Plain(Jmp(XNotY, poll))] + Delay(inactiveDelay)
  {
    var activePoll := a.Label();
    a.Add(Jmp(PinHigh, inactive));
    a.Add(MovXPins);
    a.WrapTop();
    a.Add(Jmp(XNotY, activePoll));
    if inactiveDelay > 0 {
      a.WrapTop();
      EmitDelay(a, inactiveDelay);
    }
  }

  // ---------------------------------------------------------------------
  // The instruction at each address
  // ---------------------------------------------------------------------

  function ServingLength(c: Config): nat {
    One(c.activeDelay > 0) + One(c.inactiveDelay > 0)
    + match c.kind
      case Contiguous(_) => 6 + if c.byteMode then 3 else 0
      case IgnoringPin(_) => 8
      case Qualified(_) => 9
  }

  /** Where the program looks at the selects while the pins are outputs. */
  function Poll(c: Config): nat {
    One(c.activeDelay > 0)
    + match c.kind
      case Contiguous(_) => 4 + One(c.byteMode)
      case IgnoringPin(_) => 5
      case Qualified(_) => 6
  }

  function Cs0At(low: bool, ad: nat, id: nat, byte: bool, pc: nat): Instr {
    var (a, b, z) := (One(ad > 0), One(byte), One(id > 0));
    var poll := 4 + a + b;
    if pc == 0 then Plain(MovPindirsNull)
    else if pc == 1 || pc == poll then Plain(MovXPins)
    else if pc == 2 then Plain(Jmp(if low then XDec else NotX, 1))
    else if pc < 3 + a then Instr(Nop, if ad > 0 then ad - 1 else 0)
    else if pc < 3 + a + b then Plain(Jmp(PinHigh, poll + 2 + z))
    else if pc == 3 + a + b then Plain(MovPindirsNotNull)
    else if pc == poll + 1 then Plain(Jmp(if low then NotX else XDec, poll))
    else if pc < poll + 2 + z then Instr(Nop, if id > 0 then id - 1 else 0)
    else if pc == poll + 2 + z then Plain(MovPindirsY)
    else Plain(Jmp(Always, poll))
  }

  function Cs1At(ad: nat, id: nat, pc: nat): Instr {
    var a := One(ad > 0);
    if pc == 0 then Plain(MovPindirsNull)
    else if pc == 1 || pc == 5 + a then Plain(MovXPins)
    else if pc == 2 then Plain(Jmp(NotX, 4))
    else if pc == 3 then Plain(Jmp(XNotY, 1))
    else if pc < 4 + a then Instr(Nop, if ad > 0 then ad - 1 else 0)
    else if pc == 4 + a then Plain(MovPindirsNotNull)
    else if pc == 6 + a then Plain(Jmp(NotX, 5 + a))
    else if pc == 7 + a then Plain(Jmp(XNotY, 0))
    else Instr(Nop, if id > 0 then id - 1 else 0)
  }

  function Cs2At(ad: nat, id: nat, pc: nat): Instr {
    var a := One(ad > 0);
    if pc == 0 then Plain(MovPindirsNull)
    else if pc == 1 then Plain(Jmp(PinHigh, 1))
    else if pc == 2 || pc == 7 + a then Plain(MovXPins)
    else if pc == 3 then Plain(Jmp(XNotY, 5))
    else if pc == 4 then Plain(Jmp(Always, 1))
    else if pc < 5 + a then Instr(Nop, if ad > 0 then ad - 1 else 0)
    else if pc == 5 + a then Plain(MovPindirsNotNull)
    else if pc == 6 + a then Plain(Jmp(PinHigh, 0))
    else if pc == 8 + a then Plain(Jmp(XNotY, 6 + a))
    else Instr(Nop, if id > 0 then id - 1 else 0)
  }

  function At(c: Config, pc: nat): Instr {
    match c.kind
    case Contiguous(low) => Cs0At(low, c.activeDelay, c.inactiveDelay, c.byteMode, pc)
    case IgnoringPin(_) => Cs1At(c.activeDelay, c.inactiveDelay, pc)
    case Qualified(_) => Cs2At(c.activeDelay, c.inactiveDelay, pc)
  }

  ghost predicate Laid(p: Program, c: Config) {
    && p.start == 0 && |p.code| == ServingLength(c)
    && p.wrapBottom == (if c.kind.IgnoringPin? then Poll(c) else 0)
    && p.wrapTop == Poll(c) + One(c.inactiveDelay > 0) + (if c.kind.Contiguous? then 1 else 2)
    && forall pc :: 0 <= pc < |p.code| ==> p.code[pc] == At(c, pc)
  }

  lemma Cs0Laid(c: Config)
    requires c.kind.Contiguous?
    ensures Laid(Serving(c), c)
  {
    if c.byteMode {
      Cs0ByteLaid(c);
    } else {
      Cs0WordLaid(c);
    }
  }

  lemma Cs0WordLaid(c: Config)
    requires c.kind.Contiguous? && !c.byteMode
    ensures Laid(Serving(c), c)
  {
  }

  lemma Cs0ByteLaid(c: Config)
    requires c.kind.Contiguous? && c.byteMode
    ensures Laid(Serving(c), c)
  {
    if c.activeDelay > 0 {
    } else {
    }
  }

  lemma Cs1Laid(c: Config)
    requires c.kind.IgnoringPin?
    ensures Laid(Serving(c), c)
  {
  }

  lemma Cs2Laid(c: Config)
    requires c.kind.Qualified?
    ensures Laid(Serving(c), c)
  {
  }

  lemma ServingLaid(c: Config)
    ensures Laid(Serving(c), c)
  {
    hide Laid, Serving;
    match c.kind
    case Contiguous(_) => Cs0Laid(c);
    case IgnoringPin(_) => Cs1Laid(c);
    case Qualified(_) => Cs2Laid(c);
  }

  /** Every choice of parameters gives a program that fits its memory and never
      jumps or wraps out of it. */
  lemma ServingWellFormed(c: Config)
    requires Sensible(c)
    ensures WellFormed(Serving(c)) && |Serving(c).code| == ServingLength(c)
  {
    hide Serving;
    ServingLaid(c);
  }

  // ---------------------------------------------------------------------
  // What a run shows
  // ---------------------------------------------------------------------

  /** The verdict an instruction reaches about the select lines, if it looks at
      them.  With AlgCs2 a low enable is not yet a verdict: the qualifiers decide. */
  function Verdict(k: Kind, e: Effect): Option<bool> {
    match k
    case Contiguous(low) => if e.Sampled? then Some((e.pins == 0) == low) else None
    case IgnoringPin(mask) => if e.Sampled? then Some(e.pins == 0 || e.pins == mask) else None
    case Qualified(pattern) =>
      if e.Sampled? then Some(e.pins != pattern) else if e == Looked(true) then Some(false) else None
  }

  /** The run so far: which pins are outputs, the last verdict and the look it came
      from, whether the pins were outputs then, the instructions and the cycles since,
      and whether /BYTE was read high in them. */
  datatype Summary =
    Summary(dirs: nat, verdict: bool, look: Effect, driven: bool, age: nat, waited: nat, byteHigh: bool)

  function Summarise(k: Kind, s: Summary, e: Entry): Summary {
    var v := Verdict(k, e.effect);
    if v.Some? then Summary(s.dirs, v.value, e.effect, s.dirs != 0, 1, e.cycles, false)
    else s.(dirs := if e.effect.Drove? then e.effect.mask else s.dirs,
            age := s.age + 1, waited := s.waited + e.cycles,
            byteHigh := s.byteHigh || e.effect == Looked(true))
  }

  function SummaryOf(k: Kind, log: seq<Entry>): Summary {
    if log == [] then Summary(0, false, Quiet, false, 0, 0, false)
    else Summarise(k, SummaryOf(k, log[..|log| - 1]), log[|log| - 1])
  }

  /** Cycles from an active look to the pins becoming outputs. */
  function DriveWait(c: Config, look: Effect): nat {
    match c.kind
    case Contiguous(_) => 2 + c.activeDelay + One(c.byteMode)
    case IgnoringPin(_) => (if look == Sampled(0) then 2 else 3) + c.activeDelay
    case Qualified(_) => 2 + c.activeDelay
  }

  /** Cycles from an inactive look to the pins becoming inputs.  The delay slot lies
      on this path only in AlgCs0, and in AlgCs2 when the qualifiers deselect: in
      AlgCs1, and when the AlgCs2 enable goes high, the jump to the program's first
      instruction passes it by. */
  function ReleaseWait(c: Config, look: Effect): nat {
    match c.kind
    case Contiguous(_) => 2 + c.inactiveDelay
    case IgnoringPin(_) => 3
    case Qualified(_) => if look.Looked? then 1 else 2 + c.inactiveDelay
  }

  /** Cycles from an active look, with the pins outputs already, to the next look.  In
      AlgCs1 the inactive delay lies here, when the ignored pin was high. */
  function PollWait(c: Config, look: Effect, next: Effect): nat {
    match c.kind
    case Contiguous(_) => 2
    case IgnoringPin(_) => if look == Sampled(0) then 2 else 3 + c.inactiveDelay
    case Qualified(_) => if next.Looked? then 2 else 3
  }

  /** What may be said of one instruction, given the run before it. */
  ghost predicate Sound(c: Config, s: Summary, e: Entry) {
    // The pins become outputs only on an active verdict, and inputs only on an inactive one.
    && (e.effect.Drove? ==> (e.effect.mask != 0 <==> s.verdict))
    // All of them, or the low byte alone just when /BYTE was read high.
    && (e.effect.Drove? && e.effect.mask != 0 ==>
          e.effect.mask == if c.byteMode && s.byteHigh then BYTE_LANE else ALL_PINS)
    // A change of direction comes a fixed number of cycles after the look that caused it.
    && (e.effect.Drove? && e.effect.mask != 0 && s.dirs == 0 ==> s.waited == DriveWait(c, s.look))
    && (e.effect.Drove? && e.effect.mask == 0 && s.dirs != 0 ==> s.waited == ReleaseWait(c, s.look))
    // While the chip stays selected it is looked at again a known number of cycles later.
    && (Verdict(c.kind, e.effect).Some? && s.verdict && s.driven ==> s.waited == PollWait(c, s.look, e.effect))
    // At each verdict the directions agree with the one before.
    && (Verdict(c.kind, e.effect).Some? ==> (s.dirs != 0 <==> s.verdict))
    // The pins are inputs at the latest three instructions after an inactive look,
    && (!s.verdict && s.age >= 4 ==> s.dirs == 0)
    // outputs at the latest four after an active one,
    && (s.verdict && s.age >= 5 ==> s.dirs != 0)
    // and the selects are looked at again after at most five more instructions.
    && s.age <= 6
  }

  // ---------------------------------------------------------------------
  // Where each program stands
  // ---------------------------------------------------------------------

  ghost predicate Cs0Inv(c: Config, r: Regs, s: Summary)
    requires c.kind.Contiguous?
  {
    var (a, b, z) := (One(c.activeDelay > 0), One(c.byteMode), One(c.inactiveDelay > 0));
    var poll := 4 + a + b;
    var seen := s.age == 1 && s.waited == 1 && !s.byteHigh && s.verdict == ((r.x == 0) == c.kind.activeLow)
                && s.driven == (s.dirs != 0);
    && (c.byteMode ==> r.y == BYTE_LANE)
    && (if r.pc == 0 then !s.verdict && s.age <= 3 && (s.dirs != 0 ==> s.waited == 2 + c.inactiveDelay)
        else if r.pc == 1 then !s.verdict && s.dirs == 0 && s.age <= 4
        else if r.pc == 2 then s.dirs == 0 && seen
        else if r.pc < 3 + a then s.verdict && s.dirs == 0 && !s.driven && s.age == 2 && s.waited == 2 && !s.byteHigh
        else if r.pc <= 3 + a + b then
          s.verdict && s.dirs == 0 && !s.driven && !s.byteHigh && s.age == r.pc - 1
          && s.waited == 2 + c.activeDelay + (r.pc - 3 - a)
        else if r.pc == poll then s.verdict && s.dirs != 0 && s.age <= 6 && (s.driven ==> s.waited == 2)
        else if r.pc == poll + 1 then s.dirs != 0 && seen
        else if r.pc < poll + 2 + z then !s.verdict && s.dirs != 0 && s.age == 2 && s.waited == 2
        else if r.pc == poll + 2 + z then
          c.byteMode && s.verdict && s.dirs == 0 && !s.driven && s.age == 3 + a && s.waited == 3 + c.activeDelay
          && s.byteHigh
        else s.verdict && s.dirs != 0 && !s.driven && s.age <= 5)
  }

  ghost predicate Cs1Inv(c: Config, r: Regs, s: Summary)
    requires c.kind.IgnoringPin?
  {
    var a := One(c.activeDelay > 0);
    var seen := s.look == Sampled(r.x) && s.verdict == (r.x == 0 || r.x == r.y) && s.driven == (s.dirs != 0);
    var wait := (if s.look == Sampled(0) then 2 else 3);
    && r.y == c.kind.mask
    && (if r.pc == 0 then !s.verdict && s.age <= 3 && (s.dirs != 0 ==> s.waited == 3)
        else if r.pc == 1 then !s.verdict && s.dirs == 0 && s.age <= 4
        else if r.pc <= 3 then
          s.dirs == 0 && seen && s.age == s.waited == r.pc - 1 && (r.pc == 3 ==> r.x != 0)
        else if r.pc < 4 + a then s.verdict && s.dirs == 0 && !s.driven && s.age == s.waited == wait
        else if r.pc == 4 + a then
          s.verdict && s.dirs == 0 && !s.driven && s.age <= 4 && s.waited == wait + c.activeDelay
        else if r.pc == 5 + a then
          s.verdict && s.dirs != 0 && s.age <= 6 && (s.driven ==> s.waited == PollWait(c, s.look, Quiet))
        else if r.pc <= 7 + a then
          s.dirs != 0 && seen && s.age == s.waited == r.pc - 5 - a && (r.pc == 7 + a ==> r.x != 0)
        else s.verdict && s.dirs != 0 && s.driven && s.look.Sampled? && s.look.pins != 0 && s.age == s.waited == 3)
  }

  ghost predicate Cs2Inv(c: Config, r: Regs, s: Summary)
    requires c.kind.Qualified?
  {
    var a := One(c.activeDelay > 0);
    var seen := s.look == Sampled(r.x) && s.verdict == (r.x != r.y) && s.age == s.waited == 1
                && s.driven == (s.dirs != 0);
    && r.y == c.kind.pattern
    && (if r.pc == 0 then !s.verdict && s.age <= 3 && (s.dirs != 0 ==> s.waited == ReleaseWait(c, s.look))
        else if r.pc == 1 then !s.verdict && s.dirs == 0 && s.age <= 4
        else if r.pc == 2 then !s.verdict && s.dirs == 0 && s.age <= 5
        else if r.pc == 3 then s.dirs == 0 && seen
        else if r.pc == 4 then !s.verdict && s.dirs == 0 && s.age == 2
        else if r.pc < 5 + a then s.verdict && s.dirs == 0 && !s.driven && s.age == s.waited == 2
        else if r.pc == 5 + a then s.verdict && s.dirs == 0 && !s.driven && s.age <= 3 && s.waited == 2 + c.activeDelay
        else if r.pc == 6 + a then s.verdict && s.dirs != 0 && s.age <= 4 && (s.driven ==> s.waited == 2)
        else if r.pc == 7 + a then s.verdict && s.dirs != 0 && s.age <= 5 && (s.driven ==> s.waited == 3)
        else if r.pc == 8 + a then s.dirs != 0 && seen
        else !s.verdict && s.dirs != 0 && s.look.Sampled? && s.age == s.waited == 2)
  }

  ghost predicate Stands(c: Config, r: Regs, s: Summary) {
    match c.kind
    case Contiguous(_) => Cs0Inv(c, r, s)
    case IgnoringPin(_) => Cs1Inv(c, r, s)
    case Qualified(_) => Cs2Inv(c, r, s)
  }

  ghost predicate Fetched(p: Program, c: Config, pc: nat) {
    && Inside(p, pc) && pc < ServingLength(c) && p.start == 0 && p.code[pc] == At(c, pc)
    && Next(p, pc) == (if pc == Poll(c) + One(c.inactiveDelay > 0) + (if c.kind.Contiguous? then 1 else 2)
                       then (if c.kind.IgnoringPin? then Poll(c) else 0) else pc + 1)
  }

  lemma Cs0WaitStep(c: Config, p: Program, r: Regs, inp: Inputs, s: Summary)
    requires c.kind.Contiguous? && Fetched(p, c, r.pc) && Cs0Inv(c, r, s) && r.pc <= 2
    ensures var (r', e) := Step(p, r, inp);
      Sound(c, s, e) && Cs0Inv(c, r', Summarise(c.kind, s, e))
  {
  }

  lemma Cs0DriveStep(c: Config, p: Program, r: Regs, inp: Inputs, s: Summary)
    requires c.kind.Contiguous? && Fetched(p, c, r.pc) && Cs0Inv(c, r, s) && 2 < r.pc < Poll(c)
    ensures var (r', e) := Step(p, r, inp);
      Sound(c, s, e) && Cs0Inv(c, r', Summarise(c.kind, s, e))
  {
  }

  lemma Cs0PollStep(c: Config, p: Program, r: Regs, inp: Inputs, s: Summary)
    requires c.kind.Contiguous? && Fetched(p, c, r.pc) && Cs0Inv(c, r, s) && Poll(c) <= r.pc <= Poll(c) + 1
    ensures var (r', e) := Step(p, r, inp);
      Sound(c, s, e) && Cs0Inv(c, r', Summarise(c.kind, s, e))
  {
  }

  lemma Cs0ReleaseStep(c: Config, p: Program, r: Regs, inp: Inputs, s: Summary)
    requires c.kind.Contiguous? && Fetched(p, c, r.pc) && Cs0Inv(c, r, s) && r.pc > Poll(c) + 1
    ensures var (r', e) := Step(p, r, inp);
      Sound(c, s, e) && Cs0Inv(c, r', Summarise(c.kind, s, e))
  {
  }

  lemma Cs1AcquireStep(c: Config, p: Program, r: Regs, inp: Inputs, s: Summary)
    requires c.kind.IgnoringPin? && !c.byteMode && Fetched(p, c, r.pc) && Cs1Inv(c, r, s) && r.pc < Poll(c)
    ensures var (r', e) := Step(p, r, inp);
      Sound(c, s, e) && Cs1Inv(c, r', Summarise(c.kind, s, e))
  {
  }

  lemma Cs1PollStep(c: Config, p: Program, r: Regs, inp: Inputs, s: Summary)
    requires c.kind.IgnoringPin? && !c.byteMode && Fetched(p, c, r.pc) && Cs1Inv(c, r, s) && r.pc >= Poll(c)
    ensures var (r', e) := Step(p, r, inp);
      Sound(c, s, e) && Cs1Inv(c, r', Summarise(c.kind, s, e))
  {
  }

  lemma Cs2AcquireStep(c: Config, p: Program, r: Regs, inp: Inputs, s: Summary)
    requires c.kind.Qualified? && !c.byteMode && Fetched(p, c, r.pc) && Cs2Inv(c, r, s) && r.pc < Poll(c)
    ensures var (r', e) := Step(p, r, inp);
      Sound(c, s, e) && Cs2Inv(c, r', Summarise(c.kind, s, e))
  {
  }

  lemma Cs2PollStep(c: Config, p: Program, r: Regs, inp: Inputs, s: Summary)
    requires c.kind.Qualified? && !c.byteMode && Fetched(p, c, r.pc) && Cs2Inv(c, r, s) && r.pc >= Poll(c)
    ensures var (r', e) := Step(p, r, inp);
      Sound(c, s, e) && Cs2Inv(c, r', Summarise(c.kind, s, e))
  {
  }

  lemma OneStep(c: Config, p: Program, r: Regs, inp: Inputs, s: Summary)
    requires Sensible(c) && Laid(p, c) && Inside(p, r.pc) && Stands(c, r, s)
    ensures var (r', e) := Step(p, r, inp);
      Sound(c, s, e) && Stands(c, r', Summarise(c.kind, s, e))
  {
    hide Sound, Step, Summarise, Cs0Inv, Cs1Inv, Cs2Inv, At;
    assert Fetched(p, c, r.pc);
    match c.kind
    case Contiguous(_) =>
      if r.pc <= 2 {
        Cs0WaitStep(c, p, r, inp, s);
      } else if r.pc < Poll(c) {
        Cs0DriveStep(c, p, r, inp, s);
      } else if r.pc <= Poll(c) + 1 {
        Cs0PollStep(c, p, r, inp, s);
      } else {
        Cs0ReleaseStep(c, p, r, inp, s);
      }
    case IgnoringPin(_) =>
      if r.pc < Poll(c) {
        Cs1AcquireStep(c, p, r, inp, s);
      } else {
        Cs1PollStep(c, p, r, inp, s);
      }
    case Qualified(_) =>
      if r.pc < Poll(c) {
        Cs2AcquireStep(c, p, r, inp, s);
      } else {
        Cs2PollStep(c, p, r, inp, s);
      }
  }

  lemma {:induction false} ServingStands(c: Config, x: nat, env: nat -> Inputs, n: nat)
    requires Sensible(c) && WellFormed(Serving(c)) && Inside(Serving(c), 0)
    ensures var (r, log) := Run(Serving(c), Start(Serving(c), x, PreloadY(c)), env, n);
      Stands(c, r, SummaryOf(c.kind, log))
  {
    hide Laid, Sound, Step, Serving, WellFormed;
    ServingLaid(c);
    var p := Serving(c);
    if n == 0 {
      StandsAtStart(c, x);
    } else {
      ServingStands(c, x, env, n - 1);
      var (r, log) := Run(p, Start(p, x, PreloadY(c)), env, n - 1);
      OneStep(c, p, r, env(n - 1), SummaryOf(c.kind, log));
      var e := Step(p, r, env(n - 1)).1;
      assert (log + [e])[..|log|] == log;
    }
  }

  lemma StandsAtStart(c: Config, x: nat)
    ensures Serving(c).start == 0
    ensures Stands(c, Start(Serving(c), x, PreloadY(c)), SummaryOf(c.kind, []))
  {
  }

  /** Every instruction of every run is sound, whatever the pins do. */
  lemma ServingSound(c: Config, x: nat, env: nat -> Inputs, n: nat)
    requires Sensible(c)
    ensures WellFormed(Serving(c)) && Serving(c).start == 0
    ensures var (r, log) := Run(Serving(c), Start(Serving(c), x, PreloadY(c)), env, n);
      Sound(c, SummaryOf(c.kind, log), Step(Serving(c), r, env(n)).1)
  {
    hide Laid, Sound, Step, Serving, Run, SummaryOf, Stands;
    ServingWellFormed(c);
    ServingLaid(c);
    StandsAtStart(c, x);
    InsideAtStart(c);
    ServingStands(c, x, env, n);
    var (r, log) := Run(Serving(c), Start(Serving(c), x, PreloadY(c)), env, n);
    OneStep(c, Serving(c), r, env(n), SummaryOf(c.kind, log));
  }

  lemma InsideAtStart(c: Config)
    requires WellFormed(Serving(c)) && Serving(c).start == 0
    ensures Inside(Serving(c), 0)
  {
  }
}
