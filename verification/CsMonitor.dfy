/** The chip-select monitor programs (OneROM/firmware/src/piodma/pioplugin.c).

Each is generated at boot into the space the serving programs leave.  An access
is reported by one IRQ, and only once the select has held for a run of samples;
the next one waits for a confirmed release. */
module CsMonitor {
  import opened Wrappers
  import opened Pio

  // ---------------------------------------------------------------------
  // What a debounced select is, on samples alone
  // ---------------------------------------------------------------------

  predicate LastAll(h: seq<bool>, k: nat, v: bool) {
    k <= |h| && forall i :: |h| - k <= i < |h| ==> h[i] == v
  }

  /** Asserted by a run of `on` active samples, released by a run of `off`
      inactive ones, and otherwise unchanged. */
  predicate Selected(h: seq<bool>, on: nat, off: nat) {
    if h == [] then false
    else if LastAll(h, on, true) then true
    else if LastAll(h, off, false) then false
    else Selected(h[..|h| - 1], on, off)
  }

  datatype Event = Sample(active: bool) | Irq

  /** One IRQ for each sample at which the select becomes asserted. */
  function Reported(h: seq<bool>, on: nat, off: nat): seq<Event> {
    if h == [] then []
    else
      var prev := h[..|h| - 1];
      Reported(prev, on, off) + [Sample(h[|h| - 1])]
        + if Selected(h, on, off) && !Selected(prev, on, off) then [Irq] else []
  }

  /** Which samples count as active. */
  datatype Polarity = WhenZero | WhenNonZero | Ignoring(mask: nat)

  predicate Active(pol: Polarity, pins: nat) {
    match pol
    case WhenZero => pins == 0
    case WhenNonZero => pins != 0
    case Ignoring(mask) => pins == 0 || pins == mask
  }

  /** What one executed instruction adds to the samples, and to what is seen from outside. */
  function NewSamples(pol: Polarity, e: Effect): seq<bool> {
    if e.Sampled? then [Active(pol, e.pins)] else []
  }

  function NewEvents(pol: Polarity, e: Effect): seq<Event> {
    if e.Sampled? then [Sample(Active(pol, e.pins))] else if e.RaisedIrq? then [Irq] else []
  }

  function Samples(pol: Polarity, log: seq<Entry>): seq<bool> {
    if log == [] then []
    else Samples(pol, log[..|log| - 1]) + NewSamples(pol, log[|log| - 1].effect)
  }

  function Events(pol: Polarity, log: seq<Entry>): seq<Event> {
    if log == [] then []
    else Events(pol, log[..|log| - 1]) + NewEvents(pol, log[|log| - 1].effect)
  }

  // Runs of equal samples, the form in which the programs keep count.

  function Trail(h: seq<bool>, v: bool): (t: nat)
    ensures t <= |h|
  {
    if h == [] || h[|h| - 1] != v then 0 else 1 + Trail(h[..|h| - 1], v)
  }

  lemma {:induction false} TrailIsRun(h: seq<bool>, k: nat, v: bool)
    ensures LastAll(h, k, v) <==> Trail(h, v) >= k
  {
    if h != [] && k != 0 {
      var n := |h| - 1;
      TrailIsRun(h[..n], k - 1, v);
      assert k <= |h| ==> (LastAll(h, k, v) <==> h[n] == v && forall i :: |h| - k <= i < n ==> h[..n][i] == v);
    }
  }

  /** One more sample. */
  lemma Grow(h: seq<bool>, b: bool, on: nat, off: nat)
    requires on >= 1 && off >= 1
    ensures var g := h + [b];
      && Trail(g, b) == Trail(h, b) + 1 && Trail(g, !b) == 0
      && Selected(g, on, off) == (if b then Trail(g, true) >= on || Selected(h, on, off)
                                       else Trail(g, false) < off && Selected(h, on, off))
      && Reported(g, on, off) == Reported(h, on, off) + [Sample(b)]
           + if Selected(g, on, off) && !Selected(h, on, off) then [Irq] else []
  {
    var g := h + [b];
    assert g[..|g| - 1] == h;
    TrailIsRun(g, on, true);
    TrailIsRun(g, off, false);
  }

  /** Sample i is one that gets an IRQ. */
  predicate Rises(h: seq<bool>, i: nat, on: nat, off: nat)
    requires i < |h|
  {
    Selected(h[..i + 1], on, off) && !Selected(h[..i], on, off)
  }

  /** An IRQ is preceded by `on` active samples in a row, and any two are separated
      by `off` inactive ones. */
  lemma {:induction false} IrqNeedsRun(h: seq<bool>, on: nat, off: nat, i: nat)
    requires on >= 1 && off >= 1 && i < |h| && Rises(h, i, on, off)
    ensures LastAll(h[..i + 1], on, true)
    ensures forall j: nat :: j < i && Rises(h, j, on, off) ==>
              exists m :: j + 1 < m <= i && LastAll(h[..m], off, false)
  {
    assert h[..i + 1][..i] == h[..i];
    forall j: nat | j < i && Rises(h, j, on, off)
      ensures exists m :: j + 1 < m <= i && LastAll(h[..m], off, false)
    {
      ReleasedBetween(h, on, off, j + 1, i);
    }
  }

  lemma {:induction false} ReleasedBetween(h: seq<bool>, on: nat, off: nat, j: nat, i: nat)
    requires on >= 1 && off >= 1 && j <= i <= |h|
    requires Selected(h[..j], on, off) && !Selected(h[..i], on, off)
    ensures exists m :: j < m <= i && LastAll(h[..m], off, false)
    decreases i - j
  {
    if !LastAll(h[..i], off, false) {
      assert h[..i][..i - 1] == h[..i - 1];
      ReleasedBetween(h, on, off, j, i - 1);
    }
  }

  /** ... and conversely a run of `on` active samples on a released select gets one. */
  lemma RunGetsIrq(h: seq<bool>, on: nat, off: nat, i: nat)
    requires on >= 1 && i < |h| && LastAll(h[..i + 1], on, true) && !Selected(h[..i], on, off)
    ensures Rises(h, i, on, off)
  {
  }

  /** The monitor's promise after any number of instructions: its IRQs are exactly
      the ones the samples call for, the last of them perhaps still to come, with
      no sample taken before it. */
  ghost predicate Debounced(pol: Polarity, on: nat, off: nat, log: seq<Entry>) {
    var report := Reported(Samples(pol, log), on, off);
    Events(pol, log) == report || Events(pol, log) + [Irq] == report
  }

  /** The little of a history that a program's next step depends on: the verdict,
      the run of samples going, and whether an IRQ is owed for it. */
  datatype View = View(selected: bool, active: nat, inactive: nat, owed: bool)

  function Observe(v: View, on: nat, off: nat, b: bool): View {
    var active := if b then v.active + 1 else 0;
    var inactive := if b then 0 else v.inactive + 1;
    var selected := if b then active >= on || v.selected else inactive < off && v.selected;
    View(selected, active, inactive, selected && !v.selected)
  }

  function Update(v: View, pol: Polarity, on: nat, off: nat, e: Effect): View {
    if e.Sampled? then Observe(v, on, off, Active(pol, e.pins))
    else if e.RaisedIrq? then v.(owed := false)
    else v
  }

  ghost predicate Shows(v: View, on: nat, off: nat, h: seq<bool>, ev: seq<Event>) {
    && v.selected == Selected(h, on, off)
    && v.active == Trail(h, true) && v.inactive == Trail(h, false)
    && Reported(h, on, off) == ev + if v.owed then [Irq] else []
  }

  /** A step that samples only when nothing is owed, and raises the IRQ only when
      one is, keeps the view true. */
  lemma ShowsNext(v: View, pol: Polarity, on: nat, off: nat, h: seq<bool>, ev: seq<Event>, e: Effect)
    requires on >= 1 && off >= 1 && Shows(v, on, off, h, ev)
    requires e.Sampled? ==> !v.owed
    requires e.RaisedIrq? ==> v.owed
    ensures Shows(Update(v, pol, on, off, e), on, off, h + NewSamples(pol, e), ev + NewEvents(pol, e))
  {
    hide Selected, Reported, Trail;
    assert h + [] == h && ev + [] == ev;
    if e.Sampled? {
      Grow(h, Active(pol, e.pins), on, off);
    }
  }

  function ViewOf(pol: Polarity, on: nat, off: nat, log: seq<Entry>): View {
    if log == [] then View(false, 0, 0, false)
    else Update(ViewOf(pol, on, off, log[..|log| - 1]), pol, on, off, log[|log| - 1].effect)
  }

  lemma ViewGrows(pol: Polarity, on: nat, off: nat, log: seq<Entry>, e: Entry)
    requires on >= 1 && off >= 1
    requires Shows(ViewOf(pol, on, off, log), on, off, Samples(pol, log), Events(pol, log))
    requires e.effect.Sampled? ==> !ViewOf(pol, on, off, log).owed
    requires e.effect.RaisedIrq? ==> ViewOf(pol, on, off, log).owed
    ensures ViewOf(pol, on, off, log + [e]) == Update(ViewOf(pol, on, off, log), pol, on, off, e.effect)
    ensures Shows(ViewOf(pol, on, off, log + [e]), on, off, Samples(pol, log + [e]), Events(pol, log + [e]))
  {
    assert (log + [e])[..|log|] == log;
    ShowsNext(ViewOf(pol, on, off, log), pol, on, off, Samples(pol, log), Events(pol, log), e.effect);
  }

  // ---------------------------------------------------------------------
  // AlgCs0: contiguous selects
  // ---------------------------------------------------------------------

  const CS_SAMPLES: nat := 3

  function Cs0Monitor(start: nat, activeLow: bool): Program {
    var inactive := if activeLow then XDec else NotX;
    var active := if activeLow then NotX else XDec;
    Program(start,
            [ Instr(SetY(CS_SAMPLES - 1), 0),         // cs_inactive
              Instr(MovXPins, 0),                     // cs_arming
              Instr(Jmp(inactive, start), 0),
              Instr(Jmp(YDec, start + 1), 0),
              Instr(IrqSet, 0),
              Instr(SetY(CS_SAMPLES - 1), 0),         // cs_active
              Instr(MovXPins, 0),                     // cs_releasing
              Instr(Jmp(active, start + 5), 0),
              Instr(Jmp(YDec, start + 6), 0) ],
            start, start + 8)
  }

  method EmitCs0Monitor(a: Assembler, serveCsLow0: nat)
    requires a.code == []
    modifies a
    ensures a.Built() == Cs0Monitor(a.start, serveCsLow0 == 0)
  {
    a.WrapBottom();
    var csInactive := a.Label();
    a.Add(SetY(CS_SAMPLES - 1));
    var csArming := a.Label();
    a.Add(MovXPins);
    if serveCsLow0 == 0 {
      a.Add(Jmp(XDec, csInactive));
    } else {
      a.Add(Jmp(NotX, csInactive));
    }
    a.Add(Jmp(YDec, csArming));
    EmitCs0Releasing(a, serveCsLow0);
  }

  method EmitCs0Releasing(a: Assembler, serveCsLow0: nat)
    modifies a
    ensures var here := a.start + |old(a.code)|;
      && a.wrapBottom == old(a.wrapBottom) && a.wrapTop == here + 4
      && a.code == old(a.code)
           + [ Instr(IrqSet, 0), Instr(SetY(CS_SAMPLES - 1), 0), Instr(MovXPins, 0),
               Instr(Jmp(if serveCsLow0 == 0 then NotX else XDec, here + 1), 0), Instr(Jmp(YDec, here + 2), 0) ]
  {
    a.Add(IrqSet);
    var csActive := a.Label();
    a.Add(SetY(CS_SAMPLES - 1));
    var csReleasing := a.Label();
    a.Add(MovXPins);
    if serveCsLow0 == 0 {
      a.Add(Jmp(NotX, csActive));
    } else {
      a.Add(Jmp(XDec, csActive));
    }
    a.WrapTop();
    a.Add(Jmp(YDec, csReleasing));
  }

  /** Where the program stands, in terms of the samples so far. */
  ghost predicate Cs0Inv(start: nat, pol: Polarity, r: Regs, v: View) {
    match r.pc - start
    case 0 => !v.selected && v.active == 0 && !v.owed
    case 1 => !v.selected && v.active <= 2 && r.y == 2 - v.active && !v.owed
    case 2 => if Active(pol, r.x)
              then 1 <= v.active <= 3 && r.y == 3 - v.active && v.selected == v.owed == (v.active == 3)
              else !v.selected && v.active == 0 && !v.owed
    case 3 => 1 <= v.active <= 3 && r.y == 3 - v.active && v.selected == v.owed == (v.active == 3)
    case 4 => v.selected && v.inactive == 0 && v.owed
    case 5 => v.selected && v.inactive == 0 && !v.owed
    case 6 => v.selected && v.inactive <= 2 && r.y == 2 - v.inactive && !v.owed
    case 7 => if Active(pol, r.x) then v.selected && v.inactive == 0 && !v.owed
              else 1 <= v.inactive <= 3 && v.active == 0 && r.y == 3 - v.inactive
                   && v.selected == (v.inactive != 3) && !v.owed
    case 8 =>
      1 <= v.inactive <= 3 && v.active == 0 && r.y == 3 - v.inactive && v.selected == (v.inactive != 3) && !v.owed
    case _ => false
  }

  function Cs0Polarity(activeLow: bool): Polarity {
    if activeLow then WhenZero else WhenNonZero
  }

  lemma Cs0Step(start: nat, activeLow: bool, r: Regs, inp: Inputs, v: View)
    requires Inside(Cs0Monitor(start, activeLow), r.pc)
    requires Cs0Inv(start, Cs0Polarity(activeLow), r, v) && (v.inactive == 0 || v.active == 0)
    ensures var pol, (r', e) := Cs0Polarity(activeLow), Step(Cs0Monitor(start, activeLow), r, inp);
      && (e.effect.Sampled? ==> !v.owed) && (e.effect.RaisedIrq? ==> v.owed)
      && Cs0Inv(start, pol, r', Update(v, pol, 3, 3, e.effect))
  {
    hide Cs0Monitor;
    Cs0Fetch(start, activeLow, r.pc);
  }

  function Cs0Op(start: nat, activeLow: bool, i: nat): Op {
    if i == 0 || i == 5 then SetY(2)
    else if i == 1 || i == 6 then MovXPins
    else if i == 2 then Jmp(if activeLow then XDec else NotX, start)
    else if i == 3 then Jmp(YDec, start + 1)
    else if i == 4 then IrqSet
    else if i == 7 then Jmp(if activeLow then NotX else XDec, start + 5)
    else Jmp(YDec, start + 6)
  }

  lemma Cs0Fetch(start: nat, activeLow: bool, pc: nat)
    requires Inside(Cs0Monitor(start, activeLow), pc)
    ensures var p := Cs0Monitor(start, activeLow);
      && p.start == start && |p.code| == 9 && p.wrapBottom == start && p.wrapTop == start + 8
      && p.code[pc - start].op == Cs0Op(start, activeLow, pc - start)
  {
  }

  lemma {:induction false} Cs0Run(start: nat, activeLow: bool, x: nat, y: nat, env: nat -> Inputs, n: nat)
    requires start + 9 <= MAX_INSTRS
    ensures var p, pol := Cs0Monitor(start, activeLow), Cs0Polarity(activeLow);
      WellFormed(p) &&
      var (r, log) := Run(p, Start(p, x, y), env, n);
      var v := ViewOf(pol, 3, 3, log);
      Cs0Inv(start, pol, r, v) && Shows(v, 3, 3, Samples(pol, log), Events(pol, log))
  {
    hide Selected, Reported, Trail;
    var p, pol := Cs0Monitor(start, activeLow), Cs0Polarity(activeLow);
    assert WellFormed(p);
    if n == 0 {
      EmptyShows(3, 3);
    } else {
      Cs0Run(start, activeLow, x, y, env, n - 1);
      var (r, log) := Run(p, Start(p, x, y), env, n - 1);
      TrailsExclusive(Samples(pol, log));
      Cs0Step(start, activeLow, r, env(n - 1), ViewOf(pol, 3, 3, log));
      ViewGrows(pol, 3, 3, log, Step(p, r, env(n - 1)).1);
    }
  }

  lemma EmptyShows(on: nat, off: nat)
    ensures Shows(View(false, 0, 0, false), on, off, [], [])
  {
  }

  /** At most one of the two runs is going. */
  lemma TrailsExclusive(h: seq<bool>)
    ensures Trail(h, true) == 0 || Trail(h, false) == 0
  {
  }

  /** AlgCs0 debounces with three samples each way, on every trace of the pins. */
  lemma Cs0Debounces(start: nat, activeLow: bool, x: nat, y: nat, env: nat -> Inputs, n: nat)
    requires start + 9 <= MAX_INSTRS
    ensures var p := Cs0Monitor(start, activeLow);
      WellFormed(p) && Debounced(Cs0Polarity(activeLow), 3, 3, Run(p, Start(p, x, y), env, n).1)
  {
    hide Selected, Reported, Trail, Events, Samples, Run, ViewOf, Cs0Inv;
    Cs0Run(start, activeLow, x, y, env, n);
    var log := Run(Cs0Monitor(start, activeLow), Start(Cs0Monitor(start, activeLow), x, y), env, n).1;
    assert Events(Cs0Polarity(activeLow), log) + [] == Events(Cs0Polarity(activeLow), log);
  }

  // ---------------------------------------------------------------------
  // AlgCs1: selects with one pin ignored, whose mask is preloaded into Y
  // ---------------------------------------------------------------------

  function Cs1Monitor(start: nat): Program {
    Program(start,
            [ Instr(MovXPins, 0),                     // cs_inactive
              Instr(Jmp(NotX, start + 3), 0),
              Instr(Jmp(XNotY, start), 0),
              Instr(MovXPins, 0),                     // check2
              Instr(Jmp(NotX, start + 6), 0),
              Instr(Jmp(XNotY, start), 0),
              Instr(MovXPins, 0),                     // check3
              Instr(Jmp(NotX, start + 9), 0),
              Instr(Jmp(XNotY, start), 0),
              Instr(MovXPins, 0),                     // check4
              Instr(Jmp(NotX, start + 12), 0),
              Instr(Jmp(XNotY, start), 0),
              Instr(IrqSet, 0),                       // cs_active
              Instr(MovXPins, 0),                     // test_if_inactive
              Instr(Jmp(NotX, start + 13), 0),
              Instr(Jmp(XNotY, start + 17), 0),
              Instr(Jmp(Always, start + 13), 0),
              Instr(MovXPins, 0),                     // releasing
              Instr(Jmp(NotX, start + 13), 0),
              Instr(Jmp(XNotY, start), 0) ],
            start + 13, start + 19)
  }

  method EmitCs1Monitor(a: Assembler)
    requires a.code == []
    modifies a
    ensures a.Built() == Cs1Monitor(a.start)
  {
    var csInactive := a.Label();
    EmitCs1Check(a, csInactive);
    EmitCs1Check(a, csInactive);
    EmitCs1Check(a, csInactive);
    EmitCs1Check(a, csInactive);
    a.Add(IrqSet);
    EmitCs1Release(a, csInactive);
  }

  /** Two looks to release, the second confirming the first. */
  method EmitCs1Release(a: Assembler, csInactive: nat)
    modifies a
    ensures var here := a.start + |old(a.code)|;
      && a.wrapBottom == here && a.wrapTop == here + 6
      && a.code == old(a.code) + [Instr(MovXPins, 0), Instr(Jmp(NotX, here), 0), Instr(Jmp(XNotY, here + 4), 0),
           Instr(Jmp(Always, here), 0), Instr(MovXPins, 0), Instr(Jmp(NotX, here), 0), Instr(Jmp(XNotY, csInactive), 0)]
  {
    a.WrapBottom();
    var testIfInactive := a.Label();
    a.Add(MovXPins);
    a.Add(Jmp(NotX, testIfInactive));
    var releasing := a.Label() + 2;
    a.Add(Jmp(XNotY, releasing));
    a.Add(Jmp(Always, testIfInactive));
    a.Add(MovXPins);
    a.Add(Jmp(NotX, testIfInactive));
    a.WrapTop();
    a.Add(Jmp(XNotY, csInactive));
  }

  /** One of the four arming samples: on past the check when active, back to the start when not. */
  method EmitCs1Check(a: Assembler, csInactive: nat)
    modifies a
    ensures var next := a.start + |old(a.code)| + 3;
      a.code == old(a.code) + [Instr(MovXPins, 0), Instr(Jmp(NotX, next), 0), Instr(Jmp(XNotY, csInactive), 0)]
    ensures a.wrapBottom == old(a.wrapBottom) && a.wrapTop == old(a.wrapTop)
  {
    a.Add(MovXPins);
    var check := a.Label() + 2;
    a.Add(Jmp(NotX, check));
    a.Add(Jmp(XNotY, csInactive));
  }

  ghost predicate Cs1Inv(start: nat, mask: nat, r: Regs, v: View) {
    var pc := r.pc - start;
    var k := pc / 3;
    var active := r.x == 0 || r.x == mask;
    var armed := v.active == k + 1 && v.selected == v.owed == (k == 3);
    var idle := !v.selected && v.active == 0 && !v.owed;
    && r.y == mask
    && if 0 <= pc < 12 then
         if pc % 3 == 0 then !v.selected && v.active == k && !v.owed
         else (pc % 3 == 2 ==> r.x != 0) && (if active then armed else idle)
       else if pc == 12 then v.selected && v.inactive == 0 && v.owed
       else
         && !v.owed
         && match pc
            case 13 => v.selected && v.inactive == 0
            case 14 => v.selected && v.inactive == (if active then 0 else 1)
            case 15 => r.x != 0 && v.selected && v.inactive == (if active then 0 else 1)
            case 16 => v.selected && v.inactive == 0
            case 17 => v.selected && v.inactive == 1
            case 18 => if active then v.selected && v.inactive == 0 else !v.selected && v.active == 0
            case 19 => r.x != 0 && if active then v.selected && v.inactive == 0 else !v.selected && v.active == 0
            case _ => false
  }

  lemma Cs1Step(start: nat, mask: nat, r: Regs, inp: Inputs, v: View)
    requires Inside(Cs1Monitor(start), r.pc)
    requires Cs1Inv(start, mask, r, v) && (v.inactive == 0 || v.active == 0)
    ensures var pol, (r', e) := Ignoring(mask), Step(Cs1Monitor(start), r, inp);
      && (e.effect.Sampled? ==> !v.owed) && (e.effect.RaisedIrq? ==> v.owed)
      && Cs1Inv(start, mask, r', Update(v, pol, 4, 2, e.effect))
  {
    hide Cs1Monitor;
    Cs1Fetch(start, r.pc);
  }

  function Cs1Op(start: nat, i: nat): Op {
    if i < 12 then
      if i % 3 == 0 then MovXPins else if i % 3 == 1 then Jmp(NotX, start + i + 2) else Jmp(XNotY, start)
    else if i == 12 then IrqSet
    else if i == 13 || i == 17 then MovXPins
    else if i == 14 || i == 18 then Jmp(NotX, start + 13)
    else if i == 15 then Jmp(XNotY, start + 17)
    else if i == 16 then Jmp(Always, start + 13)
    else Jmp(XNotY, start)
  }

  lemma Cs1Fetch(start: nat, pc: nat)
    requires Inside(Cs1Monitor(start), pc)
    ensures var p := Cs1Monitor(start);
      && p.start == start && |p.code| == 20 && p.wrapBottom == start + 13 && p.wrapTop == start + 19
      && p.code[pc - start].op == Cs1Op(start, pc - start)
  {
    hide Cs1Op;
    if pc - start < 12 {
      Cs1FetchAssert(start, pc);
    } else {
      Cs1FetchRelease(start, pc);
    }
  }

  lemma Cs1FetchAssert(start: nat, pc: nat)
    requires start <= pc < start + 12
    ensures Cs1Monitor(start).code[pc - start].op == Cs1Op(start, pc - start)
  {
  }

  lemma Cs1FetchRelease(start: nat, pc: nat)
    requires start + 12 <= pc < start + 20
    ensures Cs1Monitor(start).code[pc - start].op == Cs1Op(start, pc - start)
  {
  }

  lemma {:induction false} Cs1Run(start: nat, mask: nat, x: nat, env: nat -> Inputs, n: nat)
    requires start + 20 <= MAX_INSTRS
    ensures var p, pol := Cs1Monitor(start), Ignoring(mask);
      WellFormed(p) &&
      var (r, log) := Run(p, Start(p, x, mask), env, n);
      var v := ViewOf(pol, 4, 2, log);
      Cs1Inv(start, mask, r, v) && Shows(v, 4, 2, Samples(pol, log), Events(pol, log))
  {
    hide Selected, Reported, Trail;
    var p, pol := Cs1Monitor(start), Ignoring(mask);
    assert WellFormed(p);
    if n == 0 {
      EmptyShows(4, 2);
    } else {
      Cs1Run(start, mask, x, env, n - 1);
      var (r, log) := Run(p, Start(p, x, mask), env, n - 1);
      TrailsExclusive(Samples(pol, log));
      Cs1Step(start, mask, r, env(n - 1), ViewOf(pol, 4, 2, log));
      ViewGrows(pol, 4, 2, log, Step(p, r, env(n - 1)).1);
    }
  }

  /** AlgCs1 debounces with four samples to assert and two to release, an active
      sample being one with no select high or only the ignored pin high. */
  lemma Cs1Debounces(start: nat, mask: nat, x: nat, env: nat -> Inputs, n: nat)
    requires start + 20 <= MAX_INSTRS
    ensures var p := Cs1Monitor(start);
      WellFormed(p) && Debounced(Ignoring(mask), 4, 2, Run(p, Start(p, x, mask), env, n).1)
  {
    hide Selected, Reported, Trail, Events, Samples, Run, ViewOf, Cs1Inv;
    Cs1Run(start, mask, x, env, n);
    var log := Run(Cs1Monitor(start), Start(Cs1Monitor(start), x, mask), env, n).1;
    assert Events(Ignoring(mask), log) + [] == Events(Ignoring(mask), log);
  }

  // ---------------------------------------------------------------------
  // AlgCs2: an enable line, qualified by address pins
  // ---------------------------------------------------------------------

  function Cs2Monitor(start: nat): Program {
    Program(start,
            [ Instr(Jmp(PinHigh, start), 0),          // cs_inactive
              Instr(Jmp(PinHigh, start), 0),
              Instr(Jmp(PinHigh, start), 0),
              Instr(Jmp(PinHigh, start), 0),
              Instr(MovXPins, 0),
              Instr(Jmp(XNotY, start + 7), 0),
              Instr(Jmp(Always, start), 0),
              Instr(IrqSet, 0),                       // cs_active
              Instr(Jmp(PinHigh, start + 11), 0),     // cs_active_poll
              Instr(MovXPins, 0),
              Instr(Jmp(XNotY, start + 8), 0),
              Instr(Jmp(PinHigh, start), 0),          // cs_releasing
              Instr(MovXPins, 0),
              Instr(Jmp(XNotY, start + 8), 0) ],
            start, start + 13)
  }

  method EmitCs2Monitor(a: Assembler)
    requires a.code == []
    modifies a
    ensures a.Built() == Cs2Monitor(a.start)
  {
    a.WrapBottom();
    var csInactive := a.Label();
    a.Add(Jmp(PinHigh, csInactive));
    a.Add(Jmp(PinHigh, csInactive));
    a.Add(Jmp(PinHigh, csInactive));
    a.Add(Jmp(PinHigh, csInactive));
    a.Add(MovXPins);
    var csActive := a.Label() + 2;
    a.Add(Jmp(XNotY, csActive));
    a.Add(Jmp(Always, csInactive));
    a.Add(IrqSet);
    EmitCs2Release(a, csInactive);
  }

  method EmitCs2Release(a: Assembler, csInactive: nat)
    modifies a
    ensures var poll := a.start + |old(a.code)|;
      && a.wrapBottom == old(a.wrapBottom) && a.wrapTop == poll + 5
      && a.code == old(a.code) + [Instr(Jmp(PinHigh, poll + 3), 0), Instr(MovXPins, 0), Instr(Jmp(XNotY, poll), 0),
           Instr(Jmp(PinHigh, csInactive), 0), Instr(MovXPins, 0), Instr(Jmp(XNotY, poll), 0)]
  {
    var csActivePoll := a.Label();
    var csReleasing := a.Label() + 3;
    a.Add(Jmp(PinHigh, csReleasing));
    a.Add(MovXPins);
    a.Add(Jmp(XNotY, csActivePoll));
    a.Add(Jmp(PinHigh, csInactive));
    a.Add(MovXPins);
    a.WrapTop();
    a.Add(Jmp(XNotY, csActivePoll));
  }

  /** What the program finds out: the enable line's level, or whether the
      qualifier pins select the chip; and what it reports. */
  datatype Finding = Enable(high: bool) | Qualifier(selected: bool) | Capture

  function NewFindings(pattern: nat, e: Effect): seq<Finding> {
    match e
    case Looked(high) => [Enable(high)]
    case Sampled(pins) => [Qualifier(pins != pattern)]
    case RaisedIrq => [Capture]
    case _ => []
  }

  function Findings(pattern: nat, log: seq<Entry>): seq<Finding> {
    if log == [] then []
    else Findings(pattern, log[..|log| - 1]) + NewFindings(pattern, log[|log| - 1].effect)
  }

  /** The enable-and-qualifier rule, as an automaton on findings.  `Arming(k)`: the
      enable has been low k looks in a row.  `Owing`: a capture is due.
      `Serving(confirming, enabled)`: an access is in progress; `confirming` if the
      last look found it released, `enabled` if this look has found the enable low. */
  datatype Watch = Arming(lows: nat) | Owing | Serving(confirming: bool, enabled: bool)

  predicate Expects(w: Watch, f: Finding) {
    match w
    case Arming(k) => if k < 4 then f.Enable? else f.Qualifier?
    case Owing => f.Capture?
    case Serving(_, enabled) => if enabled then f.Qualifier? else f.Enable?
  }

  function Advance(w: Watch, f: Finding): Watch
    requires Expects(w, f)
  {
    match w
    case Arming(k) =>
      if k < 4 then (if f.high then Arming(0) else Arming(k + 1))
      else (if f.selected then Owing else Arming(0))
    case Owing => Serving(false, false)
    case Serving(confirming, enabled) =>
      if f.Enable? && !f.high then Serving(confirming, true)
      else if f.Qualifier? && f.selected then Serving(false, false)
      else if confirming then Arming(0)
      else Serving(true, false)
  }

  /** Runs the automaton; None once something it does not allow has happened. */
  function Watching(fs: seq<Finding>): (w: Option<Watch>) {
    if fs == [] then Some(Arming(0))
    else
      var w := Watching(fs[..|fs| - 1]);
      if w.Some? && Expects(w.value, fs[|fs| - 1]) then Some(Advance(w.value, fs[|fs| - 1])) else None
  }

  ghost predicate Cs2Inv(start: nat, pattern: nat, r: Regs, w: Watch) {
    && r.y == pattern
    && match r.pc - start
       case 0 => w == Arming(0)
       case 1 => w == Arming(1)
       case 2 => w == Arming(2)
       case 3 => w == Arming(3)
       case 4 => w == Arming(4)
       case 5 => w == if r.x != pattern then Owing else Arming(0)
       case 6 => w == Arming(0)
       case 7 => w == Owing
       case 8 => w == Serving(false, false)
       case 9 => w == Serving(false, true)
       case 10 => w == Serving(r.x == pattern, false)
       case 11 => w == Serving(true, false)
       case 12 => w == Serving(true, true)
       case 13 => w == if r.x != pattern then Serving(false, false) else Arming(0)
       case _ => false
  }

  function Cs2Op(start: nat, i: nat): Op {
    if i < 4 || i == 11 then Jmp(PinHigh, start)
    else if i == 4 || i == 9 || i == 12 then MovXPins
    else if i == 5 then Jmp(XNotY, start + 7)
    else if i == 6 then Jmp(Always, start)
    else if i == 7 then IrqSet
    else if i == 8 then Jmp(PinHigh, start + 11)
    else Jmp(XNotY, start + 8)
  }

  lemma Cs2Fetch(start: nat, pc: nat)
    requires Inside(Cs2Monitor(start), pc)
    ensures var p := Cs2Monitor(start);
      && p.start == start && |p.code| == 14 && p.wrapBottom == start && p.wrapTop == start + 13
      && p.code[pc - start].op == Cs2Op(start, pc - start)
  {
  }

  lemma Cs2Step(start: nat, pattern: nat, r: Regs, inp: Inputs, w: Watch)
    requires Inside(Cs2Monitor(start), r.pc) && Cs2Inv(start, pattern, r, w)
    ensures var (r', e) := Step(Cs2Monitor(start), r, inp);
      var fs := NewFindings(pattern, e.effect);
      if fs == [] then Cs2Inv(start, pattern, r', w)
      else |fs| == 1 && Expects(w, fs[0]) && Cs2Inv(start, pattern, r', Advance(w, fs[0]))
  {
    hide Cs2Monitor;
    Cs2Fetch(start, r.pc);
  }

  /** AlgCs2 follows the automaton on every trace of the pins. */
  lemma {:induction false} Cs2Follows(start: nat, pattern: nat, x: nat, env: nat -> Inputs, n: nat)
    requires start + 14 <= MAX_INSTRS
    ensures var p := Cs2Monitor(start);
      WellFormed(p) &&
      var (r, log) := Run(p, Start(p, x, pattern), env, n);
      var w := Watching(Findings(pattern, log));
      w.Some? && Cs2Inv(start, pattern, r, w.value)
  {
    hide Findings, NewFindings, Watching, Cs2Inv, Step, Expects;
    var p := Cs2Monitor(start);
    assert WellFormed(p);
    if n == 0 {
      Cs2Begins(start, pattern, x);
    } else {
      Cs2Follows(start, pattern, x, env, n - 1);
      var (r, log) := Run(p, Start(p, x, pattern), env, n - 1);
      var e := Step(p, r, env(n - 1)).1;
      var w := Watching(Findings(pattern, log)).value;
      Cs2Step(start, pattern, r, env(n - 1), w);
      WatchingNext(pattern, log, e);
    }
  }

  lemma Cs2Begins(start: nat, pattern: nat, x: nat)
    ensures Watching(Findings(pattern, [])) == Some(Arming(0))
    ensures Cs2Inv(start, pattern, Start(Cs2Monitor(start), x, pattern), Arming(0))
  {
  }

  /** One more instruction gives the automaton at most one finding more. */
  lemma WatchingNext(pattern: nat, log: seq<Entry>, e: Entry)
    ensures var fs, more := Findings(pattern, log), NewFindings(pattern, e.effect);
      && |more| <= 1
      && (more == [] ==> Watching(Findings(pattern, log + [e])) == Watching(fs))
      && (more != [] && Watching(fs).Some? && Expects(Watching(fs).value, more[0]) ==>
            Watching(Findings(pattern, log + [e])) == Some(Advance(Watching(fs).value, more[0])))
  {
    hide Findings, Watching, Expects, Advance;
    var fs, more := Findings(pattern, log), NewFindings(pattern, e.effect);
    FindingsNext(pattern, log, e);
    if more == [] {
      assert fs + more == fs;
    } else {
      assert more == [more[0]];
      WatchingSnoc(fs, more[0]);
    }
  }

  lemma FindingsNext(pattern: nat, log: seq<Entry>, e: Entry)
    ensures Findings(pattern, log + [e]) == Findings(pattern, log) + NewFindings(pattern, e.effect)
  {
    assert (log + [e])[..|log|] == log;
  }

  lemma WatchingSnoc(fs: seq<Finding>, f: Finding)
    ensures Watching(fs).Some? && Expects(Watching(fs).value, f) ==>
              Watching(fs + [f]) == Some(Advance(Watching(fs).value, f))
  {
    assert (fs + [f])[..|fs|] == fs;
  }

  // What following the automaton means for the captures.

  const ARMED: seq<Finding> := [Enable(false), Enable(false), Enable(false), Enable(false), Qualifier(true)]

  /** A look that finds the chip released: the enable high, or low with the
      qualifiers on the deselect pattern. */
  predicate ReleasedLook(fs: seq<Finding>) {
    fs == [Enable(true)] || fs == [Enable(false), Qualifier(false)]
  }

  /** Two such looks one after the other, starting at i. */
  predicate ReleaseAt(fs: seq<Finding>, i: nat) {
    exists j, k :: i < j < k <= |fs| && ReleasedLook(fs[i..j]) && ReleasedLook(fs[j..k])
  }

  /** Nothing but looks since the last capture, as far as the automaton's state tells. */
  ghost predicate Recent(fs: seq<Finding>, w: Watch) {
    match w
    case Arming(k) => k <= 4 && k <= |fs| && forall i :: |fs| - k <= i < |fs| ==> fs[i] == Enable(false)
    case Owing => |fs| >= 5 && fs[|fs| - 5..] == ARMED
    case Serving(confirming, enabled) =>
      var n := if enabled then |fs| - 1 else |fs|;
      && (enabled ==> n >= 0 && fs[n] == Enable(false))
      && (confirming ==> exists i :: 0 <= i < n && ReleasedLook(fs[i..n]) && Capture !in fs[i..])
  }

  lemma {:induction false} WatchingRecent(fs: seq<Finding>)
    requires Watching(fs).Some?
    ensures Recent(fs, Watching(fs).value)
  {
    if fs != [] {
      var n := |fs| - 1;
      var prev := fs[..n];
      WatchingRecent(prev);
      var w := Watching(prev).value;
      RecentNext(prev, w, fs[n]);
      assert prev + [fs[n]] == fs;
    }
  }

  lemma RecentNext(fs: seq<Finding>, w: Watch, f: Finding)
    requires Recent(fs, w) && Expects(w, f)
    ensures Recent(fs + [f], Advance(w, f))
  {
    match w {
      case Arming(k) => ArmingNext(fs, k, f);
      case Owing =>
      case Serving(_, _) => ServingNext(fs, w, f);
    }
  }

  lemma ArmingNext(fs: seq<Finding>, k: nat, f: Finding)
    requires Recent(fs, Arming(k)) && Expects(Arming(k), f)
    ensures Recent(fs + [f], Advance(Arming(k), f))
  {
    var g := fs + [f];
    assert forall i :: 0 <= i < |fs| ==> g[i] == fs[i];
    if Advance(Arming(k), f) == Owing {
      assert fs[|fs| - 4..] == [Enable(false), Enable(false), Enable(false), Enable(false)];
      assert g[|g| - 5..] == fs[|fs| - 4..] + [f];
    }
  }

  lemma ServingNext(fs: seq<Finding>, w: Watch, f: Finding)
    requires w.Serving? && Recent(fs, w) && Expects(w, f)
    ensures Recent(fs + [f], Advance(w, f))
  {
    var g := fs + [f];
    var n := if w.enabled then |fs| - 1 else |fs|;
    if Advance(w, f) == Serving(true, true) {
      StillConfirming(fs, n, f);
    } else if Advance(w, f) == Serving(true, false) {
      NowConfirming(fs, n, w.enabled, f);
    }
  }

  /** A release seen once stays seen while the next look has only begun. */
  lemma StillConfirming(fs: seq<Finding>, n: nat, f: Finding)
    requires n <= |fs| && f != Capture
    requires exists i :: 0 <= i < n && ReleasedLook(fs[i..n]) && Capture !in fs[i..]
    ensures exists i :: 0 <= i < n && ReleasedLook((fs + [f])[i..n]) && Capture !in (fs + [f])[i..]
  {
    hide ReleasedLook;
    var g := fs + [f];
    var i :| 0 <= i < n && ReleasedLook(fs[i..n]) && Capture !in fs[i..];
    assert g[i..n] == fs[i..n] && g[i..] == fs[i..] + [f];
  }

  /** A look that has just found the chip released. */
  lemma NowConfirming(fs: seq<Finding>, n: nat, enabled: bool, f: Finding)
    requires n == (if enabled then |fs| - 1 else |fs|) && (enabled ==> fs[n] == Enable(false))
    requires f == if enabled then Qualifier(false) else Enable(true)
    ensures var g := fs + [f]; exists i :: 0 <= i < |g| && ReleasedLook(g[i..|g|]) && Capture !in g[i..]
  {
    var g := fs + [f];
    assert g[n..|g|] == if enabled then [fs[n], f] else [f];
    assert ReleasedLook(g[n..|g|]) && g[n..] == g[n..|g|];
  }

  /** A capture comes only after four looks with the enable low and then
      qualifiers that select the chip. */
  lemma CaptureNeedsArming(fs: seq<Finding>, i: nat)
    requires i < |fs| && fs[i] == Capture && Watching(fs[..i + 1]).Some?
    ensures i >= 5 && fs[i - 5..i] == ARMED
  {
    assert fs[..i + 1][..i] == fs[..i];
    WatchingRecent(fs[..i]);
    assert fs[..i][i - 5..] == fs[i - 5..i];
  }

  /** Between two captures the release was confirmed by two looks in a row. */
  lemma {:induction false} CapturesSeparated(fs: seq<Finding>, i: nat, j: nat)
    requires i < j < |fs| && fs[i] == Capture && fs[j] == Capture
    requires Watching(fs[..j + 1]).Some?
    ensures exists k :: i < k < j && ReleaseAt(fs[..j], k)
  {
    assert fs[..j + 1][..j] == fs[..j];
    RearmedSince(fs[..j], i);
  }

  /** Once past a capture, the automaton is serving unless a release has been confirmed since. */
  lemma {:induction false} RearmedSince(fs: seq<Finding>, i: nat)
    requires i < |fs| && fs[i] == Capture && Watching(fs).Some?
    ensures Watching(fs).value.Serving? || exists k :: i < k < |fs| && ReleaseAt(fs, k)
  {
    hide ReleaseAt, Recent;
    var n := |fs| - 1;
    var prev, f := fs[..n], fs[n];
    var w := Watching(prev).value;
    if i < n {
      RearmedSince(prev, i);
      if exists k :: i < k < |prev| && ReleaseAt(prev, k) {
        var k :| i < k < |prev| && ReleaseAt(prev, k);
        ReleaseStays(prev, f, k);
        assert prev + [f] == fs;
      } else if w.confirming && Advance(w, f).Arming? {
        WatchingRecent(prev);
        ConfirmedRelease(prev, w, f, i);
        assert prev + [f] == fs;
      }
    }
  }

  lemma ReleaseStays(fs: seq<Finding>, f: Finding, i: nat)
    requires ReleaseAt(fs, i)
    ensures ReleaseAt(fs + [f], i)
  {
    var j, k :| i < j < k <= |fs| && ReleasedLook(fs[i..j]) && ReleasedLook(fs[j..k]);
    assert (fs + [f])[i..j] == fs[i..j] && (fs + [f])[j..k] == fs[j..k];
  }

  lemma ConfirmedRelease(fs: seq<Finding>, w: Watch, f: Finding, c: nat)
    requires Recent(fs, w) && Expects(w, f) && w.Serving? && w.confirming && Advance(w, f).Arming?
    requires c < |fs| && fs[c] == Capture
    ensures exists k :: c < k < |fs| && ReleaseAt(fs + [f], k)
  {
    var n := if w.enabled then |fs| - 1 else |fs|;
    var i :| 0 <= i < n && ReleasedLook(fs[i..n]) && Capture !in fs[i..];
    var g := fs + [f];
    assert g[i..n] == fs[i..n];
    LookEnds(fs, w, f, n);
    assert i < n < |g| && ReleasedLook(g[i..n]) && ReleasedLook(g[n..|g|]);
    assert ReleaseAt(g, i);
    SuffixHas(fs, i, c);
  }

  /** The look that this finding ends, and that confirms a release, is itself one. */
  lemma LookEnds(fs: seq<Finding>, w: Watch, f: Finding, n: nat)
    requires w.Serving? && Expects(w, f) && w.confirming && Advance(w, f).Arming?
    requires n == (if w.enabled then |fs| - 1 else |fs|) && (w.enabled ==> fs[n] == Enable(false))
    ensures ReleasedLook((fs + [f])[n..|fs| + 1])
  {
    assert (fs + [f])[n..|fs| + 1] == if w.enabled then [fs[n], f] else [f];
  }

  lemma SuffixHas(fs: seq<Finding>, i: nat, c: nat)
    requires i <= |fs| && c < |fs|
    ensures i <= c ==> fs[c] in fs[i..]
  {
    if i <= c {
      assert fs[i..][c - i] == fs[c];
    }
  }

  predicate CapturesArmed(fs: seq<Finding>) {
    forall i :: 0 <= i < |fs| && fs[i] == Capture ==> i >= 5 && fs[i - 5..i] == ARMED
  }

  predicate ConfirmedBetween(fs: seq<Finding>, i: nat, j: nat)
    requires j <= |fs|
  {
    exists k :: i < k < j && ReleaseAt(fs[..j], k)
  }

  predicate CapturesApart(fs: seq<Finding>) {
    forall i: nat, j: nat :: i < j < |fs| && fs[i] == Capture && fs[j] == Capture ==> ConfirmedBetween(fs, i, j)
  }

  /** Whatever the pins do: in every run of AlgCs2 each capture comes right after four
      looks with the enable low and qualifiers that select the chip, and between any two
      captures the release was confirmed by two looks in a row. */
  lemma Cs2Captures(start: nat, pattern: nat, x: nat, env: nat -> Inputs, n: nat)
    requires start + 14 <= MAX_INSTRS
    ensures var p := Cs2Monitor(start);
      WellFormed(p) &&
      var fs := Findings(pattern, Run(p, Start(p, x, pattern), env, n).1);
      CapturesArmed(fs) && CapturesApart(fs)
  {
    hide Findings, Watching, Cs2Inv, Run, Cs2Monitor, WellFormed, ReleaseAt, ARMED;
    Cs2Follows(start, pattern, x, env, n);
    var p := Cs2Monitor(start);
    var fs := Findings(pattern, Run(p, Start(p, x, pattern), env, n).1);
    forall i: nat | i < |fs| && fs[i] == Capture ensures i >= 5 && fs[i - 5..i] == ARMED {
      WatchingPrefix(fs, i + 1);
      CaptureNeedsArming(fs, i);
    }
    forall i: nat, j: nat | i < j < |fs| && fs[i] == Capture && fs[j] == Capture ensures ConfirmedBetween(fs, i, j) {
      WatchingPrefix(fs, j + 1);
      CapturesSeparated(fs, i, j);
    }
  }

  lemma {:induction false} WatchingPrefix(fs: seq<Finding>, m: nat)
    requires Watching(fs).Some? && m <= |fs|
    ensures Watching(fs[..m]).Some?
  {
    hide Expects, Advance;
    if m < |fs| {
      WatchingPrefix(fs[..|fs| - 1], m);
      assert fs[..|fs| - 1][..m] == fs[..m];
    } else {
      assert fs[..m] == fs;
    }
  }

  // ---------------------------------------------------------------------
  // Choosing and placing a monitor
  // ---------------------------------------------------------------------

  datatype MonitorAlg = AlgCs0(serveCsLow0: nat) | AlgCs1 | AlgCs2

  /** monitor_cs_instrs */
  function MonitorInstrs(alg: MonitorAlg): nat {
    match alg
    case AlgCs0(_) => 9
    case AlgCs1 => 20
    case AlgCs2 => 14
  }

  function MonitorProgram(pos: nat, alg: MonitorAlg): Program {
    match alg
    case AlgCs0(low) => Cs0Monitor(pos, low == 0)
    case AlgCs1 => Cs1Monitor(pos)
    case AlgCs2 => Cs2Monitor(pos)
  }

  lemma MonitorFits(pos: nat, alg: MonitorAlg)
    requires pos + MonitorInstrs(alg) <= MAX_INSTRS
    ensures |MonitorProgram(pos, alg).code| == MonitorInstrs(alg) && WellFormed(MonitorProgram(pos, alg))
  {
  }

  /** What the program chosen does: under AlgCs0 it debounces all selects low where the
      chip is served low, and any select high where it is not; under AlgCs1 all selects
      low, or only the ignored pin, preloaded into Y, high. */
  lemma MonitorDebounces(pos: nat, alg: MonitorAlg, x: nat, y: nat, env: nat -> Inputs, n: nat)
    requires pos + MonitorInstrs(alg) <= MAX_INSTRS
    ensures var p := MonitorProgram(pos, alg);
      WellFormed(p) &&
      var log := Run(p, Start(p, x, y), env, n).1;
      match alg
      case AlgCs0(low) => Debounced(if low == 0 then WhenZero else WhenNonZero, 3, 3, log)
      case AlgCs1 => Debounced(Ignoring(y), 4, 2, log)
      case AlgCs2 => CapturesArmed(Findings(y, log)) && CapturesApart(Findings(y, log))
  {
    hide Debounced, CapturesArmed, CapturesApart, Run, WellFormed, Cs0Monitor, Cs1Monitor, Cs2Monitor;
    MonitorFits(pos, alg);
    match alg
    case AlgCs0(low) => Cs0Debounces(pos, low == 0, x, y, env, n);
    case AlgCs1 => Cs1Debounces(pos, y, x, env, n);
    case AlgCs2 => Cs2Captures(pos, y, x, env, n);
  }

  /** Every instruction of a monitor takes one cycle: samples come as often as the
      instructions between them. */
  lemma {:induction false} MonitorNeverWaits(pos: nat, alg: MonitorAlg, x: nat, y: nat, env: nat -> Inputs, n: nat)
    requires pos + MonitorInstrs(alg) <= MAX_INSTRS
    ensures var p := MonitorProgram(pos, alg);
      WellFormed(p) && forall e :: e in Run(p, Start(p, x, y), env, n).1 ==> e.cycles == 1
  {
    hide MonitorProgram, WellFormed;
    MonitorFits(pos, alg);
    MonitorUndelayed(pos, alg);
    if n > 0 {
      MonitorNeverWaits(pos, alg, x, y, env, n - 1);
    }
  }

  lemma MonitorUndelayed(pos: nat, alg: MonitorAlg)
    ensures var p := MonitorProgram(pos, alg);
      p.start == pos && forall i :: 0 <= i < |p.code| ==> p.code[i].delay == 0
  {
  }

  /** A monitor is built exactly when the space it is declared to need is there,
      takes exactly that space, and never jumps or wraps out of it. */
  method BuildMonitor(pos: nat, alg: MonitorAlg) returns (r: Option<Program>)
    ensures r.Some? <==> pos + MonitorInstrs(alg) <= MAX_INSTRS
    ensures r.Some? ==> r.value == MonitorProgram(pos, alg)
    ensures r.Some? ==> |r.value.code| == MonitorInstrs(alg) && WellFormed(r.value)
  {
    hide Cs0Monitor, Cs1Monitor, Cs2Monitor, WellFormed;
    if pos + MonitorInstrs(alg) > MAX_INSTRS {
      return None;
    }
    MonitorFits(pos, alg);
    var a := new Assembler(pos);
    match alg {
      case AlgCs0(low) => EmitCs0Monitor(a, low);
      case AlgCs1 => EmitCs1Monitor(a);
      case AlgCs2 => EmitCs2Monitor(a);
    }
    return Some(a.Built());
  }
}
