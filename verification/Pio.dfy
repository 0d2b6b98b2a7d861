/** The part of the RP2350 PIO that the boot-time programs use (RP2350 datasheet,
chapter 11), and the assembler the firmware builds them with. */
module Pio {
  import opened Words
  import opened Bits

  const MAX_INSTRS: nat := 32
  const ALL_PINS: nat := 0xFFFF_FFFF

  datatype Cond = Always | NotX | XDec | YDec | XNotY | PinHigh

  datatype Op =
    | SetY(value: nat)
    | MovXPins
    | MovPindirsNull
    | MovPindirsNotNull
    | MovPindirsY
    | Jmp(cond: Cond, target: nat)
    | IrqSet
    | Nop
    | InX(bits: nat)
    | InPins(bits: nat)
    | InNull(bits: nat)

  datatype Instr = Instr(op: Op, delay: nat)

  /** `code` occupies instruction memory from `start`; addresses are absolute. */
  datatype Program = Program(start: nat, code: seq<Instr>, wrapBottom: nat, wrapTop: nat)

  /** What one instruction can see: the IN pins, masked to the state machine's
      IN count, and the JMP pin. */
  datatype Inputs = Inputs(pins: nat, jmpPin: bool)

  datatype Regs = Regs(pc: nat, x: nat, y: nat, isr: nat, isrCount: nat)

  datatype Effect =
    | Quiet
    | Sampled(pins: nat)
    | Looked(jmpPin: bool)
    | RaisedIrq
    | Drove(mask: nat)      // the pins made outputs, all others inputs
    | Pushed(word: nat)

  /** An executed instruction: what it did, and the cycles it took. */
  datatype Entry = Entry(effect: Effect, cycles: nat)

  predicate Inside(p: Program, pc: nat) {
    p.start <= pc < p.start + |p.code|
  }

  /** The program fits its memory, jumps stay inside it, and execution can leave
      the last instruction only by the wrap or an unconditional jump. */
  predicate WellFormed(p: Program) {
    && p.start + |p.code| <= MAX_INSTRS
    && |p.code| > 0
    && Inside(p, p.wrapBottom) && Inside(p, p.wrapTop)
    && (forall i :: 0 <= i < |p.code| && p.code[i].op.Jmp? ==> Inside(p, p.code[i].op.target))
    && (var last := |p.code| - 1;
        p.wrapTop == p.start + last || (p.code[last].op.Jmp? && p.code[last].op.cond == Always))
  }

  function Decrement(v: nat): nat {
    if v == 0 then WORD - 1 else v - 1
  }

  predicate Taken(c: Cond, r: Regs, inp: Inputs) {
    match c
    case Always => true
    case NotX => r.x == 0
    case XDec => r.x != 0
    case YDec => r.y != 0
    case XNotY => r.x != r.y
    case PinHigh => inp.jmpPin
  }

  function Next(p: Program, pc: nat): nat {
    if pc == p.wrapTop then p.wrapBottom else pc + 1
  }

  /** Shifts left into the ISR; at 32 bits it is pushed and cleared (autopush). */
  function ShiftIn(r: Regs, source: nat, bits: nat, pc: nat): (Regs, Effect) {
    var isr := LowBits(r.isr * Pow2(bits) + LowBits(source, bits), 32);
    if r.isrCount + bits >= 32 then (r.(pc := pc, isr := 0, isrCount := 0), Pushed(isr))
    else (r.(pc := pc, isr := isr, isrCount := r.isrCount + bits), Quiet)
  }

  function Step(p: Program, r: Regs, inp: Inputs): (result: (Regs, Entry))
    requires Inside(p, r.pc)
  {
    var instr := p.code[r.pc - p.start];
    var cycles := 1 + instr.delay;
    var next := Next(p, r.pc);
    match instr.op
    case SetY(v) => (r.(pc := next, y := v), Entry(Quiet, cycles))
    case MovXPins => (r.(pc := next, x := inp.pins), Entry(Sampled(inp.pins), cycles))
    case MovPindirsNull => (r.(pc := next), Entry(Drove(0), cycles))
    case MovPindirsNotNull => (r.(pc := next), Entry(Drove(ALL_PINS), cycles))
    case MovPindirsY => (r.(pc := next), Entry(Drove(r.y), cycles))
    case Jmp(c, target) =>
      var pc' := if Taken(c, r, inp) then target else next;
      var r' := r.(pc := pc',
                   x := if c == XDec then Decrement(r.x) else r.x,
                   y := if c == YDec then Decrement(r.y) else r.y);
      (r', Entry(if c == PinHigh then Looked(inp.jmpPin) else Quiet, cycles))
    case IrqSet => (r.(pc := next), Entry(RaisedIrq, cycles))
    case Nop => (r.(pc := next), Entry(Quiet, cycles))
    case InX(n) => var (r', e) := ShiftIn(r, r.x, n, next); (r', Entry(e, cycles))
    case InPins(n) => var (r', e) := ShiftIn(r, inp.pins, n, next); (r', Entry(e, cycles))
    case InNull(n) => var (r', e) := ShiftIn(r, 0, n, next); (r', Entry(e, cycles))
  }

  /** Execution never leaves a well-formed program, whatever the pins do. */
  lemma StepStaysInside(p: Program, r: Regs, inp: Inputs)
    requires WellFormed(p) && Inside(p, r.pc)
    ensures Inside(p, Step(p, r, inp).0.pc)
  {
  }

  /** The first n instructions of a run against a trace of the pins. */
  function Run(p: Program, r: Regs, env: nat -> Inputs, n: nat): (result: (Regs, seq<Entry>))
    requires WellFormed(p) && Inside(p, r.pc)
    ensures Inside(p, result.0.pc) && |result.1| == n
  {
    if n == 0 then (r, [])
    else
      var (r1, log) := Run(p, r, env, n - 1);
      var (r2, e) := Step(p, r1, env(n - 1));
      StepStaysInside(p, r1, env(n - 1));
      (r2, log + [e])
  }

  /** Registers as APIO_SM_JMP_TO_START leaves them, Y preloaded where asked. */
  function Start(p: Program, x: nat, y: nat): Regs {
    Regs(p.start, x, y, 0, 0)
  }

  /** The apio macros: a label is the index of the next instruction, an offset
      label that many further on, and a wrap marks the next instruction. */
  class Assembler {
    const start: nat
    var code: seq<Instr>
    var wrapBottom: nat
    var wrapTop: nat

    constructor (start: nat)
      ensures this.start == start && code == [] && wrapBottom == start && wrapTop == start
    {
      this.start := start;
      code := [];
      wrapBottom := start;
      wrapTop := start;
    }

    function Label(): nat
      reads this
    {
      start + |code|
    }

    function Built(): Program
      reads this
    {
      Program(start, code, wrapBottom, wrapTop)
    }

    method Add(op: Op)
      modifies this
      ensures code == old(code) + [Instr(op, 0)] && wrapBottom == old(wrapBottom) && wrapTop == old(wrapTop)
    {
      code := code + [Instr(op, 0)];
    }

    method AddDelayed(op: Op, delay: nat)
      modifies this
      ensures code == old(code) + [Instr(op, delay)] && wrapBottom == old(wrapBottom) && wrapTop == old(wrapTop)
    {
      code := code + [Instr(op, delay)];
    }

    method WrapBottom()
      modifies this
      ensures wrapBottom == start + |code| && code == old(code) && wrapTop == old(wrapTop)
    {
      wrapBottom := Label();
    }

    method WrapTop()
      modifies this
      ensures wrapTop == start + |code| && code == old(code) && wrapBottom == old(wrapBottom)
    {
      wrapTop := Label();
    }
  }
}
