/** The address state machine (OneROM/firmware/src/piodma/piorom2.c): it assembles
the address of every byte the device serves from a prefix register, the sampled
address pins and zero padding, and hands the word to DMA. */
module AddressSm {
  import opened Wrappers
  import opened Words
  import opened Bits
  import opened Pio
  import opened PinMap
  import opened RamSlots

  /** `n` address pins, a table of `n + extra` index bits, and a delay after the prefix. */
  datatype Config = Config(n: nat, extra: nat, delay: nat)

  predicate Sensible(c: Config) {
    1 <= c.n && c.n + c.extra <= 28
  }

  function PrefixBits(c: Config): nat
    requires Sensible(c)
  {
    32 - (c.n + c.extra)
  }

  function Padding(extra: nat): (code: seq<Instr>)
    ensures |code| == extra && forall i :: 0 <= i < extra ==> code[i] == Instr(InNull(1), 0)
  {
    seq(extra, _ => Instr(InNull(1), 0))
  }

  function Addressing(c: Config): Program
    requires Sensible(c)
  {
    Program(0, [Instr(InX(PrefixBits(c)), c.delay), Instr(InPins(c.n), 0)] + Padding(c.extra), 0, 1 + c.extra)
  }

  /** Instructions in one pass of the loop. */
  function Length(c: Config): nat {
    2 + c.extra
  }

  method EmitAddressing(a: Assembler, numAddrPins: nat, numRomTableBits: nat, delay: nat)
    requires 1 <= numAddrPins <= numRomTableBits <= 28 && a.code == [] && a.start == 0
    modifies a
    ensures a.Built() == Addressing(Config(numAddrPins, numRomTableBits - numAddrPins, delay))
    ensures WellFormed(a.Built())
  {
    var extra := numRomTableBits - numAddrPins;
    a.WrapBottom();
    a.AddDelayed(InX(32 - numRomTableBits), delay);
    if extra == 0 {
      a.WrapTop();
    }
    a.Add(InPins(numAddrPins));
    ghost var head := a.code;
    for ii := extra downto 0
      invariant a.code == head + Padding(extra - ii)
      invariant a.wrapBottom == 0
      invariant extra == 0 || ii == 0 ==> a.wrapTop == 1 + extra
    {
      if ii == 0 {
        a.WrapTop();
      }
      a.Add(InNull(1));
      assert Padding(extra - ii) == Padding(extra - ii - 1) + [Instr(InNull(1), 0)];
    }
    AddressingWellFormed(Config(numAddrPins, extra, delay));
  }

  /** It fits instruction memory and stays inside its loop. */
  lemma AddressingWellFormed(c: Config)
    requires Sensible(c)
    ensures WellFormed(Addressing(c))
  {
  }

  /** The delay comes after the prefix; every other instruction takes one cycle. */
  lemma InstructionCycles(c: Config, r: Regs, inp: Inputs)
    requires Sensible(c) && Inside(Addressing(c), r.pc)
    ensures Step(Addressing(c), r, inp).1.cycles == if r.pc == 0 then 1 + c.delay else 1
  {
  }

  // ---------------------------------------------------------------------
  // Runs in which the host may rewrite the prefix register at any time
  // ---------------------------------------------------------------------

  /** `x(t)` is the prefix register as instruction t finds it. */
  function RunSwitching(c: Config, x: nat -> nat, env: nat -> Inputs, t: nat): (r: Regs)
    requires Sensible(c)
    ensures Inside(Addressing(c), r.pc)
  {
    if t == 0 then Start(Addressing(c), x(0), 0)
    else
      var was := RunSwitching(c, x, env, t - 1);
      var r := Step(Addressing(c), was.(x := x(t - 1)), env(t - 1)).0;
      r
  }

  function EffectAt(c: Config, x: nat -> nat, env: nat -> Inputs, t: nat): Effect
    requires Sensible(c)
  {
    Step(Addressing(c), RunSwitching(c, x, env, t).(x := x(t)), env(t)).1.effect
  }

  /** prefix, then pins, then zeros */
  function Assembled(c: Config, prefix: nat, pins: nat): nat {
    prefix * Pow2(c.n + c.extra) + LowBits(pins, c.n) * Pow2(c.extra)
  }

  /** The shift register after the first k instructions of a pass. */
  function Partial(c: Config, prefix: nat, pins: nat, k: nat): nat {
    if k == 0 then 0
    else if k == 1 then prefix
    else if k == 2 then prefix * Pow2(c.n) + LowBits(pins, c.n)
    else Partial(c, prefix, pins, k - 1) * 2
  }

  function Shifted(c: Config, k: nat): nat
    requires Sensible(c)
  {
    if k == 0 then 0 else if k == 1 then PrefixBits(c) else PrefixBits(c) + c.n + (k - 2)
  }

  lemma ConcatBelow(hi: nat, lo: nat, m: nat, n: nat)
    requires hi < Pow2(m) && lo < Pow2(n)
    ensures hi * Pow2(n) + lo < Pow2(m + n)
  {
    Pow2Add(m, n);
    MulDiffer(Pow2(n), Pow2(m), hi);
    assert Pow2(m) * Pow2(n) == Pow2(n) * Pow2(m) && hi * Pow2(n) == Pow2(n) * hi;
  }

  lemma {:induction false} PartialBelow(c: Config, prefix: nat, pins: nat, k: nat)
    requires Sensible(c) && prefix < Pow2(PrefixBits(c)) && 1 <= k <= Length(c)
    ensures Partial(c, prefix, pins, k) < Pow2(Shifted(c, k)) <= Pow2(32)
  {
    Pow2Monotone(Shifted(c, k), 32);
    if k == 2 {
      LowBitsBelow(pins, c.n);
      ConcatBelow(prefix, LowBits(pins, c.n), PrefixBits(c), c.n);
    } else if k > 2 {
      PartialBelow(c, prefix, pins, k - 1);
    }
  }

  lemma {:induction false} PartialAssembles(c: Config, prefix: nat, pins: nat, e: nat)
    ensures Partial(c, prefix, pins, 2 + e) == prefix * Pow2(c.n + e) + LowBits(pins, c.n) * Pow2(e)
  {
    hide LowBits, Pow2;
    var w := LowBits(pins, c.n);
    DoubledPower(w, e);
    DoubledPower(prefix, c.n + e);
    if e != 0 {
      PartialAssembles(c, prefix, pins, e - 1);
    }
  }

  lemma DoubledPower(m: nat, n: nat)
    ensures m * Pow2(n) == if n == 0 then m else 2 * (m * Pow2(n - 1))
  {
  }

  /** One shift, when nothing falls off the top. */
  lemma ShiftInFits(r: Regs, source: nat, bits: nat, pc: nat)
    requires r.isr * Pow2(bits) + LowBits(source, bits) < Pow2(32)
    ensures var isr := r.isr * Pow2(bits) + LowBits(source, bits);
      ShiftIn(r, source, bits, pc) ==
        if r.isrCount + bits >= 32 then (r.(pc := pc, isr := 0, isrCount := 0), Pushed(isr))
        else (r.(pc := pc, isr := isr, isrCount := r.isrCount + bits), Quiet)
  {
    hide LowBits, Pow2;
    LowBitsOfSmall(r.isr * Pow2(bits) + LowBits(source, bits), 32);
  }

  lemma ZeroLowBits(n: nat)
    ensures LowBits(0, n) == 0
  {
  }

  /** One instruction of a pass whose prefix and pins are those of its first two. */
  lemma PassStep(c: Config, prefix: nat, pins: nat, r: Regs, inp: Inputs)
    requires Sensible(c) && prefix < Pow2(PrefixBits(c)) && r.pc < Length(c)
    requires r.isr == Partial(c, prefix, pins, r.pc) && r.isrCount == Shifted(c, r.pc)
    requires r.pc == 0 ==> r.x == prefix
    requires r.pc == 1 ==> inp.pins == pins
    ensures var (r', e) := Step(Addressing(c), r, inp);
      if r.pc == 1 + c.extra
      then r'.pc == 0 && r'.isr == 0 && r'.isrCount == 0 && e.effect == Pushed(Assembled(c, prefix, pins))
      else r'.pc == r.pc + 1 && e.effect == Quiet
           && r'.isr == Partial(c, prefix, pins, r.pc + 1) && r'.isrCount == Shifted(c, r.pc + 1)
  {
    hide Assembled, Pow2, LowBits, ShiftIn;
    var next := Next(Addressing(c), r.pc);
    PartialBelow(c, prefix, pins, r.pc + 1);
    PartialAssembles(c, prefix, pins, c.extra);
    AssembledIs(c, prefix, pins);
    One();
    if r.pc == 0 {
      LowBitsOfSmall(prefix, PrefixBits(c));
      ShiftInFits(r, r.x, PrefixBits(c), next);
    } else if r.pc == 1 {
      ShiftInFits(r, inp.pins, c.n, next);
    } else {
      ZeroLowBits(1);
      ShiftInFits(r, 0, 1, next);
    }
  }

  lemma One()
    ensures Pow2(1) == 2
  {
  }

  lemma AssembledIs(c: Config, prefix: nat, pins: nat)
    ensures Assembled(c, prefix, pins) == prefix * Pow2(c.n + c.extra) + LowBits(pins, c.n) * Pow2(c.extra)
  {
  }

  lemma {:induction false} PassState(c: Config, x: nat -> nat, env: nat -> Inputs, t: nat)
    requires Sensible(c) && forall u :: x(u) < Pow2(PrefixBits(c))
    ensures var r := RunSwitching(c, x, env, t);
      && r.pc == Phase(t, Length(c)) && r.pc <= t
      && r.isrCount == Shifted(c, r.pc)
      && r.isr == Partial(c, x(t - r.pc), env(t - r.pc + 1).pins, r.pc)
  {
    hide Partial, Shifted, Step, Addressing, Pow2, Start;
    if t == 0 {
      AtStart(c, x(0));
      PartialStart(c, x(0), env(1).pins);
    } else {
      PassState(c, x, env, t - 1);
      var r := RunSwitching(c, x, env, t - 1);
      var from := t - 1 - r.pc;
      if r.pc == 0 {
        PartialStart(c, x(from), env(from + 1).pins);
      }
      PassStep(c, x(from), env(from + 1).pins, r.(x := x(t - 1)), env(t - 1));
      PartialStart(c, x(t), env(t + 1).pins);
    }
  }

  lemma AtStart(c: Config, x: nat)
    requires Sensible(c)
    ensures Start(Addressing(c), x, 0) == Regs(0, x, 0, 0, 0)
  {
  }

  lemma PartialStart(c: Config, prefix: nat, pins: nat)
    requires Sensible(c)
    ensures Partial(c, prefix, pins, 0) == 0 && Shifted(c, 0) == 0
  {
  }

  /** Which instruction of the m in a pass instruction t is. */
  function Phase(t: nat, m: nat): (k: nat)
    requires m >= 1
    ensures k < m && k <= t
  {
    if t == 0 then 0 else if Phase(t - 1, m) + 1 == m then 0 else Phase(t - 1, m) + 1
  }

  lemma {:induction false} PhaseIsRemainder(t: nat, m: nat)
    requires m >= 1
    ensures Phase(t, m) == t % m
  {
    if t == 0 {
      SmallMod(0, m);
    } else {
      PhaseIsRemainder(t - 1, m);
      ModStep(t - 1, m);
    }
  }

  lemma ModStep(t: nat, m: nat)
    requires m >= 1
    ensures (t + 1) % m == if t % m + 1 == m then 0 else t % m + 1
  {
    DivModParts(t, m);
    var q := t / m;
    if t % m + 1 == m {
      assert m * (q + 1) == m * q + m;
      ModUnique(t + 1, m, q + 1, 0);
    } else {
      ModUnique(t + 1, m, q, t % m + 1);
    }
  }

  /** On every run, with the prefix rewritten at any moment, the words pushed are
      one per pass; each is made of one whole prefix, the register's value when the
      pass began, and the pins as sampled by the next instruction. */
  lemma WordsPushed(c: Config, x: nat -> nat, env: nat -> Inputs, t: nat)
    requires Sensible(c) && forall u :: x(u) < Pow2(PrefixBits(c))
    ensures Phase(t, Length(c)) == 1 + c.extra ==> t >= 1 + c.extra
    ensures EffectAt(c, x, env, t) ==
            if Phase(t, Length(c)) == 1 + c.extra
            then Pushed(Assembled(c, x(t - 1 - c.extra), env(t - c.extra).pins)) else Quiet
  {
    hide Assembled, Step, Addressing, Pow2, Partial, Shifted, RunSwitching;
    PassState(c, x, env, t);
    var r := RunSwitching(c, x, env, t);
    var from := t - r.pc;
    PassStep(c, x(from), env(from + 1).pins, r.(x := x(t)), env(t));
  }

  // ---------------------------------------------------------------------
  // What address that is
  // ---------------------------------------------------------------------

  ghost function ConfigOf(slot: RomSlot, delay: nat): (c: Config)
    requires PinMap.Valid(slot)
    ensures Sensible(c) && c.n + c.extra == slot.numRomTableBits
    ensures c.extra == if slot.wordSize == 16 then 1 else 0
  {
    Config(slot.numAddrPins, slot.numRomTableBits - slot.numAddrPins, delay)
  }

  /** The pins, after their overrides, carry `line` with the chip selected: every
      address pin its bit, chip 0's selects high in a Multi set, every other pin low. */
  ghost predicate Carries(slot: RomSlot, pins: nat, line: nat)
    requires PinMap.Valid(slot)
  {
    forall k: nat :: k < slot.numAddrPins ==> Bit(pins, k) == PinHigh(slot, line, k)
  }

  ghost predicate PinHigh(slot: RomSlot, line: nat, k: nat)
    requires PinMap.Valid(slot)
  {
    || (exists i :: 0 <= i < NumAddr(slot) && slot.addr[i] == slot.addrBase + k
          && Level(OverrideOf(slot.overrides, slot.addr[i]), Bit(line, i)))
    || (slot.slotType == MultiRom && slot.addrBase + k in ChipSelectGpios(slot)
          && OverrideOf(slot.overrides, slot.addrBase + k) != Low)
  }

  lemma CarriesIsWindow(slot: RomSlot, pins: nat, line: nat)
    requires PinMap.Valid(slot)
    ensures Carries(slot, pins, line) <==> LowBits(pins, slot.numAddrPins) == Window(slot, line)
  {
    hide PinMap.Valid, Window, LowBits, PinHigh;
    var n := slot.numAddrPins;
    var low := LowBits(pins, n);
    forall k: nat
      ensures Bit(low, k) == (k < n && Bit(pins, k))
      ensures Bit(Window(slot, line), k) ==> k < n
      ensures Bit(Window(slot, line), k) == PinHigh(slot, line, k)
    {
      LowBitsBits(pins, n, k);
      WindowIsPinHigh(slot, line, k);
    }
    if Carries(slot, pins, line) {
      SameBits(low, Window(slot, line));
    }
  }

  lemma WindowIsPinHigh(slot: RomSlot, line: nat, k: nat)
    requires PinMap.Valid(slot)
    ensures Bit(Window(slot, line), k) == PinHigh(slot, line, k)
    ensures Bit(Window(slot, line), k) ==> k < slot.numAddrPins
  {
    hide PinMap.Valid, Window;
    WindowBits(slot, line, k);
    WindowBelow(slot, line);
    BitsBelow(Window(slot, line), slot.numAddrPins);
  }

  /** The word assembled with slot s's prefix, whenever the pins carry `line`, is the
      address of that line's entry in slot s. */
  lemma WordIsEntryAddress(slot: RomSlot, delay: nat, prefix: nat, base: nat, pins: nat, line: nat)
    requires PinMap.Valid(slot) && Carries(slot, pins, line)
    requires prefix * RegionSize(slot) == base
    ensures Assembled(ConfigOf(slot, delay), prefix, pins)
            == base + MapAddr(slot, if slot.wordSize == 16 then 2 * line else line)
  {
    hide PinMap.Valid, Window, LowBits;
    CarriesIsWindow(slot, pins, line);
    assert Pow2(1) == 2 && Pow2(0) == 1;
  }

  /** If a pass began with this prefix, and the pins carried `line` when it sampled them,
      the word it pushes is where the region at `base` keeps that line. */
  ghost predicate PushesEntry(
      slot: RomSlot, delay: nat, prefix: nat, base: nat, x: nat -> nat, env: nat -> Inputs, t: nat, line: nat)
    requires PinMap.Valid(slot)
  {
    var c := ConfigOf(slot, delay);
    t >= 1 + c.extra && Phase(t, Length(c)) == 1 + c.extra && x(t - 1 - c.extra) == prefix
      && Carries(slot, env(t - c.extra).pins, line) ==>
      EffectAt(c, x, env, t) == Pushed(base + MapAddr(slot, if slot.wordSize == 16 then 2 * line else line))
  }

  /** ... whatever the register held before and after, whatever the pins do otherwise. */
  ghost predicate Serves(slot: RomSlot, delay: nat, prefix: nat, base: nat)
    requires PinMap.Valid(slot)
  {
    forall x: nat -> nat, env: nat -> Inputs, t: nat, line: nat ::
      (forall u :: x(u) < Pow2(PrefixBits(ConfigOf(slot, delay)))) ==>
        PushesEntry(slot, delay, prefix, base, x, env, t, line)
  }

  /** The prefix loaded for slot s makes every pass that begins with it push addresses
      of slot s. */
  lemma SlotServed(slot: RomSlot, delay: nat, s: nat)
    requires PinMap.Valid(slot) && SRAM_BASE + SlotOffset(RegionSize(slot), s) < WORD
    ensures var base := SRAM_BASE + SlotOffset(RegionSize(slot), s);
      Serves(slot, delay, Prefix(base, slot.numRomTableBits), base)
  {
    hide PinMap.Valid, MapAddr, Carries, Assembled, EffectAt, Pow2, ConfigOf, Prefix, SlotOffset;
    var base := SRAM_BASE + SlotOffset(RegionSize(slot), s);
    TableBitsFit(slot);
    var prefix := Prefix(base, slot.numRomTableBits);
    PrefixExact(slot.numRomTableBits, s);
    forall x: nat -> nat, env: nat -> Inputs, t: nat, line: nat
      | forall u :: x(u) < Pow2(PrefixBits(ConfigOf(slot, delay)))
      ensures PushesEntry(slot, delay, prefix, base, x, env, t, line)
    {
      var c := ConfigOf(slot, delay);
      WordsPushed(c, x, env, t);
      if t >= 1 + c.extra && Carries(slot, env(t - c.extra).pins, line) {
        WordIsEntryAddress(slot, delay, prefix, base, env(t - c.extra).pins, line);
      }
    }
  }

  /** After selecting slot s, every pass that begins with the new prefix pushes addresses
      of slot s, and the slot reported active is s. */
  method SelectSlot(dev: Device, s: nat, delay: nat) returns (active: Result<nat, Error>)
    requires dev.Valid() && s < dev.Count()
    modifies dev
    ensures dev.Valid() && active == Ok(s)
    ensures Serves(dev.slot, delay, dev.prefix, SRAM_BASE + SlotOffset(dev.Region(), s))
    ensures dev.prefix < Pow2(PrefixBits(ConfigOf(dev.slot, delay)))
  {
    hide PinMap.Valid, Serves;
    SlotWithin(dev.Count(), dev.Region(), s);
    SlotServed(dev.slot, delay, s);
    var r := dev.SetActiveRamSlot(s);
    active := dev.GetActiveRamSlot();
    assert dev.romTable == SRAM_BASE + SlotOffset(dev.Region(), s);
    if active.value != s {
      SlotsApart(dev.Region(), s, active.value);
      assert false;
    }
    PrefixFits(dev.prefix, PrefixBits(ConfigOf(dev.slot, delay)), dev.slot.numRomTableBits);
  }

  lemma PrefixFits(prefix: nat, m: nat, n: nat)
    requires m + n == 32 && prefix * Pow2(n) < WORD
    ensures prefix < Pow2(m)
  {
    Pow2Values();
    Pow2Add(m, n);
    if prefix >= Pow2(m) {
      MulAtLeast(prefix, Pow2(m), Pow2(n));
      assert false;
    }
  }

  lemma MulAtLeast(a: nat, b: nat, m: nat)
    requires a >= b
    ensures a * m >= b * m
  {
  }
}
