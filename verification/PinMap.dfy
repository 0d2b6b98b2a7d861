/** Address and data mangling (OneROM/firmware/src/piodma/pioplugin.c).

A ROM's logical address and data bits are scattered over whatever GPIOs the
board wires them to, and each GPIO may carry an input override.  The pin map is
an arbitrary one here, not one board's. */
module PinMap {
  import opened Words
  import opened Bits

  const GPIO_NONE: nat := 0xFF
  const MAX_ADDR_PINS: nat := 24

  /** The INOVER field of a GPIO, in the order of its two-bit encoding. */
  datatype Override = Normal | Invert | Low | High

  datatype SlotType = SingleRom | MultiRom | BankedRom

  datatype CsAlg =
    | Cs0(firstRomCsBase: nat, firstRomNumCsPins: nat, serveCsLow0: nat)
    | Cs1(csIgnoreIndex: nat)
    | Cs2(baseQualifierPin: nat, numQualifierPins: nat, inactivePattern: nat)
    | CsOther

  datatype RomSlot = RomSlot(
    slotType: SlotType,
    addrBase: nat,          // gpio_base + base_addr_pin
    numAddrPins: nat,
    numRomTableBits: nat,
    addr: seq<nat>,         // A_n's GPIO, GPIO_NONE from the first unused bit on
    wordSize: nat,
    dataBase: nat,          // gpio_base + base_data_pin
    data: seq<nat>,         // D_n's GPIO, GPIO_NONE where unused
    csGpioBase: nat,
    baseCsPin: nat,
    numCsPins: nat,
    csAlg: CsAlg,
    overrides: seq<nat>     // one byte each: the GPIO in bits 0-5, the override in bits 6-7
  )

  // ---------------------------------------------------------------------
  // Overrides
  // ---------------------------------------------------------------------

  function DecodeOverride(code: nat): Override {
    if code == 0 then Normal else if code == 1 then Invert else if code == 2 then Low else High
  }

  /** The first entry that names the GPIO decides; none means NORMAL. */
  function OverrideOf(overrides: seq<nat>, gpio: nat): Override {
    if overrides == [] then Normal
    else if overrides[0] % 64 == gpio then DecodeOverride((overrides[0] / 64) % 4)
    else OverrideOf(overrides[1..], gpio)
  }

  method GetGpioOverride(slot: RomSlot, gpio: nat) returns (o: Override)
    ensures o == OverrideOf(slot.overrides, gpio)
  {
    for i := 0 to |slot.overrides|
      invariant OverrideOf(slot.overrides, gpio) == OverrideOf(slot.overrides[i..], gpio)
    {
      if slot.overrides[i] % 64 == gpio {
        return DecodeOverride((slot.overrides[i] / 64) % 4);
      }
    }
    return Normal;
  }

  /** The level the PIO sees on a pin whose line carries `line`. */
  function Level(o: Override, line: bool): bool {
    match o
    case Normal => line
    case Invert => !line
    case Low => false
    case High => true
  }

  predicate Forced(o: Override) {
    o == Low || o == High
  }

  // ---------------------------------------------------------------------
  // Lanes: which word bit a logical bit lands on, and through which override
  // ---------------------------------------------------------------------

  datatype Lane = Absent | Lane(pos: nat, over: Override)

  function Scatter(lanes: seq<Lane>, value: nat): nat {
    if lanes == [] then 0
    else
      var n := |lanes| - 1;
      var rest := Scatter(lanes[..n], value);
      if lanes[n].Lane? && Level(lanes[n].over, Bit(value, n)) then OrBit(rest, lanes[n].pos) else rest
  }

  /** INVERT is its own inverse, so reading a lane back applies `Level` again. */
  function Gather(lanes: seq<Lane>, word: nat): nat {
    if lanes == [] then 0
    else
      var n := |lanes| - 1;
      var rest := Gather(lanes[..n], word);
      if lanes[n].Lane? && Level(lanes[n].over, Bit(word, lanes[n].pos)) then OrBit(rest, n) else rest
  }

  ghost predicate Distinct(lanes: seq<Lane>) {
    forall i, j :: 0 <= i < j < |lanes| && lanes[i].Lane? && lanes[j].Lane? ==> lanes[i].pos != lanes[j].pos
  }

  predicate LanesBelow(lanes: seq<Lane>, width: nat) {
    forall i :: 0 <= i < |lanes| && lanes[i].Lane? ==> lanes[i].pos < width
  }

  lemma {:induction false} ScatterBits(lanes: seq<Lane>, value: nat, k: nat)
    ensures Bit(Scatter(lanes, value), k) <==>
            exists i :: 0 <= i < |lanes| && lanes[i].Lane? && lanes[i].pos == k && Level(lanes[i].over, Bit(value, i))
  {
    if lanes == [] {
      ZeroHasNoBits(k);
    } else {
      var n := |lanes| - 1;
      ScatterBits(lanes[..n], value, k);
      if lanes[n].Lane? {
        OrBitBits(Scatter(lanes[..n], value), lanes[n].pos, k);
      }
      assert forall i :: 0 <= i < n ==> lanes[..n][i] == lanes[i];
    }
  }

  lemma ScatterAtLane(lanes: seq<Lane>, value: nat, i: nat)
    requires Distinct(lanes) && i < |lanes| && lanes[i].Lane?
    ensures Bit(Scatter(lanes, value), lanes[i].pos) == Level(lanes[i].over, Bit(value, i))
  {
    ScatterBits(lanes, value, lanes[i].pos);
    assert forall j :: 0 <= j < |lanes| && lanes[j].Lane? && lanes[j].pos == lanes[i].pos ==> j == i;
  }

  lemma {:induction false} GatherBits(lanes: seq<Lane>, word: nat, k: nat)
    ensures Bit(Gather(lanes, word), k) ==
            (k < |lanes| && lanes[k].Lane? && Level(lanes[k].over, Bit(word, lanes[k].pos)))
  {
    if lanes == [] {
      ZeroHasNoBits(k);
    } else {
      var n := |lanes| - 1;
      GatherBits(lanes[..n], word, k);
      OrBitBits(Gather(lanes[..n], word), n, k);
    }
  }

  lemma GatherBelow(lanes: seq<Lane>, word: nat)
    ensures Gather(lanes, word) < Pow2(|lanes|)
  {
    forall k: nat | |lanes| <= k ensures !Bit(Gather(lanes, word), k) {
      GatherBits(lanes, word, k);
    }
    BelowFromBits(Gather(lanes, word), |lanes|);
  }

  /** Whether every bit of a value survives the trip out to the pins and back:
      its lane is wired and not forced. */
  predicate Lossless(lanes: seq<Lane>) {
    forall i :: 0 <= i < |lanes| ==> lanes[i].Lane? && !Forced(lanes[i].over)
  }

  lemma GatherScatter(lanes: seq<Lane>, value: nat)
    requires Distinct(lanes) && Lossless(lanes)
    ensures Gather(lanes, Scatter(lanes, value)) == LowBits(value, |lanes|)
  {
    forall k: nat ensures Bit(Gather(lanes, Scatter(lanes, value)), k) == Bit(LowBits(value, |lanes|), k) {
      GatherBits(lanes, Scatter(lanes, value), k);
      LowBitsBits(value, |lanes|, k);
      if k < |lanes| {
        ScatterAtLane(lanes, value, k);
      }
    }
    SameBits(Gather(lanes, Scatter(lanes, value)), LowBits(value, |lanes|));
  }

  /** The condition is exact: a forced or unwired lane loses the value that
      differs from what the lane always reads as. */
  lemma LostValue(lanes: seq<Lane>, i: nat) returns (value: nat)
    requires Distinct(lanes) && i < |lanes|
    requires lanes[i].Absent? || Forced(lanes[i].over)
    ensures value < Pow2(|lanes|) && Gather(lanes, Scatter(lanes, value)) != value
  {
    value := if lanes[i].Absent? || lanes[i].over == Low then OrBit(0, i) else 0;
    ZeroHasNoBits(i);
    OrBitBits(0, i, i);
    GatherBits(lanes, Scatter(lanes, value), i);
    if lanes[i].Lane? {
      ScatterAtLane(lanes, value, i);
    }
    forall k: nat | |lanes| <= k ensures !Bit(value, k) {
      ZeroHasNoBits(k);
      OrBitBits(0, i, k);
    }
    BelowFromBits(value, |lanes|);
  }

  // ---------------------------------------------------------------------
  // A slot's lanes
  // ---------------------------------------------------------------------

  /** How many address lines the pin map gives before the first GPIO_NONE. */
  function NumAddrFrom(addr: seq<nat>, n: nat): (r: nat)
    requires n <= |addr|
    ensures n <= r <= |addr|
    ensures forall i :: n <= i < r ==> addr[i] < GPIO_NONE
    ensures r < |addr| ==> addr[r] >= GPIO_NONE
    decreases |addr| - n
  {
    if n == |addr| || addr[n] >= GPIO_NONE then n else NumAddrFrom(addr, n + 1)
  }

  function NumAddr(slot: RomSlot): (r: nat)
    ensures r <= |slot.addr|
    ensures forall i :: 0 <= i < r ==> slot.addr[i] < GPIO_NONE
    ensures r < |slot.addr| ==> slot.addr[r] >= GPIO_NONE
  {
    NumAddrFrom(slot.addr, 0)
  }

  function ChipSelectGpios(slot: RomSlot): seq<nat> {
    match slot.csAlg
    case Cs0(base, num, _) => seq(num, i => slot.csGpioBase + base + i)
    case Cs1(ignore) => RangeExcept(slot.csGpioBase + slot.baseCsPin, slot.numCsPins, ignore)
    case _ => []
  }

  function RangeExcept(base: nat, num: nat, skip: nat): (gpios: seq<nat>)
    ensures forall g :: g in gpios <==> base <= g < base + num && g != base + skip
  {
    if num == 0 then []
    else if num - 1 == skip then RangeExcept(base, num - 1, skip)
    else RangeExcept(base, num - 1, skip) + [base + num - 1]
  }

  /** What the metadata guarantees: distinct pins inside the sampled window, and
      for a Multi set the first chip's selects inside it too, apart from the address pins. */
  ghost predicate Valid(slot: RomSlot) {
    && slot.wordSize in {8, 16}
    && |slot.addr| == MAX_ADDR_PINS && |slot.data| == 16
    && slot.numRomTableBits == slot.numAddrPins + (if slot.wordSize == 16 then 1 else 0)
    && 1 <= slot.numAddrPins && slot.numRomTableBits <= 28
    && (forall i :: 0 <= i < NumAddr(slot) ==>
          slot.addrBase <= slot.addr[i] < slot.addrBase + slot.numAddrPins)
    && (forall i, j :: 0 <= i < j < NumAddr(slot) ==> slot.addr[i] != slot.addr[j])
    && (forall d :: 0 <= d < slot.wordSize && slot.data[d] < GPIO_NONE ==>
          slot.dataBase <= slot.data[d] < slot.dataBase + slot.wordSize)
    && (forall c, d :: 0 <= c < d < slot.wordSize && slot.data[c] < GPIO_NONE ==> slot.data[c] != slot.data[d])
    && (slot.slotType == MultiRom ==> forall c :: 0 <= c < |ChipSelectGpios(slot)| ==>
          slot.addrBase <= ChipSelectGpios(slot)[c] < slot.addrBase + slot.numAddrPins
          && forall i :: 0 <= i < NumAddr(slot) ==> slot.addr[i] != ChipSelectGpios(slot)[c])
  }

  ghost function AddrLanes(slot: RomSlot): (lanes: seq<Lane>)
    requires Valid(slot)
    ensures |lanes| == NumAddr(slot) && Distinct(lanes) && LanesBelow(lanes, slot.numAddrPins)
  {
    seq(NumAddr(slot), i requires 0 <= i < NumAddr(slot) =>
      Lane(slot.addr[i] - slot.addrBase, OverrideOf(slot.overrides, slot.addr[i])))
  }

  ghost function DataLanes(slot: RomSlot): (lanes: seq<Lane>)
    requires Valid(slot)
    ensures |lanes| == slot.wordSize && Distinct(lanes) && LanesBelow(lanes, slot.wordSize)
  {
    seq(slot.wordSize, d requires 0 <= d < slot.wordSize =>
      if slot.data[d] >= GPIO_NONE then Absent
      else Lane(slot.data[d] - slot.dataBase, OverrideOf(slot.overrides, slot.data[d])))
  }

  // ---------------------------------------------------------------------
  // pio_map_addr_to_phys and its inverse
  // ---------------------------------------------------------------------

  /** Chip 0's selects are set in the table index of a Multi set. */
  function OrSelects(slot: RomSlot, gpios: seq<nat>, word: nat): nat
    requires forall i :: 0 <= i < |gpios| ==> slot.addrBase <= gpios[i]
  {
    if gpios == [] then word
    else
      var n := |gpios| - 1;
      var rest := OrSelects(slot, gpios[..n], word);
      if OverrideOf(slot.overrides, gpios[n]) == Low then rest else OrBit(rest, gpios[n] - slot.addrBase)
  }

  lemma {:induction false} OrSelectsBits(slot: RomSlot, gpios: seq<nat>, word: nat, k: nat)
    requires forall i :: 0 <= i < |gpios| ==> slot.addrBase <= gpios[i]
    ensures Bit(OrSelects(slot, gpios, word), k) <==>
            Bit(word, k) || (slot.addrBase + k in gpios && OverrideOf(slot.overrides, slot.addrBase + k) != Low)
  {
    if gpios != [] {
      var n := |gpios| - 1;
      OrSelectsBits(slot, gpios[..n], word, k);
      OrBitBits(OrSelects(slot, gpios[..n], word), gpios[n] - slot.addrBase, k);
      assert gpios == gpios[..n] + [gpios[n]];
    }
  }

  /** The word the address pins read when the chip is selected and its address
      lines carry `line`. */
  ghost function Window(slot: RomSlot, line: nat): nat
    requires Valid(slot)
  {
    var w := Scatter(AddrLanes(slot), line);
    if slot.slotType == MultiRom then OrSelects(slot, ChipSelectGpios(slot), w) else w
  }

  /** Every bit of the window: the address pins through their overrides, chip 0's
      selects high in a Multi set, and nothing else. */
  lemma WindowBits(slot: RomSlot, line: nat, k: nat)
    requires Valid(slot)
    ensures Bit(Window(slot, line), k) <==>
            || (exists i :: 0 <= i < NumAddr(slot) && slot.addr[i] == slot.addrBase + k
                  && Level(OverrideOf(slot.overrides, slot.addr[i]), Bit(line, i)))
            || (slot.slotType == MultiRom && slot.addrBase + k in ChipSelectGpios(slot)
                  && OverrideOf(slot.overrides, slot.addrBase + k) != Low)
  {
    var lanes := AddrLanes(slot);
    ScatterBits(lanes, line, k);
    if slot.slotType == MultiRom {
      OrSelectsBits(slot, ChipSelectGpios(slot), Scatter(lanes, line), k);
    }
    assert forall i :: 0 <= i < NumAddr(slot) ==>
      (lanes[i].pos == k <==> slot.addr[i] == slot.addrBase + k)
      && lanes[i].over == OverrideOf(slot.overrides, slot.addr[i]);
  }

  // The same, from the bytes of the override table.

  predicate Unlisted(overrides: seq<nat>, gpio: nat) {
    forall j :: 0 <= j < |overrides| ==> overrides[j] % 64 != gpio
  }

  /** Byte j is the first that names the GPIO. */
  predicate FirstEntry(overrides: seq<nat>, gpio: nat, j: nat) {
    && j < |overrides| && overrides[j] % 64 == gpio
    && forall i :: 0 <= i < j ==> overrides[i] % 64 != gpio
  }

  /** Its top two bits decide: 0 normal, 1 inverted, 2 low, 3 high. */
  lemma {:induction false} OverrideByTable(overrides: seq<nat>, gpio: nat, j: nat)
    ensures Unlisted(overrides, gpio) ==> OverrideOf(overrides, gpio) == Normal
    ensures FirstEntry(overrides, gpio, j) ==>
              OverrideOf(overrides, gpio) == [Normal, Invert, Low, High][(overrides[j] / 64) % 4]
  {
    if overrides != [] {
      var rest := overrides[1..];
      assert forall i :: 0 <= i < |rest| ==> rest[i] == overrides[i + 1];
      if j > 0 {
        OverrideByTable(rest, gpio, j - 1);
      } else {
        OverrideByTable(rest, gpio, 0);
      }
    }
  }

  /** What a pin reads, for a table byte with this code, when its line carries `line`. */
  lemma AddressPinReads(slot: RomSlot, line: nat, i: nat, j: nat)
    requires Valid(slot) && i < NumAddr(slot)
    ensures var g := slot.addr[i];
      var high := Bit(Window(slot, line), g - slot.addrBase);
      && (Unlisted(slot.overrides, g) ==> high == Bit(line, i))
      && (FirstEntry(slot.overrides, g, j) ==>
            var code := (slot.overrides[j] / 64) % 4;
            high == if code == 0 then Bit(line, i) else if code == 1 then !Bit(line, i) else code == 3)
  {
    hide OverrideOf, Bit, Window, NumAddr;
    var g := slot.addr[i];
    OverrideByTable(slot.overrides, g, j);
    WindowBits(slot, line, g - slot.addrBase);
    assert slot.addr[i] == slot.addrBase + (g - slot.addrBase);
    if slot.slotType == MultiRom && g in ChipSelectGpios(slot) {
      var c :| 0 <= c < |ChipSelectGpios(slot)| && ChipSelectGpios(slot)[c] == g;
      assert false;
    }
  }

  /** A select of chip 0 in a Multi set reads high, unless its byte forces it low. */
  lemma SelectReads(slot: RomSlot, line: nat, g: nat)
    requires Valid(slot) && slot.slotType == MultiRom
    requires match slot.csAlg
      case Cs0(base, num, _) => slot.csGpioBase + base <= g < slot.csGpioBase + base + num
      case Cs1(ignore) =>
        var first := slot.csGpioBase + slot.baseCsPin;
        first <= g < first + slot.numCsPins && g != first + ignore
      case _ => false
    ensures g >= slot.addrBase
    ensures Bit(Window(slot, line), g - slot.addrBase)
            <==> !exists j: nat :: FirstEntry(slot.overrides, g, j) && (slot.overrides[j] / 64) % 4 == 2
  {
    hide OverrideOf, Bit, Window, NumAddr;
    var gpios := ChipSelectGpios(slot);
    if slot.csAlg.Cs0? {
      assert gpios[g - (slot.csGpioBase + slot.csAlg.firstRomCsBase)] == g;
    }
    assert g in gpios;
    var c :| 0 <= c < |gpios| && gpios[c] == g;
    WindowBits(slot, line, g - slot.addrBase);
    FirstEntryOrNone(slot.overrides, g);
    OverrideByTable(slot.overrides, g, 0);
    forall j: nat ensures FirstEntry(slot.overrides, g, j) ==>
        OverrideOf(slot.overrides, g) == [Normal, Invert, Low, High][(slot.overrides[j] / 64) % 4] {
      OverrideByTable(slot.overrides, g, j);
    }
  }

  lemma {:induction false} FirstEntryOrNone(overrides: seq<nat>, gpio: nat)
    ensures Unlisted(overrides, gpio) || exists j: nat :: FirstEntry(overrides, gpio, j)
  {
    if overrides != [] {
      var rest := overrides[1..];
      assert forall i :: 0 < i < |overrides| ==> overrides[i] == rest[i - 1];
      FirstEntryOrNone(rest, gpio);
      if overrides[0] % 64 == gpio {
        assert FirstEntry(overrides, gpio, 0);
      } else if j: nat :| FirstEntry(rest, gpio, j) {
        assert FirstEntry(overrides, gpio, j + 1);
      }
    }
  }

  /** Nothing but those is ever set. */
  lemma OnlyPinsSet(slot: RomSlot, line: nat, k: nat)
    requires Valid(slot) && Bit(Window(slot, line), k)
    ensures || (exists i :: 0 <= i < NumAddr(slot) && slot.addr[i] == slot.addrBase + k)
            || (slot.slotType == MultiRom && slot.addrBase + k in ChipSelectGpios(slot))
  {
    hide OverrideOf, Bit, Window, NumAddr, ChipSelectGpios;
    WindowBits(slot, line, k);
  }

  lemma WindowBelow(slot: RomSlot, line: nat)
    requires Valid(slot)
    ensures Window(slot, line) < Pow2(slot.numAddrPins)
  {
    forall k: nat | slot.numAddrPins <= k ensures !Bit(Window(slot, line), k) {
      WindowBits(slot, line, k);
    }
    BelowFromBits(Window(slot, line), slot.numAddrPins);
  }

  ghost function MapAddr(slot: RomSlot, logical: nat): nat
    requires Valid(slot)
  {
    if slot.wordSize == 16 then 2 * Window(slot, logical / 2) + logical % 2 else Window(slot, logical)
  }

  /** The table index always lies inside one ROM region. */
  lemma MapAddrBelow(slot: RomSlot, logical: nat)
    requires Valid(slot)
    ensures MapAddr(slot, logical) < Pow2(slot.numRomTableBits)
  {
    hide Window, NumAddr;
    WindowBelow(slot, if slot.wordSize == 16 then logical / 2 else logical);
  }

  method MapAddrToPhys(slot: RomSlot, logical: nat) returns (physical: nat)
    requires Valid(slot)
    ensures physical == MapAddr(slot, logical)
  {
    hide Pow2, Scatter, OrSelects;
    var aMinus1, addrBits := 0, logical;
    if slot.wordSize == 16 {
      aMinus1, addrBits := logical % 2, logical / 2;
    }
    physical := ScatterAddrPins(slot, addrBits);
    if slot.slotType == MultiRom {
      physical := SetChipSelects(slot, physical);
    }
    assert physical == Window(slot, addrBits);
    WindowBelow(slot, addrBits);
    Pow2Monotone(slot.numAddrPins, 28);
    Pow2Values();
    if slot.wordSize == 16 {
      physical := (2 * physical) % WORD + aMinus1;
    }
  }

  /** The switch on a GPIO's override that every mangling loop carries: sets one
      bit of the result from one bit of the source. */
  method OrThrough(word: nat, pos: nat, o: Override, bit: bool) returns (w: nat)
    ensures w == if Level(o, bit) then OrBit(word, pos) else word
  {
    w := word;
    match o {
      case Normal => if bit { w := OrBit(word, pos); }
      case Invert => if !bit { w := OrBit(word, pos); }
      case Low =>
      case High => w := OrBit(word, pos);
    }
  }

  method ScatterAddrPins(slot: RomSlot, addrBits: nat) returns (physical: nat)
    requires Valid(slot)
    ensures physical == Scatter(AddrLanes(slot), addrBits)
  {
    hide Bit, OrBit, OverrideOf, Distinct;
    physical := 0;
    ghost var lanes := AddrLanes(slot);
    var n := 0;
    while n < MAX_ADDR_PINS
      invariant n <= NumAddr(slot)
      invariant physical == Scatter(lanes[..n], addrBits)
    {
      var gpio := slot.addr[n];
      if gpio >= GPIO_NONE { break; }
      var bitPos := gpio - slot.addrBase;
      var o := GetGpioOverride(slot, gpio);
      assert lanes[..n + 1][..n] == lanes[..n];
      physical := OrThrough(physical, bitPos, o, Bit(addrBits, n));
      n := n + 1;
    }
    assert lanes[..n] == lanes;
  }

  method SetChipSelects(slot: RomSlot, word: nat) returns (physical: nat)
    requires Valid(slot) && slot.slotType == MultiRom
    ensures physical == OrSelects(slot, ChipSelectGpios(slot), word)
  {
    physical := word;
    match slot.csAlg {
      case Cs0(base, num, _) =>
        assert num > 0 ==> slot.addrBase <= ChipSelectGpios(slot)[0];
        physical := SetRange(slot, slot.csGpioBase + base, num, word);
      case Cs1(ignore) => physical := SetRangeExcept(slot, ignore, word);
      case _ =>
    }
  }

  method SetRange(slot: RomSlot, csBase: nat, num: nat, word: nat) returns (physical: nat)
    requires num > 0 ==> slot.addrBase <= csBase
    ensures physical == OrSelects(slot, seq(num, i => csBase + i), word)
  {
    physical := word;
    ghost var gpios := seq(num, i => csBase + i);
    for i := 0 to num
      invariant physical == OrSelects(slot, gpios[..i], word)
    {
      assert gpios[..i + 1][..i] == gpios[..i];
      var o := GetGpioOverride(slot, csBase + i);
      if o != Low {
        physical := OrBit(physical, csBase + i - slot.addrBase);
      }
    }
    assert gpios[..num] == gpios;
  }

  lemma OrSelectsNone(slot: RomSlot, word: nat)
    ensures OrSelects(slot, [], word) == word
  {
  }

  lemma OrSelectsSnoc(slot: RomSlot, gpios: seq<nat>, g: nat, word: nat)
    requires slot.addrBase <= g && forall i :: 0 <= i < |gpios| ==> slot.addrBase <= gpios[i]
    ensures OrSelects(slot, gpios + [g], word) ==
            if OverrideOf(slot.overrides, g) == Low then OrSelects(slot, gpios, word)
            else OrBit(OrSelects(slot, gpios, word), g - slot.addrBase)
  {
    assert (gpios + [g])[..|gpios|] == gpios;
  }

  lemma SelectsAbove(slot: RomSlot, ignore: nat, i: nat)
    requires Valid(slot) && slot.slotType == MultiRom && slot.csAlg == Cs1(ignore) && i <= slot.numCsPins
    ensures var gpios := RangeExcept(slot.csGpioBase + slot.baseCsPin, i, ignore);
      forall j :: 0 <= j < |gpios| ==> slot.addrBase <= gpios[j]
  {
    var gpios, all := RangeExcept(slot.csGpioBase + slot.baseCsPin, i, ignore), ChipSelectGpios(slot);
    forall j | 0 <= j < |gpios| ensures slot.addrBase <= gpios[j] {
      assert gpios[j] in gpios && gpios[j] in all;
      var c :| 0 <= c < |all| && all[c] == gpios[j];
    }
  }

  method SetRangeExcept(slot: RomSlot, ignore: nat, word: nat) returns (physical: nat)
    requires Valid(slot) && slot.slotType == MultiRom && slot.csAlg == Cs1(ignore)
    ensures physical == OrSelects(slot, ChipSelectGpios(slot), word)
  {
    hide Bit, OverrideOf, NumAddr, Valid, OrSelects, OrBit;
    physical := word;
    var csBase := slot.csGpioBase + slot.baseCsPin;
    OrSelectsNone(slot, word);
    for i := 0 to slot.numCsPins
      invariant forall j :: 0 <= j < |RangeExcept(csBase, i, ignore)| ==>
          slot.addrBase <= RangeExcept(csBase, i, ignore)[j]
      invariant physical == OrSelects(slot, RangeExcept(csBase, i, ignore), word)
    {
      SelectsAbove(slot, ignore, i + 1);
      if i != ignore {
        ghost var done := RangeExcept(csBase, i, ignore);
        assert RangeExcept(csBase, i + 1, ignore)[|done|] == csBase + i;
        OrSelectsSnoc(slot, done, csBase + i, word);
        var o := GetGpioOverride(slot, csBase + i);
        if o != Low {
          physical := OrBit(physical, csBase + i - slot.addrBase);
        }
      }
    }
  }

  /** The address the lines carried, from a word of post-override pin levels. */
  ghost function DemangleObserved(slot: RomSlot, physical: nat): nat
    requires Valid(slot)
  {
    Gather(AddrLanes(slot), physical)
  }

  /** The address extraction of pio_demangle_observed_addr. */
  method ExtractAddr(slot: RomSlot, physical: nat) returns (logical: nat)
    requires Valid(slot)
    ensures logical == DemangleObserved(slot, physical)
  {
    hide Bit, OrBit, OverrideOf, Distinct, Gather;
    logical := 0;
    ghost var lanes := AddrLanes(slot);
    GatherNone(physical);
    var n := 0;
    while n < MAX_ADDR_PINS
      invariant n <= NumAddr(slot)
      invariant logical == Gather(lanes[..n], physical)
    {
      var gpio := slot.addr[n];
      if gpio >= GPIO_NONE { break; }
      var physicalBit := Bit(physical, gpio - slot.addrBase);
      var o := GetGpioOverride(slot, gpio);
      GatherSnoc(lanes[..n + 1], physical);
      assert lanes[..n + 1][..n] == lanes[..n];
      logical := OrThrough(logical, n, o, physicalBit);
      n := n + 1;
    }
    assert lanes[..n] == lanes;
  }

  ghost function Demangle(slot: RomSlot, physical: nat): nat
    requires Valid(slot)
  {
    if slot.wordSize == 16 then 2 * DemangleObserved(slot, physical / 2) + physical % 2
    else DemangleObserved(slot, physical)
  }

  /** The bytes the chip's own address lines can name. */
  function AddrBits(slot: RomSlot): nat {
    NumAddr(slot) + (if slot.wordSize == 16 then 1 else 0)
  }

  ghost predicate AddrUnforced(slot: RomSlot) {
    forall i :: 0 <= i < NumAddr(slot) ==> !Forced(OverrideOf(slot.overrides, slot.addr[i]))
  }

  /** Chip selects share no bit with the address pins, so they do not disturb
      the address gathered back. */
  lemma SelectsInvisible(slot: RomSlot, line: nat)
    requires Valid(slot)
    ensures DemangleObserved(slot, Window(slot, line)) == Gather(AddrLanes(slot), Scatter(AddrLanes(slot), line))
  {
    var lanes := AddrLanes(slot);
    var a, b := DemangleObserved(slot, Window(slot, line)), Gather(lanes, Scatter(lanes, line));
    forall k: nat ensures Bit(a, k) == Bit(b, k) {
      GatherBits(lanes, Window(slot, line), k);
      GatherBits(lanes, Scatter(lanes, line), k);
      if k < |lanes| && slot.slotType == MultiRom {
        OrSelectsBits(slot, ChipSelectGpios(slot), Scatter(lanes, line), lanes[k].pos);
        assert slot.addrBase + lanes[k].pos == slot.addr[k];
      }
    }
    SameBits(a, b);
  }

  lemma WindowRoundTrip(slot: RomSlot, line: nat)
    requires Valid(slot) && AddrUnforced(slot)
    ensures DemangleObserved(slot, Window(slot, line)) == LowBits(line, NumAddr(slot))
  {
    SelectsInvisible(slot, line);
    assert Lossless(AddrLanes(slot));
    GatherScatter(AddrLanes(slot), line);
  }

  /** Demangling inverts mapping, for 8- and 16-bit parts alike, up to the address
      bits above the chip's own lines, which the map ignores. */
  lemma DemangleInvertsMap(slot: RomSlot, logical: nat)
    requires Valid(slot) && AddrUnforced(slot)
    ensures Demangle(slot, MapAddr(slot, logical)) == LowBits(logical, AddrBits(slot))
  {
    hide Valid, Window, DemangleObserved, Pow2, AddrUnforced;
    if slot.wordSize == 16 {
      WindowRoundTrip(slot, logical / 2);
    } else {
      WindowRoundTrip(slot, logical);
    }
  }

  lemma DemangleInvertsMapWithin(slot: RomSlot, a: nat)
    requires Valid(slot) && AddrUnforced(slot) && a < Pow2(AddrBits(slot))
    ensures Demangle(slot, MapAddr(slot, a)) == a
  {
    DemangleInvertsMap(slot, a);
    LowBitsOfSmall(a, AddrBits(slot));
  }

  ghost predicate ComesBack(slot: RomSlot, a: nat)
    requires Valid(slot)
  {
    Demangle(slot, MapAddr(slot, a)) == a
  }

  /** ... and only then: with any address pin forced, some address of the chip
      does not come back. */
  lemma MapInvertibleIffUnforced(slot: RomSlot)
    requires Valid(slot)
    ensures AddrUnforced(slot) <==> forall a: nat :: a < Pow2(AddrBits(slot)) ==> ComesBack(slot, a)
  {
    if AddrUnforced(slot) {
      forall a: nat | a < Pow2(AddrBits(slot)) ensures ComesBack(slot, a) {
        DemangleInvertsMapWithin(slot, a);
      }
    } else {
      var i :| 0 <= i < NumAddr(slot) && Forced(OverrideOf(slot.overrides, slot.addr[i]));
      var a := ForcedPinLoses(slot, i);
      assert !ComesBack(slot, a);
    }
  }

  lemma ForcedPinLoses(slot: RomSlot, i: nat) returns (a: nat)
    requires Valid(slot) && i < NumAddr(slot) && Forced(OverrideOf(slot.overrides, slot.addr[i]))
    ensures a < Pow2(AddrBits(slot)) && !ComesBack(slot, a)
  {
    hide Valid, Window, Gather, Scatter;
    var lanes := AddrLanes(slot);
    var line := LostValue(lanes, i);
    SelectsInvisible(slot, line);
    a := if slot.wordSize == 16 then 2 * line else line;
  }

  /** Distinct pins inside the sampled window are no more than the window holds. */
  lemma AddrBitsFitTable(slot: RomSlot)
    requires Valid(slot)
    ensures AddrBits(slot) <= slot.numRomTableBits
  {
    var pins := DistinctCount(slot.addr[..NumAddr(slot)]);
    var window := PinRange(slot.addrBase, slot.numAddrPins);
    assert pins <= window;
    SubsetCount(pins, window);
  }

  lemma DistinctCount(s: seq<nat>) returns (elems: set<nat>)
    requires forall i, j :: 0 <= i < j < |s| ==> s[i] != s[j]
    ensures |elems| == |s| && forall x :: x in elems <==> x in s
  {
    if s == [] {
      elems := {};
    } else {
      var n := |s| - 1;
      var rest := DistinctCount(s[..n]);
      assert s[n] !in rest;
      elems := rest + {s[n]};
      assert s == s[..n] + [s[n]];
    }
  }

  ghost function PinRange(base: nat, num: nat): (w: set<nat>)
    ensures |w| == num && forall g :: g in w <==> base <= g < base + num
  {
    if num == 0 then {} else PinRange(base, num - 1) + {base + num - 1}
  }

  lemma SubsetCount(a: set<nat>, b: set<nat>)
    requires a <= b
    ensures |a| <= |b|
  {
    if a != {} {
      var x :| x in a;
      SubsetCount(a - {x}, b - {x});
    }
  }

  /** Distinct addresses of the chip never share a table index. */
  lemma MapAddrInjective(slot: RomSlot, a: nat, b: nat)
    requires Valid(slot) && AddrUnforced(slot)
    requires a < Pow2(AddrBits(slot)) && b < Pow2(AddrBits(slot)) && a != b
    ensures MapAddr(slot, a) != MapAddr(slot, b)
  {
    DemangleInvertsMapWithin(slot, a);
    DemangleInvertsMapWithin(slot, b);
  }

  // ---------------------------------------------------------------------
  // pio_map_data_to_phys and its inverse
  // ---------------------------------------------------------------------

  ghost function MapData(slot: RomSlot, value: nat): nat
    requires Valid(slot)
  {
    Scatter(DataLanes(slot), value)
  }

  method MapDataToPhys(slot: RomSlot, value: nat) returns (physical: nat)
    requires Valid(slot)
    ensures physical == MapData(slot, value)
  {
    hide Bit, OrBit, OverrideOf, Distinct;
    physical := 0;
    ghost var lanes := DataLanes(slot);
    for d := 0 to slot.wordSize
      invariant physical == Scatter(lanes[..d], value)
    {
      var gpio := slot.data[d];
      assert lanes[..d + 1][..d] == lanes[..d];
      if gpio < GPIO_NONE {
        var bitPos := gpio - slot.dataBase;
        var o := GetGpioOverride(slot, gpio);
        physical := OrThrough(physical, bitPos, o, Bit(value, d));
      }
    }
    assert lanes[..slot.wordSize] == lanes;
  }

  /** A wired data bit lands on its pin, as the first byte that names the pin has it; no
      other bit is set. */
  lemma DataPinReads(slot: RomSlot, value: nat, d: nat, j: nat)
    requires Valid(slot) && d < slot.wordSize && slot.data[d] < GPIO_NONE
    ensures var g := slot.data[d];
      var high := Bit(MapData(slot, value), g - slot.dataBase);
      && (Unlisted(slot.overrides, g) ==> high == Bit(value, d))
      && (FirstEntry(slot.overrides, g, j) ==>
            var code := (slot.overrides[j] / 64) % 4;
            high == if code == 0 then Bit(value, d) else if code == 1 then !Bit(value, d) else code == 3)
  {
    hide OverrideOf, Bit, Scatter;
    OverrideByTable(slot.overrides, slot.data[d], j);
    ScatterAtLane(DataLanes(slot), value, d);
  }

  lemma OnlyDataSet(slot: RomSlot, value: nat, k: nat)
    requires Valid(slot) && Bit(MapData(slot, value), k)
    ensures exists d :: 0 <= d < slot.wordSize && slot.data[d] < GPIO_NONE && slot.data[d] == slot.dataBase + k
  {
    hide OverrideOf, Bit, Scatter;
    ScatterBits(DataLanes(slot), value, k);
    var lanes := DataLanes(slot);
    var d :| 0 <= d < |lanes| && lanes[d].Lane? && lanes[d].pos == k;
    assert slot.data[d] < GPIO_NONE;
  }

  /** `logical` is a `uint8_t`, so bits gathered above the eighth fall off. */
  ghost function DemangleByte(slot: RomSlot, physical: nat): nat
    requires Valid(slot)
  {
    Gather(DataLanes(slot)[..8], physical)
  }

  lemma GatherNone(word: nat)
    ensures Gather([], word) == 0
  {
  }

  lemma GatherSnoc(lanes: seq<Lane>, word: nat)
    requires lanes != []
    ensures var n := |lanes| - 1;
      var rest := Gather(lanes[..n], word);
      Gather(lanes, word) ==
        if lanes[n].Lane? && Level(lanes[n].over, Bit(word, lanes[n].pos)) then OrBit(rest, n) else rest
  {
  }

  method DemangleData(slot: RomSlot, physical: nat) returns (logical: nat)
    requires Valid(slot)
    ensures logical == DemangleByte(slot, physical)
  {
    hide Bit, OrBit, OverrideOf, Distinct, Gather;
    logical := 0;
    ghost var lanes := DataLanes(slot);
    GatherNone(physical);
    for d := 0 to slot.wordSize
      invariant logical == Gather(lanes[..if d < 8 then d else 8], physical)
    {
      var gpio := slot.data[d];
      if d < 8 {
        GatherSnoc(lanes[..d + 1], physical);
        assert lanes[..d + 1][..d] == lanes[..d];
      }
      if gpio < GPIO_NONE {
        var physicalBit := Bit(physical, gpio - slot.dataBase);
        var o := GetGpioOverride(slot, gpio);
        if d < 8 {
          logical := OrThrough(logical, d, o, physicalBit);
        }
      }
    }
  }

  /** The byte lane: each of D0-D7 is wired inside the stored byte and unforced. */
  ghost predicate ByteLaneLossless(slot: RomSlot)
    requires Valid(slot)
  {
    forall d :: 0 <= d < 8 ==>
      && DataLanes(slot)[d].Lane?
      && DataLanes(slot)[d].pos < 8
      && !Forced(DataLanes(slot)[d].over)
  }

  /** A byte stored through the map, truncated to the table's eight bits, reads
      back as itself. */
  lemma DataRoundTrip(slot: RomSlot, byte: nat)
    requires Valid(slot) && ByteLaneLossless(slot) && byte < 0x100
    ensures DemangleByte(slot, LowBits(MapData(slot, byte), 8)) == byte
  {
    var lanes := DataLanes(slot);
    var w := MapData(slot, byte);
    var r := DemangleByte(slot, LowBits(w, 8));
    Pow2Values();
    forall k: nat ensures Bit(r, k) == Bit(byte, k) {
      GatherBits(lanes[..8], LowBits(w, 8), k);
      BitsBelow(byte, 8);
      if k < 8 {
        assert lanes[..8][k] == lanes[k];
        LowBitsBits(w, 8, lanes[k].pos);
        ScatterAtLane(lanes, byte, k);
      }
    }
    SameBits(r, byte);
  }

  /** The condition is exact. */
  lemma DataRoundTripIff(slot: RomSlot)
    requires Valid(slot)
    ensures ByteLaneLossless(slot) <==>
            forall byte: nat :: byte < 0x100 ==> DemangleByte(slot, LowBits(MapData(slot, byte), 8)) == byte
  {
    if ByteLaneLossless(slot) {
      forall byte: nat | byte < 0x100 ensures DemangleByte(slot, LowBits(MapData(slot, byte), 8)) == byte {
        DataRoundTrip(slot, byte);
      }
    } else {
      var lanes := DataLanes(slot);
      var d :| 0 <= d < 8 && !(lanes[d].Lane? && lanes[d].pos < 8 && !Forced(lanes[d].over));
      LossyByteLane(slot, d);
    }
  }

  lemma LossyByteLane(slot: RomSlot, d: nat)
    requires Valid(slot) && d < 8
    requires var l := DataLanes(slot)[d]; !(l.Lane? && l.pos < 8 && !Forced(l.over))
    ensures exists byte: nat :: byte < 0x100 && DemangleByte(slot, LowBits(MapData(slot, byte), 8)) != byte
  {
    var lanes := DataLanes(slot);
    var l := lanes[d];
    // What bit d always reads back as, so that the byte with the other value is lost.
    var stuck := l.Lane? && (l.over == High || (l.over == Invert && l.pos >= 8));
    var byte := if stuck then 0 else OrBit(0, d);
    ZeroHasNoBits(d);
    OrBitBits(0, d, d);
    Pow2Values();
    forall k: nat | 8 <= k ensures !Bit(byte, k) {
      ZeroHasNoBits(k);
      OrBitBits(0, d, k);
    }
    BelowFromBits(byte, 8);
    var w := MapData(slot, byte);
    GatherBits(lanes[..8], LowBits(w, 8), d);
    if l.Lane? {
      LowBitsBits(w, 8, l.pos);
    }
    assert Bit(DemangleByte(slot, LowBits(w, 8)), d) != Bit(byte, d);
  }
}
