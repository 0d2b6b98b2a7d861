/** Demangling an address with its control pins checked
(OneROM/firmware/src/piodma/pioplugin.c): does the word show the chip selected? */
module ControlPins {
  import opened Wrappers
  import opened Words
  import opened Bits
  import opened PinMap
  import opened ExpansionPins

  datatype Error = ControlPinActive | Unsupported

  // ---------------------------------------------------------------------
  // What the check looks at
  // ---------------------------------------------------------------------

  /** The select lines compared: chip 0's own in a Multi set, all but the ignored one
      under AlgCs1, only the enable line under AlgCs2. */
  predicate IsChecked(slot: RomSlot, g: nat) {
    match slot.csAlg
    case Cs0(base, num, _) =>
      if slot.slotType == MultiRom then slot.csGpioBase + base <= g < slot.csGpioBase + base + num
      else InSelectRange(slot, g)
    case Cs1(ignore) => InSelectRange(slot, g) && g != slot.csGpioBase + slot.baseCsPin + ignore
    case Cs2(_, _, _) => g == slot.csGpioBase + slot.baseCsPin
    case CsOther => false
  }

  function Expected(slot: RomSlot): nat {
    if slot.csAlg.Cs0? then slot.csAlg.serveCsLow0 else 0
  }

  function AsLevel(high: bool): nat {
    if high then 1 else 0
  }

  /** The level a pin is taken to have: the word's, unless an override forces it. */
  function LevelShown(slot: RomSlot, word: nat, g: nat): nat
    requires slot.addrBase <= g
  {
    match OverrideOf(slot.overrides, g)
    case Low => 0
    case High => 1
    case _ => AsLevel(Bit(word, g - slot.addrBase))
  }

  /** The qualifier pins of AlgCs2, as one number. */
  function Qualifiers(slot: RomSlot, word: nat): nat
    requires slot.csAlg.Cs2? && slot.addrBase <= slot.csGpioBase + slot.csAlg.baseQualifierPin
  {
    LowBits(HighBits(word, slot.csGpioBase + slot.csAlg.baseQualifierPin - slot.addrBase), slot.csAlg.numQualifierPins)
  }

  /** The metadata puts every pin the check reads inside the sampled window. */
  ghost predicate Placed(slot: RomSlot) {
    && (forall g: nat :: IsChecked(slot, g) ==> slot.addrBase <= g)
    && (slot.csAlg.Cs2? ==> slot.addrBase <= slot.csGpioBase + slot.csAlg.baseQualifierPin)
  }

  ghost predicate SelectsShow(slot: RomSlot, word: nat)
    requires Placed(slot)
  {
    forall g: nat :: IsChecked(slot, g) ==> LevelShown(slot, word, g) == Expected(slot)
  }

  /** No other chip of a Multi set is addressed. */
  ghost predicate OthersIdle(slot: RomSlot, board: Board, word: nat) {
    forall k: nat :: Masked(slot, board, k) ==> !Bit(word, k)
  }

  /** The word shows chip 0 selected and no other. */
  ghost predicate Shown(slot: RomSlot, board: Board, word: nat)
    requires Placed(slot)
  {
    && SelectsShow(slot, word)
    && (slot.csAlg.Cs0? ==> OthersIdle(slot, board, word))
    && (slot.csAlg.Cs2? ==> Qualifiers(slot, word) != slot.csAlg.inactivePattern)
  }

  /** A select line reads as its override forces it, else as its bit in the word. */
  predicate ReadsHigh(slot: RomSlot, word: nat, g: nat) {
    var o := OverrideOf(slot.overrides, g);
    o == High || (o != Low && g >= slot.addrBase && Bit(word, g - slot.addrBase))
  }

  /** These lines all read so, but for one left out. */
  predicate AllRead(slot: RomSlot, word: nat, first: nat, count: nat, skip: nat, high: bool) {
    forall g: nat :: first <= g < first + count && g != skip ==> ReadsHigh(slot, word, g) == high
  }

  /** The same, line by line and algorithm by algorithm: under AlgCs0 the lines of the
      range, chip 0's in a Multi set, are all high or all low as the chip is served; under
      AlgCs1 all but the ignored one are low; under AlgCs2 the first one is low and the
      qualifier bits, from the least, are not the deselect pattern. */
  lemma ShownMeans(slot: RomSlot, board: Board, word: nat)
    requires Placed(slot)
    ensures var first := slot.csGpioBase + slot.baseCsPin;
      Shown(slot, board, word)
      <==> match slot.csAlg
           case Cs0(base, num, serve) =>
             var from, count := if slot.slotType == MultiRom then slot.csGpioBase + base else first,
                                if slot.slotType == MultiRom then num else slot.numCsPins;
             && (count == 0 || (serve == 1 && AllRead(slot, word, from, count, from + count, true))
                            || (serve == 0 && AllRead(slot, word, from, count, from + count, false)))
             && forall k: nat :: Masked(slot, board, k) ==> !Bit(word, k)
           case Cs1(ignore) => AllRead(slot, word, first, slot.numCsPins, first + ignore, false)
           case Cs2(_, _, inactive) =>
             AllRead(slot, word, first, 1, first + 1, false) && Qualifiers(slot, word) != inactive
           case CsOther => true
  {
    hide Masked, Bit, Qualifiers, OverrideOf, SelectsShow, AllRead, LevelShown;
    var first := slot.csGpioBase + slot.baseCsPin;
    match slot.csAlg
    case Cs0(base, num, _) =>
      if slot.slotType == MultiRom {
        LinesShow(slot, word, slot.csGpioBase + base, num, slot.csGpioBase + base + num);
      } else {
        LinesShow(slot, word, first, slot.numCsPins, first + slot.numCsPins);
      }
    case Cs1(ignore) => LinesShow(slot, word, first, slot.numCsPins, first + ignore);
    case Cs2(_, _, _) => LinesShow(slot, word, first, 1, first + 1);
    case CsOther => NoLines(slot, word);
  }

  lemma LinesShow(slot: RomSlot, word: nat, from: nat, count: nat, skip: nat)
    requires Placed(slot)
    requires forall g: nat :: IsChecked(slot, g) <==> from <= g < from + count && g != skip
    ensures Expected(slot) == 0 ==> (SelectsShow(slot, word) <==> AllRead(slot, word, from, count, skip, false))
    ensures Expected(slot) == 1 ==> (SelectsShow(slot, word) <==> AllRead(slot, word, from, count, skip, true))
    ensures count > 0 && skip == from + count && SelectsShow(slot, word) ==> Expected(slot) <= 1
    ensures count == 0 ==> SelectsShow(slot, word)
  {
    hide IsChecked, ReadsHigh, LevelShown, Expected;
    if SelectsShow(slot, word) {
      forall g: nat | from <= g < from + count && g != skip
        ensures Expected(slot) == if ReadsHigh(slot, word, g) then 1 else 0
      {
        LineShows(slot, word, g);
      }
    } else {
      var g: nat :| IsChecked(slot, g) && LevelShown(slot, word, g) != Expected(slot);
      LineShows(slot, word, g);
    }
    if count > 0 && skip == from + count {
      LineShows(slot, word, from);
    }
  }

  lemma LineShows(slot: RomSlot, word: nat, g: nat)
    requires Placed(slot) && IsChecked(slot, g)
    ensures g >= slot.addrBase && LevelShown(slot, word, g) == if ReadsHigh(slot, word, g) then 1 else 0
  {
  }

  lemma NoLines(slot: RomSlot, word: nat)
    requires Placed(slot) && slot.csAlg.CsOther?
    ensures SelectsShow(slot, word)
  {
  }

  lemma QualifierBits(slot: RomSlot, word: nat, k: nat)
    requires slot.csAlg.Cs2? && slot.addrBase <= slot.csGpioBase + slot.csAlg.baseQualifierPin
    ensures Bit(Qualifiers(slot, word), k)
            <==> k < slot.csAlg.numQualifierPins
                 && Bit(word, slot.csGpioBase + slot.csAlg.baseQualifierPin + k - slot.addrBase)
  {
    var from := slot.csGpioBase + slot.csAlg.baseQualifierPin - slot.addrBase;
    LowBitsBits(HighBits(word, from), slot.csAlg.numQualifierPins, k);
    HighBitsBits(word, from, k);
  }

  lemma {:induction false} HighBitsBits(w: nat, n: nat, k: nat)
    ensures Bit(HighBits(w, n), k) == Bit(w, n + k)
  {
    if n != 0 {
      HighBitsBits(w / 2, n - 1, k);
    }
  }

  // ---------------------------------------------------------------------
  // The check
  // ---------------------------------------------------------------------

  method PinShows(slot: RomSlot, word: nat, g: nat, expected: nat) returns (ok: bool)
    requires slot.addrBase <= g
    ensures ok <==> LevelShown(slot, word, g) == expected
  {
    var o := GetGpioOverride(slot, g);
    match o {
      case Normal => ok := AsLevel(Bit(word, g - slot.addrBase)) == expected;
      case Invert => ok := AsLevel(Bit(word, g - slot.addrBase)) == expected;
      case Low => ok := expected == 0;
      case High => ok := expected == 1;
    }
  }

  method SelectPinsShow(slot: RomSlot, word: nat, base: nat, num: nat) returns (ok: bool)
    requires Placed(slot) && !slot.csAlg.CsOther? && !slot.csAlg.Cs2?
    requires forall g: nat :: IsChecked(slot, g)
                         <==> base <= g < base + num && (slot.csAlg.Cs1? ==> g != base + slot.csAlg.csIgnoreIndex)
    ensures ok <==> SelectsShow(slot, word)
  {
    hide IsChecked, LevelShown;
    for i := 0 to num
      invariant forall g: nat :: base <= g < base + i && IsChecked(slot, g) ==>
          LevelShown(slot, word, g) == Expected(slot)
    {
      if !(slot.csAlg.Cs1? && i == slot.csAlg.csIgnoreIndex) {
        assert IsChecked(slot, base + i);
        ok := PinShows(slot, word, base + i, Expected(slot));
        if !ok {
          return false;
        }
      }
    }
    return true;
  }

  /** The X pins of a Multi set. */
  method OthersAreIdle(slot: RomSlot, board: Board, word: nat) returns (ok: bool)
    requires |slot.addr| == MAX_ADDR_PINS
    ensures ok <==> OthersIdle(slot, board, word)
  {
    hide IsLast, Bit;
    if slot.slotType != MultiRom {
      return true;
    }
    var x1, x2 := FindXPins(slot, board);
    LastIs(slot, board, X1, x1, 0);
    LastIs(slot, board, X2, x2, 0);
    forall k: nat
      ensures var o := Some(slot.addrBase + k);
        Masked(slot, board, k) <==> slot.addrBase + k < GPIO_NONE && (x1 == o || x2 == o)
    {
      LastIs(slot, board, X1, x1, slot.addrBase + k);
      LastIs(slot, board, X2, x2, slot.addrBase + k);
    }
    if x1.Some? && x1.value < GPIO_NONE && Bit(word, x1.value - slot.addrBase) {
      assert Masked(slot, board, x1.value - slot.addrBase);
      return false;
    }
    if x2.Some? && x2.value < GPIO_NONE && Bit(word, x2.value - slot.addrBase) {
      assert Masked(slot, board, x2.value - slot.addrBase);
      return false;
    }
    return true;
  }

  method CheckControlPins(slot: RomSlot, board: Board, word: nat) returns (r: Result<(), Error>)
    requires |slot.addr| == MAX_ADDR_PINS && Placed(slot)
    ensures r == if slot.csAlg == CsOther then Err(Unsupported)
                 else if Shown(slot, board, word) then Ok(()) else Err(ControlPinActive)
  {
    hide OthersIdle, LevelShown, Qualifiers;
    var ok;
    match slot.csAlg {
      case Cs0(base, num, _) =>
        if slot.slotType == MultiRom {
          ok := SelectPinsShow(slot, word, slot.csGpioBase + base, num);
        } else {
          ok := SelectPinsShow(slot, word, slot.csGpioBase + slot.baseCsPin, slot.numCsPins);
        }
        if ok {
          ok := OthersAreIdle(slot, board, word);
        }
      case Cs1(_) =>
        ok := SelectPinsShow(slot, word, slot.csGpioBase + slot.baseCsPin, slot.numCsPins);
      case Cs2(_, _, inactive) =>
        assert IsChecked(slot, slot.csGpioBase + slot.baseCsPin);
        ok := PinShows(slot, word, slot.csGpioBase + slot.baseCsPin, 0);
        if ok {
          ok := Qualifiers(slot, word) != inactive;
        }
      case CsOther =>
        return Err(Unsupported);
    }
    return if ok then Ok(()) else Err(ControlPinActive);
  }

  // ---------------------------------------------------------------------
  // pio_demangle_observed_addr and pio_demangle_addr
  // ---------------------------------------------------------------------

  /** `address`, unless the check is on and finds the chip not selected. */
  ghost function Checked(slot: RomSlot, board: Board, word: nat, check: bool, address: nat): Result<nat, Error>
    requires Placed(slot)
  {
    if check && slot.csAlg == CsOther then Err(Unsupported)
    else if check && !Shown(slot, board, word) then Err(ControlPinActive)
    else Ok(address)
  }

  method DemangleObservedAddr(slot: RomSlot, board: Board, word: nat, check: bool) returns (r: Result<nat, Error>)
    requires PinMap.Valid(slot) && Placed(slot)
    ensures r == Checked(slot, board, word, check, DemangleObserved(slot, word))
  {
    hide Shown, DemangleObserved, Placed;
    if check {
      var checked := CheckControlPins(slot, board, word);
      if checked.Err? {
        return Err(checked.error);
      }
    }
    var logical := ExtractAddr(slot, word);
    return Ok(logical);
  }

  /** The window part of a table index. */
  function WindowOf(slot: RomSlot, physical: nat): nat {
    if slot.wordSize == 16 then physical / 2 else physical
  }

  method DemangleAddr(slot: RomSlot, board: Board, physical: nat, check: bool) returns (r: Result<nat, Error>)
    requires PinMap.Valid(slot) && Placed(slot)
    ensures r == Checked(slot, board, WindowOf(slot, physical), check, Demangle(slot, physical))
  {
    hide Shown, Placed;
    r := DemangleObservedAddr(slot, board, WindowOf(slot, physical), check);
    if r.Ok? && slot.wordSize == 16 {
      GatherBelow(AddrLanes(slot), physical / 2);
      Pow2Monotone(NumAddr(slot), 24);
      Pow2Values();
      r := Ok((2 * r.value) % WORD + physical % 2);
    }
  }

  // ---------------------------------------------------------------------
  // What the check makes of a mapped address
  // ---------------------------------------------------------------------

  /** The level at which pio_map_addr_to_phys leaves a select line: high in a Multi set,
      low otherwise, unless an override forces it. */
  function MapLevel(slot: RomSlot, g: nat): nat {
    match OverrideOf(slot.overrides, g)
    case Low => 0
    case High => 1
    case _ => AsLevel(slot.slotType == MultiRom && (slot.csAlg.Cs0? || slot.csAlg.Cs1?))
  }

  ghost predicate MapSelects(slot: RomSlot) {
    forall g: nat :: IsChecked(slot, g) ==> MapLevel(slot, g) == Expected(slot)
  }

  /** The metadata keeps the select lines apart from the address lines, and chip 0's
      selects among the selects. */
  ghost predicate SelectsApart(slot: RomSlot) {
    && (forall g: nat :: IsChecked(slot, g) ==> !IsAddressPin(slot, g))
    && (slot.csAlg.Cs0? && slot.slotType == MultiRom ==> forall g: nat :: IsChecked(slot, g) ==> InSelectRange(slot, g))
  }

  /** Demangling a mapped address with the check on gives it back if and only if the
      select lines, as the map leaves them, are at the level the chip is served at and,
      under AlgCs2, the address is not in the deselected range; it is refused otherwise. */
  lemma CheckedRoundTrip(slot: RomSlot, board: Board, a: nat)
    requires PinMap.Valid(slot) && AddrUnforced(slot) && Placed(slot) && SelectsApart(slot) && slot.csAlg != CsOther
    ensures var physical := MapAddr(slot, a);
      Checked(slot, board, WindowOf(slot, physical), true, Demangle(slot, physical)) ==
        if MapSelects(slot)
           && (slot.csAlg.Cs2? ==> Qualifiers(slot, WindowOf(slot, physical)) != slot.csAlg.inactivePattern)
        then Ok(LowBits(a, AddrBits(slot))) else Err(ControlPinActive)
  {
    hide PinMap.Valid, Window, Demangle, IsChecked, LevelShown, MapLevel, OthersIdle, Qualifiers;
    var line := if slot.wordSize == 16 then a / 2 else a;
    DemangleInvertsMap(slot, a);
    assert WindowOf(slot, MapAddr(slot, a)) == Window(slot, line);
    forall g: nat | IsChecked(slot, g) ensures LevelShown(slot, Window(slot, line), g) == MapLevel(slot, g) {
      MapShowsLevel(slot, line, g);
    }
    if slot.csAlg.Cs0? {
      MapLeavesOthersIdle(slot, board, line);
    }
  }

  lemma MapShowsLevel(slot: RomSlot, line: nat, g: nat)
    requires PinMap.Valid(slot) && Placed(slot) && SelectsApart(slot) && IsChecked(slot, g)
    ensures LevelShown(slot, Window(slot, line), g) == MapLevel(slot, g)
  {
    hide Window, PinMap.Valid, IsAddressPin;
    WindowBits(slot, line, g - slot.addrBase);
    assert !IsAddressPin(slot, g);
    NotAddressPin(slot, g);
    if slot.slotType == MultiRom {
      SelectsAreChecked(slot, g);
    }
  }

  lemma NotAddressPin(slot: RomSlot, g: nat)
    requires !IsAddressPin(slot, g)
    ensures forall i :: 0 <= i < NumAddr(slot) ==> slot.addr[i] != g
  {
  }

  /** In a Multi set the lines the map sets are the lines the check reads. */
  lemma SelectsAreChecked(slot: RomSlot, g: nat)
    requires slot.slotType == MultiRom
    ensures g in ChipSelectGpios(slot) <==> IsChecked(slot, g) && !slot.csAlg.Cs2?
  {
    if slot.csAlg.Cs0? && IsChecked(slot, g) {
      assert ChipSelectGpios(slot)[g - (slot.csGpioBase + slot.csAlg.firstRomCsBase)] == g;
    }
  }

  lemma MapLeavesOthersIdle(slot: RomSlot, board: Board, line: nat)
    requires PinMap.Valid(slot) && SelectsApart(slot) && slot.csAlg.Cs0?
    ensures OthersIdle(slot, board, Window(slot, line))
  {
    hide Window, PinMap.Valid, IsAddressPin;
    forall k: nat | Masked(slot, board, k) ensures !Bit(Window(slot, line), k) {
      var g := slot.addrBase + k;
      WindowBits(slot, line, k);
      NotAddressPin(slot, g);
      SelectsAreChecked(slot, g);
    }
  }

  /** A Multi set under AlgCs1 is refused whatever the address: the map raises its select
      lines, the check wants them low. */
  lemma MultiCs1Refused(slot: RomSlot, board: Board, a: nat, g: nat)
    requires PinMap.Valid(slot) && AddrUnforced(slot) && Placed(slot) && SelectsApart(slot)
    requires slot.slotType == MultiRom && slot.csAlg.Cs1? && IsChecked(slot, g) && OverrideOf(slot.overrides, g) != Low
    ensures Checked(slot, board, WindowOf(slot, MapAddr(slot, a)), true, Demangle(slot, MapAddr(slot, a)))
            == Err(ControlPinActive)
  {
    hide PinMap.Valid, Demangle;
    CheckedRoundTrip(slot, board, a);
  }
}
