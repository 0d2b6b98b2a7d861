/** The expansion pins X1 and X2 (OneROM/firmware/src/piodma/pioplugin.c,
v2_get_x_pin_gpios): the pins of the sampled window that are neither address pins nor
chip selects, told apart by the board's own lists. */
module ExpansionPins {
  import opened Wrappers
  import opened Bits
  import opened PinMap

  /** HW->gpio_x1 and HW->gpio_x2 */
  datatype Board = Board(x1: seq<nat>, x2: seq<nat>)

  datatype XPin = X1 | X2

  predicate IsAddressPin(slot: RomSlot, g: nat) {
    exists i :: 0 <= i < NumAddr(slot) && slot.addr[i] == g
  }

  predicate InSelectRange(slot: RomSlot, g: nat) {
    slot.csGpioBase + slot.baseCsPin <= g < slot.csGpioBase + slot.baseCsPin + slot.numCsPins
  }

  /** A spare pin of the window that the board lists as this one; X1 is looked for first. */
  predicate Is(slot: RomSlot, board: Board, g: nat, which: XPin) {
    && slot.addrBase <= g < slot.addrBase + slot.numAddrPins
    && !IsAddressPin(slot, g) && !InSelectRange(slot, g)
    && (if g in board.x1 then which == X1 else g in board.x2 && which == X2)
  }

  /** X2 only where the board does not list the pin for X1 too. */
  lemma IsMeans(slot: RomSlot, board: Board, g: nat)
    ensures var first := slot.csGpioBase + slot.baseCsPin;
      var spare := && slot.addrBase <= g < slot.addrBase + slot.numAddrPins
                   && (forall i :: 0 <= i < NumAddr(slot) ==> slot.addr[i] != g)
                   && (g < first || g >= first + slot.numCsPins);
      && (Is(slot, board, g, X1) <==> spare && g in board.x1)
      && (Is(slot, board, g, X2) <==> spare && g in board.x2 && g !in board.x1)
  {
  }

  /** The highest such pin: a later match replaces an earlier one. */
  ghost predicate IsLast(slot: RomSlot, board: Board, g: nat, which: XPin) {
    Is(slot, board, g, which) && forall h: nat :: h > g ==> !Is(slot, board, h, which)
  }

  ghost predicate Found(slot: RomSlot, board: Board, which: XPin, o: Option<nat>) {
    if o.Some? then IsLast(slot, board, o.value, which) else forall g: nat :: !Is(slot, board, g, which)
  }

  method AddressPin(slot: RomSlot, g: nat) returns (found: bool)
    requires |slot.addr| == MAX_ADDR_PINS
    ensures found == IsAddressPin(slot, g)
  {
    var n := 0;
    while n < MAX_ADDR_PINS
      invariant n <= NumAddr(slot)
      invariant forall i :: 0 <= i < n ==> slot.addr[i] != g
    {
      if slot.addr[n] >= GPIO_NONE { break; }
      if slot.addr[n] == g {
        return true;
      }
      n := n + 1;
    }
    return false;
  }

  method FindXPins(slot: RomSlot, board: Board) returns (x1: Option<nat>, x2: Option<nat>)
    requires |slot.addr| == MAX_ADDR_PINS
    ensures slot.slotType == SingleRom ==> x1 == None && x2 == None
    ensures slot.slotType != SingleRom ==> Found(slot, board, X1, x1) && Found(slot, board, X2, x2)
  {
    x1, x2 := None, None;
    if slot.slotType == SingleRom {
      return;
    }
    for g := slot.addrBase to slot.addrBase + slot.numAddrPins
      invariant FoundBelow(slot, board, X1, x1, g) && FoundBelow(slot, board, X2, x2, g)
    {
      var isAddr := AddressPin(slot, g);
      if !isAddr && !InSelectRange(slot, g) {
        if g in board.x1 {
          x1 := Some(g);
        } else if g in board.x2 {
          x2 := Some(g);
        }
      }
    }
  }

  /** As far as the loop has come. */
  ghost predicate FoundBelow(slot: RomSlot, board: Board, which: XPin, o: Option<nat>, top: nat) {
    if o.Some? then
      o.value < top && Is(slot, board, o.value, which) &&
        forall g: nat :: o.value < g < top ==> !Is(slot, board, g, which)
    else forall g: nat :: g < top ==> !Is(slot, board, g, which)
  }

  /** The bits of the X mask of a Multi set; no other slot has one. */
  ghost predicate Masked(slot: RomSlot, board: Board, k: nat) {
    && slot.slotType == MultiRom && slot.addrBase + k < GPIO_NONE
    && (IsLast(slot, board, slot.addrBase + k, X1) || IsLast(slot, board, slot.addrBase + k, X2))
  }

  method XMask(slot: RomSlot, board: Board) returns (mask: nat)
    requires |slot.addr| == MAX_ADDR_PINS
    ensures forall k: nat :: Bit(mask, k) <==> Masked(slot, board, k)
  {
    hide IsLast, Bit, OrBit;
    mask := 0;
    NoBits();
    if slot.slotType == MultiRom {
      var x1, x2 := FindXPins(slot, board);
      LastIs(slot, board, X1, x1, 0);
      LastIs(slot, board, X2, x2, 0);
      if x1.Some? && x1.value < GPIO_NONE {
        OneMoreBit(mask, x1.value - slot.addrBase);
        mask := OrBit(mask, x1.value - slot.addrBase);
      }
      if x2.Some? && x2.value < GPIO_NONE {
        OneMoreBit(mask, x2.value - slot.addrBase);
        mask := OrBit(mask, x2.value - slot.addrBase);
      }
      forall k: nat ensures Bit(mask, k) <==> Masked(slot, board, k) {
        LastIs(slot, board, X1, x1, slot.addrBase + k);
        LastIs(slot, board, X2, x2, slot.addrBase + k);
      }
    }
  }

  lemma LastIs(slot: RomSlot, board: Board, which: XPin, o: Option<nat>, g: nat)
    requires Found(slot, board, which, o)
    ensures IsLast(slot, board, g, which) <==> o == Some(g)
    ensures o.Some? ==> o.value >= slot.addrBase
  {
    if o.Some? {
      assert Is(slot, board, o.value, which);
    }
  }

  lemma NoBits()
    ensures forall k: nat :: !Bit(0, k)
  {
    forall k: nat ensures !Bit(0, k) {
      ZeroHasNoBits(k);
    }
  }

  lemma OneMoreBit(w: nat, p: nat)
    ensures forall k: nat :: Bit(OrBit(w, p), k) == (k == p || Bit(w, k))
  {
    forall k: nat ensures Bit(OrBit(w, p), k) == (k == p || Bit(w, k)) {
      OrBitBits(w, p, k);
    }
  }
}
