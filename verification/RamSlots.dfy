/** RAM slots: the regions of SRAM a ROM can be served from
(OneROM/firmware/src/plugin.c, OneROM/firmware/src/piodma/pioplugin.c). */
module RamSlots {
  import opened Wrappers
  import opened Words
  import opened Bits
  import opened PinMap

  const SRAM_BASE: nat := 0x2000_0000
  const MAX_RAM_SLOTS: nat := 255

  datatype Error = InvalidArg | InvalidSlot | SlotActive | NoSlotActive | InternalError

  function RegionSize(slot: RomSlot): (r: nat)
    ensures r >= 1
  {
    Pow2(slot.numRomTableBits)
  }

  /** `ram_slot * region_size` */
  function SlotOffset(region: nat, s: nat): nat {
    if s == 0 then 0 else SlotOffset(region, s - 1) + region
  }

  lemma SlotOffsetIsProduct(region: nat, s: nat)
    ensures SlotOffset(region, s) == region * s
  {
    if s != 0 {
      SlotOffsetIsProduct(region, s - 1);
      assert region * s == region * (s - 1) + region;
    }
  }

  function SlotCount(imageSize: nat, region: nat): (count: nat)
    requires region >= 1
    ensures 1 <= count <= MAX_RAM_SLOTS
  {
    var count := imageSize / region;
    if count < 1 then 1 else if count > MAX_RAM_SLOTS then MAX_RAM_SLOTS else count
  }

  /** As many slots as fit, up to 255; one even where none does. */
  lemma SlotCountFits(imageSize: nat, region: nat)
    requires region >= 1
    ensures var count := SlotCount(imageSize, region);
      && (SlotOffset(region, count) <= imageSize <==> region <= imageSize)
      && (count < MAX_RAM_SLOTS ==> imageSize < SlotOffset(region, count + 1))
      && (imageSize < region ==> count == 1) && count <= 255
  {
    var count, q := SlotCount(imageSize, region), imageSize / region;
    var _, rest := QuotientOf(imageSize, region);
    if count < q {
      SlotWithin(q, region, count);
    }
    if q == 0 {
      SlotOffsetIsProduct(region, 1);
    }
  }

  // ---------------------------------------------------------------------
  // One slot's table, as a value
  // ---------------------------------------------------------------------

  /** What storing data[0..] at logical addresses offset, offset + 1, ... does to a table. */
  ghost function Programmed(slot: RomSlot, table: seq<nat>, offset: nat, data: seq<nat>): (t: seq<nat>)
    requires Valid(slot) && |table| == RegionSize(slot)
    ensures |t| == |table|
  {
    if data == [] then table
    else
      var n := |data| - 1;
      MapAddrBelow(slot, offset + n);
      Programmed(slot, table, offset, data[..n])[MapAddr(slot, offset + n) := LowBits(MapData(slot, data[n]), 8)]
  }

  /** The byte the chip serves at a logical address. */
  ghost function LogicalByte(slot: RomSlot, table: seq<nat>, a: nat): nat
    requires Valid(slot) && |table| == RegionSize(slot)
  {
    MapAddrBelow(slot, a);
    DemangleByte(slot, table[MapAddr(slot, a)])
  }

  ghost predicate Bytes(data: seq<nat>) {
    forall i :: 0 <= i < |data| ==> data[i] < 0x100
  }

  /** Reprogramming a range inside the chip's address space changes exactly that
      range, as the chip sees it: the data reads back, every other logical byte is kept. */
  lemma {:induction false} ProgrammedReadsBack(slot: RomSlot, table: seq<nat>, offset: nat, data: seq<nat>, a: nat)
    requires Valid(slot) && |table| == RegionSize(slot)
    requires AddrUnforced(slot) && ByteLaneLossless(slot) && Bytes(data)
    requires offset + |data| <= Pow2(AddrBits(slot)) && a < Pow2(AddrBits(slot))
    ensures LogicalByte(slot, Programmed(slot, table, offset, data), a) ==
            if offset <= a < offset + |data| then data[a - offset] else LogicalByte(slot, table, a)
  {
    hide MapAddr, MapData, DemangleByte, PinMap.Valid, AddrUnforced, ByteLaneLossless;
    if data != [] {
      var n := |data| - 1;
      ProgrammedReadsBack(slot, table, offset, data[..n], a);
      MapAddrBelow(slot, a);
      MapAddrBelow(slot, offset + n);
      if a == offset + n {
        DataRoundTrip(slot, data[n]);
      } else {
        MapAddrInjective(slot, a, offset + n);
      }
    }
  }

  /** Outside that address space the upper bits are ignored: a range that ends there,
      inside the region or past 2^32, lands on an aliased address instead. */
  lemma WriteBeyondChipAliases(slot: RomSlot, table: seq<nat>, offset: nat, data: seq<nat>)
    requires Valid(slot) && |table| == RegionSize(slot)
    requires AddrUnforced(slot) && ByteLaneLossless(slot) && Bytes(data) && data != []
    requires Pow2(AddrBits(slot)) < offset + |data|
    ensures var last := offset + |data| - 1;
      var alias := LowBits(last, AddrBits(slot));
      && alias < Pow2(AddrBits(slot)) && alias != last
      && LogicalByte(slot, Programmed(slot, table, offset, data), alias) == data[|data| - 1]
  {
    hide MapAddr, MapData, DemangleByte, PinMap.Valid, AddrUnforced, ByteLaneLossless, Pow2, LowBits;
    var n := |data| - 1;
    LowBitsBelow(offset + n, AddrBits(slot));
    MapIgnoresUpperBits(slot, offset + n);
    MapAddrBelow(slot, offset + n);
    DataRoundTrip(slot, data[n]);
  }

  /** A logical address shows the data stored there, or what it showed before. */
  ghost predicate ShowsStored(slot: RomSlot, table: seq<nat>, offset: nat, data: seq<nat>, a: nat)
    requires Valid(slot) && |table| == RegionSize(slot)
  {
    LogicalByte(slot, Programmed(slot, table, offset, data), a)
    == if offset <= a < offset + |data| then data[a - offset] else LogicalByte(slot, table, a)
  }

  /** Whatever the table held and whatever n bytes are stored at offset, every address of
      the chip shows them, or what it showed before. */
  ghost predicate RoundTrips(slot: RomSlot, offset: nat, n: nat)
    requires Valid(slot)
  {
    forall table: seq<nat>, data: seq<nat>, a: nat ::
      |table| == RegionSize(slot) && |data| == n && Bytes(data) && a < Pow2(AddrBits(slot)) ==>
        ShowsStored(slot, table, offset, data, a)
  }

  /** A range makes the round trip if and only if it ends inside the chip's address
      space.  The bounds check lets others through: those that end inside the region, and
      those whose end wraps past 2^32 into it. */
  lemma RoundTripIff(slot: RomSlot, offset: nat, n: nat)
    requires Valid(slot) && AddrUnforced(slot) && ByteLaneLossless(slot)
    requires n >= 1
    ensures RoundTrips(slot, offset, n) <==> offset + n <= Pow2(AddrBits(slot))
  {
    hide LogicalByte, Programmed, AddrUnforced, ByteLaneLossless, PinMap.Valid, Pow2;
    if offset + n <= Pow2(AddrBits(slot)) {
      forall table: seq<nat>, data: seq<nat>, a: nat
        | |table| == RegionSize(slot) && |data| == n && Bytes(data) && a < Pow2(AddrBits(slot))
        ensures ShowsStored(slot, table, offset, data, a)
      {
        ProgrammedReadsBack(slot, table, offset, data, a);
      }
    } else {
      var table: seq<nat> := seq(RegionSize(slot), _ => 0);
      var alias := LowBits(offset + n - 1, AddrBits(slot));
      var was := LogicalByte(slot, table, alias);
      LogicalByteSmall(slot, table, alias);
      var data: seq<nat> := seq(n, i requires 0 <= i < n => if i == n - 1 then (was + 1) % 0x100 else was);
      WriteBeyondChipAliases(slot, table, offset, data);
      assert !ShowsStored(slot, table, offset, data, alias);
    }
  }

  lemma LogicalByteSmall(slot: RomSlot, table: seq<nat>, a: nat)
    requires Valid(slot) && |table| == RegionSize(slot)
    ensures LogicalByte(slot, table, a) < 0x100
  {
    hide MapAddr;
    MapAddrBelow(slot, a);
    GatherBelow(DataLanes(slot)[..8], table[MapAddr(slot, a)]);
    Pow2Values();
  }

  lemma MapIgnoresUpperBits(slot: RomSlot, a: nat)
    requires Valid(slot)
    ensures MapAddr(slot, LowBits(a, AddrBits(slot))) == MapAddr(slot, a)
  {
    hide PinMap.Valid, Window, Pow2;
    WindowIgnoresUpperBits(slot, if slot.wordSize == 16 then a / 2 else a);
  }

  lemma MapWraps(slot: RomSlot, a: nat)
    requires Valid(slot)
    ensures MapAddr(slot, a % WORD) == MapAddr(slot, a)
  {
    hide MapAddr, PinMap.Valid, LowBits, Pow2, NumAddr;
    MapIgnoresUpperBits(slot, a);
    MapIgnoresUpperBits(slot, a % WORD);
    AddrBitsFitTable(slot);
    TableBitsFit(slot);
    Pow2Values();
    LowBitsIsMod(a, 32);
    var n := AddrBits(slot);
    forall k: nat ensures Bit(LowBits(a % WORD, n), k) == Bit(LowBits(a, n), k) {
      LowBitsBits(a, 32, k);
      LowBitsBits(a % WORD, n, k);
      LowBitsBits(a, n, k);
    }
    SameBits(LowBits(a % WORD, n), LowBits(a, n));
  }

  lemma TableBitsFit(slot: RomSlot)
    requires Valid(slot)
    ensures slot.numRomTableBits <= 28
  {
  }

  lemma WindowIgnoresUpperBits(slot: RomSlot, line: nat)
    requires Valid(slot)
    ensures Window(slot, LowBits(line, NumAddr(slot))) == Window(slot, line)
  {
    hide PinMap.Valid, Window, LowBits;
    var low := LowBits(line, NumAddr(slot));
    forall k: nat ensures Bit(Window(slot, low), k) == Bit(Window(slot, line), k) {
      WindowBits(slot, low, k);
      WindowBits(slot, line, k);
      forall i: nat | i < NumAddr(slot) ensures Bit(low, i) == Bit(line, i) {
        LowBitsBits(line, NumAddr(slot), i);
      }
    }
    SameBits(Window(slot, low), Window(slot, line));
  }

  // ---------------------------------------------------------------------
  // The device
  // ---------------------------------------------------------------------

  /** The SRAM image and the part of RUNTIME that says which slot is served. */
  class Device {
    const sram: array<nat>
    const imageSize: nat
    const slot: RomSlot
    var romTable: nat       // RUNTIME->rom_table, as an address
    var currentRamSlot: nat
    var prefix: nat         // X of the address state machine

    function Region(): (r: nat)
      ensures r >= 1
    {
      RegionSize(slot)
    }

    function Count(): (c: nat)
      ensures 1 <= c <= MAX_RAM_SLOTS
    {
      SlotCount(imageSize, Region())
    }

    /** The image holds its slots, and regions are aligned in the address space. */
    ghost predicate Valid()
      reads this
    {
      && PinMap.Valid(slot)
      && SlotOffset(Region(), Count()) <= sram.Length
      && SRAM_BASE + SlotOffset(Region(), Count()) < WORD
    }

    /** The table a slot serves from. */
    ghost function Table(s: nat): (t: seq<nat>)
      requires Valid() && s < Count()
      reads this, sram
      ensures |t| == Region()
    {
      SlotWithin(Count(), Region(), s);
      sram[SlotOffset(Region(), s)..SlotOffset(Region(), s) + Region()]
    }

    constructor (slot: RomSlot, imageSize: nat, romTable: nat)
      requires PinMap.Valid(slot)
      requires SRAM_BASE + SlotOffset(RegionSize(slot), SlotCount(imageSize, RegionSize(slot))) < WORD
      ensures Valid() && this.slot == slot && this.romTable == romTable && currentRamSlot == 0 && fresh(sram)
      ensures prefix == Prefix(romTable, slot.numRomTableBits)
    {
      this.slot := slot;
      this.imageSize := imageSize;
      this.sram := new nat[SlotOffset(RegionSize(slot), SlotCount(imageSize, RegionSize(slot)))](_ => 0);
      this.romTable := romTable;
      this.currentRamSlot := 0;
      this.prefix := Prefix(romTable, slot.numRomTableBits);
    }

    /** ora_get_ram_slot_info: address and size. */
    function SlotInfo(s: nat): (r: Result<(nat, nat), Error>)
      ensures s >= Count() ==> r == Err(InvalidSlot)
      ensures s < Count() ==> r == Ok((SRAM_BASE + SlotOffset(Region(), s), Region()))
    {
      if s >= Count() then Err(InvalidSlot) else Ok((SRAM_BASE + SlotOffset(Region(), s), Region()))
    }

    /** What the address means: slots lie in the image, apart from each other, and a
        slot's table is what stands there. */
    lemma SlotsShareNothing(s: nat, t: nat)
      requires Valid() && SlotInfo(s).Ok? && SlotInfo(t).Ok?
      ensures var (a, size) := SlotInfo(s).value;
        && SRAM_BASE <= a && a + size <= SRAM_BASE + sram.Length && a + size < WORD
        && Table(s) == sram[a - SRAM_BASE..a - SRAM_BASE + size]
      ensures var (a, size) := SlotInfo(s).value;
        var b := SlotInfo(t).value.0;
        s != t ==> a + size <= b || b + size <= a
    {
      hide PinMap.Valid, SlotCount, RegionSize, SlotOffset;
      SlotWithin(Count(), Region(), s);
      if s != t {
        SlotsApart(Region(), s, t);
      }
    }

    method GetActiveRamSlot() returns (r: Result<nat, Error>)
      requires Valid()
      ensures (romTable == 0 || romTable == 0xFFFF_FFFF) <==> r == Err(NoSlotActive)
      ensures r.Ok?
              <==> (romTable != 0xFFFF_FFFF
                    && exists s: nat :: s < Count() && romTable == SRAM_BASE + SlotOffset(Region(), s))
      ensures r.Ok? ==> r.value < Count() && romTable == SRAM_BASE + SlotOffset(Region(), r.value)
    {
      if romTable == 0 || romTable == 0xFFFF_FFFF {
        return Err(NoSlotActive);
      }
      var region := Region();
      var limit := SRAM_BASE + SlotOffset(region, Count());
      if romTable < SRAM_BASE || romTable >= limit {
        forall s: nat | s < Count() ensures romTable != SRAM_BASE + SlotOffset(region, s) {
          SlotWithin(Count(), region, s);
        }
        return Err(InternalError);
      }
      var off: nat := romTable - SRAM_BASE;
      OffsetDivMod(off, region, Count());
      return if off % region != 0 then Err(InternalError) else Ok(off / region);
    }

    /** Selects the region served: the prefix register changes in one step, and
        nothing else the state machine uses does. */
    method SetActiveRamSlot(s: nat) returns (r: Result<(), Error>)
      requires Valid()
      modifies this
      ensures Valid()
      ensures s >= Count() ==> r == Err(InvalidSlot) && unchanged(this)
      ensures s < Count() ==> r == Ok(()) && currentRamSlot == s && romTable == SRAM_BASE + SlotOffset(Region(), s)
      ensures s < Count() ==> prefix == Prefix(romTable, slot.numRomTableBits) && prefix * Region() == romTable
    {
      var info := SlotInfo(s);
      if info.Err? {
        return Err(InvalidSlot);
      }
      SwitchRomRegion(info.value.0);
      SlotWithin(Count(), Region(), s);
      PrefixExact(slot.numRomTableBits, s);
      currentRamSlot := s;
      return Ok(());
    }

    method SwitchRomRegion(newRegionAddr: nat)
      requires Valid()
      modifies this
      ensures Valid()
      ensures romTable == newRegionAddr && currentRamSlot == old(currentRamSlot)
      ensures prefix == Prefix(newRegionAddr, slot.numRomTableBits)
    {
      romTable := newRegionAddr;
      prefix := Prefix(newRegionAddr, slot.numRomTableBits);
    }

    /** pio_reprogram_ram_rom_slot.  `offset + len` is a 32-bit sum in the source, and so
        is each `offset + i`. */
    method Reprogram(s: nat, offset: nat, data: seq<nat>, allowActive: bool) returns (r: Result<(), Error>)
      requires Valid() && offset < WORD && |data| < WORD
      modifies sram
      ensures data == [] ==> r == Err(InvalidArg)
      ensures data != [] && s >= Count() ==> r == Err(InvalidSlot)
      ensures data != [] && s < Count() && (offset + |data|) % WORD > Region() ==> r == Err(InvalidArg)
      ensures data != [] && s < Count() && (offset + |data|) % WORD <= Region() ==>
                r == if !allowActive && romTable == SRAM_BASE + SlotOffset(Region(), s) then Err(SlotActive) else Ok(())
      ensures r.Err? ==> sram[..] == old(sram[..])
      ensures r.Ok? ==> Table(s) == Programmed(slot, old(Table(s)), offset, data)
      ensures r.Ok? ==> forall t: nat :: t < Count() && t != s ==> Table(t) == old(Table(t))
    {
      if data == [] {
        return Err(InvalidArg);
      }
      var info := SlotInfo(s);
      if info.Err? {
        return Err(InvalidSlot);
      }
      if (offset + |data|) % WORD > info.value.1 {
        return Err(InvalidArg);
      }
      if !allowActive {
        var active := GetActiveRamSlot();
        if active == Ok(s) {
          return Err(SlotActive);
        }
        assert romTable != SRAM_BASE + SlotOffset(Region(), s) by {
          if romTable == SRAM_BASE + SlotOffset(Region(), s) {
            SlotWithin(Count(), Region(), s);
            assert active.Ok?;
            SlotsApart(Region(), s, active.value);
            assert false;
          }
        }
      }
      StoreMapped(s, offset, data);
      return Ok(());
    }

    method StoreMapped(s: nat, offset: nat, data: seq<nat>)
      requires Valid() && s < Count()
      modifies sram
      ensures Table(s) == Programmed(slot, old(Table(s)), offset, data)
      ensures forall t: nat :: t < Count() && t != s ==> Table(t) == old(Table(t))
    {
      hide MapAddr, MapData, PinMap.Valid, LowBits, SlotOffset, SlotCount, NumAddr;
      ghost var was := Table(s);
      ghost var before := sram[..];
      SlotWithin(Count(), Region(), s);
      var base := SlotOffset(Region(), s);
      for i := 0 to |data|
        invariant Table(s) == Programmed(slot, was, offset, data[..i])
        invariant forall k :: 0 <= k < sram.Length && !(base <= k < base + Region()) ==> sram[k] == before[k]
      {
        MapWraps(slot, offset + i);
        var physicalAddr := MapAddrToPhys(slot, (offset + i) % WORD);
        var physicalData := MapDataToPhys(slot, data[i]);
        MapAddrBelow(slot, offset + i);
        assert data[..i + 1][..i] == data[..i];
        ghost var prev := Table(s);
        sram[base + physicalAddr] := LowBits(physicalData, 8);
        assert Table(s) == prev[physicalAddr := LowBits(physicalData, 8)];
      }
      assert data[..|data|] == data;
      forall t: nat | t < Count() && t != s ensures Table(t) == old(Table(t)) {
        SlotWithin(Count(), Region(), t);
        SlotsApart(Region(), s, t);
      }
    }

    /** pio_read_ram_rom_slot: the logical bytes of a range, whichever slot is active. */
    method ReadSlot(s: nat, offset: nat, len: nat) returns (r: Result<seq<nat>, Error>)
      requires Valid() && offset < WORD && len < WORD
      ensures len == 0 ==> r == Err(InvalidArg)
      ensures len != 0 && s >= Count() ==> r == Err(InvalidSlot)
      ensures len != 0 && s < Count() && (offset + len) % WORD > Region() ==> r == Err(InvalidArg)
      ensures len != 0 && s < Count() && (offset + len) % WORD <= Region() ==> r.Ok? && |r.value| == len
      ensures r.Ok? ==> s < Count() && forall i :: 0 <= i < |r.value| ==>
              r.value[i] == LogicalByte(slot, Table(s), offset + i)
    {
      hide MapAddr, PinMap.Valid, SlotOffset, SlotCount, NumAddr, Pow2, DemangleByte;
      if len == 0 {
        return Err(InvalidArg);
      }
      var info := SlotInfo(s);
      if info.Err? {
        return Err(InvalidSlot);
      }
      if (offset + len) % WORD > info.value.1 {
        return Err(InvalidArg);
      }
      SlotWithin(Count(), Region(), s);
      var base := SlotOffset(Region(), s);
      var buf: seq<nat> := [];
      for i := 0 to len
        invariant |buf| == i
        invariant forall k :: 0 <= k < i ==> buf[k] == LogicalByte(slot, Table(s), offset + k)
      {
        MapWraps(slot, offset + i);
        var physicalOffset := MapAddrToPhys(slot, (offset + i) % WORD);
        MapAddrBelow(slot, offset + i);
        assert sram[base + physicalOffset] == Table(s)[physicalOffset];
        var byte := DemangleData(slot, sram[base + physicalOffset]);
        buf := buf + [byte];
      }
      return Ok(buf);
    }

    /** The whole trip: what was stored comes back, and nothing else of the chip moved. */
    method ReprogramThenRead(s: nat, offset: nat, data: seq<nat>) returns (r: Result<seq<nat>, Error>)
      requires Valid() && AddrUnforced(slot) && ByteLaneLossless(slot)
      requires s < Count() && data != [] && Bytes(data) && offset + |data| <= Pow2(AddrBits(slot))
      modifies sram
      ensures r == Ok(data)
      ensures forall a: nat :: a < Pow2(AddrBits(slot)) && !(offset <= a < offset + |data|) ==>
                LogicalByte(slot, Table(s), a) == old(LogicalByte(slot, Table(s), a))
      ensures forall t: nat :: t < Count() && t != s ==> Table(t) == old(Table(t))
    {
      hide MapAddr, MapData, DemangleByte, LogicalByte, Programmed, AddrUnforced, ByteLaneLossless;
      hide Pow2, SlotOffset, SlotCount, NumAddr;
      ghost var was := Table(s);
      AddrBitsFitTable(slot);
      Pow2Monotone(AddrBits(slot), slot.numRomTableBits);
      RegionBelowWord(slot);
      var done := Reprogram(s, offset, data, true);
      forall a: nat | a < Pow2(AddrBits(slot))
        ensures LogicalByte(slot, Table(s), a) ==
                if offset <= a < offset + |data| then data[a - offset] else LogicalByte(slot, was, a)
      {
        ProgrammedReadsBack(slot, was, offset, data, a);
      }
      r := ReadSlot(s, offset, |data|);
      assert r.value == data;
    }
  }

  lemma SlotWithin(count: nat, region: nat, s: nat)
    requires s < count
    ensures SlotOffset(region, s) + region <= SlotOffset(region, count)
  {
    if s < count - 1 {
      SlotWithin(count - 1, region, s);
    }
  }

  lemma SlotsApart(region: nat, s: nat, t: nat)
    requires s != t
    ensures SlotOffset(region, s) + region <= SlotOffset(region, t)
            || SlotOffset(region, t) + region <= SlotOffset(region, s)
  {
    if s < t {
      SlotWithin(t, region, s);
    } else {
      SlotWithin(s, region, t);
    }
  }

  /** Offsets below `count` regions are a slot's base just when the region divides them. */
  lemma OffsetDivMod(off: nat, region: nat, count: nat)
    requires region >= 1 && off < SlotOffset(region, count)
    ensures off / region < count
    ensures off % region == 0 ==> off == SlotOffset(region, off / region)
    ensures off % region != 0 ==> forall s: nat :: off != SlotOffset(region, s)
  {
    var q, r := QuotientOf(off, region);
    if count <= q {
      if count < q {
        SlotWithin(q, region, count);
      }
      assert false;
    }
    if r != 0 {
      forall s: nat ensures off != SlotOffset(region, s) {
        if s <= q {
          if s < q {
            SlotWithin(q, region, s);
          }
        } else {
          SlotWithin(s, region, q);
        }
      }
    }
  }

  lemma QuotientOf(off: nat, region: nat) returns (q: nat, r: nat)
    requires region >= 1
    ensures q == off / region && r == off % region && r < region
    ensures off == SlotOffset(region, q) + r
  {
    DivModParts(off, region);
    q, r := off / region, off % region;
    SlotOffsetIsProduct(region, q);
  }

  lemma RegionBelowWord(slot: RomSlot)
    requires Valid(slot)
    ensures RegionSize(slot) <= 0x1000_0000
  {
    Pow2Monotone(slot.numRomTableBits, 28);
    Pow2Values();
  }

  /** What `pio_switch_rom_region` loads into the prefix register. */
  function Prefix(addr: nat, tableBits: nat): nat
    requires tableBits <= 32
  {
    LowBits(HighBits(addr, tableBits), 32 - tableBits)
  }

  lemma SlotOffsetSum(region: nat, k: nat, s: nat)
    ensures SlotOffset(region, k + s) == SlotOffset(region, k) + SlotOffset(region, s)
  {
    if s != 0 {
      SlotOffsetSum(region, k, s - 1);
    }
  }

  /** Nothing of a slot's address is lost in the prefix: the base of SRAM is a
      multiple of every region size. */
  lemma PrefixExact(tableBits: nat, s: nat)
    requires tableBits <= 28
    requires SRAM_BASE + SlotOffset(Pow2(tableBits), s) < WORD
    ensures Prefix(SRAM_BASE + SlotOffset(Pow2(tableBits), s), tableBits) * Pow2(tableBits)
            == SRAM_BASE + SlotOffset(Pow2(tableBits), s)
  {
    hide Pow2, LowBits, HighBits;
    var region, k, top := Pow2(tableBits), Pow2(29 - tableBits), Pow2(32 - tableBits);
    SramBaseIsRegions(tableBits);
    SlotOffsetSum(region, k, s);
    var q, addr := k + s, SRAM_BASE + SlotOffset(region, s);
    if top <= q {
      if top < q {
        SlotWithin(q, region, top);
      }
      assert false;
    }
    SlotOffsetIsProduct(region, q);
    ConcatParts(q, 0, tableBits);
    LowBitsOfSmall(q, 32 - tableBits);
  }

  lemma SramBaseIsRegions(tableBits: nat)
    requires tableBits <= 28
    ensures SlotOffset(Pow2(tableBits), Pow2(29 - tableBits)) == SRAM_BASE
    ensures SlotOffset(Pow2(tableBits), Pow2(32 - tableBits)) == WORD
  {
    hide Pow2, SlotOffset;
    Pow2Values();
    Pow2Add(29 - tableBits, tableBits);
    Pow2Add(32 - tableBits, tableBits);
    SlotOffsetIsProduct(Pow2(tableBits), Pow2(29 - tableBits));
    SlotOffsetIsProduct(Pow2(tableBits), Pow2(32 - tableBits));
  }
}
