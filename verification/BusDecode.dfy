/** The 1541HUD bus decoder (1541hud/artifacts/T0.0.16, probe): address and data bits
as they are wired, and the run of RAM writes that marks a header read from disk. */
module BusDecode {
  import opened Bits
  import opened PinMap

  // ---------------------------------------------------------------------
  // One captured word
  // ---------------------------------------------------------------------

  /** The GPIO of each data and address bit. */
  const DATA_GPIOS: seq<nat> := [7, 6, 5, 0, 1, 2, 3, 4]
  const ADDR_GPIOS: seq<nat> := [23, 22, 21, 20, 19, 18, 17, 16, 15, 14, 13, 11, 12]
  const CS2_GPIO: nat := 25

  function Wired(gpios: seq<nat>): (lanes: seq<Lane>)
    ensures |lanes| == |gpios|
    ensures forall i :: 0 <= i < |gpios| ==> lanes[i] == Lane(gpios[i], Normal)
  {
    seq(|gpios|, i requires 0 <= i < |gpios| => Lane(gpios[i], Normal))
  }

  /** logical_data_from_gpio and logical_addr13_from_gpio */
  function Data(v: nat): nat {
    Gather(Wired(DATA_GPIOS), v)
  }

  function Addr(v: nat): nat {
    Gather(Wired(ADDR_GPIOS), v)
  }

  predicate Uc2Selected(v: nat) {
    !Bit(v, CS2_GPIO)
  }

  predicate OrbWrite(v: nat) {
    Uc2Selected(v) && Addr(v) % 16 == 0
  }

  predicate RamWrite(v: nat, addr: nat) {
    !Uc2Selected(v) && Addr(v) == addr
  }

  /** Every bit of both comes from its own GPIO, and nothing else is in them. */
  lemma DecodedBits(v: nat, k: nat)
    ensures Bit(Data(v), k) == (k < 8 && Bit(v, DATA_GPIOS[k]))
    ensures Bit(Addr(v), k) == (k < 13 && Bit(v, ADDR_GPIOS[k]))
  {
    GatherBits(Wired(DATA_GPIOS), v, k);
    GatherBits(Wired(ADDR_GPIOS), v, k);
  }

  /** The levels a bus cycle puts on the pins. */
  function OnPins(addr: nat, data: nat, uc2: bool): nat {
    var word := Scatter(Wired(DATA_GPIOS) + Wired(ADDR_GPIOS), addr * Pow2(8) + data);
    if uc2 then word else OrBit(word, CS2_GPIO)
  }

  /** Every cycle of the bus decodes to what was on it. */
  lemma CycleDecodes(addr: nat, data: nat, uc2: bool)
    requires addr < Pow2(13) && data < Pow2(8)
    ensures var v := OnPins(addr, data, uc2);
      Addr(v) == addr && Data(v) == data && Uc2Selected(v) == uc2
  {
    hide Gather, Scatter, Bit, OrBit, Pow2, Data, Addr;
    var v, lanes, both := OnPins(addr, data, uc2), Wired(DATA_GPIOS) + Wired(ADDR_GPIOS), addr * Pow2(8) + data;
    forall k: nat
      ensures Bit(Addr(v), k) == Bit(addr, k) && Bit(Data(v), k) == Bit(data, k)
    {
      DecodedBits(v, k);
      BitsBelow(addr, 13);
      BitsBelow(data, 8);
      if k < 8 {
        PinCarries(both, uc2, k);
        ConcatBits(addr, data, 8, k);
      }
      if k < 13 {
        PinCarries(both, uc2, 8 + k);
        ConcatBits(addr, data, 8, 8 + k);
      }
    }
    SameBits(Addr(v), addr);
    SameBits(Data(v), data);
    SelectCarries(both, uc2);
  }

  /** The GPIO of line i: data first, then addresses. */
  function LineGpio(i: nat): nat
    requires i < 21
  {
    if i < 8 then DATA_GPIOS[i] else ADDR_GPIOS[i - 8]
  }

  lemma LinesDistinct()
    ensures Distinct(Wired(DATA_GPIOS) + Wired(ADDR_GPIOS))
    ensures forall i :: 0 <= i < 21 ==> LineGpio(i) != CS2_GPIO
  {
    var lanes := Wired(DATA_GPIOS) + Wired(ADDR_GPIOS);
    assert forall i :: 0 <= i < 8 ==> lanes[i] == Lane(DATA_GPIOS[i], Normal) && DATA_GPIOS[i] <= 7;
    assert forall i :: 8 <= i < 21 ==> lanes[i] == Lane(ADDR_GPIOS[i - 8], Normal) && 11 <= ADDR_GPIOS[i - 8] <= 23;
  }

  lemma PinCarries(both: nat, uc2: bool, i: nat)
    requires i < 21
    ensures var word := Scatter(Wired(DATA_GPIOS) + Wired(ADDR_GPIOS), both);
      Bit(if uc2 then word else OrBit(word, CS2_GPIO), LineGpio(i)) == Bit(both, i)
  {
    hide Scatter, Bit, OrBit, Distinct;
    var lanes := Wired(DATA_GPIOS) + Wired(ADDR_GPIOS);
    LinesDistinct();
    assert lanes[i] == Lane(LineGpio(i), Normal);
    ScatterAtLane(lanes, both, i);
    OrBitBits(Scatter(lanes, both), CS2_GPIO, LineGpio(i));
  }

  lemma SelectCarries(both: nat, uc2: bool)
    ensures var word := Scatter(Wired(DATA_GPIOS) + Wired(ADDR_GPIOS), both);
      Bit(if uc2 then word else OrBit(word, CS2_GPIO), CS2_GPIO) == !uc2
  {
    hide Scatter, Bit, OrBit, Distinct;
    var lanes := Wired(DATA_GPIOS) + Wired(ADDR_GPIOS);
    LinesDistinct();
    assert forall i :: 0 <= i < |lanes| ==> lanes[i] == Lane(LineGpio(i), Normal);
    ScatterBits(lanes, both, CS2_GPIO);
    OrBitBits(Scatter(lanes, both), CS2_GPIO, CS2_GPIO);
  }

  // ---------------------------------------------------------------------
  // A header read from the disk
  // ---------------------------------------------------------------------

  const HDRID2: nat := 0x16
  const HDRID1: nat := 0x17
  const HDRTRK: nat := 0x18
  const HDRSEC: nat := 0x19
  const HDRCHK: nat := 0x1A

  /** The order in which the drive's ROM writes a header it has decoded. */
  const HEADER_ORDER: seq<nat> := [HDRTRK, HDRSEC, HDRCHK, HDRID1, HDRID2]

  /** A write to one of the five addresses, or anything else the bus may do. */
  datatype Cycle = Write(addr: nat, data: nat, ticks16: nat) | Elsewhere

  datatype Header = Header(state: nat, track: nat, sector: nat, ticks16: nat)

  const NO_HEADER: Header := Header(0, 0, 0, 0)

  predicate HeaderAddr(addr: nat) {
    HDRID2 <= addr <= HDRCHK
  }

  /** The recogniser's five tests, in order. */
  function Recognise(h: Header, c: Cycle): Header {
    if c.Elsewhere? then h
    else if c.addr == HDRTRK then h.(track := c.data, state := 1)
    else if c.addr == HDRSEC then
      (if h.state == 1 then h.(sector := c.data, ticks16 := c.ticks16, state := 2) else h.(state := 0))
    else if c.addr == HDRCHK then h.(state := if h.state == 2 then 3 else 0)
    else if c.addr == HDRID1 then h.(state := if h.state == 3 then 4 else 0)
    else if c.addr == HDRID2 then h.(state := 0)
    else h
  }

  /** The write that completes a plausible header queues its event. */
  predicate Completes(h: Header, c: Cycle) {
    c.Write? && c.addr == HDRID2 && h.state == 4 && 1 <= h.track <= 127 && h.sector <= 31
  }

  function After(run: seq<Cycle>): Header {
    if run == [] then NO_HEADER else Recognise(After(run[..|run| - 1]), run[|run| - 1])
  }

  /** The writes to $16-$1A of a run, whatever lies between them. */
  function HeaderWrites(run: seq<Cycle>): (ws: seq<Cycle>)
    ensures forall i :: 0 <= i < |ws| ==> ws[i].Write? && HeaderAddr(ws[i].addr)
  {
    if run == [] then []
    else
      var c := run[|run| - 1];
      HeaderWrites(run[..|run| - 1]) + if c.Write? && HeaderAddr(c.addr) then [c] else []
  }

  /** The writes end with the first k of a header. */
  predicate EndsHeader(ws: seq<Cycle>, k: nat)
    decreases k
  {
    k == 0 || (k <= 5 && ws != [] && ws[|ws| - 1].Write? && ws[|ws| - 1].addr == HEADER_ORDER[k - 1]
               && EndsHeader(ws[..|ws| - 1], k - 1))
  }

  lemma EndsHeaderSnoc(ws: seq<Cycle>, c: Cycle, k: nat)
    requires c.Write? && 1 <= k <= 5
    ensures EndsHeader(ws + [c], k) <==> c.addr == HEADER_ORDER[k - 1] && EndsHeader(ws, k - 1)
  {
    assert (ws + [c])[..|ws|] == ws;
  }

  lemma EndsHeaderLength(ws: seq<Cycle>, k: nat)
    ensures EndsHeader(ws, k) ==> |ws| >= k
  {
  }

  /** How much of a header the writes so far end with, and the fields taken from them. */
  ghost predicate Tracks(h: Header, ws: seq<Cycle>)
    requires forall i :: 0 <= i < |ws| ==> ws[i].Write?
  {
    && h.state <= 4 && h.state <= |ws|
    && (forall k :: 1 <= k <= 4 ==> (h.state == k <==> EndsHeader(ws, k)))
    && (h.state >= 1 ==> h.track == ws[|ws| - h.state].data)
    && (h.state >= 2 ==> h.sector == ws[|ws| - h.state + 1].data && h.ticks16 == ws[|ws| - h.state + 1].ticks16)
  }

  lemma TracksNext(h: Header, ws: seq<Cycle>, c: Cycle)
    requires forall i :: 0 <= i < |ws| ==> ws[i].Write?
    requires Tracks(h, ws) && c.Write? && HeaderAddr(c.addr)
    ensures Tracks(Recognise(h, c), ws + [c])
  {
    hide EndsHeader;
    var g := ws + [c];
    assert EndsHeader(ws, 0) by {
      NothingEnds(ws);
    }
    EndsHeaderSnoc(ws, c, 1);
    EndsHeaderSnoc(ws, c, 2);
    EndsHeaderSnoc(ws, c, 3);
    EndsHeaderSnoc(ws, c, 4);
    assert forall i :: 0 <= i < |ws| ==> g[i] == ws[i];
  }

  lemma NothingEnds(ws: seq<Cycle>)
    ensures EndsHeader(ws, 0)
  {
  }

  lemma {:induction false} StateIsProgress(run: seq<Cycle>)
    ensures Tracks(After(run), HeaderWrites(run))
  {
    if run != [] {
      hide Tracks;
      var prev, c := run[..|run| - 1], run[|run| - 1];
      StateIsProgress(prev);
      if c.Write? && HeaderAddr(c.addr) {
        TracksNext(After(prev), HeaderWrites(prev), c);
      } else {
        assert HeaderWrites(prev) + [] == HeaderWrites(prev);
      }
    } else {
      NoneEnd();
    }
  }

  lemma NoneEnd()
    ensures Tracks(NO_HEADER, [])
  {
  }

  /** The last five header writes are $18, $19, $1A, $17 and $16 in that order, with a
      track of 1 to 127 and a sector of at most 31. */
  predicate HeaderSeen(ws: seq<Cycle>)
    requires forall i :: 0 <= i < |ws| ==> ws[i].Write?
  {
    var n := |ws|;
    && n >= 5
    && ws[n - 5].addr == HDRTRK && ws[n - 4].addr == HDRSEC && ws[n - 3].addr == HDRCHK
    && ws[n - 2].addr == HDRID1 && ws[n - 1].addr == HDRID2
    && 1 <= ws[n - 5].data <= 127 && ws[n - 4].data <= 31
  }

  lemma EndsFour(ws: seq<Cycle>)
    requires forall i :: 0 <= i < |ws| ==> ws[i].Write?
    ensures var n := |ws|;
      EndsHeader(ws, 4) <==> n >= 4 && ws[n - 4].addr == HDRTRK && ws[n - 3].addr == HDRSEC
                             && ws[n - 2].addr == HDRCHK && ws[n - 1].addr == HDRID1
  {
    assert HEADER_ORDER[..4] == [HDRTRK, HDRSEC, HDRCHK, HDRID1];
    if |ws| >= 4 {
      var a, b, c := ws[..|ws| - 1], ws[..|ws| - 2], ws[..|ws| - 3];
      assert a[..|a| - 1] == b && b[..|b| - 1] == c;
    } else {
      EndsHeaderLength(ws, 4);
    }
  }

  /** A header's event is queued on a write exactly when it completes one, and carries
      that header's track, sector and time. */
  lemma EventIffHeader(run: seq<Cycle>, c: Cycle)
    ensures Completes(After(run), c) <==> c.Write? && HeaderAddr(c.addr) && HeaderSeen(HeaderWrites(run) + [c])
    ensures c.Write? && HeaderAddr(c.addr) ==> HeaderWrites(run + [c]) == HeaderWrites(run) + [c]
    ensures Completes(After(run), c) ==>
              var h, ws := After(run), HeaderWrites(run + [c]);
              |ws| >= 5 && h.track == ws[|ws| - 5].data
              && h.sector == ws[|ws| - 4].data && h.ticks16 == ws[|ws| - 4].ticks16
  {
    hide EndsHeader, After;
    StateIsProgress(run);
    assert (run + [c])[..|run|] == run;
    EndsFour(HeaderWrites(run));
  }
}
