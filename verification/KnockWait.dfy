/** Waiting for a knock on the capture ring, and what its entries mean on the
address lines (OneROM/firmware/src/piodma/pioplugin.c). */
module KnockWait {
  import opened Wrappers
  import opened Bits
  import opened PinMap
  import opened ExpansionPins
  import opened KnockMatch
  import opened CaptureRing

  datatype Knock = Knock(mask: nat, matches: seq<nat>, xMask: nat)

  datatype Error = InvalidArg | InternalError | Unsupported

  // ---------------------------------------------------------------------
  // pio_init_knock
  // ---------------------------------------------------------------------

  /** The address lanes a knock compares: the low ones, less those forced. */
  ghost function KnockLanes(slot: RomSlot, bits: nat): (lanes: seq<Lane>)
    requires PinMap.Valid(slot) && bits <= NumAddr(slot)
    ensures |lanes| == bits && Distinct(lanes)
  {
    seq(bits, i requires 0 <= i < bits =>
      if Forced(OverrideOf(slot.overrides, slot.addr[i])) then Absent else AddrLanes(slot)[i])
  }

  function MaskOf(lanes: seq<Lane>): nat {
    if lanes == [] then 0
    else
      var n := |lanes| - 1;
      var rest := MaskOf(lanes[..n]);
      if lanes[n].Lane? then OrBit(rest, lanes[n].pos) else rest
  }

  lemma {:induction false} MaskBits(lanes: seq<Lane>, k: nat)
    ensures Bit(MaskOf(lanes), k) <==> exists i :: 0 <= i < |lanes| && lanes[i].Lane? && lanes[i].pos == k
  {
    if lanes == [] {
      ZeroHasNoBits(k);
    } else {
      var n := |lanes| - 1;
      MaskBits(lanes[..n], k);
      if lanes[n].Lane? {
        OrBitBits(MaskOf(lanes[..n]), lanes[n].pos, k);
      }
      assert forall i :: 0 <= i < n ==> lanes[..n][i] == lanes[i];
    }
  }

  method InitKnock(slot: RomSlot, board: Board, knockSeq: seq<nat>, knockBits: nat) returns (r: Result<Knock, Error>)
    requires PinMap.Valid(slot)
    ensures r == Err(InvalidArg) <==> knockSeq == [] || knockBits == 0 || knockBits > MAX_ADDR_PINS
    ensures r == Err(InternalError) <==> knockSeq != [] && NumAddr(slot) < knockBits <= MAX_ADDR_PINS
    ensures r == Err(Unsupported) <==>
              knockSeq != [] && 1 <= knockBits <= NumAddr(slot) && knockBits <= MAX_ADDR_PINS && slot.csAlg == CsOther
    ensures r.Ok? ==> knockBits <= NumAddr(slot) && |r.value.matches| == |knockSeq|
    ensures r.Ok? ==> forall k: nat :: Bit(r.value.xMask, k) <==> ExpansionPins.Masked(slot, board, k)
    ensures r.Ok? ==> r.value.mask == MaskOf(KnockLanes(slot, knockBits))
    ensures r.Ok? ==> forall i :: 0 <= i < |knockSeq| ==>
              r.value.matches[i] == Scatter(KnockLanes(slot, knockBits), knockSeq[i])
  {
    hide KnockLanes, MaskOf, Scatter, ExpansionPins.Masked, PinMap.Valid;
    if knockSeq == [] || knockBits == 0 || knockBits > MAX_ADDR_PINS {
      return Err(InvalidArg);
    }
    WindowPins(slot);
    var mask := KnockMask(slot, knockBits);
    if mask.None? {
      return Err(InternalError);
    }
    var matches := [];
    for j := 0 to |knockSeq|
      invariant |matches| == j
      invariant forall i :: 0 <= i < j ==> matches[i] == Scatter(KnockLanes(slot, knockBits), knockSeq[i])
    {
      var m := MatchValue(slot, knockSeq[j], knockBits);
      matches := matches + [m];
    }
    if slot.csAlg == CsOther {
      return Err(Unsupported);
    }
    var xMask := XMask(slot, board);
    return Ok(Knock(mask.value, matches, xMask));
  }

  lemma WindowPins(slot: RomSlot)
    requires PinMap.Valid(slot)
    ensures |slot.addr| == MAX_ADDR_PINS
  {
  }

  /** The mask loop; it fails on a line the chip does not have. */
  method KnockMask(slot: RomSlot, knockBits: nat) returns (mask: Option<nat>)
    requires PinMap.Valid(slot) && knockBits <= MAX_ADDR_PINS
    ensures mask.Some? <==> knockBits <= NumAddr(slot)
    ensures mask.Some? ==> mask.value == MaskOf(KnockLanes(slot, knockBits))
  {
    hide Distinct, OverrideOf, Bit;
    var m := 0;
    for i := 0 to knockBits
      invariant i <= NumAddr(slot)
      invariant m == MaskOf(KnockLanes(slot, i))
    {
      var gpio := slot.addr[i];
      if gpio >= GPIO_NONE {
        return None;
      }
      var o := GetGpioOverride(slot, gpio);
      assert KnockLanes(slot, i + 1)[..i] == KnockLanes(slot, i);
      if o == Normal || o == Invert {
        m := OrBit(m, gpio - slot.addrBase);
      }
    }
    return Some(m);
  }

  method MatchValue(slot: RomSlot, value: nat, knockBits: nat) returns (m: nat)
    requires PinMap.Valid(slot) && knockBits <= NumAddr(slot)
    ensures m == Scatter(KnockLanes(slot, knockBits), value)
  {
    hide Bit, OverrideOf, Distinct;
    m := 0;
    for i := 0 to knockBits
      invariant m == Scatter(KnockLanes(slot, i), value)
    {
      var gpio := slot.addr[i];
      var o := GetGpioOverride(slot, gpio);
      assert KnockLanes(slot, i + 1)[..i] == KnockLanes(slot, i);
      if o == Normal || o == Invert {
        m := OrThrough(m, gpio - slot.addrBase, o, Bit(value, i));
      }
    }
  }

  /** The address an entry shows, on the unforced low lines, is the value. */
  ghost predicate ShowsAddress(slot: RomSlot, bits: nat, value: nat, entry: nat)
    requires PinMap.Valid(slot) && bits <= NumAddr(slot)
  {
    forall i: nat :: i < bits && !Forced(OverrideOf(slot.overrides, slot.addr[i])) ==>
      Bit(DemangleObserved(slot, entry), i) == Bit(value, i)
  }

  /** A masked entry equals a match value exactly when the address it demangles to
      agrees with the knock value on every unforced line compared. */
  lemma MatchMeans(slot: RomSlot, bits: nat, value: nat, entry: nat)
    requires PinMap.Valid(slot) && bits <= NumAddr(slot)
    ensures And(entry, MaskOf(KnockLanes(slot, bits))) == Scatter(KnockLanes(slot, bits), value)
            <==> ShowsAddress(slot, bits, value, entry)
  {
    hide PinMap.Valid, And, MaskOf, Scatter, DemangleObserved, Bit;
    var lanes := KnockLanes(slot, bits);
    var a, b := And(entry, MaskOf(lanes)), Scatter(lanes, value);
    if a == b {
      forall i: nat | i < bits && !Forced(OverrideOf(slot.overrides, slot.addr[i]))
        ensures Bit(DemangleObserved(slot, entry), i) == Bit(value, i)
      {
        LineCompared(slot, bits, value, entry, i);
      }
    }
    if ShowsAddress(slot, bits, value, entry) {
      forall k: nat ensures Bit(a, k) == Bit(b, k) {
        AndBits(entry, MaskOf(lanes), k);
        MaskBits(lanes, k);
        ScatterBits(lanes, value, k);
        if i :| 0 <= i < bits && lanes[i].Lane? && lanes[i].pos == k {
          LineCompared(slot, bits, value, entry, i);
        }
      }
      SameBits(a, b);
    }
  }

  /** On an unforced line, the compared bits agree just when the address bits do. */
  lemma LineCompared(slot: RomSlot, bits: nat, value: nat, entry: nat, i: nat)
    requires PinMap.Valid(slot) && i < bits <= NumAddr(slot)
    requires !Forced(OverrideOf(slot.overrides, slot.addr[i]))
    ensures var lanes := KnockLanes(slot, bits);
      && lanes[i].Lane?
      && (Bit(And(entry, MaskOf(lanes)), lanes[i].pos) == Bit(Scatter(lanes, value), lanes[i].pos)
          <==> Bit(DemangleObserved(slot, entry), i) == Bit(value, i))
  {
    hide And, MaskOf, Scatter, Bit, Gather;
    var lanes := KnockLanes(slot, bits);
    var k := lanes[i].pos;
    AndBits(entry, MaskOf(lanes), k);
    MaskBits(lanes, k);
    assert Bit(MaskOf(lanes), k);
    ScatterAtLane(lanes, value, i);
    GatherBits(AddrLanes(slot), entry, i);
  }

  // ---------------------------------------------------------------------
  // pio_wait_for_knock
  // ---------------------------------------------------------------------

  /** debounce: only the X pins are looked at, and only when asked. */
  predicate Skipped(k: Knock, debounce: bool, entry: nat) {
    debounce && k.xMask != 0 && And(entry, k.xMask) != 0
  }

  /** ... that is, when the pin of some X line was up. */
  lemma SkippedMeans(k: Knock, debounce: bool, entry: nat)
    ensures Skipped(k, debounce, entry) <==> debounce && exists b: nat :: BothBits(k.xMask, entry, b)
  {
    hide And, Bit;
    ghost var both := And(entry, k.xMask);
    if both != 0 {
      SomeBit(both);
      var b: nat :| Bit(both, b);
      AndBits(entry, k.xMask, b);
      assert BothBits(k.xMask, entry, b);
    }
    if exists b: nat :: BothBits(k.xMask, entry, b) {
      var b: nat :| BothBits(k.xMask, entry, b);
      AndBits(entry, k.xMask, b);
      ZeroHasNoBits(b);
    }
  }

  predicate BothBits(v: nat, w: nat, b: nat) {
    Bit(v, b) && Bit(w, b)
  }

  lemma SomeBit(w: nat)
    requires w != 0
    ensures exists b: nat :: Bit(w, b)
  {
    if forall b: nat :: !Bit(w, b) {
      forall b: nat ensures Bit(w, b) == Bit(0, b) {
        ZeroHasNoBits(b);
      }
      SameBits(w, 0);
    }
  }

  function Kept(k: Knock, debounce: bool, s: seq<nat>): seq<nat> {
    if s == [] then []
    else
      var n := |s| - 1;
      Kept(k, debounce, s[..n]) + if Skipped(k, debounce, s[n]) then [] else [s[n]]
  }

  function Masked(k: Knock, s: seq<nat>): (vs: seq<nat>)
    ensures |vs| == |s|
  {
    seq(|s|, i requires 0 <= i < |s| => And(s[i], k.mask))
  }

  /** How far the knock has got after the first c captures. */
  function Progress(k: Knock, debounce: bool, s: seq<nat>): nat
    requires k.matches != []
  {
    Position(k.matches, Masked(k, Kept(k, debounce, s)))
  }

  lemma ProgressSnoc(k: Knock, debounce: bool, s: seq<nat>, entry: nat)
    requires k.matches != []
    ensures Progress(k, debounce, s + [entry]) ==
            if Skipped(k, debounce, entry) || Progress(k, debounce, s) == |k.matches| then Progress(k, debounce, s)
            else Advance(k.matches, Progress(k, debounce, s), And(entry, k.mask))
  {
    assert (s + [entry])[..|s|] == s;
    var kept := Kept(k, debounce, s);
    if Skipped(k, debounce, entry) {
      assert kept + [] == kept;
    } else {
      var vs := Masked(k, kept + [entry]);
      assert vs[..|vs| - 1] == Masked(k, kept);
    }
  }

  /** Write counts seen by successive polls.  They never go back, and fewer than a
      ring of captures separates every other one, so no unread entry is lapped. */
  predicate Polls(r: Capture, polls: seq<nat>) {
    && (forall j :: 0 <= j < |polls| ==> polls[j] <= |r.stream|)
    && (forall i, j :: 0 <= i < j < |polls| ==> polls[i] <= polls[j])
    && (forall j :: 0 <= j < |polls| ==> polls[j] - Before(polls, j - 1) < r.entries)
  }

  function Before(polls: seq<nat>, j: int): nat
    requires j <= |polls|
  {
    if j <= 0 then 0 else polls[j - 1]
  }

  lemma NextPoll(r: Capture, polls: seq<nat>, j: nat)
    requires Polls(r, polls) && j < |polls|
    ensures Before(polls, j - 1) <= Before(polls, j) <= polls[j] == Before(polls, j + 1) <= |r.stream|
    ensures polls[j] - Before(polls, j - 1) < r.entries
  {
  }

  lemma StartOfPolls(polls: seq<nat>)
    ensures Before(polls, 0) == Before(polls, -1) == 0
  {
  }

  /** The detection loop.  It reads each poll's unread captures in order and stops
      on the very capture that completes the knock. */
  method Detect(r: Capture, k: Knock, debounce: bool, polls: seq<nat>) returns (found: bool, c: nat, rp: nat, j: nat)
    requires Wellformed(r) && k.matches != [] && Polls(r, polls)
    ensures j <= |polls| && Before(polls, j - 1) <= c <= Before(polls, j) && rp == Slot(r, c)
    ensures c <= |r.stream|
    ensures found <==> Progress(k, debounce, r.stream[..c]) == |k.matches|
    ensures found ==> c > 0 && Progress(k, debounce, r.stream[..c - 1]) < |k.matches|
    ensures !found ==> j == |polls| && c == Before(polls, j)
  {
    hide Progress, Slot, Held, Polls, Before;
    c, rp, j := 0, r.base, 0;
    var knockPos := 0;
    NothingYet(r, k, debounce);
    StartOfPolls(polls);
    while knockPos < |k.matches|
      invariant j <= |polls| && Before(polls, j - 1) <= c <= Before(polls, j) && c <= |r.stream| && rp == Slot(r, c)
      invariant knockPos == Progress(k, debounce, r.stream[..c])
      invariant knockPos < |k.matches| ==> c == Before(polls, j)
      invariant knockPos >= |k.matches| ==> c > 0 && Progress(k, debounce, r.stream[..c - 1]) < |k.matches|
      decreases |polls| - j, |k.matches| - knockPos
    {
      if j == |polls| {
        return false, c, rp, j;
      }
      NextPoll(r, polls, j);
      c, rp, knockPos := DrainForKnock(r, k, debounce, polls[j], c, rp, knockPos);
      j := j + 1;
    }
    ProgressBelow(k, debounce, r.stream[..c]);
    found := true;
  }

  /** One poll: rp catches up with wp, or the knock completes. */
  method DrainForKnock(r: Capture, k: Knock, debounce: bool, w: nat, c0: nat, rp0: nat, pos0: nat)
    returns (c: nat, rp: nat, knockPos: nat)
    requires Wellformed(r) && k.matches != [] && c0 <= w <= |r.stream| && w - c0 < r.entries && rp0 == Slot(r, c0)
    requires pos0 == Progress(k, debounce, r.stream[..c0]) < |k.matches|
    ensures c0 <= c <= w && rp == Slot(r, c) && knockPos == Progress(k, debounce, r.stream[..c])
    ensures knockPos < |k.matches| ==> c == w
    ensures knockPos >= |k.matches| ==> c > 0 && Progress(k, debounce, r.stream[..c - 1]) < |k.matches|
  {
    hide Progress, Slot, Held, And;
    c, rp, knockPos := c0, rp0, pos0;
    var wp := Slot(r, w);
    PointersMeet(r, c, w);
    while rp != wp
      invariant c0 <= c <= w && rp == Slot(r, c) && (rp == wp <==> c == w)
      invariant knockPos == Progress(k, debounce, r.stream[..c]) < |k.matches|
      decreases w - c
    {
      HeldIsCaptured(r, c, w);
      SlotNext(r, c);
      var entry := Held(r, w, rp);
      rp := Wrapped(rp, r.entries);
      assert r.stream[..c + 1] == r.stream[..c] + [entry];
      ProgressSnoc(k, debounce, r.stream[..c], entry);
      c := c + 1;
      PointersMeet(r, c, w);
      if Skipped(k, debounce, entry) { continue; }
      if And(entry, k.mask) == k.matches[knockPos] {
        knockPos := knockPos + 1;
        if knockPos >= |k.matches| { break; }
      } else {
        knockPos := if And(entry, k.mask) == k.matches[0] then 1 else 0;
      }
    }
  }

  lemma NothingYet(r: Capture, k: Knock, debounce: bool)
    requires Wellformed(r) && k.matches != []
    ensures Slot(r, 0) == r.base && r.stream[..0] == [] && Progress(k, debounce, []) == 0
  {
  }

  lemma KeptSnoc(k: Knock, debounce: bool, s: seq<nat>, entry: nat)
    ensures Kept(k, debounce, s + [entry])
            == Kept(k, debounce, s) + if Skipped(k, debounce, entry) then [] else [entry]
  {
    assert (s + [entry])[..|s|] == s;
  }

  /** The payload loop: the next entries that are not skipped, across as many polls
      as it takes. */
  method Collect(r: Capture, k: Knock, debounce: bool, payloadLen: nat, polls: seq<nat>, from: nat, c0: nat, rp0: nat)
    returns (payload: seq<nat>, c: nat, rp: nat)
    requires Wellformed(r) && Polls(r, polls) && from <= |polls|
    requires Before(polls, from - 1) <= c0 <= Before(polls, from) && c0 <= |r.stream| && rp0 == Slot(r, c0)
    ensures c0 <= c <= |r.stream| && rp == Slot(r, c)
    ensures payload == Kept(k, debounce, r.stream[c0..c]) && |payload| <= payloadLen
    ensures c > c0 && |payload| == payloadLen ==> !Skipped(k, debounce, r.stream[c - 1])
    ensures payloadLen == 0 ==> c == c0
    ensures c <= Before(polls, |polls|)
    ensures |payload| < payloadLen ==> c == Before(polls, |polls|)
  {
    hide Slot, Held, Skipped, Polls, Before, Kept;
    payload, c, rp := [], c0, rp0;
    NothingKept(k, debounce, r.stream[c0..c0]);
    var j := from;
    LastPoll(r, polls, from);
    while |payload| < payloadLen && (j < |polls| || c < Before(polls, |polls|))
      invariant from <= j && c0 <= c <= |r.stream| && rp == Slot(r, c)
      invariant |payload| < payloadLen && j <= |polls| ==> Before(polls, j - 1) <= c
      invariant |payload| < payloadLen && j > |polls| ==> c == Before(polls, |polls|)
      invariant c <= Before(polls, if j <= |polls| then j else |polls|) <= Before(polls, |polls|)
      invariant |payload| < payloadLen && from < j <= |polls| ==> c == Before(polls, j)
      invariant payload == Kept(k, debounce, r.stream[c0..c]) && |payload| <= payloadLen
      invariant c > c0 && |payload| == payloadLen ==> !Skipped(k, debounce, r.stream[c - 1])
      invariant payloadLen == 0 ==> c == c0
      decreases |polls| + 1 - j
    {
      LastPoll(r, polls, j + 1);
      if j < |polls| {
        NextPoll(r, polls, j);
      }
      var w := if j < |polls| then polls[j] else Before(polls, |polls|);
      payload, c, rp := DrainForPayload(r, k, debounce, payloadLen, w, c0, c, rp, payload);
      j := j + 1;
    }
  }

  /** After the last poll the writer stands still, and is within reach. */
  lemma LastPoll(r: Capture, polls: seq<nat>, j: nat)
    requires Polls(r, polls)
    ensures Before(polls, |polls|) <= |r.stream|
    ensures j <= |polls| ==> Before(polls, j) <= Before(polls, |polls|)
    ensures Wellformed(r) ==> Before(polls, |polls|) - Before(polls, |polls| - 1) < r.entries
  {
  }

  method DrainForPayload(r: Capture, k: Knock, debounce: bool, payloadLen: nat, w: nat, ghost from: nat,
                         c0: nat, rp0: nat, payload0: seq<nat>)
    returns (payload: seq<nat>, c: nat, rp: nat)
    requires Wellformed(r) && from <= c0 <= w <= |r.stream| && w - c0 < r.entries && rp0 == Slot(r, c0)
    requires payload0 == Kept(k, debounce, r.stream[from..c0]) && |payload0| < payloadLen
    ensures c0 <= c <= w && rp == Slot(r, c)
    ensures payload == Kept(k, debounce, r.stream[from..c]) && |payload| <= payloadLen
    ensures |payload| < payloadLen ==> c == w
    ensures |payload| == payloadLen ==> c > from && !Skipped(k, debounce, r.stream[c - 1])
  {
    hide Slot, Held, Skipped, Kept;
    payload, c, rp := payload0, c0, rp0;
    var wp := Slot(r, w);
    PointersMeet(r, c, w);
    while rp != wp && |payload| < payloadLen
      invariant c0 <= c <= w && rp == Slot(r, c) && (rp == wp <==> c == w)
      invariant payload == Kept(k, debounce, r.stream[from..c]) && |payload| <= payloadLen
      invariant |payload| == payloadLen ==> c > from && !Skipped(k, debounce, r.stream[c - 1])
      decreases w - c
    {
      HeldIsCaptured(r, c, w);
      SlotNext(r, c);
      var entry := Held(r, w, rp);
      rp := Wrapped(rp, r.entries);
      assert r.stream[from..c + 1] == r.stream[from..c] + [entry];
      KeptSnoc(k, debounce, r.stream[from..c], entry);
      c := c + 1;
      PointersMeet(r, c, w);
      if Skipped(k, debounce, entry) { continue; }
      payload := payload + [entry];
    }
  }

  datatype Outcome =
    | Waiting
    | Received(payload: seq<nat>, nextRead: nat)

  /** The knock completed on capture `at - 1`, and the payload is the kept captures
      from `at` up to `next`, the last of which completes it. */
  ghost predicate Heard(r: Capture, k: Knock, debounce: bool, payloadLen: nat, payload: seq<nat>, at: nat, next: nat)
    requires k.matches != []
  {
    && at <= next <= |r.stream| && Completes(r, k, debounce, at)
    && |payload| == payloadLen && payload == Kept(k, debounce, r.stream[at..next])
    && (if payloadLen == 0 then next == at else next > at && !Skipped(k, debounce, r.stream[next - 1]))
  }

  /** Capture `at - 1` is the one that completes the knock. */
  predicate Completes(r: Capture, k: Knock, debounce: bool, at: nat)
    requires k.matches != []
  {
    && 0 < at <= |r.stream|
    && Progress(k, debounce, r.stream[..at]) == |k.matches| && Progress(k, debounce, r.stream[..at - 1]) < |k.matches|
  }

  /** In all that has been seen the knock has not completed, or it has and the payload
      is still short. */
  ghost predicate StillWaiting(r: Capture, k: Knock, debounce: bool, payloadLen: nat, seen: nat)
    requires k.matches != [] && seen <= |r.stream|
  {
    || Progress(k, debounce, r.stream[..seen]) < |k.matches|
    || exists at :: Short(r, k, debounce, payloadLen, at, seen)
  }

  predicate Short(r: Capture, k: Knock, debounce: bool, payloadLen: nat, at: nat, seen: nat)
    requires k.matches != [] && seen <= |r.stream|
  {
    Completes(r, k, debounce, at) && at <= seen && |Kept(k, debounce, r.stream[at..seen])| < payloadLen
  }

  /** pio_wait_for_knock, when the write position has been read as `polls` say and then
      stands still.  A call is still waiting, where the source would poll on, exactly
      when what has been seen does not answer it; otherwise it returns on the capture
      that completes the knock, with the payload that follows. */
  method WaitForKnock(r: Capture, k: Knock, debounce: bool, payloadLen: nat, polls: seq<nat>) returns (o: Outcome)
    requires Wellformed(r) && k.matches != [] && Polls(r, polls)
    ensures Before(polls, |polls|) <= |r.stream|
    ensures o.Waiting? <==> StillWaiting(r, k, debounce, payloadLen, Before(polls, |polls|))
    ensures o.Received? ==> exists at, next ::
              Heard(r, k, debounce, payloadLen, o.payload, at, next) && o.nextRead == Slot(r, next)
  {
    hide Progress, Kept, Slot, Polls, Before, Heard, StillWaiting, Short;
    LastPoll(r, polls, 0);
    ghost var seen := Before(polls, |polls|);
    var found, c, rp, j := Detect(r, k, debounce, polls);
    LastPoll(r, polls, j);
    ProgressBelow(k, debounce, r.stream[..c]);
    if !found {
      WaitsForKnock(r, k, debounce, payloadLen, seen);
      return Waiting;
    }
    var payload, c', rp' := Collect(r, k, debounce, payloadLen, polls, j, c, rp);
    if |payload| < payloadLen {
      WaitsForPayload(r, k, debounce, payloadLen, c, seen);
      return Waiting;
    }
    HeardHere(r, k, debounce, payloadLen, payload, c, c');
    HeardIsAnswer(r, k, debounce, payloadLen, payload, c, c', seen);
    o := Received(payload, rp');
  }

  lemma WaitsForKnock(r: Capture, k: Knock, debounce: bool, payloadLen: nat, seen: nat)
    requires k.matches != [] && seen <= |r.stream| && Progress(k, debounce, r.stream[..seen]) < |k.matches|
    ensures StillWaiting(r, k, debounce, payloadLen, seen)
  {
  }

  lemma WaitsForPayload(r: Capture, k: Knock, debounce: bool, payloadLen: nat, at: nat, seen: nat)
    requires k.matches != [] && at <= seen <= |r.stream| && Completes(r, k, debounce, at)
    requires |Kept(k, debounce, r.stream[at..seen])| < payloadLen
    ensures StillWaiting(r, k, debounce, payloadLen, seen)
  {
    assert Short(r, k, debounce, payloadLen, at, seen);
  }

  lemma HeardHere(r: Capture, k: Knock, debounce: bool, payloadLen: nat, payload: seq<nat>, at: nat, next: nat)
    requires k.matches != [] && Completes(r, k, debounce, at) && at <= next <= |r.stream|
    requires |payload| == payloadLen && payload == Kept(k, debounce, r.stream[at..next])
    requires payloadLen == 0 ==> next == at
    requires next > at ==> !Skipped(k, debounce, r.stream[next - 1])
    ensures Heard(r, k, debounce, payloadLen, payload, at, next)
  {
    NothingKept(k, debounce, r.stream[at..next]);
  }

  lemma {:induction false} ProgressSticks(k: Knock, debounce: bool, s: seq<nat>, n: nat)
    requires k.matches != [] && n <= |s| && Progress(k, debounce, s[..n]) == |k.matches|
    ensures Progress(k, debounce, s) == |k.matches|
    decreases |s| - n
  {
    if n < |s| {
      ProgressSnoc(k, debounce, s[..n], s[n]);
      assert s[..n] + [s[n]] == s[..n + 1];
      ProgressSticks(k, debounce, s, n + 1);
    } else {
      assert s[..n] == s;
    }
  }

  lemma {:induction false} KeptGrows(k: Knock, debounce: bool, s: seq<nat>, n: nat)
    requires n <= |s|
    ensures |Kept(k, debounce, s[..n])| <= |Kept(k, debounce, s)|
    decreases |s|
  {
    if n < |s| {
      KeptGrows(k, debounce, s[..|s| - 1], n);
      assert s[..|s| - 1][..n] == s[..n];
    } else {
      assert s[..n] == s;
    }
  }

  /** Only one capture completes the knock, and once it is followed by its payload
      nothing is being waited for. */
  lemma HeardIsAnswer(
      r: Capture, k: Knock, debounce: bool, payloadLen: nat, payload: seq<nat>, at: nat, next: nat, seen: nat)
    requires k.matches != [] && next <= seen <= |r.stream| && Heard(r, k, debounce, payloadLen, payload, at, next)
    ensures !StillWaiting(r, k, debounce, payloadLen, seen)
  {
    hide Progress, Kept;
    assert r.stream[..seen][..at] == r.stream[..at];
    ProgressSticks(k, debounce, r.stream[..seen], at);
    KeptGrows(k, debounce, r.stream[at..seen], next - at);
    assert r.stream[at..seen][..next - at] == r.stream[at..next];
    forall other: nat ensures !Short(r, k, debounce, payloadLen, other, seen) {
      if Completes(r, k, debounce, other) {
        OneCompletes(r, k, debounce, at, other);
      }
    }
  }

  lemma OneCompletes(r: Capture, k: Knock, debounce: bool, a: nat, b: nat)
    requires k.matches != [] && Completes(r, k, debounce, a) && Completes(r, k, debounce, b)
    ensures a == b
  {
    hide Progress;
    if a < b {
      assert r.stream[..b - 1][..a] == r.stream[..a];
      ProgressSticks(k, debounce, r.stream[..b - 1], a);
    } else if b < a {
      assert r.stream[..a - 1][..b] == r.stream[..b];
      ProgressSticks(k, debounce, r.stream[..a - 1], b);
    }
  }

  lemma ProgressBelow(k: Knock, debounce: bool, s: seq<nat>)
    requires k.matches != []
    ensures Progress(k, debounce, s) <= |k.matches|
  {
  }

  lemma NothingKept(k: Knock, debounce: bool, s: seq<nat>)
    ensures s == [] ==> Kept(k, debounce, s) == []
  {
  }

  // ---------------------------------------------------------------------
  // What has been heard
  // ---------------------------------------------------------------------

  /** The last kept captures show the knock's values, in order, on every unforced
      line compared: what DemangleObserved makes of each of them agrees with it. */
  lemma HeardIsKnock(r: Capture, slot: RomSlot, bits: nat, knockSeq: seq<nat>, k: Knock, debounce: bool,
                     payloadLen: nat, payload: seq<nat>, at: nat, next: nat)
    requires PinMap.Valid(slot) && bits <= NumAddr(slot) && knockSeq != []
    requires k.mask == MaskOf(KnockLanes(slot, bits)) && |k.matches| == |knockSeq|
    requires forall i :: 0 <= i < |knockSeq| ==> k.matches[i] == Scatter(KnockLanes(slot, bits), knockSeq[i])
    requires Heard(r, k, debounce, payloadLen, payload, at, next)
    ensures var kept := Kept(k, debounce, r.stream[..at]);
      && |knockSeq| <= |kept|
      && !Skipped(k, debounce, r.stream[at - 1])
      && forall i :: 0 <= i < |knockSeq| ==>
           ShowsAddress(slot, bits, knockSeq[i], kept[|kept| - |knockSeq| + i])
  {
    hide PinMap.Valid, ShowsAddress, And, MaskOf, Scatter, KnockLanes, Position;
    var s := r.stream[..at];
    var kept := Kept(k, debounce, s);
    var vs := Masked(k, kept);
    LastCompletes(k, debounce, s, r.stream[at - 1], r.stream[..at - 1]);
    PositionIsSuffix(k.matches, vs);
    assert k.matches[..|k.matches|] == k.matches;
    var n := |vs| - |knockSeq|;
    forall i | 0 <= i < |knockSeq| ensures ShowsAddress(slot, bits, knockSeq[i], kept[n + i]) {
      assert vs[n..][i] == vs[n + i] == And(kept[n + i], k.mask);
      MatchMeans(slot, bits, knockSeq[i], kept[n + i]);
    }
  }

  /** The capture that completes a knock is one the matcher looked at. */
  lemma LastCompletes(k: Knock, debounce: bool, s: seq<nat>, entry: nat, prev: seq<nat>)
    requires k.matches != [] && s == prev + [entry]
    requires Progress(k, debounce, s) == |k.matches| && Progress(k, debounce, prev) < |k.matches|
    ensures !Skipped(k, debounce, entry) && DetectsNow(k.matches, Masked(k, Kept(k, debounce, s)))
  {
    hide Position;
    ProgressSnoc(k, debounce, prev, entry);
    KeptSnoc(k, debounce, prev, entry);
    var kept := Kept(k, debounce, prev);
    var vs := Masked(k, kept + [entry]);
    assert vs[..|vs| - 1] == Masked(k, kept);
    assert Position(k.matches, vs) == |k.matches|;
  }

  /** For a knock with no lost border it is also the first time the kept captures
      hold the knock; for any other knock some captures are missed (MatcherCompleteIff). */
  lemma HeardFirst(r: Capture, k: Knock, debounce: bool, at: nat)
    requires k.matches != [] && NoLostBorder(k.matches) && 0 < at <= |r.stream|
    requires Progress(k, debounce, r.stream[..at]) == |k.matches|
    requires Progress(k, debounce, r.stream[..at - 1]) < |k.matches|
    ensures Occurs(k.matches, Masked(k, Kept(k, debounce, r.stream[..at])))
    ensures !Occurs(k.matches, Masked(k, Kept(k, debounce, r.stream[..at - 1])))
  {
    hide Kept, Masked, Position;
    PositionIsLongest(k.matches, Masked(k, Kept(k, debounce, r.stream[..at])));
    PositionIsLongest(k.matches, Masked(k, Kept(k, debounce, r.stream[..at - 1])));
  }
}
