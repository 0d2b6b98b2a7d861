/** The LED engine's alarm (OneROM/firmware/src/piodma/pioled.c, led_rearm): armed for
the earliest thing any channel waits for, in wrapping 32-bit time. */
module LedAlarm {
  import opened Words
  import opened LedChannel

  /** How far ahead a channel can ask for: a hold or a period, and a bump. */
  const FARTHEST_MS: nat := 0x1_0000
  const LATEST: nat := 0x4000_0000

  /** `(int32_t)(a - b)` */
  function Signed(a: nat, b: nat): int {
    if (a - b) % WORD < HALF then (a - b) % WORD else (a - b) % WORD - WORD
  }

  /** A deadline not too far ahead, nor long gone. */
  predicate Near(deadline: nat, now: nat) {
    0 < Signed(deadline, now) + LATEST && Signed(deadline, now) <= FARTHEST_MS
  }

  /** The deadlines of one channel. */
  function Deadlines(ch: Channel): seq<nat> {
    (if Repeats(ch.shown.mode) then [ch.nextFrame] else []) + (if ch.holdExpiry != 0 then [ch.holdExpiry] else [])
  }

  predicate AllNear(ds: seq<nat>, now: nat) {
    forall i :: 0 <= i < |ds| ==> Near(ds[i], now)
  }

  /** Seen from the same moment, two near deadlines compare as they do in time. */
  lemma SignedDifference(a: nat, b: nat, now: nat)
    requires Near(a, now) && Near(b, now)
    ensures Signed(a, b) == Signed(a, now) - Signed(b, now)
  {
    var j := Turns(a, now);
    var k := Turns(b, now);
    SignedIs(a, b, Signed(a, now) - Signed(b, now), j - k);
  }

  /** How many wraps lie between a difference and its signed form. */
  lemma Turns(a: nat, b: nat) returns (k: int)
    ensures a - b == Signed(a, b) + WORD * k
  {
    k := (a - b) / WORD + if (a - b) % WORD < HALF then 0 else 1;
  }

  lemma SignedIs(a: nat, b: nat, x: int, k: int)
    requires a - b == x + WORD * k && 0 <= x + HALF < WORD
    ensures Signed(a, b) == x
  {
    if x >= 0 {
      Remainder(a - b, k, x);
    } else {
      Remainder(a - b, k - 1, x + WORD);
    }
  }

  /** Time left, none for what is overdue. */
  function Left(deadline: nat, now: nat): nat {
    if Signed(deadline, now) > 0 then Signed(deadline, now) else 0
  }

  /** It is the time until then, wherever the clock wraps. */
  lemma LeftIs(deadline: nat, now: nat)
    requires now < deadline + HALF && deadline < now + HALF
    ensures Left(deadline % WORD, now % WORD) == if now < deadline then deadline - now else 0
  {
    ModDifference(deadline, now);
    SignedIs(deadline, now, deadline - now, 0);
  }

  /** Arms the alarm: it never fires after a deadline, and never before them all. */
  method Rearm(
      channels: seq<Channel>, nowMs: nat,
      parkPending: bool, writePending: bool, parkDueUs: nat, writeDueUs: nat, nowUs: nat)
    returns (armed: bool, waitUs: nat)
    requires forall i :: 0 <= i < |channels| ==> AllNear(Deadlines(channels[i]), nowMs)
    ensures armed <==> parkPending || writePending || exists i, d :: 0 <= i < |channels| && d in Deadlines(channels[i])
    ensures forall i, d :: 0 <= i < |channels| && d in Deadlines(channels[i]) ==> waitUs <= 1000 * Left(d, nowMs)
    ensures writePending ==> waitUs <= Left(writeDueUs, nowUs)
    ensures parkPending && !writePending ==> waitUs <= Left(parkDueUs, nowUs)
    ensures armed ==> || (writePending && waitUs == Left(writeDueUs, nowUs))
                      || (parkPending && waitUs == Left(parkDueUs, nowUs))
                      || exists i, d :: 0 <= i < |channels| && d in Deadlines(channels[i]) &&
                            waitUs == 1000 * Left(d, nowMs)
    ensures waitUs < WORD
  {
    var earliest, have := 0, false;
    for led := 0 to |channels|
      invariant have <==> exists i, d :: 0 <= i < led && d in Deadlines(channels[i])
      invariant have ==> exists i :: 0 <= i < led && earliest in Deadlines(channels[i])
      invariant have ==> Near(earliest, nowMs)
      invariant have ==> forall i, d :: 0 <= i < led && d in Deadlines(channels[i]) ==>
          Signed(earliest, nowMs) <= Signed(d, nowMs)
    {
      earliest, have := EarliestOf(Deadlines(channels[led]), nowMs, earliest, have);
    }
    waitUs := if have then 1000 * Left(earliest, nowMs) else 0;
    armed := have;
    if parkPending || writePending {
      var soonUs := Left(if writePending then writeDueUs else parkDueUs, nowUs);
      if !have || soonUs < waitUs {
        waitUs := soonUs;
      }
      armed := true;
    }
  }

  /** One channel's deadlines against the earliest so far. */
  method EarliestOf(ds: seq<nat>, nowMs: nat, earliest0: nat, have0: bool) returns (earliest: nat, have: bool)
    requires AllNear(ds, nowMs) && (have0 ==> Near(earliest0, nowMs))
    ensures have <==> have0 || ds != []
    ensures have ==> Near(earliest, nowMs) && (earliest in ds || (have0 && earliest == earliest0))
    ensures have0 ==> Signed(earliest, nowMs) <= Signed(earliest0, nowMs)
    ensures forall d :: d in ds ==> Signed(earliest, nowMs) <= Signed(d, nowMs)
  {
    hide Signed;
    earliest, have := earliest0, have0;
    for i := 0 to |ds|
      invariant have <==> have0 || i > 0
      invariant have ==> Near(earliest, nowMs) && (earliest in ds[..i] || (have0 && earliest == earliest0))
      invariant have0 ==> Signed(earliest, nowMs) <= Signed(earliest0, nowMs)
      invariant forall k :: 0 <= k < i ==> Signed(earliest, nowMs) <= Signed(ds[k], nowMs)
    {
      if have {
        SignedDifference(ds[i], earliest, nowMs);
      }
      if !have || Signed(ds[i], earliest) < 0 {
        earliest, have := ds[i], true;
      }
    }
  }

  lemma NearAhead(now: nat, gap: nat)
    requires now < WORD && gap <= FARTHEST_MS
    ensures Near((now + gap) % WORD, now)
  {
    ModDifference(now + gap, now);
  }

  lemma ExpiryNear(now: nat, hold: nat)
    requires now < WORD && hold < FARTHEST_MS
    ensures Near(ExpiryField(now + hold), now)
  {
    NearAhead(now, hold);
    NearAhead(now, hold + 1);
    assert (now + hold) % WORD == 0 ==> (now + hold + 1) % WORD == 1;
  }

  /** An accepted request asks for nothing farther ahead than the alarm can wait. */
  lemma RequestedNear(ch: Channel, req: Request, now: nat)
    requires now < WORD && req.holdMs <= MAX_HOLD_MS && req.period < FARTHEST_MS
    requires ch.holdExpiry != 0 ==> Near(ch.holdExpiry, now)
    ensures AllNear(Deadlines(Requested(ch, req, now)), now)
  {
    hide Near, ExpiryField;
    var look := LookOf(req);
    IntervalFits(look);
    NearAhead(now, FrameInterval(look));
    ExpiryNear(now, HoldOf(req));
  }

  lemma IntervalFits(l: Look)
    ensures l.period < FARTHEST_MS ==> FrameInterval(l) <= FARTHEST_MS
  {
  }

  /** Nor does a frame. */
  lemma FramedNear(ch: Channel, now: nat, restoreNow: nat)
    requires now < WORD && Near(restoreNow, now) && AllNear(Deadlines(ch), now) && ch.shown.period < FARTHEST_MS
    ensures AllNear(Deadlines(Framed(ch, now, restoreNow)), now)
  {
    hide Near, Advanced, Due;
    var next := Framed(ch, now, restoreNow);
    if !(ch.holdExpiry != 0 && Due(now, ch.holdExpiry)) && Repeats(ch.shown.mode) {
      assert Deadlines(ch)[0] == ch.nextFrame;
      assert ch.holdExpiry != 0 ==> Deadlines(ch)[1] == ch.holdExpiry;
      AdvancedNear(ch, now);
    }
  }

  lemma AdvancedNear(ch: Channel, now: nat)
    requires now < WORD && Near(ch.nextFrame, now) && ch.shown.period < FARTHEST_MS
    ensures var next := Advanced(ch, now);
      Near(next.nextFrame, now) && next.holdExpiry == ch.holdExpiry && next.shown == ch.shown
  {
    hide Near, Due, FrameInterval;
    var entry := FLAME_TABLE[(ch.step + 1) % |FLAME_TABLE|].1;
    FlameGap(entry, ch.shown.period);
    var gap := entry * ch.shown.period / FLAME_DEFAULT_PERIOD_MS;
    NearAhead(now, if gap < 1 then 1 else gap);
    IntervalFits(ch.shown);
    NearAhead(now, FrameInterval(ch.shown));
  }

  lemma FlameGap(entry: nat, period: nat)
    requires entry <= 70 && period < FARTHEST_MS
    ensures entry * period / FLAME_DEFAULT_PERIOD_MS <= FARTHEST_MS
  {
    Scaled(entry, 0, 70, period);
  }
}
