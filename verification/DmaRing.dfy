/** The 1541HUD capture ring (1541hud/artifacts/T0.0.16, probe): counting what a
self-restarting DMA channel has written, and never falling more than a ring behind. */
module DmaRing {
  import opened Words
  import opened CaptureRing

  const DMA_RELOAD: nat := 0x0fff_ffff
  const RING_WORDS: nat := 64
  const PRESSURE_WORDS: nat := 48

  // ---------------------------------------------------------------------
  // The channel
  // ---------------------------------------------------------------------

  /** The channel's count register, and how many transfers and restarts it has made.
      A transfer counts down; at zero the channel starts itself again. */
  datatype Channel = Channel(remaining: nat, transfers: nat, reloads: nat)

  predicate Running(c: Channel) {
    c.remaining <= DMA_RELOAD && c.transfers + c.remaining == DMA_RELOAD * (c.reloads + 1)
  }

  const FRESH: Channel := Channel(DMA_RELOAD, 0, 0)

  datatype Tick = Transfer | Restart

  function After(c: Channel, t: Tick): Channel {
    match t
    case Transfer => if c.remaining > 0 then Channel(c.remaining - 1, c.transfers + 1, c.reloads) else c
    case Restart => if c.remaining == 0 then Channel(DMA_RELOAD, c.transfers, c.reloads + 1) else c
  }

  function AfterAll(c: Channel, ticks: seq<Tick>): Channel {
    if ticks == [] then c else After(AfterAll(c, ticks[..|ticks| - 1]), ticks[|ticks| - 1])
  }

  lemma {:induction false} ChannelRuns(c: Channel, ticks: seq<Tick>)
    requires Running(c)
    ensures Running(AfterAll(c, ticks))
    ensures AfterAll(c, ticks).transfers >= c.transfers && AfterAll(c, ticks).reloads >= c.reloads
  {
    if ticks != [] {
      ChannelRuns(c, ticks[..|ticks| - 1]);
    }
  }

  /** What dma_update_producer makes of two readings of the register. */
  function Advanced(last: nat, remaining: nat): int {
    if remaining <= last then last - remaining else last + (DMA_RELOAD - remaining)
  }

  /** It is the number of transfers between the readings if that is less than a full
      count; otherwise only when the channel had gone exactly from full to empty. */
  lemma AdvancedExactIff(before: Channel, now: Channel)
    requires Running(before) && Running(now)
    requires now.transfers >= before.transfers && now.reloads >= before.reloads
    ensures var d := now.transfers - before.transfers;
      Advanced(before.remaining, now.remaining) == d
      <==> d < DMA_RELOAD || (d == DMA_RELOAD && now.reloads == before.reloads)
  {
    var k := now.reloads - before.reloads;
    assert now.transfers - before.transfers == DMA_RELOAD * k + before.remaining - now.remaining;
    if k >= 2 {
      assert DMA_RELOAD * k >= 2 * DMA_RELOAD;
    }
  }

  // ---------------------------------------------------------------------
  // The probe's accounts
  // ---------------------------------------------------------------------

  class Probe {
    var producedTotal: nat
    var lastRemaining: nat
    var consumerTotal: nat
    var consumedCount: nat
    var ringOverrun: nat
    var ringPressure: nat
    ghost var sampled: Channel    // the channel at the last reading
    ghost var consumed: nat       // words taken, and words given up, without wrapping
    ghost var lost: nat

    /** Every 32-bit total is its true count, and the consumer is not ahead. */
    ghost predicate Valid()
      reads this
    {
      && Running(sampled) && lastRemaining == sampled.remaining
      && producedTotal == sampled.transfers % WORD
      && consumerTotal == (consumed + lost) % WORD
      && consumedCount == consumed % WORD && ringOverrun == lost % WORD && ringPressure < WORD
      && consumed + lost <= sampled.transfers
    }

    ghost function Behind(): int
      reads this
    {
      sampled.transfers - (consumed + lost)
    }

    /** As it stands after a health check. */
    ghost predicate Healthy()
      reads this
    {
      Valid() && Behind() <= RING_WORDS
    }

    constructor ()
      ensures Healthy() && sampled == FRESH && consumed == 0 && lost == 0
    {
      producedTotal, lastRemaining, consumerTotal := 0, DMA_RELOAD, 0;
      consumedCount, ringOverrun, ringPressure := 0, 0, 0;
      sampled, consumed, lost := FRESH, 0, 0;
    }

    /** dma_update_producer, reading the register of the channel as it is now. */
    method UpdateProducer(remaining: nat, ghost now: Channel)
      requires Valid() && Running(now) && now.remaining == remaining
      requires now.transfers >= sampled.transfers && now.reloads >= sampled.reloads
      requires now.transfers - sampled.transfers < DMA_RELOAD
      modifies this`producedTotal, this`lastRemaining, this`sampled
      ensures Valid() && sampled == now
    {
      AdvancedExactIff(sampled, now);
      var advanced := Advanced(lastRemaining, remaining);
      lastRemaining := remaining;
      ModSum(sampled.transfers, advanced);
      producedTotal := (producedTotal + advanced) % WORD;
      sampled := now;
    }

    /** update_ring_health: words beyond a ring are given up, oldest first. */
    method UpdateRingHealth()
      requires Valid() && Behind() < WORD
      modifies this`ringOverrun, this`ringPressure, this`consumerTotal, this`lost
      ensures Healthy()
      ensures Behind() == if old(Behind()) > RING_WORDS then RING_WORDS else old(Behind())
      ensures lost == old(lost) + old(Behind()) - Behind()
      ensures ringPressure == (old(ringPressure) + if old(Behind()) >= PRESSURE_WORDS then 1 else 0) % WORD
    {
      Available(sampled.transfers, consumed + lost);
      var available := (producedTotal + WORD - consumerTotal) % WORD;
      if available > RING_WORDS {
        Overrun(sampled.transfers, lost, available - RING_WORDS);
        ringOverrun := (ringOverrun + (available - RING_WORDS)) % WORD;
        ringPressure := (ringPressure + 1) % WORD;
        consumerTotal := (producedTotal + WORD - RING_WORDS) % WORD;
        lost := lost + (available - RING_WORDS);
      } else if available >= PRESSURE_WORDS {
        ringPressure := (ringPressure + 1) % WORD;
      }
    }

    /** One word: its place in the ring, and the counts moved on. */
    method ConsumeOne() returns (idx: nat)
      requires Healthy() && Behind() > 0
      modifies this`consumerTotal, this`consumedCount, this`consumed
      ensures Healthy() && consumed == old(consumed) + 1
      ensures idx == (old(consumed) + lost) % RING_WORDS
    {
      idx := consumerTotal % RING_WORDS;
      RingIndex(consumed + lost);
      ModSum(consumed + lost, 1);
      ModSum(consumed, 1);
      consumerTotal := (consumerTotal + 1) % WORD;
      consumedCount := (consumedCount + 1) % WORD;
      consumed := consumed + 1;
    }

    /** The consume loop of the main program: while words are known to be waiting, one
        is taken, the channel read again and the ring's health checked.  `readings`
        are the channel at those moments. */
    method Drain(readings: seq<Channel>) returns (taken: seq<nat>)
      requires Healthy() && ReadingsFollow(sampled, readings)
      modifies this
      ensures Healthy()
      ensures |taken| <= |readings| && consumed == old(consumed) + |taken|
      ensures Behind() == 0 || |taken| == |readings|
      ensures |taken| > 0 ==> sampled == readings[|taken| - 1]
    {
      taken := [];
      ghost var start := consumed;
      var j := 0;
      while consumerTotal != producedTotal && j < |readings|
        invariant Healthy() && j <= |readings| && |taken| == j && consumed == start + j
        invariant j > 0 ==> sampled == readings[j - 1]
        invariant j == 0 ==> sampled == old(sampled)
        decreases |readings| - j
      {
        Waiting();
        var idx := ConsumeOne();
        taken := taken + [idx];
        UpdateProducer(readings[j].remaining, readings[j]);
        UpdateRingHealth();
        j := j + 1;
      }
      Waiting();
    }

    /** One turn of the main loop: the channel is read, the ring checked, and what is
        known to be waiting is drained. */
    method Turn(first: Channel, readings: seq<Channel>) returns (taken: seq<nat>)
      requires Healthy() && ReadingsFollow(sampled, [first] + readings)
      modifies this
      ensures Healthy() && consumed == old(consumed) + |taken|
      ensures Behind() == 0 || |taken| == |readings|
    {
      FollowSplit(sampled, first, readings);
      UpdateProducer(first.remaining, first);
      UpdateRingHealth();
      taken := Drain(readings);
    }

    /** The two totals differ exactly while words are waiting. */
    lemma Waiting()
      requires Healthy()
      ensures consumerTotal == producedTotal <==> Behind() == 0
    {
      Available(sampled.transfers, consumed + lost);
      assert (producedTotal + WORD - producedTotal) % WORD == 0;
    }
  }

  /** The wrapped difference of the totals is the true one. */
  lemma Available(produced: nat, taken: nat)
    requires taken <= produced < taken + WORD
    ensures (produced % WORD + WORD - taken % WORD) % WORD == produced - taken
  {
    ModDifference(produced, taken);
    assert (produced % WORD + WORD - taken % WORD) % WORD == (produced % WORD - taken % WORD) % WORD;
  }

  lemma Overrun(produced: nat, lost: nat, over: nat)
    requires produced >= RING_WORDS
    ensures (produced % WORD + WORD - RING_WORDS) % WORD == (produced - RING_WORDS) % WORD
    ensures (lost % WORD + over) % WORD == (lost + over) % WORD
  {
    ModSum(lost, over);
    ModSum(produced, WORD - RING_WORDS);
    assert (produced + WORD - RING_WORDS) % WORD == (produced - RING_WORDS) % WORD;
  }

  /** A later reading of the same running channel, less than a full count on. */
  ghost predicate Follows(before: Channel, now: Channel) {
    && Running(now) && now.reloads >= before.reloads
    && before.transfers <= now.transfers < before.transfers + DMA_RELOAD
  }

  ghost predicate ReadingsFollow(from: Channel, readings: seq<Channel>) {
    readings != [] ==>
      Follows(from, readings[0]) && forall j :: 0 < j < |readings| ==> Follows(readings[j - 1], readings[j])
  }

  lemma FollowSplit(from: Channel, first: Channel, readings: seq<Channel>)
    requires ReadingsFollow(from, [first] + readings)
    ensures Follows(from, first) && ReadingsFollow(first, readings)
  {
    hide Follows;
    var all := [first] + readings;
    assert all[0] == first;
    if readings != [] {
      assert all[1] == readings[0] && Follows(all[0], all[1]);
      forall j | 0 < j < |readings| ensures Follows(readings[j - 1], readings[j]) {
        assert all[j + 1] == readings[j] && all[j] == readings[j - 1];
      }
    }
  }

  lemma RingIndex(n: nat)
    ensures (n % WORD) % RING_WORDS == n % RING_WORDS
  {
  }

  /** The word a healthy consumer takes is still in the ring as the reading found it:
      word number c of the stream is at c % 64 for as long as 64 words are behind. */
  lemma {:induction false} RingSlot(stream: seq<nat>, c: nat)
    ensures Slot(Capture(stream, RING_WORDS, 0), c) == c % RING_WORDS
  {
    if c != 0 {
      RingSlot(stream, c - 1);
    }
  }

  lemma TakenInOrder(stream: seq<nat>, produced: nat, c: nat)
    requires c < produced <= |stream| && produced - c <= RING_WORDS
    ensures Held(Capture(stream, RING_WORDS, 0), produced, c % RING_WORDS) == stream[c]
  {
    RingSlot(stream, c);
    HeldIsCaptured(Capture(stream, RING_WORDS, 0), c, produced);
  }
}
