/** The disk's speed from two passes of one sector (1541hud/artifacts/T0.0.16, probe). */
module HeaderTiming {
  import opened Wrappers
  import opened Bits
  import opened EventText

  const TICKS_WORD: nat := 0x1_0000

  // ---------------------------------------------------------------------
  // Speed from a tick count
  // ---------------------------------------------------------------------

  const TICKS_PER_REV: nat := 12500          // 16 us ticks at 300 RPM
  const RPM100_TICKS: nat := 375_000_000     // 60 s in ticks, times 100

  function Revolutions(dt: nat): nat {
    (dt + 6250) / TICKS_PER_REV
  }

  function Rpm100(dt: nat, revs: nat): nat
    requires dt > 0
  {
    (RPM100_TICKS * revs + dt / 2) / dt
  }

  /** The record a second pass of a sector gives, if its time is plausible. */
  function RpmOf(track: nat, before: Option<nat>, now: nat): Option<Event> {
    if before.None? then None
    else
      var dt := (now - before.value) % TICKS_WORD;
      if dt < 10000 then None
      else
        var revs := Revolutions(dt);
        if !(1 <= revs <= 4) then None
        else
          var rpm := Rpm100(dt, revs);
          if 28000 <= rpm <= 32000 then Some(Rpm(track, revs, rpm)) else None
  }

  /** k revolutions at 280 to 320 RPM took dt ticks. */
  predicate AtSpeed(k: nat, dt: nat) {
    28000 * dt <= RPM100_TICKS * k <= 32000 * dt
  }

  lemma QuotientRounds(a: nat, dt: nat)
    requires dt > 0
    ensures var q := (a + dt / 2) / dt;
      2 * q * dt <= 2 * a + dt && 2 * a < 2 * q * dt + dt + 1
  {
    DivModParts(a + dt / 2, dt);
    assert 2 * ((a + dt / 2) / dt) * dt == 2 * (((a + dt / 2) / dt) * dt);
  }

  /** For any time that one to four revolutions can take, exactly that number is
      inferred, the speed is rounded to nearest, and nothing reaches 32 bits. */
  lemma SpeedInferred(k: nat, dt: nat)
    requires 1 <= k <= 4 && AtSpeed(k, dt)
    ensures 10000 <= dt < TICKS_WORD && Revolutions(dt) == k
    ensures RPM100_TICKS * k + dt / 2 < 0x1_0000_0000
    ensures var rpm := Rpm100(dt, k);
      && 28000 <= rpm <= 32000
      && 2 * rpm * dt <= 2 * RPM100_TICKS * k + dt && 2 * RPM100_TICKS * k <= 2 * rpm * dt + dt
  {
    QuotientRounds(RPM100_TICKS * k, dt);
    RoundedInRange(RPM100_TICKS * k, dt);
  }

  /** Rounding does not leave the range the exact value lies in. */
  lemma RoundedInRange(a: nat, dt: nat)
    requires dt > 0 && 28000 * dt <= a <= 32000 * dt
    ensures 28000 <= (a + dt / 2) / dt <= 32000
  {
    QuotientRounds(a, dt);
    var q := (a + dt / 2) / dt;
    if q < 28000 {
      Grows(2 * q + 2, 56000, dt);
    } else if q > 32000 {
      Grows(64002, 2 * q, dt);
    }
  }

  lemma Grows(a: nat, b: nat, m: nat)
    requires a <= b
    ensures a * m <= b * m
  {
  }

  /** A time gives a record exactly if one to four revolutions in it, at a speed that
      rounds to 280.00 to 320.00 RPM, explain it; and then those. */
  lemma SpeedRecordIff(track: nat, start: nat, now: nat, e: Event)
    ensures var dt := (now - start) % 0x1_0000;
      RpmOf(track, Some(start), now) == Some(e)
      <==> (&& e.Rpm? && e.track == track && 1 <= e.revolutions <= 4 && 28000 <= e.rpm100 <= 32000
            && e.rpm100 * dt <= 375_000_000 * e.revolutions + dt / 2 < (e.rpm100 + 1) * dt)
  {
    var dt := (now - start) % 0x1_0000;
    if e.Rpm? && 1 <= e.revolutions <= 4 && 28000 <= e.rpm100 <= 32000
       && e.rpm100 * dt <= 375_000_000 * e.revolutions + dt / 2 < (e.rpm100 + 1) * dt {
      Grows(28000, e.rpm100, dt);
      Grows(e.rpm100 + 1, 32001, dt);
      NearestRevolution(e.revolutions, dt);
      var ticks := 375_000_000 * e.revolutions + dt / 2;
      ModUnique(ticks, dt, e.rpm100, ticks - e.rpm100 * dt);
    } else if dt > 0 && RpmOf(track, Some(start), now) == Some(e) {
      DivModParts(RPM100_TICKS * Revolutions(dt) + dt / 2, dt);
    }
  }

  lemma NearestRevolution(k: nat, dt: nat)
    requires 1 <= k <= 4 && 28000 * dt <= 375_000_000 * k + dt / 2 < 32001 * dt
    ensures dt >= 10000 && Revolutions(dt) == k
  {
  }

  /** The record of a sector seen again k revolutions later, whenever the 16-bit tick
      count wraps. */
  lemma RecordForRevolutions(track: nat, start: nat, dt: nat, k: nat)
    requires 1 <= k <= 4 && AtSpeed(k, dt)
    ensures RpmOf(track, Some(start % TICKS_WORD), (start + dt) % TICKS_WORD) == Some(Rpm(track, k, Rpm100(dt, k)))
  {
    hide Rpm100, Revolutions;
    SpeedInferred(k, dt);
    TicksBetween(start, dt);
  }

  lemma TicksBetween(start: nat, dt: nat)
    requires dt < TICKS_WORD
    ensures ((start + dt) % TICKS_WORD - start % TICKS_WORD) % TICKS_WORD == dt
  {
  }

  // ---------------------------------------------------------------------
  // Which passes are compared
  // ---------------------------------------------------------------------

  /** What the speed history depends on. */
  datatype Mark = Cleared | Passed(sector: nat, ticks16: nat)

  /** The last time a sector passed since the history was cleared. */
  function LastPass(marks: seq<Mark>, sector: nat): Option<nat> {
    if marks == [] then None
    else
      match marks[|marks| - 1]
      case Cleared => None
      case Passed(s, t) => if s == sector then Some(t) else LastPass(marks[..|marks| - 1], sector)
  }

  lemma NoRecord(track: nat, now: nat)
    ensures RpmOf(track, None, now) == None
  {
  }
}
