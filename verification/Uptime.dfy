/** Time (OneROM/firmware/src/plugin.c): a 64-bit microsecond count read in two
halves, and milliseconds from it in 32-bit arithmetic. */
module Uptime {
  import opened Words

  /** The counter at each successive register read of a call. */
  ghost predicate Counting(counter: nat -> nat) {
    && (forall i :: counter(i) < WORD * WORD)
    && (forall i, j :: i <= j ==> counter(i) <= counter(j))
  }

  function High(us: nat): nat {
    us / WORD
  }

  function Low(us: nat): nat {
    us % WORD
  }

  /** Equal high halves either side of a low half put all three reads in one span of
      the high half, in which the low half is the middle read's own. */
  lemma HalvesBelongTogether(before: nat, at: nat, after: nat)
    requires before <= at <= after && High(before) == High(after)
    ensures High(before) * WORD + Low(at) == at
  {
  }

  /** The counter had the value during a call that took this many reads: at the last
      but one, and so between its first and its last. */
  ghost predicate HeldDuring(counter: nat -> nat, us: nat, taken: nat) {
    taken >= 3 && us == counter(taken - 2) && counter(0) <= us <= counter(taken - 1)
  }

  /** onerom_timer_us64: reads the registers until the high half holds still. */
  method TimerUs64(counter: nat -> nat) returns (us: nat)
    requires Counting(counter)
    ensures exists taken: nat :: HeldDuring(counter, us, taken)
    ensures us < WORD * WORD
  {
    var hi := High(counter(0));
    var lo := Low(counter(1));
    var hiAgain := High(counter(2));
    var n := 3;
    while hiAgain != hi
      invariant n >= 3 && hi == High(counter(n - 3)) && lo == Low(counter(n - 2)) && hiAgain == High(counter(n - 1))
      invariant hi <= hiAgain < WORD
      decreases WORD - hi
    {
      hi := hiAgain;
      lo := Low(counter(n));
      hiAgain := High(counter(n + 1));
      n := n + 2;
    }
    HalvesBelongTogether(counter(n - 3), counter(n - 2), counter(n - 1));
    us := hi * WORD + lo;
    assert HeldDuring(counter, us, n);
  }

  /** 2^32 == 1000 * 4294967 + 296, so the pieces of the sum make up the quotient, and
      what it leaves out is a multiple of 2^32. */
  lemma PiecesOfQuotient(us: nat, r: nat, lo: nat)
    requires r == High(us) % 1000 && lo == Low(us)
    ensures var ms := r * 4294967 + lo / 1000 + (r * 296 + lo % 1000) / 1000;
      ms < WORD && us / 1000 == (High(us) / 1000) * WORD + ms && (us / 1000) % WORD == ms
  {
    var q, t, u := High(us) / 1000, r * 4294967 + lo / 1000, r * 296 + lo % 1000;
    assert High(us) == 1000 * q + r && us == WORD * High(us) + lo;
    assert r * WORD + lo == 1000 * t + u && us == 1000 * (q * WORD + t) + u;
    Thousands(q * WORD + t, u);
    Thousands(t, u);
    assert r * WORD + lo < 1000 * WORD;
    WrapsTo(q, t + u / 1000);
  }

  lemma Thousands(a: nat, u: nat)
    ensures (1000 * a + u) / 1000 == a + u / 1000
  {
  }

  lemma WrapsTo(q: nat, ms: nat)
    ensures ms < WORD ==> (q * WORD + ms) % WORD == ms
  {
  }

  /** ora_get_plugin_uptime_ms: the whole count in milliseconds, modulo 2^32.  No
      product or sum on the way reaches 2^32. */
  method UptimeMs(counter: nat -> nat) returns (ms: nat)
    requires Counting(counter)
    ensures exists us: nat, taken: nat :: HeldDuring(counter, us, taken) && ms == (us / 1000) % WORD
  {
    hide High, Low;
    var count := TimerUs64(counter);
    ghost var taken: nat :| HeldDuring(counter, count, taken);
    var hi, lo := High(count), Low(count);
    LowFits(count);
    var r := hi % 1000;
    PiecesOfQuotient(count, r, lo);
    var a, b, c := r * 4294967, lo / 1000, r * 296 + lo % 1000;
    assert a < WORD && b < WORD && c < WORD && a + b < WORD;
    ms := a + b + c / 1000;
    assert HeldDuring(counter, count, taken) && ms == (count / 1000) % WORD;
  }

  lemma LowFits(us: nat)
    ensures Low(us) < WORD
  {
  }

  /** Two readings less than 49.7 days apart give their distance, through the wrap. */
  lemma ElapsedAcrossWrap(us1: nat, us2: nat)
    requires us1 <= us2 && us2 / 1000 - us1 / 1000 < WORD
    ensures ((us2 / 1000) % WORD - (us1 / 1000) % WORD) % WORD == us2 / 1000 - us1 / 1000
  {
  }
}
