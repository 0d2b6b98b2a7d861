/** The event queue between the 1541HUD probe and its USB bridge
(1541hud/artifacts/T0.0.16): 32 words, one of them always free, filled by one core
and drained by the other. */
module EventQueue {
  import opened Words

  const EVENT_WORDS: nat := 32

  /** The event types, from the mailbox header and, for SYNC_DIAG, the probe itself. */
  const MOTOR: nat := 1
  const PHASE: nat := 2
  const TRACK_WRITE: nat := 3
  const WRITE_PROTECT: nat := 4
  const DENSITY: nat := 5
  const HDRPHY_DIAG: nat := 6
  const RPM_DIAG: nat := 7
  const SYNC_DIAG: nat := 8

  function TypeOf(w: nat): nat {
    (w / 0x1000_0000) % 16
  }

  predicate Known(w: nat) {
    MOTOR <= TypeOf(w) <= SYNC_DIAG
  }

  datatype Fate = Sent | Unknown | Dropped

  /** queue_event: the head and tail are sampled, the word stored, the head published. */
  datatype Producer = ProducerIdle | Storing(word: nat) | Stored(word: nat)

  /** The drain loop: a word is read, sent or found unknown, and the tail published.
      A reconnect samples the head, then stores it as the tail. */
  datatype Consumer = ConsumerIdle | Reading(word: nat) | Handled(fate: Fate) | Discarding(head: nat)

  /** The shared mailbox fields and both sides' locals; then what has been accepted,
      what became of each word that has left, what reached the host, and how often a
      word was offered and refused. */
  datatype State = State(
    head: nat, tail: nat, events: seq<nat>, eventOverflow: nat,
    producer: Producer, consumer: Consumer,
    accepted: seq<nat>, fates: seq<Fate>, sent: seq<nat>, attempts: nat, refused: nat)

  datatype Action =
    | Offer(word: nat)
    | Store
    | Publish
    | Connect
    | Discard
    | Read
    | Handle(cdcReady: bool)
    | Release

  function Next(i: nat): nat {
    (i + 1) % EVENT_WORDS
  }

  function Repeat(f: Fate, n: nat): (s: seq<Fate>)
    ensures |s| == n && forall i :: 0 <= i < n ==> s[i] == f
  {
    seq(n, _ => f)
  }

  /** How many words a discard takes, as the ring counts them. */
  function Behind(head: nat, tail: nat): nat {
    (head - tail) % EVENT_WORDS
  }

  predicate InRange(s: State) {
    s.head < EVENT_WORDS && s.tail < EVENT_WORDS && |s.events| == EVENT_WORDS
    && (s.consumer.Discarding? ==> s.consumer.head < EVENT_WORDS)
  }

  /** A step its side is not ready for does nothing. */
  function Apply(s: State, a: Action): (t: State)
    requires InRange(s)
    ensures InRange(t)
  {
    match a
    case Offer(word) =>
      if !s.producer.ProducerIdle? then s
      else if Next(s.head) == s.tail then
        s.(eventOverflow := (s.eventOverflow + 1) % WORD, refused := s.refused + 1, attempts := s.attempts + 1)
      else s.(producer := Storing(word), attempts := s.attempts + 1)
    case Store =>
      if s.producer.Storing?
      then s.(events := s.events[s.head := s.producer.word], producer := Stored(s.producer.word)) else s
    case Publish =>
      if s.producer.Stored?
      then s.(head := Next(s.head), accepted := s.accepted + [s.producer.word], producer := ProducerIdle) else s
    case Connect => if s.consumer.ConsumerIdle? then s.(consumer := Discarding(s.head)) else s
    case Discard =>
      if s.consumer.Discarding?
      then s.(tail := s.consumer.head, consumer := ConsumerIdle,
              fates := s.fates + Repeat(Dropped, Behind(s.consumer.head, s.tail)))
      else s
    case Read => if s.consumer.ConsumerIdle? && s.tail != s.head then s.(consumer := Reading(s.events[s.tail])) else s
    case Handle(ready) =>
      if !s.consumer.Reading? then s
      else if !Known(s.consumer.word) then s.(consumer := Handled(Unknown))
      else if ready then s.(consumer := Handled(Sent), sent := s.sent + [s.consumer.word])
      else s.(consumer := ConsumerIdle)
    case Release =>
      if s.consumer.Handled?
      then s.(tail := Next(s.tail), fates := s.fates + [s.consumer.fate], consumer := ConsumerIdle) else s
  }

  function Empty(): State {
    State(0, 0, seq(EVENT_WORDS, _ => 0), 0, ProducerIdle, ConsumerIdle, [], [], [], 0, 0)
  }

  function Exec(run: seq<Action>): (s: State)
    ensures InRange(s)
  {
    if run == [] then Empty() else Apply(Exec(run[..|run| - 1]), run[|run| - 1])
  }

  // ---------------------------------------------------------------------
  // What every run keeps
  // ---------------------------------------------------------------------

  /** The words of those whose fate was to be sent, in the order they were accepted. */
  function SentOf(words: seq<nat>, fates: seq<Fate>): seq<nat>
    requires |words| == |fates|
  {
    if words == [] then []
    else
      var n := |words| - 1;
      SentOf(words[..n], fates[..n]) + if fates[n] == Sent then [words[n]] else []
  }

  function Count(fates: seq<Fate>, f: Fate): nat {
    if fates == [] then 0
    else Count(fates[..|fates| - 1], f) + if fates[|fates| - 1] == f then 1 else 0
  }

  /** The words taken and the words gone, against the two indices. */
  predicate Counted(s: State) {
    var h, t := |s.accepted|, |s.fates|;
    && InRange(s) && t <= h < t + EVENT_WORDS
    && s.head == h % EVENT_WORDS && s.tail == t % EVENT_WORDS
    && (!s.producer.ProducerIdle? ==> h + 1 < t + EVENT_WORDS)
    && (s.consumer.Reading? || s.consumer.Handled? ==> t < h)
    && (s.consumer.Discarding? ==>
          exists k :: t <= k <= h && s.consumer.head == k % EVENT_WORDS)
  }

  /** The queue's words are the pending ones, and what was sent is what fate says. */
  predicate Faithful(s: State) {
    var h, t := |s.accepted|, |s.fates|;
    && Counted(s)
    && (forall k :: t <= k < h ==> s.events[k % EVENT_WORDS] == s.accepted[k])
    && (s.producer.Stored? ==> s.events[s.head] == s.producer.word)
    && (s.consumer.Reading? ==> s.consumer.word == s.accepted[t])
    && (s.consumer.Handled? ==> s.consumer.fate != Dropped && (s.consumer.fate == Unknown <==> !Known(s.accepted[t])))
    && s.sent == SentOf(s.accepted[..t], s.fates)
                 + (if s.consumer == Handled(Sent) then [s.accepted[t]] else [])
    && s.attempts == h + s.refused + (if s.producer.ProducerIdle? then 0 else 1)
    && s.eventOverflow == s.refused % WORD
    && (forall k :: 0 <= k < t && s.fates[k] != Dropped ==> (s.fates[k] == Unknown <==> !Known(s.accepted[k])))
  }

  lemma SentOfSnoc(words: seq<nat>, fates: seq<Fate>, w: nat, f: Fate)
    requires |words| == |fates|
    ensures SentOf(words + [w], fates + [f]) == SentOf(words, fates) + if f == Sent then [w] else []
  {
    assert (words + [w])[..|words|] == words && (fates + [f])[..|fates|] == fates;
  }

  lemma {:induction false} SentOfDropped(words: seq<nat>, fates: seq<Fate>, more: seq<nat>)
    requires |words| == |fates|
    ensures SentOf(words + more, fates + Repeat(Dropped, |more|)) == SentOf(words, fates)
  {
    if more == [] {
      assert words + more == words && fates + Repeat(Dropped, 0) == fates;
    } else {
      var n := |more| - 1;
      SentOfDropped(words, fates, more[..n]);
      SentOfSnoc(words + more[..n], fates + Repeat(Dropped, n), more[n], Dropped);
      assert words + more[..n] + [more[n]] == words + more;
      assert fates + Repeat(Dropped, n) + [Dropped] == fates + Repeat(Dropped, |more|);
    }
  }

  lemma NextIs(n: nat)
    ensures Next(n % EVENT_WORDS) == (n + 1) % EVENT_WORDS
  {
  }

  /** Fewer than a ring apart, an index is only that of its own count. */
  lemma IndexApart(k: nat, h: nat)
    requires k <= h < k + EVENT_WORDS
    ensures k % EVENT_WORDS == h % EVENT_WORDS <==> k == h
  {
  }

  lemma OfferStep(s: State, word: nat)
    requires Faithful(s)
    ensures Faithful(Apply(s, Offer(word)))
  {
    hide SentOf, Known, Next;
    FullWhen(|s.accepted|, |s.fates|);
    OverflowNext(s.refused);
    var u := Apply(s, Offer(word));
    assert Counted(u);
  }

  lemma FullWhen(h: nat, t: nat)
    requires t <= h < t + EVENT_WORDS
    ensures Next(h % EVENT_WORDS) == t % EVENT_WORDS <==> h + 1 == t + EVENT_WORDS
  {
  }

  lemma OverflowNext(n: nat)
    ensures (n % WORD + 1) % WORD == (n + 1) % WORD
  {
  }

  lemma StoreStep(s: State)
    requires Faithful(s)
    ensures Faithful(Apply(s, Store))
  {
    hide SentOf, Known, Next;
    var h, t := |s.accepted|, |s.fates|;
    forall k | t <= k < h ensures k % EVENT_WORDS != h % EVENT_WORDS {
      IndexApart(k, h);
    }
  }

  lemma PublishStep(s: State)
    requires Faithful(s)
    ensures Faithful(Apply(s, Publish))
  {
    hide SentOf, Known, Next;
    var u := Apply(s, Publish);
    NextIs(|s.accepted|);
    if s.producer.Stored? {
      assert u.accepted[..|u.fates|] == s.accepted[..|s.fates|];
    }
  }

  lemma ReadStep(s: State, a: Action)
    requires Faithful(s) && (a.Connect? || a.Read? || a.Handle?)
    ensures Faithful(Apply(s, a))
  {
    hide SentOf, Known;
    assert SentOf(s.accepted[..|s.fates|], s.fates) + [] == SentOf(s.accepted[..|s.fates|], s.fates);
    if a.Connect? {
      assert s.head == |s.accepted| % EVENT_WORDS;
    }
  }

  lemma ReleaseStep(s: State)
    requires Faithful(s)
    ensures Faithful(Apply(s, Release))
  {
    hide SentOf, Known, Next;
    var u := Apply(s, Release);
    if s.consumer.Handled? {
      var t := |s.fates|;
      NextIs(t);
      SentOfSnoc(s.accepted[..t], s.fates, s.accepted[t], s.consumer.fate);
      assert u.accepted[..t + 1] == s.accepted[..t] + [s.accepted[t]];
    }
  }

  lemma DiscardStep(s: State)
    requires Faithful(s)
    ensures Faithful(Apply(s, Discard))
  {
    hide SentOf, Known;
    if s.consumer.Discarding? {
      var u := Apply(s, Discard);
      var t := |s.fates|;
      var k :| t <= k <= |s.accepted| && s.consumer.head == k % EVENT_WORDS;
      BehindIs(k, t);
      SentOfDropped(s.accepted[..t], s.fates, s.accepted[t..k]);
      assert s.accepted[..t] + s.accepted[t..k] == u.accepted[..k];
      assert |u.fates| == k;
    }
  }

  lemma BehindIs(k: nat, t: nat)
    requires t <= k < t + EVENT_WORDS
    ensures Behind(k % EVENT_WORDS, t % EVENT_WORDS) == k - t
  {
  }

  lemma {:induction false} ExecFaithful(run: seq<Action>)
    ensures Faithful(Exec(run))
  {
    hide Faithful, Apply;
    if run == [] {
      EmptyFaithful();
    } else {
      ExecFaithful(run[..|run| - 1]);
      var s, a := Exec(run[..|run| - 1]), run[|run| - 1];
      match a
      case Offer(word) => OfferStep(s, word);
      case Store => StoreStep(s);
      case Publish => PublishStep(s);
      case Connect => ReadStep(s, a);
      case Read => ReadStep(s, a);
      case Handle(_) => ReadStep(s, a);
      case Discard => DiscardStep(s);
      case Release => ReleaseStep(s);
    }
  }

  lemma EmptyFaithful()
    ensures Faithful(Empty())
  {
  }

  lemma {:induction false} CountsAddUp(fates: seq<Fate>)
    ensures Count(fates, Sent) + Count(fates, Unknown) + Count(fates, Dropped) == |fates|
  {
    if fates != [] {
      CountsAddUp(fates[..|fates| - 1]);
    }
  }

  lemma {:induction false} SentOfLength(words: seq<nat>, fates: seq<Fate>)
    requires |words| == |fates|
    ensures |SentOf(words, fates)| == Count(fates, Sent)
  {
    if words != [] {
      SentOfLength(words[..|words| - 1], fates[..|fates| - 1]);
    }
  }

  /** Accepted words that have met no fate yet. */
  function Waiting(s: State): int {
    |s.accepted| - |s.fates| - (if s.consumer == Handled(Sent) then 1 else 0)
  }

  /** Every word offered is accepted or counted as overflow, and every word accepted
      is sent, waiting, discarded as unknown or discarded on reconnecting. */
  lemma EventsConserved(run: seq<Action>)
    ensures var s := Exec(run);
      && s.attempts == |s.accepted| + s.refused + (if s.producer.ProducerIdle? then 0 else 1)
      && s.eventOverflow == s.refused % WORD
      && |s.accepted| == |s.sent| + Waiting(s) + Count(s.fates, Unknown) + Count(s.fates, Dropped)
      && 0 <= Waiting(s) < EVENT_WORDS
  {
    hide SentOf, Count;
    ExecFaithful(run);
    var s := Exec(run);
    CountsAddUp(s.fates);
    SentOfLength(s.accepted[..|s.fates|], s.fates);
  }

  /** What the host has been sent is the accepted words whose fate it was, each once
      and in order, and only words of a known type; nothing else leaves but words of
      an unknown type and what a reconnect dropped. */
  lemma SentInOrderOnce(run: seq<Action>)
    ensures var s := Exec(run);
      && |s.fates| <= |s.accepted|
      && (s.consumer == Handled(Sent) ==> |s.fates| < |s.accepted|)
      && s.sent == SentOf(s.accepted[..|s.fates|], s.fates)
                   + (if s.consumer == Handled(Sent) then [s.accepted[|s.fates|]] else [])
      && forall k :: 0 <= k < |s.fates| && s.fates[k] != Dropped ==> (s.fates[k] == Unknown <==> !Known(s.accepted[k]))
  {
    ExecFaithful(run);
  }

  /** A store never lands on a word that is waiting or being read. */
  lemma WaitingNeverOverwritten(run: seq<Action>, k: nat)
    requires |Exec(run).fates| <= k < |Exec(run).accepted|
    ensures Apply(Exec(run), Store).events[k % EVENT_WORDS]
            == Exec(run).events[k % EVENT_WORDS] == Exec(run).accepted[k]
  {
    hide SentOf;
    ExecFaithful(run);
    StoreStep(Exec(run));
  }
}
