/** A GUI reconnecting while the head moves (1541hud/artifacts/T0.0.16): the probe queues
the words of a write and publishes its state, the bridge empties the queue, reads the
published state and sends what comes after, and the two run side by side.  A word that
finds the queue full is lost. */
module Reconnect {
  import opened Wrappers
  import BusDecode
  import HeaderTiming
  import EventQueue
  import opened EventText
  import opened HudCore
  import opened HudState
  import opened ProbeDecode

  /** One word of the queue is always free. */
  const QUEUE_ROOM: nat := EventQueue.EVENT_WORDS - 1

  // ---------------------------------------------------------------------
  // The race
  // ---------------------------------------------------------------------

  /** The probe starts on a write, or on a report that moves nothing; offers its next word;
      publishes the write.  The bridge samples the head of the queue; stores it as the tail;
      takes its snapshot; sends a word. */
  datatype Turn = Write(access: Access) | Report(event: Event) | Offer | Publish | Sample | Empty | TakeSnapshot | Send

  /** `backlog` words were waiting when the head was sampled. */
  datatype Bridge = Away | Sampled(backlog: nat) | Emptied | Live

  /** The writes so far, the words of the last one still to be offered, and how many writes
      are published; the words offered, how many of them by the last publication, how many
      before the head was sampled; how many were refused since then; the queue; how many
      writes were published, and words offered by then, for the snapshot; the words sent. */
  datatype Race = Race(
    writes: seq<Access>, pending: seq<Event>, published: nat,
    offered: seq<Event>, told: nat, mark: nat, refused: nat, waiting: seq<Event>,
    bridge: Bridge, taken: nat, seen: nat, sent: seq<Event>)

  predicate Moves(e: Event) {
    e.Phase? || e == TrackWrite(1)
  }

  function Moving(es: seq<Event>): nat {
    if es == [] then 0 else Moving(es[..|es| - 1]) + if Moves(es[|es| - 1]) then 1 else 0
  }

  predicate Bounded(r: Race) {
    && r.published <= |r.writes| <= r.published + 1
    && r.told <= |r.offered| && r.mark <= |r.offered| && r.seen <= |r.offered| && r.taken <= |r.writes|
    && |r.waiting| <= QUEUE_ROOM
    && (r.bridge.Sampled? ==> r.bridge.backlog <= |r.waiting|)
  }

  /** A turn its side is not ready for does nothing. */
  function Step(s: State, r: Race, t: Turn): (u: Race)
    requires Bounded(r)
    ensures Bounded(u)
  {
    match t
    case Write(a) => if Idle(r) then r.(writes := r.writes + [a], pending := Events(Resumed(s, r.writes), a)) else r
    case Report(e) => if Idle(r) && !Moves(e) then r.(pending := [e]) else r
    case Offer => if r.pending == [] then r else OfferOne(r)
    case Publish => PublishLast(r)
    case _ => BridgeStep(r, t)
  }

  /** The probe is between two writes. */
  predicate Idle(r: Race) {
    r.pending == [] && r.published == |r.writes|
  }

  /** queue_event: a full queue refuses the word. */
  function OfferOne(r: Race): (u: Race)
    requires Bounded(r) && r.pending != []
    ensures Bounded(u)
  {
    var e := r.pending[0];
    var u := r.(pending := r.pending[1..], offered := r.offered + [e]);
    if |r.waiting| < QUEUE_ROOM then u.(waiting := r.waiting + [e])
    else u.(refused := if r.bridge.Away? then 0 else r.refused + 1)
  }

  /** A write is published once no word that moves the head is left to offer. */
  function PublishLast(r: Race): (u: Race)
    requires Bounded(r)
    ensures Bounded(u)
  {
    if r.published < |r.writes| && Moving(r.pending) == 0
    then r.(published := |r.writes|, told := |r.offered|) else r
  }

  function BridgeStep(r: Race, t: Turn): (u: Race)
    requires Bounded(r)
    ensures Bounded(u)
  {
    if t.Sample? && r.bridge.Away? then r.(bridge := Sampled(|r.waiting|), mark := |r.offered|)
    else if t.Empty? && r.bridge.Sampled? then r.(waiting := r.waiting[r.bridge.backlog..], bridge := Emptied)
    else if t.TakeSnapshot? && r.bridge.Emptied? then r.(taken := r.published, seen := r.told, bridge := Live)
    else if t.Send? && r.bridge.Live? && r.waiting != [] then
      r.(sent := r.sent + [r.waiting[0]], waiting := r.waiting[1..])
    else r
  }

  function Begin(backlog: seq<Event>): Race {
    Race([], [], 0, [], 0, 0, 0, backlog, Away, 0, 0, [])
  }

  /** A run from probe state s, with the bridge away and these words in the queue. */
  function Exec(s: State, backlog: seq<Event>, turns: seq<Turn>): (r: Race)
    requires |backlog| <= QUEUE_ROOM
    ensures Bounded(r)
  {
    if turns == [] then Begin(backlog) else Step(s, Exec(s, backlog, turns[..|turns| - 1]), turns[|turns| - 1])
  }

  // ---------------------------------------------------------------------
  // Head walks
  // ---------------------------------------------------------------------

  /** Half-steps since the start or the last write of track 1: whether there was one, the
      net movement, and its lowest point on the way. */
  datatype Walk = Walk(home: bool, net: int, lowest: int)

  function Movement(e: Event): int {
    if e.Phase? && e.delta == 1 then 1 else if e.Phase? && e.delta == 3 then -1 else 0
  }

  function WalkOf(es: seq<Event>): Walk {
    if es == [] then Walk(false, 0, 0)
    else if es[|es| - 1] == TrackWrite(1) then Walk(true, 0, 0)
    else
      var w := WalkOf(es[..|es| - 1]);
      var net := w.net + Movement(es[|es| - 1]);
      Walk(w.home, net, if net < w.lowest then net else w.lowest)
  }

  function Max(a: int, b: int): int {
    if a < b then b else a
  }

  /** Where a walk from p that is stopped at half-step 2 ends. */
  function End(p: nat, w: Walk): int {
    if w.home then 2 + w.net - w.lowest else Max(p + w.net, 2 + w.net - w.lowest)
  }

  lemma {:induction false} WalkEnds(p: nat, es: seq<Event>)
    requires p >= 2
    ensures WalkOf(es).lowest <= 0 && WalkOf(es).lowest <= WalkOf(es).net
    ensures GuiAfter(p, es) == End(p, WalkOf(es))
  {
    if es != [] {
      WalkEnds(p, es[..|es| - 1]);
    }
  }

  /** Without a write of track 1, the lowest point is the least net movement on the way. */
  lemma {:induction false} LowestIsLeast(es: seq<Event>)
    ensures !WalkOf(es).home ==> forall n :: 0 <= n <= |es| ==> WalkOf(es).lowest <= WalkOf(es[..n]).net
    ensures !WalkOf(es).home ==> exists n :: 0 <= n <= |es| && WalkOf(es).lowest == WalkOf(es[..n]).net
  {
    assert es[..|es|] == es;
    if es != [] {
      var before := es[..|es| - 1];
      LowestIsLeast(before);
      assert forall n :: 0 <= n <= |before| ==> before[..n] == es[..n];
      if !WalkOf(es).home && WalkOf(es).lowest == WalkOf(before).lowest {
        var n :| 0 <= n <= |before| && WalkOf(before).lowest == WalkOf(before[..n]).net;
        assert WalkOf(es).lowest == WalkOf(es[..n]).net;
      }
    }
  }

  /** Two walks that hear the same events end together if and only if they started
      together, were sent home, or were both driven against the stop. */
  lemma WalksMergeIff(x: nat, y: nat, es: seq<Event>)
    requires x >= 2 && y >= 2
    ensures GuiAfter(x, es) == GuiAfter(y, es) <==> x == y || WalkOf(es).home || Max(x, y) + WalkOf(es).lowest <= 2
  {
    WalkEnds(x, es);
    WalkEnds(y, es);
  }

  /** A walk ends where it began. */
  lemma ReturnsIff(p: nat, es: seq<Event>)
    requires p >= 2
    ensures var w := WalkOf(es);
      GuiAfter(p, es) == p
      <==> ((p == 2 + w.net - w.lowest && (w.home || w.net <= 0)) || (!w.home && w.net == 0 && p + w.lowest >= 2))
  {
    WalkEnds(p, es);
  }

  // ---------------------------------------------------------------------
  // Which words the GUI hears
  // ---------------------------------------------------------------------

  /** a is what is left of b when some of it is taken out. */
  predicate Among(a: seq<Event>, b: seq<Event>) {
    if b == [] then a == []
    else
      Among(a, b[..|b| - 1])
      || (a != [] && a[|a| - 1] == b[|b| - 1] && Among(a[..|a| - 1], b[..|b| - 1]))
  }

  /** The words accepted since the head was sampled: sent, or waiting to be. */
  function Heard(r: Race): seq<Event>
    requires Bounded(r)
  {
    match r.bridge
    case Away => []
    case Sampled(n) => r.waiting[n..]
    case _ => r.sent + r.waiting
  }

  /** Every word offered since then is heard, in order, or counted as refused. */
  predicate Accounted(r: Race)
    requires Bounded(r)
  {
    && (r.bridge.Away? ==> r.refused == 0 && r.mark == 0)
    && (r.bridge.Away? || r.bridge.Sampled? || r.bridge.Emptied? ==> r.sent == [])
    && (!r.bridge.Away? ==>
          && |Heard(r)| + r.refused == |r.offered| - r.mark
          && Among(Heard(r), r.offered[r.mark..])
          && (r.refused == 0 ==> Heard(r) == r.offered[r.mark..]))
  }

  lemma AmongSnoc(a: seq<Event>, b: seq<Event>, e: Event)
    ensures Among(a, b) ==> Among(a, b + [e]) && Among(a + [e], b + [e])
  {
    assert (b + [e])[..|b|] == b && (a + [e])[..|a|] == a;
  }

  lemma OfferAccounted(r: Race)
    requires Bounded(r) && Accounted(r) && r.pending != []
    ensures Accounted(OfferOne(r))
  {
    hide Among;
    if !r.bridge.Away? {
      var e, u := r.pending[0], OfferOne(r);
      AmongSnoc(Heard(r), r.offered[r.mark..], e);
      assert u.offered[u.mark..] == r.offered[r.mark..] + [e];
      assert Heard(u) == if |r.waiting| < QUEUE_ROOM then Heard(r) + [e] else Heard(r);
    }
  }

  lemma StepAccounted(s: State, r: Race, t: Turn)
    requires Bounded(r) && Accounted(r)
    ensures Accounted(Step(s, r, t))
  {
    hide Among, Events, Resumed, OfferOne;
    var u := Step(s, r, t);
    match t
    case Offer =>
      if r.pending != [] {
        assert Step(s, r, t) == OfferOne(r);
        OfferAccounted(r);
      }
    case Sample =>
      if r.bridge.Away? {
        assert Heard(u) == [] && u.offered[u.mark..] == [];
        NoneAmong();
      }
    case Empty => assert Heard(u) == Heard(r);
    case TakeSnapshot => assert Heard(u) == Heard(r);
    case Send =>
      if r.bridge.Live? && r.waiting != [] {
        assert r.waiting == [r.waiting[0]] + r.waiting[1..];
        assert Heard(u) == Heard(r);
      }
    case Write(_) =>
    case Report(_) =>
    case Publish =>
  }

  lemma NoneAmong()
    ensures Among([], [])
  {
  }

  /** In every run the GUI hears the words offered since the bridge sampled the queue, in
      order, but for those refused; all of them if and only if none was. */
  lemma {:induction false} WordsHeard(s: State, backlog: seq<Event>, turns: seq<Turn>)
    requires |backlog| <= QUEUE_ROOM
    ensures var r := Exec(s, backlog, turns);
      && Accounted(r)
      && (!r.bridge.Away? ==> (Heard(r) == r.offered[r.mark..] <==> r.refused == 0))
  {
    hide Step, Accounted, Heard;
    if turns == [] {
      BeginAccounted(backlog);
    } else {
      WordsHeard(s, backlog, turns[..|turns| - 1]);
      StepAccounted(s, Exec(s, backlog, turns[..|turns| - 1]), turns[|turns| - 1]);
    }
    HeardAll(Exec(s, backlog, turns));
  }

  lemma BeginAccounted(backlog: seq<Event>)
    requires |backlog| <= QUEUE_ROOM
    ensures Accounted(Begin(backlog))
  {
  }

  lemma HeardAll(r: Race)
    requires Bounded(r) && Accounted(r)
    ensures !r.bridge.Away? ==> (Heard(r) == r.offered[r.mark..] <==> r.refused == 0)
  {
    hide Among;
  }

  // ---------------------------------------------------------------------
  // Which positions its words give
  // ---------------------------------------------------------------------

  /** From p on: the words offered and pending lead where the writes' own do; those offered
      by a publication lead where the writes published do; at most one word since then
      moves the head. */
  predicate Follows(s: State, p: nat, r: Race)
    requires Bounded(r)
  {
    && GuiAfter(p, r.offered + r.pending) == GuiAfter(p, AllEvents(s, r.writes))
    && GuiAfter(p, r.offered[..r.told]) == GuiAfter(p, AllEvents(s, r.writes[..r.published]))
    && GuiAfter(p, r.offered[..r.seen]) == GuiAfter(p, AllEvents(s, r.writes[..r.taken]))
    && Moving(r.offered[r.told..]) + Moving(r.pending) <= |r.writes| - r.published
    && (!r.bridge.Away? && r.told <= r.mark ==> Moving(r.offered[r.told..r.mark]) <= 1)
    && (r.bridge.Live? && r.seen <= r.mark ==> Moving(r.offered[r.seen..r.mark]) <= 1)
  }

  lemma {:induction false} MovingJoin(a: seq<Event>, b: seq<Event>)
    ensures Moving(a + b) == Moving(a) + Moving(b)
  {
    if b == [] {
      assert a + b == a;
    } else {
      MovingJoin(a, b[..|b| - 1]);
      assert (a + b)[..|a + b| - 1] == a + b[..|b| - 1];
    }
  }

  lemma {:induction false} Unmoved(p: nat, es: seq<Event>)
    requires Moving(es) == 0
    ensures GuiAfter(p, es) == p
  {
    if es != [] {
      Unmoved(p, es[..|es| - 1]);
    }
  }

  /** One write has at most one word that moves the head. */
  lemma OneMoves(s: State, a: Access)
    ensures Moving(Events(s, a)) <= 1
  {
    hide HeaderTiming.LastPass, BusDecode.Completes, Moving;
    NothingMoves();
    match a
    case Orb(orb) =>
      var m := MotorBit(orb);
      var x, y, z :=
        MotorEvents(s.motor, m), PhaseEvents(s.phase, orb % 4, m), DensityEvents(s.density, DensityBits(orb));
      MovingJoin(x + y, z);
      MovingJoin(x, y);
      NoneMove(x);
      AtMostAll(y);
      NoneMove(z);
    case HeaderWrite(c) => NoneMove(Events(s, a));
    case DriveTrack(d) => AtMostAll(Events(s, a));
    case ProtectSense(d) => NoneMove(Events(s, a));
    case DriveStatus(_) =>
    case Other =>
  }

  lemma {:induction false} AtMostAll(es: seq<Event>)
    ensures Moving(es) <= |es|
  {
    if es != [] {
      AtMostAll(es[..|es| - 1]);
    }
  }

  lemma {:induction false} NoneMove(es: seq<Event>)
    requires forall i :: 0 <= i < |es| ==> !Moves(es[i])
    ensures Moving(es) == 0
  {
    if es != [] {
      NoneMove(es[..|es| - 1]);
    }
  }

  lemma WriteFollows(s: State, p: nat, r: Race, a: Access)
    requires Bounded(r) && Follows(s, p, r)
    ensures Follows(s, p, Step(s, r, Write(a)))
  {
    hide Events, Resumed, AllEvents, GuiAfter, Moving;
    if r.pending == [] && r.published == |r.writes| {
      var u := Step(s, r, Write(a));
      var es := Events(Resumed(s, r.writes), a);
      OneMoves(Resumed(s, r.writes), a);
      NothingMoves();
      WriteSnoc(s, r.writes, a);
      GuiAppend(p, AllEvents(s, r.writes), es);
      GuiAppend(p, r.offered, es);
      assert r.offered + r.pending == r.offered;
      assert u.writes[..u.published] == r.writes[..r.published] && u.writes[..u.taken] == r.writes[..r.taken];
    }
  }

  lemma NothingMoves()
    ensures Moving([]) == 0
  {
  }

  lemma ReportFollows(s: State, p: nat, r: Race, e: Event)
    requires Bounded(r) && Follows(s, p, r)
    ensures Follows(s, p, Step(s, r, Report(e)))
  {
    hide Events, Resumed, AllEvents, GuiAfter;
    if r.pending == [] && r.published == |r.writes| && !Moves(e) {
      assert [e][..0] == [];
      Unmoved(GuiAfter(p, r.offered), [e]);
      GuiAppend(p, r.offered, [e]);
      assert r.offered + r.pending == r.offered;
    }
  }

  lemma OfferFollows(s: State, p: nat, r: Race)
    requires Bounded(r) && Follows(s, p, r)
    ensures Follows(s, p, Step(s, r, Offer))
  {
    hide Events, Resumed, AllEvents, GuiAfter, Moving, OfferOne;
    if r.pending != [] {
      OfferIs(r);
      var e, rest := r.pending[0], r.pending[1..];
      assert r.offered + r.pending == r.offered + [e] + rest;
      MovingJoin([e], rest);
      MovingJoin(r.offered[r.told..], [e]);
      assert r.pending == [e] + rest;
      Longer(r.offered, e, r.told, r.told);
      Longer(r.offered, e, r.told, r.mark);
      Longer(r.offered, e, r.seen, r.mark);
    }
  }

  /** What an offer leaves alone. */
  lemma OfferIs(r: Race)
    requires Bounded(r) && r.pending != []
    ensures var u := OfferOne(r);
      u == r.(pending := r.pending[1..], offered := r.offered + [r.pending[0]],
          waiting := u.waiting, refused := u.refused)
  {
  }

  lemma Longer(es: seq<Event>, e: Event, i: nat, j: nat)
    requires i <= |es| && j <= |es|
    ensures (es + [e])[..i] == es[..i] && (es + [e])[i..] == es[i..] + [e]
    ensures i <= j ==> (es + [e])[i..j] == es[i..j]
  {
  }

  lemma PublishFollows(s: State, p: nat, r: Race)
    requires Bounded(r) && Follows(s, p, r)
    ensures Follows(s, p, Step(s, r, Publish))
  {
    hide Events, Resumed, AllEvents, GuiAfter, Moving;
    if r.published < |r.writes| && Moving(r.pending) == 0 {
      NothingMoves();
      Unmoved(GuiAfter(p, r.offered), r.pending);
      GuiAppend(p, r.offered, r.pending);
      assert r.offered[..|r.offered|] == r.offered && r.offered[|r.offered|..] == [];
      assert r.writes[..|r.writes|] == r.writes;
      assert r.mark == |r.offered| ==> r.offered[|r.offered|..r.mark] == [];
    }
  }

  lemma BridgeFollows(s: State, p: nat, r: Race, t: Turn)
    requires Bounded(r) && Follows(s, p, r) && (t.Sample? || t.Empty? || t.TakeSnapshot? || t.Send?)
    ensures Follows(s, p, Step(s, r, t))
  {
    hide Events, Resumed, AllEvents, GuiAfter, Moving;
    assert r.offered[r.told..|r.offered|] == r.offered[r.told..];
  }

  lemma {:induction false} ExecFollows(s: State, p: nat, backlog: seq<Event>, turns: seq<Turn>)
    requires |backlog| <= QUEUE_ROOM
    ensures Follows(s, p, Exec(s, backlog, turns))
  {
    hide Step, Follows;
    if turns == [] {
      BeginFollows(s, p, backlog);
    } else {
      ExecFollows(s, p, backlog, turns[..|turns| - 1]);
      var r, t := Exec(s, backlog, turns[..|turns| - 1]), turns[|turns| - 1];
      match t
      case Write(a) => WriteFollows(s, p, r, a);
      case Report(e) => ReportFollows(s, p, r, e);
      case Offer => OfferFollows(s, p, r);
      case Publish => PublishFollows(s, p, r);
      case _ => BridgeFollows(s, p, r, t);
    }
  }

  lemma BeginFollows(s: State, p: nat, backlog: seq<Event>)
    requires |backlog| <= QUEUE_ROOM
    ensures Follows(s, p, Begin(backlog))
  {
  }

  // ---------------------------------------------------------------------
  // What the GUI ends up showing
  // ---------------------------------------------------------------------

  /** Reconnected, with the last write all offered and published. */
  predicate Settled(r: Race) {
    r.bridge.Live? && Idle(r)
  }

  /** The GUI's position once it has heard the snapshot and these events. */
  function Shown(h: Hud, m: Mailbox, es: seq<Event>): Option<nat> {
    AfterEvents(OnMailbox(h, m), es).pos2
  }

  /** The mailbox as the snapshot found it, in what it says of the position. */
  predicate IsSnapshot(s: State, r: Race, m: Mailbox)
    requires Bounded(r)
  {
    m.posValid == 1 && Resumed(s, r.writes[..r.taken]).pos2 == Some(m.pos2)
  }

  /** Where the words offered before the bridge sampled the queue had led. */
  function PositionAtSample(s: State, r: Race): nat
    requires OnScale(s) && Bounded(r)
  {
    GuiAfter(s.pos2.value, r.offered[..r.mark])
  }

  /** For every interleaving of probe and bridge: the GUI, once it has heard what waits for
      it, stands where the probe does if and only if the walk of the words heard from the
      snapshot's position ends where the walk of all the words offered since the sample
      ends from the position then. */
  lemma ReconnectAgreesIff(s: State, backlog: seq<Event>, turns: seq<Turn>, h: Hud, m: Mailbox)
    requires OnScale(s) && |backlog| <= QUEUE_ROOM
    requires var r := Exec(s, backlog, turns); Settled(r) && AllHarmless(s, r.writes) && IsSnapshot(s, r, m)
    ensures var r := Exec(s, backlog, turns);
      Shown(h, m, Heard(r)) == Resumed(s, r.writes).pos2
      <==> End(m.pos2, WalkOf(Heard(r))) == End(PositionAtSample(s, r), WalkOf(r.offered[r.mark..]))
  {
    hide Exec, Resumed, AllHarmless, AllEvents, WalkOf, Heard;
    var r, p := Exec(s, backlog, turns), s.pos2.value;
    var before, since := r.offered[..r.mark], r.offered[r.mark..];
    SnapshotPosition(s, backlog, turns, m);
    ShownAfter(h, m, Heard(r));
    ExecFollows(s, p, backlog, turns);
    Led(s, r.writes);
    assert r.offered + r.pending == r.offered == before + since;
    GuiAppend(p, before, since);
    GuiOnScale(p, before);
    WalkEnds(m.pos2, Heard(r));
    WalkEnds(PositionAtSample(s, r), since);
  }

  /** With nothing refused since the sample: if and only if the snapshot showed the position
      then, or the drive has written track 1 since, or it has driven both against the stop. */
  lemma UnrefusedAgreesIff(s: State, backlog: seq<Event>, turns: seq<Turn>, h: Hud, m: Mailbox)
    requires OnScale(s) && |backlog| <= QUEUE_ROOM
    requires var r := Exec(s, backlog, turns);
      Settled(r) && AllHarmless(s, r.writes) && IsSnapshot(s, r, m) && r.refused == 0
    ensures var r := Exec(s, backlog, turns);
      var y, w := PositionAtSample(s, r), WalkOf(Heard(r));
      Shown(h, m, Heard(r)) == Resumed(s, r.writes).pos2 <==> m.pos2 == y || w.home || Max(m.pos2, y) + w.lowest <= 2
  {
    hide Exec, Resumed, AllHarmless, AllEvents, WalkOf, Heard, Accounted;
    var r, p := Exec(s, backlog, turns), s.pos2.value;
    ReconnectAgreesIff(s, backlog, turns, h, m);
    WordsHeard(s, backlog, turns);
    SnapshotPosition(s, backlog, turns, m);
    GuiOnScale(p, r.offered[..r.mark]);
    WalkEnds(m.pos2, Heard(r));
    WalkEnds(PositionAtSample(s, r), Heard(r));
    WalksMergeIff(m.pos2, PositionAtSample(s, r), Heard(r));
  }

  lemma {:induction false} GuiOnScale(p: nat, es: seq<Event>)
    requires p >= 2
    ensures GuiAfter(p, es) >= 2
  {
    if es != [] {
      GuiOnScale(p, es[..|es| - 1]);
    }
  }

  /** The snapshot's position, by the words offered when its write was published. */
  lemma SnapshotPosition(s: State, backlog: seq<Event>, turns: seq<Turn>, m: Mailbox)
    requires OnScale(s) && |backlog| <= QUEUE_ROOM
    requires var r := Exec(s, backlog, turns); AllHarmless(s, r.writes) && IsSnapshot(s, r, m)
    ensures var r := Exec(s, backlog, turns);
      m.pos2 == GuiAfter(s.pos2.value, r.offered[..r.seen]) && m.pos2 >= 2
  {
    hide Exec, Resumed, AllHarmless, AllEvents;
    var r := Exec(s, backlog, turns);
    ExecFollows(s, s.pos2.value, backlog, turns);
    assert r.writes == r.writes[..r.taken] + r.writes[r.taken..];
    HarmlessPrefix(s, r.writes[..r.taken], r.writes[r.taken..]);
    Led(s, r.writes[..r.taken]);
    GuiOnScale(s.pos2.value, r.offered[..r.seen]);
  }

  /** Harmless writes move the probe as their events say. */
  lemma Led(s: State, run: seq<Access>)
    requires OnScale(s) && AllHarmless(s, run)
    ensures Resumed(s, run).pos2 == Some(GuiAfter(s.pos2.value, AllEvents(s, run)))
  {
    var h := START.(pos2 := s.pos2);
    GuiFollowsProbeIff(s, run, h);
    assert run[..|run|] == run;
    assert ProbeDecode.AgreeAfter(s, run[..|run|], h);
    GuiTracks(h, AllEvents(s, run));
  }

  lemma HarmlessPrefix(s: State, a: seq<Access>, b: seq<Access>)
    requires AllHarmless(s, a + b)
    ensures AllHarmless(s, a)
  {
    forall n: nat | n < |a| ensures Harmless(Resumed(s, a[..n]), a[n]) {
      assert (a + b)[..n] == a[..n] && (a + b)[n] == a[n];
    }
  }

  /** A snapshot newer than the sample has the words of the gap in its position already; an
      older one lacks the words of one write, of which at most one moves the head. */
  lemma SnapshotGap(s: State, backlog: seq<Event>, turns: seq<Turn>, m: Mailbox)
    requires OnScale(s) && |backlog| <= QUEUE_ROOM
    requires var r := Exec(s, backlog, turns); r.bridge.Live? && AllHarmless(s, r.writes) && IsSnapshot(s, r, m)
    ensures var r := Exec(s, backlog, turns);
      && (r.mark <= r.seen ==> m.pos2 == GuiAfter(PositionAtSample(s, r), r.offered[r.mark..r.seen]))
      && (r.mark <= r.seen && r.refused == 0 ==> r.offered[r.mark..r.seen] <= Heard(r))
      && (r.seen <= r.mark ==> PositionAtSample(s, r) == GuiAfter(m.pos2, r.offered[r.seen..r.mark]))
      && (r.seen <= r.mark ==> Moving(r.offered[r.seen..r.mark]) <= 1)
  {
    hide Exec, Resumed, AllHarmless, AllEvents, Heard, Accounted, Moving;
    var r, p := Exec(s, backlog, turns), s.pos2.value;
    SnapshotPosition(s, backlog, turns, m);
    ExecFollows(s, p, backlog, turns);
    WordsHeard(s, backlog, turns);
    if r.mark <= r.seen {
      assert r.offered[..r.seen] == r.offered[..r.mark] + r.offered[r.mark..r.seen];
      GuiAppend(p, r.offered[..r.mark], r.offered[r.mark..r.seen]);
      assert r.offered[r.mark..][..r.seen - r.mark] == r.offered[r.mark..r.seen];
    }
    if r.seen <= r.mark {
      assert r.offered[..r.mark] == r.offered[..r.seen] + r.offered[r.seen..r.mark];
      GuiAppend(p, r.offered[..r.seen], r.offered[r.seen..r.mark]);
    }
  }

  lemma ShownAfter(h: Hud, m: Mailbox, es: seq<Event>)
    requires m.posValid == 1 && m.pos2 >= 2
    ensures Shown(h, m, es) == Some(GuiAfter(m.pos2, es))
  {
    GuiTracks(OnMailbox(h, m), es);
  }

  // ---------------------------------------------------------------------
  // All three happen
  // ---------------------------------------------------------------------

  /** The drive is running, the head knows where it is and has room to step in. */
  predicate Steady(s: State) {
    && s.motor.Some? && s.motor.value < 2 && s.phase.Some? && s.phase.value < 4
    && s.density.Some? && s.density.value < 4 && OnScale(s)
  }

  /** A write that steps in by a half-step and changes nothing else. */
  function StepIn(s: State): Access
    requires Steady(s)
  {
    Orb((s.phase.value + 1) % 4 + 4 * s.motor.value + 32 * s.density.value)
  }

  lemma StepsIn(s: State)
    requires Steady(s) && s.pos2.value < 254
    ensures var e := Phase(s.phase.value, (s.phase.value + 1) % 4, 1, s.motor.value);
      Events(s, StepIn(s)) == [e] && Moving([e]) == 1
    ensures Next(s, StepIn(s)).pos2 == Some(s.pos2.value + 1) && Steady(Next(s, StepIn(s)))
    ensures Harmless(s, StepIn(s))
  {
    hide MotorBit, DensityBits, MotorMarks, PhaseMarks, Moving;
    var q := (s.phase.value + 1) % 4;
    OrbParts(q, s.motor.value, s.density.value);
    NextPhase(s.phase.value);
    OneWord(Phase(s.phase.value, q, 1, s.motor.value));
  }

  lemma NextPhase(p: nat)
    requires p < 4
    ensures ((p + 1) % 4 - p) % 4 == 1 && (p + 1) % 4 != p
  {
  }

  lemma OneWord(e: Event)
    ensures [] + [e] + [] == [e]
    ensures Moves(e) ==> Moving([e]) == 1
  {
    assert [e][..0] == [];
  }

  lemma OrbParts(q: nat, m: nat, d: nat)
    requires q < 4 && m < 2 && d < 4
    ensures var orb := q + 4 * m + 32 * d; orb % 4 == q && MotorBit(orb) == m && DensityBits(orb) == d
  {
  }

  lemma TurnSnoc(s: State, backlog: seq<Event>, turns: seq<Turn>, t: Turn)
    requires |backlog| <= QUEUE_ROOM
    ensures Exec(s, backlog, turns + [t]) == Step(s, Exec(s, backlog, turns), t)
  {
    var all := turns + [t];
    assert all[..|all| - 1] == turns;
  }

  lemma SixTurns(s: State, backlog: seq<Event>, a: Turn, b: Turn, c: Turn, d: Turn, e: Turn, f: Turn)
    requires |backlog| <= QUEUE_ROOM
    ensures Exec(s, backlog, [a, b, c, d, e, f])
            == Step(s, Step(s, Step(s, Step(s, Step(s, Step(s, Begin(backlog), a), b), c), d), e), f)
  {
    hide Step;
    ThreeTurns(s, backlog, [], a, b, c);
    ThreeTurns(s, backlog, [a, b, c], d, e, f);
    var none: seq<Turn> := [];
    assert none + [a, b, c] == [a, b, c] && [a, b, c] + [d, e, f] == [a, b, c, d, e, f];
  }

  lemma ThreeTurns(s: State, backlog: seq<Event>, turns: seq<Turn>, a: Turn, b: Turn, c: Turn)
    requires |backlog| <= QUEUE_ROOM
    ensures Exec(s, backlog, turns + [a, b, c]) == Step(s, Step(s, Step(s, Exec(s, backlog, turns), a), b), c)
  {
    hide Step, Exec;
    TurnSnoc(s, backlog, turns, a);
    TurnSnoc(s, backlog, turns + [a], b);
    TurnSnoc(s, backlog, turns + [a] + [b], c);
    assert turns + [a, b, c] == turns + [a] + [b] + [c];
  }

  /** One step inward between the sample and the snapshot is counted twice ... */
  lemma CountedTwice(s: State, h: Hud, m: Mailbox)
    requires Steady(s) && s.pos2.value < 254 && m.posValid == 1 && m.pos2 == s.pos2.value + 1
    ensures var r := Exec(s, [], [Sample, Empty, Write(StepIn(s)), Offer, Publish, TakeSnapshot]);
      && Settled(r) && r.refused == 0 && IsSnapshot(s, r, m)
      && Resumed(s, r.writes).pos2 == Some(m.pos2) && Shown(h, m, Heard(r)) == Some(m.pos2 + 1)
  {
    hide Exec, Events, Next, OnMailbox, AfterEvents, Resumed, AllEvents, Moving, Harmless, Shown, GuiAfter;
    var a, w := StepIn(s), Phase(s.phase.value, (s.phase.value + 1) % 4, 1, s.motor.value);
    var one := [a];
    StepsIn(s);
    NothingMoves();
    OneWrite(s, a);
    SixTurns(s, [], Sample, Empty, Write(a), Offer, Publish, TakeSnapshot);
    var none: seq<Event> := [];
    var nowhere: seq<Access> := [];
    assert none[0..] == none && [w][1..] == [] && none + [w] == [w] && one[..1] == one && nowhere + [a] == one;
    GuiOne(m.pos2, w);
    ShownAfter(h, m, [w]);
  }

  /** ... one offered before the sample and not yet published at the snapshot is lost ... */
  lemma StepLost(s: State, h: Hud, m: Mailbox)
    requires Steady(s) && s.pos2.value < 254 && m.posValid == 1 && m.pos2 == s.pos2.value
    ensures var r := Exec(s, [], [Write(StepIn(s)), Offer, Sample, Empty, TakeSnapshot, Publish]);
      && Settled(r) && r.refused == 0 && IsSnapshot(s, r, m)
      && Resumed(s, r.writes).pos2 == Some(m.pos2 + 1) && Shown(h, m, Heard(r)) == Some(m.pos2)
  {
    hide Exec, Events, Next, OnMailbox, AfterEvents, Resumed, AllEvents, Moving, Harmless, Shown, GuiAfter;
    var a, w := StepIn(s), Phase(s.phase.value, (s.phase.value + 1) % 4, 1, s.motor.value);
    var one := [a];
    StepsIn(s);
    NothingMoves();
    OneWrite(s, a);
    SixTurns(s, [], Write(a), Offer, Sample, Empty, TakeSnapshot, Publish);
    var none: seq<Event> := [];
    assert [w][1..] == [] && none + [w] == [w] && none + none == none && one[..0] == [];
    GuiOne(m.pos2, w);
    ShownAfter(h, m, []);
  }

  lemma OneWrite(s: State, a: Access)
    ensures Resumed(s, [a]) == Next(s, a) && Resumed(s, []) == s
  {
    hide Next, Events;
    WriteSnoc(s, [], a);
    assert [] + [a] == [a];
  }

  /** n steps inward. */
  function Inward(s: State, n: nat): (run: seq<Access>)
    requires Steady(s) && s.pos2.value + n <= 254
    ensures |run| == n
    ensures Steady(Resumed(s, run)) && Resumed(s, run).pos2 == Some(s.pos2.value + n)
  {
    if n == 0 then
      NoWrites(s);
      []
    else
      var run := Inward(s, n - 1);
      StepsIn(Resumed(s, run));
      WriteSnoc(s, run, StepIn(Resumed(s, run)));
      run + [StepIn(Resumed(s, run))]
  }

  lemma NoWrites(s: State)
    ensures Resumed(s, []) == s && AllEvents(s, []) == []
  {
  }

  /** The bridge reconnects to an empty queue; then the probe steps in n times, and the
      bridge sends nothing, as when the host does not read. */
  function InwardTurns(s: State, n: nat): seq<Turn>
    requires Steady(s) && s.pos2.value + n <= 254
  {
    if n == 0 then [Sample, Empty, TakeSnapshot]
    else InwardTurns(s, n - 1) + [Write(StepIn(Resumed(s, Inward(s, n - 1)))), Offer, Publish]
  }

  function Min(a: nat, b: nat): nat {
    if a < b then a else b
  }

  /** The words of those steps, all inward. */
  lemma {:induction false} InwardWords(s: State, n: nat, p: nat)
    requires Steady(s) && s.pos2.value + n <= 254
    ensures var es := AllEvents(s, Inward(s, n));
      |es| == n && forall k :: 0 <= k <= n ==> GuiAfter(p, es[..k]) == p + k
  {
    hide Next, Events, StepIn, Resumed, AllEvents, GuiAfter;
    if n == 0 {
      NothingMoves();
      Unmoved(p, []);
      NoWrites(s);
    } else {
      var run := Inward(s, n - 1);
      var t := Resumed(s, run);
      InwardWords(s, n - 1, p);
      StepsIn(t);
      WriteSnoc(s, run, StepIn(t));
      var es, all := AllEvents(s, run), AllEvents(s, Inward(s, n));
      var w := Phase(t.phase.value, (t.phase.value + 1) % 4, 1, t.motor.value);
      assert all == es + [w] && all[..n] == all && es[..n - 1] == es;
      GuiAppend(p, es, [w]);
      GuiOne(p + n - 1, w);
      assert forall k :: 0 <= k < n ==> all[..k] == es[..k];
    }
  }

  lemma {:induction false} InwardHarmless(s: State, n: nat)
    requires Steady(s) && s.pos2.value + n <= 254
    ensures AllHarmless(s, Inward(s, n))
  {
    hide Next, Harmless, StepIn, Resumed;
    if n > 0 {
      var run := Inward(s, n - 1);
      InwardHarmless(s, n - 1);
      StepsIn(Resumed(s, run));
      assert Inward(s, n)[..n - 1] == run;
      assert forall k :: 0 <= k < n ==> Inward(s, n)[..k] == run[..k];
    }
  }

  /** The race after those turns. */
  function InwardEnd(s: State, n: nat): Race
    requires Steady(s) && s.pos2.value + n <= 254
  {
    var es := AllEvents(s, Inward(s, n));
    Race(Inward(s, n), [], n, es, n, 0, n - Min(n, QUEUE_ROOM), First(es), Live, 0, 0, [])
  }

  /** What the queue has room for. */
  function First(es: seq<Event>): seq<Event> {
    if |es| < QUEUE_ROOM then es else es[..QUEUE_ROOM]
  }

  lemma FirstSnoc(es: seq<Event>, w: Event)
    ensures First(es + [w]) == if |First(es)| < QUEUE_ROOM then First(es) + [w] else First(es)
  {
  }

  lemma {:induction false} InwardRace(s: State, n: nat)
    requires Steady(s) && s.pos2.value + n <= 254
    ensures Exec(s, [], InwardTurns(s, n)) == InwardEnd(s, n)
  {
    hide Next, Events, StepIn, Exec, AllEvents, Resumed, Step, First;
    if n == 0 {
      NoWrites(s);
      FirstNone();
      ThreeTurns(s, [], [], Sample, Empty, TakeSnapshot);
      Connected(s);
      var none: seq<Turn> := [];
      assert none + [Sample, Empty, TakeSnapshot] == [Sample, Empty, TakeSnapshot];
    } else {
      var run := Inward(s, n - 1);
      var t := Resumed(s, run);
      InwardRace(s, n - 1);
      InwardWords(s, n - 1, 0);
      StepsIn(t);
      WriteSnoc(s, run, StepIn(t));
      ThreeTurns(s, [], InwardTurns(s, n - 1), Write(StepIn(t)), Offer, Publish);
      var w := Phase(t.phase.value, (t.phase.value + 1) % 4, 1, t.motor.value);
      FirstLength(AllEvents(s, run));
      FirstSnoc(AllEvents(s, run), w);
      OneWordWrite(s, InwardEnd(s, n - 1), StepIn(t), w);
    }
  }

  lemma FirstNone()
    ensures First([]) == []
  {
  }

  lemma FirstLength(es: seq<Event>)
    ensures |First(es)| == Min(|es|, QUEUE_ROOM) && First(es) == es[..Min(|es|, QUEUE_ROOM)]
  {
  }

  lemma Connected(s: State)
    ensures Step(s, Step(s, Step(s, Exec(s, [], []), Sample), Empty), TakeSnapshot) == Begin([]).(bridge := Live)
  {
  }

  lemma OneWordWrite(s: State, r: Race, a: Access, w: Event)
    requires Bounded(r) && Settled(r) && Events(Resumed(s, r.writes), a) == [w]
    ensures Step(s, Step(s, Step(s, r, Write(a)), Offer), Publish)
            == r.(writes := r.writes + [a], published := r.published + 1,
                  offered := r.offered + [w], told := |r.offered| + 1,
                  waiting := if |r.waiting| < QUEUE_ROOM then r.waiting + [w] else r.waiting,
                  refused := if |r.waiting| < QUEUE_ROOM then r.refused else r.refused + 1)
  {
    hide Events, Resumed;
    assert [w][1..] == [];
  }

  /** ... and a step that finds the queue full is lost: of n steps inward with the host not
      reading, the GUI hears as many as the queue has room for. */
  lemma QueueFull(s: State, h: Hud, m: Mailbox, n: nat)
    requires Steady(s) && s.pos2.value + n <= 254 && m.posValid == 1 && m.pos2 == s.pos2.value
    ensures var r := Exec(s, [], InwardTurns(s, n));
      && Settled(r) && AllHarmless(s, r.writes) && IsSnapshot(s, r, m) && r.refused == n - Min(n, QUEUE_ROOM)
      && Resumed(s, r.writes).pos2 == Some(m.pos2 + n)
      && Shown(h, m, Heard(r)) == Some(m.pos2 + Min(n, QUEUE_ROOM))
  {
    hide Next, Events, StepIn, Exec, AllEvents, Resumed, Shown, AllHarmless, GuiAfter;
    InwardRace(s, n);
    FirstLength(AllEvents(s, Inward(s, n)));
    InwardWords(s, n, m.pos2);
    InwardHarmless(s, n);
    NoWrites(s);
    var es, k := AllEvents(s, Inward(s, n)), Min(n, QUEUE_ROOM);
    var none: seq<Event> := [];
    assert none + es[..k] == es[..k] && Inward(s, n)[..0] == [];
    ShownAfter(h, m, es[..k]);
  }

  lemma WriteSnoc(s: State, run: seq<Access>, a: Access)
    ensures Resumed(s, run + [a]) == Next(Resumed(s, run), a)
    ensures AllEvents(s, run + [a]) == AllEvents(s, run) + Events(Resumed(s, run), a)
  {
    hide Next, Events;
    var all := run + [a];
    assert all != [] && all[..|all| - 1] == run && all[|all| - 1] == a;
  }
}
