/** Exclusive mode (OneROM/firmware/src/plugin.c): one core asks the other, over
the inter-core FIFOs, to stop in RAM until it is told to go on. */
module Exclusive {

  /** Words the FIFOs carry. */
  datatype Message = Request | Ack | Resume

  /** Words an inter-core FIFO holds (RP2350 datasheet, SIO). */
  const FIFO_DEPTH: nat := 4

  /** Where a core is. */
  datatype Place =
    | Running
    | YieldCopy      // ora_yield has read a request and copies the stub to its stack
    | WaitTx         // in the stub, before the ack
    | WaitResume     // in the stub, after it
    | EnterTx        // ora_enter_exclusive_mode, before the request
    | EnterAck       // ... and after it
    | Holding
    | ExitTx         // ora_exit_exclusive_mode, before the resume

  /** A core and the FIFO it reads. */
  datatype Core = Core(place: Place, inbox: seq<Message>)

  datatype State = State(a: Core, b: Core)

  datatype Who = A | B

  // ---------------------------------------------------------------------
  // Who runs what
  // ---------------------------------------------------------------------

  datatype SlotKind = SystemPlugin | UserPlugin | OtherSlot

  /** The start of a ROM slot table: whether a plugin's header passes its checks, and
      whether it says that the plugin yields. */
  datatype Slot = Slot(kind: SlotKind, valid: bool, supportsYield: bool)

  /** The system plugin, on core 1; without it no plugin runs at all. */
  predicate SystemLaunched(slots: seq<Slot>) {
    |slots| >= 1 && slots[0].kind == SystemPlugin && slots[0].valid
  }

  /** The user plugin, on core 0; otherwise that core stays in a loop of ora_yield. */
  predicate UserLaunched(slots: seq<Slot>) {
    SystemLaunched(slots) && |slots| >= 2 && slots[1].kind == UserPlugin && slots[1].valid
  }

  /** other_core_yield_capability, as core 0 (A) and core 1 (B) see it. */
  function Capability(slots: seq<Slot>, who: Who): int {
    if who == A then
      (if |slots| < 1 || slots[0].kind != SystemPlugin then 0 else if slots[0].supportsYield then 1 else -1)
    else
      (if |slots| < 2 then 1
       else if slots[1].kind != UserPlugin then 0 else if slots[1].supportsYield then 1 else -1)
  }

  /** What a core's enter does: ask, take it as granted, or fail (and what is never called). */
  datatype Entry = Handshake | Unasked | Refused

  datatype Config = Config(a: Entry, b: Entry, loop: bool)

  function EntryOf(slots: seq<Slot>, who: Who): Entry {
    if who == A && !UserLaunched(slots) then Refused
    else if Capability(slots, who) > 0 then Handshake
    else if Capability(slots, who) == 0 then Unasked
    else Refused
  }

  function ConfigOf(slots: seq<Slot>): Config {
    Config(EntryOf(slots, A), EntryOf(slots, B), !UserLaunched(slots))
  }

  /** A user plugin always has the system plugin to ask; a core 1 that asks nobody has
      core 0 in its loop. */
  predicate Proper(c: Config) {
    c.a != Unasked && (c.b == Unasked ==> c.loop) && (c.loop ==> c.a == Refused)
  }

  lemma LaunchedProper(slots: seq<Slot>)
    requires SystemLaunched(slots)
    ensures Proper(ConfigOf(slots))
    ensures ConfigOf(slots).b == Unasked <==> Capability(slots, B) == 0
    ensures ConfigOf(slots).b == Handshake <==> Capability(slots, B) == 1
    ensures ConfigOf(slots).a == Handshake <==> UserLaunched(slots) && Capability(slots, A) == 1
  {
  }

  // ---------------------------------------------------------------------
  // Steps
  // ---------------------------------------------------------------------

  /** What a running core's plugin calls, or the next step of the call it is in. */
  datatype Action = Yield | Enter | Exit | Continue

  function Send(peer: Core, m: Message): Core {
    peer.(inbox := peer.inbox + [m])
  }

  /** One step of `me`; a core that has to wait stays where it is. */
  function Move(me: Core, peer: Core, act: Action, entry: Entry): (Core, Core) {
    var space := |peer.inbox| < FIFO_DEPTH;
    match me.place
    case Running =>
      (match act
       case Yield =>
         if me.inbox == [] then (me, peer)
         else (Core(if me.inbox[0] == Request then YieldCopy else Running, me.inbox[1..]), peer)
       case Enter =>
         (me.(place := if entry == Handshake then EnterTx else if entry == Unasked then Holding else Running), peer)
       case _ => (me, peer))
    case YieldCopy => (me.(place := WaitTx), peer)
    case WaitTx => if space then (me.(place := WaitResume), Send(peer, Ack)) else (me, peer)
    case WaitResume =>
      if me.inbox == [] then (me, peer)
      else (Core(if me.inbox[0] == Resume then Running else WaitResume, me.inbox[1..]), peer)
    case EnterTx => if space then (me.(place := EnterAck), Send(peer, Request)) else (me, peer)
    case EnterAck =>
      if me.inbox == [] then (me, peer)
      else (Core(if me.inbox[0] == Ack then Holding else EnterAck, me.inbox[1..]), peer)
    case Holding => (if act == Exit then me.(place := ExitTx) else me, peer)
    case ExitTx => if space then (me.(place := Running), Send(peer, Resume)) else (me, peer)
  }

  /** A core in the firmware's loop has nothing to do but yield. */
  function Step(c: Config, s: State, who: Who, act: Action): State {
    if who == A then var (me, peer) := Move(s.a, s.b, if c.loop then Yield else act, c.a); State(me, peer)
    else var (me, peer) := Move(s.b, s.a, act, c.b); State(peer, me)
  }

  function Exec(c: Config, s: State, run: seq<(Who, Action)>): State {
    if run == [] then s else Step(c, Exec(c, s, run[..|run| - 1]), run[|run| - 1].0, run[|run| - 1].1)
  }

  const BOOT: State := State(Core(Running, []), Core(Running, []))

  predicate Holds(c: Core) {
    c.place == Holding || c.place == ExitTx
  }

  predicate Idle(c: Core) {
    c.place == Running || c.place == EnterTx
  }

  // ---------------------------------------------------------------------
  // Every joint state the two cores reach
  // ---------------------------------------------------------------------

  /** A request from `me` to `peer` and where it has got to. */
  predicate Asking(me: Core, peer: Core) {
    && me.place == EnterAck
    && ( || (Idle(peer) && me.inbox == [] && peer.inbox == [Request])
         || ((peer.place == YieldCopy || peer.place == WaitTx) && me.inbox == [] && peer.inbox == [])
         || (peer.place == WaitResume && me.inbox == [Ack] && peer.inbox == [])
         || (peer.place == WaitResume && me.inbox == [] && peer.inbox == [Resume, Request]))
  }

  predicate Granted(me: Core, peer: Core) {
    && peer.place == WaitResume && me.inbox == []
    && if Holds(me) then peer.inbox == [] else Idle(me) && peer.inbox == [Resume]
  }

  predicate Link(me: Core, peer: Core) {
    Asking(me, peer) || Granted(me, peer)
  }

  predicate Pending(c: Core) {
    c.place == EnterAck && (c.inbox == [] || c.inbox == [Request])
  }

  predicate Joint(s: State) {
    || (Idle(s.a) && Idle(s.b) && s.a.inbox == [] && s.b.inbox == [])
    || Link(s.a, s.b) || Link(s.b, s.a)
    || (Pending(s.a) && Pending(s.b))
  }

  predicate Settled(me: Core, peer: Core) {
    || (Idle(me) && Idle(peer) && me.inbox == [] && peer.inbox == [])
    || Link(me, peer) || Link(peer, me)
    || (Pending(me) && Pending(peer))
  }

  lemma AskerMoves(me: Core, peer: Core, act: Action, entry: Entry)
    requires Link(me, peer) && entry != Unasked
    ensures var (me', peer') := Move(me, peer, act, entry); Settled(me', peer')
  {
  }

  lemma AskedMoves(me: Core, peer: Core, act: Action, entry: Entry)
    requires Link(peer, me) && entry != Unasked
    ensures var (me', peer') := Move(me, peer, act, entry); Settled(me', peer')
  {
  }

  lemma OthersMove(me: Core, peer: Core, act: Action, entry: Entry)
    requires Settled(me, peer) && !Link(me, peer) && !Link(peer, me) && entry != Unasked
    ensures var (me', peer') := Move(me, peer, act, entry); Settled(me', peer')
  {
  }

  lemma EitherMoves(me: Core, peer: Core, act: Action, entry: Entry)
    requires Settled(me, peer) && entry != Unasked
    ensures var (me', peer') := Move(me, peer, act, entry); Settled(me', peer')
  {
    hide Move, Link, Idle, Pending;
    if Link(me, peer) {
      AskerMoves(me, peer, act, entry);
    } else if Link(peer, me) {
      AskedMoves(me, peer, act, entry);
    } else {
      OthersMove(me, peer, act, entry);
    }
  }

  lemma StepJoint(c: Config, s: State, who: Who, act: Action)
    requires Joint(s) && Proper(c) && c.b != Unasked
    ensures Joint(Step(c, s, who, act))
  {
    hide Move, Link, Idle, Pending;
    if who == A {
      EitherMoves(s.a, s.b, if c.loop then Yield else act, c.a);
    } else {
      EitherMoves(s.b, s.a, act, c.b);
    }
  }

  /** Where nobody is asked, core 0 goes round its loop and reads what core 1's exits send. */
  predicate Loose(s: State) {
    && s.a.place == Running && |s.a.inbox| <= FIFO_DEPTH
    && (forall i :: 0 <= i < |s.a.inbox| ==> s.a.inbox[i] == Resume)
    && (s.b.place == Running || Holds(s.b)) && s.b.inbox == []
  }

  lemma StepLoose(c: Config, s: State, who: Who, act: Action)
    requires Loose(s) && Proper(c) && c.b == Unasked
    ensures Loose(Step(c, s, who, act))
  {
  }

  predicate Engaged(c: Core) {
    c.place == EnterTx || c.place == EnterAck || Holds(c)
  }

  /** Every reachable state of a configuration; only a core that may ask is ever at it. */
  predicate Reached(c: Config, s: State) {
    && (if c.b == Unasked then Loose(s) else Joint(s))
    && (Engaged(s.a) ==> c.a == Handshake) && (Engaged(s.b) ==> c.b != Refused)
  }

  lemma StepReached(c: Config, s: State, who: Who, act: Action)
    requires Proper(c) && Reached(c, s)
    ensures Reached(c, Step(c, s, who, act))
  {
    hide Joint, Loose, Step;
    if c.b == Unasked {
      StepLoose(c, s, who, act);
    } else {
      StepJoint(c, s, who, act);
    }
    StepEngages(c, s, who, act);
  }

  lemma MoveEngages(me: Core, peer: Core, act: Action, entry: Entry)
    ensures var (me', peer') := Move(me, peer, act, entry);
      peer'.place == peer.place && (Engaged(me') && !Engaged(me) ==> entry != Refused)
  {
  }

  lemma StepEngages(c: Config, s: State, who: Who, act: Action)
    requires Engaged(s.a) ==> c.a == Handshake
    requires Engaged(s.b) ==> c.b != Refused
    requires Proper(c)
    ensures Engaged(Step(c, s, who, act).a) ==> c.a == Handshake
    ensures Engaged(Step(c, s, who, act).b) ==> c.b != Refused
  {
    hide Move;
    if who == A {
      MoveEngages(s.a, s.b, if c.loop then Yield else act, c.a);
    } else {
      MoveEngages(s.b, s.a, act, c.b);
    }
  }

  lemma {:induction false} ExecReached(c: Config, run: seq<(Who, Action)>)
    requires Proper(c)
    ensures Reached(c, Exec(c, BOOT, run))
  {
    hide Reached, Step;
    if run == [] {
      BootReached(c);
    } else {
      ExecReached(c, run[..|run| - 1]);
      StepReached(c, Exec(c, BOOT, run[..|run| - 1]), run[|run| - 1].0, run[|run| - 1].1);
    }
  }

  lemma BootReached(c: Config)
    ensures Reached(c, BOOT)
  {
  }

  function Me(s: State, who: Who): Core {
    if who == A then s.a else s.b
  }

  function Other(who: Who): Who {
    if who == A then B else A
  }

  /** Stopped in the RAM stub, with nothing on its way to let it go on. */
  predicate Parked(c: Core) {
    c.place == WaitResume && Resume !in c.inbox
  }

  /** Whatever the slots hold, in every reachable state with a plugin launched: two cores
      never hold exclusive mode together, and a holder's peer is parked if and only if
      what runs there is known to yield: the system plugin by its header, core 0 by the
      user plugin's, or with no slot 1 at all. */
  lemma HolderPeerParkedIff(slots: seq<Slot>, run: seq<(Who, Action)>, who: Who)
    requires |slots| >= 1 && slots[0].kind == SystemPlugin && slots[0].valid
    ensures var s := Exec(ConfigOf(slots), BOOT, run);
      Holds(Me(s, who)) ==>
        && !Holds(Me(s, Other(who)))
        && (Parked(Me(s, Other(who)))
            <==> if who == A then slots[0].supportsYield
                 else |slots| < 2 || (slots[1].kind == UserPlugin && slots[1].supportsYield))
  {
    hide ConfigOf, Exec, UserLaunched;
    LaunchedProper(slots);
    ExecReached(ConfigOf(slots), run);
    if who == A {
      assert Engaged(Exec(ConfigOf(slots), BOOT, run).a) ==> Capability(slots, A) == 1;
    }
  }

  /** What calling enter does on core 1: it asks, is told it holds, or is refused, by slot
      1 alone. */
  lemma CoreOneEnters(slots: seq<Slot>, s: State)
    requires |slots| >= 1 && slots[0].kind == SystemPlugin && slots[0].valid && s.b.place == Running
    ensures var place := Step(ConfigOf(slots), s, B, Enter).b.place;
      && (place == EnterTx <==> |slots| < 2 || (slots[1].kind == UserPlugin && slots[1].supportsYield))
      && (place == Holding <==> |slots| >= 2 && slots[1].kind != UserPlugin)
      && (place == Running <==> |slots| >= 2 && slots[1].kind == UserPlugin && !slots[1].supportsYield)
  {
  }

  /** ... and on core 0, where a call is made only with a user plugin running: then it
      asks if slot 0 says that the system plugin yields. */
  lemma CoreZeroEnters(slots: seq<Slot>, s: State)
    requires |slots| >= 1 && slots[0].kind == SystemPlugin && slots[0].valid && s.a.place == Running
    ensures var place := Step(ConfigOf(slots), s, A, Enter).a.place;
      && (place == EnterTx
          <==> (|slots| >= 2 && slots[1].kind == UserPlugin && slots[1].valid && slots[0].supportsYield))
      && place != Holding
  {
  }

  /** A core that is refused, or runs no plugin, never has a request under way and never
      holds. */
  lemma RefusedNeverAsks(slots: seq<Slot>, run: seq<(Who, Action)>, who: Who)
    requires |slots| >= 1 && slots[0].kind == SystemPlugin && slots[0].valid
    requires if who == A
      then |slots| < 2 || slots[1].kind != UserPlugin || !slots[1].valid || !slots[0].supportsYield
      else |slots| >= 2 && slots[1].kind == UserPlugin && !slots[1].supportsYield
    ensures var s := Exec(ConfigOf(slots), BOOT, run);
      && Me(s, who).place != EnterTx && Me(s, who).place != EnterAck
      && Me(s, who).place != Holding && Me(s, who).place != ExitTx
      && Request !in Me(s, Other(who)).inbox
  {
    hide Exec;
    LaunchedProper(slots);
    ExecReached(ConfigOf(slots), run);
    NoRequest(ConfigOf(slots), Exec(ConfigOf(slots), BOOT, run), who);
  }

  lemma NoRequest(c: Config, s: State, who: Who)
    requires Proper(c) && Reached(c, s) && !Engaged(Me(s, who))
    ensures Request !in Me(s, Other(who)).inbox
  {
  }

  /** With a slot 1 that is no user plugin, core 1 is told it has exclusive mode at once,
      while core 0 is still running its loop from flash. */
  lemma EntersUnparked(slots: seq<Slot>, run: seq<(Who, Action)>)
    requires SystemLaunched(slots) && |slots| >= 2 && slots[1].kind != UserPlugin
    requires Exec(ConfigOf(slots), BOOT, run).b.place == Running
    ensures var t := Step(ConfigOf(slots), Exec(ConfigOf(slots), BOOT, run), B, Enter);
      t.b.place == Holding && t.a.place == Running
  {
    LaunchedProper(slots);
    ExecReached(ConfigOf(slots), run);
  }

  /** An exit never hangs: once the other core has taken a turn, it goes through. */
  lemma ExitGoesThrough(slots: seq<Slot>, run: seq<(Who, Action)>, who: Who, act: Action, mine: Action)
    requires SystemLaunched(slots) && Me(Exec(ConfigOf(slots), BOOT, run), who).place == ExitTx
    ensures var c := ConfigOf(slots);
      Me(Step(c, Step(c, Exec(c, BOOT, run), Other(who), act), who, mine), who).place == Running
  {
    hide ConfigOf, SystemLaunched, Exec;
    LaunchedProper(slots);
    ExecReached(ConfigOf(slots), run);
    ExitReady(ConfigOf(slots), Exec(ConfigOf(slots), BOOT, run), who, act, mine);
  }

  lemma ExitReady(c: Config, s: State, who: Who, act: Action, mine: Action)
    requires Proper(c) && Reached(c, s) && Me(s, who).place == ExitTx
    ensures Me(Step(c, Step(c, s, Other(who), act), who, mine), who).place == Running
  {
  }

  /** Nothing the parked core does moves it, and nothing but the holder's own exit
      puts anything in its FIFO. */
  lemma ParkedUntilExit(slots: seq<Slot>, run: seq<(Who, Action)>, who: Who, act: Action)
    requires SystemLaunched(slots) && Capability(slots, who) == 1 && Holds(Me(Exec(ConfigOf(slots), BOOT, run), who))
    ensures var c := ConfigOf(slots);
      var s := Exec(c, BOOT, run);
      && Step(c, s, Other(who), act) == s
      && (Holds(Me(Step(c, s, who, act), who)) ==> Me(Step(c, s, who, act), Other(who)) == Me(s, Other(who)))
  {
    hide ConfigOf, SystemLaunched, UserLaunched, Exec;
    LaunchedProper(slots);
    ExecReached(ConfigOf(slots), run);
    ParkedStays(ConfigOf(slots), Exec(ConfigOf(slots), BOOT, run), who, act);
  }

  lemma ParkedStays(c: Config, s: State, who: Who, act: Action)
    requires Joint(s) && Holds(Me(s, who))
    ensures Step(c, s, Other(who), act) == s
    ensures Holds(Me(Step(c, s, who, act), who)) ==> Me(Step(c, s, who, act), Other(who)) == Me(s, Other(who))
  {
  }

  function Steps(run: seq<(Who, Action)>, more: seq<(Who, Action)>): seq<(Who, Action)> {
    run + more
  }

  /** Over any continuation in which the holder is still holding at every point, the
      other core never leaves the stub. */
  lemma {:induction false} ParkedThroughout(
      slots: seq<Slot>, run: seq<(Who, Action)>, more: seq<(Who, Action)>, who: Who)
    requires SystemLaunched(slots) && Capability(slots, who) == 1
    requires forall n :: 0 <= n <= |more| ==> Holds(Me(Exec(ConfigOf(slots), BOOT, Steps(run, more[..n])), who))
    ensures Me(Exec(ConfigOf(slots), BOOT, run + more), Other(who)) == Me(Exec(ConfigOf(slots), BOOT, run), Other(who))
  {
    hide Step, ConfigOf, SystemLaunched, Capability;
    if more == [] {
      assert run + more == run;
    } else {
      var n := |more| - 1;
      forall k | 0 <= k <= n ensures Holds(Me(Exec(ConfigOf(slots), BOOT, Steps(run, more[..n][..k])), who)) {
        assert more[..n][..k] == more[..k];
      }
      ParkedThroughout(slots, run, more[..n], who);
      assert Holds(Me(Exec(ConfigOf(slots), BOOT, Steps(run, more[..n])), who));
      assert more[..|more|] == more && Holds(Me(Exec(ConfigOf(slots), BOOT, Steps(run, more[..|more|])), who));
      assert (run + more)[..|run| + n] == run + more[..n];
      assert (run + more)[|run| + n] == more[n];
      var s := Exec(ConfigOf(slots), BOOT, run + more[..n]);
      ParkedUntilExit(slots, run + more[..n], who, more[n].1);
      assert Exec(ConfigOf(slots), BOOT, run + more) == Step(ConfigOf(slots), s, more[n].0, more[n].1);
      assert more[n].0 == who || more[n].0 == Other(who);
    }
  }

  // ---------------------------------------------------------------------
  // When a request can be granted
  // ---------------------------------------------------------------------

  /** The other core is asking too, so nobody is left to answer. */
  predicate Crossed(s: State, who: Who) {
    var me, peer := Me(s, who), Me(s, Other(who));
    me.place == EnterAck && (peer.place == EnterTx || peer.place == EnterAck) && Joint(s)
  }

  lemma CrossedForever(c: Config, s: State, who: Who, actor: Who, act: Action)
    requires Crossed(s, who) && Proper(c) && c.b != Unasked
    ensures Crossed(Step(c, s, actor, act), who) && !Holds(Me(s, who))
  {
  }

  lemma {:induction false} CrossedNeverHolds(c: Config, s: State, who: Who, run: seq<(Who, Action)>)
    requires Crossed(s, who) && Proper(c) && c.b != Unasked
    ensures Crossed(Exec(c, s, run), who) && !Holds(Me(Exec(c, s, run), who))
  {
    hide Joint, Step;
    if run != [] {
      CrossedNeverHolds(c, s, who, run[..|run| - 1]);
      CrossedForever(c, Exec(c, s, run[..|run| - 1]), who, run[|run| - 1].0, run[|run| - 1].1);
    }
  }

  /** The peer yields, copies the stub and acknowledges; the asker reads the ack. */
  function Grant(who: Who): seq<(Who, Action)> {
    [(Other(who), Yield), (Other(who), Continue), (Other(who), Continue), (who, Continue)]
  }

  /** Where it is still parked from the last time, it takes the resume first. */
  function GrantRun(s: State, who: Who): seq<(Who, Action)> {
    match Me(s, Other(who)).place
    case Running => Grant(who)
    case YieldCopy => Grant(who)[1..]
    case WaitTx => Grant(who)[2..]
    case _ => if Me(s, who).inbox == [Ack] then Grant(who)[3..] else [(Other(who), Continue)] + Grant(who)
  }

  lemma ExecFour(c: Config, s: State, run: seq<(Who, Action)>)
    ensures |run| == 1 ==> Exec(c, s, run) == Step(c, s, run[0].0, run[0].1)
    ensures |run| > 1 ==> Exec(c, s, run) == Exec(c, Step(c, s, run[0].0, run[0].1), run[1..])
  {
    if |run| > 1 {
      ExecFour(c, s, run[..|run| - 1]);
      assert run[1..][..|run| - 2] == run[..|run| - 1][1..];
      if |run| == 2 {
        assert run[1..][..0] == [];
      }
    } else if |run| == 1 {
      assert run[..0] == [];
    }
  }

  /** A waiting request can still be granted if and only if the other core is not
      itself asking; then a few steps of an obliging peer grant it. */
  lemma GrantableIff(slots: seq<Slot>, run: seq<(Who, Action)>, who: Who)
    requires SystemLaunched(slots) && Me(Exec(ConfigOf(slots), BOOT, run), who).place == EnterAck
    ensures var c := ConfigOf(slots);
      var s := Exec(c, BOOT, run);
      (exists more: seq<(Who, Action)> :: HoldsAfter(c, s, more, who))
      <==> Me(s, Other(who)).place != EnterTx && Me(s, Other(who)).place != EnterAck
  {
    hide Exec, Step, ConfigOf, SystemLaunched, UserLaunched;
    var c := ConfigOf(slots);
    var s := Exec(c, BOOT, run);
    LaunchedProper(slots);
    ExecReached(c, run);
    if Crossed(s, who) {
      forall more: seq<(Who, Action)> ensures !HoldsAfter(c, s, more, who) {
        CrossedNeverHolds(c, s, who, more);
      }
    } else {
      Granting(c, s, who);
      assert HoldsAfter(c, s, GrantRun(s, who), who);
    }
  }

  predicate HoldsAfter(c: Config, s: State, more: seq<(Who, Action)>, who: Who) {
    Holds(Me(Exec(c, s, more), who))
  }

  lemma Granting(c: Config, s: State, who: Who)
    requires Proper(c) && c.b != Unasked && Joint(s) && !Crossed(s, who) && Me(s, who).place == EnterAck
    ensures Holds(Me(Exec(c, s, GrantRun(s, who)), who))
  {
    hide Exec, Step, Crossed, Joint;
    match Me(s, Other(who)).place
    case Running => FromRequest(c, s, who);
    case YieldCopy => FromCopy(c, s, who);
    case WaitTx => FromTx(c, s, who);
    case _ => FromParked(c, s, who);
  }

  lemma FromAck(c: Config, s: State, who: Who)
    requires Me(s, who) == Core(EnterAck, [Ack])
    ensures Holds(Me(Exec(c, s, Grant(who)[3..]), who))
  {
    ExecFour(c, s, Grant(who)[3..]);
  }

  lemma FromTx(c: Config, s: State, who: Who)
    requires Proper(c) && c.b != Unasked && Joint(s)
    requires Me(s, who).place == EnterAck && Me(s, Other(who)).place == WaitTx
    ensures Holds(Me(Exec(c, s, Grant(who)[2..]), who))
  {
    hide Exec;
    ExecFour(c, s, Grant(who)[2..]);
    assert Grant(who)[2..][1..] == Grant(who)[3..];
    FromAck(c, Step(c, s, Other(who), Continue), who);
  }

  lemma FromCopy(c: Config, s: State, who: Who)
    requires Proper(c) && c.b != Unasked && Joint(s)
    requires Me(s, who).place == EnterAck && Me(s, Other(who)).place == YieldCopy
    ensures Holds(Me(Exec(c, s, Grant(who)[1..]), who))
  {
    hide Exec;
    ExecFour(c, s, Grant(who)[1..]);
    assert Grant(who)[1..][1..] == Grant(who)[2..];
    StepJoint(c, s, Other(who), Continue);
    FromTx(c, Step(c, s, Other(who), Continue), who);
  }

  lemma FromRequest(c: Config, s: State, who: Who)
    requires Proper(c) && c.b != Unasked && Joint(s)
    requires Me(s, who).place == EnterAck && Me(s, Other(who)).place == Running
    ensures Holds(Me(Exec(c, s, Grant(who)), who))
  {
    hide Exec;
    ExecFour(c, s, Grant(who));
    StepJoint(c, s, Other(who), Yield);
    FromCopy(c, Step(c, s, Other(who), Yield), who);
  }

  lemma FromParked(c: Config, s: State, who: Who)
    requires Proper(c) && c.b != Unasked && Joint(s) && !Crossed(s, who) && Me(s, who).place == EnterAck
    requires Me(s, Other(who)).place !in {Running, YieldCopy, WaitTx}
    ensures Holds(Me(Exec(c, s, GrantRun(s, who)), who))
  {
    hide Exec;
    assert Me(s, Other(who)).place == WaitResume;
    if Me(s, who).inbox == [Ack] {
      FromAck(c, s, who);
    } else {
      var first: seq<(Who, Action)> := [(Other(who), Continue)];
      ExecFour(c, s, first + Grant(who));
      assert (first + Grant(who))[1..] == Grant(who);
      StepJoint(c, s, Other(who), Continue);
      FromRequest(c, Step(c, s, Other(who), Continue), who);
    }
  }

  /** Both sides can come to ask at once, and then neither is ever granted, if and only if
      both run a plugin and each declares that it yields. */
  lemma CrossedReachableIff(slots: seq<Slot>)
    requires |slots| >= 1 && slots[0].kind == SystemPlugin && slots[0].valid
    ensures (exists run: seq<(Who, Action)> :: Crossed(Exec(ConfigOf(slots), BOOT, run), A))
            <==> |slots| >= 2 && slots[0].supportsYield
                 && slots[1].kind == UserPlugin && slots[1].valid && slots[1].supportsYield
  {
    hide ConfigOf, Crossed, Exec;
    LaunchedProper(slots);
    var c := ConfigOf(slots);
    if c.a == Handshake && c.b == Handshake {
      var run := CrossedRun(c);
      assert Crossed(Exec(c, BOOT, run), A);
    } else {
      forall run: seq<(Who, Action)> ensures !Crossed(Exec(c, BOOT, run), A) {
        ExecReached(c, run);
        NotCrossed(c, Exec(c, BOOT, run));
      }
    }
  }

  lemma NotCrossed(c: Config, s: State)
    requires Reached(c, s) && !(c.a == Handshake && c.b == Handshake)
    ensures !Crossed(s, A)
  {
  }

  lemma CrossedRun(c: Config) returns (run: seq<(Who, Action)>)
    requires Proper(c) && c.a == Handshake && c.b == Handshake
    ensures Crossed(Exec(c, BOOT, run), A) && Crossed(Exec(c, BOOT, run), B)
  {
    run := [(A, Enter), (B, Enter), (A, Continue), (B, Continue)];
    ExecFour(c, BOOT, run);
    ExecFour(c, Step(c, BOOT, A, Enter), run[1..]);
    var s2 := Step(c, Step(c, BOOT, A, Enter), B, Enter);
    ExecFour(c, s2, run[1..][1..]);
    ExecFour(c, Step(c, s2, A, Continue), run[1..][1..][1..]);
    ExecReached(c, run);
  }
}
