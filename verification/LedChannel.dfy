/** One LED channel (OneROM/firmware/src/piodma/pioled.c): modes, holds and what a
hold goes back to, under a 32-bit millisecond clock that wraps. */
module LedChannel {
  import opened Words

  // Modes, periods and limits, from OneROM/rust/metadata/metadata_schema.toml.
  const OFF: nat := 0
  const ON: nat := 1
  const BEACON: nat := 2
  const FLAME: nat := 3
  const CYCLE: nat := 4
  const BREATHE: nat := 5
  const BLINK: nat := 6

  const MAX_HOLD_MS: nat := 60000
  const BEACON_DURATION_MS: nat := 2500
  const MIN_FRAME_MS: nat := 10
  const FLAME_DEFAULT_PERIOD_MS: nat := 575
  const DEFAULT_BRIGHTNESS: nat := 25

  predicate Repeats(mode: nat) {
    BEACON <= mode <= BLINK
  }

  predicate NeedsColour(mode: nat) {
    mode == CYCLE || mode == BREATHE
  }

  function DefaultPeriod(mode: nat): nat {
    if mode == CYCLE || mode == BREATHE then 5000
    else if mode == BLINK then 1000
    else if mode == BEACON then 100
    else if mode == FLAME then FLAME_DEFAULT_PERIOD_MS
    else 0
  }

  function MinPeriod(mode: nat): nat {
    if mode == CYCLE || mode == BREATHE then 1000
    else if mode == BLINK || mode == BEACON then 50
    else if mode == FLAME then 500
    else 0
  }

  function Steps(mode: nat): (n: nat)
    ensures n >= 1
  {
    if mode == CYCLE || mode == BREATHE then 100 else if mode == BLINK || mode == BEACON then 2 else 1
  }

  /** What an LED is doing, and what a hold goes back to. */
  datatype Look = Look(mode: nat, brightness: nat, red: nat, green: nat, blue: nat, period: nat)

  datatype Channel = Channel(shown: Look, saved: Look, step: nat, lit: bool, nextFrame: nat, holdExpiry: nat)

  datatype Request = Request(
    size: nat, led: nat, mode: nat, brightness: nat,
    red: nat, green: nat, blue: nat, period: nat, holdMs: nat)

  const STATUS: nat := 0
  const RGB: nat := 1

  const DARK: Look := Look(OFF, 0, 0, 0, 0, 0)
  const BLANK: Channel := Channel(DARK, DARK, 0, false, 0, 0)

  function FrameInterval(l: Look): nat {
    var interval := l.period / Steps(l.mode);
    if interval < MIN_FRAME_MS then MIN_FRAME_MS else interval
  }

  /** `(int32_t)(now - deadline) >= 0` */
  predicate Due(now: nat, deadline: nat) {
    (now - deadline) % WORD < HALF
  }

  // ---------------------------------------------------------------------
  // Requests and frames, as changes of one channel
  // ---------------------------------------------------------------------

  /** The hold a request gets; a beacon that names none takes its own. */
  function HoldOf(req: Request): nat {
    if req.mode == BEACON && req.holdMs == 0 then BEACON_DURATION_MS else req.holdMs
  }

  function LookOf(req: Request): Look {
    var period := if req.period != 0 then req.period else DefaultPeriod(req.mode);
    if req.led != RGB then Look(req.mode, 0, 0, 0, 0, period)
    else
      var brightness := if req.brightness != 0 then req.brightness else DEFAULT_BRIGHTNESS;
      if req.red != 0 || req.green != 0 || req.blue != 0
      then Look(req.mode, brightness, req.red, req.green, req.blue, period)
      else Look(req.mode, brightness, 255, 0, 0, period)
  }

  /** Zero in the expiry field means that no hold is running. */
  function ExpiryField(ms: nat): (e: nat)
    ensures 0 < e < WORD
  {
    if ms % WORD == 0 then 1 else ms % WORD
  }

  predicate Bounded(ch: Channel) {
    ch.holdExpiry != 0 || ch.shown.mode == BEACON
  }

  function Requested(ch: Channel, req: Request, now: nat): Channel {
    var held := HoldOf(req) != 0;
    var look := LookOf(req);
    Channel(look,
            if (held || req.mode == BEACON) && !Bounded(ch) then ch.shown else ch.saved,
            0, req.mode != OFF,
            if Repeats(req.mode) then (now + FrameInterval(look)) % WORD else ch.nextFrame,
            if held then ExpiryField(now + HoldOf(req)) else ch.holdExpiry)
  }

  function Restored(ch: Channel, now: nat): Channel {
    Channel(ch.saved, ch.saved, 0, ch.saved.mode != OFF,
            if Repeats(ch.saved.mode) then now else ch.nextFrame, 0)
  }

  const FLAME_TABLE: seq<(bool, nat)> :=
    [ (true, 60), (true, 40), (false, 15), (true, 35), (true, 55),
      (false, 20), (true, 70), (false, 10), (true, 45), (true, 30),
      (false, 25), (true, 50), (true, 65), (false, 15), (true, 40) ]

  /** How far up the fade a breathe step is. */
  function BreatheLevel(step: nat): (level: nat)
    requires step < 100
    ensures level <= 255 && (level == 0 <==> step == 0) && (level == 255 <==> step == 50)
  {
    if step < 50 then step * 255 / 50 else (100 - step) * 255 / 50
  }

  function Advanced(ch: Channel, now: nat): Channel {
    if !Due(now, ch.nextFrame) then ch
    else
      var mode := ch.shown.mode;
      var next := (now + FrameInterval(ch.shown)) % WORD;
      if mode == BEACON then ch.(step := (ch.step + 1) % 2, lit := !ch.lit, nextFrame := next)
      else if mode == FLAME then
        var step := (ch.step + 1) % |FLAME_TABLE|;
        var entry := FLAME_TABLE[step].1 * ch.shown.period / FLAME_DEFAULT_PERIOD_MS;
        ch.(step := step, lit := FLAME_TABLE[step].0,
            nextFrame := (now + (if entry < 1 then 1 else entry)) % WORD)
      else if mode == CYCLE then ch.(step := (ch.step + 1) % 100, lit := true, nextFrame := next)
      else if mode == BREATHE then
        var step := (ch.step + 1) % 100;
        ch.(step := step, lit := BreatheLevel(step) != 0, nextFrame := next)
      else if mode == BLINK then
        var step := (ch.step + 1) % 2;
        ch.(step := step, lit := step == 0, nextFrame := next)
      else ch
  }

  /** A frame at `now`; a hold that is over is restored at `restoreNow`, read a moment later. */
  function Framed(ch: Channel, now: nat, restoreNow: nat): Channel {
    if ch.holdExpiry != 0 && Due(now, ch.holdExpiry) then Restored(ch, restoreNow)
    else if Repeats(ch.shown.mode) then Advanced(ch, now)
    else ch
  }

  // ---------------------------------------------------------------------
  // What every run keeps
  // ---------------------------------------------------------------------

  datatype Event = Ask(req: Request, at: nat) | Frame(at: nat, restoreAt: nat)

  function Apply(ch: Channel, e: Event): Channel {
    match e
    case Ask(req, at) => Requested(ch, req, at % WORD)
    case Frame(at, restoreAt) => Framed(ch, at % WORD, restoreAt % WORD)
  }

  function After(ch: Channel, run: seq<Event>): Channel {
    if run == [] then ch else Apply(After(ch, run[..|run| - 1]), run[|run| - 1])
  }

  /** Nothing is left blinking for ever: a beacon always has a hold running, and no
      hold goes back to one. */
  predicate Ends(ch: Channel) {
    (ch.shown.mode == BEACON ==> ch.holdExpiry != 0) && ch.saved.mode != BEACON
  }

  lemma {:induction false} BeaconAlwaysEnds(run: seq<Event>)
    ensures Ends(After(BLANK, run))
  {
    if run != [] {
      BeaconAlwaysEnds(run[..|run| - 1]);
    }
  }

  // ---------------------------------------------------------------------
  // Chains of holds
  // ---------------------------------------------------------------------

  /** The absolute millisecond at which a hold asked for at `at` ends. */
  function Ending(at: nat, hold: nat): nat {
    if (at + hold) % WORD == 0 then at + hold + 1 else at + hold
  }

  /** The wrapped test agrees with the clock, for times less than half the wrap apart. */
  lemma DueAcrossWrap(now: nat, ending: nat)
    requires now < ending + HALF && ending <= now + HALF
    ensures Due(now % WORD, ending % WORD) <==> now >= ending
  {
    var d := now - ending;
    ModDifference(now, ending);
    if d >= 0 {
      assert d % WORD == d;
    } else {
      assert (d + WORD) % WORD == d % WORD;
    }
  }

  lemma ExpiryIsEnding(at: nat, hold: nat)
    ensures ExpiryField(at % WORD + hold) == Ending(at, hold) % WORD
    ensures at + hold <= Ending(at, hold) <= at + hold + 1
  {
    assert (at % WORD + hold) % WORD == (at + hold) % WORD;
  }

  /** A hold is running to `ending`, and goes back to `base`. */
  predicate InHold(ch: Channel, base: Look, ending: nat) {
    ch.saved == base && ch.holdExpiry == ending % WORD != 0
  }

  /** An event inside a chain: any accepted request, or a frame before the hold's end. */
  predicate Inside(e: Event, ending: nat) {
    match e
    case Ask(req, _) => req.holdMs <= MAX_HOLD_MS
    case Frame(at, _) => at < ending <= at + HALF
  }

  /** The latest hold asked for decides when the chain ends. */
  function EndingAfter(ending: nat, run: seq<Event>): nat {
    if run == [] then ending
    else
      var before := EndingAfter(ending, run[..|run| - 1]);
      var e := run[|run| - 1];
      if e.Ask? && HoldOf(e.req) != 0 then Ending(e.at, HoldOf(e.req)) else before
  }

  predicate Chain(run: seq<Event>, ending: nat) {
    run == [] || (Chain(run[..|run| - 1], ending)
                  && Inside(run[|run| - 1], EndingAfter(ending, run[..|run| - 1])))
  }

  lemma InHoldStep(ch: Channel, base: Look, ending: nat, e: Event)
    requires InHold(ch, base, ending) && Inside(e, ending)
    ensures InHold(Apply(ch, e), base, if e.Ask? && HoldOf(e.req) != 0 then Ending(e.at, HoldOf(e.req)) else ending)
  {
    hide FrameInterval, LookOf, Due;
    match e
    case Ask(req, at) => ExpiryIsEnding(at, HoldOf(req));
    case Frame(at, _) => DueAcrossWrap(at, ending);
  }

  lemma {:induction false} InHoldRun(ch: Channel, base: Look, ending: nat, run: seq<Event>)
    requires InHold(ch, base, ending) && Chain(run, ending)
    ensures InHold(After(ch, run), base, EndingAfter(ending, run))
  {
    hide Apply, Inside, InHold, Ending;
    if run != [] {
      InHoldRun(ch, base, ending, run[..|run| - 1]);
      InHoldStep(After(ch, run[..|run| - 1]), base, EndingAfter(ending, run[..|run| - 1]), run[|run| - 1]);
    }
  }

  /** The first held request of a chain, whatever follows while its hold or a later
      one runs, and a frame once the last is over: the LED is back to the mode,
      colour, brightness and period it had before, wherever the clock wraps. */
  lemma ChainRestores(ch: Channel, req: Request, at: nat, run: seq<Event>, frame: Event)
    requires Ends(ch) && ch.holdExpiry == 0 && HoldOf(req) != 0
    requires Chain(run, Ending(at, HoldOf(req)))
    requires var ending := EndingAfter(Ending(at, HoldOf(req)), run);
      frame.Frame? && ending <= frame.at < ending + HALF
    ensures var end := Apply(After(Apply(ch, Ask(req, at)), run), frame);
      end.shown == ch.shown && end.holdExpiry == 0 && end.lit == (ch.shown.mode != OFF)
  {
    hide FrameInterval, LookOf, Due, Ending;
    var first := Ending(at, HoldOf(req));
    ExpiryIsEnding(at, HoldOf(req));
    var held := Apply(ch, Ask(req, at));
    assert InHold(held, ch.shown, first);
    InHoldRun(held, ch.shown, first, run);
    DueAcrossWrap(frame.at, EndingAfter(first, run));
  }

  /** A request that names no hold, and is not a beacon, is said to last until
      something changes it.  It does exactly when no hold was running: otherwise the
      running hold's end takes it away again. */
  lemma UnheldLastsIff(ch: Channel, base: Look, ending: nat, req: Request, at: nat, frame: Event)
    requires Ends(ch) && (ch.holdExpiry == 0 || InHold(ch, base, ending))
    requires HoldOf(req) == 0
    requires frame.Frame? && ending <= frame.at < ending + HALF
    ensures Apply(Apply(ch, Ask(req, at)), frame).shown == LookOf(req)
            <==> ch.holdExpiry == 0 || LookOf(req) == ch.saved
  {
    hide FrameInterval, LookOf, Due;
    DueAcrossWrap(frame.at, ending);
  }

  /** A frame never comes due the moment it is scheduled: the engine cannot spin. */
  lemma FramesAreApart(ch: Channel, now: nat)
    requires Repeats(ch.shown.mode) && now < WORD && Due(now, ch.nextFrame)
    requires ch.shown.period < 0x1_0000 && (ch.shown.mode == FLAME ==> ch.shown.period >= MinPeriod(FLAME))
    ensures !Due(now, Advanced(ch, now).nextFrame)
    ensures ch.shown.mode != FLAME ==> Due((now + FrameInterval(ch.shown)) % WORD, Advanced(ch, now).nextFrame)
  {
    hide Due;
    if ch.shown.mode == FLAME {
      var entry := FLAME_TABLE[(ch.step + 1) % |FLAME_TABLE|].1;
      FlameEntryBounds((ch.step + 1) % |FLAME_TABLE|, ch.shown.period);
      NotYetDue(now, entry * ch.shown.period / FLAME_DEFAULT_PERIOD_MS);
    } else {
      NotYetDue(now, FrameInterval(ch.shown));
    }
  }

  lemma FlameEntryBounds(step: nat, period: nat)
    requires step < |FLAME_TABLE| && 500 <= period < 0x1_0000
    ensures 1 <= FLAME_TABLE[step].1 * period / FLAME_DEFAULT_PERIOD_MS < HALF
  {
    var entry := FLAME_TABLE[step].1;
    assert 10 <= entry <= 70;
    Scaled(entry, 10, 70, period);
  }

  lemma Scaled(entry: nat, low: nat, high: nat, period: nat)
    requires low <= entry <= high
    ensures low * period <= entry * period <= high * period
  {
  }

  lemma NotYetDue(now: nat, gap: nat)
    requires 1 <= gap < HALF
    ensures !Due(now, (now + gap) % WORD) && Due((now + gap) % WORD, (now + gap) % WORD)
  {
    var q := (now + gap) / WORD;
    assert now - (now + gap) % WORD == (q - 1) * WORD + (WORD - gap);
    Remainder(now - (now + gap) % WORD, q - 1, WORD - gap);
  }

  /** A breath rises to full and falls again, evenly. */
  lemma BreathIsEven(step: nat)
    requires step < 100
    ensures BreatheLevel(step) == 255 * (if step < 50 then step else 100 - step) / 50
    ensures 0 < step ==> BreatheLevel(100 - step) == BreatheLevel(step)
  {
  }

  // ---------------------------------------------------------------------
  // What an animation shows, frame by frame
  // ---------------------------------------------------------------------

  /** What a request leaves: its own mode, and what it names or the defaults: 5 s for a
      cycle or a breath, 1 s for a blink, 100 ms for a beacon, 575 ms for a flame; on the
      RGB LED a quarter's brightness, and red. */
  lemma RequestStarts(ch: Channel, req: Request, now: nat)
    ensures var g := Requested(ch, req, now);
      var period := if req.period != 0 then req.period
                    else if req.mode == CYCLE || req.mode == BREATHE then 5000
                    else if req.mode == BLINK then 1000
                    else if req.mode == BEACON then 100
                    else if req.mode == FLAME then 575 else 0;
      && g.shown.mode == req.mode && g.shown.period == period && g.step == 0 && g.lit == (req.mode != 0)
      && (req.led == 1 ==> g.shown.brightness == if req.brightness != 0 then req.brightness else 25)
      && (req.led == 1 ==> (g.shown.red, g.shown.green, g.shown.blue)
                           == if req.red + req.green + req.blue > 0
                              then (req.red, req.green, req.blue) else (255, 0, 0))
      && (req.led != 1 ==> (g.shown.brightness, g.shown.red, g.shown.green, g.shown.blue) == (0, 0, 0, 0))
      && (2 <= req.mode <= 6 ==>
            g.nextFrame == (now + AtLeast(10, if req.mode == FLAME then period else period / Round(req.mode))) % WORD)
  {
  }

  /** The hold it leaves: the one it names, or 2.5 s for a beacon that names none; zero in
      the field is for no hold, so an end at zero is one late.  What the hold goes back to
      is what was shown, unless that was itself on a hold or a beacon. */
  lemma RequestHolds(ch: Channel, req: Request, now: nat)
    ensures var g := Requested(ch, req, now);
      var ms := if req.holdMs != 0 then req.holdMs else if req.mode == BEACON then 2500 else 0;
      && (ms == 0 ==> g.holdExpiry == ch.holdExpiry && g.saved == ch.saved)
      && (ms != 0 ==> g.holdExpiry == if (now + ms) % 0x1_0000_0000 == 0 then 1 else (now + ms) % 0x1_0000_0000)
      && (ms != 0 ==> g.saved == if ch.holdExpiry == 0 && ch.shown.mode != BEACON then ch.shown else ch.saved)
  {
  }

  /** After frames at these times. */
  function Shown(ch: Channel, times: seq<nat>): Channel {
    if times == [] then ch else Framed(Shown(ch, times[..|times| - 1]), times[|times| - 1], times[|times| - 1])
  }

  /** Each comes when it is due, and before the hold, if there is one, is over. */
  predicate InTime(ch: Channel, times: seq<nat>) {
    forall n :: 0 <= n < |times| ==>
      Due(times[n], Shown(ch, times[..n]).nextFrame) && (ch.holdExpiry == 0 || !Due(times[n], ch.holdExpiry))
  }

  /** Frames in one round of an animation. */
  function Round(mode: nat): nat {
    if mode == BEACON || mode == BLINK then 2 else if mode == FLAME then 15 else 100
  }

  /** Whether frame n of an animation is lit: a beacon and a blink every other frame, the
      beacon from what it was before; a flame by its table; a cycle always; a breath
      except at the turn of its round. */
  predicate LitAt(mode: nat, first: bool, n: nat) {
    if n == 0 then first
    else if mode == BEACON then first == (n % 2 == 0)
    else if mode == BLINK then n % 2 == 0
    else if mode == FLAME then FLAME_TABLE[n % 15].0
    else mode == CYCLE || n % 100 != 0
  }

  /** Milliseconds from frame n to the next. */
  function Gap(mode: nat, period: nat, n: nat): nat {
    if mode == FLAME then AtLeast(1, FLAME_TABLE[n % 15].1 * period / 575)
    else if mode == BEACON || mode == BLINK then AtLeast(10, period / 2)
    else AtLeast(10, period / 100)
  }

  function AtLeast(least: nat, n: nat): nat {
    if n < least then least else n
  }

  /** Every animation, from its first frame on: what it shows, its place in the round, and
      when the next frame is due. */
  lemma {:induction false} AnimationShows(ch: Channel, times: seq<nat>)
    requires 2 <= ch.shown.mode <= 6 && ch.step == 0 && InTime(ch, times)
    ensures var g, n, mode := Shown(ch, times), |times|, ch.shown.mode;
      && g.shown == ch.shown && g.saved == ch.saved && g.holdExpiry == ch.holdExpiry
      && g.step == n % Round(mode) && g.lit == LitAt(mode, ch.lit, n)
      && (n > 0 ==> g.nextFrame == (times[n - 1] + Gap(mode, ch.shown.period, n)) % WORD)
  {
    hide Due, Advanced, LitAt, Gap, Round, InTime;
    if times == [] {
      NoFrames(ch);
    } else {
      var n := |times| - 1;
      InTimeSoFar(ch, times);
      AnimationShows(ch, times[..n]);
      FrameShows(Shown(ch, times[..n]), ch.lit, n, times[n]);
    }
  }

  lemma InTimeSoFar(ch: Channel, times: seq<nat>)
    requires times != [] && InTime(ch, times)
    ensures var n := |times| - 1;
      && InTime(ch, times[..n]) && Due(times[n], Shown(ch, times[..n]).nextFrame)
      && (ch.holdExpiry == 0 || !Due(times[n], ch.holdExpiry))
  {
    hide Due, Framed;
    var n := |times| - 1;
    assert forall k :: 0 <= k < n ==> times[..n][..k] == times[..k];
  }

  lemma NoFrames(ch: Channel)
    requires ch.step == 0
    ensures ch.step == 0 % Round(ch.shown.mode) && ch.lit == LitAt(ch.shown.mode, ch.lit, 0)
  {
  }

  /** Frame n + 1, from the channel as frame n left it. */
  predicate Continues(ch: Channel, g: Channel, first: bool, n: nat, now: nat) {
    var mode := ch.shown.mode;
    && g.shown == ch.shown && g.saved == ch.saved && g.holdExpiry == ch.holdExpiry
    && g.step == (n + 1) % Round(mode) && g.lit == LitAt(mode, first, n + 1)
    && g.nextFrame == (now + Gap(mode, ch.shown.period, n + 1)) % WORD
  }

  lemma FrameShows(ch: Channel, first: bool, n: nat, now: nat)
    requires Repeats(ch.shown.mode) && Due(now, ch.nextFrame)
    requires ch.step == n % Round(ch.shown.mode) && ch.lit == LitAt(ch.shown.mode, first, n)
    ensures Continues(ch, Advanced(ch, now), first, n, now)
  {
    hide Due, Advanced, Continues, Gap;
    if ch.shown.mode == FLAME {
      FlameShows(ch, first, n, now);
    } else if ch.shown.mode == BEACON {
      BeaconShows(ch, first, n, now);
    } else if ch.shown.mode == BLINK {
      BlinkShows(ch, first, n, now);
    } else if ch.shown.mode == CYCLE {
      CycleShows(ch, first, n, now);
    } else {
      BreathShows(ch, first, n, now);
    }
  }

  lemma FlameShows(ch: Channel, first: bool, n: nat, now: nat)
    requires ch.shown.mode == FLAME && Due(now, ch.nextFrame) && ch.step == n % 15
    ensures Continues(ch, Advanced(ch, now), first, n, now)
  {
    hide Due, FLAME_TABLE;
    FlameSteps();
    assert (n % 15 + 1) % 15 == (n + 1) % 15;
  }

  lemma FlameSteps()
    ensures |FLAME_TABLE| == 15
  {
  }

  lemma BeaconShows(ch: Channel, first: bool, n: nat, now: nat)
    requires ch.shown.mode == BEACON && Due(now, ch.nextFrame) && ch.step == n % 2 && ch.lit == LitAt(BEACON, first, n)
    ensures Continues(ch, Advanced(ch, now), first, n, now)
  {
    hide Due, FLAME_TABLE;
    assert (n % 2 + 1) % 2 == (n + 1) % 2;
  }

  lemma BlinkShows(ch: Channel, first: bool, n: nat, now: nat)
    requires ch.shown.mode == BLINK && Due(now, ch.nextFrame) && ch.step == n % 2
    ensures Continues(ch, Advanced(ch, now), first, n, now)
  {
    hide Due, FLAME_TABLE;
    assert (n % 2 + 1) % 2 == (n + 1) % 2;
  }

  lemma CycleShows(ch: Channel, first: bool, n: nat, now: nat)
    requires ch.shown.mode == CYCLE && Due(now, ch.nextFrame) && ch.step == n % 100
    ensures Continues(ch, Advanced(ch, now), first, n, now)
  {
    hide Due, FLAME_TABLE;
    assert (n % 100 + 1) % 100 == (n + 1) % 100;
  }

  lemma BreathShows(ch: Channel, first: bool, n: nat, now: nat)
    requires ch.shown.mode == BREATHE && Due(now, ch.nextFrame) && ch.step == n % 100
    ensures Continues(ch, Advanced(ch, now), first, n, now)
  {
    hide Due, FLAME_TABLE;
    assert (n % 100 + 1) % 100 == (n + 1) % 100;
  }
}
