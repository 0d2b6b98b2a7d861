/** The LED engine (OneROM/firmware/src/piodma/pioled.c): two channels, and the
hand-over of pixels to a state machine that may have to wait out a reset first. */
module LedEngine {
  import opened Words
  import opened LedChannel

  const RESET_DELAY_US: nat := 200
  const PARK_DELAY_US: nat := 150
  const REQUEST_MIN_SIZE: nat := 16
  const LED_COUNT: nat := 2

  datatype Board = Board(hasStatus: bool, hasRgb: bool, shared: bool)

  datatype Result = Ok | InvalidArg | InvalidSize | NotSupported

  /** Why a request is refused, in the order the checks are made. */
  function Verdict(req: Request, board: Board): Result {
    if req.size < REQUEST_MIN_SIZE then InvalidSize
    else if req.led >= LED_COUNT || req.mode > BLINK then InvalidArg
    else if NeedsColour(req.mode) && req.led != RGB then InvalidArg
    else if req.brightness > 100 || req.holdMs > MAX_HOLD_MS then InvalidArg
    else if req.period != 0 && req.period < MinPeriod(req.mode) then InvalidArg
    else if (req.led == RGB && !board.hasRgb) || (req.led == STATUS && !board.hasStatus) then NotSupported
    else Ok
  }

  /** Which requests are accepted, and why the others are not. */
  lemma VerdictMeans(req: Request, board: Board)
    ensures var least := if req.mode == CYCLE || req.mode == BREATHE then 1000
                         else if req.mode == FLAME then 500
                         else if req.mode == BEACON || req.mode == BLINK then 50 else 0;
      var sound := && req.led <= 1 && req.mode <= 6 && req.brightness <= 100 && req.holdMs <= 60000
                   && (req.mode == CYCLE || req.mode == BREATHE ==> req.led == 1)
                   && (req.period == 0 || req.period >= least);
      var there := if req.led == 0 then board.hasStatus else board.hasRgb;
      && (Verdict(req, board) == InvalidSize <==> req.size < 16)
      && (Verdict(req, board) == InvalidArg <==> req.size >= 16 && !sound)
      && (Verdict(req, board) == NotSupported <==> req.size >= 16 && sound && !there)
      && (Verdict(req, board) == Ok <==> req.size >= 16 && sound && there)
  {
  }

  /** A pixel in the order a WS2812 reads it: green, red, blue. */
  function Pixel(red: nat, green: nat, blue: nat, brightness: nat, level: nat): nat {
    var scale := brightness * level;
    Dimmed(green, scale) * 0x1_0000 + Dimmed(red, scale) * 0x100 + Dimmed(blue, scale)
  }

  function Dimmed(colour: nat, scale: nat): nat {
    colour * scale / 25500
  }

  lemma ScaledByte(colour: nat, scale: nat)
    requires colour <= 255 && scale <= 25500
    ensures Dimmed(colour, scale) <= colour
    ensures scale == 25500 ==> Dimmed(colour, scale) == colour
    ensures scale == 0 ==> Dimmed(colour, scale) == 0
  {
    Times(colour, scale, 25500);
  }

  lemma Times(a: nat, b: nat, c: nat)
    requires b <= c
    ensures a * b <= a * c
  {
  }

  /** Each component stays in its byte, full brightness and level give the colour
      itself, and no brightness or level gives dark. */
  lemma PixelBytes(red: nat, green: nat, blue: nat, brightness: nat, level: nat)
    requires red <= 255 && green <= 255 && blue <= 255 && brightness <= 100 && level <= 255
    ensures var p := Pixel(red, green, blue, brightness, level);
      && p < 0x100_0000
      && p / 0x1_0000 <= green && (p / 0x100) % 0x100 <= red && p % 0x100 <= blue
      && (brightness == 100 && level == 255 ==> p == green * 0x1_0000 + red * 0x100 + blue)
      && (brightness == 0 || level == 0 ==> p == 0)
  {
    hide Dimmed;
    var scale := brightness * level;
    Times(brightness, level, 255);
    ScaledByte(red, scale);
    ScaledByte(green, scale);
    ScaledByte(blue, scale);
    FullOrNone(brightness, level);
    Packed(Dimmed(green, scale), Dimmed(red, scale), Dimmed(blue, scale));
  }

  /** Each component is the colour's, scaled by brightness out of 100 and level out of 255. */
  lemma PixelFields(red: nat, green: nat, blue: nat, brightness: nat, level: nat)
    requires red <= 255 && green <= 255 && blue <= 255 && brightness <= 100 && level <= 255
    ensures var p, scale := Pixel(red, green, blue, brightness, level), brightness * level;
      && p / 0x1_0000 == green * scale / (100 * 255)
      && (p / 0x100) % 0x100 == red * scale / (100 * 255)
      && p % 0x100 == blue * scale / (100 * 255)
  {
    var scale := brightness * level;
    Times(brightness, level, 255);
    ScaledByte(red, scale);
    ScaledByte(green, scale);
    ScaledByte(blue, scale);
    Packed(Dimmed(green, scale), Dimmed(red, scale), Dimmed(blue, scale));
  }

  lemma FullOrNone(brightness: nat, level: nat)
    ensures brightness == 0 || level == 0 ==> brightness * level == 0
    ensures brightness == 100 && level == 255 ==> brightness * level == 25500
  {
  }

  lemma Packed(g: nat, r: nat, b: nat)
    requires g <= 255 && r <= 255 && b <= 255
    ensures var p := g * 0x1_0000 + r * 0x100 + b;
      p < 0x100_0000 && p / 0x1_0000 == g && (p / 0x100) % 0x100 == r && p % 0x100 == b
  {
    var p := g * 0x1_0000 + r * 0x100 + b;
    assert p / 0x100 == g * 0x100 + r && p % 0x100 == b;
    assert (g * 0x100 + r) % 0x100 == r;
  }

  // ---------------------------------------------------------------------
  // Pixels in and out
  // ---------------------------------------------------------------------

  /** `a` is what is left of `b` when some of its elements are dropped. */
  predicate Subsequence(a: seq<nat>, b: seq<nat>) {
    a == [] || (b != [] && ((a[|a| - 1] == b[|b| - 1] && Subsequence(a[..|a| - 1], b[..|b| - 1]))
                            || Subsequence(a, b[..|b| - 1])))
  }

  lemma SubsequenceSnoc(a: seq<nat>, b: seq<nat>, x: nat)
    requires Subsequence(a, b)
    ensures Subsequence(a, b + [x]) && Subsequence(a + [x], b + [x])
  {
    assert (b + [x])[..|b|] == b && (a + [x])[..|a|] == a;
  }

  /** What has reached the state machine, against what was asked for: nothing out of
      order, nothing invented, and the latest sent or waiting. */
  ghost predicate Handed(sent: seq<nat>, requested: seq<nat>, pending: bool, pixel: nat) {
    if requested == [] then sent == [] && !pending
    else
      var n := |requested| - 1;
      if pending then pixel == requested[n] && Subsequence(sent, requested[..n])
      else sent != [] && sent[|sent| - 1] == requested[n] && Subsequence(sent, requested)
  }

  lemma HandedNext(sent: seq<nat>, requested: seq<nat>, pending: bool, pixel: nat, next: nat)
    requires Handed(sent, requested, pending, pixel)
    ensures Handed(sent, requested + [next], true, next)
    ensures !pending ==> Handed(sent + [next], requested + [next], false, pixel)
    ensures pending ==> Handed(sent + [pixel], requested, false, pixel)
  {
    assert (requested + [next])[..|requested|] == requested;
    if pending {
      SubsequenceSnoc(sent, requested[..|requested| - 1], pixel);
      assert requested[..|requested| - 1] + [pixel] == requested;
    } else {
      SubsequenceSnoc(sent, requested, next);
    }
    if requested != [] && pending {
      assert Subsequence(sent, requested);
    }
  }

  /** The colour of a step round the hue circle. */
  function Hue(step: nat): (rgb: (nat, nat, nat))
    requires step < 100
    ensures rgb.0 <= 255 && rgb.1 <= 255 && rgb.2 <= 255
    ensures rgb.0 == 255 || rgb.1 == 255 || rgb.2 == 255    // full value
    ensures rgb.0 == 0 || rgb.1 == 0 || rgb.2 == 0          // full saturation
  {
    HueAt(step * 1536 / 100)
  }

  function HueAt(position: nat): (rgb: (nat, nat, nat))
    requires position < 1536
    ensures rgb.0 <= 255 && rgb.1 <= 255 && rgb.2 <= 255
    ensures rgb.0 == 255 || rgb.1 == 255 || rgb.2 == 255
    ensures rgb.0 == 0 || rgb.1 == 0 || rgb.2 == 0
  {
    var along := position % 256;
    var ramp := position / 256;
    if ramp == 0 then (255, along, 0)
    else if ramp == 1 then (255 - along, 255, 0)
    else if ramp == 2 then (0, 255, along)
    else if ramp == 3 then (0, 255 - along, 255)
    else if ramp == 4 then (along, 0, 255)
    else (255, 0, 255 - along)
  }

  /** One component, by how far round the wheel it is: up over a sixth, full for two, down
      over a sixth, none for two. */
  function Wave(position: nat): nat {
    if position < 256 then position
    else if position < 768 then 255
    else if position < 1024 then 1023 - position
    else 0
  }

  /** Red, green and blue follow the same wave, a third of the wheel apart. */
  lemma HueIsWheel(step: nat)
    requires step < 100
    ensures var position := step * 1536 / 100;
      Hue(step) == (Wave((position + 512) % 1536), Wave(position), Wave((position + 1024) % 1536))
  {
    hide HueAt, Wave;
    WheelAt(step * 1536 / 100);
  }

  lemma WheelAt(position: nat)
    requires position < 1536
    ensures HueAt(position) == (Wave((position + 512) % 1536), Wave(position), Wave((position + 1024) % 1536))
  {
    assert (position + 512) % 1536 == if position < 1024 then position + 512 else position - 1024;
    assert (position + 1024) % 1536 == if position < 512 then position + 1024 else position - 512;
  }

  /** The pixel a frame of the RGB channel asks for, from the channel as it leaves it. */
  function FramePixel(ch: Channel): nat {
    var l := ch.shown;
    if l.mode == CYCLE && ch.step < 100 then
      var (r, g, b) := Hue(ch.step);
      Pixel(r, g, b, l.brightness, 255)
    else if l.mode == BREATHE && ch.step < 100 then Pixel(l.red, l.green, l.blue, l.brightness, BreatheLevel(ch.step))
    else ShownPixel(ch)
  }

  /** The channel's own colour, lit or dark. */
  function ShownPixel(ch: Channel): nat {
    Pixel(ch.shown.red, ch.shown.green, ch.shown.blue, ch.shown.brightness, if ch.lit then 255 else 0)
  }

  /** What frame n of an animation on the RGB LED shows. */
  lemma AnimationPixel(ch: Channel, times: seq<nat>)
    requires 2 <= ch.shown.mode <= 6 && ch.step == 0 && InTime(ch, times)
    ensures var l, n := ch.shown, |times|;
      FramePixel(Shown(ch, times)) ==
        if l.mode == CYCLE then var (r, g, b) := Hue(n % 100); Pixel(r, g, b, l.brightness, 255)
        else if l.mode == BREATHE then Pixel(l.red, l.green, l.blue, l.brightness, BreatheLevel(n % 100))
        else if LitAt(l.mode, ch.lit, n) then Pixel(l.red, l.green, l.blue, l.brightness, 255)
        else 0
  {
    hide Pixel, Hue, BreatheLevel, LitAt, InTime, Shown;
    AnimationShows(ch, times);
    var l := ch.shown;
    Unlit(l.red, l.green, l.blue, l.brightness);
  }

  lemma Unlit(red: nat, green: nat, blue: nat, brightness: nat)
    ensures Pixel(red, green, blue, brightness, 0) == 0
  {
    Nothing(red);
    Nothing(green);
    Nothing(blue);
    FullOrNone(brightness, 0);
  }

  lemma Nothing(colour: nat)
    ensures Dimmed(colour, 0) == 0
  {
  }

  /** The pixel a frame asks for, if it asks for one. */
  function FrameAsks(was: Channel, nowMs: nat, after: Channel): seq<nat> {
    if was.holdExpiry != 0 && Due(nowMs, was.holdExpiry) then [ShownPixel(after)]
    else if Repeats(was.shown.mode) && Due(nowMs, was.nextFrame) then [FramePixel(after)]
    else []
  }

  /** Whether a frame drives the LED at all. */
  predicate Driven(was: Channel, nowMs: nat) {
    (was.holdExpiry != 0 && Due(nowMs, was.holdExpiry)) || (Repeats(was.shown.mode) && Due(nowMs, was.nextFrame))
  }

  lemma LookMode(req: Request)
    ensures LookOf(req).mode == req.mode
  {
  }

  class Engine {
    const board: Board
    var channels: seq<Channel>
    var statusLedEnabled: bool
    var claimed: bool
    var parkPending: bool
    var writePending: bool
    var parkedHigh: bool
    var resetOwed: bool
    var pendingPixel: nat
    var writeDueUs: nat
    var parkDueUs: nat
    ghost var sent: seq<nat>         // pixels handed to the state machine
    ghost var requested: seq<nat>    // pixels asked for

    ghost predicate Valid()
      reads this
    {
      && |channels| == LED_COUNT
      && Ends(channels[STATUS]) && Ends(channels[RGB])
      && !NeedsColour(channels[STATUS].shown.mode) && !NeedsColour(channels[STATUS].saved.mode)
      && (!board.hasRgb ==> channels[RGB] == BLANK)
      && Handed(sent, requested, writePending, pendingPixel)
    }

    constructor (board: Board)
      ensures Valid() && this.board == board && channels == [BLANK, BLANK] && requested == []
      ensures !statusLedEnabled && !claimed && !parkPending && !writePending && !parkedHigh && !resetOwed
    {
      this.board := board;
      channels := [BLANK, BLANK];
      statusLedEnabled, claimed := false, false;
      parkPending, writePending, parkedHigh, resetOwed := false, false, false, false;
      pendingPixel, writeDueUs, parkDueUs := 0, 0, 0;
      sent, requested := [], [];
    }

    /** led_rgb_write: straight to the state machine, unless a reset is owed, which
        makes the pixel wait, or one is waiting already, which it replaces. */
    method RgbWrite(pixel: nat, nowUs: nat)
      requires Valid() && board.hasRgb
      modifies this
      ensures Valid() && channels == old(channels) && statusLedEnabled == old(statusLedEnabled)
      ensures requested == old(requested) + [pixel]
      ensures writePending == (old(resetOwed) || !old(claimed) || (board.shared && old(parkedHigh))
                                || old(writePending))
      ensures sent == (if writePending then old(sent) else old(sent) + [pixel])
      ensures claimed && !resetOwed && parkedHigh == old(parkedHigh)
      ensures pendingPixel == if writePending then pixel else old(pendingPixel)
      ensures var waits := old(resetOwed) || !old(claimed) || (board.shared && old(parkedHigh));
        && writeDueUs == (if waits then (nowUs + 200) % WORD else old(writeDueUs))
        && parkPending == (board.shared || old(parkPending))
        && (board.shared ==> parkDueUs == (nowUs + if waits then 350 else 150) % WORD)
    {
      hide Handed;
      if !claimed {
        Claim(nowUs);
      }
      BorrowPin(nowUs);
      HandOver(pixel, nowUs);
      ModSum(nowUs + RESET_DELAY_US, PARK_DELAY_US);
    }

    /** led_pio_claim: the line has only now been taken low. */
    method Claim(nowUs: nat)
      modifies this`claimed, this`resetOwed, this`parkDueUs, this`parkPending
      ensures claimed && resetOwed
      ensures parkPending == (board.shared || old(parkPending))
      ensures parkDueUs == if board.shared then (nowUs + PARK_DELAY_US) % WORD else old(parkDueUs)
    {
      claimed, resetOwed := true, true;
      if board.shared {
        parkDueUs, parkPending := (nowUs + PARK_DELAY_US) % WORD, true;
      }
    }

    /** led_borrow_pin */
    method BorrowPin(nowUs: nat)
      modifies this`parkDueUs, this`parkPending
      ensures parkPending == (board.shared || old(parkPending))
      ensures parkDueUs == if board.shared then (nowUs + PARK_DELAY_US) % WORD else old(parkDueUs)
    {
      if board.shared {
        parkDueUs, parkPending := (nowUs + PARK_DELAY_US) % WORD, true;
      }
    }

    /** The pixel waits behind a reset, replaces the one waiting, or goes. */
    method HandOver(pixel: nat, nowUs: nat)
      requires Handed(sent, requested, writePending, pendingPixel)
      modifies this`pendingPixel, this`writeDueUs, this`writePending, this`resetOwed, this`parkDueUs
      modifies this`sent, this`requested
      ensures Handed(sent, requested, writePending, pendingPixel) && requested == old(requested) + [pixel]
      ensures var waits := old(resetOwed) || (board.shared && parkedHigh);
        && writePending == (waits || old(writePending)) && !resetOwed
        && writeDueUs == (if waits then (nowUs + RESET_DELAY_US) % WORD else old(writeDueUs))
        && parkDueUs == (if waits then (writeDueUs + PARK_DELAY_US) % WORD else old(parkDueUs))
      ensures pendingPixel == if writePending then pixel else old(pendingPixel)
      ensures sent == if writePending then old(sent) else old(sent) + [pixel]
    {
      hide Handed;
      HandedNext(sent, requested, writePending, pendingPixel, pixel);
      requested := requested + [pixel];
      if resetOwed || (board.shared && parkedHigh) {
        pendingPixel := pixel;
        writeDueUs := (nowUs + RESET_DELAY_US) % WORD;
        writePending, resetOwed := true, false;
        parkDueUs := (writeDueUs + PARK_DELAY_US) % WORD;
      } else if writePending {
        pendingPixel := pixel;
      } else {
        sent := sent + [pixel];
      }
    }

    /** led_show */
    method Show(led: nat, lit: bool, nowUs: nat)
      requires Valid() && led < LED_COUNT && (led == RGB ==> board.hasRgb)
      modifies this
      ensures Valid() && channels == old(channels)[led := old(channels[led]).(lit := lit)]
      ensures old(sent) <= sent
      ensures led == STATUS ==> statusLedEnabled == lit && requested == old(requested)
      ensures led == RGB ==> statusLedEnabled == old(statusLedEnabled)
                             && requested == old(requested) + [ShownPixel(channels[RGB])]
      ensures parkedHigh == old(parkedHigh) && parkPending == (old(parkPending) || (led == RGB && board.shared))
    {
      channels := channels[led := channels[led].(lit := lit)];
      if led == RGB {
        RgbWrite(ShownPixel(channels[RGB]), nowUs);
      } else {
        statusLedEnabled := lit;
      }
    }

    /** pio_led_set */
    method Set(req: Request, nowMs: nat, nowUs: nat) returns (r: Result)
      requires Valid()
      modifies this
      ensures Valid() && r == Verdict(req, board)
      ensures r != Ok ==> channels == old(channels) && requested == old(requested) && sent == old(sent)
      ensures r == Ok ==> req.led < LED_COUNT
                          && channels == old(channels)[req.led := Requested(old(channels[req.led]), req, nowMs)]
      ensures r == Ok && req.led == RGB ==> requested == old(requested) + [ShownPixel(channels[RGB])]
      ensures r == Ok && req.led == STATUS ==> requested == old(requested) && statusLedEnabled == (req.mode != OFF)
    {
      hide Pixel, LookOf, FrameInterval, Handed;
      r := Verdict(req, board);
      if r != Ok {
        return;
      }
      LookMode(req);
      var ch := channels[req.led];
      var holdMs := req.holdMs;
      if req.mode == BEACON && holdMs == 0 {
        holdMs := BEACON_DURATION_MS;
      }
      var hold := holdMs != 0;
      var bounded := hold || req.mode == BEACON;
      var alreadyBounded := ch.holdExpiry != 0 || ch.shown.mode == BEACON;
      if bounded && !alreadyBounded {
        ch := ch.(saved := ch.shown);
      }
      ch := ch.(shown := LookOf(req), step := 0);
      if hold {
        ch := ch.(holdExpiry := (nowMs + holdMs) % WORD);
        if ch.holdExpiry == 0 {
          ch := ch.(holdExpiry := 1);
        }
      }
      channels := channels[req.led := ch];
      Show(req.led, req.mode != OFF, nowUs);
      if Repeats(req.mode) {
        channels := channels[req.led := channels[req.led].(nextFrame := (nowMs + FrameInterval(ch.shown)) % WORD)];
      }
    }

    /** led_restore */
    method Restore(led: nat, restoreMs: nat, nowUs: nat)
      requires Valid() && led < LED_COUNT && (led == RGB ==> board.hasRgb)
      modifies this
      ensures Valid() && channels == old(channels)[led := Restored(old(channels[led]), restoreMs)]
      ensures old(sent) <= sent
      ensures requested == old(requested) + if led == RGB then [ShownPixel(channels[RGB])] else []
      ensures statusLedEnabled == if led == STATUS then channels[STATUS].lit else old(statusLedEnabled)
      ensures parkedHigh == old(parkedHigh) && parkPending == (old(parkPending) || (led == RGB && board.shared))
    {
      hide Pixel, Handed;
      var ch := channels[led];
      ch := ch.(shown := ch.saved, step := 0, holdExpiry := 0);
      channels := channels[led := ch];
      Show(led, ch.shown.mode != OFF, nowUs);
      if Repeats(ch.shown.mode) {
        channels := channels[led := channels[led].(nextFrame := restoreMs)];
      }
    }

    /** led_advance, once its deadline has come */
    method Advance(led: nat, nowMs: nat, nowUs: nat)
      requires Valid() && led < LED_COUNT && (led == RGB ==> board.hasRgb)
      requires Repeats(channels[led].shown.mode) && (NeedsColour(channels[led].shown.mode) ==> led == RGB)
      modifies this
      ensures Valid() && channels == old(channels)[led := Advanced(old(channels[led]), nowMs)]
      ensures old(sent) <= sent
      ensures requested == old(requested) + if led == RGB && Due(nowMs, old(channels[led]).nextFrame)
                                            then [FramePixel(channels[RGB])] else []
      ensures statusLedEnabled == if led == STATUS && Due(nowMs, old(channels[led]).nextFrame)
                                  then channels[STATUS].lit else old(statusLedEnabled)
      ensures parkedHigh == old(parkedHigh)
      ensures parkPending == (old(parkPending)
                              || (led == RGB && board.shared && Due(nowMs, old(channels[led]).nextFrame)))
    {
      hide Pixel, Handed, BreatheLevel, FrameInterval, Due;
      var ch := channels[led];
      if !Due(nowMs, ch.nextFrame) {
        return;
      }
      var next := Advanced(ch, nowMs);
      if NeedsColour(ch.shown.mode) {
        channels := channels[led := next];
        RgbWrite(FramePixel(next), nowUs);
      } else {
        channels := channels[led := next.(lit := ch.lit)];
        Show(led, next.lit, nowUs);
      }
    }

    /** led_park: the status LED gets a shared pin back, at the level it is meant to be at. */
    method Park()
      requires Valid()
      modifies this
      ensures Valid() && !parkPending && channels == old(channels)
      ensures sent == old(sent) && requested == old(requested) && statusLedEnabled == old(statusLedEnabled)
      ensures parkedHigh == if board.shared then !statusLedEnabled else old(parkedHigh)
    {
      parkPending := false;
      if board.shared {
        parkedHigh := !statusLedEnabled;
      }
    }

    /** pio_led_frame: a pixel whose wait is over goes first, then each channel is
        restored or advanced. */
    method Frame(nowMs: nat, restoreMs: nat, nowUs: nat)
      requires Valid()
      modifies this
      ensures Valid()
      ensures channels == [Framed(old(channels[STATUS]), nowMs, restoreMs),
                           Framed(old(channels[RGB]), nowMs, restoreMs)]
      ensures old(sent) + (if old(writePending) && Due(nowUs, old(writeDueUs)) then [old(pendingPixel)] else []) <= sent
      ensures requested == old(requested) + FrameAsks(old(channels[RGB]), nowMs, channels[RGB])
      ensures statusLedEnabled == if Driven(old(channels[STATUS]), nowMs) then channels[STATUS].lit
                                  else old(statusLedEnabled)
      ensures var parks := old(parkPending) && Due(nowUs, old(parkDueUs));
        && parkedHigh == (if parks && board.shared then !old(statusLedEnabled) else old(parkedHigh))
        && parkPending == ((old(parkPending) && !parks) || (board.shared && Driven(old(channels[RGB]), nowMs)))
    {
      hide Handed, Due, Framed, Ends, BLANK, FrameAsks, Driven;
      if writePending && Due(nowUs, writeDueUs) {
        HandedNext(sent, requested, writePending, pendingPixel, 0);
        writePending := false;
        sent := sent + [pendingPixel];
      }
      if parkPending && Due(nowUs, parkDueUs) {
        Park();
      }
      FrameChannel(STATUS, nowMs, restoreMs, nowUs);
      FrameChannel(RGB, nowMs, restoreMs, nowUs);
    }

    /** One turn of the frame's loop. */
    method FrameChannel(led: nat, nowMs: nat, restoreMs: nat, nowUs: nat)
      requires Valid() && led < LED_COUNT
      modifies this
      ensures Valid() && channels == old(channels)[led := Framed(old(channels[led]), nowMs, restoreMs)]
      ensures old(sent) <= sent
      ensures requested == old(requested)
                           + if led == RGB then FrameAsks(old(channels[RGB]), nowMs, channels[RGB]) else []
      ensures statusLedEnabled == if led == STATUS && Driven(old(channels[STATUS]), nowMs) then channels[STATUS].lit
                                  else old(statusLedEnabled)
      ensures parkedHigh == old(parkedHigh)
      ensures parkPending == (old(parkPending) || (led == RGB && board.shared && Driven(old(channels[RGB]), nowMs)))
    {
      hide Handed, Due, Pixel, FramePixel, ShownPixel;
      var ch := channels[led];
      if ch.holdExpiry != 0 && Due(nowMs, ch.holdExpiry) {
        Restore(led, restoreMs, nowUs);
      } else if Repeats(ch.shown.mode) {
        Advance(led, nowMs, nowUs);
      }
    }
  }
}
