/** The kernel module: its own cache of every LED, kept without invalidation. */
module Kmod {
  import opened Types
  import opened WireFormat
  import opened Mcu
  import Cli
  import Cached = LedController

  const STATE_OFF: byte := 0
  const STATE_ON: byte := 1
  const STATE_BLINK: byte := 2
  const STATE_BREATH: byte := 3

  datatype LedState = LedState(status: byte, color: Rgb, brightness: byte, tOn: u16, tCycle: u16)

  /** Everything the module remembers of an LED is what the device holds. */
  ghost predicate Agrees(st: LedState, led: Led) {
    && st.status == Cli.ModeCode(led.mode) && st.color == led.color && st.brightness == led.brightness
    && st.tOn == led.onTime && st.tCycle == led.cycle
  }

  /** `get_state` on the raw answer. */
  function Probed(raw: seq<byte>): Option<LedState> {
    if |raw| != 11 || !VerifyChecksum(raw) then None
    else Some(LedState(raw[0], Rgb(raw[2], raw[3], raw[4]), raw[1], Word(raw[7], raw[8]), Word(raw[5], raw[6])))
  }

  /** Probing learns the whole LED state, except that a blank LED is not found. */
  lemma ProbeLearns(led: Led)
    ensures Probed(Cli.StatusBlock(led)).None? <==> Cli.Blank(led)
    ensures !Cli.Blank(led) ==> Agrees(Probed(Cli.StatusBlock(led)).value, led)
  {
    Cli.StatusBlockVerifies(led);
  }

  // ----- one LED and the bus -----

  datatype View = View(st: LedState, bus: Bus)

  /** Five attempts with the module's own frame; true when one is acknowledged. */
  function Robust(bus: Bus, id: byte, command: byte, p: Params): (r: (Bus, bool))
    ensures |r.0.leds| == |bus.leds|
  {
    var (b, s) := Send(bus, id, KmodFrame(id, command, p), RETRY_COUNT, IoError);
    (b, s == Ok)
  }

  function TurnedOnOrOff(v: View, id: byte, on: bool): View {
    var wanted := if on then STATE_ON else STATE_OFF;
    if v.st.status == wanted then v
    else
      var (bus, ok) := Robust(v.bus, id, 0x03, Params(if on then 1 else 0, 0, 0, 0));
      View(if ok then v.st.(status := wanted) else v.st, bus)
  }

  function BrightnessSet(v: View, id: byte, level: byte): View {
    if level == 0 then TurnedOnOrOff(v, id, false)
    else
      var v1 :=
        if v.st.brightness == level then v
        else
          var (bus, ok) := Robust(v.bus, id, 0x01, Params(level, 0, 0, 0));
          View(if ok then v.st.(brightness := level) else v.st, bus);
      if v1.st.status == STATE_OFF then TurnedOnOrOff(v1, id, true) else v1
  }

  function ColorSet(v: View, id: byte, color: Rgb): View {
    if color == Rgb(0, 0, 0) then TurnedOnOrOff(v, id, false)
    else if v.st.color == color then v
    else
      var (bus, ok) := Robust(v.bus, id, 0x02, Params(color.r, color.g, color.b, 0));
      View(if ok then v.st.(color := color) else v.st, bus)
  }

  function BlinkOrBreathSet(v: View, id: byte, tOn: u16, tCycle: u16, isBlink: bool): View {
    var wanted := if isBlink then STATE_BLINK else STATE_BREATH;
    if v.st.tOn == tOn && v.st.tCycle == tCycle && v.st.status == wanted then v
    else
      var (bus, ok) := Robust(v.bus, id, if isBlink then 0x04 else 0x05, Timing(tCycle, tOn));
      View(if ok then v.st.(tOn := tOn, tCycle := tCycle, status := wanted) else v.st, bus)
  }

  // ----- what a failed command does to the cache -----

  /** A single command: either it was acknowledged, and cache and device both
      changed, or the cache stands and the device may have moved. */
  lemma RobustEffect(bus: Bus, id: byte, c: Command)
    requires bus.Valid() && id < LED_COUNT
    ensures var (b, ok) := Robust(bus, id, Code(c), Args(c));
            && AtMost(bus, b, id, c)
            && (ok ==> b.leds[id] == Execute(bus.leds[id], c))
            && (bus.Healthy() ==> ok && b.Healthy())
  {
    FramesAgree(id, Code(c), Args(c));
    DecodeFrame(id, c);
    SendEffect(bus, id, FrameFor(id, c), c, RETRY_COUNT, IoError);
    if bus.Healthy() {
      SendHealthy(bus, id, FrameFor(id, c), c, RETRY_COUNT, IoError);
    }
  }

  ghost predicate InSync(v: View, id: byte) {
    v.bus.Valid() && id < LED_COUNT && Agrees(v.st, v.bus.leds[id])
  }

  datatype Request =
    | OnOff(on: bool)
    | Brightness(level: byte)
    | Color(color: Rgb)
    | Flash(tOn: u16, tCycle: u16, isBlink: bool)

  function Handled(v: View, id: byte, r: Request): View {
    match r
    case OnOff(on) => TurnedOnOrOff(v, id, on)
    case Brightness(level) => BrightnessSet(v, id, level)
    case Color(color) => ColorSet(v, id, color)
    case Flash(tOn, tCycle, isBlink) => BlinkOrBreathSet(v, id, tOn, tCycle, isBlink)
  }

  /** The state a request asks for, by what the module promises to sysfs. */
  function Target(led: Led, r: Request): Led {
    match r
    case OnOff(on) => led.(mode := if on then On else Off)
    case Brightness(level) =>
      if level == 0 then led.(mode := Off)
      else led.(brightness := level, mode := if led.mode == Off then On else led.mode)
    case Color(color) => if color == Rgb(0, 0, 0) then led.(mode := Off) else led.(color := color)
    case Flash(tOn, tCycle, isBlink) =>
      led.(mode := if isBlink then Blink else Breath, onTime := tOn, cycle := tCycle)
  }

  /** On a healthy bus the skipping cache is invisible: every request brings the
      device to exactly its target and the cache along with it. */
  lemma HealthyRequest(v: View, id: byte, r: Request)
    requires InSync(v, id) && v.bus.Healthy()
    ensures var v1 := Handled(v, id, r);
            InSync(v1, id) && v1.bus.Healthy() && v1.bus.leds == v.bus.leds[id := Target(v.bus.leds[id], r)]
  {
    hide Robust;
    var led := v.bus.leds[id];
    match r
    case OnOff(on) =>
      RobustEffect(v.bus, id, CmdOn(on));
    case Brightness(level) =>
      RobustEffect(v.bus, id, CmdOn(false));
      RobustEffect(v.bus, id, CmdBrightness(level));
      RobustEffect(v.bus, id, CmdOn(true));
      RobustEffect(Robust(v.bus, id, 0x01, Params(level, 0, 0, 0)).0, id, CmdOn(true));
    case Color(color) =>
      RobustEffect(v.bus, id, CmdOn(false));
      RobustEffect(v.bus, id, CmdColor(color));
    case Flash(tOn, tCycle, isBlink) =>
      RobustEffect(v.bus, id, if isBlink then CmdBlink(tCycle, tOn) else CmdBreath(tCycle, tOn));
  }

  /** A run of requests on a healthy bus ends where writing every request
      through would. */
  function HandledAll(v: View, id: byte, rs: seq<Request>): View {
    if rs == [] then v else Handled(HandledAll(v, id, rs[..|rs| - 1]), id, rs[|rs| - 1])
  }

  function TargetAll(led: Led, rs: seq<Request>): Led {
    if rs == [] then led else Target(TargetAll(led, rs[..|rs| - 1]), rs[|rs| - 1])
  }

  lemma {:induction false} HealthyRun(v: View, id: byte, rs: seq<Request>)
    requires InSync(v, id) && v.bus.Healthy()
    ensures var v1 := HandledAll(v, id, rs);
            && InSync(v1, id) && v1.bus.Healthy()
            && v1.bus.leds == v.bus.leds[id := TargetAll(v.bus.leds[id], rs)]
  {
    if rs != [] {
      HealthyRun(v, id, rs[..|rs| - 1]);
      HealthyRequest(HandledAll(v, id, rs[..|rs| - 1]), id, rs[|rs| - 1]);
    }
  }

  /** The cached state already is what a request asks for. */
  predicate AlreadySo(st: LedState, r: Request) {
    match r
    case OnOff(on) => st.status == if on then STATE_ON else STATE_OFF
    case Brightness(level) =>
      if level == 0 then st.status == STATE_OFF else st.brightness == level && st.status != STATE_OFF
    case Color(color) => if color == Rgb(0, 0, 0) then st.status == STATE_OFF else st.color == color
    case Flash(tOn, tCycle, isBlink) =>
      st.tOn == tOn && st.tCycle == tCycle && st.status == if isBlink then STATE_BLINK else STATE_BREATH
  }

  /** A request sends nothing, and changes nothing, exactly when the cached state
      already is what it asks for. */
  lemma SkipsIff(v: View, id: byte, r: Request)
    requires v.bus.Valid() && id < LED_COUNT
    ensures Handled(v, id, r).bus.sent == v.bus.sent <==> AlreadySo(v.st, r)
    ensures AlreadySo(v.st, r) ==> Handled(v, id, r) == v
  {
    hide Robust;
    match r
    case OnOff(on) => RobustSends(v.bus, id, CmdOn(on));
    case Brightness(level) =>
      RobustSends(v.bus, id, CmdOn(false));
      RobustSends(v.bus, id, CmdOn(true));
      RobustSends(v.bus, id, CmdBrightness(level));
      RobustSends(Robust(v.bus, id, 0x01, Params(level, 0, 0, 0)).0, id, CmdOn(true));
    case Color(color) =>
      RobustSends(v.bus, id, CmdOn(false));
      RobustSends(v.bus, id, CmdColor(color));
    case Flash(tOn, tCycle, isBlink) =>
      RobustSends(v.bus, id, if isBlink then CmdBlink(tCycle, tOn) else CmdBreath(tCycle, tOn));
  }

  lemma RobustSends(bus: Bus, id: byte, c: Command)
    requires bus.Valid() && id < LED_COUNT
    ensures var b := Robust(bus, id, Code(c), Args(c)).0; b.Valid() && bus.sent < b.sent
  {
    FramesAgree(id, Code(c), Args(c));
    DecodeFrame(id, c);
    SendEffect(bus, id, FrameFor(id, c), c, RETRY_COUNT, IoError);
  }

  /** How one command ends, told from the bus outcomes ahead of it. */
  lemma RobustOutcome(bus: Bus, id: byte, c: Command)
    requires bus.Valid() && id < LED_COUNT
    ensures var (b, ok) := Robust(bus, id, Code(c), Args(c));
            && (ok <==> Acknowledged(bus.faults, RETRY_COUNT))
            && (ok ==> Reached(bus.faults, RETRY_COUNT))
            && b.faults == Rest(bus.faults, RETRY_COUNT)
            && b.leds == if Reached(bus.faults, RETRY_COUNT)
                         then bus.leds[id := Execute(bus.leds[id], c)] else bus.leds
  {
    FramesAgree(id, Code(c), Args(c));
    DecodeFrame(id, c);
    SendOutcome(bus, id, FrameFor(id, c), c, RETRY_COUNT, IoError);
  }

  /** A command leaves cache and device in step when one attempt is acknowledged
      or none is applied. */
  predicate Clear(faults: seq<Outcome>) {
    Acknowledged(faults, RETRY_COUNT) || !Reached(faults, RETRY_COUNT)
  }

  /** Told before the call, from the cached state and the bus outcomes ahead:
      every command the request is going to send is clear. */
  predicate Safe(st: LedState, r: Request, faults: seq<Outcome>) {
    match r
    case OnOff(on) => st.status == (if on then STATE_ON else STATE_OFF) || Clear(faults)
    case Brightness(level) =>
      if level == 0 then st.status == STATE_OFF || Clear(faults)
      else
        && (st.brightness == level || Clear(faults))
        && (st.status != STATE_OFF ||
            Clear(if st.brightness == level then faults else Rest(faults, RETRY_COUNT)))
    case Color(color) =>
      if color == Rgb(0, 0, 0) then st.status == STATE_OFF || Clear(faults)
      else st.color == color || Clear(faults)
    case Flash(tOn, tCycle, isBlink) =>
      || (st.tOn == tOn && st.tCycle == tCycle && st.status == if isBlink then STATE_BLINK else STATE_BREATH)
      || Clear(faults)
  }

  /** Exactly when a request leaves the cache in agreement with the device: the
      module keeps the old cached value of a failed command, so a command that
      was applied but never acknowledged puts it out of step. */
  lemma RequestStaysInSync(v: View, id: byte, r: Request)
    requires InSync(v, id)
    ensures InSync(Handled(v, id, r), id) <==> Safe(v.st, r, v.bus.faults)
  {
    hide Robust, Acknowledged, Reached, Rest;
    match r
    case OnOff(on) =>
      RobustOutcome(v.bus, id, CmdOn(on));
    case Brightness(level) =>
      if level == 0 {
        RobustOutcome(v.bus, id, CmdOn(false));
      } else {
        BrightnessStaysInSync(v, id, level);
      }
    case Color(color) =>
      RobustOutcome(v.bus, id, CmdOn(false));
      RobustOutcome(v.bus, id, CmdColor(color));
    case Flash(tOn, tCycle, isBlink) =>
      RobustOutcome(v.bus, id, if isBlink then CmdBlink(tCycle, tOn) else CmdBreath(tCycle, tOn));
  }

  lemma BrightnessStaysInSync(v: View, id: byte, level: byte)
    requires InSync(v, id) && level != 0
    ensures InSync(BrightnessSet(v, id, level), id) <==> Safe(v.st, Brightness(level), v.bus.faults)
  {
    hide Robust, Acknowledged, Reached, Rest;
    RobustOutcome(v.bus, id, CmdBrightness(level));
    RobustOutcome(v.bus, id, CmdOn(true));
    RobustOutcome(Robust(v.bus, id, 0x01, Params(level, 0, 0, 0)).0, id, CmdOn(true));
  }

  /** Five attempts, each applied, none acknowledged. */
  const UNHEARD := [AckFails(false), AckFails(false), AckFails(false), AckFails(false), AckFails(false)]

  lemma UnheardSend(bus: Bus, id: byte, c: Command)
    requires bus.Valid() && id < LED_COUNT && bus.faults == UNHEARD
    ensures var (b, s) := Send(bus, id, FrameFor(id, c), RETRY_COUNT, IoError);
            && s == IoError && b.Healthy() && b.Valid()
            && b.leds == bus.leds[id := Execute(bus.leds[id], c)]
  {
    DecodeFrame(id, c);
    UnheardRounds(bus, id, FrameFor(id, c), c, 5);
  }

  lemma {:induction false} UnheardRounds(bus: Bus, id: byte, frame: seq<byte>, c: Command, n: nat)
    requires bus.Valid() && id < LED_COUNT && Asks(frame, id, c)
    requires |bus.faults| == n && forall k :: 0 <= k < n ==> bus.faults[k] == AckFails(false)
    ensures var (b, s) := Send(bus, id, frame, n, IoError);
            && s == IoError && b.Healthy() && b.Valid()
            && b.leds == if n == 0 then bus.leds else bus.leds[id := Execute(bus.leds[id], c)]
    decreases n
  {
    if n > 0 {
      var b1 := Write(bus, id, frame).0;
      ExecuteTwice(bus.leds[id], c);
      UnheardRounds(b1, id, frame, c, n - 1);
    }
  }

  /** The module keeps its old value when a command fails, so a command that was
      applied but not acknowledged breaks it: asked to turn a lit LED off and
      then on again it sends nothing the second time and leaves the LED dark on
      a bus that works again. The daemon's controller, which forgets the entry,
      repairs the same history. */
  lemma UnheardCommandStrandsModule(bus: Bus, id: byte, st: LedState, cache: seq<Cached.LedCache>)
    requires bus.Valid() && id < LED_COUNT && bus.faults == UNHEARD
    requires bus.leds[id].mode == On && Agrees(st, bus.leds[id])
    requires |cache| == LED_COUNT && cache[id].mode == Cached.ModeOn
    ensures var v1 := TurnedOnOrOff(View(st, bus), id, false);
            var v2 := TurnedOnOrOff(v1, id, true);
            && v1.bus.leds[id].mode == Off && v1.st.status == STATE_ON
            && v1.bus.Healthy() && v2 == v1
    ensures var c1 := Cached.OnSet(Cached.Controller(cache, bus), id, false).0;
            var (c2, e) := Cached.OnSet(c1, id, true);
            e == Ok && c2.bus.leds[id].mode == On
  {
    UnheardModule(bus, id, st);
    UnheardDaemon(bus, id, cache);
  }

  lemma UnheardModule(bus: Bus, id: byte, st: LedState)
    requires bus.Valid() && id < LED_COUNT && bus.faults == UNHEARD
    requires bus.leds[id].mode == On && Agrees(st, bus.leds[id])
    ensures var v1 := TurnedOnOrOff(View(st, bus), id, false);
            && v1.bus.leds[id].mode == Off && v1.st == st && v1.bus.Healthy()
            && TurnedOnOrOff(v1, id, true) == v1
  {
    hide Send;
    UnheardSend(bus, id, CmdOn(false));
    FramesAgree(id, Code(CmdOn(false)), Args(CmdOn(false)));
  }

  lemma UnheardDaemon(bus: Bus, id: byte, cache: seq<Cached.LedCache>)
    requires bus.Valid() && id < LED_COUNT && bus.faults == UNHEARD
    requires |cache| == LED_COUNT && cache[id].mode == Cached.ModeOn
    ensures var c1 := Cached.OnSet(Cached.Controller(cache, bus), id, false).0;
            var (c2, e) := Cached.OnSet(c1, id, true);
            e == Ok && c2.bus.leds[id].mode == On
  {
    hide Send;
    UnheardSend(bus, id, CmdOn(false));
    var c1 := Cached.OnSet(Cached.Controller(cache, bus), id, false).0;
    assert c1.cache[id] == Cached.EMPTY_CACHE;
    Cached.OnEnds(c1, id, true);
  }

  // ----- blink delays -----

  /** `truncate_blink_delay_time` */
  function Clamp(delay: nat): nat {
    if delay < 100 then 100 else if delay > 0x7fff then 0x7fff else delay
  }

  function Distance(a: int, b: int): nat {
    if a < b then b - a else a - b
  }

  /** Clamping gives the nearest delay the module supports. */
  lemma ClampIsNearest(delay: nat, x: nat)
    requires 100 <= x <= 0x7fff
    ensures 100 <= Clamp(delay) <= 0x7fff
    ensures Distance(Clamp(delay), delay) <= Distance(x, delay)
  {
  }

  /** `ugreen_led_set_blink`: the new view, the delays written back, and whether
      it returns 0. */
  function BlinkApi(v: View, id: byte, delayOn: nat, delayOff: nat): (View, int, int, bool) {
    var on, off := Clamp(delayOn), Clamp(delayOff);
    var v1 := BlinkOrBreathSet(v, id, on % 0x1_0000, (on + off) % 0x1_0000, true);
    (v1, v1.st.tOn as int, v1.st.tCycle as int - v1.st.tOn as int, v1.st.status == STATE_BLINK)
  }

  /** The LED already blinks with the clamped delays, as far as the cache says. */
  predicate Blinks(st: LedState, delayOn: nat, delayOff: nat) {
    && st.status == STATE_BLINK
    && st.tOn as int == Clamp(delayOn) && st.tCycle as int == Clamp(delayOn) + Clamp(delayOff)
  }

  /** The clamp keeps every cycle inside 16 bits, and the call reports 0 together
      with the clamped delays exactly when the LED already blinks that way or one
      of five attempts is acknowledged; then the device has them. */
  lemma BlinkReportsWhatWasSent(v: View, id: byte, delayOn: nat, delayOff: nat)
    requires InSync(v, id)
    ensures var on, off := Clamp(delayOn), Clamp(delayOff);
            var (v1, rOn, rOff, ok) := BlinkApi(v, id, delayOn, delayOff);
            var led := v1.bus.leds[id];
            var sent := Blinks(v.st, delayOn, delayOff) || Acknowledged(v.bus.faults, RETRY_COUNT);
            && 200 <= on + off <= U16_MAX
            && ((ok && rOn == on && rOff == off) <==> sent)
            && (sent ==> led.mode == Blink && led.onTime == on && led.cycle == on + off)
  {
    hide Robust, Timing, AtMost, Acknowledged, Reached, Rest;
    var on, off := Clamp(delayOn), Clamp(delayOff);
    assert on % 0x1_0000 == on && (on + off) % 0x1_0000 == on + off;
    var c := CmdBlink(on + off, on);
    RobustEffect(v.bus, id, c);
    RobustOutcome(v.bus, id, c);
    assert Args(c) == Timing(on + off, on);
  }

  /** The promise that 0 means the reported delays were sent. The call keeps it
      exactly when the LED already blinks that way, does not blink at all, or one
      of five attempts is acknowledged. */
  ghost predicate ZeroMeansSent(v: View, id: byte, delayOn: nat, delayOff: nat) {
    var (_, rOn, rOff, ok) := BlinkApi(v, id, delayOn, delayOff);
    ok ==> rOn == Clamp(delayOn) && rOff == Clamp(delayOff)
  }

  lemma ZeroMeansSentIff(v: View, id: byte, delayOn: nat, delayOff: nat)
    requires v.bus.Valid() && id < LED_COUNT
    ensures ZeroMeansSent(v, id, delayOn, delayOff) <==>
              || Blinks(v.st, delayOn, delayOff) || v.st.status != STATE_BLINK
              || Acknowledged(v.bus.faults, RETRY_COUNT)
  {
    hide Robust, Timing, Acknowledged, Reached, Rest;
    var on, off := Clamp(delayOn), Clamp(delayOff);
    assert on % 0x1_0000 == on && (on + off) % 0x1_0000 == on + off;
    RobustOutcome(v.bus, id, CmdBlink(on + off, on));
    assert Args(CmdBlink(on + off, on)) == Timing(on + off, on);
  }

  /** What a caller can rely on: 0 is trustworthy whatever the bus does exactly
      when the LED does not blink yet or blinks that way already. */
  lemma ZeroTrustworthyIff(v: View, id: byte, delayOn: nat, delayOff: nat)
    requires v.bus.Valid() && id < LED_COUNT
    ensures (forall faults :: ZeroMeansSent(v.(bus := v.bus.(faults := faults)), id, delayOn, delayOff)) <==>
              Blinks(v.st, delayOn, delayOff) || v.st.status != STATE_BLINK
  {
    hide ZeroMeansSent;
    forall faults {
      ZeroMeansSentIff(v.(bus := v.bus.(faults := faults)), id, delayOn, delayOff);
    }
    assert !Acknowledged(UNHEARD, RETRY_COUNT);
    assert ZeroMeansSent(v.(bus := v.bus.(faults := UNHEARD)), id, delayOn, delayOff) <==>
             Blinks(v.st, delayOn, delayOff) || v.st.status != STATE_BLINK;
  }

  /** When the promise fails, the call returns 0 with the old delays. */
  lemma ZeroWithoutEffect(v: View, id: byte, delayOn: nat, delayOff: nat)
    requires v.bus.Valid() && id < LED_COUNT && !ZeroMeansSent(v, id, delayOn, delayOff)
    ensures var (v1, rOn, rOff, ok) := BlinkApi(v, id, delayOn, delayOff);
            ok && v1.st == v.st && rOn == v.st.tOn as int && rOff == v.st.tCycle as int - v.st.tOn as int
  {
    hide Robust, Timing;
    var on, off := Clamp(delayOn), Clamp(delayOff);
    assert on % 0x1_0000 == on && (on + off) % 0x1_0000 == on + off;
  }

  // ----- the module in place -----

  class UgreenLedArray {
    const client: Device
    const state: array<LedState>

    constructor (client: Device, initial: seq<LedState>)
      requires |initial| == LED_COUNT
      ensures this.client == client && fresh(state) && state[..] == initial
    {
      this.client := client;
      this.state := new LedState[LED_COUNT](i requires 0 <= i < LED_COUNT => initial[i]);
    }

    function At(id: byte): View
      requires id < state.Length
      reads state, client
    {
      View(state[id], client.bus)
    }

    method ChangeStateRobust(id: byte, command: byte, p: Params) returns (ok: bool)
      modifies client
      ensures (client.bus, ok) == Robust(old(client.bus), id, command, p)
    {
      ghost var error := IoError;
      var frame := KmodFrame(id, command, p);
      for attempt := 0 to RETRY_COUNT
        invariant error != Ok
        invariant Send(old(client.bus), id, frame, RETRY_COUNT, IoError) ==
                  Send(client.bus, id, frame, RETRY_COUNT - attempt, error)
      {
        var written := client.WriteBlock(id, frame);
        if written {
          var ack := client.ReadAck();
          if ack == Some(1) {
            return true;
          }
          error := if ack.None? then IoError else Refused;
        } else {
          error := IoError;
        }
      }
      ok := false;
    }

    method TurnOnOrOff(id: byte, on: bool)
      requires id < state.Length
      modifies state, client
      ensures At(id) == TurnedOnOrOff(old(At(id)), id, on)
      ensures forall j :: 0 <= j < state.Length && j != id ==> state[j] == old(state[j])
    {
      hide Robust;
      var wanted := if on then STATE_ON else STATE_OFF;
      if state[id].status == wanted {
        return;
      }
      var ok := ChangeStateRobust(id, 0x03, Params(if on then 1 else 0, 0, 0, 0));
      if ok {
        state[id] := state[id].(status := wanted);
      }
    }

    method SetBrightness(id: byte, level: byte)
      requires id < state.Length
      modifies state, client
      ensures At(id) == BrightnessSet(old(At(id)), id, level)
      ensures forall j :: 0 <= j < state.Length && j != id ==> state[j] == old(state[j])
    {
      hide Robust, TurnedOnOrOff;
      if level == 0 {
        TurnOnOrOff(id, false);
      } else {
        if state[id].brightness != level {
          var ok := ChangeStateRobust(id, 0x01, Params(level, 0, 0, 0));
          if ok {
            state[id] := state[id].(brightness := level);
          }
        }
        if state[id].status == STATE_OFF {
          TurnOnOrOff(id, true);
        }
      }
    }

    method SetColor(id: byte, color: Rgb)
      requires id < state.Length
      modifies state, client
      ensures At(id) == ColorSet(old(At(id)), id, color)
      ensures forall j :: 0 <= j < state.Length && j != id ==> state[j] == old(state[j])
    {
      hide Robust, TurnedOnOrOff;
      if color == Rgb(0, 0, 0) {
        TurnOnOrOff(id, false);
        return;
      }
      if state[id].color != color {
        var ok := ChangeStateRobust(id, 0x02, Params(color.r, color.g, color.b, 0));
        if ok {
          state[id] := state[id].(color := color);
        }
      }
    }

    method SetBlinkOrBreath(id: byte, tOn: u16, tCycle: u16, isBlink: bool)
      requires id < state.Length
      modifies state, client
      ensures At(id) == BlinkOrBreathSet(old(At(id)), id, tOn, tCycle, isBlink)
      ensures forall j :: 0 <= j < state.Length && j != id ==> state[j] == old(state[j])
    {
      hide Robust;
      var wanted := if isBlink then STATE_BLINK else STATE_BREATH;
      if state[id].tOn == tOn && state[id].tCycle == tCycle && state[id].status == wanted {
        return;
      }
      var ok := ChangeStateRobust(id, if isBlink then 0x04 else 0x05, Timing(tCycle, tOn));
      if ok {
        state[id] := state[id].(tOn := tOn, tCycle := tCycle, status := wanted);
      }
    }

    /** Delays are clamped in place and replaced by the cached ones. */
    method SetBlink(id: byte, delayOn: nat, delayOff: nat) returns (rOn: int, rOff: int, ok: bool)
      requires id < state.Length
      modifies state, client
      ensures (At(id), rOn, rOff, ok) == BlinkApi(old(At(id)), id, delayOn, delayOff)
      ensures forall j :: 0 <= j < state.Length && j != id ==> state[j] == old(state[j])
    {
      hide BlinkOrBreathSet;
      var on, off := Clamp(delayOn), Clamp(delayOff);
      SetBlinkOrBreath(id, on % 0x1_0000, (on + off) % 0x1_0000, true);
      rOn := state[id].tOn;
      rOff := state[id].tCycle as int - state[id].tOn as int;
      ok := state[id].status == STATE_BLINK;
    }
  }
}
