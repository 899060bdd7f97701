/** The daemon's cached LED controller. The functions say what each call does to
    the pair (cache, bus); the class does it in place and is proved to match. */
module LedController {
  import opened Types
  import opened WireFormat
  import opened Mcu

  datatype LedMode = ModeUnknown | ModeOff | ModeOn | ModeBlink | ModeBreath

  datatype LedCache = LedCache(colorValid: bool, brightnessValid: bool, color: Rgb,
                               brightness: byte, mode: LedMode, onMs: u16, offMs: u16)

  const EMPTY_CACHE := LedCache(false, false, Rgb(0, 0, 0), 0, ModeUnknown, 0, 0)

  datatype Controller = Controller(cache: seq<LedCache>, bus: Bus) {
    predicate Valid() {
      |cache| == LED_COUNT && bus.Valid()
    }
  }

  /** The state after `open`: nothing is cached. */
  function Opened(bus: Bus): Controller {
    Controller(seq(LED_COUNT, _ => EMPTY_CACHE), bus)
  }

  // ----- the calls -----

  function Invalidated(c: Controller, led: byte): (r: Controller)
    requires c.Valid()
    ensures r.Valid()
  {
    if led >= LED_COUNT then c else c.(cache := c.cache[led := EMPTY_CACHE])
  }

  function StatusChanged(c: Controller, led: byte, command: byte, p: Params): (r: (Controller, Status))
    requires c.Valid()
    ensures r.0.Valid()
  {
    if led >= LED_COUNT then (c, Invalid)
    else
      var (bus, s) := Send(c.bus, led, ProtocolFrame(led, command, p), RETRY_COUNT, IoError);
      if s == Ok then (c.(bus := bus), Ok) else (Invalidated(c.(bus := bus), led), s)
  }

  function ColorSet(c: Controller, led: byte, color: Rgb): (r: (Controller, Status))
    requires c.Valid()
    ensures r.0.Valid()
  {
    if led >= LED_COUNT then (c, Invalid)
    else if c.cache[led].colorValid && c.cache[led].color == color then (c, Ok)
    else
      var (c1, s) := StatusChanged(c, led, 0x02, Params(color.r, color.g, color.b, 0));
      if s != Ok then (c1, s)
      else (c1.(cache := c.cache[led := c.cache[led].(color := color, colorValid := true)]), s)
  }

  function BrightnessSet(c: Controller, led: byte, level: byte): (r: (Controller, Status))
    requires c.Valid()
    ensures r.0.Valid()
  {
    if led >= LED_COUNT then (c, Invalid)
    else if c.cache[led].brightnessValid && c.cache[led].brightness == level then (c, Ok)
    else
      var (c1, s) := StatusChanged(c, led, 0x01, Params(level, 0, 0, 0));
      if s != Ok then (c1, s)
      else (c1.(cache := c.cache[led := c.cache[led].(brightness := level, brightnessValid := true)]), s)
  }

  function OnSet(c: Controller, led: byte, on: bool): (r: (Controller, Status))
    requires c.Valid()
    ensures r.0.Valid()
  {
    var mode := if on then ModeOn else ModeOff;
    if led >= LED_COUNT then (c, Invalid)
    else if c.cache[led].mode == mode then (c, Ok)
    else
      var (c1, s) := StatusChanged(c, led, 0x03, Params(if on then 1 else 0, 0, 0, 0));
      if s != Ok then (c1, s)
      else (c1.(cache := c.cache[led := c.cache[led].(mode := mode)]), s)
  }

  /** `on_ms + off_ms` in 16 bits. */
  function Cycle(onMs: u16, offMs: u16): u16 {
    (onMs as int + offMs as int) % 0x1_0000
  }

  function BlinkSet(c: Controller, led: byte, onMs: u16, offMs: u16, breath: bool): (r: (Controller, Status))
    requires c.Valid()
    ensures r.0.Valid()
  {
    var mode := if breath then ModeBreath else ModeBlink;
    var cycle := Cycle(onMs, offMs);
    if led >= LED_COUNT || cycle < onMs then (c, Invalid)
    else if c.cache[led].mode == mode && c.cache[led].onMs == onMs && c.cache[led].offMs == offMs
    then (c, Ok)
    else
      var (c1, s) := StatusChanged(c, led, if breath then 0x05 else 0x04,
                                  Timing(cycle, onMs));
      if s != Ok then (c1, s)
      else (c1.(cache := c.cache[led := c.cache[led].(mode := mode, onMs := onMs, offMs := offMs)]), s)
  }

  datatype Call =
    | Color(led: byte, color: Rgb)
    | Brightness(led: byte, level: byte)
    | OnOff(led: byte, on: bool)
    | Flash(led: byte, onMs: u16, offMs: u16, breath: bool)
    | Forget(led: byte)
  {
    /** Calls rejected with -EINVAL before anything is sent. */
    predicate Malformed() {
      !Forget? && (led >= LED_COUNT || (Flash? && onMs as int + offMs as int > U16_MAX))
    }

    /** The command a well-formed setter asks the device for. */
    function Wanted(): Command
      requires !Forget?
    {
      match this
      case Color(_, color) => CmdColor(color)
      case Brightness(_, level) => CmdBrightness(level)
      case OnOff(_, on) => CmdOn(on)
      case Flash(_, onMs, offMs, breath) =>
        if breath then CmdBreath(Cycle(onMs, offMs), onMs) else CmdBlink(Cycle(onMs, offMs), onMs)
    }
  }

  function Perform(c: Controller, call: Call): (r: (Controller, Status))
    requires c.Valid()
    ensures r.0.Valid()
  {
    match call
    case Color(led, color) => ColorSet(c, led, color)
    case Brightness(led, level) => BrightnessSet(c, led, level)
    case OnOff(led, on) => OnSet(c, led, on)
    case Flash(led, onMs, offMs, breath) => BlinkSet(c, led, onMs, offMs, breath)
    case Forget(led) => (Invalidated(c, led), Ok)
  }

  // ----- cache coherence under arbitrary faults -----

  /** Every field the cache marks valid equals the device's field. */
  ghost predicate CoherentEntry(e: LedCache, led: Led) {
    && (e.colorValid ==> e.color == led.color)
    && (e.brightnessValid ==> e.brightness == led.brightness)
    && match e.mode
       case ModeUnknown => true
       case ModeOff => led.mode == Off
       case ModeOn => led.mode == On
       case ModeBlink => led.mode == Blink && led.onTime == e.onMs && led.cycle as int == e.onMs as int + e.offMs as int
       case ModeBreath =>
         led.mode == Breath && led.onTime == e.onMs && led.cycle as int == e.onMs as int + e.offMs as int
  }

  ghost predicate Coherent(c: Controller) {
    && c.Valid()
    && forall j :: 0 <= j < LED_COUNT ==> CoherentEntry(c.cache[j], c.bus.leds[j])
  }

  /** `c1` differs from `c` in LED `led` alone, on both sides. */
  ghost predicate OnlyTouches(c: Controller, c1: Controller, led: byte) {
    && c.Valid() && c1.Valid()
    && forall j :: 0 <= j < LED_COUNT && j != led ==>
         c1.cache[j] == c.cache[j] && c1.bus.leds[j] == c.bus.leds[j]
  }

  /** `change_status` for a documented command, on any bus. */
  lemma StatusChangedEffect(c: Controller, led: byte, cmd: Command)
    requires c.Valid() && led < LED_COUNT
    ensures var (c1, s) := StatusChanged(c, led, Code(cmd), Args(cmd));
            && AtMost(c.bus, c1.bus, led, cmd)
            && s != Invalid
            && (s == Ok ==> c1.bus.leds[led] == Execute(c.bus.leds[led], cmd))
            && c1.cache == (if s == Ok then c.cache else c.cache[led := EMPTY_CACHE])
            && c.bus.sent < c1.bus.sent <= c.bus.sent + RETRY_COUNT
            && (c.bus.Healthy() ==> s == Ok && c1.bus.Healthy())
  {
    DecodeFrame(led, cmd);
    var frame := FrameFor(led, cmd);
    SendEffect(c.bus, led, frame, cmd, RETRY_COUNT, IoError);
    if c.bus.Healthy() {
      SendHealthy(c.bus, led, frame, cmd, RETRY_COUNT, IoError);
    }
  }

  /** What the cache entry becomes when the call succeeds. */
  function Learned(e: LedCache, call: Call): LedCache {
    match call
    case Color(_, color) => e.(color := color, colorValid := true)
    case Brightness(_, level) => e.(brightness := level, brightnessValid := true)
    case OnOff(_, on) => e.(mode := if on then ModeOn else ModeOff)
    case Flash(_, onMs, offMs, breath) =>
      e.(mode := if breath then ModeBreath else ModeBlink, onMs := onMs, offMs := offMs)
    case Forget(_) => EMPTY_CACHE
  }

  /** The cache entry already says what the call asks for. */
  predicate Hit(e: LedCache, call: Call) {
    match call
    case Color(_, color) => e.colorValid && e.color == color
    case Brightness(_, level) => e.brightnessValid && e.brightness == level
    case OnOff(_, on) => e.mode == if on then ModeOn else ModeOff
    case Flash(_, onMs, offMs, breath) =>
      e.mode == (if breath then ModeBreath else ModeBlink) && e.onMs == onMs && e.offMs == offMs
    case Forget(_) => false
  }

  /** The four ways a setter can end. */
  ghost predicate Ends(c: Controller, call: Call, c1: Controller, s: Status)
    requires c.Valid() && !call.Forget?
  {
    var led := call.led;
    if call.Malformed() then s == Invalid && c1 == c
    else if Hit(c.cache[led], call) then s == Ok && c1 == c
    else
      && AtMost(c.bus, c1.bus, led, call.Wanted())
      && c.bus.sent < c1.bus.sent <= c.bus.sent + RETRY_COUNT
      && s != Invalid
      && (s == Ok ==> c1.bus.leds[led] == Execute(c.bus.leds[led], call.Wanted()))
      && c1.cache == c.cache[led := if s == Ok then Learned(c.cache[led], call) else EMPTY_CACHE]
      && (c.bus.Healthy() ==> s == Ok && c1.bus.Healthy())
  }

  lemma ColorEnds(c: Controller, led: byte, color: Rgb)
    requires c.Valid()
    ensures var (c1, s) := ColorSet(c, led, color); Ends(c, Color(led, color), c1, s)
  {
    if led < LED_COUNT {
      StatusChangedEffect(c, led, CmdColor(color));
    }
  }

  lemma BrightnessEnds(c: Controller, led: byte, level: byte)
    requires c.Valid()
    ensures var (c1, s) := BrightnessSet(c, led, level); Ends(c, Brightness(led, level), c1, s)
  {
    if led < LED_COUNT {
      StatusChangedEffect(c, led, CmdBrightness(level));
    }
  }

  lemma OnEnds(c: Controller, led: byte, on: bool)
    requires c.Valid()
    ensures var (c1, s) := OnSet(c, led, on); Ends(c, OnOff(led, on), c1, s)
  {
    if led < LED_COUNT {
      StatusChangedEffect(c, led, CmdOn(on));
    }
  }

  /** The wrap-around test catches exactly the sums that overflow 16 bits. */
  lemma CycleWraps(onMs: u16, offMs: u16)
    ensures Cycle(onMs, offMs) < onMs <==> onMs as int + offMs as int > U16_MAX
  {
  }

  lemma BlinkEnds(c: Controller, led: byte, onMs: u16, offMs: u16, breath: bool)
    requires c.Valid()
    ensures var (c1, s) := BlinkSet(c, led, onMs, offMs, breath);
            Ends(c, Flash(led, onMs, offMs, breath), c1, s)
  {
    var cycle := Cycle(onMs, offMs);
    CycleWraps(onMs, offMs);
    if led < LED_COUNT {
      if breath {
        StatusChangedEffect(c, led, CmdBreath(cycle, onMs));
      } else {
        StatusChangedEffect(c, led, CmdBlink(cycle, onMs));
      }
    }
  }

  lemma PerformEnds(c: Controller, call: Call)
    requires c.Valid() && !call.Forget?
    ensures Ends(c, call, Perform(c, call).0, Perform(c, call).1)
  {
    match call
    case Color(led, color) => ColorEnds(c, led, color);
    case Brightness(led, level) => BrightnessEnds(c, led, level);
    case OnOff(led, on) => OnEnds(c, led, on);
    case Flash(led, onMs, offMs, breath) => BlinkEnds(c, led, onMs, offMs, breath);
  }

  /** One call, any fault pattern. On return the cache is coherent again; a
      setter that returned 0 left exactly the requested values on its device
      LED, whether or not it sent a frame; one that failed on the bus dropped
      its cache entry; a malformed one changed nothing; no call touched
      another LED. */
  lemma PerformCoherent(c: Controller, call: Call)
    requires Coherent(c)
    ensures var (c1, s) := Perform(c, call);
            && Coherent(c1)
            && OnlyTouches(c, c1, call.led)
            && (s == Invalid <==> call.Malformed())
            && (s == Invalid ==> c1 == c)
            && (s == Ok && !call.Forget? ==>
                  c1.bus.leds[call.led] == Execute(c.bus.leds[call.led], call.Wanted()))
            && (s != Ok && s != Invalid ==> c1.cache[call.led] == EMPTY_CACHE)
            && (call.Forget? && call.led < LED_COUNT ==>
                  c1 == c.(cache := c.cache[call.led := EMPTY_CACHE]) && s == Ok)
  {
    if !call.Forget? {
      PerformEnds(c, call);
      EndsCoherent(c, call, Perform(c, call).0, Perform(c, call).1);
    }
  }

  lemma EndsCoherent(c: Controller, call: Call, c1: Controller, s: Status)
    requires Coherent(c) && !call.Forget? && Ends(c, call, c1, s)
    ensures Coherent(c1)
    ensures s == Ok ==> c1.bus.leds[call.led] == Execute(c.bus.leds[call.led], call.Wanted())
  {
  }

  function Run(c: Controller, calls: seq<Call>): Controller
    requires c.Valid()
    ensures Run(c, calls).Valid()
  {
    if calls == [] then c
    else
      Perform(Run(c, calls[..|calls| - 1]), calls[|calls| - 1]).0
  }

  /** Whole runs: from a freshly opened controller, whatever the device holds
      and whatever the bus does, the cache is coherent after every call. */
  lemma {:induction false} RunCoherent(bus: Bus, calls: seq<Call>)
    requires bus.Valid()
    ensures Coherent(Run(Opened(bus), calls))
  {
    if calls != [] {
      RunCoherent(bus, calls[..|calls| - 1]);
      PerformCoherent(Run(Opened(bus), calls[..|calls| - 1]), calls[|calls| - 1]);
    }
  }

  // ----- how a call ends, told from the bus outcomes ahead of it -----

  lemma StatusChangedOutcome(c: Controller, led: byte, cmd: Command)
    requires c.Valid() && led < LED_COUNT
    ensures var (c1, s) := StatusChanged(c, led, Code(cmd), Args(cmd));
            && (s == Ok <==> Acknowledged(c.bus.faults, RETRY_COUNT))
            && c1.bus.faults == Rest(c.bus.faults, RETRY_COUNT)
            && c1.bus.leds == if Reached(c.bus.faults, RETRY_COUNT)
                              then c.bus.leds[led := Execute(c.bus.leds[led], cmd)] else c.bus.leds
  {
    DecodeFrame(led, cmd);
    SendOutcome(c.bus, led, FrameFor(led, cmd), cmd, RETRY_COUNT, IoError);
  }

  /** A setter that sends returns 0 exactly when one of five attempts is
      acknowledged, and changes its device LED exactly when one is applied. */
  lemma PerformOutcome(c: Controller, call: Call)
    requires c.Valid() && !call.Forget? && !call.Malformed() && !Hit(c.cache[call.led], call)
    ensures var (c1, s) := Perform(c, call);
            && (s == Ok <==> Acknowledged(c.bus.faults, RETRY_COUNT))
            && c1.bus.faults == Rest(c.bus.faults, RETRY_COUNT)
            && c1.bus.leds == if Reached(c.bus.faults, RETRY_COUNT)
                              then c.bus.leds[call.led := Execute(c.bus.leds[call.led], call.Wanted())]
                              else c.bus.leds
  {
    hide StatusChanged, Acknowledged, Reached, Rest;
    StatusChangedOutcome(c, call.led, call.Wanted());
    if call.Flash? {
      CycleWraps(call.onMs, call.offMs);
    }
  }

  // ----- the cache is invisible -----

  /** The device after the same calls through a controller that always writes. */
  function WriteThrough(leds: seq<Led>, calls: seq<Call>): (r: seq<Led>)
    requires |leds| == LED_COUNT
    ensures |r| == LED_COUNT
  {
    if calls == [] then leds
    else
      var r := WriteThrough(leds, calls[..|calls| - 1]);
      var call := calls[|calls| - 1];
      if call.Forget? || call.Malformed() then r
      else r[call.led := Execute(r[call.led], call.Wanted())]
  }

  /** On a healthy bus the cached controller refines write-through. */
  lemma {:induction false} CacheRefinesWriteThrough(bus: Bus, calls: seq<Call>)
    requires bus.Valid() && bus.Healthy()
    ensures Run(Opened(bus), calls).bus.leds == WriteThrough(bus.leds, calls)
    ensures Run(Opened(bus), calls).bus.Healthy()
  {
    if calls != [] {
      var prefix, call := calls[..|calls| - 1], calls[|calls| - 1];
      CacheRefinesWriteThrough(bus, prefix);
      RunCoherent(bus, prefix);
      var c := Run(Opened(bus), prefix);
      PerformCoherent(c, call);
      if !call.Forget? {
        PerformEnds(c, call);
      }
    }
  }

  /** Repeating a call that succeeded changes nothing and sends nothing, even
      when the bus has started to fail. */
  lemma RepeatSendsNothing(c: Controller, call: Call)
    requires Coherent(c)
    requires Perform(c, call).1 == Ok && !call.Forget?
    ensures var c1 := Perform(c, call).0;
            c1.Valid() && Perform(c1, call) == (c1, Ok)
  {
    PerformEnds(c, call);
    PerformEnds(Perform(c, call).0, call);
  }

  /** A setter costs at most five frames, and none exactly when it is malformed
      or the cache already holds the requested value. */
  lemma FramesPerCall(c: Controller, call: Call)
    requires Coherent(c) && !call.Forget?
    ensures var c1 := Perform(c, call).0;
            && c.bus.sent <= c1.bus.sent <= c.bus.sent + 5
            && (c1.bus.sent == c.bus.sent <==> call.Malformed() || Hit(c.cache[call.led], call))
  {
    PerformEnds(c, call);
  }

  // ----- the controller in place -----

  class LedController {
    const device: Device
    const cache: array<LedCache>

    constructor (device: Device)
      ensures this.device == device && fresh(cache)
      ensures cache.Length == LED_COUNT
      ensures State() == Opened(device.bus)
    {
      this.device := device;
      this.cache := new LedCache[LED_COUNT](_ => EMPTY_CACHE);
      new;
      assert cache[..] == seq(LED_COUNT, _ => EMPTY_CACHE);
    }

    function State(): Controller
      reads cache, device
    {
      Controller(cache[..], device.bus)
    }

    ghost predicate Valid()
      reads cache, device
    {
      cache.Length == LED_COUNT && State().Valid()
    }

    method Invalidate(led: byte)
      requires Valid()
      modifies cache
      ensures Valid()
      ensures State() == Invalidated(old(State()), led)
    {
      if led >= LED_COUNT {
        return;
      }
      cache[led] := EMPTY_CACHE;
    }

    method ChangeStatusOnce(led: byte, command: byte, p: Params) returns (written: bool)
      modifies device
      ensures (device.bus, written) == Write(old(device.bus), led, ProtocolFrame(led, command, p))
    {
      var data := DaemonFrame(led, command, p);
      written := device.WriteBlock(led, data);
    }

    /** Five attempts; the entry is dropped when all of them fail. */
    method ChangeStatus(led: byte, command: byte, p: Params) returns (error: Status)
      requires Valid()
      modifies device, cache
      ensures (State(), error) == StatusChanged(old(State()), led, command, p)
    {
      if led >= LED_COUNT {
        return Invalid;
      }
      ghost var frame := ProtocolFrame(led, command, p);
      error := IoError;
      for attempt := 0 to RETRY_COUNT
        invariant cache[..] == old(cache[..])
        invariant Send(old(device.bus), led, frame, RETRY_COUNT, IoError) ==
                  Send(device.bus, led, frame, RETRY_COUNT - attempt, error)
        invariant error != Ok
        modifies device
      {
        var written := ChangeStatusOnce(led, command, p);
        if !written {
          error := IoError;
          continue;
        }
        var accepted := device.ReadAck();
        if accepted == Some(1) {
          return Ok;
        }
        error := if accepted.None? then IoError else Refused;
      }
      cache[led] := EMPTY_CACHE;
    }

    method SetColor(led: byte, color: Rgb) returns (error: Status)
      requires Valid()
      modifies device, cache
      ensures (State(), error) == ColorSet(old(State()), led, color)
    {
      if led >= LED_COUNT {
        return Invalid;
      }
      if cache[led].colorValid && cache[led].color == color {
        return Ok;
      }
      error := ChangeStatus(led, 0x02, Params(color.r, color.g, color.b, 0));
      if error == Ok {
        cache[led] := cache[led].(color := color, colorValid := true);
      }
    }

    method SetBrightness(led: byte, level: byte) returns (error: Status)
      requires Valid()
      modifies device, cache
      ensures (State(), error) == BrightnessSet(old(State()), led, level)
    {
      if led >= LED_COUNT {
        return Invalid;
      }
      if cache[led].brightnessValid && cache[led].brightness == level {
        return Ok;
      }
      error := ChangeStatus(led, 0x01, Params(level, 0, 0, 0));
      if error == Ok {
        cache[led] := cache[led].(brightness := level, brightnessValid := true);
      }
    }

    method SetOn(led: byte, on: bool) returns (error: Status)
      requires Valid()
      modifies device, cache
      ensures (State(), error) == OnSet(old(State()), led, on)
    {
      var mode := if on then ModeOn else ModeOff;
      if led >= LED_COUNT {
        return Invalid;
      }
      if cache[led].mode == mode {
        return Ok;
      }
      error := ChangeStatus(led, 0x03, Params(if on then 1 else 0, 0, 0, 0));
      if error == Ok {
        cache[led] := cache[led].(mode := mode);
      }
    }

    method SetBlink(led: byte, onMs: u16, offMs: u16, breath: bool) returns (error: Status)
      requires Valid()
      modifies device, cache
      ensures (State(), error) == BlinkSet(old(State()), led, onMs, offMs, breath)
    {
      var mode := if breath then ModeBreath else ModeBlink;
      var cycle := Cycle(onMs, offMs);
      if led >= LED_COUNT || cycle < onMs {
        return Invalid;
      }
      if cache[led].mode == mode && cache[led].onMs == onMs && cache[led].offMs == offMs {
        return Ok;
      }
      error := ChangeStatus(led, if breath then 0x05 else 0x04,
                                   Timing(cycle, onMs));
      if error == Ok {
        cache[led] := cache[led].(mode := mode, onMs := onMs, offMs := offMs);
      }
    }
  }
}
