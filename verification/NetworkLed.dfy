/** Network pulse machine: coalesces traffic samples and shows one coloured
    pulse at a time. */
module NetworkLed {
  import opened Types
  import opened Mcu
  import opened LedController
  import opened Settings
  import opened Timers
  import opened Scheduler

  datatype Network = Network(pulses: Pulses, pendingRx: u64, pendingTx: u64, ledOn: bool, timer: Timer) {
    predicate Pending() {
      pendingRx != 0 || pendingTx != 0
    }
  }

  const IDLE := Network(INITIAL, 0, 0, false, Disarmed)

  // ----- policy functions -----

  function Started(c: Controller, s: Settings): (r: (Network, Controller, Status))
    requires c.Valid()
    ensures r.1.Valid()
  {
    var (c1, e1) := BrightnessSet(c, LED_NETWORK, Low8(s.networkBrightness));
    if e1 != Ok then (IDLE, c1, e1)
    else
      var (c2, e2) := OnSet(c1, LED_NETWORK, false);
      (IDLE, c2, e2)
  }

  function SampleAdded(n: Network, rx: u64, tx: u64): Network {
    n.(pendingRx := SaturatingAdd(n.pendingRx, rx), pendingTx := SaturatingAdd(n.pendingTx, tx))
  }

  /** Whole seconds and nanoseconds of a pulse; never zero. */
  function PulseTime(s: Settings): (nat, nat) {
    var sec, nsec := s.networkPulseMs / 1000, s.networkPulseMs % 1000 * NS_PER_MS;
    if sec == 0 && nsec == 0 then (0, 1) else (sec, nsec)
  }

  /** The first half of `render`: light the LED, or drop the pulse. */
  function Lit(c: Controller, color: Rgb): (r: (Controller, bool))
    requires c.Valid()
    ensures r.0.Valid()
  {
    var (c1, e1) := ColorSet(c, LED_NETWORK, color);
    if e1 != Ok then (Invalidated(c1, LED_NETWORK), false)
    else
      var (c2, e2) := OnSet(c1, LED_NETWORK, true);
      if e2 != Ok then (Invalidated(c2, LED_NETWORK), false) else (c2, true)
  }

  function PulseColor(s: Settings, rx: bool): Rgb {
    if rx then s.rxColor else s.txColor
  }

  /** `render`: the last component is the sample handed to the scheduler. */
  function Rendered(n: Network, c: Controller, s: Settings, now: Time)
    : (r: (Network, Controller, Status, Option<Sample>))
    requires c.Valid()
    ensures r.1.Valid()
  {
    if n.ledOn || !n.Pending() then (n, c, Ok, None)
    else
      var sample := Sample(n.pendingRx, n.pendingTx);
      var (pulses, rx) := Choice(n.pulses, sample);
      var n1 := n.(pulses := pulses, pendingRx := 0, pendingTx := 0);
      var (c1, lit) := Lit(c, PulseColor(s, rx));
      if !lit then (n1.(ledOn := false), c1, Ok, Some(sample))
      else
        var (sec, nsec) := PulseTime(s);
        var (t, e) := TimeSet(n1.timer, now, sec, nsec);
        if e != Ok then
          (n1.(ledOn := false, timer := t), OnSet(c1, LED_NETWORK, false).0, e, Some(sample))
        else (n1.(ledOn := true, timer := t), c1, Ok, Some(sample))
  }

  /** The end of a pulse. */
  function Darkened(c: Controller): (r: Controller)
    requires c.Valid()
    ensures r.Valid()
  {
    var (c1, e) := OnSet(c, LED_NETWORK, false);
    if e != Ok then Invalidated(c1, LED_NETWORK) else c1
  }

  function TimerHandled(n: Network, c: Controller, s: Settings, now: Time)
    : (r: (Network, Controller, Status, Option<Sample>))
    requires c.Valid()
    ensures r.1.Valid()
  {
    var n1 := n.(timer := ExpirationRead(n.timer));
    if !n1.ledOn then (n1, c, Ok, None)
    else Rendered(n1.(ledOn := false), Darkened(c), s, now)
  }

  // ----- invariants -----

  /** What the cache says about the network LED wherever it says anything, and
      the brightness the device keeps from startup. */
  ghost predicate LedPolicy(n: Network, c: Controller, s: Settings)
    requires c.Valid()
  {
    var e, led := c.cache[LED_NETWORK], c.bus.leds[LED_NETWORK];
    && (n.ledOn ==> e.mode == ModeOn && e.colorValid && (e.color == s.rxColor || e.color == s.txColor))
    && (!n.ledOn ==> e.mode == ModeOff || e.mode == ModeUnknown)
    && led.brightness == s.networkBrightness
  }

  /** A pulse always has a timer that ends it. */
  ghost predicate Ends(n: Network) {
    n.ledOn ==> n.timer != Disarmed
  }

  ghost predicate Invariant(n: Network, c: Controller, s: Settings) {
    Coherent(c) && Usable(s) && LedPolicy(n, c, s) && Ends(n)
  }

  /** Nothing is stranded: traffic is pending only while a pulse is on, and that
      pulse will end. */
  ghost predicate Settled(n: Network) {
    n.Pending() ==> n.ledOn && n.timer != Disarmed
  }

  ghost predicate Known(c: Controller)
    requires c.Valid()
  {
    c.cache[LED_NETWORK].mode != ModeUnknown
  }

  /** A lit network LED shows one of the two colours, and a known dark one is
      off, whatever faults came before. */
  lemma DeviceShowsPulse(n: Network, c: Controller, s: Settings)
    requires Invariant(n, c, s)
    ensures var led := c.bus.leds[LED_NETWORK];
            && (n.ledOn ==> led.mode == On && (led.color == s.rxColor || led.color == s.txColor))
            && (!n.ledOn && Known(c) ==> led.mode == Off)
            && led.brightness == s.networkBrightness
  {
    assert CoherentEntry(c.cache[LED_NETWORK], c.bus.leds[LED_NETWORK]);
  }

  /** For every pulse of 0 to 1000 ms the timer value is valid and not zero. */
  lemma PulseTimeValid(s: Settings)
    requires Usable(s)
    ensures var (sec, nsec) := PulseTime(s);
            && nsec < NS_PER_SEC && (sec > 0 || nsec > 0)
            && sec * NS_PER_SEC + nsec == if s.networkPulseMs == 0 then 1 else s.networkPulseMs * 1_000_000
  {
  }

  /** Told before a pulse, from the cache entry of the LED and the bus outcomes
      ahead: the commands for a colour that is not cached and for turning it on are
      acknowledged. */
  predicate Lightable(e: LedCache, color: Rgb, faults: seq<Outcome>) {
    var hit := e.colorValid && e.color == color;
    && (hit || Acknowledged(faults, RETRY_COUNT))
    && Acknowledged(if hit then faults else Rest(faults, RETRY_COUNT), RETRY_COUNT)
  }

  lemma LitOutcome(c: Controller, color: Rgb)
    requires Coherent(c) && c.cache[LED_NETWORK].mode != ModeOn
    ensures Lit(c, color).1 <==> Lightable(c.cache[LED_NETWORK], color, c.bus.faults)
  {
    hide ColorSet, OnSet, StatusChanged, Acknowledged, Reached, Rest;
    var call := Color(LED_NETWORK, color);
    PerformEnds(c, call);
    if !Hit(c.cache[LED_NETWORK], call) {
      PerformOutcome(c, call);
    }
    var (c1, e1) := ColorSet(c, LED_NETWORK, color);
    if e1 == Ok {
      PerformOutcome(c1, OnOff(LED_NETWORK, true));
    }
  }

  lemma LitEffect(c: Controller, color: Rgb)
    requires Coherent(c)
    ensures var (c1, lit) := Lit(c, color);
            && Coherent(c1) && OnlyTouches(c, c1, LED_NETWORK)
            && c1.bus.leds[LED_NETWORK].brightness == c.bus.leds[LED_NETWORK].brightness
            && (lit ==> c1.cache[LED_NETWORK].mode == ModeOn && c1.cache[LED_NETWORK].colorValid
                        && c1.cache[LED_NETWORK].color == color)
            && (!lit ==> c1.cache[LED_NETWORK] == EMPTY_CACHE)
            && (c.bus.Healthy() ==> lit && c1.bus.Healthy())
  {
    hide StatusChanged;
    var (c1, e1) := ColorSet(c, LED_NETWORK, color);
    ColorEnds(c, LED_NETWORK, color);
    EndsCoherent(c, Color(LED_NETWORK, color), c1, e1);
    if e1 == Ok {
      var (c2, e2) := OnSet(c1, LED_NETWORK, true);
      OnEnds(c1, LED_NETWORK, true);
      EndsCoherent(c1, OnOff(LED_NETWORK, true), c2, e2);
    }
  }

  lemma DarkenedEffect(c: Controller)
    requires Coherent(c)
    ensures var c1 := Darkened(c);
            && Coherent(c1) && OnlyTouches(c, c1, LED_NETWORK)
            && c1.bus.leds[LED_NETWORK].brightness == c.bus.leds[LED_NETWORK].brightness
            && (c1.cache[LED_NETWORK].mode == ModeOff || c1.cache[LED_NETWORK] == EMPTY_CACHE)
            && (c.bus.Healthy() ==> c1.cache[LED_NETWORK].mode == ModeOff && c1.bus.Healthy())
  {
    hide StatusChanged;
    var (c1, e) := OnSet(c, LED_NETWORK, false);
    OnEnds(c, LED_NETWORK, false);
    EndsCoherent(c, OnOff(LED_NETWORK, false), c1, e);
  }

  /** Turning off a lit LED, told from the outcomes ahead: the device is dark if one
      of five attempts is applied, and the cache says so if one is acknowledged. */
  lemma DarkenedOutcome(c: Controller)
    requires Coherent(c) && c.cache[LED_NETWORK].mode == ModeOn
    ensures var c1, e, led := Darkened(c), c.cache[LED_NETWORK], c.bus.leds[LED_NETWORK];
            && c1.bus.faults == Rest(c.bus.faults, RETRY_COUNT)
            && c1.cache[LED_NETWORK] == DarkEntry(e, c.bus.faults)
            && c1.bus.leds[LED_NETWORK] == if Reached(c.bus.faults, RETRY_COUNT) then led.(mode := Off) else led
  {
    hide OnSet, StatusChanged, Acknowledged, Reached, Rest;
    PerformOutcome(c, OnOff(LED_NETWORK, false));
    PerformEnds(c, OnOff(LED_NETWORK, false));
  }

  /** The cache entry after an attempt to turn the LED off. */
  function DarkEntry(e: LedCache, faults: seq<Outcome>): LedCache {
    if Acknowledged(faults, RETRY_COUNT) then e.(mode := ModeOff) else EMPTY_CACHE
  }

  /** `n1` is `n` after a pulse for `sample` was begun at `now`, if the LED can be
      lit: everything pending is handed to the scheduler, and the pulse has the
      scheduled colour and the configured length. */
  ghost predicate Pulses(n: Network, n1: Network, led: Led, s: Settings, sample: Sample, now: Time, lightable: bool) {
    var (pulses, rx) := Choice(n.pulses, sample);
    && n1.pulses == pulses && n1.pendingRx == 0 && n1.pendingTx == 0
    && n1.ledOn == lightable
    && (if lightable then
          && n1.timer == Armed(now as int + if s.networkPulseMs == 0 then 1 else s.networkPulseMs * 1_000_000)
          && led.mode == On && led.color == (if rx then s.rxColor else s.txColor)
        else n1.timer == n.timer)
  }

  /** `render`, from any state that satisfies the invariant, on any bus: it never
      fails, it leaves nothing stranded, and with traffic pending and the LED dark it
      begins a pulse exactly when the LED can be lit; otherwise it does nothing. */
  lemma RenderedKeeps(n: Network, c: Controller, s: Settings, now: Time)
    requires Invariant(n, c, s)
    ensures var (n1, c1, e, sample) := Rendered(n, c, s, now);
            && e == Ok && Invariant(n1, c1, s) && Settled(n1) && OnlyTouches(c, c1, LED_NETWORK)
            && sample == (if n.ledOn || !n.Pending() then None else Some(Sample(n.pendingRx, n.pendingTx)))
            && (c.bus.Healthy() ==> c1.bus.Healthy() && (Known(c) ==> Known(c1)))
            && (sample.None? ==> n1 == n && c1 == c)
            && (sample.Some? ==>
                  Pulses(n, n1, c1.bus.leds[LED_NETWORK], s, sample.value, now,
                         Lightable(c.cache[LED_NETWORK], PulseColor(s, Choice(n.pulses, sample.value).1),
                                   c.bus.faults)))
  {
    hide Lit, Lightable;
    if !n.ledOn && n.Pending() {
      PulseTimeValid(s);
      var color := PulseColor(s, Choice(n.pulses, Sample(n.pendingRx, n.pendingTx)).1);
      LitEffect(c, color);
      LitOutcome(c, color);
      var c1 := Lit(c, color).0;
      assert CoherentEntry(c1.cache[LED_NETWORK], c1.bus.leds[LED_NETWORK]);
    }
  }

  /** The end of a pulse, on any bus: without pending traffic the LED goes dark as
      far as the bus lets it, and with it the next pulse begins at once. */
  lemma TimerKeeps(n: Network, c: Controller, s: Settings, now: Time)
    requires Invariant(n, c, s) && Settled(n)
    ensures var (n1, c1, e, sample) := TimerHandled(n, c, s, now);
            var n0, led := n.(ledOn := false, timer := ExpirationRead(n.timer)), c.bus.leds[LED_NETWORK];
            && e == Ok && Invariant(n1, c1, s) && Settled(n1) && OnlyTouches(c, c1, LED_NETWORK)
            && sample == (if n.ledOn && n.Pending() then Some(Sample(n.pendingRx, n.pendingTx)) else None)
            && (c.bus.Healthy() ==> c1.bus.Healthy() && (Known(c) ==> Known(c1)))
            && (sample.None? ==>
                  && n1 == n0
                  && (n.ledOn ==>
                        c1.bus.leds[LED_NETWORK] ==
                          (if Reached(c.bus.faults, RETRY_COUNT) then led.(mode := Off) else led))
                  && (!n.ledOn ==> c1 == c))
            && (sample.Some? ==>
                  Pulses(n0, n1, c1.bus.leds[LED_NETWORK], s, sample.value, now,
                         Lightable(DarkEntry(c.cache[LED_NETWORK], c.bus.faults),
                                   PulseColor(s, Choice(n.pulses, sample.value).1),
                                   Rest(c.bus.faults, RETRY_COUNT))))
  {
    hide Darkened, Rendered, Lightable, DarkEntry, Reached, Rest;
    if n.ledOn {
      DarkenedEffect(c);
      DarkenedOutcome(c);
      RenderedKeeps(n.(timer := ExpirationRead(n.timer), ledOn := false), Darkened(c), s, now);
    }
  }

  lemma SampleKeeps(n: Network, c: Controller, s: Settings, rx: u64, tx: u64)
    requires Invariant(n, c, s)
    ensures Invariant(SampleAdded(n, rx, tx), c, s)
  {
  }

  /** Startup: if it reports success, the LED is known to be off and to have the
      configured brightness. */
  lemma StartedKeeps(c: Controller, s: Settings)
    requires Coherent(c) && Usable(s)
    ensures var (n, c1, e) := Started(c, s);
            && Coherent(c1) && OnlyTouches(c, c1, LED_NETWORK)
            && n == IDLE
            && (e == Ok ==> Invariant(n, c1, s) && Settled(n) && Known(c1))
            && (c.bus.Healthy() ==> c1.bus.Healthy() && e == Ok)
  {
    hide StatusChanged;
    TimingIsExact(s, 0);
    var level := Low8(s.networkBrightness);
    var (c1, e1) := BrightnessSet(c, LED_NETWORK, level);
    BrightnessEnds(c, LED_NETWORK, level);
    EndsCoherent(c, Brightness(LED_NETWORK, level), c1, e1);
    if e1 == Ok {
      var (c2, e2) := OnSet(c1, LED_NETWORK, false);
      OnEnds(c1, LED_NETWORK, false);
      EndsCoherent(c1, OnOff(LED_NETWORK, false), c2, e2);
    }
  }

  // ----- the machine in place -----

  class NetworkLed {
    const controller: LedController
    const settings: Settings
    const scheduler: PulseScheduler
    const timer: TimerFd
    var pendingRx: u64
    var pendingTx: u64
    var ledOn: bool

    constructor (controller: LedController, settings: Settings)
      requires controller.Valid()
      ensures this.controller == controller && this.settings == settings
      ensures fresh(scheduler) && fresh(timer)
      ensures State() == IDLE && Valid()
    {
      this.controller, this.settings := controller, settings;
      this.scheduler := new PulseScheduler();
      this.timer := new TimerFd();
      pendingRx, pendingTx, ledOn := 0, 0, false;
    }

    function State(): Network
      reads this, scheduler, timer
    {
      Network(scheduler.State(), pendingRx, pendingTx, ledOn, timer.timer)
    }

    ghost predicate Valid()
      reads controller.cache, controller.device
    {
      controller.Valid()
    }

    method Start() returns (error: Status)
      requires Valid() && State() == IDLE
      modifies controller.cache, controller.device
      ensures Valid()
      ensures (State(), controller.State(), error) == Started(old(controller.State()), settings)
    {
      hide StatusChanged;
      error := controller.SetBrightness(LED_NETWORK, Low8(settings.networkBrightness));
      if error == Ok {
        error := controller.SetOn(LED_NETWORK, false);
      }
    }

    method AddSample(rx: u64, tx: u64)
      modifies this
      ensures State() == SampleAdded(old(State()), rx, tx)
    {
      pendingRx := SaturatingAdd(pendingRx, rx);
      pendingTx := SaturatingAdd(pendingTx, tx);
    }

    method ArmTimer(now: Time) returns (error: Status)
      modifies timer
      ensures (timer.timer, error) == TimeSet(old(timer.timer), now, PulseTime(settings).0, PulseTime(settings).1)
    {
      var sec := settings.networkPulseMs / 1000;
      var nsec := settings.networkPulseMs % 1000 * NS_PER_MS;
      if sec == 0 && nsec == 0 {
        nsec := 1;
      }
      error := timer.SetTime(now, sec, nsec);
    }

    method Light(color: Rgb) returns (lit: bool)
      requires Valid()
      modifies controller.cache, controller.device
      ensures Valid()
      ensures (controller.State(), lit) == Lit(old(controller.State()), color)
    {
      hide StatusChanged;
      var error := controller.SetColor(LED_NETWORK, color);
      if error == Ok {
        error := controller.SetOn(LED_NETWORK, true);
      }
      if error != Ok {
        controller.Invalidate(LED_NETWORK);
        return false;
      }
      lit := true;
    }

    method Render(now: Time) returns (error: Status)
      requires Valid()
      modifies this, scheduler, timer, controller.cache, controller.device
      ensures Valid()
      ensures var r := Rendered(old(State()), old(controller.State()), settings, now);
              State() == r.0 && controller.State() == r.1 && error == r.2
    {
      hide Lit, OnSet;
      if ledOn {
        return Ok;
      }
      var rx, tx := pendingRx, pendingTx;
      if rx == 0 && tx == 0 {
        return Ok;
      }
      pendingRx, pendingTx := 0, 0;
      var isRx := scheduler.ChooseRx(rx, tx);
      var lit := Light(PulseColor(settings, isRx));
      if !lit {
        ledOn := false;
        return Ok;
      }
      ledOn := true;
      error := ArmTimer(now);
      if error != Ok {
        var _ := controller.SetOn(LED_NETWORK, false);
        ledOn := false;
      }
    }

    method HandleTimer(now: Time) returns (error: Status)
      requires Valid()
      modifies this, scheduler, timer, controller.cache, controller.device
      ensures Valid()
      ensures var r := TimerHandled(old(State()), old(controller.State()), settings, now);
              State() == r.0 && controller.State() == r.1 && error == r.2
    {
      hide OnSet, Rendered;
      timer.Read();
      if !ledOn {
        return Ok;
      }
      error := controller.SetOn(LED_NETWORK, false);
      if error != Ok {
        controller.Invalidate(LED_NETWORK);
      }
      ledOn := false;
      error := Render(now);
    }
  }
}
