/** The whole daemon: startup and the event loop. */
module Daemon {
  import opened Types
  import opened Mcu
  import opened LedController
  import opened Settings
  import opened Timers
  import opened Discovery
  import opened KernelMaps
  import A = Addressing
  import D = DiskLeds
  import N = NetworkLed

  datatype Daemon = Daemon(controller: Controller, disks: D.Disks, network: N.Network) {
    predicate Valid() {
      controller.Valid() && disks.Valid()
    }
  }

  /** A ring buffer record as the callback sees it: too short, of unknown kind,
      or one of the two events. `at` is the clock when a disk event is handled. */
  datatype Event =
    | Junk
    | Traffic(rx: u64, tx: u64)
    | Disk(led: byte, at: Time)

  /** Hot-plug messages: whether receiving them ended in an error other than
      EAGAIN, whether any was about a block device, and the listing the rescan
      reads (None when it cannot be read). */
  datatype Hotplug = Hotplug(failed: bool, relevant: bool, entries: Option<seq<BlockEntry>>)

  /** What one return of `poll` brings: whether it failed with an error other than
      EINTR, and whether it reports an error or a hang-up on a descriptor, which is
      looked at last. `at` is the time of the return and the other clocks are read
      by the handlers. `synced` says whether the kernel accepts the map updates of
      a resync. */
  datatype Wakeup = Wakeup(at: Time, failed: bool, hangup: bool, signal: bool, hotplug: Option<Hotplug>, synced: bool,
                           batch: Option<seq<Event>>, networkClock: Time, diskClock: Time, renderClock: Time)
  {
    /** What ends the loop from outside, apart from a refused map update. */
    predicate Stops() {
      failed || hangup || signal || (hotplug.Some? && hotplug.value.failed)
    }
  }

  /** The kernel's listing never shows a device number twice. */
  ghost predicate Plausible(w: Wakeup) {
    w.hotplug.Some? && w.hotplug.value.entries.Some? ==> Listing(w.hotplug.value.entries.value)
  }

  // ----- the steps of one round -----

  function Elapse(d: Daemon, at: Time): (r: Daemon)
    requires d.Valid()
    ensures r.Valid()
  {
    d.(network := d.network.(timer := Elapsed(d.network.timer, at)),
       disks := d.disks.(timer := Elapsed(d.disks.timer, at)))
  }

  function NetworkTimer(d: Daemon, s: Settings, now: Time): (r: (Daemon, Status))
    requires d.Valid()
    ensures r.0.Valid()
  {
    if s.networkEnabled && d.network.timer.Expired? then
      var (n, c, e, _) := N.TimerHandled(d.network, d.controller, s, now);
      (d.(network := n, controller := c), e)
    else (d, Ok)
  }

  function DiskTimer(d: Daemon, s: Settings, now: Time): (r: (Daemon, Status))
    requires d.Valid()
    ensures r.0.Valid()
  {
    if s.disksEnabled && d.disks.timer.Expired? then
      var (k, c, e) := D.TimerHandled(d.disks, d.controller, s, now);
      (d.(disks := k, controller := c), e)
    else (d, Ok)
  }

  /** A failed receive returns before any rescan. A failed rescan is reported and
      ignored; a failed resync is not. */
  function Uevents(d: Daemon, s: Settings, h: Option<Hotplug>, synced: bool): (r: (Daemon, Status))
    requires d.Valid()
    ensures r.0.Valid()
  {
    if !s.disksEnabled || h.None? then (d, Ok)
    else if h.value.failed then (d, IoError)
    else if h.value.relevant then
      var (k, c, _) := D.Rescanned(d.disks, d.controller, s, h.value.entries);
      (d.(disks := k, controller := c), if synced then Ok else IoError)
    else (d, Ok)
  }

  function EventHandled(d: Daemon, s: Settings, event: Event): (r: Daemon)
    requires d.Valid()
    ensures r.Valid()
  {
    match event
    case Junk => d
    case Traffic(rx, tx) =>
      if s.networkEnabled then d.(network := N.SampleAdded(d.network, rx, tx)) else d
    case Disk(led, at) =>
      if s.disksEnabled then
        var (k, c, _) := D.ActivityHandled(d.disks, d.controller, s, led, at);
        d.(disks := k, controller := c)
      else d
  }

  function Consumed(d: Daemon, s: Settings, batch: seq<Event>): (r: Daemon)
    requires d.Valid()
    ensures r.Valid()
  {
    if batch == [] then d
    else EventHandled(Consumed(d, s, batch[..|batch| - 1]), s, batch[|batch| - 1])
  }

  function Batch(d: Daemon, s: Settings, batch: Option<seq<Event>>, now: Time): (r: (Daemon, Status))
    requires d.Valid()
    ensures r.0.Valid()
  {
    if batch.None? then (d, Ok)
    else
      var d1 := Consumed(d, s, batch.value);
      if s.networkEnabled then
        var (n, c, e, _) := N.Rendered(d1.network, d1.controller, s, now);
        (d1.(network := n, controller := c), e)
      else (d1, Ok)
  }

  /** One round of the loop, in dispatch order; the flag says whether the loop
      goes on. */
  function Woken(d: Daemon, s: Settings, w: Wakeup): (r: (Daemon, bool))
    requires d.Valid()
    ensures r.0.Valid()
  {
    var d0 := Elapse(d, w.at);
    if w.failed || w.signal then (d0, false)
    else
      var (d1, e1) := NetworkTimer(d0, s, w.networkClock);
      if e1 != Ok then (d1, false)
      else
        var (d2, e2) := DiskTimer(d1, s, w.diskClock);
        if e2 != Ok then (d2, false)
        else
          var (d3, e3) := Uevents(d2, s, w.hotplug, w.synced);
          if e3 != Ok then (d3, false)
          else
            var (d4, e4) := Batch(d3, s, w.batch, w.renderClock);
            (d4, e4 == Ok && !w.hangup)
  }

  function Loop(d: Daemon, s: Settings, ws: seq<Wakeup>): (r: (Daemon, bool))
    requires d.Valid()
    ensures r.0.Valid()
  {
    if ws == [] then (d, true)
    else
      var (d1, running) := Loop(d, s, ws[..|ws| - 1]);
      if running then Woken(d1, s, ws[|ws| - 1]) else (d1, false)
  }

  /** The wake-ups with the kernel's answers to the map updates of their resyncs. */
  function Answered(ws: seq<Wakeup>, answers: seq<bool>): (r: seq<Wakeup>)
    requires |answers| == |ws|
    ensures |r| == |ws|
  {
    seq(|ws|, k requires 0 <= k < |ws| => ws[k].(synced := answers[k]))
  }

  lemma {:induction false} LoopStops(d: Daemon, s: Settings, ws: seq<Wakeup>, k: nat)
    requires d.Valid() && k <= |ws| && !Loop(d, s, ws[..k]).1
    ensures Loop(d, s, ws) == Loop(d, s, ws[..k])
    decreases |ws|
  {
    hide Woken;
    if k == |ws| {
      assert ws[..k] == ws;
    } else {
      var prefix := ws[..|ws| - 1];
      assert prefix[..k] == ws[..k];
      LoopStops(d, s, prefix, k);
    }
  }

  lemma LoopGoesOn(d: Daemon, s: Settings, ws: seq<Wakeup>, w: Wakeup)
    requires d.Valid() && Loop(d, s, ws).1
    ensures Loop(d, s, ws + [w]) == Woken(Loop(d, s, ws).0, s, w)
  {
    hide Woken;
    assert (ws + [w])[..|ws|] == ws;
  }

  /** A round that ends the loop decides the answers that are still to come. */
  lemma AnsweredPrefix(ws: seq<Wakeup>, answers: seq<bool>, k: nat, answer: bool)
    requires k < |ws| && |answers| == k
    ensures var all := answers + [answer] + seq(|ws| - k - 1, _ => true);
            && |all| == |ws|
            && Answered(ws, all)[..k + 1] == Answered(ws[..k], answers) + [ws[k].(synced := answer)]
            && Answered(ws[..k + 1], answers + [answer]) == Answered(ws[..k], answers) + [ws[k].(synced := answer)]
  {
  }

  // ----- startup -----

  function PowerApplied(c: Controller, s: Settings): (r: (Controller, Status))
    requires c.Valid()
    ensures r.0.Valid()
  {
    var (c1, e1) := ColorSet(c, LED_POWER, s.powerColor);
    if e1 != Ok then (c1, e1)
    else
      var (c2, e2) := BrightnessSet(c1, LED_POWER, Low8(s.powerBrightness));
      if e2 != Ok then (c2, e2)
      else
        match s.powerMode
        case PowerOn => OnSet(c2, LED_POWER, true)
        case PowerBlink => BlinkSet(c2, LED_POWER, Low16(s.powerOnMs), Low16(s.powerOffMs), false)
        case PowerBreath => BlinkSet(c2, LED_POWER, Low16(s.powerOnMs), Low16(s.powerOffMs), true)
  }

  /** Startup with `count` slots; None when any step fails. */
  function Started(bus: Bus, s: Settings, count: nat, entries: Option<seq<BlockEntry>>): (r: Option<Daemon>)
    requires bus.Valid() && count <= DISK_COUNT
    ensures r.Some? ==> r.value.Valid()
  {
    var c0 := Opened(bus);
    var (c1, e1) := if s.powerEnabled then PowerApplied(c0, s) else (c0, Ok);
    if e1 != Ok then None
    else
      var (k, c2, e2) := if s.disksEnabled then D.Rescanned(D.Fresh(count), c1, s, entries)
                         else (D.Fresh(0), c1, Ok);
      if e2 != Ok then None
      else
        var (n, c3, e3) := if s.networkEnabled then N.Started(c2, s) else (N.IDLE, c2, Ok);
        if e3 != Ok then None else Some(Daemon(c3, k, n))
  }

  // ----- invariant -----

  ghost predicate PowerShown(led: Led, s: Settings) {
    && led.color == s.powerColor && led.brightness == s.powerBrightness
    && match s.powerMode
       case PowerOn => led.mode == On
       case PowerBlink => led.mode == Blink && led.onTime == s.powerOnMs
                          && led.cycle as int == s.powerOnMs as int + s.powerOffMs as int
       case PowerBreath => led.mode == Breath && led.onTime == s.powerOnMs
                           && led.cycle as int == s.powerOnMs as int + s.powerOffMs as int
  }

  ghost predicate NetworkOk(n: N.Network, c: Controller, s: Settings) {
    s.networkEnabled ==> N.Invariant(n, c, s) && N.Settled(n)
  }

  ghost predicate PowerOk(c: Controller, s: Settings)
    requires c.Valid()
  {
    s.powerEnabled ==> PowerShown(c.bus.leds[LED_POWER], s)
  }

  ghost predicate Invariant(d: Daemon, s: Settings) {
    && d.Valid()
    && D.Invariant(d.disks, d.controller, s)
    && DistinctDevs(d.disks.slots, d.disks.count)
    && NetworkOk(d.network, d.controller, s)
    && PowerOk(d.controller, s)
  }

  /** Every LED update so far that mattered got through. */
  ghost predicate AllKnown(d: Daemon, s: Settings)
    requires d.Valid()
  {
    D.AllKnown(d.disks, d.controller) && (s.networkEnabled ==> N.Known(d.controller))
  }

  /** Frame: a step that kept LEDs 0 and 1 to themselves. */
  ghost predicate LowLedsKept(c: Controller, c1: Controller) {
    && c.Valid() && c1.Valid()
    && forall j :: 0 <= j < LED_DISK_FIRST ==> c1.cache[j] == c.cache[j] && c1.bus.leds[j] == c.bus.leds[j]
  }

  lemma DiskStepKeepsRest(n: N.Network, c: Controller, c1: Controller, s: Settings)
    requires NetworkOk(n, c, s) && Coherent(c1) && LowLedsKept(c, c1) && PowerOk(c, s)
    ensures NetworkOk(n, c1, s) && PowerOk(c1, s)
    ensures N.Known(c) == N.Known(c1)
  {
    assert LED_NETWORK < LED_DISK_FIRST;
  }

  lemma NetworkStepKeepsRest(k: D.Disks, c: Controller, c1: Controller, s: Settings)
    requires D.Invariant(k, c, s) && Coherent(c1) && OnlyTouches(c, c1, LED_NETWORK) && PowerOk(c, s)
    ensures D.Invariant(k, c1, s) && PowerOk(c1, s)
    ensures D.AllKnown(k, c) == D.AllKnown(k, c1)
  {
    forall i | 0 <= i < k.count ensures c1.cache[D.LedOf(i)] == c.cache[D.LedOf(i)] {
      assert D.LedOf(i) != LED_NETWORK;
    }
  }

  /** The invariant holds, the round goes on, and on a healthy bus nothing
      becomes unknown. */
  ghost predicate Kept(d: Daemon, d1: Daemon, s: Settings)
    requires d.Valid()
  {
    && Invariant(d1, s)
    && d1.disks.count == d.disks.count
    && (d.controller.bus.Healthy() ==> d1.controller.bus.Healthy())
    && (d.controller.bus.Healthy() && AllKnown(d, s) ==> AllKnown(d1, s))
  }

  lemma ElapseKeeps(d: Daemon, s: Settings, at: Time)
    requires Invariant(d, s)
    ensures Kept(d, Elapse(d, at), s)
  {
    forall i | 0 <= i < d.disks.count && d.disks.slots[i].active
      ensures WakesBy(Elapsed(d.disks.timer, at), d.disks.slots[i].deadline)
    {
      ElapsedStillWakes(d.disks.timer, at, d.disks.slots[i].deadline);
    }
  }

  lemma NetworkTimerKeeps(d: Daemon, s: Settings, now: Time)
    requires Invariant(d, s)
    ensures var (d1, e) := NetworkTimer(d, s, now); Kept(d, d1, s) && e == Ok
  {
    hide N.TimerHandled;
    if s.networkEnabled && d.network.timer.Expired? {
      N.TimerKeeps(d.network, d.controller, s, now);
      NetworkStepKeepsRest(d.disks, d.controller, N.TimerHandled(d.network, d.controller, s, now).1, s);
    }
  }

  lemma DiskTimerKeeps(d: Daemon, s: Settings, now: Time)
    requires Invariant(d, s)
    ensures var (d1, e) := DiskTimer(d, s, now); Kept(d, d1, s) && e == Ok
  {
    hide D.TimerHandled, D.SlotPolicy;
    if s.disksEnabled && d.disks.timer.Expired? {
      D.TimerKeeps(d.disks, d.controller, s, now);
      DiskStepKeepsRest(d.network, d.controller, D.TimerHandled(d.disks, d.controller, s, now).1, s);
    }
  }

  lemma UeventsKeep(d: Daemon, s: Settings, h: Option<Hotplug>, synced: bool)
    requires Invariant(d, s)
    requires h.Some? && h.value.entries.Some? ==> Listing(h.value.entries.value)
    ensures var (d1, e) := Uevents(d, s, h, synced);
            Kept(d, d1, s) && (synced && (h.Some? ==> !h.value.failed) ==> e == Ok)
  {
    hide D.SlotsRescanned, D.SlotPolicy;
    if s.disksEnabled && h.Some? && !h.value.failed && h.value.relevant && h.value.entries.Some? {
      D.RescanKeeps(d.disks, d.controller, s, h.value.entries.value);
      DiskStepKeepsRest(d.network, d.controller, D.Rescanned(d.disks, d.controller, s, h.value.entries).1, s);
    }
  }

  /** Between two renders pending traffic may be waiting for the render that
      ends the batch. */
  ghost predicate InBatch(d: Daemon, s: Settings) {
    && d.Valid()
    && D.Invariant(d.disks, d.controller, s)
    && DistinctDevs(d.disks.slots, d.disks.count)
    && (s.networkEnabled ==> N.Invariant(d.network, d.controller, s))
    && PowerOk(d.controller, s)
  }

  lemma EventKeeps(d: Daemon, s: Settings, event: Event)
    requires InBatch(d, s)
    ensures var d1 := EventHandled(d, s, event);
            && InBatch(d1, s) && d1.disks.count == d.disks.count
            && (d.controller.bus.Healthy() ==> d1.controller.bus.Healthy())
            && (d.controller.bus.Healthy() && AllKnown(d, s) ==> AllKnown(d1, s))
  {
    hide D.ActivityHandled, D.SlotPolicy;
    match event
    case Junk =>
    case Traffic(rx, tx) =>
      if s.networkEnabled {
        N.SampleKeeps(d.network, d.controller, s, rx, tx);
      }
    case Disk(led, at) =>
      if s.disksEnabled {
        D.ActivityKeeps(d.disks, d.controller, s, led, at);
      }
  }

  lemma {:induction false} ConsumedKeeps(d: Daemon, s: Settings, batch: seq<Event>)
    requires InBatch(d, s)
    ensures var d1 := Consumed(d, s, batch);
            && InBatch(d1, s) && d1.disks.count == d.disks.count
            && (d.controller.bus.Healthy() ==> d1.controller.bus.Healthy())
            && (d.controller.bus.Healthy() && AllKnown(d, s) ==> AllKnown(d1, s))
  {
    if batch != [] {
      ConsumedKeeps(d, s, batch[..|batch| - 1]);
      EventKeeps(Consumed(d, s, batch[..|batch| - 1]), s, batch[|batch| - 1]);
    }
  }

  lemma BatchKeeps(d: Daemon, s: Settings, batch: Option<seq<Event>>, now: Time)
    requires Invariant(d, s)
    ensures var (d1, e) := Batch(d, s, batch, now); Kept(d, d1, s) && e == Ok
  {
    hide N.Rendered, EventHandled, D.SlotPolicy;
    if batch.Some? {
      ConsumedKeeps(d, s, batch.value);
      var d1 := Consumed(d, s, batch.value);
      if s.networkEnabled {
        N.RenderedKeeps(d1.network, d1.controller, s, now);
        NetworkStepKeepsRest(d1.disks, d1.controller, N.Rendered(d1.network, d1.controller, s, now).1, s);
      }
    }
  }

  /** Events move activity, not devices. */
  lemma {:induction false} ConsumedKeepsDevices(d: Daemon, s: Settings, batch: seq<Event>)
    requires d.Valid()
    ensures var k, k1 := d.disks, Consumed(d, s, batch).disks;
            && k1.count == k.count
            && forall i :: 0 <= i < DISK_COUNT ==>
                 k1.slots[i] == k.slots[i].(active := k1.slots[i].active, deadline := k1.slots[i].deadline)
  {
    if batch != [] {
      ConsumedKeepsDevices(d, s, batch[..|batch| - 1]);
      EventKeepsDevices(Consumed(d, s, batch[..|batch| - 1]), s, batch[|batch| - 1]);
    }
  }

  lemma EventKeepsDevices(d: Daemon, s: Settings, event: Event)
    requires d.Valid()
    ensures var k, k1 := d.disks, EventHandled(d, s, event).disks;
            && k1.count == k.count
            && forall i :: 0 <= i < DISK_COUNT ==>
                 k1.slots[i] == k.slots[i].(active := k1.slots[i].active, deadline := k1.slots[i].deadline)
  {
    hide BlinkSet;
  }

  lemma BatchKeepsDevices(d: Daemon, s: Settings, batch: Option<seq<Event>>, now: Time)
    requires d.Valid()
    ensures var k, k1 := d.disks, Batch(d, s, batch, now).0.disks;
            && k1.count == k.count
            && forall i :: 0 <= i < DISK_COUNT ==>
                 k1.slots[i] == k.slots[i].(active := k1.slots[i].active, deadline := k1.slots[i].deadline)
  {
    hide N.Rendered, Consumed;
    if batch.Some? {
      ConsumedKeepsDevices(d, s, batch.value);
    }
  }

  /** One round: it keeps everything, and it ends the loop only on a signal, on an
      error of `poll`, when hot-plug messages cannot be received, or when the
      kernel refuses a map update. */
  lemma WokenKeeps(d: Daemon, s: Settings, w: Wakeup)
    requires Invariant(d, s) && Plausible(w)
    ensures var (d1, running) := Woken(d, s, w);
            Kept(d, d1, s) && (!w.Stops() && w.synced ==> running)
  {
    hide NetworkTimer, DiskTimer, Uevents, Batch, AllKnown, D.Invariant;
    var d0 := Elapse(d, w.at);
    ElapseKeeps(d, s, w.at);
    var (d1, _) := NetworkTimer(d0, s, w.networkClock);
    NetworkTimerKeeps(d0, s, w.networkClock);
    var (d2, _) := DiskTimer(d1, s, w.diskClock);
    DiskTimerKeeps(d1, s, w.diskClock);
    var (d3, _) := Uevents(d2, s, w.hotplug, w.synced);
    UeventsKeep(d2, s, w.hotplug, w.synced);
    BatchKeeps(d3, s, w.batch, w.renderClock);
  }

  lemma {:induction false} LoopKeeps(d: Daemon, s: Settings, ws: seq<Wakeup>)
    requires Invariant(d, s) && forall k :: 0 <= k < |ws| ==> Plausible(ws[k])
    ensures Kept(d, Loop(d, s, ws).0, s)
    ensures (forall k :: 0 <= k < |ws| ==> !ws[k].Stops() && ws[k].synced) ==> Loop(d, s, ws).1
  {
    if ws != [] {
      LoopKeeps(d, s, ws[..|ws| - 1]);
      WokenKeeps(Loop(d, s, ws[..|ws| - 1]).0, s, ws[|ws| - 1]);
    }
  }

  // ----- startup and whole runs -----

  lemma PowerAppliedKeeps(c: Controller, s: Settings)
    requires Coherent(c) && Usable(s)
    ensures var (c1, e) := PowerApplied(c, s);
            && Coherent(c1) && OnlyTouches(c, c1, LED_POWER)
            && (e == Ok ==> PowerShown(c1.bus.leds[LED_POWER], s))
            && (c.bus.Healthy() ==> e == Ok && c1.bus.Healthy())
  {
    hide StatusChanged, ColorSet, BrightnessSet, OnSet, BlinkSet;
    TimingIsExact(s, 0);
    var (c1, e1) := ColorSet(c, LED_POWER, s.powerColor);
    ColorEnds(c, LED_POWER, s.powerColor);
    EndsCoherent(c, Color(LED_POWER, s.powerColor), c1, e1);
    if e1 == Ok {
      var level := Low8(s.powerBrightness);
      var (c2, e2) := BrightnessSet(c1, LED_POWER, level);
      BrightnessEnds(c1, LED_POWER, level);
      EndsCoherent(c1, Brightness(LED_POWER, level), c2, e2);
      if e2 == Ok {
        PowerModeKeeps(c2, s);
      }
    }
  }

  /** The last step of the power LED; -EINVAL cannot happen. */
  lemma PowerModeKeeps(c: Controller, s: Settings)
    requires Coherent(c) && Usable(s)
    requires c.bus.leds[LED_POWER].color == s.powerColor
    requires c.bus.leds[LED_POWER].brightness == s.powerBrightness
    ensures var (c1, e) := match s.powerMode
              case PowerOn => OnSet(c, LED_POWER, true)
              case PowerBlink => BlinkSet(c, LED_POWER, Low16(s.powerOnMs), Low16(s.powerOffMs), false)
              case PowerBreath => BlinkSet(c, LED_POWER, Low16(s.powerOnMs), Low16(s.powerOffMs), true);
            && Coherent(c1) && OnlyTouches(c, c1, LED_POWER) && e != Invalid
            && (e == Ok ==> PowerShown(c1.bus.leds[LED_POWER], s))
            && (c.bus.Healthy() ==> e == Ok && c1.bus.Healthy())
  {
    hide StatusChanged, OnSet, BlinkSet;
    TimingIsExact(s, 0);
    var on, off := Low16(s.powerOnMs), Low16(s.powerOffMs);
    match s.powerMode
    case PowerOn =>
      OnEnds(c, LED_POWER, true);
      var (c1, e) := OnSet(c, LED_POWER, true);
      EndsCoherent(c, OnOff(LED_POWER, true), c1, e);
    case PowerBlink =>
      BlinkEnds(c, LED_POWER, on, off, false);
      var (c1, e) := BlinkSet(c, LED_POWER, on, off, false);
      EndsCoherent(c, Flash(LED_POWER, on, off, false), c1, e);
    case PowerBreath =>
      BlinkEnds(c, LED_POWER, on, off, true);
      var (c1, e) := BlinkSet(c, LED_POWER, on, off, true);
      EndsCoherent(c, Flash(LED_POWER, on, off, true), c1, e);
  }

  /** The disk part of startup, from a controller that knows no disk LED. */
  lemma DisksStart(c: Controller, s: Settings, count: nat, entries: seq<BlockEntry>)
    requires Coherent(c) && Usable(s) && count <= DISK_COUNT && Listing(entries)
    requires forall j :: LED_DISK_FIRST <= j < LED_COUNT ==> c.cache[j] == EMPTY_CACHE
    ensures var (k, c1, e) := D.Rescanned(D.Fresh(count), c, s, Some(entries));
            && D.Invariant(k, c1, s) && k.count == count && DistinctDevs(k.slots, count)
            && LowLedsKept(c, c1)
            && (e == Ok ==> D.AllKnown(k, c1))
            && (c.bus.Healthy() ==> e == Ok && c1.bus.Healthy())
  {
    hide D.SlotsRescanned;
    forall i | 0 <= i < count
      ensures D.Replaced(D.Fresh(count).slots[i], Discovered(entries, count)[i])
    {
      D.FreshReachesEverySlot(count, entries, i);
    }
    D.FreshIsInvariant(c, s, count);
    D.RescanKeeps(D.Fresh(count), c, s, entries);
  }

  /** Startup on any bus: if it succeeds, the invariant holds and every LED is
      known to show its initial state; on a healthy bus with a readable listing
      it succeeds. */
  lemma StartedKeeps(bus: Bus, s: Settings, count: nat, entries: Option<seq<BlockEntry>>)
    requires bus.Valid() && Usable(s) && count <= DISK_COUNT
    requires entries.Some? ==> Listing(entries.value)
    ensures var r := Started(bus, s, count, entries);
            && (r.Some? ==> Invariant(r.value, s) && AllKnown(r.value, s)
                            && r.value.disks.count == if s.disksEnabled then count else 0)
            && (bus.Healthy() && entries.Some? ==> r.Some? && r.value.controller.bus.Healthy())
  {
    hide PowerApplied, D.Rescanned, N.Started;
    var c0 := Opened(bus);
    var (c1, e1) := if s.powerEnabled then PowerApplied(c0, s) else (c0, Ok);
    PowerAppliedKeeps(c0, s);
    if e1 == Ok {
      var n := if s.disksEnabled then count else 0;
      var (k, c2, e2) := if s.disksEnabled then D.Rescanned(D.Fresh(count), c1, s, entries)
                         else (D.Fresh(0), c1, Ok);
      if s.disksEnabled {
        if entries.Some? {
          DisksStart(c1, s, count, entries.value);
        } else {
          D.UnreadableListing(D.Fresh(count), c1, s);
        }
      } else {
        D.FreshIsInvariant(c1, s, 0);
      }
      if e2 == Ok {
        N.StartedKeeps(c2, s);
        var (w, c3, e3) := if s.networkEnabled then N.Started(c2, s) else (N.IDLE, c2, Ok);
        NetworkStepKeepsRest(k, c2, c3, s);
      }
    }
  }

  /** Agreement of one disk LED with its slot in a running daemon. */
  ghost predicate DiskShown(d: Daemon, s: Settings, i: nat)
    requires d.Valid() && i < d.disks.count
  {
    var slot, e, led := d.disks.slots[i], d.controller.cache[D.LedOf(i)], d.controller.bus.leds[D.LedOf(i)];
    && (slot.active ==> slot.present && WakesBy(d.disks.timer, slot.deadline))
    && (slot.active || e.mode != ModeUnknown ==> D.ModeShown(slot, led, s))
    && (D.Known(slot, e) ==> D.Shows(slot, led, s, i))
  }

  /** Agreement of the network LED. */
  ghost predicate NetworkShown(d: Daemon, s: Settings)
    requires d.Valid()
  {
    var n, led := d.network, d.controller.bus.leds[LED_NETWORK];
    && (n.ledOn ==> n.timer != Disarmed && led.mode == On && (led.color == s.rxColor || led.color == s.txColor))
    && (!n.ledOn ==> !n.Pending() && (N.Known(d.controller) ==> led.mode == Off))
    && led.brightness == s.networkBrightness
  }

  lemma InvariantShows(d: Daemon, s: Settings)
    requires Invariant(d, s)
    ensures forall i :: 0 <= i < d.disks.count ==> DiskShown(d, s, i)
    ensures s.networkEnabled ==> NetworkShown(d, s)
  {
    forall i | 0 <= i < d.disks.count ensures DiskShown(d, s, i) {
      D.DeviceShowsPolicy(d.disks, d.controller, s, i);
      assert D.SlotPolicy(d.disks.slots[i], d.controller.cache[D.LedOf(i)], s, i);
    }
    if s.networkEnabled {
      N.DeviceShowsPulse(d.network, d.controller, s);
    }
  }

  /** Whole runs under arbitrary bus faults. At every return to `poll`: an active
      slot is present, its LED blinks with the configured timing, and the timer
      will wake the daemon by its deadline; every LED whose last update got
      through shows its policy; a network pulse is lit and will end, and no
      traffic is stranded without one; the power LED never changes. */
  lemma WholeRun(bus: Bus, s: Settings, count: nat, entries: Option<seq<BlockEntry>>, ws: seq<Wakeup>)
    requires bus.Valid() && Usable(s) && count <= DISK_COUNT
    requires entries.Some? ==> Listing(entries.value)
    requires forall k :: 0 <= k < |ws| ==> Plausible(ws[k])
    requires Started(bus, s, count, entries).Some?
    ensures var d := Loop(Started(bus, s, count, entries).value, s, ws).0;
            && (forall i :: 0 <= i < d.disks.count ==> DiskShown(d, s, i))
            && (s.networkEnabled ==> NetworkShown(d, s))
            && (s.powerEnabled ==> PowerShown(d.controller.bus.leds[LED_POWER], s))
  {
    hide Started, Woken;
    StartedKeeps(bus, s, count, entries);
    LoopKeeps(Started(bus, s, count, entries).value, s, ws);
    InvariantShows(Loop(Started(bus, s, count, entries).value, s, ws).0, s);
  }

  /** Whole runs without bus faults: startup succeeds, only a signal, an error of
      `poll` or the hot-plug socket, or the kernel maps end the loop, and at every
      return to `poll` each disk LED shows exactly its slot — blinking, steady in
      its colour and brightness, or off — and the network LED is on exactly while
      a pulse is. */
  lemma HealthyRun(bus: Bus, s: Settings, count: nat, entries: seq<BlockEntry>, ws: seq<Wakeup>)
    requires bus.Valid() && bus.Healthy() && Usable(s) && count <= DISK_COUNT && Listing(entries)
    requires forall k :: 0 <= k < |ws| ==> Plausible(ws[k])
    ensures Started(bus, s, count, Some(entries)).Some?
    ensures var (d, running) := Loop(Started(bus, s, count, Some(entries)).value, s, ws);
            && d.disks.count == (if s.disksEnabled then count else 0)
            && (forall i :: 0 <= i < d.disks.count ==>
                  D.Shows(d.disks.slots[i], d.controller.bus.leds[i + 2], s, i))
            && (forall i :: 0 <= i < d.disks.count && d.disks.slots[i].present ==>
                  d.controller.bus.leds[i + 2].color == if i in s.diskColors then s.diskColors[i] else s.diskColor)
            && (s.networkEnabled ==> d.controller.bus.leds[1].mode == if d.network.ledOn then On else Off)
            && (s.powerEnabled ==> PowerShown(d.controller.bus.leds[0], s))
            && ((forall k :: 0 <= k < |ws| ==> !ws[k].Stops() && ws[k].synced) ==> running)
  {
    hide Started, Woken;
    StartedKeeps(bus, s, count, Some(entries));
    var d0 := Started(bus, s, count, Some(entries)).value;
    LoopKeeps(d0, s, ws);
    var d := Loop(d0, s, ws).0;
    InvariantShows(d, s);
    forall i | 0 <= i < d.disks.count
      ensures D.Shows(d.disks.slots[i], d.controller.bus.leds[D.LedOf(i)], s, i)
    {
      assert DiskShown(d, s, i);
    }
    assert forall i :: 0 <= i < d.disks.count ==> D.LedOf(i) as int == i + 2;
  }

  // ----- a run that leaves an idle disk blinking -----

  const ACKED := Acks(1, false)
  const LOST := WriteFails(true)

  /** Four attempts get through, five are lost. */
  const SCRIPT := [ACKED, ACKED, ACKED, ACKED, LOST, LOST, LOST, LOST, LOST]

  /** One event of the first disk at time 0, then the wake-up at its deadline. */
  function ActivityWakeup(): Wakeup {
    Wakeup(0, false, false, false, None, true, Some([Disk(LED_DISK_FIRST, 0)]), 0, 0, 0)
  }

  function DeadlineWakeup(s: Settings): Wakeup
    requires Usable(s)
  {
    var at := s.diskHoldMs * NS_PER_MS;
    Wakeup(at, false, false, false, None, true, None, at, at, at)
  }

  lemma ScriptedStart(bus: Bus, s: Settings, entry: BlockEntry)
    requires bus.Valid() && bus.faults == SCRIPT && Usable(s)
    requires s.disksEnabled && !s.powerEnabled && !s.networkEnabled && Backs(entry, 0)
    ensures var r := Started(bus, s, 1, Some([entry]));
            && r.Some? && Invariant(r.value, s) && AllKnown(r.value, s)
            && r.value.disks.count == 1 && r.value.disks.slots[0].present && !r.value.disks.slots[0].active
            && r.value.controller.bus.faults == SCRIPT[3..] && r.value.disks.timer == Disarmed
  {
    hide D.Steadied;
    StartedKeeps(bus, s, 1, Some([entry]));
    DiscoveredIsAMatching([entry], 1);
    D.FreshReachesEverySlot(1, [entry], 0);
    D.SteadiedAcknowledged(Invalidated(Opened(bus), D.LedOf(0)), s, 0);
    assert Backs([entry][0], 0);
    OneRound(D.Fresh(1), Opened(bus), s, Discovered([entry], 1));
  }

  lemma OneRound(d: D.Disks, c: Controller, s: Settings, found: seq<Slot>)
    requires d.Valid() && c.Valid() && d.count == 1 && |found| == DISK_COUNT
    ensures D.SlotsRescanned(d, c, s, found, 1) == D.SlotRescanned(d, c, s, found[0], 0)
  {
  }

  lemma ScriptedActivity(d: Daemon, s: Settings)
    requires Invariant(d, s) && AllKnown(d, s) && s.disksEnabled && !s.networkEnabled
    requires d.disks.count == 1 && d.disks.slots[0].present && !d.disks.slots[0].active
    requires d.controller.bus.faults == SCRIPT[3..] && d.disks.timer == Disarmed
    ensures var (d1, running) := Woken(d, s, ActivityWakeup());
            && running && Invariant(d1, s) && AllKnown(d1, s) && d1.disks.count == 1 && d1.disks.slots[0].active
            && d1.disks.slots[0].deadline as int == s.diskHoldMs as int * NS_PER_MS
            && d1.disks.timer == Armed(d1.disks.slots[0].deadline) && Deaf(d1.controller.bus, RETRY_COUNT)
  {
    hide D.ActivityHandled, D.Policy, D.AllKnown, Coherent, Acknowledged, Rest, Woken;
    ActivityRound(d, s);
    WokenKeeps(d, s, ActivityWakeup());
    TimingIsExact(s, 0);
    D.ActivityKeeps(d.disks, d.controller, s, LED_DISK_FIRST, 0);
    ScriptedOutcome();
    var d1 := Woken(d, s, ActivityWakeup()).0;
    ArmedForOnly(d1.disks);
  }

  /** With nothing else to do, the round is the handling of its event. */
  lemma ActivityRound(d: Daemon, s: Settings)
    requires d.Valid() && s.disksEnabled && !s.networkEnabled && d.disks.timer == Disarmed
    ensures var (k, c, _) := D.ActivityHandled(d.disks, d.controller, s, LED_DISK_FIRST, 0);
            var (d1, running) := Woken(d, s, ActivityWakeup());
            running && d1.disks == k && d1.controller == c
  {
    hide D.ActivityHandled;
    var d0, event := Elapse(d, 0), Disk(LED_DISK_FIRST, 0);
    assert [event][..0] == [];
    assert Consumed(d0, s, []) == d0;
    assert Consumed(d0, s, [event]) == EventHandled(d0, s, event);
    assert d0.disks == d.disks;
  }

  lemma ScriptedOutcome()
    ensures Acknowledged(SCRIPT[3..], RETRY_COUNT)
    ensures Rest(SCRIPT[3..], RETRY_COUNT) == [LOST, LOST, LOST, LOST, LOST]
  {
    assert SCRIPT[3..] == [ACKED, LOST, LOST, LOST, LOST, LOST];
    assert SCRIPT[3..][0].Accepted();
  }

  lemma ArmedForOnly(d: D.Disks)
    requires d.Valid() && d.count == 1 && d.slots[0].active && D.ArmedExactly(d)
    ensures d.timer == Armed(d.slots[0].deadline)
  {
  }

  /** The failing run exists for every configuration that watches disks only,
      every disk and every device: startup and one activity event get through,
      the five writes at the deadline are lost, and from then on the disk is idle,
      the timer disarmed, the bus healthy and the LED blinking. */
  lemma FailedRestoreIsReachable(bus: Bus, s: Settings, entry: BlockEntry)
    requires bus.Valid() && bus.faults == SCRIPT && Usable(s)
    requires s.disksEnabled && !s.powerEnabled && !s.networkEnabled && Backs(entry, 0)
    ensures Started(bus, s, 1, Some([entry])).Some?
    ensures var d0 := Started(bus, s, 1, Some([entry])).value;
            var (d, running) := Loop(d0, s, [ActivityWakeup(), DeadlineWakeup(s)]);
            && running && d.disks.count == 1 && d.disks.slots[0].present && !d.disks.slots[0].active
            && d.disks.timer == Disarmed && d.controller.bus.Healthy()
            && d.controller.bus.leds[LED_DISK_FIRST].mode == Blink
  {
    hide Started, D.TimerHandled;
    ScriptedStart(bus, s, entry);
    var d0 := Started(bus, s, 1, Some([entry])).value;
    ScriptedActivity(d0, s);
    var d1 := Woken(d0, s, ActivityWakeup()).0;
    var at := s.diskHoldMs * NS_PER_MS;
    D.FailedRestoreIsFinal(Elapse(d1, at).disks, d1.controller, s, at, 0);
    D.TimerKeeps(Elapse(d1, at).disks, d1.controller, s, at);
    var w1, w2 := ActivityWakeup(), DeadlineWakeup(s);
    assert [w1, w2][..1] == [w1] && [w1][..0] == [];
    assert Loop(d0, s, [w1]) == Woken(Loop(d0, s, []).0, s, w1);
  }

  // ----- the event loop in place -----

  class App {
    const settings: Settings
    const controller: LedController
    const network: N.NetworkLed
    const disks: D.DiskLeds
    const runtime: BpfRuntime

    /** The controller is opened; slots exist only when disks are enabled. */
    constructor (device: Device, settings: Settings, count: nat, runtime: BpfRuntime)
      requires device.bus.Valid() && count <= DISK_COUNT && runtime.Safe()
      ensures this.settings == settings && this.runtime == runtime && controller.device == device
      ensures fresh(controller) && fresh(controller.cache)
      ensures fresh(network) && fresh(network.scheduler) && fresh(network.timer)
      ensures fresh(disks) && fresh(disks.slots) && fresh(disks.timer)
      ensures disks.count == if settings.disksEnabled then count else 0
      ensures Valid() && State() == Daemon(Opened(device.bus), D.Fresh(disks.count), N.IDLE)
    {
      var c := new LedController(device);
      var n := new N.NetworkLed(c, settings);
      var d := new D.DiskLeds(c, settings, if settings.disksEnabled then count else 0);
      this.settings, this.controller, this.network, this.disks, this.runtime := settings, c, n, d, runtime;
    }

    /** Both machines drive the one controller, with the same settings and a
        timer each. */
    predicate Wired() {
      && network.controller == controller && disks.controller == controller
      && network.settings == settings && disks.settings == settings
      && network.timer != disks.timer
    }

    function State(): Daemon
      reads controller.cache, controller.device, network, network.scheduler, network.timer, disks.slots, disks.timer
    {
      Daemon(controller.State(), disks.State(), network.State())
    }

    ghost predicate Valid()
      reads controller.cache, controller.device, network, network.scheduler, network.timer, disks.slots, disks.timer
      reads runtime
    {
      Wired() && controller.Valid() && State().Valid() && runtime.Safe()
    }

    method ApplyPower() returns (error: Status)
      requires Valid()
      modifies controller.cache, controller.device
      ensures Valid() && State() == old(State()).(controller := controller.State())
      ensures (controller.State(), error) == PowerApplied(old(controller.State()), settings)
    {
      hide StatusChanged, ColorSet, BrightnessSet, OnSet, BlinkSet;
      error := controller.SetColor(LED_POWER, settings.powerColor);
      if error != Ok {
        return;
      }
      error := controller.SetBrightness(LED_POWER, Low8(settings.powerBrightness));
      if error != Ok {
        return;
      }
      match settings.powerMode
      case PowerOn =>
        error := controller.SetOn(LED_POWER, true);
      case PowerBlink =>
        error := controller.SetBlink(LED_POWER, Low16(settings.powerOnMs), Low16(settings.powerOffMs), false);
      case PowerBreath =>
        error := controller.SetBlink(LED_POWER, Low16(settings.powerOnMs), Low16(settings.powerOffMs), true);
    }

    /** The three initialisations, in order, stopping at the first error. */
    method InitLeds(entries: Option<seq<BlockEntry>>) returns (error: Status)
      requires Valid() && State() == Daemon(Opened(controller.device.bus), D.Fresh(disks.count), N.IDLE)
      requires !settings.disksEnabled ==> disks.count == 0
      modifies controller.cache, controller.device, disks.slots
      ensures Valid() && State().disks.count == disks.count
      ensures Started(old(controller.device.bus), settings, disks.count, entries) ==
              if error == Ok then Some(State()) else None
    {
      hide PowerApplied, D.Rescanned, N.Started;
      error := Ok;
      if settings.powerEnabled {
        error := ApplyPower();
        if error != Ok {
          return;
        }
      }
      if settings.disksEnabled {
        error := disks.Rescan(entries);
        if error != Ok {
          return;
        }
      }
      if settings.networkEnabled {
        error := network.Start();
      }
    }

    /** Startup: the LEDs, then the collectors, which `loaded` says can be started,
        then the kernel maps. When it succeeds the invariant of the event loop
        holds, every LED shows its initial state, the maps are exactly the slots
        and no other target was ever set; it succeeds when nothing fails. */
    method Start(entries: Option<seq<BlockEntry>>, loaded: bool) returns (error: Status)
      requires Valid() && State() == Daemon(Opened(controller.device.bus), D.Fresh(disks.count), N.IDLE)
      requires Usable(settings) && (!settings.disksEnabled ==> disks.count == 0)
      requires entries.Some? ==> Listing(entries.value)
      modifies controller.cache, controller.device, disks.slots, runtime
      ensures Valid()
      ensures error == Ok ==>
                && Started(old(controller.device.bus), settings, disks.count, entries) == Some(State())
                && Invariant(State(), settings) && AllKnown(State(), settings)
                && (settings.disksEnabled ==> disks.SyncedTo(runtime, disks.count))
                && (settings.disksEnabled && old(runtime.trace) == [] ==>
                      SetsOnly(runtime.trace, 0, runtime.kernel.targets) && A.Addressed(runtime.kernel))
                && (settings.networkEnabled || settings.disksEnabled ==> loaded)
      ensures Started(old(controller.device.bus), settings, disks.count, entries).Some? ==>
                old(runtime.faults) == [] && (loaded || !(settings.networkEnabled || settings.disksEnabled)) ==>
                  error == Ok
      ensures old(runtime.faults) == [] ==> runtime.faults == []
    {
      hide Started, D.Invariant;
      StartedKeeps(controller.device.bus, settings, disks.count, entries);
      error := InitLeds(entries);
      if error == Ok && !loaded && (settings.networkEnabled || settings.disksEnabled) {
        return IoError;
      }
      if error == Ok && settings.disksEnabled {
        ghost var first := runtime.trace == [];
        error := disks.SyncBpf(runtime);
        if error == Ok && first {
          runtime.WholeTrace();
          A.KeptIsAddressed(runtime.interval, runtime.cpus, runtime.trace);
        }
      }
    }

    /** Environment: `poll` returns at time `at`. */
    method Poll(at: Time)
      requires Valid()
      modifies network.timer, disks.timer
      ensures Valid()
      ensures State() == Elapse(old(State()), at)
    {
      network.timer.timer := Elapsed(network.timer.timer, at);
      disks.timer.timer := Elapsed(disks.timer.timer, at);
    }

    method HandleEvent(event: Event)
      requires Valid()
      modifies controller.cache, controller.device, network, disks.slots, disks.timer
      ensures Valid()
      ensures State() == EventHandled(old(State()), settings, event)
    {
      hide D.ActivityHandled;
      match event
      case Junk =>
      case Traffic(rx, tx) =>
        if settings.networkEnabled {
          network.AddSample(rx, tx);
        }
      case Disk(led, at) =>
        if settings.disksEnabled {
          var _ := disks.HandleActivity(led, at);
        }
    }

    method Consume(batch: seq<Event>)
      requires Valid()
      modifies controller.cache, controller.device, network, disks.slots, disks.timer
      ensures Valid()
      ensures State() == Consumed(old(State()), settings, batch)
    {
      hide EventHandled;
      for k := 0 to |batch|
        invariant Valid()
        invariant State() == Consumed(old(State()), settings, batch[..k])
      {
        HandleEvent(batch[k]);
        assert batch[..k + 1][..k] == batch[..k];
      }
      assert batch[..|batch|] == batch;
    }

    method HandleNetworkTimer(now: Time) returns (error: Status)
      requires Valid()
      modifies controller.cache, controller.device, network, network.scheduler, network.timer
      ensures Valid()
      ensures (State(), error) == NetworkTimer(old(State()), settings, now)
    {
      hide N.TimerHandled;
      error := Ok;
      if settings.networkEnabled && network.timer.timer.Expired? {
        error := network.HandleTimer(now);
      }
    }

    method HandleDiskTimer(now: Time) returns (error: Status)
      requires Valid()
      modifies controller.cache, controller.device, disks.slots, disks.timer
      ensures Valid()
      ensures (State(), error) == DiskTimer(old(State()), settings, now)
    {
      hide D.TimerHandled;
      error := Ok;
      if settings.disksEnabled && disks.timer.timer.Expired? {
        error := disks.HandleTimer(now);
      }
    }

    /** Rescan and resync; on success the kernel maps are exactly the slots, and
        every target ever set is still there exactly when no mapped device has
        left or moved. */
    method HandleUevents(h: Option<Hotplug>) returns (error: Status)
      requires Valid() && Invariant(State(), settings)
      requires h.Some? && h.value.entries.Some? ==> Listing(h.value.entries.value)
      modifies controller.cache, controller.device, disks.slots, runtime
      ensures Valid()
      ensures (State(), error) == Uevents(old(State()), settings, h, error == Ok)
      ensures error == Ok && settings.disksEnabled && h.Some? && h.value.relevant ==>
                && disks.SyncedTo(runtime, disks.count)
                && (SetsOnly(runtime.trace, 0, runtime.kernel.targets) <==>
                    SetsOnly(old(runtime.trace), 0, runtime.kernel.targets))
      ensures old(runtime.faults) == [] ==> runtime.faults == [] && (error == Ok || h.value.failed)
      ensures error != Ok ==> h.Some?
      ensures h.None? || !h.value.relevant ==> unchanged(runtime)
    {
      hide D.Rescanned;
      error := Ok;
      if !settings.disksEnabled || h.None? {
        return;
      }
      if h.value.failed {
        return IoError;
      }
      if !h.value.relevant {
        return;
      }
      UeventsKeep(State(), settings, h, true);
      var _ := disks.Rescan(h.value.entries);
      error := disks.SyncBpf(runtime);
    }

    method HandleBatch(batch: Option<seq<Event>>, now: Time) returns (error: Status)
      requires Valid()
      modifies controller.cache, controller.device, network, network.scheduler, network.timer
      modifies disks.slots, disks.timer
      ensures Valid()
      ensures (State(), error) == Batch(old(State()), settings, batch, now)
    {
      hide N.Rendered, Consumed;
      error := Ok;
      if batch.None? {
        return;
      }
      Consume(batch.value);
      if settings.networkEnabled {
        error := network.Render(now);
      }
    }

    /** One round: it does what `Woken` says, where `synced` is whether the
        kernel accepted the map updates. */
    method Round(w: Wakeup) returns (running: bool)
      requires Valid() && Invariant(State(), settings) && Plausible(w)
      modifies controller.cache, controller.device, network, network.scheduler, network.timer
      modifies disks.slots, disks.timer, runtime
      ensures Valid() && Invariant(State(), settings)
      ensures exists synced ::
                (State(), running) == Woken(old(State()), settings, w.(synced := synced)) && (synced || !running)
      ensures old(runtime.faults) == [] ==> runtime.faults == [] && (!w.Stops() ==> running)
      ensures running && settings.disksEnabled && w.hotplug.Some? && w.hotplug.value.relevant ==>
                disks.SyncedTo(runtime, disks.count)
      ensures w.hotplug.None? || !w.hotplug.value.relevant ==> unchanged(runtime)
    {
      hide NetworkTimer, DiskTimer, Uevents, Batch, Invariant;
      ghost var d := State();
      WokenKeeps(d, settings, w.(synced := true));
      WokenKeeps(d, settings, w.(synced := false));
      ElapseKeeps(d, settings, w.at);
      Poll(w.at);
      if w.failed || w.signal {
        assert (State(), false) == Woken(d, settings, w.(synced := false));
        return false;
      }
      NetworkTimerKeeps(State(), settings, w.networkClock);
      var error := HandleNetworkTimer(w.networkClock);
      if error != Ok {
        return false;
      }
      DiskTimerKeeps(State(), settings, w.diskClock);
      error := HandleDiskTimer(w.diskClock);
      if error != Ok {
        return false;
      }
      error := HandleUevents(w.hotplug);
      if error != Ok {
        assert (State(), false) == Woken(d, settings, w.(synced := false));
        return false;
      }
      ghost var d1 := State();
      error := HandleBatch(w.batch, w.renderClock);
      BatchKeepsDevices(d1, settings, w.batch, w.renderClock);
      running := error == Ok && !w.hangup;
      TargetsOfSame(d1.disks.slots, State().disks.slots, disks.count);
      assert (State(), running) == Woken(d, settings, w.(synced := true));
    }

    /** The endless loop, for as many wake-ups as it gets: it does what `Loop` says,
        with the kernel's answers to its map updates; it never loses the invariant,
        every pair of kernel maps the collector could see was safe, and while
        nothing stops it and there is no kernel fault it keeps running. */
    method RunEventLoop(wakeups: seq<Wakeup>) returns (running: bool)
      requires Valid() && Invariant(State(), settings)
      requires forall k :: 0 <= k < |wakeups| ==> Plausible(wakeups[k])
      modifies controller.cache, controller.device, network, network.scheduler, network.timer
      modifies disks.slots, disks.timer, runtime
      ensures Valid() && Invariant(State(), settings)
      ensures exists answers: seq<bool> ::
                |answers| == |wakeups| && (State(), running) == Loop(old(State()), settings, Answered(wakeups, answers))
      ensures old(runtime.faults) == [] && (forall k :: 0 <= k < |wakeups| ==> !wakeups[k].Stops()) ==> running
    {
      hide Woken, Invariant, Loop, Answered;
      running := true;
      ghost var d: Daemon, answers: seq<bool> := State(), [];
      LoopOfNothing(d, settings, Answered(wakeups[..0], []));
      for k := 0 to |wakeups|
        invariant Valid() && Invariant(State(), settings)
        invariant |answers| == k && (State(), true) == Loop(d, settings, Answered(wakeups[..k], answers))
        invariant old(runtime.faults) == [] ==> runtime.faults == []
        invariant running
      {
        ghost var before := State();
        running := Round(wakeups[k]);
        ghost var answer :| (State(), running) == Woken(before, settings, wakeups[k].(synced := answer));
        AnsweredPrefix(wakeups, answers, k, answer);
        LoopGoesOn(d, settings, Answered(wakeups[..k], answers), wakeups[k].(synced := answer));
        if !running {
          ghost var all := answers + [answer] + seq(|wakeups| - k - 1, _ => true);
          LoopStops(d, settings, Answered(wakeups, all), k + 1);
          return;
        }
        answers := answers + [answer];
      }
      assert wakeups[..|wakeups|] == wakeups;
    }
  }

  lemma LoopOfNothing(d: Daemon, s: Settings, ws: seq<Wakeup>)
    requires d.Valid() && ws == []
    ensures Loop(d, s, ws) == (d, true)
  {
  }

  /** The whole program: open, start, and run the loop for as many wake-ups as it
      gets. `ready` and `loaded` say whether the descriptors can be opened and the
      collectors started. It computes the startup and the run that the lemmas above
      are about; with no kernel fault startup succeeds whenever its LED updates do,
      and with nothing that stops it the program is still running. */
  method RunDaemon(device: Device, settings: Settings, count: nat, entries: Option<seq<BlockEntry>>,
                   runtime: BpfRuntime, ready: bool, loaded: bool, wakeups: seq<Wakeup>)
    returns (app: Option<App>, error: Status, running: bool)
    requires device.bus.Valid() && Usable(settings) && count <= DISK_COUNT && runtime.Safe()
    requires entries.Some? ==> Listing(entries.value)
    requires forall k :: 0 <= k < |wakeups| ==> Plausible(wakeups[k])
    modifies device, runtime
    ensures app.Some? <==> ready
    ensures app.None? ==> error != Ok && device.bus == old(device.bus)
    ensures app.Some? ==> app.value.controller.device == device && app.value.settings == settings
    ensures error == Ok ==> app.Some? && app.value.Valid() && Invariant(app.value.State(), settings)
    ensures error == Ok ==>
              var start := Started(old(device.bus), settings, count, entries);
              && start.Some? && (settings.networkEnabled || settings.disksEnabled ==> loaded)
              && exists answers: seq<bool> :: |answers| == |wakeups|
                   && (app.value.State(), running) == Loop(start.value, settings, Answered(wakeups, answers))
    ensures ready && loaded && old(runtime.faults) == [] && Started(old(device.bus), settings, count, entries).Some? ==>
              error == Ok && ((forall k :: 0 <= k < |wakeups| ==> !wakeups[k].Stops()) ==> running)
  {
    hide Started, Invariant, AllKnown, Loop, Answered;
    running := false;
    if !ready {
      return None, IoError, false;
    }
    var live := new App(device, settings, count, runtime);
    app := Some(live);
    StartedCount(device.bus, settings, count, entries);
    error := live.Start(entries, loaded);
    if error == Ok {
      running := live.RunEventLoop(wakeups);
    }
  }

  /** Without disks the number of slots does not matter. */
  lemma StartedCount(bus: Bus, s: Settings, count: nat, entries: Option<seq<BlockEntry>>)
    requires bus.Valid() && count <= DISK_COUNT
    ensures Started(bus, s, if s.disksEnabled then count else 0, entries) == Started(bus, s, count, entries)
  {
  }
}
