/** What one round of the event loop does, told from the state before it, and that
    the daemon's half of the traffic is the one `NetworkFlow` is about. */
module Rounds {
  import opened Types
  import opened Mcu
  import opened LedController
  import opened Settings
  import opened Timers
  import opened Scheduler
  import opened Discovery
  import opened KernelMaps
  import opened Daemon
  import D = DiskLeds
  import N = NetworkLed
  import F = NetworkFlow
  import L = DiskLimiter

  // ----- the parts of a round -----

  /** Neither `poll` nor a signal ends the loop before anything is handled. */
  predicate Handles(w: Wakeup) {
    !w.failed && !w.signal
  }

  /** Hot-plug messages end the loop: they cannot be received, or the kernel refuses
      a map update of the resync that they lead to. */
  predicate PlugFails(s: Settings, w: Wakeup) {
    s.disksEnabled && w.hotplug.Some? &&
    (w.hotplug.value.failed || (w.hotplug.value.relevant && !w.synced))
  }

  /** A round that handles anything: the two timers, hot-plug messages, then the
      events. Each part keeps the invariant and leaves the machines of the others
      alone. */
  lemma Parts(d: Daemon, s: Settings, w: Wakeup) returns (d1: Daemon, d2: Daemon, d3: Daemon)
    requires Invariant(d, s) && Plausible(w) && Handles(w)
    ensures d1 == NetworkTimer(Elapse(d, w.at), s, w.networkClock).0
    ensures d2 == DiskTimer(d1, s, w.diskClock).0
    ensures d3 == Uevents(d2, s, w.hotplug, w.synced).0
    ensures Kept(d, d1, s) && Kept(d1, d2, s) && Kept(d2, d3, s)
    ensures Uevents(d2, s, w.hotplug, w.synced).1 == Ok <==> !PlugFails(s, w)
    ensures var (d4, e4) := Batch(d3, s, w.batch, w.renderClock);
            && Kept(d3, d4, s) && e4 == Ok
            && Woken(d, s, w) == if PlugFails(s, w) then (d3, false) else (d4, !w.hangup)
  {
    hide NetworkTimer, DiskTimer, Batch, AllKnown, D.Invariant, D.Rescanned;
    var d0 := Elapse(d, w.at);
    ElapseKeeps(d, s, w.at);
    d1 := NetworkTimer(d0, s, w.networkClock).0;
    NetworkTimerKeeps(d0, s, w.networkClock);
    d2 := DiskTimer(d1, s, w.diskClock).0;
    DiskTimerKeeps(d1, s, w.diskClock);
    d3 := Uevents(d2, s, w.hotplug, w.synced).0;
    UeventsKeep(d2, s, w.hotplug, w.synced);
    BatchKeeps(d3, s, w.batch, w.renderClock);
  }

  /** Exactly what ends the loop: an error of `poll` or on a descriptor, a signal,
      hot-plug messages that cannot be received, or a refused map update. After an
      error of `poll` and after a signal nothing is handled any more. */
  lemma GoesOnIff(d: Daemon, s: Settings, w: Wakeup)
    requires Invariant(d, s) && Plausible(w)
    ensures Woken(d, s, w).1 <==> !w.failed && !w.signal && !w.hangup && !PlugFails(s, w)
    ensures w.failed || w.signal ==>
              var d1 := Woken(d, s, w).0;
              && d1.controller == d.controller && d1.disks == d.disks.(timer := d1.disks.timer)
              && d1.network == d.network.(timer := d1.network.timer)
  {
    hide NetworkTimer, DiskTimer, Uevents, Batch;
    if Handles(w) {
      var _, _, _ := Parts(d, s, w);
    }
  }

  // ----- the traffic of a batch -----

  /** Bytes that the network events of a batch report for one direction. */
  function Bytes(batch: seq<Event>, isRx: bool): nat {
    if batch == [] then 0
    else
      var last := batch[|batch| - 1];
      Bytes(batch[..|batch| - 1], isRx) + (if !last.Traffic? then 0 else if isRx then last.rx else last.tx)
  }

  function Capped(n: nat): u64 {
    if n <= U64_MAX then n else U64_MAX
  }

  /** Whatever the order of events, the received bytes of a batch are added to the
      received bytes and the sent ones to the sent ones, up to the largest 64-bit
      number, and nothing else happens to the machine; without a network interface
      nothing happens at all. */
  lemma {:induction false} BatchCollects(d: Daemon, s: Settings, batch: seq<Event>)
    requires d.Valid()
    ensures Consumed(d, s, batch).network ==
            if s.networkEnabled then
              d.network.(pendingRx := Capped(d.network.pendingRx + Bytes(batch, true)),
                         pendingTx := Capped(d.network.pendingTx + Bytes(batch, false)))
            else d.network
  {
    hide D.ActivityHandled;
    if batch != [] {
      BatchCollects(d, s, batch[..|batch| - 1]);
    }
  }

  /** The network LED is left alone while a batch is consumed. */
  lemma {:induction false} BatchKeepsLed(d: Daemon, s: Settings, batch: seq<Event>)
    requires InBatch(d, s)
    ensures var c, c1 := d.controller, Consumed(d, s, batch).controller;
            && InBatch(Consumed(d, s, batch), s)
            && c1.cache[LED_NETWORK] == c.cache[LED_NETWORK] && c1.bus.leds[LED_NETWORK] == c.bus.leds[LED_NETWORK]
  {
    hide EventHandled, D.Invariant, N.Invariant, DistinctDevs;
    if batch != [] {
      var prefix, last := batch[..|batch| - 1], batch[|batch| - 1];
      BatchKeepsLed(d, s, prefix);
      var d1 := Consumed(d, s, prefix);
      EventKeeps(d1, s, last);
      EventKeepsLed(d1, s, last);
    }
  }

  lemma EventKeepsLed(d: Daemon, s: Settings, event: Event)
    requires InBatch(d, s)
    ensures var c, c1 := d.controller, EventHandled(d, s, event).controller;
            && c1.Valid()
            && c1.cache[LED_NETWORK] == c.cache[LED_NETWORK] && c1.bus.leds[LED_NETWORK] == c.bus.leds[LED_NETWORK]
  {
    hide D.ActivityHandled, D.SlotPolicy, D.ArmedExactly;
    if event.Disk? {
      D.ActivityKeeps(d.disks, d.controller, s, event.led, event.at);
    }
  }

  // ----- the network LED -----

  /** The timer has expired when `poll` returns. */
  predicate Rings(t: Timer, at: Time) {
    t.Expired? || (t.Armed? && t.at <= at)
  }

  /** What the timer part of a round makes of network machine `n` and its LED. An
      expired timer ends the pulse: without pending traffic the LED goes dark if one
      of five attempts is applied; with it the next pulse begins at once. */
  ghost predicate TimerPart(n: N.Network, c: Controller, n1: N.Network, led1: Led, s: Settings, w: Wakeup)
    requires c.Valid()
  {
    var led, faults := c.bus.leds[LED_NETWORK], c.bus.faults;
    if !Rings(n.timer, w.at) then n1 == n && led1 == led
    else if !n.ledOn then n1 == n.(timer := Disarmed) && led1 == led
    else if !n.Pending() then
      && n1 == n.(ledOn := false, timer := Disarmed)
      && led1 == (if Reached(faults, RETRY_COUNT) then led.(mode := Off) else led)
    else
      var sample := Sample(n.pendingRx, n.pendingTx);
      var color := if Choice(n.pulses, sample).1 then s.rxColor else s.txColor;
      N.Pulses(n.(ledOn := false, timer := Disarmed), n1, led1, s, sample, w.networkClock,
               N.Lightable(N.DarkEntry(c.cache[LED_NETWORK], faults), color, Rest(faults, RETRY_COUNT)))
  }

  /** What a batch makes of network machine `n` and its LED: a pulse that is on goes
      on; with the LED dark, traffic begins a pulse, or is dropped when the bus does
      not let it. */
  ghost predicate BatchPart(n: N.Network, led: Led, n1: N.Network, led1: Led, s: Settings,
                            batch: seq<Event>, now: Time) {
    var n0 := n.(pendingRx := Capped(n.pendingRx + Bytes(batch, true)),
                 pendingTx := Capped(n.pendingTx + Bytes(batch, false)));
    if n0.ledOn || !n0.Pending() then n1 == n0 && led1 == led
    else N.Pulses(n0, n1, led1, s, Sample(n0.pendingRx, n0.pendingTx), now, n1.ledOn)
  }

  lemma TimerPartOf(d: Daemon, s: Settings, w: Wakeup)
    requires Invariant(d, s) && s.networkEnabled
    ensures var d1 := NetworkTimer(Elapse(d, w.at), s, w.networkClock).0;
            && d1.Valid() && TimerPart(d.network, d.controller, d1.network, d1.controller.bus.leds[LED_NETWORK], s, w)
  {
    hide N.TimerHandled, N.Lightable, N.Pulses, N.DarkEntry, Reached, Rest, D.Invariant;
    ElapseKeeps(d, s, w.at);
    var d0 := Elapse(d, w.at);
    if d0.network.timer.Expired? {
      N.TimerKeeps(d0.network, d0.controller, s, w.networkClock);
    }
  }

  /** The disks' timer and hot-plug messages do not concern the network LED. */
  lemma DisksKeepNetwork(d: Daemon, s: Settings, w: Wakeup)
    requires Invariant(d, s) && Plausible(w)
    ensures var d1 := DiskTimer(d, s, w.diskClock).0; var d2 := Uevents(d1, s, w.hotplug, w.synced).0;
            && d1.network == d.network && d2.network == d.network
            && LowLedsKept(d.controller, d1.controller) && LowLedsKept(d.controller, d2.controller)
  {
    hide D.TimerHandled, D.SlotsRescanned, D.SlotPolicy, D.ArmedExactly, D.RescannedTo;
    DiskTimerKeeps(d, s, w.diskClock);
    if s.disksEnabled {
      D.TimerKeeps(d.disks, d.controller, s, w.diskClock);
      var d1 := DiskTimer(d, s, w.diskClock).0;
      if w.hotplug.Some? && w.hotplug.value.entries.Some? {
        D.RescanKeeps(d1.disks, d1.controller, s, w.hotplug.value.entries.value);
      }
    }
  }

  lemma BatchPartOf(d: Daemon, s: Settings, batch: seq<Event>, now: Time)
    requires Invariant(d, s) && s.networkEnabled
    ensures var d1 := Batch(d, s, Some(batch), now).0;
            && d1.Valid()
            && BatchPart(d.network, d.controller.bus.leds[LED_NETWORK],
                         d1.network, d1.controller.bus.leds[LED_NETWORK], s, batch, now)
            && (d.controller.bus.Healthy() && (d1.network.Pending() || Bytes(batch, true) + Bytes(batch, false) > 0) ==>
                  d1.network.ledOn)
  {
    hide Consumed, N.Rendered, N.Lightable, Choice, D.Invariant, N.LedPolicy;
    BatchCollects(d, s, batch);
    BatchKeepsLed(d, s, batch);
    ConsumedKeeps(d, s, batch);
    var d1 := Consumed(d, s, batch);
    N.RenderedKeeps(d1.network, d1.controller, s, now);
    if d1.controller.bus.Healthy() {
      HealthyLights(d1.controller.cache[LED_NETWORK],
                    N.PulseColor(s, Choice(d1.network.pulses, Sample(d1.network.pendingRx, d1.network.pendingTx)).1));
    }
  }

  lemma HealthyLights(e: LedCache, color: Rgb)
    ensures N.Lightable(e, color, [])
  {
  }

  /** The round gets to a batch with traffic. */
  predicate Feeds(s: Settings, w: Wakeup) {
    !PlugFails(s, w) && w.batch.Some? && Bytes(w.batch.value, true) + Bytes(w.batch.value, false) > 0
  }

  /** The network machine over one round, on any bus: the timer part, then the batch
      if there is one. In between, `n` and `led` are the machine and its LED. */
  lemma NetworkRound(d: Daemon, s: Settings, w: Wakeup) returns (n: N.Network, led: Led)
    requires Invariant(d, s) && Plausible(w) && s.networkEnabled && Handles(w)
    ensures TimerPart(d.network, d.controller, n, led, s, w)
    ensures var d1 := Woken(d, s, w).0; var led1 := d1.controller.bus.leds[1];
            && d1.Valid()
            && (if w.batch.None? || PlugFails(s, w) then d1.network == n && led1 == led
                else BatchPart(n, led, d1.network, led1, s, w.batch.value, w.renderClock))
            && (d.controller.bus.Healthy() && (d1.network.Pending() || Feeds(s, w)) ==> d1.network.ledOn)
  {
    hide Woken, NetworkTimer, DiskTimer, Uevents, D.Invariant, TimerPart, BatchPart, AllKnown;
    var d1, d2, d3 := Parts(d, s, w);
    TimerPartOf(d, s, w);
    DisksKeepNetwork(d1, s, w);
    n, led := d1.network, d1.controller.bus.leds[LED_NETWORK];
    if w.batch.Some? {
      BatchPartOf(d3, s, w.batch.value, w.renderClock);
    }
  }

  /** A pulse ends on time: when `poll` returns after its end the LED goes dark, if
      the bus lets one of five attempts through; or, with traffic that came in during
      the pulse, the next one begins, in its colour and for the configured time. */
  lemma PulseEndsOnTime(d: Daemon, s: Settings, w: Wakeup)
    requires Invariant(d, s) && Plausible(w) && s.networkEnabled && Handles(w) && w.batch.None?
    requires d.network.ledOn && Rings(d.network.timer, w.at)
    ensures var d1 := Woken(d, s, w).0; var n, led1 := d.network, d1.controller.bus.leds[1];
            && (!n.Pending() ==>
                  && !d1.network.ledOn && d1.network.timer == Disarmed && !d1.network.Pending()
                  && (led1.mode == Off <==> Reached(d.controller.bus.faults, 5)))
            && (n.Pending() && d.controller.bus.Healthy() ==>
                  && d1.network.ledOn && !d1.network.Pending() && led1.mode == On
                  && led1.color ==
                     (if Choice(n.pulses, Sample(n.pendingRx, n.pendingTx)).1 then s.rxColor else s.txColor)
                  && d1.network.timer ==
                     Armed(w.networkClock as int + if s.networkPulseMs == 0 then 1 else s.networkPulseMs * 1_000_000))
  {
    hide Woken, Choice, Reached, Rest, D.Invariant;
    var n, led := NetworkRound(d, s, w);
    N.DeviceShowsPulse(d.network, d.controller, s);
    HealthyOutcomes([]);
  }

  lemma HealthyOutcomes(faults: seq<Outcome>)
    requires faults == []
    ensures Acknowledged(faults, RETRY_COUNT) && Reached(faults, RETRY_COUNT) && Rest(faults, RETRY_COUNT) == faults
  {
  }

  /** Before its end nothing ends a pulse, on any bus; traffic only accumulates. */
  lemma PulseLasts(d: Daemon, s: Settings, w: Wakeup)
    requires Invariant(d, s) && Plausible(w) && s.networkEnabled && Handles(w) && !PlugFails(s, w)
    requires d.network.ledOn && !Rings(d.network.timer, w.at)
    ensures var d1 := Woken(d, s, w).0; var batch := if w.batch.Some? then w.batch.value else [];
            && d1.network == d.network.(pendingRx := Capped(d.network.pendingRx + Bytes(batch, true)),
                                        pendingTx := Capped(d.network.pendingTx + Bytes(batch, false)))
            && d1.controller.bus.leds[1] == d.controller.bus.leds[1]
  {
    hide Woken, D.Invariant;
    var n, led := NetworkRound(d, s, w);
  }

  /** With the LED dark and the bus healthy, a batch with traffic begins a pulse at
      once: the scheduler gets exactly the bytes of the batch, and decides the colour.
      A batch without traffic leaves the LED alone. */
  lemma TrafficBeginsPulse(d: Daemon, s: Settings, w: Wakeup)
    requires Invariant(d, s) && Plausible(w) && s.networkEnabled && Handles(w) && !PlugFails(s, w)
    requires !d.network.ledOn && w.batch.Some? && d.controller.bus.Healthy()
    ensures var d1 := Woken(d, s, w).0; var batch, led1 := w.batch.value, d1.controller.bus.leds[1];
            var sample := Sample(Capped(Bytes(batch, true)), Capped(Bytes(batch, false)));
            var (pulses, rx) := Choice(d.network.pulses, sample);
            if Bytes(batch, true) + Bytes(batch, false) > 0 then
              && d1.network.ledOn && !d1.network.Pending() && d1.network.pulses == pulses
              && led1.mode == On && led1.color == (if rx then s.rxColor else s.txColor)
              && d1.network.timer ==
                 Armed(w.renderClock as int + if s.networkPulseMs == 0 then 1 else s.networkPulseMs * 1_000_000)
            else
              && d1.network == d.network.(timer := d1.network.timer)
              && led1 == d.controller.bus.leds[1]
  {
    hide Woken, Choice, D.Invariant;
    var n, led := NetworkRound(d, s, w);
    assert !d.network.Pending();
  }

  // ----- the disks -----

  /** When the last event for an LED in a batch is handled. */
  function LastTouch(batch: seq<Event>, led: nat): Option<Time> {
    if batch == [] then None
    else
      var last := batch[|batch| - 1];
      if last.Disk? && last.led as int == led then Some(last.at) else LastTouch(batch[..|batch| - 1], led)
  }

  /** What the timer makes of a slot: idle once its deadline has come. */
  function Restored(slot: Slot, t: Timer, w: Wakeup): Slot {
    if Rings(t, w.at) && slot.active && slot.deadline <= w.diskClock then slot.(active := false, deadline := 0)
    else slot
  }

  /** The rescan that hot-plug messages lead to: the slot has a disk exactly when one
      is listed for it, and then the first; with the same disk as before it stays as
      it was, and with another one it is idle. */
  ghost predicate Plugged(slot: Slot, slot1: Slot, h: Option<Hotplug>, count: nat, i: nat) {
    if h.None? || h.value.failed || !h.value.relevant || h.value.entries.None? then slot1 == slot
    else
      var entries := h.value.entries.value;
      && (slot1.present <==> exists k :: 0 <= k < |entries| && Backs(entries[k], i))
      && (slot1.present ==> exists k :: IsFirstDevice(entries, i, k, slot1.dev))
      && slot1.ledId as int == i + 2
      && (slot1 == slot || (!slot1.active && (slot1.present != slot.present || slot1.dev != slot.dev)))
  }

  /** Events for a disk that is there move its deadline to the hold time after the
      last of them, and make it active as far as the bus lets them. */
  ghost predicate Touched(slot: Slot, slot1: Slot, s: Settings, batch: seq<Event>, healthy: bool, i: nat) {
    var touch := LastTouch(batch, i + 2);
    if slot.present && touch.Some? then
      && slot1 == slot.(active := slot1.active, deadline := slot1.deadline)
      && slot1.deadline as int == touch.value as int + s.diskHoldMs as int * 1_000_000
      && (slot.active || healthy ==> slot1.active)
    else slot1 == slot
  }

  lemma {:induction false} BatchTouches(d: Daemon, s: Settings, batch: seq<Event>, i: nat)
    requires InBatch(d, s) && s.disksEnabled && i < d.disks.count
    ensures Touched(d.disks.slots[i], Consumed(d, s, batch).disks.slots[i], s, batch, d.controller.bus.Healthy(), i)
  {
    hide EventHandled, D.Invariant, N.Invariant, DistinctDevs;
    if batch != [] {
      var prefix, last := batch[..|batch| - 1], batch[|batch| - 1];
      BatchTouches(d, s, prefix, i);
      ConsumedKeeps(d, s, prefix);
      EventTouches(Consumed(d, s, prefix), s, last, i);
    }
  }

  lemma EventTouches(d: Daemon, s: Settings, event: Event, i: nat)
    requires InBatch(d, s) && s.disksEnabled && i < d.disks.count
    ensures var slot, slot1 := d.disks.slots[i], EventHandled(d, s, event).disks.slots[i];
            if slot.present && event.Disk? && event.led as int == i + 2 then
              && slot1 == slot.(active := slot1.active, deadline := slot1.deadline)
              && slot1.deadline as int == event.at as int + s.diskHoldMs as int * 1_000_000
              && (slot.active || d.controller.bus.Healthy() ==> slot1.active)
            else slot1 == slot
  {
    hide D.ActivityHandled, D.SlotPolicy, D.ArmedExactly, D.Watched, Rest;
    if event.Disk? {
      D.ActivityKeeps(d.disks, d.controller, s, event.led, event.at);
      TimingIsExact(s, event.at);
    }
  }

  lemma RestoredOf(d: Daemon, s: Settings, w: Wakeup, i: nat)
    requires Invariant(d, s) && s.disksEnabled && i < d.disks.count
    ensures var d1 := DiskTimer(NetworkTimer(Elapse(d, w.at), s, w.networkClock).0, s, w.diskClock).0;
            d1.disks.slots[i] == Restored(d.disks.slots[i], d.disks.timer, w)
  {
    hide NetworkTimer, D.TimerHandled, D.SlotPolicy, D.ArmedExactly;
    ElapseKeeps(d, s, w.at);
    var d0 := Elapse(d, w.at);
    NetworkTimerKeeps(d0, s, w.networkClock);
    NetworkTimerKeepsDisks(d0, s, w.networkClock);
    var d1 := NetworkTimer(d0, s, w.networkClock).0;
    D.TimerKeeps(d1.disks, d1.controller, s, w.diskClock);
  }

  lemma NetworkTimerKeepsDisks(d: Daemon, s: Settings, now: Time)
    requires d.Valid()
    ensures NetworkTimer(d, s, now).0.disks == d.disks
  {
    hide N.TimerHandled;
  }

  lemma PluggedOf(d: Daemon, s: Settings, w: Wakeup, i: nat)
    requires Invariant(d, s) && Plausible(w) && s.disksEnabled && i < d.disks.count
    ensures var d1 := Uevents(d, s, w.hotplug, w.synced).0;
            Plugged(d.disks.slots[i], d1.disks.slots[i], w.hotplug, d.disks.count, i)
  {
    hide D.SlotsRescanned, D.SlotPolicy, Discovered;
    if w.hotplug.Some? && w.hotplug.value.entries.Some? {
      D.RescanKeeps(d.disks, d.controller, s, w.hotplug.value.entries.value);
      DiscoveredIsAMatching(w.hotplug.value.entries.value, d.disks.count);
    }
  }

  lemma TouchedOf(d: Daemon, s: Settings, batch: seq<Event>, now: Time, i: nat)
    requires Invariant(d, s) && s.disksEnabled && i < d.disks.count
    ensures var d1 := Batch(d, s, Some(batch), now).0;
            Touched(d.disks.slots[i], d1.disks.slots[i], s, batch, d.controller.bus.Healthy(), i)
  {
    hide Consumed, N.Rendered, Touched, D.Invariant;
    BatchTouches(d, s, batch, i);
  }

  /** One slot over one round, on any bus: the timer, then hot-plug messages, then the
      batch if there is one. In between it is `restored` and `plugged`. */
  lemma DiskRound(d: Daemon, s: Settings, w: Wakeup, i: nat) returns (restored: Slot, plugged: Slot)
    requires Invariant(d, s) && Plausible(w) && s.disksEnabled && Handles(w) && i < d.disks.count
    ensures restored == Restored(d.disks.slots[i], d.disks.timer, w)
    ensures Plugged(restored, plugged, w.hotplug, d.disks.count, i)
    ensures var d1 := Woken(d, s, w).0;
            && d1.disks.count == d.disks.count
            && if w.batch.None? || PlugFails(s, w) then d1.disks.slots[i] == plugged
               else Touched(plugged, d1.disks.slots[i], s, w.batch.value, d.controller.bus.Healthy(), i)
  {
    hide Woken, NetworkTimer, DiskTimer, Uevents, D.Invariant, Plugged, AllKnown, Restored;
    var d1, d2, d3 := Parts(d, s, w);
    RestoredOf(d, s, w, i);
    PluggedOf(d2, s, w, i);
    restored, plugged := d2.disks.slots[i], d3.disks.slots[i];
    if w.batch.Some? {
      TouchedOf(d3, s, w.batch.value, w.renderClock, i);
    } else {
      NoBatch(d3, s, w.renderClock);
    }
  }

  lemma NoBatch(d: Daemon, s: Settings, now: Time)
    requires d.Valid()
    ensures Batch(d, s, None, now) == (d, Ok)
  {
  }

  /** The round brings no activity of disk `i`. */
  predicate Untouched(w: Wakeup, i: nat) {
    w.batch.Some? ==> LastTouch(w.batch.value, i + 2).None?
  }

  /** In the round in which `poll` returns at or after a slot's deadline the slot goes
      idle, unless a later part of the round makes it busy again; before its deadline
      it does not. With every LED known, on a healthy bus, its LED shows that. */
  lemma IdleDisksAreRestored(d: Daemon, s: Settings, w: Wakeup, i: nat)
    requires Invariant(d, s) && Plausible(w) && s.disksEnabled && Handles(w)
    requires i < d.disks.count && d.disks.slots[i].active
    requires w.hotplug.None? && Untouched(w, i)
    ensures var d1 := Woken(d, s, w).0; var slot, slot1 := d.disks.slots[i], d1.disks.slots[i];
            && (slot.deadline <= w.at <= w.diskClock ==> slot1 == slot.(active := false, deadline := 0))
            && (w.diskClock < slot.deadline ==> slot1 == slot)
            && (d.controller.bus.Healthy() && AllKnown(d, s) ==> D.Shows(slot1, d1.controller.bus.leds[i + 2], s, i))
  {
    hide Woken, AllKnown, D.SlotPolicy, D.Policy;
    var restored, plugged := DiskRound(d, s, w, i);
    RoundShows(d, s, w, i);
    assert WakesBy(d.disks.timer, d.disks.slots[i].deadline);
  }

  /** On a healthy bus with every LED known, a round leaves every disk LED showing its
      slot. */
  lemma RoundShows(d: Daemon, s: Settings, w: Wakeup, i: nat)
    requires Invariant(d, s) && Plausible(w) && i < d.disks.count
    ensures var d1 := Woken(d, s, w).0;
            && i < d1.disks.count && d1.disks.slots[i].ledId as int == i + 2
            && (d1.disks.slots[i].active ==>
                  d1.disks.slots[i].present && WakesBy(d1.disks.timer, d1.disks.slots[i].deadline))
            && (d.controller.bus.Healthy() && AllKnown(d, s) ==>
                  D.Shows(d1.disks.slots[i], d1.controller.bus.leds[i + 2], s, i))
  {
    hide Woken;
    WokenKeeps(d, s, w);
    var d1 := Woken(d, s, w).0;
    InvariantShows(d1, s);
    assert DiskShown(d1, s, i);
  }

  /** After hot-plug messages with a readable listing, whatever else the round brings
      and whatever the bus does: a slot has a disk exactly when one is listed for it,
      and then the first one. On a healthy bus the LEDs of empty slots are off, and
      the LED of a disk that was not there before is steady in its own colour, unless
      the round also brings activity of it. */
  lemma HotplugShowsListing(d: Daemon, s: Settings, w: Wakeup, entries: seq<BlockEntry>, i: nat)
    requires Invariant(d, s) && Plausible(w) && s.disksEnabled && Handles(w) && i < d.disks.count
    requires w.hotplug == Some(Hotplug(false, true, Some(entries)))
    ensures var d1 := Woken(d, s, w).0; var slot, slot1, led1 := d.disks.slots[i], d1.disks.slots[i],
                                                                 d1.controller.bus.leds[i + 2];
            && (slot1.present <==> exists k :: 0 <= k < |entries| && Backs(entries[k], i))
            && (slot1.present ==> exists k :: IsFirstDevice(entries, i, k, slot1.dev))
            && (!slot1.present ==> !slot1.active)
            && (d.controller.bus.Healthy() && AllKnown(d, s) ==>
                  && (!slot1.present ==> led1.mode == Off)
                  && (slot1.present && (!slot.present || slot1.dev != slot.dev) && Untouched(w, i) ==>
                        D.SteadyLed(led1, s, i)))
  {
    hide Woken, AllKnown, D.Invariant;
    var restored, plugged := DiskRound(d, s, w, i);
    RoundShows(d, s, w, i);
    InvariantShows(d, s);
    assert DiskShown(d, s, i);
  }

  /** The slots hold what is listed. */
  ghost predicate Listed(d: D.Disks, entries: seq<BlockEntry>)
    requires d.Valid()
  {
    forall i :: 0 <= i < d.count ==>
      && (d.slots[i].present <==> exists k :: 0 <= k < |entries| && Backs(entries[k], i))
      && (d.slots[i].present ==> exists k :: IsFirstDevice(entries, i, k, d.slots[i].dev))
  }

  /** `dev` is the first listed device of bay `i`. */
  ghost predicate InBay(entries: seq<BlockEntry>, count: nat, i: nat, dev: u32) {
    i < count && exists k :: IsFirstDevice(entries, i, k, dev)
  }

  /** In particular all slots hold what is listed. */
  lemma HotplugLists(d: Daemon, s: Settings, w: Wakeup, entries: seq<BlockEntry>)
    requires Invariant(d, s) && Plausible(w) && s.disksEnabled && Handles(w)
    requires w.hotplug == Some(Hotplug(false, true, Some(entries)))
    ensures Woken(d, s, w).0.disks.count == d.disks.count && Listed(Woken(d, s, w).0.disks, entries)
  {
    hide Woken, D.Invariant, NetworkOk, AllKnown;
    WokenKeeps(d, s, w);
    forall i | 0 <= i < d.disks.count
      ensures var slot := Woken(d, s, w).0.disks.slots[i];
              && (slot.present <==> exists k :: 0 <= k < |entries| && Backs(entries[k], i))
              && (slot.present ==> exists k :: IsFirstDevice(entries, i, k, slot.dev))
    {
      HotplugShowsListing(d, s, w, entries, i);
    }
  }

  lemma ListedSlot(d: D.Disks, entries: seq<BlockEntry>, i: nat, dev: u32)
    requires d.Valid() && Listed(d, entries) && i < d.count
    ensures InBay(entries, d.count, i, dev) <==> d.slots[i].present && d.slots[i].dev == dev
  {
    if InBay(entries, d.count, i, dev) {
      var n :| IsFirstDevice(entries, i, n, dev);
      var m :| IsFirstDevice(entries, i, m, d.slots[i].dev);
      assert m == n;
    }
  }

  /** Maps that are those of the slots send exactly the first listed device of each
      bay, and no other, to the LED of that bay. */
  lemma SyncedShowsListing(k: L.Kernel, d: D.Disks, entries: seq<BlockEntry>, dev: u32, led: byte)
    requires d.Valid() && DistinctDevs(d.slots, d.count) && Synced(k, d.slots, d.count) && Listed(d, entries)
    ensures dev in k.targets && k.targets[dev] == led <==> led >= 2 && InBay(entries, d.count, led - 2, dev)
    ensures dev in k.targets <==> exists i: nat :: InBay(entries, d.count, i, dev)
  {
    hide L.Invariant, Listed, InBay;
    TargetsExact(d.slots, d.count);
    forall i | 0 <= i < d.count
      ensures InBay(entries, d.count, i, dev) <==> d.slots[i].present && d.slots[i].dev == dev
    {
      ListedSlot(d, entries, i, dev);
    }
    BaysInRange(entries, d.count, dev);
  }

  lemma BaysInRange(entries: seq<BlockEntry>, count: nat, dev: u32)
    ensures forall i: nat :: InBay(entries, count, i, dev) ==> i < count
  {
  }

  /** On a healthy bus with every LED known, activity of a disk that is there after
      the hot-plug part makes its LED blink until the hold time after the last event. */
  lemma ActivityBlinks(d: Daemon, s: Settings, w: Wakeup, i: nat)
    requires Invariant(d, s) && Plausible(w) && s.disksEnabled && Handles(w) && !PlugFails(s, w)
    requires i < d.disks.count && w.batch.Some? && LastTouch(w.batch.value, i + 2).Some?
    requires d.controller.bus.Healthy() && AllKnown(d, s)
    ensures var d1 := Woken(d, s, w).0; var slot1, led1 := d1.disks.slots[i], d1.controller.bus.leds[i + 2];
            if slot1.present then
              && slot1.active && led1.mode == Blink && led1.cycle == s.diskIntervalMs
              && led1.onTime as int ==
                 (if s.diskInvert then s.diskIntervalMs as int - s.diskPulseMs as int else s.diskPulseMs)
              && slot1.deadline as int ==
                 LastTouch(w.batch.value, i + 2).value as int + s.diskHoldMs as int * 1_000_000
              && WakesBy(d1.disks.timer, slot1.deadline)
            else !slot1.active && led1.mode == Off
  {
    hide Woken, AllKnown, D.Policy, Coherent;
    var restored, plugged := DiskRound(d, s, w, i);
    RoundShows(d, s, w, i);
    InvariantShows(d, s);
    assert DiskShown(d, s, i);
    TimingIsExact(s, 0);
  }

  // ----- the traffic of `NetworkFlow` is the daemon's -----

  /** The samples of a batch, as they lay on the ring. */
  function Samples(batch: seq<Event>): seq<Sample> {
    if batch == [] then []
    else
      var last := batch[|batch| - 1];
      Samples(batch[..|batch| - 1]) + (if last.Traffic? then [Sample(last.rx, last.tx)] else [])
  }

  /** The network machine and the controller are the daemon's. */
  ghost predicate Matches(f: F.World, d: Daemon, s: Settings) {
    f.settings == s && f.network == d.network && f.controller == d.controller && f.controller.Valid()
  }

  /** `f1` is `f` but for what the daemon did: it took `n` samples off the ring. */
  ghost predicate DaemonMoved(f: F.World, f1: F.World, n: nat) {
    && n <= |f.ring| && f1.ring == f.ring[n..]
    && f1 == f.(ring := f1.ring, network := f1.network, controller := f1.controller, history := f1.history)
  }

  /** One further step that the daemon makes. */
  lemma OneMoreStep(f: F.World, steps: seq<F.Step>, step: F.Step)
    requires f.controller.Valid()
    ensures F.Run(f, steps + [step]) == F.Do(F.Run(f, steps), step)
  {
    assert (steps + [step])[..|steps|] == steps;
  }

  lemma {:induction false} BatchIsFlow(d: Daemon, s: Settings, batch: seq<Event>, f: F.World)
    returns (steps: seq<F.Step>)
    requires d.Valid() && s.networkEnabled && Matches(f, d, s) && Samples(batch) <= f.ring
    ensures Matches(F.Run(f, steps), Consumed(d, s, batch), s)
    ensures DaemonMoved(f, F.Run(f, steps), |Samples(batch)|)
  {
    steps := [];
    if batch != [] {
      hide F.Do, EventHandled;
      var prefix, last := batch[..|batch| - 1], batch[|batch| - 1];
      steps := BatchIsFlow(d, s, prefix, f);
      var f0, d0 := F.Run(f, steps), Consumed(d, s, prefix);
      assert last.Traffic? ==> f0.ring[0] == Sample(last.rx, last.tx);
      if !last.Junk? {
        var step := if last.Traffic? then F.Consume else F.Others(EventHandled(d0, s, last).controller);
        EventIsFlow(d0, s, last, f0);
        OneMoreStep(f, steps, step);
        steps := steps + [step];
      }
    }
  }

  lemma EventIsFlow(d: Daemon, s: Settings, event: Event, f: F.World)
    requires d.Valid() && s.networkEnabled && Matches(f, d, s)
    requires event.Traffic? ==> f.ring != [] && f.ring[0] == Sample(event.rx, event.tx)
    ensures var f1 := if event.Traffic? then F.Do(f, F.Consume)
                      else F.Do(f, F.Others(EventHandled(d, s, event).controller));
            && Matches(f1, EventHandled(d, s, event), s)
            && DaemonMoved(f, f1, if event.Traffic? then 1 else 0)
  {
    hide D.ActivityHandled, N.Rendered, N.TimerHandled;
  }

  /** The timer part of a round, as steps of the flow. */
  lemma TimersAreFlow(d: Daemon, s: Settings, w: Wakeup, f: F.World) returns (steps: seq<F.Step>)
    requires d.Valid() && s.networkEnabled && Matches(f, d, s)
    ensures Matches(F.Run(f, steps), NetworkTimer(Elapse(d, w.at), s, w.networkClock).0, s)
    ensures DaemonMoved(f, F.Run(f, steps), 0)
  {
    hide N.TimerHandled;
    var elapse, handle := F.Elapse(w.at), F.TimerExpired(w.networkClock);
    steps := [];
    OneMoreStep(f, [], elapse);
    OneMoreStep(f, [elapse], handle);
    assert [] + [elapse] == [elapse] && [elapse] + [handle] == [elapse, handle];
    steps := [elapse, handle];
  }

  /** The daemon hands its controller back after other LEDs. */
  lemma OthersAreFlow(d: Daemon, d1: Daemon, s: Settings, f: F.World, steps: seq<F.Step>, n: nat)
    requires f.controller.Valid() && Matches(F.Run(f, steps), d, s) && DaemonMoved(f, F.Run(f, steps), n)
    requires d1.Valid() && d1.network == d.network
    ensures var more := steps + [F.Others(d1.controller)];
            Matches(F.Run(f, more), d1, s) && DaemonMoved(f, F.Run(f, more), n)
  {
    OneMoreStep(f, steps, F.Others(d1.controller));
  }

  lemma {:induction false} RunConcat(f: F.World, a: seq<F.Step>, b: seq<F.Step>)
    requires f.controller.Valid()
    ensures F.Run(f, a + b) == F.Run(F.Run(f, a), b)
  {
    hide F.Do;
    if b == [] {
      assert a + b == a;
    } else {
      RunConcat(f, a, b[..|b| - 1]);
      assert (a + b)[..|a + b| - 1] == a + b[..|b| - 1];
    }
  }

  /** The batch part of a round, as steps of the flow. */
  lemma BatchPartIsFlow(d: Daemon, s: Settings, batch: Option<seq<Event>>, now: Time, f: F.World)
    returns (steps: seq<F.Step>, n: nat)
    requires d.Valid() && s.networkEnabled && Matches(f, d, s)
    requires batch.Some? ==> Samples(batch.value) <= f.ring
    ensures Matches(F.Run(f, steps), Batch(d, s, batch, now).0, s)
    ensures n == (if batch.Some? then |Samples(batch.value)| else 0) && DaemonMoved(f, F.Run(f, steps), n)
  {
    hide Consumed, N.Rendered;
    steps, n := [], 0;
    if batch.Some? {
      steps := BatchIsFlow(d, s, batch.value, f);
      n := |Samples(batch.value)|;
      OneMoreStep(f, steps, F.Render(now));
      steps := steps + [F.Render(now)];
    }
  }

  /** The samples that a round takes off the ring. */
  function Taken(s: Settings, w: Wakeup): seq<Sample> {
    if !Handles(w) || PlugFails(s, w) || w.batch.None? then [] else Samples(w.batch.value)
  }

  /** One round of the daemon, on any bus and with whatever it does to the other LEDs,
      is a run of the flow from the same machine that takes the samples of the round
      off the ring: what holds of all runs of the flow holds of the daemon. */
  lemma RoundIsFlow(d: Daemon, s: Settings, w: Wakeup, f: F.World) returns (steps: seq<F.Step>)
    requires Invariant(d, s) && Plausible(w) && s.networkEnabled && Matches(f, d, s) && Taken(s, w) <= f.ring
    ensures Woken(d, s, w).0.Valid() && Matches(F.Run(f, steps), Woken(d, s, w).0, s)
    ensures DaemonMoved(f, F.Run(f, steps), |Taken(s, w)|)
  {
    hide F.Do, F.Run, Batch, D.Invariant, NetworkOk, AllKnown;
    if Handles(w) {
      hide Woken;
      var d1, d2, d3 := Parts(d, s, w);
      steps := TimersAreFlow(d, s, w, f);
      OthersAreNetworkless(d1, s, w);
      OthersAreFlow(d1, d3, s, f, steps, 0);
      steps := steps + [F.Others(d3.controller)];
      if !PlugFails(s, w) {
        var f1 := F.Run(f, steps);
        var more, n := BatchPartIsFlow(d3, s, w.batch, w.renderClock, f1);
        RunConcat(f, steps, more);
        steps := steps + more;
      }
    } else {
      steps := ElapseIsFlow(d, s, w.at, f);
    }
  }

  lemma OthersAreNetworkless(d: Daemon, s: Settings, w: Wakeup)
    requires d.Valid()
    ensures Uevents(DiskTimer(d, s, w.diskClock).0, s, w.hotplug, w.synced).0.network == d.network
  {
    hide D.TimerHandled, D.Rescanned;
  }

  lemma ElapseIsFlow(d: Daemon, s: Settings, at: Time, f: F.World) returns (steps: seq<F.Step>)
    requires d.Valid() && Matches(f, d, s)
    ensures Matches(F.Run(f, steps), Elapse(d, at), s) && DaemonMoved(f, F.Run(f, steps), 0)
  {
    hide F.Run;
    NoSteps(f);
    OneMoreStep(f, [], F.Elapse(at));
    steps := [] + [F.Elapse(at)];
  }

  /** The samples that the rounds of a run take, while it goes on. */
  function TakenInAll(d: Daemon, s: Settings, ws: seq<Wakeup>): seq<Sample>
    requires d.Valid()
  {
    if ws == [] then []
    else
      var prefix, w := ws[..|ws| - 1], ws[|ws| - 1];
      TakenInAll(d, s, prefix) + (if Loop(d, s, prefix).1 then Taken(s, w) else [])
  }

  /** Whole runs of the daemon are runs of the flow. */
  lemma {:induction false} LoopIsFlow(d: Daemon, s: Settings, ws: seq<Wakeup>, f: F.World) returns (steps: seq<F.Step>)
    requires Invariant(d, s) && s.networkEnabled && forall k :: 0 <= k < |ws| ==> Plausible(ws[k])
    requires Matches(f, d, s) && TakenInAll(d, s, ws) <= f.ring
    ensures Matches(F.Run(f, steps), Loop(d, s, ws).0, s)
    ensures DaemonMoved(f, F.Run(f, steps), |TakenInAll(d, s, ws)|)
  {
    hide F.Do, F.Run, Woken, D.Invariant, NetworkOk, Taken;
    if ws == [] {
      steps := [];
      NoSteps(f);
    } else {
      var prefix, w := ws[..|ws| - 1], ws[|ws| - 1];
      steps := LoopIsFlow(d, s, prefix, f);
      LoopKeeps(d, s, prefix);
      if Loop(d, s, prefix).1 {
        var f1 := F.Run(f, steps);
        assert f.ring[|TakenInAll(d, s, prefix)|..][..|Taken(s, w)|] == Taken(s, w);
        var more := RoundIsFlow(Loop(d, s, prefix).0, s, w, f1);
        RunConcat(f, steps, more);
        steps := steps + more;
      }
    }
  }

  lemma NoSteps(f: F.World)
    requires f.controller.Valid()
    ensures F.Run(f, []) == f
  {
  }

  /** The colours of the running daemon: when what it takes off the ring was put there
      by the collector, from startup on, in any run, the scheduler has seen samples of
      which those with traffic both ways were answered with RX as often as the rounded
      sum of their RX shares says, and every byte that the collector has seen is still
      in exactly one place. */
  lemma DaemonColors(bus: Bus, s: Settings, count: nat, entries: Option<seq<BlockEntry>>, cpus: nat,
                     kernel: seq<F.Step>, ws: seq<Wakeup>, isRx: bool)
    returns (f: F.World)
    requires bus.Valid() && Usable(s) && count <= DISK_COUNT && s.networkEnabled
    requires entries.Some? ==> Listing(entries.value)
    requires Started(bus, s, count, entries).Some? && forall k :: 0 <= k < |ws| ==> Plausible(ws[k])
    requires forall k :: 0 <= k < |kernel| ==> kernel[k].Packet? || kernel[k].Output?
    requires var d := Started(bus, s, count, entries).value;
             TakenInAll(d, s, ws) <= F.Run(F.Quiet(s, cpus, d.controller), kernel).ring
    ensures var d := Started(bus, s, count, entries).value;
            && f == F.Run(F.Quiet(s, cpus, d.controller), kernel).(ring := f.ring, network := f.network,
                                                                   controller := f.controller, history := f.history)
            && f.network == Loop(d, s, ws).0.network && F.Conserved(f, isRx)
            && MixedPicks(f.history, 0) == (Shares(f.history, 0) + 0.5).Floor
            && f.network.pulses.rxCredit == Shares(f.history, 0) - MixedPicks(f.history, 0) as real
  {
    hide F.Do, F.Run, Started, Loop, Invariant, AllKnown, F.Conserved, TakenInAll;
    StartedKeeps(bus, s, count, entries);
    StartedNetwork(bus, s, count, entries);
    var d := Started(bus, s, count, entries).value;
    var f0 := F.Quiet(s, cpus, d.controller);
    KernelKeepsMachine(f0, kernel);
    var steps := LoopIsFlow(d, s, ws, F.Run(f0, kernel));
    RunConcat(f0, kernel, steps);
    f := F.Run(f0, kernel + steps);
    F.BytesAreConserved(s, cpus, d.controller, kernel + steps, isRx);
    F.TrafficDecidesColors(s, cpus, d.controller, kernel + steps);
  }

  lemma StartedNetwork(bus: Bus, s: Settings, count: nat, entries: Option<seq<BlockEntry>>)
    requires bus.Valid() && count <= DISK_COUNT && Started(bus, s, count, entries).Some?
    ensures Started(bus, s, count, entries).value.network == N.IDLE
  {
    hide PowerApplied, D.Rescanned;
  }

  lemma {:induction false} KernelKeepsMachine(f: F.World, kernel: seq<F.Step>)
    requires f.controller.Valid() && forall k :: 0 <= k < |kernel| ==> kernel[k].Packet? || kernel[k].Output?
    ensures F.Run(f, kernel).network == f.network && F.Run(f, kernel).controller == f.controller
  {
    if kernel != [] {
      KernelKeepsMachine(f, kernel[..|kernel| - 1]);
    }
  }
}
