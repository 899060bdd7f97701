/** A block request, from the tracepoint to the light, and a colour, from the
    configuration to the light. */
module EndToEnd {
  import opened Types
  import opened Mcu
  import opened LedController
  import opened Settings
  import opened Discovery
  import opened KernelMaps
  import D = DiskLeds
  import A = Addressing
  import L = DiskLimiter
  import F = Burst
  import C = ConfigRules
  import P = Daemon

  // ----- after a resync -----

  /** The collector does not undo a resync. */
  lemma {:induction false} RunStaysSynced(k: L.Kernel, slots: seq<Slot>, n: nat, steps: seq<L.Step>)
    requires n <= |slots| && Synced(k, slots, n)
    requires forall j :: 0 <= j < |steps| ==> L.IsCpuStep(steps[j]) || steps[j].Consume?
    ensures Synced(L.Run(k, steps), slots, n)
  {
    if steps != [] {
      var last := steps[|steps| - 1];
      RunStaysSynced(k, slots, n, steps[..|steps| - 1]);
      L.DoKeeps(L.Run(k, steps[..|steps| - 1]), last);
      if !last.Consume? {
        L.CpuStepKeepsMaps(L.Run(k, steps[..|steps| - 1]), last);
      }
    }
  }

  /** `event` comes from the device of slot `i` and goes to its LED. */
  ghost predicate IsFor(event: L.Event, d: D.Disks, i: nat)
    requires d.Valid()
  {
    i < d.count && d.slots[i].present && event.dev == d.slots[i].dev && event.led == D.LedOf(i)
  }

  /** Any number of CPUs, any interleaving with any number of resyncs: when the maps
      are those of the slots and every target ever set is still among them, as
      after the first resync and as long as no mapped device leaves or moves, every
      event on the ring comes from the device of some present slot and goes to that
      slot's LED. */
  lemma EventsAreAddressed(interval: nat, cpus: nat, steps: seq<L.Step>, d: D.Disks, j: nat) returns (i: nat)
    requires d.Valid() && DistinctDevs(d.slots, d.count)
    requires Synced(L.Run(L.Booted(interval, cpus), steps), d.slots, d.count)
    requires SetsOnly(steps, 0, Targets(d.slots, d.count))
    requires j < |L.Run(L.Booted(interval, cpus), steps).ring|
    ensures IsFor(L.Run(L.Booted(interval, cpus), steps).ring[j], d, i)
  {
    hide L.Run, L.Invariant, SetsOnly;
    A.KeptIsAddressed(interval, cpus, steps);
    TargetsExact(d.slots, d.count);
    var event := L.Run(L.Booted(interval, cpus), steps).ring[j];
    i :| 0 <= i < d.count && d.slots[i].present && d.slots[i].dev == event.dev;
  }

  // ----- one undisturbed request -----

  /** The emission deadline stored for a device. */
  function DeadlineOf(k: L.Kernel, dev: u32): nat {
    if dev in k.states && k.states[dev] < |k.elements| then k.elements[k.states[dev]].next else 0
  }

  /** After a resync, an undisturbed request on any CPU to the device behind slot
      `i`, with its emission deadline passed, puts exactly one event on the ring,
      addressed to that slot's LED. (A run that is disturbed loses only to another
      emission for the device; see `DiskLimiter.SwapDecides`.) */
  lemma RequestIsAddressed(k: L.Kernel, d: D.Disks, cpu: nat, i: nat, now: Time)
    requires d.Valid() && DistinctDevs(d.slots, d.count) && Synced(k, d.slots, d.count)
    requires cpu < |k.cpus| && k.cpus[cpu].Idle? && i < d.count && d.slots[i].present
    ensures var dev := d.slots[i].dev;
            L.Request(k, cpu, dev, now).ring ==
            k.ring + (if L.Passes(DeadlineOf(k, dev), now) then [L.Event(now, dev, D.LedOf(i))] else [])
  {
    hide L.Request;
    TargetsExact(d.slots, d.count);
    L.UndisturbedRequest(k, cpu, d.slots[i].dev, now);
  }

  /** A request to a device behind no slot changes nothing. */
  lemma OtherRequestsAreIgnored(k: L.Kernel, d: D.Disks, cpu: nat, dev: u32, now: Time)
    requires d.Valid() && DistinctDevs(d.slots, d.count) && Synced(k, d.slots, d.count)
    requires cpu < |k.cpus| && k.cpus[cpu].Idle?
    requires forall j :: 0 <= j < d.count && d.slots[j].present ==> d.slots[j].dev != dev
    ensures L.Request(k, cpu, dev, now) == k
  {
    hide L.Request;
    TargetsExact(d.slots, d.count);
    L.UnmappedRequest(k, cpu, dev, now);
  }

  // ----- to the light -----

  /** Handling the event of slot `i` on a healthy bus makes that slot active and
      its LED blink with the configured times, and leaves every other slot and
      LED as it was. */
  lemma EventLightsItsSlot(d: D.Disks, c: Controller, s: Settings, i: nat, at: Time)
    requires D.Invariant(d, c, s) && c.bus.Healthy() && i < d.count && d.slots[i].present
    ensures var (d1, c1, e) := D.ActivityHandled(d, c, s, D.LedOf(i), at);
            && e == Ok && d1.slots[i].active
            && D.ModeShown(d1.slots[i], c1.bus.leds[D.LedOf(i)], s)
            && (forall j :: 0 <= j < d.count && j != i ==> d1.slots[j] == d.slots[j])
            && (forall j :: 0 <= j < LED_COUNT && j != D.LedOf(i) ==> c1.bus.leds[j] == c.bus.leds[j])
  {
    hide D.ActivityHandled, D.ArmedExactly;
    D.ActivityKeeps(d, c, s, D.LedOf(i), at);
    var (d1, c1, _) := D.ActivityHandled(d, c, s, D.LedOf(i), at);
    D.DeviceShowsPolicy(d1, c1, s, i);
  }

  /** Handling `event` makes exactly slot `i` blink. */
  ghost predicate Lights(event: L.Event, d: D.Disks, c: Controller, s: Settings, i: nat, at: Time)
    requires d.Valid() && c.Valid()
  {
    var (d1, c1, _) := D.ActivityHandled(d, c, s, event.led, at);
    forall j :: 0 <= j < d.count ==>
      if j == i then d1.slots[j].active && D.ModeShown(d1.slots[j], c1.bus.leds[D.LedOf(j)], s)
      else d1.slots[j] == d.slots[j] && c1.bus.leds[D.LedOf(j)] == c.bus.leds[D.LedOf(j)]
  }

  lemma AddressedLights(event: L.Event, d: D.Disks, c: Controller, s: Settings, i: nat, at: Time)
    requires D.Invariant(d, c, s) && c.bus.Healthy() && IsFor(event, d, i)
    ensures Lights(event, d, c, s, i, at)
  {
    hide D.ActivityHandled, D.ModeShown, D.Policy, Coherent;
    EventLightsItsSlot(d, c, s, i, at);
    forall j | 0 <= j < d.count && j != i ensures D.LedOf(j) != D.LedOf(i) {
    }
  }

  /** From the tracepoint to the light, in any interleaving of any number of CPUs
      and resyncs: as long as no mapped device has left or moved, every event makes
      exactly the slot of its device blink. */
  lemma EveryEventLightsItsSlot(interval: nat, cpus: nat, steps: seq<L.Step>, d: D.Disks, c: Controller, s: Settings,
                                j: nat, at: Time)
    requires D.Invariant(d, c, s) && c.bus.Healthy() && DistinctDevs(d.slots, d.count)
    requires Synced(L.Run(L.Booted(interval, cpus), steps), d.slots, d.count)
    requires SetsOnly(steps, 0, Targets(d.slots, d.count))
    requires j < |L.Run(L.Booted(interval, cpus), steps).ring|
    ensures var event := L.Run(L.Booted(interval, cpus), steps).ring[j];
            exists i :: IsFor(event, d, i) && Lights(event, d, c, s, i, at)
  {
    hide L.Run, Lights, D.Policy, Coherent, Synced, SetsOnly;
    var i := EventsAreAddressed(interval, cpus, steps, d, j);
    AddressedLights(L.Run(L.Booted(interval, cpus), steps).ring[j], d, c, s, i, at);
  }

  /** The daemon's map operations when disk `a` in the first slot is replaced by
      disk `b`. */
  function Replacing(a: u32, b: u32): seq<L.Step> {
    [L.SetState(a), L.SetTarget(a, LED_DISK_FIRST), L.DeleteTarget(a), L.DeleteState(a),
     L.SetState(b), L.SetTarget(b, LED_DISK_FIRST)]
  }

  lemma ReplacingEnds(interval: nat, cpus: nat, a: u32, b: u32)
    ensures var k := L.Run(L.Booted(interval, cpus), Replacing(a, b));
            k.targets == map[b := LED_DISK_FIRST] && k.states.Keys == {b}
    ensures a in L.Run(L.Booted(interval, cpus), Replacing(a, b)[..1]).states
  {
    var k, ops := L.Booted(interval, cpus), Replacing(a, b);
    L.RunTwo(k, ops[0], ops[1]);
    var k2 := L.Do(L.Do(k, ops[0]), ops[1]);
    L.RunTwo(k2, ops[2], ops[3]);
    var k4 := L.Do(L.Do(k2, ops[2]), ops[3]);
    L.RunTwo(k4, ops[4], ops[5]);
    L.RunConcat(k, [ops[0], ops[1]], [ops[2], ops[3]]);
    L.RunConcat(k, [ops[0], ops[1]] + [ops[2], ops[3]], [ops[4], ops[5]]);
    assert ops == [ops[0], ops[1]] + [ops[2], ops[3]] + [ops[4], ops[5]];
    assert ops[..1][..0] == [] && ops[..1][0] == ops[0];
    assert L.Run(k, ops[..1]) == L.Do(L.Run(k, ops[..1][..0]), ops[0]);
  }

  /** The promise that a bay shows its own disk's activity fails while a disk is
      replaced, because the daemon reads hot-plug messages before the ring: an event
      of the old disk that is still on the ring after the resync comes from no slot,
      and lights the slot of the new one. */
  lemma ReplacedDiskLightsItsSuccessor(interval: nat, cpus: nat, a: u32, d: D.Disks, c: Controller, s: Settings,
                                       at: Time)
    returns (steps: seq<L.Step>)
    requires interval > 0 && cpus > 0 && D.Invariant(d, c, s) && c.bus.Healthy()
    requires d.count == 1 && d.slots[0].present && a != d.slots[0].dev
    ensures A.MapSteps(steps) == Replacing(a, d.slots[0].dev)
    ensures var k := L.Run(L.Booted(interval, cpus), steps);
            && Synced(k, d.slots, d.count) && k.ring == [L.Event(0, a, LED_DISK_FIRST)]
            && k.cpus == seq(cpus, _ => L.Idle)
            && (forall i :: !IsFor(k.ring[0], d, i))
            && D.ActivityHandled(d, c, s, k.ring[0].led, at).0.slots[0].active
  {
    hide L.Run, L.Do, A.MapSteps, D.ActivityHandled, L.Invariant, D.Policy, Coherent;
    var b := d.slots[0].dev;
    ReplacingEnds(interval, cpus, a, b);
    steps := A.EventOutlivesItsTarget(interval, cpus, Replacing(a, b), 1);
    A.MapsOfMapSteps(interval, cpus, steps);
    L.RunKeeps(interval, cpus, steps);
    OnlyTarget(d.slots);
    EventLightsItsSlot(d, c, s, 0, at);
  }

  lemma OnlyTarget(slots: seq<Slot>)
    requires |slots| > 0 && slots[0].present
    ensures Targets(slots, 1) == map[slots[0].dev := slots[0].ledId]
  {
    assert Targets(slots, 0) == map[];
  }

  /** A due request to the disk in slot `i` makes exactly slot `i` blink. */
  lemma RequestLightsItsSlot(k: L.Kernel, d: D.Disks, c: Controller, s: Settings, cpu: nat, i: nat, now: Time, at: Time)
    requires D.Invariant(d, c, s) && c.bus.Healthy() && DistinctDevs(d.slots, d.count) && Synced(k, d.slots, d.count)
    requires cpu < |k.cpus| && k.cpus[cpu].Idle?
    requires i < d.count && d.slots[i].present && L.Passes(DeadlineOf(k, d.slots[i].dev), now)
    ensures var k1 := L.Request(k, cpu, d.slots[i].dev, now);
            |k1.ring| == |k.ring| + 1 && Lights(k1.ring[|k.ring|], d, c, s, i, at)
  {
    hide L.Request, Lights;
    RequestIsAddressed(k, d, cpu, i, now);
    AddressedLights(L.Request(k, cpu, d.slots[i].dev, now).ring[|k.ring|], d, c, s, i, at);
  }

  /** Once the CPUs have come to rest after a resync and the ring is drained, a
      burst can begin at every idle disk: the flicker bound applies. */
  lemma SyncedIsReady(k: L.Kernel, d: D.Disks, s: Settings, i: nat, from: nat)
    requires d.Valid() && DistinctDevs(d.slots, d.count) && Synced(k, d.slots, d.count) && k.interval == F.Interval(s)
    requires (forall j :: 0 <= j < |k.cpus| ==> k.cpus[j].Idle?) && k.ring == []
    requires i < d.count && d.slots[i].present && !d.slots[i].active
    requires DeadlineOf(k, d.slots[i].dev) <= from + F.Interval(s)
    ensures F.Ready(k, d.slots[i].dev, d.slots[i], from, s)
  {
    hide L.ElementOk, L.CpuOk, Targets, DistinctDevs;
    OwnLed(k, d, i);
  }

  /** A disk shares its LED with no other. */
  lemma OwnLed(k: L.Kernel, d: D.Disks, i: nat)
    requires d.Valid() && DistinctDevs(d.slots, d.count) && Synced(k, d.slots, d.count)
    requires i < d.count && d.slots[i].present
    ensures d.slots[i].dev in k.targets
    ensures forall other :: other in k.targets ==>
              (k.targets[other] == d.slots[i].ledId <==> other == d.slots[i].dev)
  {
    hide L.Invariant, Targets;
    TargetsExact(d.slots, d.count);
    forall other | other in k.targets ensures k.targets[other] == d.slots[i].ledId <==> other == d.slots[i].dev {
      var j :| 0 <= j < d.count && d.slots[j].present && d.slots[j].dev == other;
      if j != i {
        assert D.LedOf(j) != D.LedOf(i);
      }
    }
  }

  /** The colours that a configuration asks for are shown: for every file and options
      that are accepted, whatever happens on a healthy bus, at every return to `poll`
      the LED of each present disk has the colour of the last line that sets it for
      that disk, or else of the last line that sets it for all disks. */
  lemma ConfiguredColorsAreShown(lines: seq<C.Line>, bus: Bus, count: nat, entries: seq<BlockEntry>,
                                 ws: seq<P.Wakeup>, i: nat)
    requires C.Accepted(lines).Some? && bus.Valid() && bus.Healthy() && count <= DISK_COUNT && Listing(entries)
    requires forall k :: 0 <= k < |ws| ==> P.Plausible(ws[k])
    ensures var s := C.Accepted(lines).value;
            && P.Started(bus, s, count, Some(entries)).Some?
            && var d := P.Loop(P.Started(bus, s, count, Some(entries)).value, s, ws).0;
               i < d.disks.count && d.disks.slots[i].present ==>
                 d.controller.bus.leds[i + 2].color ==
                   if C.LastOverride(lines, i).Some? then C.LastOverride(lines, i).value else C.LastDiskColor(lines)
  {
    hide P.Started, P.Loop, C.Loaded, C.LastOverride, C.LastDiskColor;
    C.LoadedInRange(lines);
    var s := C.Accepted(lines).value;
    P.HealthyRun(bus, s, count, entries, ws);
    if i < 8 {
      C.DiskColorsLoaded(lines, i);
    }
  }
}
