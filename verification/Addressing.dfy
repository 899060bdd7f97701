/** Whose LED an event carries, when the daemon rewrites the maps while collectors
    run: exactly when every event on the ring still belongs to its device. */
module Addressing {
  import opened Types
  import opened KernelMaps
  import L = DiskLimiter

  /** Whatever a CPU or the ring holds carries the LED that the maps give for its
      device. */
  ghost predicate Addressed(k: L.Kernel) {
    && (forall i :: 0 <= i < |k.cpus| && !k.cpus[i].Idle? ==>
          k.cpus[i].dev in k.targets && k.cpus[i].led == k.targets[k.cpus[i].dev])
    && (forall j :: 0 <= j < |k.ring| ==> k.ring[j].dev in k.targets && k.ring[j].led == k.targets[k.ring[j].dev])
  }

  /** The daemon's map operations among `steps`, in order. */
  function MapSteps(steps: seq<L.Step>): seq<L.Step> {
    if steps == [] then []
    else
      var last := steps[|steps| - 1];
      MapSteps(steps[..|steps| - 1]) + (if L.IsMapStep(last) then [last] else [])
  }

  lemma {:induction false} MapStepsConcat(a: seq<L.Step>, b: seq<L.Step>)
    ensures MapSteps(a + b) == MapSteps(a) + MapSteps(b)
  {
    if b == [] {
      assert a + b == a;
    } else {
      MapStepsConcat(a, b[..|b| - 1]);
      assert (a + b)[..|a + b| - 1] == a + b[..|b| - 1];
    }
  }

  lemma {:induction false} OnlyMapSteps(ops: seq<L.Step>)
    requires forall j :: 0 <= j < |ops| ==> L.IsMapStep(ops[j])
    ensures MapSteps(ops) == ops
  {
    if ops != [] {
      OnlyMapSteps(ops[..|ops| - 1]);
    }
  }

  // ----- nothing comes from nowhere -----

  ghost predicate WasSet(steps: seq<L.Step>, dev: u32, led: byte) {
    exists j :: 0 <= j < |steps| && steps[j] == L.SetTarget(dev, led)
  }

  ghost predicate Originates(k: L.Kernel, steps: seq<L.Step>) {
    && (forall dev :: dev in k.targets ==> WasSet(steps, dev, k.targets[dev]))
    && (forall i :: 0 <= i < |k.cpus| && !k.cpus[i].Idle? ==> WasSet(steps, k.cpus[i].dev, k.cpus[i].led))
    && (forall j :: 0 <= j < |k.ring| ==> WasSet(steps, k.ring[j].dev, k.ring[j].led))
  }

  lemma WasSetBefore(steps: seq<L.Step>, step: L.Step)
    ensures forall dev, led :: WasSet(steps, dev, led) ==> WasSet(steps + [step], dev, led)
    ensures step.SetTarget? ==> WasSet(steps + [step], step.dev, step.led)
  {
    var longer := steps + [step];
    forall dev, led | WasSet(steps, dev, led) ensures WasSet(longer, dev, led) {
      var j :| 0 <= j < |steps| && steps[j] == L.SetTarget(dev, led);
      assert longer[j] == L.SetTarget(dev, led);
    }
    if step.SetTarget? {
      assert longer[|steps|] == L.SetTarget(step.dev, step.led);
    }
  }

  lemma StepOriginates(k: L.Kernel, steps: seq<L.Step>, step: L.Step)
    requires Originates(k, steps)
    ensures Originates(L.Do(k, step), steps + [step])
  {
    hide WasSet;
    WasSetBefore(steps, step);
  }

  lemma {:induction false} RunOriginates(interval: nat, cpus: nat, steps: seq<L.Step>)
    ensures Originates(L.Run(L.Booted(interval, cpus), steps), steps)
  {
    if steps != [] {
      hide Originates, L.Do, L.Booted;
      var prefix, last := steps[..|steps| - 1], steps[|steps| - 1];
      RunOriginates(interval, cpus, prefix);
      StepOriginates(L.Run(L.Booted(interval, cpus), prefix), prefix, last);
      assert prefix + [last] == steps;
    }
  }

  /** If every target ever set is still there, everything is addressed right. */
  lemma KeptIsAddressed(interval: nat, cpus: nat, steps: seq<L.Step>)
    requires SetsOnly(steps, 0, L.Run(L.Booted(interval, cpus), steps).targets)
    ensures Addressed(L.Run(L.Booted(interval, cpus), steps))
  {
    hide L.Run;
    RunOriginates(interval, cpus, steps);
  }

  // ----- the maps do not depend on the collector -----

  lemma {:induction false} MapsOfMapSteps(interval: nat, cpus: nat, steps: seq<L.Step>)
    ensures var k, k1 := L.Run(L.Booted(interval, cpus), steps), L.Run(L.Booted(interval, cpus), MapSteps(steps));
            k.targets == k1.targets && k.states.Keys == k1.states.Keys
  {
    hide L.Do;
    if steps != [] {
      var prefix, last := steps[..|steps| - 1], steps[|steps| - 1];
      MapsOfMapSteps(interval, cpus, prefix);
      StepOnMaps(L.Run(L.Booted(interval, cpus), prefix), L.Run(L.Booted(interval, cpus), MapSteps(prefix)), last);
      if L.IsMapStep(last) {
        assert MapSteps(steps)[..|MapSteps(steps)| - 1] == MapSteps(prefix);
      } else {
        assert MapSteps(steps) == MapSteps(prefix);
      }
    }
  }

  lemma StepOnMaps(k: L.Kernel, k1: L.Kernel, step: L.Step)
    requires k.targets == k1.targets && k.states.Keys == k1.states.Keys
    ensures var next, next1 := L.Do(k, step), if L.IsMapStep(step) then L.Do(k1, step) else k1;
            next.targets == next1.targets && next.states.Keys == next1.states.Keys
  {
    if step.DeleteState? {
      assert L.Do(k, step).states.Keys == k.states.Keys - {step.dev};
      assert L.Do(k1, step).states.Keys == k1.states.Keys - {step.dev};
    }
  }

  lemma {:induction false} SetsOfMapSteps(steps: seq<L.Step>, targets: map<u32, byte>)
    ensures SetsOnly(steps, 0, targets) <==> SetsOnly(MapSteps(steps), 0, targets)
  {
    if steps != [] {
      var prefix, last := steps[..|steps| - 1], steps[|steps| - 1];
      SetsOfMapSteps(prefix, targets);
      SetsOnlyLast(prefix, last, targets);
      SetsOnlyLast(MapSteps(prefix), last, targets);
      assert prefix + [last] == steps;
      if !L.IsMapStep(last) {
        assert MapSteps(steps) == MapSteps(prefix);
      }
    }
  }

  lemma SetsOnlyLast(steps: seq<L.Step>, step: L.Step, targets: map<u32, byte>)
    ensures SetsOnly(steps + [step], 0, targets) <==>
              SetsOnly(steps, 0, targets)
              && (step.SetTarget? ==> step.dev in targets && targets[step.dev] == step.led)
  {
    var longer := steps + [step];
    assert longer[|steps|] == step;
    assert forall k :: 0 <= k < |steps| ==> longer[k] == steps[k];
  }

  // ----- what an unlucky interleaving does -----

  /** The kernel before any request. */
  ghost predicate Untouched(k: L.Kernel, interval: nat, cpus: nat) {
    && k.interval == interval && k.ring == []
    && k.cpus == seq(cpus, _ => L.Idle)
    && (forall j :: 0 <= j < |k.elements| ==> k.elements[j] == L.Element(0, []))
    && (forall dev :: dev in k.states ==> k.states[dev] < |k.elements|)
  }

  lemma {:induction false} MapStepsTouchNothing(interval: nat, cpus: nat, ops: seq<L.Step>)
    requires forall j :: 0 <= j < |ops| ==> L.IsMapStep(ops[j])
    ensures Untouched(L.Run(L.Booted(interval, cpus), ops), interval, cpus)
  {
    if ops != [] {
      MapStepsTouchNothing(interval, cpus, ops[..|ops| - 1]);
    }
  }

  lemma {:induction false} MapStepsKeepRing(k: L.Kernel, ops: seq<L.Step>)
    requires forall j :: 0 <= j < |ops| ==> L.IsMapStep(ops[j])
    ensures L.Run(k, ops).ring == k.ring && L.Run(k, ops).cpus == k.cpus
  {
    if ops != [] {
      MapStepsKeepRing(k, ops[..|ops| - 1]);
    }
  }

  /** One request right after the target number `j` is set: whatever map operations
      come later, its event is on the ring at the end. */
  lemma EventOutlivesItsTarget(interval: nat, cpus: nat, ops: seq<L.Step>, j: nat) returns (steps: seq<L.Step>)
    requires cpus > 0 && j < |ops| && forall n :: 0 <= n < |ops| ==> L.IsMapStep(ops[n])
    requires ops[j].SetTarget? && ops[j].dev in L.Run(L.Booted(interval, cpus), ops[..j]).states
    ensures MapSteps(steps) == ops
    ensures var k := L.Run(L.Booted(interval, cpus), steps);
            k.ring == [L.Event(0, ops[j].dev, ops[j].led)] && k.cpus == seq(cpus, _ => L.Idle)
  {
    hide L.Request, L.Do, L.Run, MapSteps;
    var booted, dev := L.Booted(interval, cpus), ops[j].dev;
    var before, after := ops[..j + 1], ops[j + 1..];
    var request := [L.FindTarget(0, dev), L.FindState(0), L.ReadClock(0, 0), L.ReadDeadline(0),
                    L.CompareAndSwap(0), L.Output(0, false)];
    steps := before + request + after;
    MapStepsConcat(before + request, after);
    MapStepsConcat(before, request);
    RequestHasNoMapStep(dev);
    OnlyMapSteps(before);
    OnlyMapSteps(after);
    assert before + after == ops;
    var k := L.Run(booted, before);
    assert before[..j] == ops[..j];
    TargetJustSet(booted, before);
    MapStepsTouchNothing(interval, cpus, before);
    L.RunConcat(booted, before, request);
    L.RunRequest(k, dev, 0);
    L.UndisturbedRequest(k, 0, dev, 0);
    L.RunConcat(booted, before + request, after);
    MapStepsKeepRing(L.Request(k, 0, dev, 0), after);
  }

  lemma TargetJustSet(k: L.Kernel, ops: seq<L.Step>)
    requires ops != [] && ops[|ops| - 1].SetTarget?
    ensures var last, k0, k1 := ops[|ops| - 1], L.Run(k, ops[..|ops| - 1]), L.Run(k, ops);
            k1.targets == k0.targets[last.dev := last.led] && k1.states == k0.states
  {
  }

  lemma RequestHasNoMapStep(dev: u32)
    ensures MapSteps([L.FindTarget(0, dev), L.FindState(0), L.ReadClock(0, 0), L.ReadDeadline(0),
                      L.CompareAndSwap(0), L.Output(0, false)]) == []
  {
    var a, b, c := [L.FindTarget(0, dev), L.FindState(0)], [L.ReadClock(0, 0), L.ReadDeadline(0)],
                   [L.CompareAndSwap(0), L.Output(0, false)];
    NoMapSteps(L.FindTarget(0, dev), L.FindState(0));
    NoMapSteps(L.ReadClock(0, 0), L.ReadDeadline(0));
    NoMapSteps(L.CompareAndSwap(0), L.Output(0, false));
    MapStepsConcat(a, b);
    MapStepsConcat(a + b, c);
    assert a + b + c == [L.FindTarget(0, dev), L.FindState(0), L.ReadClock(0, 0), L.ReadDeadline(0),
                         L.CompareAndSwap(0), L.Output(0, false)];
  }

  lemma NoMapSteps(a: L.Step, b: L.Step)
    requires !L.IsMapStep(a) && !L.IsMapStep(b)
    ensures MapSteps([a, b]) == []
  {
    assert [a, b][..1] == [a];
    assert MapSteps([a]) == MapSteps([a][..0]);
  }

  /** As the daemon does it, a target is only set for a device that has a state. */
  ghost predicate StatesFirst(interval: nat, cpus: nat, ops: seq<L.Step>) {
    forall j :: 0 <= j < |ops| && ops[j].SetTarget? ==> ops[j].dev in L.Run(L.Booted(interval, cpus), ops[..j]).states
  }

  /** Exactly which rewriting of the maps is harmless: every interleaving with any
      number of collectors ends with everything addressed right if and only if
      each target ever set is still in the map, that is, no mapped device has left
      or moved. */
  lemma AddressedIff(interval: nat, cpus: nat, ops: seq<L.Step>)
    requires cpus > 0 && forall n :: 0 <= n < |ops| ==> L.IsMapStep(ops[n])
    requires StatesFirst(interval, cpus, ops)
    ensures (forall steps :: MapSteps(steps) == ops ==> Addressed(L.Run(L.Booted(interval, cpus), steps))) <==>
              SetsOnly(ops, 0, L.Run(L.Booted(interval, cpus), ops).targets)
  {
    hide L.Run, Addressed, MapSteps;
    var targets := L.Run(L.Booted(interval, cpus), ops).targets;
    if SetsOnly(ops, 0, targets) {
      forall steps | MapSteps(steps) == ops ensures Addressed(L.Run(L.Booted(interval, cpus), steps)) {
        MapsOfMapSteps(interval, cpus, steps);
        SetsOfMapSteps(steps, targets);
        KeptIsAddressed(interval, cpus, steps);
      }
    } else {
      var j :| 0 <= j < |ops| && ops[j].SetTarget?
               && !(ops[j].dev in targets && targets[ops[j].dev] == ops[j].led);
      var steps := EventOutlivesItsTarget(interval, cpus, ops, j);
      MapsOfMapSteps(interval, cpus, steps);
      MisaddressedEvent(L.Run(L.Booted(interval, cpus), steps), ops[j].dev, ops[j].led);
    }
  }

  lemma MisaddressedEvent(k: L.Kernel, dev: u32, led: byte)
    requires k.ring == [L.Event(0, dev, led)] && !(dev in k.targets && k.targets[dev] == led)
    ensures !Addressed(k)
  {
    assert k.ring[0] == L.Event(0, dev, led);
  }
}
