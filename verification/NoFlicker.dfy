/** When a busy disk keeps blinking, and exactly when it does. */
module NoFlicker {
  import opened Types
  import opened Mcu
  import opened LedController
  import opened Settings
  import opened Timers
  import opened Discovery
  import opened Burst
  import D = DiskLeds
  import L = DiskLimiter

  /** On a healthy bus, the burst model moves the slot of a present disk exactly as
      the handling of its events and of the timer does, and with nothing else. */
  lemma SlotMoves(d: D.Disks, c: Controller, s: Settings, i: nat, now: Time, w: World, step: L.Step)
    requires D.Invariant(d, c, s) && c.bus.Healthy()
    requires i < d.count && d.slots[i].present && w.slot == d.slots[i]
    ensures w.kernel.ring != [] ==>
              var led := w.kernel.ring[0].led;
              && Do(w, Deliver(now), s).slot == D.ActivityHandled(d, c, s, led, now).0.slots[i]
              && Do(w, Deliver(now), s).kernel == L.Do(w.kernel, L.Consume)
    ensures Do(w, Wake(now), s).slot == D.TimerHandled(d, c, s, now).0.slots[i]
    ensures Do(w, Cpu(now, step), s).slot == w.slot == Do(w, Map(now, step), s).slot
  {
    hide D.ActivityHandled, D.TimerHandled, D.Invariant, D.ArmedExactly, D.AllKnown, Touched, L.Do;
    D.TimerKeeps(d, c, s, now);
    if w.kernel.ring != [] {
      EventMoves(d, c, s, i, now, w.kernel.ring[0].led);
    }
  }

  lemma EventMoves(d: D.Disks, c: Controller, s: Settings, i: nat, now: Time, led: byte)
    requires D.Invariant(d, c, s) && c.bus.Healthy()
    requires i < d.count && d.slots[i].present
    ensures D.ActivityHandled(d, c, s, led, now).0.slots[i] ==
            if led == D.LedOf(i) then Touched(d.slots[i], s, now) else d.slots[i]
  {
    hide D.ActivityHandled, Coherent, D.Policy, D.Watched, D.ArmedExactly, D.AllKnown, Usable, Rest;
    D.ActivityKeeps(d, c, s, led, now);
  }

  /** If the hold time covers interval, request gap, flight and delivery delay, and
      what a rewrite of the maps can add to them, then on any number of CPUs and in
      every interleaving a disk blinks from its first handled event until at least
      the hold time after its last one: whenever it is not blinking no run of the
      program is in flight, no event is on its way, the last request is more than a
      gap ago, and the hold time has passed. */
  lemma BlinksThroughBurst(k: L.Kernel, dev: u32, from: nat, slot: Slot, steps: seq<Step>, s: Settings, b: Bounds)
    requires Usable(s) && Covers(s, b, |k.cpus|)
    requires Ready(k, dev, slot, from, s) && LegalRun(Begin(k, dev, from, slot), steps, s, b)
    ensures var w := After(Begin(k, dev, from, slot), steps, s);
            w.handledAt.Some? && !w.slot.active ==> !Busy(w, w.clock, b) && w.clock >= w.handledAt.value + Hold(s)
    ensures forall step :: Legal(After(Begin(k, dev, from, slot), steps, s), step, b) ==>
              !Flickers(After(Begin(k, dev, from, slot), steps, s), step, b)
  {
    hide Ready, Flickers, Legal, After, Covers, Setup, Timely, Current, Expecting;
    var w := After(Begin(k, dev, from, slot), steps, s);
    RunKeepsSteady(k, dev, from, slot, steps, s, b);
    forall step | Legal(w, step, b) ensures !Flickers(w, step, b) {
      StepKeeps(w, step, s, b);
    }
  }

  // ----- building legal runs -----

  /** Clock readings stay below this. */
  const END_OF_TIME: nat := 0x4000_0000_0000_0000

  lemma Then(w: World, steps: seq<Step>, step: Step, s: Settings, b: Bounds)
    requires LegalRun(w, steps, s, b) && Legal(After(w, steps, s), step, b)
    ensures LegalRun(w, steps + [step], s, b)
    ensures After(w, steps + [step], s) == Do(After(w, steps, s), step, s)
  {
    hide Do, Legal;
    assert (steps + [step])[..|steps|] == steps;
  }

  lemma Nothing(w: World, s: Settings, b: Bounds)
    ensures LegalRun(w, [], s, b) && After(w, [], s) == w
  {
  }

  lemma OneStep(w: World, step: Step, s: Settings, b: Bounds)
    requires Legal(w, step, b)
    ensures LegalRun(w, [step], s, b) && After(w, [step], s) == Do(w, step, s)
  {
    hide Do, Legal;
    Nothing(w, s, b);
    Then(w, [], step, s, b);
    assert [] + [step] == [step];
  }

  lemma Unfolded(w: World, steps: seq<Step>, s: Settings, b: Bounds)
    requires LegalRun(w, steps, s, b) && steps != []
    ensures var before, last := steps[..|steps| - 1], steps[|steps| - 1];
            && LegalRun(w, before, s, b) && Legal(After(w, before, s), last, b)
            && After(w, steps, s) == Do(After(w, before, s), last, s)
  {
    hide Do, Legal;
  }

  lemma {:induction false} Joined(w: World, first: seq<Step>, second: seq<Step>, s: Settings, b: Bounds)
    requires LegalRun(w, first, s, b) && LegalRun(After(w, first, s), second, s, b)
    ensures LegalRun(w, first + second, s, b)
    ensures After(w, first + second, s) == After(After(w, first, s), second, s)
  {
    hide Do, Legal, LegalRun, After;
    if second == [] {
      Nothing(After(w, first, s), s, b);
      assert first + second == first;
    } else {
      var prefix, last := second[..|second| - 1], second[|second| - 1];
      Unfolded(After(w, first, s), second, s, b);
      Joined(w, first, prefix, s, b);
      Then(w, first + prefix, last, s, b);
      assert first + second == (first + prefix) + [last];
    }
  }

  lemma {:induction false} RunKeepsSetup(w: World, steps: seq<Step>, s: Settings, b: Bounds)
    requires Setup(w, s) && LegalRun(w, steps, s, b)
    ensures Setup(After(w, steps, s), s)
  {
    hide Setup, Do, Legal;
    if steps != [] {
      RunKeepsSetup(w, steps[..|steps| - 1], s, b);
      StepKeepsSetup(After(w, steps[..|steps| - 1], s), steps[|steps| - 1], s, b);
    }
  }

  // ----- one run of the program, nobody else working -----

  /** The disk is mapped, all CPUs are idle, and every event is handled. */
  ghost predicate Calm(w: World, s: Settings) {
    && Setup(w, s) && |w.starts| > 0 && Mapped(w)
    && (forall i :: 0 <= i < |w.starts| ==> w.kernel.cpus[i].Idle?)
    && (forall j :: 0 <= j < |w.emissions| ==> w.emissions[j].handled)
  }

  /** A request may start at time `t`. */
  ghost predicate MayRequest(w: World, t: nat, b: Bounds) {
    w.clock <= t < END_OF_TIME && (w.request.Some? ==> t <= w.request.value + b.gap)
  }

  function Elem(w: World): nat {
    if w.dev in w.kernel.states then w.kernel.states[w.dev] else 0
  }

  /** The stored emission deadline of the disk. */
  function Next(w: World): nat {
    if Elem(w) < |w.kernel.elements| then w.kernel.elements[Elem(w)].next else 0
  }

  /** What a CPU holds at time `t` when it is about to swap for the disk. */
  function LoadedAt(w: World, t: nat): L.Cpu {
    L.Loaded(w.dev, w.slot.ledId, Elem(w), t, Next(w),
             if Elem(w) < |w.kernel.elements| then |w.kernel.elements[Elem(w)].emitted| else 0)
  }

  /** CPU `i` has started a run at time `t` and now is in state `c`. */
  function Started(w: World, i: nat, t: nat, c: L.Cpu): World
    requires i < |w.starts| == |w.kernel.cpus|
  {
    w.(clock := t, kernel := w.kernel.(cpus := w.kernel.cpus[i := c]), starts := w.starts[i := t], request := Some(t))
  }

  lemma OneStarted(w: World, t: nat, c: L.Cpu, s: Settings)
    requires Calm(w, s)
    ensures forall j :: 0 < j < |w.starts| ==> !InFlight(Started(w, 0, t, c).kernel, w.dev, j)
    ensures L.At(Started(w, 0, t, c).kernel, 0) == c
  {
    hide L.Invariant, Separate;
    forall j | 0 < j < |w.starts| ensures !InFlight(Started(w, 0, t, c).kernel, w.dev, j) {
      assert w.kernel.cpus[j].Idle?;
    }
  }

  /** A further step of the run. */
  lemma GoesOn(w: World, t: nat, c: L.Cpu, k: L.Step, c1: L.Cpu, s: Settings, b: Bounds)
    requires Calm(w, s) && t < END_OF_TIME
    requires L.IsCpuStep(k) && !k.FindTarget? && (k.ReadClock? ==> k.now == t)
    requires L.Do(Started(w, 0, t, c).kernel, k) == Started(w, 0, t, c1).kernel && !c1.Won?
    requires k.cpu == 0
    ensures Legal(Started(w, 0, t, c), Cpu(t, k), b)
    ensures Do(Started(w, 0, t, c), Cpu(t, k), s) == Started(w, 0, t, c1)
  {
    hide Setup, L.Do;
    OneStarted(w, t, c, s);
    OneStarted(w, t, c1, s);
  }

  lemma StartsRun(w: World, t: nat, s: Settings, b: Bounds)
    requires Calm(w, s) && MayRequest(w, t, b)
    ensures Legal(w, Cpu(t, L.FindTarget(0, w.dev)), b)
    ensures Do(w, Cpu(t, L.FindTarget(0, w.dev)), s) == Started(w, 0, t, L.Targeted(w.dev, w.slot.ledId))
  {
    hide L.Invariant;
  }

  /** CPU 0 starts a run at time `t` and comes up to its swap. */
  lemma Loads(w: World, t: nat, s: Settings, b: Bounds) returns (steps: seq<Step>)
    requires Calm(w, s) && MayRequest(w, t, b)
    ensures LegalRun(w, steps, s, b) && After(w, steps, s) == Started(w, 0, t, LoadedAt(w, t))
  {
    hide LegalRun, After, L.ElementOk, L.CpuOk;
    var led := w.slot.ledId;
    var c1, c2, c3 := L.Targeted(w.dev, led), L.Holding(w.dev, led, Elem(w)), L.Clocked(w.dev, led, Elem(w), t);
    StartsRun(w, t, s, b);
    OneStep(w, Cpu(t, L.FindTarget(0, w.dev)), s, b);
    steps := [Cpu(t, L.FindTarget(0, w.dev))];
    GoesOn(w, t, c1, L.FindState(0), c2, s, b);
    Then(w, steps, Cpu(t, L.FindState(0)), s, b);
    steps := steps + [Cpu(t, L.FindState(0))];
    GoesOn(w, t, c2, L.ReadClock(0, t), c3, s, b);
    Then(w, steps, Cpu(t, L.ReadClock(0, t)), s, b);
    steps := steps + [Cpu(t, L.ReadClock(0, t))];
    GoesOn(w, t, c3, L.ReadDeadline(0), LoadedAt(w, t), s, b);
    Then(w, steps, Cpu(t, L.ReadDeadline(0)), s, b);
    steps := steps + [Cpu(t, L.ReadDeadline(0))];
  }

  /** A run before the emission deadline changes nothing but the times. */
  lemma Rejected(w: World, t: nat, s: Settings, b: Bounds) returns (steps: seq<Step>)
    requires Calm(w, s) && MayRequest(w, t, b) && !L.Passes(Next(w), t)
    ensures LegalRun(w, steps, s, b) && After(w, steps, s) == Started(w, 0, t, L.Idle)
    ensures Calm(Started(w, 0, t, L.Idle), s) && Next(Started(w, 0, t, L.Idle)) == Next(w)
  {
    hide LegalRun, After, L.ElementOk, L.CpuOk, Separate;
    steps := Loads(w, t, s, b);
    GoesOn(w, t, LoadedAt(w, t), L.CompareAndSwap(0), L.Idle, s, b);
    Then(w, steps, Cpu(t, L.CompareAndSwap(0)), s, b);
    steps := steps + [Cpu(t, L.CompareAndSwap(0))];
    RunKeepsSetup(w, steps, s, b);
  }

  /** A burst whose latest request was just now. */
  ghost predicate Fresh(w: World) {
    w.request == Some(w.clock) && |w.starts| > 0 && w.starts[0] == w.clock
  }

  lemma StartedAgain(w: World, t: nat, s: Settings)
    requires Calm(w, s)
    ensures Fresh(w) ==> Started(w, 0, w.clock, L.Idle) == w
    ensures forall t0 :: Started(Started(w, 0, t0, L.Idle), 0, t, L.Idle) == Started(w, 0, t, L.Idle)
  {
  }

  /** Requests every nanosecond up to `m` later, all before the deadline. */
  lemma {:induction false} Hammer(w: World, m: nat, s: Settings, b: Bounds) returns (steps: seq<Step>)
    requires Calm(w, s) && Fresh(w) && b.gap > 0 && w.clock + m < END_OF_TIME && w.clock + m < Next(w)
    ensures LegalRun(w, steps, s, b) && Calm(w, s) && After(w, steps, s) == Started(w, 0, w.clock + m, L.Idle)
    ensures Calm(After(w, steps, s), s) && Next(After(w, steps, s)) == Next(w)
    decreases m
  {
    hide LegalRun, After, Setup, Next, InFlight;
    StartedAgain(w, w.clock + m, s);
    if m == 0 {
      steps := [];
      Nothing(w, s, b);
    } else {
      var first := Hammer(w, m - 1, s, b);
      var second := Rejected(After(w, first, s), w.clock + m, s, b);
      Joined(w, first, second, s, b);
      steps := first + second;
    }
  }

  /** The kernel after CPU 0 won for the disk with clock reading `t`. */
  function Moved(w: World, t: nat, c: L.Cpu): L.Kernel
    requires 0 < |w.kernel.cpus| && Elem(w) < |w.kernel.elements|
  {
    w.kernel.(cpus := w.kernel.cpus[0 := c],
              elements := w.kernel.elements[Elem(w) :=
                L.Element(t + w.kernel.interval, w.kernel.elements[Elem(w)].emitted + [t])])
  }

  /** The world after a run started at `t` has won its swap at `u`. */
  function Swapped(w: World, t: nat, u: nat, c: L.Cpu): World
    requires 0 < |w.starts| == |w.kernel.cpus| && Elem(w) < |w.kernel.elements|
  {
    w.(clock := u, kernel := Moved(w, t, c), starts := w.starts[0 := t], request := Some(t), rewritten := false,
       emissions := w.emissions + [Emission(t, u, false)])
  }

  lemma SwapWins(w: World, t: nat, u: Time, s: Settings)
    requires Calm(w, s) && L.Passes(Next(w), t)
    ensures Elem(w) < |w.kernel.elements|
    ensures Do(Started(w, 0, t, LoadedAt(w, t)), Cpu(u, L.CompareAndSwap(0)), s) ==
            Swapped(w, t, u, L.Won(w.dev, w.slot.ledId, t))
  {
    hide L.ElementOk, L.CpuOk;
  }

  /** A run after the emission deadline wins, as late as its flight time lets it. */
  lemma Emits(w: World, t: nat, u: nat, s: Settings, b: Bounds) returns (steps: seq<Step>)
    requires Calm(w, s) && MayRequest(w, t, b) && L.Passes(Next(w), t)
    requires t <= u <= t + b.flight && u < END_OF_TIME
    ensures Elem(w) < |w.kernel.elements| && LegalRun(w, steps, s, b)
    ensures After(w, steps, s) == Swapped(w, t, u, L.Won(w.dev, w.slot.ledId, t))
  {
    hide LegalRun, After, Setup, Next, Do, LoadedAt;
    steps := Loads(w, t, s, b);
    OneStarted(w, t, LoadedAt(w, t), s);
    SwapWins(w, t, u, s);
    Then(w, steps, Cpu(u, L.CompareAndSwap(0)), s, b);
    steps := steps + [Cpu(u, L.CompareAndSwap(0))];
  }

  lemma NobodyFlies(w: World, t: nat, u: nat, c: L.Cpu, s: Settings)
    requires Calm(w, s) && Elem(w) < |w.kernel.elements| && (c.Idle? || c.Won?)
    ensures forall j :: 0 <= j < |w.starts| ==> !InFlight(Swapped(w, t, u, c).kernel, w.dev, j)
  {
    hide L.Invariant, Separate;
    forall j | 0 <= j < |w.starts| ensures !InFlight(Swapped(w, t, u, c).kernel, w.dev, j) {
      assert w.kernel.cpus[j].Idle?;
    }
  }

  // ----- other disks come to rest -----

  /** The burst has not begun. */
  ghost predicate AtRest(w: World, s: Settings) {
    && Setup(w, s) && Mapped(w) && !w.rewritten
    && w.request.None? && w.emissions == [] && w.handledAt.None?
    && (forall i :: 0 <= i < |w.starts| && !w.kernel.cpus[i].Idle? ==> w.kernel.cpus[i].dev != w.dev)
    && (forall j :: 0 <= j < |w.kernel.ring| ==> w.kernel.ring[j].dev != w.dev)
  }

  /** Steps to the end of the program. */
  function Stage(c: L.Cpu): nat {
    match c
    case Idle => 0
    case Won(_, _, _) => 1
    case Loaded(_, _, _, _, _, _) => 2
    case Clocked(_, _, _, _) => 3
    case Holding(_, _, _) => 4
    case Targeted(_, _) => 5
  }

  function NextStep(c: L.Cpu, i: nat, now: nat): L.Step {
    match c
    case Won(_, _, _) => L.Output(i, true)
    case Loaded(_, _, _, _, _, _) => L.CompareAndSwap(i)
    case Clocked(_, _, _, _) => L.ReadDeadline(i)
    case Holding(_, _, _) => L.ReadClock(i, now)
    case _ => L.FindState(i)
  }

  function Work(cpus: seq<L.Cpu>): nat {
    if cpus == [] then 0 else Work(cpus[..|cpus| - 1]) + Stage(cpus[|cpus| - 1])
  }

  lemma {:induction false} WorkUpdate(cpus: seq<L.Cpu>, i: nat, c: L.Cpu)
    requires i < |cpus| && Stage(c) < Stage(cpus[i])
    ensures Work(cpus[i := c]) < Work(cpus)
  {
    var m := |cpus| - 1;
    if i == m {
      assert cpus[i := c][..m] == cpus[..m];
    } else {
      WorkUpdate(cpus[..m], i, c);
      assert cpus[i := c][..m] == cpus[..m][i := c];
    }
  }

  /** A run for another disk goes on without touching this one. */
  lemma OtherGoesOn(w: World, i: nat, s: Settings, b: Bounds)
    requires AtRest(w, s) && i < |w.starts| && !w.kernel.cpus[i].Idle? && w.clock < END_OF_TIME
    ensures var k := NextStep(w.kernel.cpus[i], i, w.clock); var w1 := w.(kernel := L.Do(w.kernel, k));
            && Legal(w, Cpu(w.clock, k), b) && Do(w, Cpu(w.clock, k), s) == w1
            && AtRest(w1, s) && Next(w1) == Next(w) && w1.kernel.ring == w.kernel.ring
            && Stage(L.At(w1.kernel, i)) < Stage(w.kernel.cpus[i])
            && w1.kernel.cpus == w.kernel.cpus[i := L.At(w1.kernel, i)]
  {
    hide L.ElementOk, L.CpuOk;
    var k := NextStep(w.kernel.cpus[i], i, w.clock);
    assert Legal(w, Cpu(w.clock, k), b);
    StepKeepsSetup(w, Cpu(w.clock, k), s, b);
    L.CpuStepKeepsMaps(w.kernel, k);
    NextMoves(w, k, s, Elem(w));
    StageDrops(w.kernel, i, w.clock);
    assert L.Do(w.kernel, k).cpus == w.kernel.cpus[i := L.At(L.Do(w.kernel, k), i)];
  }

  lemma StageDrops(k: L.Kernel, i: nat, now: nat)
    requires L.Invariant(k) && i < |k.cpus| && !k.cpus[i].Idle?
    ensures Stage(L.At(L.Do(k, NextStep(k.cpus[i], i, now)), i)) < Stage(k.cpus[i])
  {
    hide L.ElementOk;
    assert L.CpuOk(k, k.cpus[i]);
  }

  lemma Settles(w: World, s: Settings, b: Bounds) returns (steps: seq<Step>)
    requires AtRest(w, s) && |w.starts| > 0 && w.clock < END_OF_TIME
    ensures LegalRun(w, steps, s, b)
    ensures var w1 := After(w, steps, s);
            && w1 == w.(kernel := w1.kernel) && AtRest(w1, s) && Calm(w1, s) && Next(w1) == Next(w)
            && w1.kernel.ring == w.kernel.ring
    decreases Work(w.kernel.cpus)
  {
    hide LegalRun, After, Setup, Next, Do, L.Do, Legal;
    if i :| 0 <= i < |w.kernel.cpus| && !w.kernel.cpus[i].Idle? {
      SetupLengths(w, s);
      OtherGoesOn(w, i, s, b);
      var step := Cpu(w.clock, NextStep(w.kernel.cpus[i], i, w.clock));
      var w1 := Do(w, step, s);
      WorkUpdate(w.kernel.cpus, i, w1.kernel.cpus[i]);
      var rest := Settles(w1, s, b);
      OneStep(w, step, s, b);
      Joined(w, [step], rest, s, b);
      steps := [step] + rest;
    } else {
      steps := [];
      Nothing(w, s, b);
      SetupLengths(w, s);
    }
  }

  /** Events of other disks are handed over first. */
  lemma {:induction false} Drained(w: World, s: Settings, b: Bounds) returns (steps: seq<Step>)
    requires AtRest(w, s) && Calm(w, s) && w.clock < END_OF_TIME
    ensures LegalRun(w, steps, s, b) && After(w, steps, s) == w.(kernel := w.kernel.(ring := []))
    ensures AtRest(After(w, steps, s), s) && Calm(After(w, steps, s), s)
    decreases |w.kernel.ring|
  {
    hide LegalRun, After, Setup, Do, Legal;
    if w.kernel.ring == [] {
      steps := [];
      Nothing(w, s, b);
    } else {
      var step := Deliver(w.clock);
      HandsOver(w, s, b);
      var rest := Drained(Do(w, step, s), s, b);
      OneStep(w, step, s, b);
      Joined(w, [step], rest, s, b);
      steps := [step] + rest;
    }
  }

  lemma HandsOver(w: World, s: Settings, b: Bounds)
    requires AtRest(w, s) && Calm(w, s) && w.clock < END_OF_TIME && w.kernel.ring != []
    ensures Legal(w, Deliver(w.clock), b)
    ensures var w1 := Do(w, Deliver(w.clock), s);
            w1 == w.(kernel := w.kernel.(ring := w.kernel.ring[1..])) && AtRest(w1, s) && Calm(w1, s)
  {
    hide L.Invariant;
    assert w.kernel.ring[0].dev != w.dev;
    StepKeepsSetup(w, Deliver(w.clock), s, b);
  }

  // ----- the first event -----

  /** The world after the first request of a burst, emitted and handled at once. */
  function Lit(w: World, s: Settings): World
    requires 0 < |w.starts| == |w.kernel.cpus| && Elem(w) < |w.kernel.elements| && w.clock < END_OF_TIME
  {
    Swapped(w, w.clock, w.clock, L.Idle).(emissions := [Emission(w.clock, w.clock, true)],
      slot := Touched(w.slot, s, w.clock), handledAt := Some(w.clock))
  }

  lemma Lights(w: World, s: Settings)
    requires Calm(w, s) && w.clock < END_OF_TIME && w.emissions == [] && w.kernel.ring == []
    ensures Elem(w) < |w.kernel.elements|
    ensures var w2 := Swapped(w, w.clock, w.clock, L.Idle);
            Do(w2.(kernel := w2.kernel.(ring := [L.Event(w.clock, w.dev, w.slot.ledId)])), Deliver(w.clock), s)
            == Lit(w, s)
    ensures Next(Lit(w, s)) == w.clock + Interval(s)
  {
    hide L.ElementOk, L.CpuOk;
    var w2 := Swapped(w, w.clock, w.clock, L.Idle);
    assert w2.emissions == [Emission(w.clock, w.clock, false)];
    assert Marked(w2.emissions, w.clock) == [Emission(w.clock, w.clock, true)];
    assert [L.Event(w.clock, w.dev, w.slot.ledId)][1..] == [];
  }

  lemma Opens(w: World, s: Settings, b: Bounds) returns (steps: seq<Step>)
    requires AtRest(w, s) && Calm(w, s) && w.clock < END_OF_TIME && w.kernel.ring == [] && L.Passes(Next(w), w.clock)
    ensures Elem(w) < |w.kernel.elements|
    ensures LegalRun(w, steps, s, b) && After(w, steps, s) == Lit(w, s)
    ensures Calm(Lit(w, s), s) && Next(Lit(w, s)) == w.clock + Interval(s)
  {
    hide LegalRun, After, L.Invariant, Separate, LoadedAt;
    var t := w.clock;
    steps := Emits(w, t, t, s, b);
    NobodyFlies(w, t, t, L.Won(w.dev, w.slot.ledId, t), s);
    Then(w, steps, Cpu(t, L.Output(0, false)), s, b);
    steps := steps + [Cpu(t, L.Output(0, false))];
    var w2 := Swapped(w, t, t, L.Idle);
    NobodyFlies(w, t, t, L.Idle, s);
    var w3 := w2.(kernel := w2.kernel.(ring := [L.Event(t, w.dev, w.slot.ledId)]));
    assert After(w, steps, s) == w3;
    Then(w, steps, Deliver(t), s, b);
    steps := steps + [Deliver(t)];
    Lights(w, s);
    RunKeepsSetup(w, steps, s, b);
  }

  // ----- the last wake-up -----

  /** A legal run after which a legal wake-up flickers. */
  ghost predicate FlickerRun(w: World, steps: seq<Step>, step: Step, s: Settings, b: Bounds) {
    && LegalRun(w, steps, s, b)
    && Legal(After(w, steps, s), step, b)
    && Flickers(After(w, steps, s), step, b)
  }

  /** A lit slot goes dark at its deadline, which comes no later than gap, flight
      and delay after the latest request, when the next request will pass. */
  lemma GoesDark(w: World, deadline: nat, s: Settings, b: Bounds) returns (steps: seq<Step>)
    requires Calm(w, s) && Fresh(w) && w.slot.active && w.slot.deadline as int == deadline < END_OF_TIME
    requires w.clock <= deadline <= w.clock + b.gap + b.flight + b.delay
    requires deadline > w.clock + b.gap ==> L.Passes(Next(w), w.clock + b.gap)
    ensures FlickerRun(w, steps, Wake(deadline), s, b)
  {
    hide LegalRun, After, Setup, Next, LoadedAt;
    var q := w.clock + b.gap;
    SetupLengths(w, s);
    if deadline <= q {
      steps := [];
      Nothing(w, s, b);
    } else if deadline <= q + b.flight {
      StartsRun(w, q, s, b);
      steps := [Cpu(q, L.FindTarget(0, w.dev))];
      OneStep(w, steps[0], s, b);
      OneStarted(w, q, L.Targeted(w.dev, w.slot.ledId), s);
      assert InFlight(After(w, steps, s).kernel, w.dev, 0);
    } else {
      steps := Emits(w, q, q + b.flight, s, b);
      NobodyFlies(w, q, q + b.flight, L.Won(w.dev, w.slot.ledId, q), s);
      assert !After(w, steps, s).emissions[|w.emissions|].handled;
    }
  }

  // ----- requests lost to a rewrite -----

  /** The first `m` CPUs have found the disk's target and nothing more; the others
      are idle. */
  ghost predicate Stalled(w: World, m: nat, s: Settings) {
    && Setup(w, s) && m <= |w.starts| && |w.starts| > 0 && Mapped(w)
    && (forall j :: 0 <= j < |w.starts| ==>
          w.kernel.cpus[j] == if j < m then L.Targeted(w.dev, w.slot.ledId) else L.Idle)
    && (forall j :: 0 <= j < |w.emissions| ==> w.emissions[j].handled)
  }

  /** Requests a gap apart, each stalled on a CPU of its own. */
  lemma {:induction false} Stalls(w: World, t: nat, m: nat, s: Settings, b: Bounds) returns (steps: seq<Step>)
    requires Calm(w, s) && MayRequest(w, t, b) && b.gap > 0 && m <= |w.starts|
    requires m > 0 ==> (m - 1) * b.gap <= b.flight && t + (m - 1) * b.gap < END_OF_TIME
    ensures LegalRun(w, steps, s, b)
    ensures var w1 := After(w, steps, s);
            && Stalled(w1, m, s)
            && w1 == w.(clock := w1.clock, kernel := w1.kernel, starts := w1.starts, request := w1.request)
            && |w1.starts| == |w.starts|
            && (if m == 0 then w1 == w
                else w1.clock == t + (m - 1) * b.gap && w1.request == Some(w1.clock))
            && (forall j :: 0 <= j < m ==> w1.starts[j] >= t)
    decreases m
  {
    hide LegalRun, After, Do, Legal;
    if m == 0 {
      steps := [];
      Nothing(w, s, b);
    } else {
      Times(m - 1, m - 1, b.gap);
      if m > 1 {
        Times(m - 2, m - 2, b.gap);
      }
      var first := Stalls(w, t, m - 1, s, b);
      var w1, u := After(w, first, s), t + (m - 1) * b.gap;
      StallsOne(w1, u, t, m - 1, s, b);
      Then(w, first, Cpu(u, L.FindTarget(m - 1, w.dev)), s, b);
      steps := first + [Cpu(u, L.FindTarget(m - 1, w.dev))];
    }
  }

  lemma StallsOne(w: World, u: nat, t: nat, m: nat, s: Settings, b: Bounds)
    requires Stalled(w, m, s) && m < |w.starts| && MayRequest(w, u, b)
    requires t <= u <= t + b.flight && forall j :: 0 <= j < m ==> w.starts[j] >= t
    ensures Legal(w, Cpu(u, L.FindTarget(m, w.dev)), b)
    ensures var w1 := Do(w, Cpu(u, L.FindTarget(m, w.dev)), s);
            && Stalled(w1, m + 1, s) && w1.clock == u && w1.request == Some(u)
            && w1 == w.(clock := u, kernel := w1.kernel, starts := w.starts[m := u], request := Some(u))
  {
    hide L.Invariant;
    forall i | 0 <= i < |w.starts| && InFlight(w.kernel, w.dev, i) ensures u <= w.starts[i] + b.flight {
      assert i < m;
    }
    StepKeepsSetup(w, Cpu(u, L.FindTarget(m, w.dev)), s, b);
  }

  /** The disk has neither target nor state; nobody works for it. */
  ghost predicate Dark(w: World, m: nat, s: Settings) {
    && Setup(w, s) && m <= |w.starts| && |w.starts| > 0 && !Mapped(w) && w.dev !in w.kernel.states
    && (forall j :: 0 <= j < |w.starts| ==>
          w.kernel.cpus[j] == if j < m then L.Targeted(w.dev, w.slot.ledId) else L.Idle)
    && (forall j :: 0 <= j < |w.emissions| ==> w.emissions[j].handled)
  }

  /** What does not change while requests are lost. */
  ghost predicate SameSlot(w: World, w1: World) {
    w1.dev == w.dev && w1.slot == w.slot && |w1.starts| == |w.starts|
  }

  lemma GoesDown(w: World, t: nat, m: nat, s: Settings, b: Bounds) returns (steps: seq<Step>)
    requires Stalled(w, m, s) && w.clock <= t < END_OF_TIME && forall j :: 0 <= j < m ==> t <= w.starts[j] + b.flight
    requires !b.rewriting.Never? && (b.rewriting.Once? ==> !w.rewritten)
    ensures LegalRun(w, steps, s, b)
    ensures var w1 := After(w, steps, s);
            && Dark(w1, m, s) && SameSlot(w, w1) && w1.clock == w1.downAt == t
            && w1.request == w.request && w1.starts == w.starts
  {
    hide LegalRun, After, L.Invariant, Separate;
    var first, second := Map(t, L.DeleteTarget(w.dev)), Map(t, L.DeleteState(w.dev));
    forall i | 0 <= i < |w.starts| && InFlight(w.kernel, w.dev, i) ensures t <= w.starts[i] + b.flight {
      assert i < m;
    }
    OneStep(w, first, s, b);
    var w1 := Do(w, first, s);
    forall i | 0 <= i < |w.starts| && InFlight(w1.kernel, w.dev, i) ensures t <= w.starts[i] + b.flight {
      assert i < m;
    }
    Then(w, [first], second, s, b);
    steps := [first] + [second];
    RunKeepsSetup(w, steps, s, b);
  }

  /** Runs that found the target do not find the state. */
  lemma {:induction false} RunsDie(w: World, m: nat, s: Settings, b: Bounds) returns (steps: seq<Step>)
    requires Dark(w, m, s) && w.clock == w.downAt < END_OF_TIME
    requires forall j :: 0 <= j < m ==> w.clock <= w.starts[j] + b.flight
    ensures LegalRun(w, steps, s, b)
    ensures var w1 := After(w, steps, s);
            && Dark(w1, 0, s) && SameSlot(w, w1) && w1.clock == w1.downAt == w.clock
            && w1.request == w.request && w1.starts == w.starts
    decreases m
  {
    hide LegalRun, After, Do, Legal, Setup;
    if m == 0 {
      steps := [];
      Nothing(w, s, b);
    } else {
      var step := Cpu(w.clock, L.FindState(m - 1));
      OneDies(w, m, s, b);
      var rest := RunsDie(Do(w, step, s), m - 1, s, b);
      OneStep(w, step, s, b);
      Joined(w, [step], rest, s, b);
      steps := [step] + rest;
    }
  }

  lemma OneDies(w: World, m: nat, s: Settings, b: Bounds)
    requires Dark(w, m, s) && m > 0 && w.clock == w.downAt < END_OF_TIME
    requires forall j :: 0 <= j < m ==> w.clock <= w.starts[j] + b.flight
    ensures Legal(w, Cpu(w.clock, L.FindState(m - 1)), b)
    ensures var w1 := Do(w, Cpu(w.clock, L.FindState(m - 1)), s);
            && Dark(w1, m - 1, s) && SameSlot(w, w1) && w1.clock == w1.downAt == w.clock
            && w1.request == w.request && w1.starts == w.starts
  {
    hide L.Invariant;
    forall i | 0 <= i < |w.starts| && InFlight(w.kernel, w.dev, i) ensures w.clock <= w.starts[i] + b.flight {
      assert i < m;
    }
    StepKeepsSetup(w, Cpu(w.clock, L.FindState(m - 1)), s, b);
  }

  /** Requests every nanosecond from now to `n` later, all lost. */
  lemma {:induction false} AreLost(w: World, n: nat, s: Settings, b: Bounds) returns (steps: seq<Step>)
    requires Dark(w, 0, s) && b.gap > 0 && w.clock + n < END_OF_TIME && w.clock + n <= w.downAt + Outage(b)
    requires w.request.Some? && w.clock <= w.request.value + b.gap
    ensures LegalRun(w, steps, s, b)
    ensures var w1 := After(w, steps, s);
            Dark(w1, 0, s) && SameSlot(w, w1) && Fresh(w1) && w1.clock == w.clock + n && w1.downAt == w.downAt
    decreases n
  {
    hide LegalRun, After, Do, Legal, Setup;
    if n == 0 {
      IsLost(w, w.clock, s, b);
      steps := [Cpu(w.clock, L.FindTarget(0, w.dev))];
      OneStep(w, steps[0], s, b);
    } else {
      var first := AreLost(w, n - 1, s, b);
      var w1 := After(w, first, s);
      IsLost(w1, w.clock + n, s, b);
      Then(w, first, Cpu(w.clock + n, L.FindTarget(0, w.dev)), s, b);
      steps := first + [Cpu(w.clock + n, L.FindTarget(0, w.dev))];
    }
  }

  lemma IsLost(w: World, t: nat, s: Settings, b: Bounds)
    requires Dark(w, 0, s) && w.clock <= t < END_OF_TIME && t <= w.downAt + Outage(b)
    requires w.request.Some? && t <= w.request.value + b.gap
    ensures Legal(w, Cpu(t, L.FindTarget(0, w.dev)), b)
    ensures var w1 := Do(w, Cpu(t, L.FindTarget(0, w.dev)), s);
            Dark(w1, 0, s) && SameSlot(w, w1) && Fresh(w1) && w1.clock == t && w1.downAt == w.downAt
  {
    hide L.Invariant;
  }

  /** The target comes back, with a new state. */
  lemma ComesUp(w: World, s: Settings, b: Bounds) returns (steps: seq<Step>)
    requires Dark(w, 0, s) && Fresh(w) && w.clock < END_OF_TIME && w.clock <= w.downAt + Outage(b)
    requires !b.rewriting.Never?
    ensures LegalRun(w, steps, s, b)
    ensures var w1 := After(w, steps, s);
            Calm(w1, s) && SameSlot(w, w1) && Fresh(w1) && w1.clock == w.clock && Next(w1) == 0
  {
    hide LegalRun, After, L.Invariant, Separate;
    var first, second := Map(w.clock, L.SetState(w.dev)), Map(w.clock, L.SetTarget(w.dev, w.slot.ledId));
    assert forall i :: 0 <= i < |w.starts| ==> !InFlight(w.kernel, w.dev, i);
    OneStep(w, first, s, b);
    Then(w, [first], second, s, b);
    steps := [first] + [second];
    RunKeepsSetup(w, steps, s, b);
  }

  /** A rewrite at `t` that kills `m` stalled runs and then loses a request every
      nanosecond until it ends `n` later. */
  lemma LosesRequests(w: World, m: nat, t: nat, n: nat, s: Settings, b: Bounds) returns (steps: seq<Step>)
    requires Stalled(w, m, s) && b.gap > 0 && w.clock <= t && t + n < END_OF_TIME && n <= Outage(b)
    requires w.request.Some? && t <= w.request.value + b.gap
    requires forall j :: 0 <= j < m ==> t <= w.starts[j] + b.flight
    requires !b.rewriting.Never? && (b.rewriting.Once? ==> !w.rewritten)
    ensures LegalRun(w, steps, s, b)
    ensures var w1 := After(w, steps, s);
            Calm(w1, s) && SameSlot(w, w1) && Fresh(w1) && w1.clock == t + n && Next(w1) == 0
  {
    hide LegalRun, After, Setup, Next;
    var down := GoesDown(w, t, m, s, b);
    var w1 := After(w, down, s);
    var die := RunsDie(w1, m, s, b);
    Joined(w, down, die, s, b);
    var w2 := After(w1, die, s);
    var lost := AreLost(w2, n, s, b);
    Joined(w, down + die, lost, s, b);
    var w3 := After(w2, lost, s);
    var up := ComesUp(w3, s, b);
    Joined(w, down + die + lost, up, s, b);
    steps := down + die + lost + up;
  }

  // ----- otherwise some run flickers -----

  lemma FlickerJoined(w: World, first: seq<Step>, second: seq<Step>, step: Step, s: Settings, b: Bounds)
    requires LegalRun(w, first, s, b) && FlickerRun(After(w, first, s), second, step, s, b)
    ensures FlickerRun(w, first + second, step, s, b)
  {
    hide LegalRun, After, Legal, Flickers;
    Joined(w, first, second, s, b);
  }

  /** A slot that was lit just now, and goes dark after the hold time. */
  ghost predicate JustLit(w: World, s: Settings) {
    && Calm(w, s) && Fresh(w) && !w.rewritten && Next(w) == w.clock + Interval(s)
    && w.slot.active && w.slot.deadline as int == w.clock + Hold(s) < END_OF_TIME
  }

  /** Without any rewrite. */
  lemma DarkensPlainly(w: World, s: Settings, b: Bounds) returns (steps: seq<Step>)
    requires JustLit(w, s) && b.gap > 0 && Interval(s) > 0
    requires Hold(s) < Interval(s) + b.gap + b.flight + b.delay
    ensures FlickerRun(w, steps, Wake(w.clock + Hold(s)), s, b)
  {
    hide LegalRun, After, Setup, Next, FlickerRun;
    var m := if Hold(s) < Interval(s) then Hold(s) else Interval(s) - 1;
    var first := Hammer(w, m, s, b);
    var second := GoesDark(After(w, first, s), w.clock + Hold(s), s, b);
    FlickerJoined(w, first, second, Wake(w.clock + Hold(s)), s, b);
    steps := first + second;
  }

  /** How many gaps it takes to cover a time. */
  lemma GapsToCover(time: nat, gap: nat, cpus: nat) returns (m: nat)
    requires gap > 0 && time <= cpus * gap
    ensures m <= cpus && time <= m * gap && (m > 0 ==> (m - 1) * gap < time)
  {
    m := 0;
    while m * gap < time
      invariant m <= cpus && (m > 0 ==> (m - 1) * gap < time)
    {
      if m >= cpus {
        Times(cpus, m, gap);
      }
      m := m + 1;
    }
  }

  /** With one rewrite, at the worst moment. */
  lemma DarkensInRewrite(w: World, s: Settings, b: Bounds) returns (steps: seq<Step>)
    requires JustLit(w, s) && b.gap > 0 && Interval(s) > 0 && b.rewriting.Once?
    requires Interval(s) + b.gap + b.flight + b.delay <= Hold(s) < Reach(Interval(s), b, |w.starts|) + b.delay
    ensures FlickerRun(w, steps, Wake(w.clock + Hold(s)), s, b)
  {
    hide LegalRun, After, Setup, Next, FlickerRun;
    var deadline := w.clock + Hold(s);
    var first := Hammer(w, Interval(s) - 1, s, b);
    var w1 := After(w, first, s);
    var q, stall := w1.clock + b.gap, Stall(b, |w.starts|);
    var m := GapsToCover(stall, b.gap, |w.starts|);
    var second := Stalls(w1, q, m, s, b);
    Joined(w, first, second, s, b);
    var w2 := After(w1, second, s);
    if m > 0 {
      Times(m - 1, m - 1, b.gap);
    }
    var n := if deadline - (q + stall) < Outage(b) then deadline - (q + stall) else Outage(b);
    var third := LosesRequests(w2, m, q + stall, n, s, b);
    Joined(w, first + second, third, s, b);
    var fourth := GoesDark(After(w2, third, s), deadline, s, b);
    FlickerJoined(w, first + second + third, fourth, Wake(deadline), s, b);
    steps := first + second + third + fourth;
  }

  /** With any number of rewrites, however short, no request need ever get through. */
  lemma {:induction false} NothingGetsThrough(w: World, n: nat, s: Settings, b: Bounds) returns (steps: seq<Step>)
    requires Calm(w, s) && Fresh(w) && b.gap > 0 && b.rewriting.Often? && w.clock + n < END_OF_TIME
    ensures LegalRun(w, steps, s, b)
    ensures var w1 := After(w, steps, s); Calm(w1, s) && Fresh(w1) && SameSlot(w, w1) && w1.clock == w.clock + n
    decreases n
  {
    hide LegalRun, After, Setup, Next;
    if n == 0 {
      steps := [];
      Nothing(w, s, b);
    } else {
      var first := NothingGetsThrough(w, n - 1, s, b);
      var w1 := After(w, first, s);
      CalmIsStalled(w1, s);
      var second := LosesRequests(w1, 0, w.clock + n, 0, s, b);
      Joined(w, first, second, s, b);
      steps := first + second;
    }
  }

  lemma CalmIsStalled(w: World, s: Settings)
    requires Calm(w, s)
    ensures Stalled(w, 0, s)
  {
    hide L.Invariant, Separate;
  }

  lemma Darkens(w: World, s: Settings, b: Bounds) returns (steps: seq<Step>, step: Step)
    requires JustLit(w, s) && b.gap > 0 && Interval(s) > 0 && !Covers(s, b, |w.starts|)
    ensures FlickerRun(w, steps, step, s, b)
  {
    hide LegalRun, After, Setup, Next, FlickerRun;
    step := Wake(w.clock + Hold(s));
    if Hold(s) < Interval(s) + b.gap + b.flight + b.delay {
      steps := DarkensPlainly(w, s, b);
    } else if b.rewriting.Once? {
      steps := DarkensInRewrite(w, s, b);
    } else {
      var first := NothingGetsThrough(w, Hold(s), s, b);
      var second := GoesDark(After(w, first, s), w.clock + Hold(s), s, b);
      FlickerJoined(w, first, second, step, s, b);
      steps := first + second;
    }
  }

  lemma LitIsJustLit(w: World, s: Settings)
    requires Usable(s) && |w.starts| == |w.kernel.cpus| > 0 && Elem(w) < |w.kernel.elements|
    requires w.clock + Hold(s) < END_OF_TIME
    requires Calm(Lit(w, s), s) && Next(Lit(w, s)) == w.clock + Interval(s)
    ensures JustLit(Lit(w, s), s)
  {
    hide Setup, Next;
    TimingIsExact(s, w.clock);
  }

  lemma BeginIsAtRest(k: L.Kernel, dev: u32, from: nat, slot: Slot, s: Settings)
    requires Ready(k, dev, slot, from, s)
    ensures AtRest(Begin(k, dev, from, slot), s)
  {
    hide L.ElementOk, L.CpuOk;
  }

  /** If the hold time does not cover it all, some legal run flickers. */
  lemma FlickerWitness(k: L.Kernel, dev: u32, from: nat, slot: Slot, s: Settings, b: Bounds)
    returns (steps: seq<Step>, step: Step)
    requires Usable(s) && b.gap > 0 && !Covers(s, b, |k.cpus|)
    requires Ready(k, dev, slot, from, s) && |k.cpus| > 0 && from + Hold(s) < END_OF_TIME
    requires L.Passes(Next(Begin(k, dev, from, slot)), from)
    ensures FlickerRun(Begin(k, dev, from, slot), steps, step, s, b)
  {
    hide LegalRun, After, Legal, FlickerRun, Setup, Next, Ready;
    var w := Begin(k, dev, from, slot);
    BeginIsAtRest(k, dev, from, slot, s);
    var first := Settles(w, s, b);
    var w1 := After(w, first, s);
    SetupLengths(w1, s);
    var second := Drained(w1, s, b);
    Joined(w, first, second, s, b);
    var w2 := After(w1, second, s);
    SameNext(w1, w2);
    SetupLengths(w2, s);
    var third := Opens(w2, s, b);
    Joined(w, first + second, third, s, b);
    LitIsJustLit(w2, s);
    var fourth;
    fourth, step := Darkens(Lit(w2, s), s, b);
    FlickerJoined(w, first + second + third, fourth, step, s, b);
    steps := first + second + third + fourth;
  }

  lemma SameNext(w: World, w1: World)
    requires w1.dev == w.dev && w1.kernel.states == w.kernel.states && w1.kernel.elements == w.kernel.elements
    ensures Next(w1) == Next(w)
  {
  }

  /** Exactly which timings are free of flicker: for every disk, wherever a burst of
      requests to it begins with the emission deadline passed, on any number of
      CPUs, with every request gap of at least a nanosecond, every flight time and
      delivery delay, and every kind of rewriting. Without rewriting the hold time
      must cover interval, gap, flight and delay; with at most one rewrite between
      two emissions another gap, the outage, and what stalled runs add; and no hold
      time is enough for any number of rewrites. */
  lemma NoFlickerIff(k: L.Kernel, dev: u32, from: nat, slot: Slot, s: Settings, b: Bounds)
    requires Usable(s) && b.gap > 0
    requires Ready(k, dev, slot, from, s) && |k.cpus| > 0 && from + Hold(s) < END_OF_TIME
    requires L.Passes(Next(Begin(k, dev, from, slot)), from)
    ensures Covers(s, b, |k.cpus|) <==>
            forall steps, step :: !FlickerRun(Begin(k, dev, from, slot), steps, step, s, b)
    ensures Covers(s, b, |k.cpus|) <==>
            match b.rewriting
            case Never => Interval(s) + b.gap + b.flight + b.delay <= Hold(s)
            case Once(outage) =>
              Interval(s) + 2 * b.gap + outage + Stall(b, |k.cpus|) + b.flight + b.delay <= Hold(s)
            case Often(_) => false
  {
    hide LegalRun, After, Legal, Flickers, Ready, Next;
    var w := Begin(k, dev, from, slot);
    if Covers(s, b, |k.cpus|) {
      forall steps, step ensures !FlickerRun(w, steps, step, s, b) {
        if FlickerRun(w, steps, step, s, b) {
          BlinksThroughBurst(k, dev, from, slot, steps, s, b);
          assert false;
        }
      }
    } else {
      var steps, step := FlickerWitness(k, dev, from, slot, s, b);
      assert FlickerRun(w, steps, step, s, b);
    }
  }
}
