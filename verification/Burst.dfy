/** A burst of requests to one disk: the collector on any number of CPUs, the daemon
    rewriting the maps under it, and the slot with its hold deadline; and the
    invariant that shows how long a busy disk can be without an event. */
module Burst {
  import opened Types
  import opened Settings
  import opened Discovery
  import L = DiskLimiter

  /** `interval` and `hold` come from the settings, in nanoseconds. */
  function Interval(s: Settings): nat {
    s.diskIntervalMs * NS_PER_MS
  }

  function Hold(s: Settings): nat {
    s.diskHoldMs * NS_PER_MS
  }

  /** One slot, as the whole machine moves it. */
  function Touched(slot: Slot, s: Settings, now: Time): Slot {
    slot.(active := true, deadline := Deadline(s, now))
  }

  function Lapsed(slot: Slot, now: Time): Slot {
    if slot.active && slot.deadline <= now then slot.(active := false, deadline := 0) else slot
  }

  // ----- the world of one disk -----

  /** An emission for the disk: its timestamp, when its compare-and-swap won, and
      whether the daemon has handled its event. */
  datatype Emission = Emission(stamp: nat, swap: nat, handled: bool)

  /** The collector on all CPUs and the disk's slot. `starts` holds when each CPU
      last started the program for the disk, `request` when the latest of these
      was, `own` the state elements the disk has had, `downAt` when its target was
      last deleted, `rewritten` whether that was, or lasted, after the latest
      emission, and `handledAt` when the latest event was handled. */
  datatype World = World(
    dev: u32,
    clock: nat,
    kernel: L.Kernel,
    starts: seq<nat>,
    request: Option<nat>,
    own: set<nat>,
    downAt: nat,
    rewritten: bool,
    emissions: seq<Emission>,
    slot: Slot,
    handledAt: Option<nat>)

  datatype Step =
    | Cpu(at: Time, step: L.Step)
    | Map(at: Time, step: L.Step)
    | Deliver(at: Time)
    | Wake(at: Time)

  /** Whether the daemon rewrites the maps during the burst, because some disk was
      plugged or unplugged: not at all, at most once between two emissions of this
      disk, or any number of times; each time its target is missing for at most
      `outage`. */
  datatype Rewriting = Never | Once(outage: nat) | Often(outage: nat)

  /** How far requests are apart, how long a run of the program takes from its
      start to its compare-and-swap, how long an emitted event takes from the swap
      to its handling, and what happens to the maps. */
  datatype Bounds = Bounds(gap: nat, flight: nat, delay: nat, rewriting: Rewriting)

  function Outage(b: Bounds): nat {
    if b.rewriting.Never? then 0 else b.rewriting.outage
  }

  function Begin(k: L.Kernel, dev: u32, from: nat, slot: Slot): World {
    World(dev, from, k, seq(|k.cpus|, _ => from), None, if dev in k.states then {k.states[dev]} else {},
          from, false, [], slot, None)
  }

  predicate Mapped(w: World) {
    w.dev in w.kernel.targets
  }

  /** CPU `i` runs the program for `dev` and has not swapped yet. */
  predicate InFlight(k: L.Kernel, dev: u32, i: nat) {
    var c := L.At(k, i);
    (c.Targeted? || c.Holding? || c.Clocked? || c.Loaded?) && c.dev == dev
  }

  /** The step starts the program for the disk. */
  predicate Requests(w: World, step: L.Step) {
    && step.FindTarget? && step.dev == w.dev
    && step.cpu < |w.kernel.cpus| && w.kernel.cpus[step.cpu].Idle?
  }

  /** The step is a compare-and-swap for the disk, and wins. */
  predicate Wins(w: World, step: L.Step) {
    step.CompareAndSwap? && InFlight(w.kernel, w.dev, step.cpu) && L.At(L.Do(w.kernel, step), step.cpu).Won?
  }

  /** The step deletes the disk's target. */
  predicate Unmaps(w: World, step: L.Step) {
    step == L.DeleteTarget(w.dev) && Mapped(w)
  }

  function Marked(emissions: seq<Emission>, stamp: nat): seq<Emission> {
    seq(|emissions|, j requires 0 <= j < |emissions| =>
      if emissions[j].stamp == stamp then emissions[j].(handled := true) else emissions[j])
  }

  function Do(w: World, step: Step, s: Settings): World {
    match step
    case Cpu(at, k) =>
      var w1 := w.(clock := at, kernel := L.Do(w.kernel, k));
      if Requests(w, k) then
        w1.(starts := if k.cpu < |w.starts| then w.starts[k.cpu := at] else w.starts, request := Some(at))
      else if Wins(w, k) then
        w1.(emissions := w.emissions + [Emission(L.At(w1.kernel, k.cpu).now, at, false)], rewritten := !Mapped(w))
      else w1
    case Map(at, k) =>
      w.(clock := at, kernel := L.Do(w.kernel, k),
         own := if k == L.SetState(w.dev) then w.own + {|w.kernel.elements|} else w.own,
         downAt := if Unmaps(w, k) then at else w.downAt,
         rewritten := w.rewritten || Unmaps(w, k))
    case Deliver(at) =>
      if w.kernel.ring == [] then w
      else
        var event := w.kernel.ring[0];
        var w1 := w.(clock := at, kernel := L.Do(w.kernel, L.Consume));
        if event.led != w.slot.ledId then w1
        else w1.(slot := Touched(w.slot, s, at), emissions := Marked(w.emissions, event.timestamp),
                 handledAt := Some(at))
    case Wake(at) => w.(clock := at, slot := Lapsed(w.slot, at))
  }

  /** What the daemon does to the maps in a rewrite: it deletes a state only after
      its target, sets a target only after its state, and gives this disk its own
      LED and no other disk the same. */
  predicate MapLegal(w: World, k: L.Step, b: Bounds) {
    && L.IsMapStep(k) && !b.rewriting.Never?
    && match k
       case SetTarget(dev, led) => dev in w.kernel.states && (led == w.slot.ledId <==> dev == w.dev)
       case DeleteTarget(_) => Unmaps(w, k) && b.rewriting.Once? ==> !w.rewritten
       case SetState(dev) => dev !in w.kernel.targets
       case DeleteState(dev) => dev !in w.kernel.targets
       case _ => true
  }

  /** Time goes forward and no bound is broken; clocks are read truly; and while it
      rewrites the maps the daemon handles neither events nor its timer. Requests
      to other disks are not restricted. An event lost at a full ring is never
      handled and breaks the bound on delivery. */
  ghost predicate Legal(w: World, step: Step, b: Bounds) {
    && w.clock <= step.at
    && (forall i :: 0 <= i < |w.starts| && InFlight(w.kernel, w.dev, i) ==> step.at <= w.starts[i] + b.flight)
    && (forall j :: 0 <= j < |w.emissions| && !w.emissions[j].handled ==> step.at <= w.emissions[j].swap + b.delay)
    && (!Mapped(w) ==> step.at <= w.downAt + Outage(b) && !step.Deliver? && !step.Wake?)
    && (step.Cpu? ==>
          && L.IsCpuStep(step.step)
          && (step.step.ReadClock? ==> step.step.now == step.at)
          && (Requests(w, step.step) && w.request.Some? ==> step.at <= w.request.value + b.gap))
    && (step.Map? ==> MapLegal(w, step.step, b))
    && (step.Deliver? ==> w.kernel.ring != [])
  }

  /** The burst is still going on: a run of the program has not come to its swap,
      an event is on its way, or another request may come within the gap. */
  ghost predicate Busy(w: World, at: nat, b: Bounds) {
    || (exists i :: 0 <= i < |w.starts| && InFlight(w.kernel, w.dev, i))
    || (exists j :: 0 <= j < |w.emissions| && !w.emissions[j].handled)
    || (w.request.Some? && at <= w.request.value + b.gap)
  }

  /** A wake-up that ends the blinking of a busy disk. */
  ghost predicate Flickers(w: World, step: Step, b: Bounds) {
    step.Wake? && w.slot.active && !Lapsed(w.slot, step.at).active && Busy(w, step.at, b)
  }

  function After(w: World, steps: seq<Step>, s: Settings): World {
    if steps == [] then w else Do(After(w, steps[..|steps| - 1], s), steps[|steps| - 1], s)
  }

  ghost predicate LegalRun(w: World, steps: seq<Step>, s: Settings, b: Bounds) {
    steps == [] ||
    (LegalRun(w, steps[..|steps| - 1], s, b) &&
     Legal(After(w, steps[..|steps| - 1], s), steps[|steps| - 1], b))
  }

  // ----- where a burst can begin -----

  /** What CPU state `c` holds belongs to the disk exactly when it says so. */
  ghost predicate CpuSeparate(c: L.Cpu, dev: u32, led: byte, own: set<nat>) {
    && (!c.Idle? ==> (c.led == led <==> c.dev == dev))
    && (c.Holding? || c.Clocked? || c.Loaded? ==> (c.elem in own <==> c.dev == dev))
  }

  /** The disk shares neither its LED nor its states. */
  ghost predicate Separate(k: L.Kernel, dev: u32, led: byte, own: set<nat>) {
    && (forall d :: d in k.targets ==> (k.targets[d] == led <==> d == dev))
    && (dev in k.targets ==> dev in k.states)
    && (forall d :: d in k.states ==> (k.states[d] in own <==> d == dev))
    && (forall g :: g in own ==> g < |k.elements|)
    && (forall i :: 0 <= i < |k.cpus| ==> CpuSeparate(k.cpus[i], dev, led, own))
    && (forall j :: 0 <= j < |k.ring| ==> (k.ring[j].led == led <==> k.ring[j].dev == dev))
  }

  /** The disk is mapped, no CPU works for it, no event of it is on its way, and its
      earlier emissions are not from the future. Other disks may be in any state. */
  ghost predicate Ready(k: L.Kernel, dev: u32, slot: Slot, from: nat, s: Settings) {
    && L.Invariant(k) && k.interval == Interval(s) && dev in k.targets && dev in k.states
    && Separate(k, dev, slot.ledId, {k.states[dev]}) && !slot.active
    && k.elements[k.states[dev]].next <= from + Interval(s)
    && (forall i :: 0 <= i < |k.cpus| && !k.cpus[i].Idle? ==> k.cpus[i].dev != dev)
    && (forall j :: 0 <= j < |k.ring| ==> k.ring[j].dev != dev)
  }

  // ----- how long it can take to the next emission -----

  /** Runs that have found the target but not the state yet die when the maps are
      rewritten. They can put off the rewrite that kills the first of them by its
      flight time at most, and each CPU can hold up one of them. */
  function Stall(b: Bounds, cpus: nat): nat {
    if b.flight < cpus * b.gap then b.flight else cpus * b.gap
  }

  /** From one emission to the next. */
  function Reach(interval: nat, b: Bounds, cpus: nat): nat {
    interval + b.gap + b.flight + (if b.rewriting.Never? then 0 else b.gap + Stall(b, cpus) + Outage(b))
  }

  // ----- what every legal run keeps -----

  ghost predicate Setup(w: World, s: Settings) {
    && |w.starts| == |w.kernel.cpus|
    && L.Invariant(w.kernel) && w.kernel.interval == Interval(s)
    && Separate(w.kernel, w.dev, w.slot.ledId, w.own)
  }

  function Last(w: World): Emission
    requires w.emissions != []
  {
    w.emissions[|w.emissions| - 1]
  }

  /** From here on a new request is sure to pass, and to read the deadline that the
      latest emission left. */
  function Until(w: World, interval: nat): nat
    requires w.emissions != []
  {
    Last(w).swap + interval
  }

  ghost predicate CpuTimely(w: World, i: nat)
    requires i < |w.starts| == |w.kernel.cpus|
  {
    var c := w.kernel.cpus[i];
    && (InFlight(w.kernel, w.dev, i) ==>
          && w.request.Some? && w.starts[i] <= w.request.value
          && (c.Clocked? || c.Loaded? ==> w.starts[i] <= c.now <= w.clock))
    && (c.Won? && c.dev == w.dev ==> w.emissions != [])
  }

  ghost predicate Timely(w: World, b: Bounds) {
    && |w.starts| == |w.kernel.cpus|
    && (forall i :: 0 <= i < |w.starts| ==> CpuTimely(w, i))
    && (forall j :: 0 <= j < |w.kernel.ring| && w.kernel.ring[j].dev == w.dev ==> w.emissions != [])
    && (w.request.Some? ==> w.request.value <= w.clock)
    && w.downAt <= w.clock
    && (w.rewritten ==> !b.rewriting.Never?)
    && (!Mapped(w) ==> w.rewritten && w.clock <= w.downAt + Outage(b))
  }

  ghost predicate Recorded(w: World, reach: nat) {
    && (forall j :: 0 <= j < |w.emissions| ==> w.emissions[j].stamp <= w.emissions[j].swap <= w.clock)
    && (forall j :: 0 <= j < |w.emissions| && w.emissions[j].handled ==>
          w.handledAt.Some? && w.emissions[j].swap <= w.handledAt.value)
    && (forall j :: 0 < j < |w.emissions| ==> w.emissions[j].swap < w.emissions[j - 1].swap + reach)
    && (w.emissions != [] ==> w.request.Some?)
    && (w.handledAt.Some? ==> w.emissions != [] && w.emissions[0].swap <= w.handledAt.value <= w.clock)
  }

  /** The disk's deadlines, and what runs that started after the latest emission
      have read of them. */
  ghost predicate Current(w: World, interval: nat) {
    && |w.starts| == |w.kernel.cpus|
    && (forall g :: g in w.own && g < |w.kernel.elements| ==> w.kernel.elements[g].next <= w.clock + interval)
    && (w.emissions != [] ==>
          && (forall g :: g in w.own && g < |w.kernel.elements| ==> w.kernel.elements[g].next <= Until(w, interval))
          && (forall i :: 0 <= i < |w.starts| ==> CpuCurrent(w, i)))
  }

  ghost predicate CpuCurrent(w: World, i: nat)
    requires w.emissions != [] && i < |w.starts| == |w.kernel.cpus|
  {
    var c := w.kernel.cpus[i];
    InFlight(w.kernel, w.dev, i) && w.starts[i] > Last(w).swap && c.Loaded? && c.elem < |w.kernel.elements| ==>
      c.deadline == w.kernel.elements[c.elem].next
  }

  /** CPUs among the first `n` that are in flight since `from` or later. */
  function Waiting(w: World, from: nat, n: nat): nat
    requires n <= |w.starts|
  {
    if n == 0 then 0
    else Waiting(w, from, n - 1) + (if InFlight(w.kernel, w.dev, n - 1) && w.starts[n - 1] >= from then 1 else 0)
  }

  /** CPU `i` is in flight, and started within the gap after `time`. */
  ghost predicate Hopeful(w: World, i: nat, time: int, b: Bounds) {
    && i < |w.starts| && InFlight(w.kernel, w.dev, i)
    && time < w.starts[i] <= time + b.gap
  }

  /** The first request after `time` is still in flight, if there is one. */
  ghost predicate AnsweredAfter(w: World, time: int, b: Bounds) {
    w.request.Some? && w.request.value > time ==> exists i :: Hopeful(w, i, time, b)
  }

  /** No rewrite since the latest emission: no request that would pass has been
      lost. */
  ghost predicate Unbroken(w: World, interval: nat, b: Bounds)
    requires w.emissions != [] && w.request.Some?
  {
    var until := Until(w, interval);
    && w.request.value < until + Waiting(w, until, |w.starts|) * b.gap
    && AnsweredAfter(w, until - 1, b)
  }

  /** The target was deleted when no further request was possible. */
  ghost predicate Over(w: World, interval: nat, b: Bounds)
    requires w.emissions != [] && w.request.Some?
  {
    && w.request.value + b.gap < w.downAt
    && w.request.value < Until(w, interval) + Stall(b, |w.starts|)
  }

  /** When the outage is over and requests pass. */
  function Resumes(w: World, interval: nat, b: Bounds): int
    requires w.emissions != []
  {
    if w.downAt + Outage(b) < Until(w, interval) - 1 then Until(w, interval) - 1 else w.downAt + Outage(b)
  }

  /** The target was deleted in time. */
  ghost predicate Broken(w: World, interval: nat, b: Bounds)
    requires w.emissions != []
  {
    && w.downAt < Until(w, interval) + b.gap + Stall(b, |w.starts|)
    && AnsweredAfter(w, Resumes(w, interval, b), b)
  }

  ghost predicate Expecting(w: World, interval: nat, b: Bounds) {
    w.emissions != [] && w.request.Some? ==>
      if w.rewritten then Over(w, interval, b) || Broken(w, interval, b) else Unbroken(w, interval, b)
  }

  ghost predicate SlotSteady(w: World, s: Settings, b: Bounds) {
    && (w.slot.active ==> w.handledAt.Some? && w.slot.deadline == w.handledAt.value + Hold(s))
    && (w.handledAt.Some? && !w.slot.active ==>
          !Busy(w, w.clock, b) && w.clock >= w.handledAt.value + Hold(s))
  }

  ghost predicate Steady(w: World, s: Settings, b: Bounds) {
    && Setup(w, s) && Timely(w, b) && Recorded(w, Reach(Interval(s), b, |w.starts|)) && Current(w, Interval(s))
    && Expecting(w, Interval(s), b) && SlotSteady(w, s, b)
  }

  // ----- counting CPUs -----

  lemma {:induction false} WaitingGrows(w: World, w1: World, from: nat, n: nat)
    requires n <= |w.starts| == |w1.starts|
    requires forall i :: 0 <= i < n && InFlight(w.kernel, w.dev, i) && w.starts[i] >= from ==>
               InFlight(w1.kernel, w1.dev, i) && w1.starts[i] >= from
    ensures Waiting(w, from, n) <= Waiting(w1, from, n)
  {
    if n > 0 {
      WaitingGrows(w, w1, from, n - 1);
    }
  }

  lemma {:induction false} OneMoreWaiting(w: World, w1: World, from: nat, i: nat, n: nat)
    requires i < n <= |w.starts| == |w1.starts|
    requires forall j :: 0 <= j < n && j != i && InFlight(w.kernel, w.dev, j) && w.starts[j] >= from ==>
               InFlight(w1.kernel, w1.dev, j) && w1.starts[j] >= from
    requires !InFlight(w.kernel, w.dev, i) && InFlight(w1.kernel, w1.dev, i) && w1.starts[i] >= from
    ensures Waiting(w, from, n) + 1 <= Waiting(w1, from, n)
  {
    if i == n - 1 {
      WaitingGrows(w, w1, from, n - 1);
    } else {
      OneMoreWaiting(w, w1, from, i, n - 1);
    }
  }

  lemma {:induction false} WaitingBound(w: World, from: nat, n: nat)
    requires n <= |w.starts|
    ensures Waiting(w, from, n) <= n
  {
    if n > 0 {
      WaitingBound(w, from, n - 1);
    }
  }

  lemma Times(a: nat, b: nat, d: nat)
    requires a <= b
    ensures a * d <= b * d && (a + 1) * d == a * d + d
  {
  }

  // ----- steps on the maps and the CPUs -----

  lemma CpuStepKeepsSeparate(k: L.Kernel, step: L.Step, dev: u32, led: byte, own: set<nat>)
    requires L.Invariant(k) && Separate(k, dev, led, own) && (L.IsCpuStep(step) || step.Consume?)
    ensures Separate(L.Do(k, step), dev, led, own)
  {
    hide L.ElementOk;
  }

  lemma MapStepKeepsSeparate(w: World, step: L.Step, b: Bounds)
    requires L.Invariant(w.kernel) && Separate(w.kernel, w.dev, w.slot.ledId, w.own) && MapLegal(w, step, b)
    ensures var own := if step == L.SetState(w.dev) then w.own + {|w.kernel.elements|} else w.own;
            Separate(L.Do(w.kernel, step), w.dev, w.slot.ledId, own)
  {
    hide L.ElementOk;
  }

  lemma StepKeepsSetup(w: World, step: Step, s: Settings, b: Bounds)
    requires Setup(w, s) && Legal(w, step, b)
    ensures Setup(Do(w, step, s), s)
  {
    hide L.Invariant, Separate;
    match step
    case Cpu(at, k) =>
      L.DoKeeps(w.kernel, k);
      L.CpuStepKeepsMaps(w.kernel, k);
      CpuStepKeepsSeparate(w.kernel, k, w.dev, w.slot.ledId, w.own);
    case Map(at, k) =>
      L.DoKeeps(w.kernel, k);
      MapStepKeepsSeparate(w, k, b);
    case Deliver(at) =>
      L.DoKeeps(w.kernel, L.Consume);
      CpuStepKeepsSeparate(w.kernel, L.Consume, w.dev, w.slot.ledId, w.own);
    case Wake(at) =>
  }

  /** Only a winning swap moves a deadline of the disk, and it moves it to its own
      clock reading plus the interval. */
  lemma NextMoves(w: World, k: L.Step, s: Settings, g: nat)
    requires Setup(w, s) && L.IsCpuStep(k) && g in w.own
    ensures g < |w.kernel.elements| == |L.Do(w.kernel, k).elements|
    ensures var c := L.At(w.kernel, k.cpu);
            L.Do(w.kernel, k).elements[g].next ==
            if Wins(w, k) && c.elem == g then c.now + Interval(s) else w.kernel.elements[g].next
  {
    hide L.ElementOk, L.CpuOk;
  }

  lemma WinnerMoves(w: World, k: L.Step, s: Settings)
    requires Setup(w, s) && L.IsCpuStep(k) && Wins(w, k)
    ensures var c, c1 := L.At(w.kernel, k.cpu), L.At(L.Do(w.kernel, k), k.cpu);
            k.cpu < |w.starts| && c.Loaded? && c1 == L.Won(w.dev, c.led, c.now)
  {
    hide L.ElementOk, L.CpuOk, Separate;
  }

  /** How one CPU changes: only its own steps change it, and only a request that
      finds the target puts it in flight. */
  lemma CpuMoves(w: World, k: L.Step, s: Settings, i: nat)
    requires Setup(w, s) && L.IsCpuStep(k) && i < |w.starts|
    ensures var c, c1 := L.At(w.kernel, i), L.At(L.Do(w.kernel, k), i);
            && (k.cpu != i ==> c1 == c)
            && (InFlight(L.Do(w.kernel, k), w.dev, i) ==>
                  InFlight(w.kernel, w.dev, i) || (k.cpu == i && Requests(w, k)))
            && (c1.Won? && c1.dev == w.dev ==> c == c1 || Wins(w, k))
            && (k.cpu == i && InFlight(w.kernel, w.dev, i) && !Wins(w, k) ==>
                  || c1 == c || c1.Idle? || c1.Holding?
                  || (c1.Clocked? && k == L.ReadClock(i, c1.now))
                  || (c1.Loaded? && c.Clocked? && c1.now == c.now && c1.elem == c.elem && c1.elem < |w.kernel.elements|
                      && c1.deadline == w.kernel.elements[c1.elem].next))
            && (Requests(w, k) && k.cpu == i ==> if Mapped(w) then c1.Targeted? && c1.dev == w.dev else c1 == c)
  {
    hide L.ElementOk, L.CpuOk;
  }

  /** A run that started after the previous emission could be followed, and whose
      state cannot be taken away, stays in flight until some swap wins. */
  lemma FlightGoesOn(w: World, k: L.Step, at: Time, s: Settings, i: nat, b: Bounds)
    requires Setup(w, s) && Timely(w, b) && Current(w, Interval(s)) && w.emissions != []
    requires Legal(w, Cpu(at, k), b) && !Wins(w, k) && i < |w.starts| && InFlight(w.kernel, w.dev, i)
    requires w.starts[i] >= Until(w, Interval(s)) && Interval(s) > 0 && Mapped(w)
    ensures InFlight(L.Do(w.kernel, k), w.dev, i)
  {
    hide L.ElementOk, L.CpuOk;
    assert CpuTimely(w, i) && CpuCurrent(w, i);
    assert CpuSeparate(w.kernel.cpus[i], w.dev, w.slot.ledId, w.own);
  }

  lemma TimelyAfter(w: World, k: L.Step, at: Time, s: Settings, b: Bounds)
    requires Setup(w, s) && Timely(w, b) && Recorded(w, Reach(Interval(s), b, |w.starts|)) && Legal(w, Cpu(at, k), b)
    ensures Timely(Do(w, Cpu(at, k), s), b)
  {
    hide L.Do, L.Invariant, Separate, Reach;
    var w1 := Do(w, Cpu(at, k), s);
    L.CpuStepKeepsMaps(w.kernel, k);
    forall i | 0 <= i < |w1.starts| ensures CpuTimely(w1, i) {
      CpuMoves(w, k, s, i);
      assert CpuTimely(w, i);
    }
    RingAfter(w, k, s, b);
  }

  /** Only a CPU that won for the disk puts an event of the disk on the ring. */
  lemma RingAfter(w: World, k: L.Step, s: Settings, b: Bounds)
    requires Setup(w, s) && Timely(w, b) && L.IsCpuStep(k)
    ensures forall j :: 0 <= j < |L.Do(w.kernel, k).ring| && L.Do(w.kernel, k).ring[j].dev == w.dev ==>
              w.emissions != []
  {
    hide L.Invariant, Separate;
    if k.Output? && k.cpu < |w.starts| {
      assert CpuTimely(w, k.cpu);
    }
  }

  lemma CurrentAfter(w: World, k: L.Step, at: Time, s: Settings, b: Bounds)
    requires Setup(w, s) && Timely(w, b) && Current(w, Interval(s)) && Legal(w, Cpu(at, k), b) && !Wins(w, k)
    ensures Current(Do(w, Cpu(at, k), s), Interval(s))
  {
    hide L.Do, L.Invariant, Separate;
    var w1 := Do(w, Cpu(at, k), s);
    L.CpuStepKeepsMaps(w.kernel, k);
    forall g | g in w.own && g < |w1.kernel.elements|
      ensures g < |w.kernel.elements| && w1.kernel.elements[g].next == w.kernel.elements[g].next
    {
      NextMoves(w, k, s, g);
    }
    if w.emissions != [] {
      forall i | 0 <= i < |w.starts| ensures CpuCurrent(w1, i) {
        StillCurrent(w, k, at, s, i, b);
      }
    }
  }

  lemma StillCurrent(w: World, k: L.Step, at: Time, s: Settings, i: nat, b: Bounds)
    requires Setup(w, s) && Current(w, Interval(s)) && w.emissions != [] && i < |w.starts|
    requires Legal(w, Cpu(at, k), b) && !Wins(w, k)
    ensures |Do(w, Cpu(at, k), s).kernel.cpus| == |w.kernel.cpus|
    ensures CpuCurrent(Do(w, Cpu(at, k), s), i)
  {
    hide L.Do, L.ElementOk, L.CpuOk;
    L.CpuStepKeepsMaps(w.kernel, k);
    CpuMoves(w, k, s, i);
    assert CpuCurrent(w, i);
    if InFlight(w.kernel, w.dev, i) && (w.kernel.cpus[i].Clocked? || w.kernel.cpus[i].Loaded?) {
      assert CpuSeparate(w.kernel.cpus[i], w.dev, w.slot.ledId, w.own);
      NextMoves(w, k, s, w.kernel.cpus[i].elem);
    }
  }

  // ----- what a step of the collector does to the expectation -----

  /** Once requests pass again the target is there. */
  lemma HopefulIsMapped(w: World, i: nat, s: Settings, b: Bounds)
    requires Timely(w, b) && w.emissions != [] && Hopeful(w, i, Resumes(w, Interval(s), b), b)
    ensures Mapped(w)
  {
    assert CpuTimely(w, i);
  }

  lemma HopefulGoesOn(w: World, k: L.Step, at: Time, s: Settings, i: nat, time: int, b: Bounds)
    requires Setup(w, s) && Timely(w, b) && Current(w, Interval(s)) && w.emissions != [] && Interval(s) > 0
    requires Legal(w, Cpu(at, k), b) && !Wins(w, k) && Mapped(w)
    requires Hopeful(w, i, time, b) && time >= Until(w, Interval(s)) - 1
    ensures Hopeful(Do(w, Cpu(at, k), s), i, time, b)
  {
    hide L.Do, L.Invariant, Separate, CpuTimely, CpuCurrent;
    FlightGoesOn(w, k, at, s, i, b);
  }

  lemma QuietExpecting(w: World, k: L.Step, at: Time, s: Settings, b: Bounds)
    requires Setup(w, s) && Timely(w, b) && Current(w, Interval(s)) && Expecting(w, Interval(s), b)
    requires Legal(w, Cpu(at, k), b) && !Requests(w, k) && !Wins(w, k) && Interval(s) > 0
    ensures Expecting(Do(w, Cpu(at, k), s), Interval(s), b)
  {
    hide L.Do, L.Invariant, Separate, CpuTimely, CpuCurrent, Stall, Waiting, Hopeful;
    var w1 := Do(w, Cpu(at, k), s);
    if w.emissions != [] && w.request.Some? {
      var until := Until(w, Interval(s));
      if !w.rewritten {
        WaitingGoesOn(w, k, at, s, b);
        Times(Waiting(w, until, |w.starts|), Waiting(w1, until, |w.starts|), b.gap);
        if w.request.value > until - 1 {
          var i :| Hopeful(w, i, until - 1, b);
          HopefulGoesOn(w, k, at, s, i, until - 1, b);
        }
      } else if !Over(w, Interval(s), b) && w.request.value > Resumes(w, Interval(s), b) {
        var time := Resumes(w, Interval(s), b);
        var i :| Hopeful(w, i, time, b);
        HopefulIsMapped(w, i, s, b);
        HopefulGoesOn(w, k, at, s, i, time, b);
      }
    }
  }

  lemma WaitingGoesOn(w: World, k: L.Step, at: Time, s: Settings, b: Bounds)
    requires Setup(w, s) && Timely(w, b) && Current(w, Interval(s)) && w.emissions != [] && Interval(s) > 0
    requires Legal(w, Cpu(at, k), b) && !Requests(w, k) && !Wins(w, k) && Mapped(w)
    ensures var until := Until(w, Interval(s));
            Waiting(w, until, |w.starts|) <= Waiting(Do(w, Cpu(at, k), s), until, |w.starts|)
  {
    hide L.Do, L.Invariant, Separate, CpuTimely, CpuCurrent;
    var until, w1 := Until(w, Interval(s)), Do(w, Cpu(at, k), s);
    forall i | 0 <= i < |w.starts| && InFlight(w.kernel, w.dev, i) && w.starts[i] >= until
      ensures InFlight(w1.kernel, w1.dev, i)
    {
      FlightGoesOn(w, k, at, s, i, b);
    }
    WaitingGrows(w, w1, until, |w.starts|);
  }

  /** The others stay in flight when one CPU starts. */
  lemma OthersUnmoved(w: World, k: L.Step, at: Time, s: Settings, b: Bounds)
    requires Setup(w, s) && Legal(w, Cpu(at, k), b) && Requests(w, k)
    ensures var w1 := Do(w, Cpu(at, k), s);
            && w1.starts == w.starts[k.cpu := at] && !InFlight(w.kernel, w.dev, k.cpu)
            && (forall i :: 0 <= i < |w.starts| && i != k.cpu ==>
                  InFlight(w1.kernel, w.dev, i) == InFlight(w.kernel, w.dev, i) && w1.starts[i] == w.starts[i])
            && (Mapped(w) ==> InFlight(w1.kernel, w.dev, k.cpu))
            && (!Mapped(w) ==> !InFlight(w1.kernel, w.dev, k.cpu))
  {
    hide L.Do, L.Invariant, Separate;
    forall i | 0 <= i < |w.starts|
      ensures i != k.cpu ==> L.At(L.Do(w.kernel, k), i) == L.At(w.kernel, i)
      ensures i == k.cpu && Mapped(w) ==> InFlight(L.Do(w.kernel, k), w.dev, i)
      ensures i == k.cpu && !Mapped(w) ==> L.At(L.Do(w.kernel, k), i) == L.At(w.kernel, i)
    {
      CpuMoves(w, k, s, i);
    }
  }

  lemma RequestAnswered(w: World, k: L.Step, at: Time, s: Settings, time: int, b: Bounds)
    requires Setup(w, s) && Legal(w, Cpu(at, k), b) && Requests(w, k) && w.request.Some?
    requires AnsweredAfter(w, time, b) && (at > time ==> Mapped(w))
    ensures AnsweredAfter(Do(w, Cpu(at, k), s), time, b)
  {
    hide L.Do, L.Invariant, Separate, InFlight;
    var w1 := Do(w, Cpu(at, k), s);
    OthersUnmoved(w, k, at, s, b);
    if at > time {
      if w.request.value > time {
        var i :| Hopeful(w, i, time, b);
        assert Hopeful(w1, i, time, b);
      } else {
        assert Hopeful(w1, k.cpu, time, b);
      }
    }
  }

  lemma RequestExpecting(w: World, k: L.Step, at: Time, s: Settings, b: Bounds)
    requires Setup(w, s) && Timely(w, b) && Expecting(w, Interval(s), b) && Interval(s) > 0
    requires w.emissions != [] ==> w.request.Some?
    requires Legal(w, Cpu(at, k), b) && Requests(w, k)
    ensures Expecting(Do(w, Cpu(at, k), s), Interval(s), b)
  {
    hide L.Do, L.Invariant, Separate, CpuTimely, Stall, Waiting, AnsweredAfter, InFlight;
    var w1 := Do(w, Cpu(at, k), s);
    if w.emissions != [] {
      var until := Until(w, Interval(s));
      OthersUnmoved(w, k, at, s, b);
      if !w.rewritten {
        RequestAnswered(w, k, at, s, until - 1, b);
        RequestWaits(w, k, at, s, b);
      } else if !Over(w, Interval(s), b) {
        RequestAnswered(w, k, at, s, Resumes(w, Interval(s), b), b);
      }
    }
  }

  lemma RequestWaits(w: World, k: L.Step, at: Time, s: Settings, b: Bounds)
    requires Setup(w, s) && Legal(w, Cpu(at, k), b) && Requests(w, k) && Mapped(w)
    requires w.emissions != [] && w.request.Some? && Unbroken(w, Interval(s), b)
    ensures var w1, until := Do(w, Cpu(at, k), s), Until(w, Interval(s));
            at < until + Waiting(w1, until, |w1.starts|) * b.gap
  {
    hide L.Do, L.Invariant, Separate, AnsweredAfter, InFlight;
    var w1, until := Do(w, Cpu(at, k), s), Until(w, Interval(s));
    OthersUnmoved(w, k, at, s, b);
    var n := Waiting(w, until, |w.starts|);
    if at >= until {
      OneMoreWaiting(w, w1, until, k.cpu, |w.starts|);
      Times(n + 1, Waiting(w1, until, |w.starts|), b.gap);
      Times(n, n, b.gap);
    } else {
      Times(0, Waiting(w1, until, |w.starts|), b.gap);
    }
  }

  // ----- how late an emission can be -----

  lemma StallBound(w: World, from: nat, b: Bounds)
    ensures Waiting(w, from, |w.starts|) * b.gap <= |w.starts| * b.gap
  {
    WaitingBound(w, from, |w.starts|);
    Times(Waiting(w, from, |w.starts|), |w.starts|, b.gap);
  }

  /** While a run is in flight, or a request may come within the gap, no more than
      the reach has passed since the latest emission. */
  lemma WithinReach(w: World, step: Step, s: Settings, b: Bounds)
    requires Timely(w, b) && Expecting(w, Interval(s), b) && Legal(w, step, b) && Interval(s) > 0
    requires w.emissions != [] && w.request.Some?
    requires (exists i :: 0 <= i < |w.starts| && InFlight(w.kernel, w.dev, i)) || step.at <= w.request.value + b.gap
    ensures step.at < Last(w).swap + Reach(Interval(s), b, |w.starts|)
  {
    hide InFlight, Waiting;
    var until := Until(w, Interval(s));
    if i :| 0 <= i < |w.starts| && InFlight(w.kernel, w.dev, i) {
      assert CpuTimely(w, i);
    }
    assert step.at <= w.request.value + b.flight || step.at <= w.request.value + b.gap;
    if !w.rewritten {
      if w.request.value > until - 1 {
        var i :| Hopeful(w, i, until - 1, b);
      }
    } else if !Over(w, Interval(s), b) && w.request.value > Resumes(w, Interval(s), b) {
      var i :| Hopeful(w, i, Resumes(w, Interval(s), b), b);
    }
  }

  // ----- every step keeps it -----

  lemma QuietKeeps(w: World, k: L.Step, at: Time, s: Settings, b: Bounds)
    requires Steady(w, s, b) && Interval(s) > 0 && Legal(w, Cpu(at, k), b) && !Requests(w, k) && !Wins(w, k)
    ensures Steady(Do(w, Cpu(at, k), s), s, b)
  {
    hide L.Do, Setup, Timely, Current, Expecting, Reach;
    var w1 := Do(w, Cpu(at, k), s);
    StepKeepsSetup(w, Cpu(at, k), s, b);
    TimelyAfter(w, k, at, s, b);
    CurrentAfter(w, k, at, s, b);
    QuietExpecting(w, k, at, s, b);
    forall i | 0 <= i < |w.starts| && InFlight(w1.kernel, w.dev, i) ensures InFlight(w.kernel, w.dev, i) {
      CpuMoves(w, k, s, i);
    }
  }

  lemma RequestKeeps(w: World, k: L.Step, at: Time, s: Settings, b: Bounds)
    requires Steady(w, s, b) && Interval(s) > 0 && Legal(w, Cpu(at, k), b) && Requests(w, k)
    ensures Steady(Do(w, Cpu(at, k), s), s, b)
  {
    hide L.Do, Setup, Timely, Current, Expecting, Reach, InFlight;
    var w1 := Do(w, Cpu(at, k), s);
    StepKeepsSetup(w, Cpu(at, k), s, b);
    TimelyAfter(w, k, at, s, b);
    CurrentAfter(w, k, at, s, b);
    RequestExpecting(w, k, at, s, b);
    SetupLengths(w, s);
  }

  lemma SetupLengths(w: World, s: Settings)
    requires Setup(w, s)
    ensures |w.starts| == |w.kernel.cpus|
  {
  }

  lemma WinCurrent(w: World, k: L.Step, at: Time, s: Settings, b: Bounds)
    requires Setup(w, s) && Timely(w, b) && Current(w, Interval(s)) && Legal(w, Cpu(at, k), b) && Wins(w, k)
    ensures Current(Do(w, Cpu(at, k), s), Interval(s))
  {
    hide L.Do, L.Invariant, Separate;
    var w1 := Do(w, Cpu(at, k), s);
    L.CpuStepKeepsMaps(w.kernel, k);
    WinnerMoves(w, k, s);
    assert CpuTimely(w, k.cpu);
    forall g | g in w.own && g < |w1.kernel.elements|
      ensures w1.kernel.elements[g].next <= at + Interval(s)
    {
      NextMoves(w, k, s, g);
    }
    forall i | 0 <= i < |w.starts| ensures CpuCurrent(w1, i) {
      CpuMoves(w, k, s, i);
      assert CpuTimely(w, i);
    }
  }

  lemma WinKeeps(w: World, k: L.Step, at: Time, s: Settings, b: Bounds)
    requires Steady(w, s, b) && Interval(s) > 0 && Legal(w, Cpu(at, k), b) && Wins(w, k)
    ensures Steady(Do(w, Cpu(at, k), s), s, b)
  {
    hide L.Do, Setup, Current, Reach, Waiting, Stall;
    var w1 := Do(w, Cpu(at, k), s);
    StepKeepsSetup(w, Cpu(at, k), s, b);
    TimelyAfter(w, k, at, s, b);
    WinCurrent(w, k, at, s, b);
    WinnerMoves(w, k, s);
    assert CpuTimely(w, k.cpu);
    if w.emissions != [] {
      WithinReach(w, Cpu(at, k), s, b);
    }
    WinExpecting(w, k, at, s, b);
  }

  lemma WinExpecting(w: World, k: L.Step, at: Time, s: Settings, b: Bounds)
    requires Timely(w, b) && Interval(s) > 0 && Legal(w, Cpu(at, k), b) && Wins(w, k)
    ensures Expecting(Do(w, Cpu(at, k), s), Interval(s), b)
  {
    hide L.Do, InFlight;
    var w1 := Do(w, Cpu(at, k), s);
    Times(0, Waiting(w1, Until(w1, Interval(s)), |w.starts|), b.gap);
  }

  // ----- steps of the daemon -----

  /** CPUs, requests and emissions are as before. */
  ghost predicate SameBurst(w: World, w1: World) {
    && w1.dev == w.dev && w1.kernel.cpus == w.kernel.cpus && w1.starts == w.starts && w1.request == w.request
    && |w1.emissions| == |w.emissions|
    && (w.emissions != [] ==> Last(w1).swap == Last(w).swap)
  }

  lemma {:induction false} SameWaiting(w: World, w1: World, from: nat, n: nat)
    requires SameBurst(w, w1) && n <= |w.starts|
    ensures Waiting(w1, from, n) == Waiting(w, from, n)
  {
    if n > 0 {
      SameWaiting(w, w1, from, n - 1);
    }
  }

  lemma SameAnswered(w: World, w1: World, time: int, b: Bounds)
    requires SameBurst(w, w1) && AnsweredAfter(w, time, b)
    ensures AnsweredAfter(w1, time, b)
  {
    if w.request.Some? && w.request.value > time {
      var i :| Hopeful(w, i, time, b);
      assert Hopeful(w1, i, time, b);
    }
  }

  lemma SameExpecting(w: World, w1: World, interval: nat, b: Bounds)
    requires SameBurst(w, w1) && w1.rewritten == w.rewritten && w1.downAt == w.downAt && Expecting(w, interval, b)
    ensures Expecting(w1, interval, b)
  {
    hide Waiting, AnsweredAfter, Stall;
    if w.emissions != [] && w.request.Some? {
      SameWaiting(w, w1, Until(w, interval), |w.starts|);
      if !w.rewritten {
        SameAnswered(w, w1, Until(w, interval) - 1, b);
      } else if !Over(w, interval, b) {
        SameAnswered(w, w1, Resumes(w, interval, b), b);
      }
    }
  }

  lemma DeliverKeepsKernel(w: World, at: Time, s: Settings, b: Bounds)
    requires Setup(w, s) && Timely(w, b) && Current(w, Interval(s)) && Legal(w, Deliver(at), b)
    ensures var w1 := Do(w, Deliver(at), s);
            && Timely(w1, b) && Current(w1, Interval(s))
            && (w1.handledAt != w.handledAt ==> w.emissions != [])
  {
    hide L.Invariant;
    var w1 := Do(w, Deliver(at), s);
    forall i | 0 <= i < |w.starts| ensures CpuTimely(w1, i) {
      assert CpuTimely(w, i);
    }
    if w.emissions != [] {
      forall i | 0 <= i < |w.starts| ensures CpuCurrent(w1, i) {
        assert CpuCurrent(w, i);
      }
    }
    assert w1.kernel.ring == w.kernel.ring[1..];
  }

  lemma DeliverKeeps(w: World, at: Time, s: Settings, b: Bounds)
    requires Usable(s) && Steady(w, s, b) && Legal(w, Deliver(at), b)
    ensures Steady(Do(w, Deliver(at), s), s, b)
  {
    hide Setup, Timely, Current, Expecting, Usable, Reach;
    var w1 := Do(w, Deliver(at), s);
    StepKeepsSetup(w, Deliver(at), s, b);
    DeliverKeepsKernel(w, at, s, b);
    SameExpecting(w, w1, Interval(s), b);
    SlotAfterDelivery(w, at, s, b);
  }

  lemma SlotAfterDelivery(w: World, at: Time, s: Settings, b: Bounds)
    requires Usable(s) && SlotSteady(w, s, b) && Legal(w, Deliver(at), b)
    ensures SlotSteady(Do(w, Deliver(at), s), s, b)
  {
    TimingIsExact(s, at);
    var w1 := Do(w, Deliver(at), s);
    forall i | 0 <= i < |w.starts| ensures InFlight(w1.kernel, w.dev, i) == InFlight(w.kernel, w.dev, i) {
    }
  }

  lemma MapKeepsKernel(w: World, k: L.Step, at: Time, s: Settings, b: Bounds)
    requires Setup(w, s) && Timely(w, b) && Current(w, Interval(s)) && Legal(w, Map(at, k), b)
    ensures var w1 := Do(w, Map(at, k), s);
            Timely(w1, b) && Current(w1, Interval(s)) && w1.kernel.cpus == w.kernel.cpus
  {
    hide L.ElementOk, L.CpuOk;
    var w1 := Do(w, Map(at, k), s);
    forall i | 0 <= i < |w.starts| ensures CpuTimely(w1, i) {
      assert CpuTimely(w, i);
    }
    if w.emissions != [] {
      forall i | 0 <= i < |w.starts| ensures CpuCurrent(w1, i) {
        assert CpuCurrent(w, i);
        assert L.CpuOk(w.kernel, w.kernel.cpus[i]);
      }
    }
  }

  /** Deleting the target: either in time for a request to be lost, or when the
      burst can have no further request. */
  lemma UnmapExpecting(w: World, k: L.Step, at: Time, s: Settings, b: Bounds)
    requires Timely(w, b) && Expecting(w, Interval(s), b) && Interval(s) > 0 && b.rewriting.Once?
    requires Legal(w, Map(at, k), b) && Unmaps(w, k)
    ensures Expecting(Do(w, Map(at, k), s), Interval(s), b)
  {
    hide L.Do, InFlight, Waiting;
    if w.emissions != [] && w.request.Some? {
      var until := Until(w, Interval(s));
      StallBound(w, until, b);
      if w.request.value > until - 1 {
        var i :| Hopeful(w, i, until - 1, b);
      }
    }
  }

  lemma MapKeeps(w: World, k: L.Step, at: Time, s: Settings, b: Bounds)
    requires Steady(w, s, b) && Interval(s) > 0 && !b.rewriting.Often? && Legal(w, Map(at, k), b)
    ensures Steady(Do(w, Map(at, k), s), s, b)
  {
    hide L.Do, Setup, Timely, Current, Expecting, Reach;
    var w1 := Do(w, Map(at, k), s);
    StepKeepsSetup(w, Map(at, k), s, b);
    MapKeepsKernel(w, k, at, s, b);
    if Unmaps(w, k) {
      UnmapExpecting(w, k, at, s, b);
    } else {
      SameExpecting(w, w1, Interval(s), b);
    }
    forall i | 0 <= i < |w.starts| ensures InFlight(w1.kernel, w.dev, i) == InFlight(w.kernel, w.dev, i) {
    }
  }

  /** The oldest emission that is not handled, if there is one. */
  lemma OldestPending(emissions: seq<Emission>, j: nat) returns (k: nat)
    requires j < |emissions| && !emissions[j].handled
    ensures k <= j && !emissions[k].handled && (k > 0 ==> emissions[k - 1].handled)
  {
    k := j;
    while k > 0 && !emissions[k - 1].handled
      invariant k <= j && !emissions[k].handled
    {
      k := k - 1;
    }
  }

  /** While the burst goes on, time has not reached the hold deadline. */
  lemma BusyBeforeDeadline(w: World, step: Step, s: Settings, b: Bounds)
    requires Steady(w, s, b) && Interval(s) > 0 && w.handledAt.Some? && Legal(w, step, b)
    requires Busy(w, step.at, b)
    ensures step.at < w.handledAt.value + Reach(Interval(s), b, |w.starts|) + b.delay
  {
    hide Setup, Current, Expecting, Reach;
    if j :| 0 <= j < |w.emissions| && !w.emissions[j].handled {
      var k := OldestPending(w.emissions, j);
      assert k == 0 ==> w.emissions[0].swap <= w.handledAt.value;
      ReachPositive(Interval(s), b, |w.starts|);
    } else {
      assert Last(w).handled;
      WithinReach(w, step, s, b);
    }
  }

  lemma ReachPositive(interval: nat, b: Bounds, cpus: nat)
    requires interval > 0
    ensures Reach(interval, b, cpus) > 0
  {
  }

  lemma WakeKeeps(w: World, at: Time, s: Settings, b: Bounds)
    requires Usable(s) && Reach(Interval(s), b, |w.starts|) + b.delay <= Hold(s)
    requires Steady(w, s, b) && Legal(w, Wake(at), b)
    ensures Steady(Do(w, Wake(at), s), s, b)
    ensures !Flickers(w, Wake(at), b)
  {
    hide L.Invariant, Separate, Expecting, Reach;
    var w1 := Do(w, Wake(at), s);
    forall i | 0 <= i < |w.starts| ensures CpuTimely(w1, i) {
      assert CpuTimely(w, i);
    }
    if w.emissions != [] {
      forall i | 0 <= i < |w.starts| ensures CpuCurrent(w1, i) {
        assert CpuCurrent(w, i);
      }
    }
    SameExpecting(w, w1, Interval(s), b);
    if w.slot.active && Busy(w, at, b) {
      BusyBeforeDeadline(w, Wake(at), s, b);
    }
  }

  /** The hold time covers everything that can come between two events. */
  predicate Covers(s: Settings, b: Bounds, cpus: nat) {
    !b.rewriting.Often? && Reach(Interval(s), b, cpus) + b.delay <= Hold(s)
  }

  lemma StepKeeps(w: World, step: Step, s: Settings, b: Bounds)
    requires Usable(s) && Covers(s, b, |w.starts|) && Steady(w, s, b) && Legal(w, step, b)
    ensures Steady(Do(w, step, s), s, b) && !Flickers(w, step, b) && |Do(w, step, s).starts| == |w.starts|
  {
    hide Steady, Reach, L.Do;
    match step
    case Cpu(at, k) =>
      if Requests(w, k) {
        RequestKeeps(w, k, at, s, b);
      } else if Wins(w, k) {
        WinKeeps(w, k, at, s, b);
      } else {
        QuietKeeps(w, k, at, s, b);
      }
    case Map(at, k) => MapKeeps(w, k, at, s, b);
    case Deliver(at) => DeliverKeeps(w, at, s, b);
    case Wake(at) => WakeKeeps(w, at, s, b);
  }

  lemma BeginIsSteady(k: L.Kernel, dev: u32, from: nat, slot: Slot, s: Settings, b: Bounds)
    requires Ready(k, dev, slot, from, s)
    ensures Steady(Begin(k, dev, from, slot), s, b)
  {
    hide L.ElementOk, L.CpuOk;
  }

  lemma {:induction false} RunKeepsSteady(k: L.Kernel, dev: u32, from: nat, slot: Slot, steps: seq<Step>,
                                          s: Settings, b: Bounds)
    requires Usable(s) && Covers(s, b, |k.cpus|)
    requires Ready(k, dev, slot, from, s) && LegalRun(Begin(k, dev, from, slot), steps, s, b)
    ensures var w := After(Begin(k, dev, from, slot), steps, s); Steady(w, s, b) && |w.starts| == |k.cpus|
  {
    hide Steady, Ready, Legal, Do, Covers;
    if steps == [] {
      BeginIsSteady(k, dev, from, slot, s, b);
    } else {
      var prefix := steps[..|steps| - 1];
      RunKeepsSteady(k, dev, from, slot, prefix, s, b);
      StepKeeps(After(Begin(k, dev, from, slot), prefix, s), steps[|steps| - 1], s, b);
    }
  }
}
