/** The in-kernel rate limiter of disk events, as atomic steps of any number of
    CPUs interleaved with userspace rewriting the maps. */
module DiskLimiter {
  import opened Types

  /** A value of the state map. `emitted` records the timestamps that won the
      compare-and-swap on it, oldest first. A map element that is deleted or
      replaced stays reachable for CPUs that looked it up before. */
  datatype Element = Element(next: nat, emitted: seq<nat>)

  datatype Event = Event(timestamp: nat, dev: u32, led: byte)

  /** Where one CPU is in the program. `seen` records how many emissions the
      element had when its deadline was read. */
  datatype Cpu =
    | Idle
    | Targeted(dev: u32, led: byte)
    | Holding(dev: u32, led: byte, elem: nat)
    | Clocked(dev: u32, led: byte, elem: nat, now: nat)
    | Loaded(dev: u32, led: byte, elem: nat, now: nat, deadline: nat, seen: nat)
    | Won(dev: u32, led: byte, now: nat)

  datatype Kernel = Kernel(
    interval: nat,
    targets: map<u32, byte>,
    states: map<u32, nat>,
    elements: seq<Element>,
    cpus: seq<Cpu>,
    ring: seq<Event>)

  datatype Step =
    | FindTarget(cpu: nat, dev: u32)
    | FindState(cpu: nat)
    | ReadClock(cpu: nat, now: nat)
    | ReadDeadline(cpu: nat)
    | CompareAndSwap(cpu: nat)
    | Output(cpu: nat, full: bool)
    | Consume
    | SetState(dev: u32)
    | DeleteState(dev: u32)
    | SetTarget(dev: u32, led: byte)
    | DeleteTarget(dev: u32)

  /** `!old_deadline || now >= old_deadline` */
  predicate Passes(deadline: nat, now: nat) {
    deadline == 0 || now >= deadline
  }

  function At(k: Kernel, cpu: nat): Cpu {
    if cpu < |k.cpus| then k.cpus[cpu] else Idle
  }

  function Goto(k: Kernel, cpu: nat, to: Cpu): Kernel {
    if cpu < |k.cpus| then k.(cpus := k.cpus[cpu := to]) else k
  }

  /** One atomic step; a step that is not possible changes nothing. */
  function Do(k: Kernel, step: Step): Kernel {
    match step
    case FindTarget(i, dev) =>
      if At(k, i).Idle? && dev in k.targets then Goto(k, i, Targeted(dev, k.targets[dev])) else k
    case FindState(i) =>
      if At(k, i).Targeted? then
        var c := At(k, i);
        Goto(k, i, if c.dev in k.states then Holding(c.dev, c.led, k.states[c.dev]) else Idle)
      else k
    case ReadClock(i, now) =>
      if At(k, i).Holding? then var c := At(k, i); Goto(k, i, Clocked(c.dev, c.led, c.elem, now)) else k
    case ReadDeadline(i) =>
      var c := At(k, i);
      if c.Clocked? && c.elem < |k.elements| then
        var e := k.elements[c.elem];
        Goto(k, i, Loaded(c.dev, c.led, c.elem, c.now, e.next, |e.emitted|))
      else k
    case CompareAndSwap(i) =>
      var c := At(k, i);
      if c.Loaded? && c.elem < |k.elements| then
        var e := k.elements[c.elem];
        if Passes(c.deadline, c.now) && e.next == c.deadline then
          Goto(k.(elements := k.elements[c.elem := Element(c.now + k.interval, e.emitted + [c.now])]),
               i, Won(c.dev, c.led, c.now))
        else Goto(k, i, Idle)
      else k
    case Output(i, full) =>
      if At(k, i).Won? then
        var c := At(k, i);
        Goto(if full then k else k.(ring := k.ring + [Event(c.now, c.dev, c.led)]), i, Idle)
      else k
    case Consume => if k.ring == [] then k else k.(ring := k.ring[1..])
    case SetState(dev) =>
      k.(states := k.states[dev := |k.elements|], elements := k.elements + [Element(0, [])])
    case DeleteState(dev) => k.(states := k.states - {dev})
    case SetTarget(dev, led) => k.(targets := k.targets[dev := led])
    case DeleteTarget(dev) => k.(targets := k.targets - {dev})
  }

  function Run(k: Kernel, steps: seq<Step>): Kernel {
    if steps == [] then k else Do(Run(k, steps[..|steps| - 1]), steps[|steps| - 1])
  }

  /** Steps of the collector itself; the others are the daemon's. */
  predicate IsCpuStep(step: Step) {
    step.FindTarget? || step.FindState? || step.ReadClock? || step.ReadDeadline? || step.CompareAndSwap? || step.Output?
  }

  predicate IsMapStep(step: Step) {
    step.SetState? || step.DeleteState? || step.SetTarget? || step.DeleteTarget?
  }

  lemma CpuStepKeepsMaps(k: Kernel, step: Step)
    requires IsCpuStep(step)
    ensures var k1 := Do(k, step);
            k1.targets == k.targets && k1.states == k.states && |k1.cpus| == |k.cpus| && k1.interval == k.interval
  {
  }

  function Booted(interval: nat, cpus: nat): Kernel {
    Kernel(interval, map[], map[], [], seq(cpus, _ => Idle), [])
  }

  // ----- invariant -----

  /** The deadline after a list of emissions. */
  function NextAfter(emitted: seq<nat>, interval: nat): nat {
    if emitted == [] then 0 else emitted[|emitted| - 1] + interval
  }

  ghost predicate Spaced(emitted: seq<nat>, interval: nat) {
    forall i :: 0 < i < |emitted| ==> emitted[i] >= emitted[i - 1] + interval
  }

  ghost predicate ElementOk(e: Element, interval: nat) {
    Spaced(e.emitted, interval) && e.next == NextAfter(e.emitted, interval)
  }

  ghost predicate CpuOk(k: Kernel, c: Cpu) {
    match c
    case Holding(_, _, elem) => elem < |k.elements|
    case Clocked(_, _, elem, _) => elem < |k.elements|
    case Loaded(_, _, elem, _, deadline, seen) =>
      && elem < |k.elements|
      && seen <= |k.elements[elem].emitted|
      && deadline == NextAfter(k.elements[elem].emitted[..seen], k.interval)
    case _ => true
  }

  ghost predicate Invariant(k: Kernel) {
    && k.interval > 0
    && (forall j :: 0 <= j < |k.elements| ==> ElementOk(k.elements[j], k.interval))
    && (forall dev :: dev in k.states ==> k.states[dev] < |k.elements|)
    && (forall a, b :: a in k.states && b in k.states && a != b ==> k.states[a] != k.states[b])
    && (forall i :: 0 <= i < |k.cpus| ==> CpuOk(k, k.cpus[i]))
  }

  /** Deadlines only ever grow, so a value is never seen twice. */
  lemma {:induction false} DeadlinesGrow(emitted: seq<nat>, interval: nat, n: nat)
    requires interval > 0 && Spaced(emitted, interval) && n < |emitted|
    ensures NextAfter(emitted[..n], interval) < NextAfter(emitted, interval)
    decreases |emitted|
  {
    var m := |emitted| - 1;
    if n < m {
      DeadlinesGrow(emitted[..m], interval, n);
      assert emitted[..m][..n] == emitted[..n];
    } else if n > 0 {
      assert emitted[n] >= emitted[n - 1] + interval;
    }
  }

  /** No ABA: after a passed check, the compare-and-swap wins exactly when no
      other CPU emitted on that element since the deadline was read. */
  lemma SwapDecides(k: Kernel, i: nat)
    requires Invariant(k) && i < |k.cpus| && k.cpus[i].Loaded?
    requires Passes(k.cpus[i].deadline, k.cpus[i].now)
    ensures var c := k.cpus[i];
            && Do(k, CompareAndSwap(i)).cpus[i].Won? <==> |k.elements[c.elem].emitted| == c.seen
  {
    var c := k.cpus[i];
    assert CpuOk(k, c);
    var e := k.elements[c.elem];
    assert ElementOk(e, k.interval);
    if c.seen < |e.emitted| {
      DeadlinesGrow(e.emitted, k.interval, c.seen);
    } else {
      assert e.emitted[..c.seen] == e.emitted;
    }
  }

  lemma DoKeeps(k: Kernel, step: Step)
    requires Invariant(k)
    ensures Invariant(Do(k, step)) && Do(k, step).interval == k.interval
  {
    hide ElementOk;
    match step
    case CompareAndSwap(i) => SwapKeeps(k, i);
    case ReadDeadline(i) => ReadKeeps(k, i);
    case SetState(dev) => NewElementKeeps(k, dev);
    case _ =>
  }

  lemma SwapKeeps(k: Kernel, i: nat)
    requires Invariant(k)
    ensures Invariant(Do(k, CompareAndSwap(i)))
  {
    hide ElementOk;
    var c := At(k, i);
    if c.Loaded? && c.elem < |k.elements| && Passes(c.deadline, c.now) && k.elements[c.elem].next == c.deadline {
      assert CpuOk(k, c);
      SwapKeepsOthers(k, Do(k, CompareAndSwap(i)), i);
    }
  }

  lemma ReadKeeps(k: Kernel, i: nat)
    requires Invariant(k)
    ensures Invariant(Do(k, ReadDeadline(i)))
  {
    var c := At(k, i);
    if c.Clocked? && c.elem < |k.elements| {
      var e := k.elements[c.elem];
      assert ElementOk(e, k.interval);
      assert e.emitted[..|e.emitted|] == e.emitted;
    }
  }

  lemma NewElementKeeps(k: Kernel, dev: u32)
    requires Invariant(k)
    ensures Invariant(Do(k, SetState(dev)))
  {
    var k1 := Do(k, SetState(dev));
    assert ElementOk(Element(0, []), k.interval);
    forall j | 0 <= j < |k.cpus| ensures CpuOk(k1, k1.cpus[j]) {
      assert CpuOk(k, k.cpus[j]);
    }
  }

  lemma SwapKeepsOthers(k: Kernel, k1: Kernel, i: nat)
    requires Invariant(k) && i < |k.cpus| && k.cpus[i].Loaded?
    requires k.cpus[i].elem < |k.elements|
    requires Passes(k.cpus[i].deadline, k.cpus[i].now)
    requires k.elements[k.cpus[i].elem].next == k.cpus[i].deadline
    requires k1 == Do(k, CompareAndSwap(i))
    ensures Invariant(k1)
  {
    var c := k.cpus[i];
    var e := k.elements[c.elem];
    assert ElementOk(e, k.interval);
    var e1 := k1.elements[c.elem];
    assert ElementOk(e1, k.interval);
    forall j | 0 <= j < |k.cpus| ensures CpuOk(k1, k1.cpus[j]) {
      assert CpuOk(k, k.cpus[j]);
      if j != i && k.cpus[j].Loaded? && k.cpus[j].elem == c.elem {
        assert e1.emitted[..k.cpus[j].seen] == e.emitted[..k.cpus[j].seen];
      }
    }
  }

  lemma {:induction false} RunKeeps(interval: nat, cpus: nat, steps: seq<Step>)
    requires interval > 0
    ensures Invariant(Run(Booted(interval, cpus), steps))
    ensures Run(Booted(interval, cpus), steps).interval == interval
  {
    if steps != [] {
      RunKeeps(interval, cpus, steps[..|steps| - 1]);
      DoKeeps(Run(Booted(interval, cpus), steps[..|steps| - 1]), steps[|steps| - 1]);
    }
  }

  // ----- the rate limit -----

  lemma {:induction false} SpacedFar(emitted: seq<nat>, interval: nat, i: nat, j: nat)
    requires Spaced(emitted, interval) && i <= j < |emitted|
    ensures emitted[j] >= emitted[i] + (j - i) * interval
    decreases j - i
  {
    if i < j {
      SpacedFar(emitted, interval, i, j - 1);
      assert (j - i) * interval == (j - 1 - i) * interval + interval;
    }
  }

  /** Emissions of an element inside the window [from, from + width]. */
  function InWindow(emitted: seq<nat>, from: nat, width: nat): nat {
    if emitted == [] then 0
    else
      var last := emitted[|emitted| - 1];
      InWindow(emitted[..|emitted| - 1], from, width) + (if from <= last <= from + width then 1 else 0)
  }

  /** Emission `j` lies in the window and at least `n - 1` intervals into it. */
  ghost predicate Deep(emitted: seq<nat>, interval: nat, from: nat, width: nat, j: int, n: nat) {
    && 0 <= j < |emitted| && from <= emitted[j] <= from + width
    && emitted[j] >= from + (n - 1) * interval
  }

  lemma {:induction false} WindowFromLast(emitted: seq<nat>, interval: nat, from: nat, width: nat) returns (j: int)
    requires interval > 0 && Spaced(emitted, interval)
    ensures InWindow(emitted, from, width) > 0 ==>
              Deep(emitted, interval, from, width, j, InWindow(emitted, from, width))
  {
    j := 0;
    if emitted != [] {
      var m := |emitted| - 1;
      var prefix := emitted[..m];
      j := WindowFromLast(prefix, interval, from, width);
      var n := InWindow(prefix, from, width);
      if from <= emitted[m] <= from + width {
        if n > 0 {
          SpacedFar(emitted, interval, j, m);
          OneMore(m - j, n, interval);
        }
        j := m;
      }
    }
  }

  lemma OneMore(k: nat, n: nat, d: nat)
    requires k > 0
    ensures k * d >= d && n * d == (n - 1) * d + d
  {
    assert k * d == (k - 1) * d + d;
  }

  /** The emissions in the window, by their numbers. */
  ghost function Within(emitted: seq<nat>, from: nat, width: nat): set<nat> {
    set i: nat | i < |emitted| && from <= emitted[i] <= from + width
  }

  lemma {:induction false} InWindowCounts(emitted: seq<nat>, from: nat, width: nat)
    ensures InWindow(emitted, from, width) == |Within(emitted, from, width)|
  {
    if emitted == [] {
      assert Within(emitted, from, width) == {};
    } else {
      var m := |emitted| - 1;
      InWindowCounts(emitted[..m], from, width);
      var before := Within(emitted[..m], from, width);
      assert Within(emitted, from, width) == if from <= emitted[m] <= from + width then before + {m} else before;
    }
  }

  /** Any number of CPUs, any interleaving, userspace rewriting the maps all the
      while: on one generation of a device's state, emissions are at least
      `interval` apart, and no window of width `width` holds more than
      `width / interval + 1` of them. */
  lemma RateLimit(interval: nat, cpus: nat, steps: seq<Step>, elem: nat, from: nat, width: nat)
    requires interval > 0
    requires elem < |Run(Booted(interval, cpus), steps).elements|
    ensures var emitted := Run(Booted(interval, cpus), steps).elements[elem].emitted;
            && (forall i, j :: 0 <= i <= j < |emitted| ==> emitted[j] >= emitted[i] + (j - i) * interval)
            && |set i: nat | i < |emitted| && from <= emitted[i] <= from + width| <= width / interval + 1
  {
    hide Run, CpuOk, InWindow;
    RunKeeps(interval, cpus, steps);
    var k := Run(Booted(interval, cpus), steps);
    assert ElementOk(k.elements[elem], interval);
    InWindowCounts(k.elements[elem].emitted, from, width);
    SpacedWindow(k.elements[elem].emitted, interval, from, width);
  }

  lemma SpacedWindow(emitted: seq<nat>, interval: nat, from: nat, width: nat)
    requires interval > 0 && Spaced(emitted, interval)
    ensures forall i, j :: 0 <= i <= j < |emitted| ==> emitted[j] >= emitted[i] + (j - i) * interval
    ensures InWindow(emitted, from, width) <= width / interval + 1
  {
    forall i, j | 0 <= i <= j < |emitted| ensures emitted[j] >= emitted[i] + (j - i) * interval {
      SpacedFar(emitted, interval, i, j);
    }
    var _ := WindowFromLast(emitted, interval, from, width);
    var n := InWindow(emitted, from, width);
    if n > 0 {
      assert (n - 1) * interval <= width;
      Divides(n - 1, interval, width);
    }
  }

  lemma Monotone(a: nat, b: nat, d: nat)
    requires a <= b
    ensures a * d <= b * d
  {
  }

  lemma Divides(n: nat, d: nat, w: nat)
    requires d > 0 && n * d <= w
    ensures n <= w / d
  {
    var q := w / d;
    assert w < (q + 1) * d;
    if n >= q + 1 {
      Monotone(q + 1, n, d);
      assert false;
    }
  }

  /** One undisturbed run of the program on CPU `i`. */
  function Request(k: Kernel, i: nat, dev: u32, now: nat): Kernel {
    Do(Do(Do(Do(Do(Do(k, FindTarget(i, dev)), FindState(i)), ReadClock(i, now)), ReadDeadline(i)),
          CompareAndSwap(i)), Output(i, false))
  }

  lemma RunTwo(k: Kernel, a: Step, b: Step)
    ensures Run(k, [a, b]) == Do(Do(k, a), b)
  {
    assert [a, b][..1] == [a];
    assert Run(k, [a]) == Do(Run(k, [a][..0]), a);
  }

  lemma RunRequest(k: Kernel, dev: u32, now: nat)
    ensures Run(k, [FindTarget(0, dev), FindState(0), ReadClock(0, now), ReadDeadline(0),
                    CompareAndSwap(0), Output(0, false)]) == Request(k, 0, dev, now)
  {
    var a, b := [FindTarget(0, dev), FindState(0)], [ReadClock(0, now), ReadDeadline(0)];
    var c := [CompareAndSwap(0), Output(0, false)];
    RunTwo(k, FindTarget(0, dev), FindState(0));
    RunTwo(Run(k, a), ReadClock(0, now), ReadDeadline(0));
    RunConcat(k, a, b);
    RunTwo(Run(k, a + b), CompareAndSwap(0), Output(0, false));
    RunConcat(k, a + b, c);
    assert a + b + c == [FindTarget(0, dev), FindState(0), ReadClock(0, now), ReadDeadline(0),
                         CompareAndSwap(0), Output(0, false)];
  }

  lemma {:induction false} RunConcat(k: Kernel, a: seq<Step>, b: seq<Step>)
    ensures Run(k, a + b) == Run(Run(k, a), b)
  {
    if b == [] {
      assert a + b == a;
    } else {
      RunConcat(k, a, b[..|b| - 1]);
      assert (a + b)[..|a + b| - 1] == a + b[..|b| - 1];
    }
  }

  /** An undisturbed run is the sequential limiter: it emits exactly when there
      is no deadline yet or the deadline has passed, and then moves it to
      `now + interval`. */
  function Issue(next: nat, now: nat, interval: nat): (bool, nat) {
    if next == 0 || now >= next then (true, now + interval) else (false, next)
  }

  lemma UndisturbedRequest(k: Kernel, i: nat, dev: u32, now: nat)
    requires i < |k.cpus| && k.cpus[i].Idle? && dev in k.targets && dev in k.states
    requires k.states[dev] < |k.elements|
    ensures var e, k1 := k.elements[k.states[dev]], Request(k, i, dev, now);
            var (emits, next) := Issue(e.next, now, k.interval);
            && k1.elements == k.elements[k.states[dev] :=
                 Element(next, if emits then e.emitted + [now] else e.emitted)]
            && k1.ring == k.ring + (if emits then [Event(now, dev, k.targets[dev])] else [])
            && k1.cpus == k.cpus
  {
  }

  lemma UnmappedRequest(k: Kernel, i: nat, dev: u32, now: nat)
    requires i < |k.cpus| && k.cpus[i].Idle? && dev !in k.targets
    ensures Request(k, i, dev, now) == k
  {
  }

  // ----- the ring is a queue -----

  /** The events that CPUs put on the ring in a run, in order; at a full ring they are
      lost. */
  function Queued(k: Kernel, steps: seq<Step>): seq<Event> {
    if steps == [] then []
    else
      var prefix, last := steps[..|steps| - 1], steps[|steps| - 1];
      Queued(k, prefix) +
      (if last.Output? && !last.full && At(Run(k, prefix), last.cpu).Won?
       then var c := At(Run(k, prefix), last.cpu); [Event(c.now, c.dev, c.led)] else [])
  }

  /** How many the daemon took off it. */
  function Fetched(k: Kernel, steps: seq<Step>): nat {
    if steps == [] then 0
    else
      var prefix, last := steps[..|steps| - 1], steps[|steps| - 1];
      Fetched(k, prefix) + (if last.Consume? && Run(k, prefix).ring != [] then 1 else 0)
  }

  /** Events leave the ring in the order in which they were put on it, each once. */
  lemma {:induction false} RingIsQueue(interval: nat, cpus: nat, steps: seq<Step>)
    ensures var k := Booted(interval, cpus);
            Fetched(k, steps) <= |Queued(k, steps)| && Run(k, steps).ring == Queued(k, steps)[Fetched(k, steps)..]
  {
    if steps != [] {
      hide Do;
      RingIsQueue(interval, cpus, steps[..|steps| - 1]);
      StepMovesRing(Run(Booted(interval, cpus), steps[..|steps| - 1]), steps[|steps| - 1]);
    }
  }

  lemma StepMovesRing(k: Kernel, step: Step)
    ensures Do(k, step).ring ==
            if step.Consume? && k.ring != [] then k.ring[1..]
            else if step.Output? && !step.full && At(k, step.cpu).Won?
              then k.ring + [Event(k.cpus[step.cpu].now, k.cpus[step.cpu].dev, k.cpus[step.cpu].led)]
            else k.ring
  {
  }

  /** Rewriting both maps for a device, then one request to it. */
  function RewriteAndRequest(k: Kernel, dev: u32, led: byte, now: nat): Kernel {
    Request(Do(Do(k, SetState(dev)), SetTarget(dev, led)), 0, dev, now)
  }

  lemma RewriteAndRequestEmits(k: Kernel, dev: u32, led: byte, now: nat)
    requires |k.cpus| > 0 && k.cpus[0].Idle?
    ensures var k1 := RewriteAndRequest(k, dev, led, now);
            k1.ring == k.ring + [Event(now, dev, led)] && k1.cpus == k.cpus
  {
    hide Request;
    UndisturbedRequest(Do(Do(k, SetState(dev)), SetTarget(dev, led)), 0, dev, now);
  }

  lemma RewriteAndRequestRuns(k: Kernel, dev: u32, led: byte, now: nat) returns (steps: seq<Step>)
    ensures Run(k, steps) == RewriteAndRequest(k, dev, led, now)
  {
    hide Do, Request;
    var setup := [SetState(dev), SetTarget(dev, led)];
    var request := [FindTarget(0, dev), FindState(0), ReadClock(0, now), ReadDeadline(0),
                    CompareAndSwap(0), Output(0, false)];
    RunTwo(k, SetState(dev), SetTarget(dev, led));
    RunRequest(Do(Do(k, SetState(dev)), SetTarget(dev, led)), dev, now);
    RunConcat(k, setup, request);
    steps := setup + request;
  }

  /** The bound is per generation: rewriting the maps starts a new one, and two
      events for one device can then be any time apart, even none. */
  lemma ResetForgetsTheLimit(interval: nat, dev: u32, led: byte, now: nat)
    requires interval > 0
    ensures exists steps :: Run(Booted(interval, 1), steps).ring == [Event(now, dev, led), Event(now, dev, led)]
  {
    hide RewriteAndRequest;
    var k := Booted(interval, 1);
    RewriteAndRequestEmits(k, dev, led, now);
    var k1 := RewriteAndRequest(k, dev, led, now);
    RewriteAndRequestEmits(k1, dev, led, now);
    var a := RewriteAndRequestRuns(k, dev, led, now);
    var b := RewriteAndRequestRuns(k1, dev, led, now);
    RunConcat(k, a, b);
    assert Run(k, a + b).ring == [Event(now, dev, led), Event(now, dev, led)];
  }
}
