/** Traffic bytes from the kernel hooks to the pulse scheduler: every packet on
    every CPU, the ring buffer, and the daemon, in any interleaving. */
module NetworkFlow {
  import opened Types
  import opened Mcu
  import opened LedController
  import opened Settings
  import opened Timers
  import opened Scheduler
  import opened NetworkLed
  import N = NetworkLed
  import DiskLimiter

  /** The world of the network collector. A CPU holds the event it took out of
      the shared counters until it reaches the ring. The last five fields are
      history: bytes seen per direction, samples dropped at a full ring,
      emission times, and samples handed to the scheduler. */
  datatype World = World(
    settings: Settings,
    rxBytes: u64,
    txBytes: u64,
    next: nat,
    cpus: seq<Option<Sample>>,
    ring: seq<Sample>,
    network: Network,
    controller: Controller,
    seenRx: nat,
    seenTx: nat,
    dropped: seq<Sample>,
    emitted: seq<nat>,
    history: seq<Sample>)

  /** A packet under the lock, its event at the ring, and what the daemon does with
      the network LED; time passing for its timer, and whatever the daemon does to
      the other LEDs through the shared controller. */
  datatype Step =
    | Packet(cpu: nat, isRx: bool, len: u32, now: Time)
    | Output(cpu: nat, full: bool)
    | Consume
    | Render(now: Time)
    | Elapse(at: Time)
    | TimerExpired(now: Time)
    | Others(controller: Controller)

  function Interval(s: Settings): nat {
    s.networkIntervalMs * NS_PER_MS
  }

  /** 64-bit counter addition. */
  function Plus(a: u64, b: u32): u64 {
    (a as int + b as int) % 0x1_0000_0000_0000_0000
  }

  /** The section under the spin lock: account the packet, and take the counters
      when the deadline has passed. */
  function Accounted(w: World, i: nat, isRx: bool, len: u32, now: Time): World
    requires i < |w.cpus|
  {
    var rx := if isRx then Plus(w.rxBytes, len) else w.rxBytes;
    var tx := if isRx then w.txBytes else Plus(w.txBytes, len);
    var w1 := w.(seenRx := w.seenRx + (if isRx then len else 0), seenTx := w.seenTx + (if isRx then 0 else len));
    if DiskLimiter.Passes(w.next, now) then
      w1.(rxBytes := 0, txBytes := 0, next := now + Interval(w.settings),
          cpus := w.cpus[i := Some(Sample(rx, tx))], emitted := w.emitted + [now])
    else w1.(rxBytes := rx, txBytes := tx)
  }

  function Handed(w: World, r: (Network, Controller, Status, Option<Sample>)): World {
    w.(network := r.0, controller := r.1,
       history := if r.3.Some? then w.history + [r.3.value] else w.history)
  }

  function Do(w: World, step: Step): (r: World)
    requires w.controller.Valid()
    ensures r.controller.Valid() && |r.cpus| == |w.cpus| && r.settings == w.settings
  {
    match step
    case Packet(i, isRx, len, now) =>
      if i < |w.cpus| && w.cpus[i].None? then Accounted(w, i, isRx, len, now) else w
    case Output(i, full) =>
      if i < |w.cpus| && w.cpus[i].Some? then
        var w1 := w.(cpus := w.cpus[i := None]);
        if full then w1.(dropped := w.dropped + [w.cpus[i].value])
        else w1.(ring := w.ring + [w.cpus[i].value])
      else w
    case Consume =>
      if w.ring == [] then w
      else w.(ring := w.ring[1..], network := SampleAdded(w.network, w.ring[0].rx, w.ring[0].tx))
    case Render(now) => Handed(w, Rendered(w.network, w.controller, w.settings, now))
    case Elapse(at) => w.(network := w.network.(timer := Elapsed(w.network.timer, at)))
    case TimerExpired(now) =>
      if w.network.timer.Expired? then Handed(w, TimerHandled(w.network, w.controller, w.settings, now)) else w
    case Others(c) => if c.Valid() then w.(controller := c) else w
  }

  function Run(w: World, steps: seq<Step>): (r: World)
    requires w.controller.Valid()
    ensures r.controller.Valid() && |r.cpus| == |w.cpus| && r.settings == w.settings
  {
    if steps == [] then w else Do(Run(w, steps[..|steps| - 1]), steps[|steps| - 1])
  }

  function NoneInFlight(cpus: nat): (r: seq<Option<Sample>>)
    ensures |r| == cpus
  {
    seq(cpus, _ => None)
  }

  function Quiet(s: Settings, cpus: nat, c: Controller): World {
    World(s, 0, 0, 0, NoneInFlight(cpus), [], IDLE, c, 0, 0, [], [], [])
  }

  // ----- the ledger -----

  /** Bytes of a sample in one direction. */
  function Part(s: Sample, isRx: bool): nat {
    if isRx then s.rx else s.tx
  }

  function Total(samples: seq<Sample>, isRx: bool): nat {
    if samples == [] then 0 else Total(samples[..|samples| - 1], isRx) + Part(samples[|samples| - 1], isRx)
  }

  function InFlight(cpus: seq<Option<Sample>>, isRx: bool): nat {
    if cpus == [] then 0
    else
      var last := cpus[|cpus| - 1];
      InFlight(cpus[..|cpus| - 1], isRx) + (if last.Some? then Part(last.value, isRx) else 0)
  }

  function Seen(w: World, isRx: bool): nat {
    if isRx then w.seenRx else w.seenTx
  }

  /** Everywhere a byte can be. */
  function Ledger(w: World, isRx: bool): nat {
    (if isRx then w.rxBytes else w.txBytes) as int
    + InFlight(w.cpus, isRx)
    + Total(w.ring, isRx)
    + Total(w.dropped, isRx)
    + (if isRx then w.network.pendingRx else w.network.pendingTx) as int
    + Total(w.history, isRx)
  }

  lemma TotalAppend(s: seq<Sample>, x: Sample, isRx: bool)
    ensures Total(s + [x], isRx) == Total(s, isRx) + Part(x, isRx)
  {
    assert (s + [x])[..|s|] == s;
  }

  lemma {:induction false} TotalRest(s: seq<Sample>, isRx: bool)
    requires s != []
    ensures Total(s, isRx) == Part(s[0], isRx) + Total(s[1..], isRx)
  {
    if |s| == 1 {
      assert s[..0] == [] && s[1..] == [];
    } else {
      var prefix := s[..|s| - 1];
      TotalRest(prefix, isRx);
      assert s[1..][..|s| - 2] == prefix[1..];
    }
  }

  lemma {:induction false} InFlightUpdate(cpus: seq<Option<Sample>>, i: nat, x: Option<Sample>, isRx: bool)
    requires i < |cpus|
    ensures InFlight(cpus[i := x], isRx) ==
            InFlight(cpus, isRx) - (if cpus[i].Some? then Part(cpus[i].value, isRx) else 0)
            + (if x.Some? then Part(x.value, isRx) else 0)
  {
    var m := |cpus| - 1;
    if i == m {
      assert cpus[i := x][..m] == cpus[..m];
    } else {
      InFlightUpdate(cpus[..m], i, x, isRx);
      assert cpus[i := x][..m] == cpus[..m][i := x];
    }
  }

  /** As long as the total fits in 64 bits, every byte is in exactly one place. */
  ghost predicate Conserved(w: World, isRx: bool) {
    Seen(w, isRx) <= U64_MAX ==> Seen(w, isRx) == Ledger(w, isRx)
  }

  lemma PacketConserves(w: World, i: nat, dir: bool, len: u32, now: Time, isRx: bool)
    requires i < |w.cpus| && w.cpus[i].None? && Conserved(w, isRx)
    ensures Conserved(Accounted(w, i, dir, len, now), isRx)
  {
    hide Total, InFlight, Plus;
    var rx := if dir then Plus(w.rxBytes, len) else w.rxBytes;
    var tx := if dir then w.txBytes else Plus(w.txBytes, len);
    PlusExact(w.rxBytes, len);
    PlusExact(w.txBytes, len);
    InFlightUpdate(w.cpus, i, Some(Sample(rx, tx)), isRx);
  }

  lemma PlusExact(a: u64, b: u32)
    ensures a as int + b as int <= U64_MAX ==> Plus(a, b) as int == a as int + b as int
  {
  }

  lemma OutputConserves(w: World, i: nat, full: bool, isRx: bool)
    requires w.controller.Valid() && i < |w.cpus| && w.cpus[i].Some? && Conserved(w, isRx)
    ensures Conserved(Do(w, Output(i, full)), isRx)
  {
    hide Total, InFlight;
    InFlightUpdate(w.cpus, i, None, isRx);
    TotalAppend(w.ring, w.cpus[i].value, isRx);
    TotalAppend(w.dropped, w.cpus[i].value, isRx);
  }

  lemma ConsumeConserves(w: World, isRx: bool)
    requires w.controller.Valid() && w.ring != [] && Conserved(w, isRx)
    ensures Conserved(Do(w, Consume), isRx)
  {
    hide Total, InFlight;
    TotalRest(w.ring, isRx);
  }

  /** A handler either hands nothing over and leaves the machine's traffic alone,
      or hands over everything pending, which is not nothing. */
  ghost predicate Hands(n: Network, r: (Network, Controller, Status, Option<Sample>)) {
    match r.3
    case None => r.0.pulses == n.pulses && r.0.pendingRx == n.pendingRx && r.0.pendingTx == n.pendingTx
    case Some(sample) =>
      && sample == Sample(n.pendingRx, n.pendingTx) && n.Pending()
      && r.0.pulses == Choice(n.pulses, sample).0 && r.0.pendingRx == 0 && r.0.pendingTx == 0
  }

  lemma RenderedHands(n: Network, c: Controller, s: Settings, now: Time)
    requires c.Valid()
    ensures Hands(n, Rendered(n, c, s, now))
  {
    hide Lit, Choice;
  }

  lemma TimerHands(n: Network, c: Controller, s: Settings, now: Time)
    requires c.Valid()
    ensures Hands(n, TimerHandled(n, c, s, now))
  {
    hide Darkened, Rendered, Choice;
    if n.ledOn {
      RenderedHands(n.(timer := ExpirationRead(n.timer), ledOn := false), Darkened(c), s, now);
    }
  }

  lemma HandedConserves(w: World, r: (Network, Controller, Status, Option<Sample>), isRx: bool)
    requires Conserved(w, isRx) && Hands(w.network, r)
    ensures Conserved(Handed(w, r), isRx)
  {
    hide Total, InFlight, Choice;
    if r.3.Some? {
      TotalAppend(w.history, r.3.value, isRx);
    }
  }

  lemma ElapseConserves(w: World, at: Time, isRx: bool)
    requires w.controller.Valid() && Conserved(w, isRx)
    ensures Conserved(Do(w, Elapse(at)), isRx)
  {
    hide Total, InFlight;
  }

  lemma OthersConserve(w: World, c: Controller, isRx: bool)
    requires w.controller.Valid() && Conserved(w, isRx)
    ensures Conserved(Do(w, Others(c)), isRx)
  {
    hide Total, InFlight;
  }

  lemma StepConserves(w: World, step: Step, isRx: bool)
    requires w.controller.Valid() && Conserved(w, isRx)
    ensures Conserved(Do(w, step), isRx)
  {
    hide Conserved, Rendered, TimerHandled, Handed, Accounted;
    match step
    case Packet(i, dir, len, now) =>
      if i < |w.cpus| && w.cpus[i].None? {
        PacketConserves(w, i, dir, len, now, isRx);
      }
    case Output(i, full) =>
      if i < |w.cpus| && w.cpus[i].Some? {
        OutputConserves(w, i, full, isRx);
      }
    case Consume =>
      if w.ring != [] {
        ConsumeConserves(w, isRx);
      }
    case Render(now) =>
      RenderedHands(w.network, w.controller, w.settings, now);
      HandedConserves(w, Rendered(w.network, w.controller, w.settings, now), isRx);
    case Elapse(at) => ElapseConserves(w, at, isRx);
    case TimerExpired(now) =>
      TimerHands(w.network, w.controller, w.settings, now);
      HandedConserves(w, TimerHandled(w.network, w.controller, w.settings, now), isRx);
    case Others(c) => OthersConserve(w, c, isRx);
  }

  lemma {:induction false} QuietLedger(cpus: nat, isRx: bool)
    ensures InFlight(NoneInFlight(cpus), isRx) == 0
  {
    if cpus > 0 {
      QuietLedger(cpus - 1, isRx);
      assert NoneInFlight(cpus)[..cpus - 1] == NoneInFlight(cpus - 1);
    }
  }

  /** End to end, any number of CPUs, any interleaving, any LED faults: bytes seen
      by the hooks equal bytes in the kernel counters, in events on their way to
      the ring, in the ring, dropped at a full ring, pending in the daemon, and
      handed to the scheduler, each byte once. */
  lemma {:induction false} BytesAreConserved(s: Settings, cpus: nat, c: Controller, steps: seq<Step>, isRx: bool)
    requires c.Valid()
    ensures Conserved(Run(Quiet(s, cpus, c), steps), isRx)
  {
    hide Do;
    if steps == [] {
      QuietLedger(cpus, isRx);
    } else {
      BytesAreConserved(s, cpus, c, steps[..|steps| - 1], isRx);
      StepConserves(Run(Quiet(s, cpus, c), steps[..|steps| - 1]), steps[|steps| - 1], isRx);
    }
  }

  /** The scheduler has seen exactly the handed samples, in order, and no sample
      without traffic. */
  lemma {:induction false} SchedulerSeesHistory(s: Settings, cpus: nat, c: Controller, steps: seq<Step>)
    requires c.Valid()
    ensures var w := Run(Quiet(s, cpus, c), steps);
            && w.network.pulses == After(w.history)
            && forall k :: 0 <= k < |w.history| ==> w.history[k].rx != 0 || w.history[k].tx != 0
  {
    hide Do;
    if steps != [] {
      var prefix := steps[..|steps| - 1];
      SchedulerSeesHistory(s, cpus, c, prefix);
      StepSchedules(Run(Quiet(s, cpus, c), prefix), steps[|steps| - 1]);
    }
  }

  /** The scheduler state is that of the history, which has no empty sample. */
  ghost predicate Scheduled(w: World) {
    && w.network.pulses == After(w.history)
    && forall k :: 0 <= k < |w.history| ==> w.history[k].rx != 0 || w.history[k].tx != 0
  }

  lemma HandedSchedules(w: World, r: (Network, Controller, Status, Option<Sample>))
    requires Scheduled(w) && Hands(w.network, r)
    ensures Scheduled(Handed(w, r))
  {
    hide Choice;
    if r.3.Some? {
      assert (w.history + [r.3.value])[..|w.history|] == w.history;
    }
  }

  lemma StepSchedules(w: World, step: Step)
    requires w.controller.Valid() && Scheduled(w)
    ensures Scheduled(Do(w, step))
  {
    hide Rendered, TimerHandled, After, Choice;
    match step
    case Render(now) =>
      RenderedHands(w.network, w.controller, w.settings, now);
      HandedSchedules(w, Rendered(w.network, w.controller, w.settings, now));
    case TimerExpired(now) =>
      TimerHands(w.network, w.controller, w.settings, now);
      HandedSchedules(w, TimerHandled(w.network, w.controller, w.settings, now));
    case _ =>
  }

  /** Traffic decides the colours: in every run, the pulses chosen as RX among the
      samples with traffic both ways are the rounded sum of their RX shares. */
  lemma TrafficDecidesColors(s: Settings, cpus: nat, c: Controller, steps: seq<Step>)
    requires c.Valid()
    ensures var w := Run(Quiet(s, cpus, c), steps);
            && MixedPicks(w.history, 0) == (Shares(w.history, 0) + 0.5).Floor
            && w.network.pulses.rxCredit == Shares(w.history, 0) - MixedPicks(w.history, 0) as real
  {
    SchedulerSeesHistory(s, cpus, c, steps);
    var h := Run(Quiet(s, cpus, c), steps).history;
    PicksAreRoundedShares(h);
    CreditClosedForm(h);
  }

  // ----- what the collector emits -----

  /** The packet is accounted: its CPU is not busy with an event. */
  predicate Accounts(w: World, step: Step) {
    step.Packet? && step.cpu < |w.cpus| && w.cpus[step.cpu].None?
  }

  /** The clock readings of the packets accounted in a run, in the order in which
      they held the lock. */
  function Heard(w: World, steps: seq<Step>): seq<nat>
    requires w.controller.Valid()
  {
    if steps == [] then []
    else
      var prefix, last := steps[..|steps| - 1], steps[|steps| - 1];
      Heard(w, prefix) + (if Accounts(Run(w, prefix), last) then [last.now] else [])
  }

  /** Nothing was emitted before, or the interval has passed since. */
  predicate Due(emitted: seq<nat>, interval: nat, now: nat) {
    emitted == [] || now >= emitted[|emitted| - 1] + interval
  }

  /** Of packets at these times, the ones that are due when they come. */
  function DueTimes(times: seq<nat>, interval: nat): seq<nat> {
    if times == [] then []
    else
      var before, now := DueTimes(times[..|times| - 1], interval), times[|times| - 1];
      if Due(before, interval, now) then before + [now] else before
  }

  /** What is recorded of the emissions. */
  ghost predicate Emitting(w: World, times: seq<nat>, interval: nat) {
    && w.emitted == DueTimes(times, interval)
    && DiskLimiter.Spaced(w.emitted, interval) && w.next == DiskLimiter.NextAfter(w.emitted, interval)
  }

  /** The collector emits for exactly the packets that are due, and so keeps its
      interval, on any number of CPUs. */
  lemma {:induction false} EmissionsSpaced(s: Settings, cpus: nat, c: Controller, steps: seq<Step>)
    requires c.Valid()
    ensures Emitting(Run(Quiet(s, cpus, c), steps), Heard(Quiet(s, cpus, c), steps), s.networkIntervalMs * 1_000_000)
  {
    if steps != [] {
      hide Do, Emitting;
      var prefix, step := steps[..|steps| - 1], steps[|steps| - 1];
      var w := Quiet(s, cpus, c);
      EmissionsSpaced(s, cpus, c, prefix);
      var times := Heard(w, prefix);
      StepEmits(Run(w, prefix), times, step);
      assert Heard(w, steps) == if Accounts(Run(w, prefix), step) then times + [step.now] else times;
    }
  }

  lemma StepEmits(w: World, times: seq<nat>, step: Step)
    requires w.controller.Valid() && Emitting(w, times, Interval(w.settings))
    ensures Emitting(Do(w, step), if Accounts(w, step) then times + [step.now] else times, Interval(w.settings))
  {
    hide Rendered, TimerHandled, DueTimes;
    if Accounts(w, step) {
      OneMoreTime(times, Interval(w.settings), step.now);
    }
  }

  lemma OneMoreTime(times: seq<nat>, interval: nat, now: nat)
    ensures var before := DueTimes(times, interval);
            DueTimes(times + [now], interval) == if Due(before, interval, now) then before + [now] else before
  {
    assert (times + [now])[..|times|] == times;
  }

  /** The counters with a packet added to them, as a sample. */
  function Counted(w: World, isRx: bool, len: u32): Sample {
    Sample((w.rxBytes as int + if isRx then len else 0) % 0x1_0000_0000_0000_0000,
           (w.txBytes as int + if isRx then 0 else len) % 0x1_0000_0000_0000_0000)
  }

  /** A packet on an idle CPU, and its event at the ring if it has one, at any point
      of any run. It emits exactly when it is due: then the event has the counters
      with its own length, which start again at zero, and it is put on the ring or
      dropped. Otherwise only its length is added. */
  lemma UndisturbedPacket(s: Settings, cpus: nat, c: Controller, steps: seq<Step>,
                          i: nat, isRx: bool, len: u32, now: Time, full: bool)
    requires c.Valid() && i < cpus && Run(Quiet(s, cpus, c), steps).cpus[i].None?
    ensures var w := Run(Quiet(s, cpus, c), steps);
            var w1 := Do(w, Packet(i, isRx, len, now));
            var w2 := Do(w1, Output(i, full));
            var sample := Counted(w, isRx, len);
            && w1.ring == w.ring && w1.network == w.network && w1.controller == w.controller
            && w2 == w1.(cpus := w2.cpus, ring := w2.ring, dropped := w2.dropped) && w2.cpus == w.cpus
            && (if Due(w.emitted, s.networkIntervalMs * 1_000_000, now) then
                  && w1.cpus == w.cpus[i := Some(sample)] && w1.rxBytes == 0 && w1.txBytes == 0
                  && w1.emitted == w.emitted + [now] && w1.next == now + s.networkIntervalMs * 1_000_000
                  && w2.ring == (if full then w.ring else w.ring + [sample])
                  && w2.dropped == (if full then w.dropped + [sample] else w.dropped)
                else
                  && w1.cpus == w.cpus && w1.rxBytes == sample.rx && w1.txBytes == sample.tx
                  && w1.emitted == w.emitted && w1.next == w.next
                  && w2.ring == w.ring && w2.dropped == w.dropped)
  {
    hide Run, Do;
    EmissionsSpaced(s, cpus, c, steps);
    var w := Run(Quiet(s, cpus, c), steps);
    DueWhenPassed(w, s.networkIntervalMs * 1_000_000, now);
    PacketMoves(w, i, isRx, len, now);
    EventMoves(Do(w, Packet(i, isRx, len, now)), i, full);
    assert w.cpus[i := Some(Counted(w, isRx, len))][i := None] == w.cpus;
  }

  /** The deadline under the lock says when a packet is due. */
  lemma DueWhenPassed(w: World, interval: nat, now: nat)
    requires w.next == DiskLimiter.NextAfter(w.emitted, interval)
    ensures DiskLimiter.Passes(w.next, now) <==> Due(w.emitted, interval, now)
  {
  }

  lemma PacketMoves(w: World, i: nat, isRx: bool, len: u32, now: Time)
    requires w.controller.Valid() && i < |w.cpus| && w.cpus[i].None?
    ensures var w1, sample := Do(w, Packet(i, isRx, len, now)), Counted(w, isRx, len);
            && w1 == w.(rxBytes := w1.rxBytes, txBytes := w1.txBytes, next := w1.next, cpus := w1.cpus,
                        emitted := w1.emitted, seenRx := w1.seenRx, seenTx := w1.seenTx)
            && (if DiskLimiter.Passes(w.next, now) then
                  && w1.cpus == w.cpus[i := Some(sample)] && w1.rxBytes == 0 && w1.txBytes == 0
                  && w1.emitted == w.emitted + [now] && w1.next == now + Interval(w.settings)
                else
                  && w1.cpus == w.cpus && w1.rxBytes == sample.rx && w1.txBytes == sample.tx
                  && w1.emitted == w.emitted && w1.next == w.next)
  {
    hide DiskLimiter.Passes;
  }

  lemma EventMoves(w: World, i: nat, full: bool)
    requires w.controller.Valid() && i < |w.cpus|
    ensures var w1 := Do(w, Output(i, full));
            if w.cpus[i].None? then w1 == w
            else
              && w1 == w.(cpus := w.cpus[i := None], ring := w1.ring, dropped := w1.dropped)
              && w1.ring == (if full then w.ring else w.ring + [w.cpus[i].value])
              && w1.dropped == (if full then w.dropped + [w.cpus[i].value] else w.dropped)
  {
  }

  // ----- the ring is a queue -----

  /** The samples that CPUs put on the ring in a run, in order. */
  function Queued(w: World, steps: seq<Step>): seq<Sample>
    requires w.controller.Valid()
  {
    if steps == [] then []
    else
      var prefix, last := steps[..|steps| - 1], steps[|steps| - 1];
      var before := Run(w, prefix);
      Queued(w, prefix) +
      (if last.Output? && !last.full && last.cpu < |before.cpus| && before.cpus[last.cpu].Some?
       then [before.cpus[last.cpu].value] else [])
  }

  /** How many the daemon took off it. */
  function Fetched(w: World, steps: seq<Step>): nat
    requires w.controller.Valid()
  {
    if steps == [] then 0
    else
      var prefix, last := steps[..|steps| - 1], steps[|steps| - 1];
      Fetched(w, prefix) + (if last.Consume? && Run(w, prefix).ring != [] then 1 else 0)
  }

  /** Samples leave the ring in the order in which they were put on it, each once. */
  lemma {:induction false} RingIsQueue(s: Settings, cpus: nat, c: Controller, steps: seq<Step>)
    requires c.Valid()
    ensures var w := Quiet(s, cpus, c);
            Fetched(w, steps) <= |Queued(w, steps)| && Run(w, steps).ring == Queued(w, steps)[Fetched(w, steps)..]
  {
    if steps != [] {
      hide Do;
      RingIsQueue(s, cpus, c, steps[..|steps| - 1]);
      StepMovesRing(Run(Quiet(s, cpus, c), steps[..|steps| - 1]), steps[|steps| - 1]);
    }
  }

  lemma StepMovesRing(w: World, step: Step)
    requires w.controller.Valid()
    ensures Do(w, step).ring ==
            if step.Consume? && w.ring != [] then w.ring[1..]
            else if step.Output? && !step.full && step.cpu < |w.cpus| && w.cpus[step.cpu].Some?
              then w.ring + [w.cpus[step.cpu].value]
            else w.ring
  {
    hide Rendered, TimerHandled;
  }

  /** Consuming adds the head of the ring to the pending traffic, up to the largest
      64-bit number, each direction to its own, and touches nothing else. */
  lemma ConsumeAddsHead(w: World)
    requires w.controller.Valid() && w.ring != []
    ensures var w1, n, head := Do(w, Consume), w.network, w.ring[0];
            && w.ring == [head] + w1.ring
            && w1.network.pendingRx as int == Min(n.pendingRx as int + head.rx as int, U64_MAX)
            && w1.network.pendingTx as int == Min(n.pendingTx as int + head.tx as int, U64_MAX)
            && w1 == w.(ring := w1.ring, network := n.(pendingRx := w1.network.pendingRx,
                                                       pendingTx := w1.network.pendingTx))
  {
  }

  function Min(a: int, b: int): int {
    if a < b then a else b
  }

  /** From a packet to the light: with nothing on its way, the LED dark and a healthy
      bus, a due packet makes the LED light up in the colour the scheduler gives to
      everything counted so far, for the configured time. */
  lemma PacketLights(s: Settings, cpus: nat, c: Controller, steps: seq<Step>,
                     i: nat, isRx: bool, len: u32, now: Time, at: Time)
    requires c.Valid() && i < cpus && Run(Quiet(s, cpus, c), steps).cpus[i].None? && len > 0
    requires var w := Run(Quiet(s, cpus, c), steps);
             && w.ring == [] && !w.network.ledOn && !w.network.Pending()
             && N.Invariant(w.network, w.controller, s) && w.controller.bus.Healthy()
             && Due(w.emitted, s.networkIntervalMs * 1_000_000, now)
             && w.rxBytes as int + len as int <= U64_MAX && w.txBytes as int + len as int <= U64_MAX
    ensures var w := Run(Quiet(s, cpus, c), steps);
            var w1 := Do(Do(Do(Do(w, Packet(i, isRx, len, now)), Output(i, false)), Consume), Render(at));
            var sample := Counted(w, isRx, len);
            && w1.history == w.history + [sample] && w1.ring == [] && w1.network.ledOn
            && w1.controller.bus.leds[1].mode == On
            && w1.controller.bus.leds[1].color ==
               (if Choice(After(w.history), sample).1 then s.rxColor else s.txColor)
            && w1.network.timer ==
               Armed(at as int + if s.networkPulseMs == 0 then 1 else s.networkPulseMs * 1_000_000)
  {
    hide Run, Rendered, Choice, After, Conserved, N.LedPolicy;
    var w := Run(Quiet(s, cpus, c), steps);
    UndisturbedPacket(s, cpus, c, steps, i, isRx, len, now, false);
    SchedulerSeesHistory(s, cpus, c, steps);
    var w2 := Do(Do(w, Packet(i, isRx, len, now)), Output(i, false));
    ConsumeAddsHead(w2);
    var w3 := Do(w2, Consume);
    PendingKeeps(w.network, w3.network, w.controller, s);
    RenderedKeeps(w3.network, w3.controller, s, at);
  }

  /** What is pending plays no part in the LED's invariant. */
  lemma PendingKeeps(n: Network, n1: Network, c: Controller, s: Settings)
    requires N.Invariant(n, c, s) && n1 == n.(pendingRx := n1.pendingRx, pendingTx := n1.pendingTx)
    ensures N.Invariant(n1, c, s)
  {
  }
}
