/** The two kernel hash maps of the disk collector, as userspace rewrites them
    while the collector runs on any number of CPUs. */
module KernelMaps {
  import opened Types
  import opened Discovery
  import L = DiskLimiter

  const MAX_ENTRIES: nat := 8

  /** The collector looks a device up in `targets` first and in `states` next:
      a target without a state would be a device whose requests are lost. */
  ghost predicate Contained(k: L.Kernel) {
    k.targets.Keys <= k.states.Keys
  }

  /** Devices of the first `n` slots with the LED each belongs to. */
  function Targets(slots: seq<Slot>, n: nat): map<u32, byte>
    requires n <= |slots|
  {
    if n == 0 then map[]
    else if slots[n - 1].present then Targets(slots, n - 1)[slots[n - 1].dev := slots[n - 1].ledId]
    else Targets(slots, n - 1)
  }

  /** With distinct devices the map is exactly the present slots: it sends each
      slot's device to that slot's LED and knows no other device. */
  lemma {:induction false} TargetsExact(slots: seq<Slot>, n: nat)
    requires n <= |slots| && DistinctDevs(slots, n)
    ensures forall i :: 0 <= i < n && slots[i].present ==>
              slots[i].dev in Targets(slots, n) && Targets(slots, n)[slots[i].dev] == slots[i].ledId
    ensures forall dev :: dev in Targets(slots, n) ==>
              exists i :: 0 <= i < n && slots[i].present && slots[i].dev == dev
    ensures |Targets(slots, n)| <= n
  {
    if n > 0 {
      TargetsExact(slots, n - 1);
    }
  }

  /** Activity does not matter to the maps. */
  lemma {:induction false} TargetsOfSame(slots: seq<Slot>, slots1: seq<Slot>, n: nat)
    requires n <= |slots| == |slots1|
    requires forall i :: 0 <= i < n ==>
               slots1[i] == slots[i].(active := slots1[i].active, deadline := slots1[i].deadline)
    ensures Targets(slots1, n) == Targets(slots, n)
  {
    if n > 0 {
      TargetsOfSame(slots, slots1, n - 1);
    }
  }

  /** How many of the first `n` slots have a disk. */
  function Present(slots: seq<Slot>, n: nat): nat
    requires n <= |slots|
  {
    if n == 0 then 0 else Present(slots, n - 1) + (if slots[n - 1].present then 1 else 0)
  }

  lemma {:induction false} PresentGrows(slots: seq<Slot>, n: nat, m: nat)
    requires n <= m <= |slots|
    ensures Present(slots, n) <= Present(slots, m)
  {
    if n < m {
      PresentGrows(slots, n, m - 1);
    }
  }

  /** The next slot's device is not mapped yet, and there is room for it. */
  lemma NextTarget(slots: seq<Slot>, count: nat, i: nat)
    requires i < count <= |slots| && count <= MAX_ENTRIES && DistinctDevs(slots, count)
    ensures slots[i].present ==> slots[i].dev !in Targets(slots, i)
    ensures |Targets(slots, i)| < MAX_ENTRIES && |Targets(slots, i).Keys| < MAX_ENTRIES
  {
    TargetsExact(slots, i);
    assert |Targets(slots, i).Keys| == |Targets(slots, i)|;
  }

  /** The maps are exactly the present ones of the first `n` slots. */
  ghost predicate Synced(k: L.Kernel, slots: seq<Slot>, n: nat)
    requires n <= |slots|
  {
    L.Invariant(k) && k.targets == Targets(slots, n) && k.states.Keys == k.targets.Keys
  }

  /** Every target that `steps` sets from position `from` on is in `targets`. */
  ghost predicate SetsOnly(steps: seq<L.Step>, from: nat, targets: map<u32, byte>) {
    forall k :: from <= k < |steps| && steps[k].SetTarget? ==>
      steps[k].dev in targets && targets[steps[k].dev] == steps[k].led
  }

  /** A trace that goes on sets only what both parts set. */
  lemma SetsOnlyGoesOn(before: seq<L.Step>, after: seq<L.Step>, from: nat, t: map<u32, byte>, t1: map<u32, byte>)
    requires from <= |before| && before <= after
    requires SetsOnly(before, from, t) && SetsOnly(after, |before|, t1)
    requires forall dev :: dev in t ==> dev in t1 && t1[dev] == t[dev]
    ensures SetsOnly(after, from, t1)
  {
    forall k | from <= k < |after| && after[k].SetTarget?
      ensures after[k].dev in t1 && t1[after[k].dev] == after[k].led
    {
      assert k < |before| ==> after[k] == before[k];
    }
  }

  lemma SetsOnlySplits(before: seq<L.Step>, after: seq<L.Step>, t: map<u32, byte>)
    requires before <= after && SetsOnly(after, |before|, t)
    ensures SetsOnly(after, 0, t) <==> SetsOnly(before, 0, t)
  {
    assert forall k :: 0 <= k < |before| ==> after[k] == before[k];
  }

  /** One more slot: its target is new, and setting it takes two map operations. */
  lemma SlotSpends(slots: seq<Slot>, count: nat, i: nat, faults: seq<bool>, cleared: nat)
    requires i < count <= |slots|
    ensures var spent, n := cleared + 2 * Present(slots, i), if slots[i].present then 2 else 0;
            && cleared + 2 * Present(slots, i + 1) == spent + n
            && (Clean(faults, cleared + 2 * Present(slots, count)) ==> Clean(faults, spent + n))
            && (Clean(faults, spent) && Clean(Later(faults, spent), n) <==> Clean(faults, spent + n))
            && Later(Later(faults, spent), n) == Later(faults, spent + n)
  {
    hide Clean, Later;
    LaterFails(faults, cleared + 2 * Present(slots, i), if slots[i].present then 2 else 0);
    PresentGrows(slots, i + 1, count);
    if Clean(faults, cleared + 2 * Present(slots, count)) {
      CleanPrefix(faults, cleared + 2 * Present(slots, i + 1), cleared + 2 * Present(slots, count));
    }
  }

  lemma TargetsGrow(slots: seq<Slot>, count: nat, i: nat)
    requires i < count <= |slots| && count <= MAX_ENTRIES && DistinctDevs(slots, count)
    ensures forall dev :: dev in Targets(slots, i) ==>
              dev in Targets(slots, i + 1) && Targets(slots, i + 1)[dev] == Targets(slots, i)[dev]
  {
    NextTarget(slots, count, i);
  }

  lemma NothingPresent(slots: seq<Slot>)
    ensures Targets(slots, 0) == map[] && Present(slots, 0) == 0
  {
  }

  /** Whether the map operation that comes `k` operations from now fails. */
  predicate Fails(faults: seq<bool>, k: nat) {
    k < |faults| && faults[k]
  }

  /** None of the next `n` map operations fails. */
  ghost predicate Clean(faults: seq<bool>, n: nat) {
    forall k :: 0 <= k < n ==> !Fails(faults, k)
  }

  /** The outcomes after the next `n`. */
  function Later(faults: seq<bool>, n: nat): seq<bool> {
    if n <= |faults| then faults[n..] else []
  }

  lemma LaterFails(faults: seq<bool>, n: nat, k: nat)
    ensures Fails(Later(faults, n), k) <==> Fails(faults, n + k)
    ensures Later(Later(faults, n), k) == Later(faults, n + k)
    ensures Clean(faults, n) && Clean(Later(faults, n), k) <==> Clean(faults, n + k)
  {
    if Clean(faults, n) && Clean(Later(faults, n), k) {
      forall j | 0 <= j < n + k ensures !Fails(faults, j) {
        assert j >= n ==> !Fails(Later(faults, n), j - n);
      }
    }
    if Clean(faults, n + k) {
      forall j | 0 <= j < k ensures !Fails(Later(faults, n), j) {
        assert !Fails(faults, n + j);
      }
    }
  }

  lemma CleanPrefix(faults: seq<bool>, n: nat, m: nat)
    requires n <= m && Clean(faults, m)
    ensures Clean(faults, n)
  {
  }

  lemma OneLater(faults: seq<bool>)
    ensures Later(faults, 0) == faults && Later(faults, 1) == if faults == [] then [] else faults[1..]
    ensures Clean(faults, 1) <==> !Fails(faults, 0)
    ensures Clean(faults, 0)
  {
  }

  lemma NoneLater(faults: seq<bool>, n: nat)
    ensures faults == [] ==> Clean(faults, n) && Later(faults, n) == []
  {
  }

  /** The collector and its maps. Every change of `kernel` is a step of
      `DiskLimiter`: one of a CPU running the collector, or one map operation of
      userspace. */
  class BpfRuntime {
    const interval: nat
    const cpus: nat
    var kernel: L.Kernel
    /** Which of the coming map operations fail; none after the list ends. */
    var faults: seq<bool>
    /** What the CPUs do before each of the coming map operations. */
    var schedule: seq<seq<L.Step>>
    /** Every step so far. */
    ghost var trace: seq<L.Step>

    constructor (interval: nat, cpus: nat, faults: seq<bool>, schedule: seq<seq<L.Step>>)
      requires interval > 0
      ensures kernel == L.Booted(interval, cpus) && this.interval == interval && this.cpus == cpus
      ensures this.faults == faults && Safe()
    {
      this.interval, this.cpus, this.faults, this.schedule := interval, cpus, faults, schedule;
      kernel, trace := L.Booted(interval, cpus), [];
    }

    /** The state before step `k` of the trace. */
    ghost function Before(k: nat): L.Kernel
      requires k <= |trace|
      reads this`trace
    {
      L.Run(L.Booted(interval, cpus), trace[..k])
    }

    /** `kernel` is what the trace led to. */
    ghost predicate Traced()
      reads this`kernel, this`trace
    {
      interval > 0 && kernel == Before(|trace|)
    }

    /** At no point of the trace was there a target without a state. */
    ghost predicate Safe()
      reads this`kernel, this`trace
    {
      Traced() && forall k :: 0 <= k <= |trace| ==> Contained(Before(k))
    }

    ghost predicate Extends(before: seq<L.Step>)
      reads this`trace
    {
      before <= trace
    }

    method Perform(step: L.Step)
      requires Traced()
      modifies this`kernel, this`trace
      ensures Traced() && kernel == L.Do(old(kernel), step) && trace == old(trace) + [step]
      ensures Safe() <==> old(Safe()) && Contained(kernel)
    {
      hide L.Do, Contained;
      ghost var before := trace;
      kernel := L.Do(kernel, step);
      trace := trace + [step];
      assert trace[..|before|] == before == before[..|before|] && trace[..|trace|] == trace;
      forall k | 0 <= k <= |before| ensures Before(k) == old(Before(k)) {
        assert trace[..k] == before[..k];
      }
    }

    /** The CPUs run the collector for a while. */
    method Interfere()
      requires Traced()
      modifies this`kernel, this`trace, this`schedule
      ensures Traced() && Extends(old(trace)) && SetsOnly(trace, |old(trace)|, map[])
      ensures kernel.targets == old(kernel.targets) && kernel.states == old(kernel.states)
      ensures Safe() <==> old(Safe())
    {
      if schedule == [] {
        return;
      }
      var steps := schedule[0];
      schedule := schedule[1..];
      for k := 0 to |steps|
        invariant Traced() && Extends(old(trace)) && SetsOnly(trace, |old(trace)|, map[])
        invariant kernel.targets == old(kernel.targets) && kernel.states == old(kernel.states)
        invariant Safe() <==> old(Safe())
        modifies this`kernel, this`trace
      {
        if L.IsCpuStep(steps[k]) {
          L.CpuStepKeepsMaps(kernel, steps[k]);
          assert Safe() ==> Contained(Before(|trace|));
          Perform(steps[k]);
        }
      }
    }

    /** The CPUs have run; takes the outcome of the next map operation. */
    method NextOutcome() returns (fails: bool)
      requires Traced()
      modifies this
      ensures Traced() && Extends(old(trace)) && SetsOnly(trace, |old(trace)|, map[])
      ensures kernel.targets == old(kernel.targets) && kernel.states == old(kernel.states)
      ensures Safe() <==> old(Safe())
      ensures Safe() ==> Contained(kernel)
      ensures fails == Fails(old(faults), 0)
      ensures faults == if old(faults) == [] then [] else old(faults)[1..]
    {
      Interfere();
      assert Safe() ==> Contained(Before(|trace|));
      fails := false;
      if faults != [] {
        fails, faults := faults[0], faults[1..];
      }
    }

    /** `bpf_map_delete_elem` on the target map. */
    method DeleteTarget(dev: u32) returns (error: Status)
      requires Safe() && dev in kernel.targets
      modifies this
      ensures error == if Fails(old(faults), 0) then IoError else Ok
      ensures Safe() && Extends(old(trace)) && SetsOnly(trace, |old(trace)|, map[])
      ensures kernel.states == old(kernel.states)
      ensures kernel.targets == if error == Ok then old(kernel.targets) - {dev} else old(kernel.targets)
      ensures faults == if old(faults) == [] then [] else old(faults)[1..]
    {
      hide L.Run, Before;
      var fails := NextOutcome();
      if fails {
        return IoError;
      }
      Perform(L.DeleteTarget(dev));
      error := Ok;
    }

    /** `bpf_map_delete_elem` on the state map. It is safe unless it takes the state
        of a live target. */
    method DeleteState(dev: u32) returns (error: Status)
      requires Safe() && dev in kernel.states
      modifies this
      ensures error == if Fails(old(faults), 0) then IoError else Ok
      ensures Traced() && Extends(old(trace)) && SetsOnly(trace, |old(trace)|, map[])
      ensures kernel.targets == old(kernel.targets)
      ensures kernel.states.Keys == if error == Ok then old(kernel.states.Keys) - {dev} else old(kernel.states.Keys)
      ensures Safe() <==> error != Ok || dev !in old(kernel.targets)
      ensures faults == if old(faults) == [] then [] else old(faults)[1..]
    {
      hide L.Run, Before;
      var fails := NextOutcome();
      if fails {
        return IoError;
      }
      ghost var keys := kernel.states.Keys;
      Perform(L.DeleteState(dev));
      assert kernel.states.Keys == keys - {dev};
      error := Ok;
    }

    method ClearTargets() returns (error: Status)
      requires Safe()
      modifies this
      ensures error == Ok || error == IoError
      ensures Safe() && Extends(old(trace)) && SetsOnly(trace, |old(trace)|, map[])
      ensures kernel.states == old(kernel.states) && kernel.targets.Keys <= old(kernel.targets.Keys)
      ensures error == Ok ==> kernel.targets == map[]
      ensures error == Ok <==> Clean(old(faults), |old(kernel.targets.Keys)|)
      ensures error == Ok ==> faults == Later(old(faults), |old(kernel.targets.Keys)|)
    {
      hide L.Do, L.Run, Before, Safe, Later, Clean;
      OneLater(faults);
      ghost var done := 0;
      while kernel.targets != map[]
        invariant Safe() && Extends(old(trace)) && SetsOnly(trace, |old(trace)|, map[])
        invariant kernel.states == old(kernel.states) && kernel.targets.Keys <= old(kernel.targets.Keys)
        invariant done + |kernel.targets.Keys| == |old(kernel.targets.Keys)|
        invariant Clean(old(faults), done) && faults == Later(old(faults), done)
        decreases |kernel.targets.Keys|
      {
        ghost var before := kernel.targets;
        var key :| key in kernel.targets;
        OneLater(faults);
        LaterFails(old(faults), done, 1);
        if Clean(old(faults), |old(kernel.targets.Keys)|) {
          CleanPrefix(old(faults), done + 1, |old(kernel.targets.Keys)|);
        }
        error := DeleteTarget(key);
        if error != Ok {
          return;
        }
        assert kernel.targets.Keys == before.Keys - {key};
        done := done + 1;
      }
      error := Ok;
    }

    method ClearStates() returns (error: Status)
      requires Safe() && kernel.targets == map[]
      modifies this
      ensures error == Ok || error == IoError
      ensures Safe() && Extends(old(trace)) && SetsOnly(trace, |old(trace)|, map[])
      ensures kernel.targets == map[]
      ensures error == Ok ==> kernel.states == map[]
      ensures error == Ok <==> Clean(old(faults), |old(kernel.states.Keys)|)
      ensures error == Ok ==> faults == Later(old(faults), |old(kernel.states.Keys)|)
    {
      hide L.Do, L.Run, Before, Safe, Later, Clean;
      OneLater(faults);
      ghost var done := 0;
      while kernel.states.Keys != {}
        invariant Safe() && Extends(old(trace)) && SetsOnly(trace, |old(trace)|, map[])
        invariant kernel.targets == map[]
        invariant done + |kernel.states.Keys| == |old(kernel.states.Keys)|
        invariant Clean(old(faults), done) && faults == Later(old(faults), done)
        decreases |kernel.states.Keys|
      {
        var key :| key in kernel.states.Keys;
        OneLater(faults);
        LaterFails(old(faults), done, 1);
        if Clean(old(faults), |old(kernel.states.Keys)|) {
          CleanPrefix(old(faults), done + 1, |old(kernel.states.Keys)|);
        }
        error := DeleteState(key);
        if error != Ok {
          return;
        }
        done := done + 1;
      }
      assert kernel.states == map[];
      error := Ok;
    }

    method ClearDiskTargets() returns (error: Status)
      requires Safe()
      modifies this
      ensures error == Ok || error == IoError
      ensures Safe() && Extends(old(trace)) && SetsOnly(trace, |old(trace)|, map[])
      ensures error == Ok ==> kernel.targets == map[] && kernel.states == map[]
      ensures var n := |old(kernel.targets.Keys)| + |old(kernel.states.Keys)|;
              && (error == Ok <==> Clean(old(faults), n))
              && (error == Ok ==> faults == Later(old(faults), n))
    {
      hide Clean, Later;
      LaterFails(faults, |kernel.targets.Keys|, |kernel.states.Keys|);
      error := ClearTargets();
      if error != Ok {
        return;
      }
      error := ClearStates();
    }

    /** `bpf_map_update_elem` on the state map. */
    method UpdateState(dev: u32) returns (error: Status)
      requires Safe()
      modifies this
      ensures error == Ok || error == IoError
      ensures Safe() && Extends(old(trace)) && SetsOnly(trace, |old(trace)|, map[])
      ensures kernel.targets == old(kernel.targets)
      ensures kernel.states.Keys == if error == Ok then old(kernel.states.Keys) + {dev} else old(kernel.states.Keys)
      ensures faults == if old(faults) == [] then [] else old(faults)[1..]
      ensures dev in old(kernel.states) || |old(kernel.states.Keys)| < MAX_ENTRIES ==>
                (error == Ok <==> !Fails(old(faults), 0))
    {
      hide L.Run, Before;
      var fails := NextOutcome();
      if fails || (dev !in kernel.states && |kernel.states.Keys| >= MAX_ENTRIES) {
        return IoError;
      }
      Perform(L.SetState(dev));
      error := Ok;
    }

    /** `bpf_map_update_elem` on the target map. */
    method UpdateTarget(dev: u32, led: byte) returns (error: Status)
      requires Safe() && dev in kernel.states
      modifies this
      ensures error == Ok || error == IoError
      ensures Safe() && Extends(old(trace)) && SetsOnly(trace, |old(trace)|, map[dev := led])
      ensures kernel.states == old(kernel.states)
      ensures kernel.targets == if error == Ok then old(kernel.targets)[dev := led] else old(kernel.targets)
      ensures faults == if old(faults) == [] then [] else old(faults)[1..]
      ensures dev in old(kernel.targets) || |old(kernel.targets.Keys)| < MAX_ENTRIES ==>
                (error == Ok <==> !Fails(old(faults), 0))
    {
      hide L.Run, Before;
      var fails := NextOutcome();
      if fails || (dev !in kernel.targets && |kernel.targets.Keys| >= MAX_ENTRIES) {
        return IoError;
      }
      Perform(L.SetTarget(dev, led));
      error := Ok;
    }

    /** The target update, and the retreat when it fails. */
    method SetTargetOrRetreat(dev: u32, led: byte) returns (error: Status)
      requires Safe() && dev in kernel.states
      modifies this
      ensures error == Ok || error == IoError
      ensures Traced() && Extends(old(trace)) && SetsOnly(trace, |old(trace)|, map[dev := led])
      ensures kernel.targets == if error == Ok then old(kernel.targets)[dev := led] else old(kernel.targets)
      ensures kernel.states.Keys == if error == Ok || Fails(old(faults), 1) then old(kernel.states.Keys)
                                    else old(kernel.states.Keys) - {dev}
      ensures dev in old(kernel.targets) || |old(kernel.targets.Keys)| < MAX_ENTRIES ==>
                (error == Ok <==> !Fails(old(faults), 0))
      ensures Safe() <==> error == Ok || Fails(old(faults), 1) || dev !in old(kernel.targets)
      ensures old(faults) == [] ==> faults == []
      ensures error == Ok ==> faults == Later(old(faults), 1)
    {
      hide L.Do, L.Run, Before;
      error := UpdateTarget(dev, led);
      if error != Ok {
        var _ := DeleteState(dev);
      }
    }

    /** State first, then target; a failed target takes its state back. For a
        device that is not a target yet that is safe. For one that is, it leaves
        the old target without a state exactly when the state update succeeds, the
        target update fails and the deletion succeeds. */
    method SetDiskTarget(dev: u32, led: byte) returns (error: Status)
      requires Safe()
      modifies this
      ensures error == Ok || error == IoError
      ensures Traced() && Extends(old(trace)) && SetsOnly(trace, |old(trace)|, map[dev := led])
      ensures error == Ok ==> kernel.targets == old(kernel.targets)[dev := led]
                              && kernel.states.Keys == old(kernel.states.Keys) + {dev}
      ensures error != Ok ==>
                && kernel.targets == old(kernel.targets)
                && forall d :: d != dev ==> (d in kernel.states.Keys <==> d in old(kernel.states.Keys))
      ensures dev !in old(kernel.targets) ==> Safe()
      ensures dev in old(kernel.targets) ==>
                && (error == Ok <==> !Fails(old(faults), 0) && !Fails(old(faults), 1))
                && (Safe() <==> Fails(old(faults), 0) || !Fails(old(faults), 1) || Fails(old(faults), 2))
      ensures old(faults) == [] ==> faults == []
      ensures |old(kernel.targets.Keys)| < MAX_ENTRIES && |old(kernel.states.Keys)| < MAX_ENTRIES ==>
                (error == Ok <==> Clean(old(faults), 2))
      ensures error == Ok ==> faults == Later(old(faults), 2)
    {
      hide L.Do, L.Run, Before;
      SafeNow();
      OneLater(faults);
      LaterFails(faults, 1, 1);
      OneLater(Later(faults, 1));
      error := UpdateState(dev);
      if error != Ok {
        return;
      }
      error := SetTargetOrRetreat(dev, led);
    }

    lemma WholeTrace()
      requires Traced()
      ensures kernel == L.Run(L.Booted(interval, cpus), trace)
    {
      assert trace[..|trace|] == trace;
    }

    lemma KernelOk()
      requires Traced()
      ensures L.Invariant(kernel)
    {
      L.RunKeeps(interval, cpus, trace);
      assert trace[..|trace|] == trace;
    }

    lemma SafeNow()
      requires Safe()
      ensures Contained(kernel)
    {
      assert Contained(Before(|trace|));
    }
  }
}
