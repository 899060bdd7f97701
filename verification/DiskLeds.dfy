/** Disk activity policy: one state machine per slot, one shared timer. */
module DiskLeds {
  import opened Types
  import opened Mcu
  import opened LedController
  import opened Settings
  import opened Timers
  import opened Discovery
  import opened KernelMaps
  import L = DiskLimiter

  function LedOf(i: nat): byte
    requires i < DISK_COUNT
  {
    LED_DISK_FIRST as int + i
  }

  datatype Disks = Disks(slots: seq<Slot>, count: nat, timer: Timer) {
    predicate Valid() {
      && |slots| == DISK_COUNT && count <= DISK_COUNT
      && forall i :: 0 <= i < DISK_COUNT ==> slots[i].ledId == LedOf(i)
    }
  }

  // ----- policy functions -----

  /** Colour, brightness, then on or off: stop at the first error. */
  function Steadied(c: Controller, s: Settings, led: byte): (r: (Controller, Status))
    requires c.Valid() && led >= LED_DISK_FIRST
    ensures r.0.Valid()
  {
    var (c1, e1) := ColorSet(c, led, DiskColor(s, led as int - LED_DISK_FIRST as int));
    if e1 != Ok then (c1, e1)
    else
      var (c2, e2) := BrightnessSet(c1, led, Low8(s.diskBrightness));
      if e2 != Ok then (c2, e2)
      else OnSet(c2, led, s.diskInvert)
  }

  /** Earliest active deadline among the first `n` slots, or the largest 64-bit
      value when none is active. */
  function Earliest(slots: seq<Slot>, n: nat): u64
    requires n <= |slots|
  {
    if n == 0 then U64_MAX
    else
      var e := Earliest(slots, n - 1);
      if slots[n - 1].active && slots[n - 1].deadline < e then slots[n - 1].deadline else e
  }

  function Rearmed(d: Disks): (r: (Disks, Status))
    requires d.Valid()
    ensures r.0.Valid()
  {
    var e := Earliest(d.slots, d.count);
    var (t, error) := if e == U64_MAX then TimeSet(d.timer, 0, 0, 0)
                      else TimeSet(d.timer, 0, e / NS_PER_SEC, e % NS_PER_SEC);
    (d.(timer := t), error)
  }

  /** Starting the activity blink of an idle slot. */
  function BlinkStarted(d: Disks, c: Controller, s: Settings, i: nat): (r: (Disks, Controller))
    requires d.Valid() && c.Valid() && i < d.count
    ensures r.0.Valid() && r.1.Valid() && r.0.count == d.count
  {
    var (on, off) := BlinkTimes(s);
    var (c1, e) := BlinkSet(c, LedOf(i), Low16(on), Low16(off), false);
    if e != Ok then (d, Invalidated(c1, LedOf(i)))
    else (d.(slots := d.slots[i := d.slots[i].(active := true)]), c1)
  }

  function ActivityHandled(d: Disks, c: Controller, s: Settings, led: byte, now: Time)
    : (r: (Disks, Controller, Status))
    requires d.Valid() && c.Valid()
    ensures r.0.Valid() && r.1.Valid()
  {
    if led < LED_DISK_FIRST then (d, c, Invalid)
    else
      var i := led as int - LED_DISK_FIRST as int;
      if i >= d.count || !d.slots[i].present then (d, c, Ok)
      else
        var d0 := d.(slots := d.slots[i := d.slots[i].(deadline := Deadline(s, now))]);
        var (d1, c1) := if d0.slots[i].active then (d0, c) else BlinkStarted(d0, c, s, i);
        if d1.slots[i].active then var (d2, e) := Rearmed(d1); (d2, c1, e) else (d1, c1, Ok)
  }

  /** One round of the timer loop. */
  function SlotExpired(d: Disks, c: Controller, s: Settings, now: Time, i: nat): (r: (Disks, Controller))
    requires d.Valid() && c.Valid() && i < d.count
    ensures r.0.Valid() && r.1.Valid() && r.0.count == d.count
  {
    var slot := d.slots[i];
    if !slot.active || slot.deadline > now then (d, c)
    else
      var (c1, e) := Steadied(c, s, slot.ledId);
      (d.(slots := d.slots[i := slot.(active := false, deadline := 0)]),
       if e == Ok then c1 else Invalidated(c1, slot.ledId))
  }

  /** The timer loop after its first `n` rounds. */
  function SlotsExpired(d: Disks, c: Controller, s: Settings, now: Time, n: nat): (r: (Disks, Controller))
    requires d.Valid() && c.Valid() && n <= d.count
    ensures r.0.Valid() && r.1.Valid() && r.0.count == d.count
  {
    if n == 0 then (d, c)
    else
      var (d1, c1) := SlotsExpired(d, c, s, now, n - 1);
      SlotExpired(d1, c1, s, now, n - 1)
  }

  function TimerHandled(d: Disks, c: Controller, s: Settings, now: Time): (r: (Disks, Controller, Status))
    requires d.Valid() && c.Valid()
    ensures r.0.Valid() && r.1.Valid()
  {
    var (d1, c1) := SlotsExpired(d.(timer := ExpirationRead(d.timer)), c, s, now, d.count);
    var (d2, e) := Rearmed(d1);
    (d2, c1, e)
  }

  /** The device behind a slot is not the one recorded for it. */
  predicate Replaced(before: Slot, after: Slot) {
    before.present != after.present || before.dev != after.dev
  }

  /** One round of a rescan. */
  function SlotRescanned(d: Disks, c: Controller, s: Settings, found: Slot, i: nat)
    : (r: (Disks, Controller, Status))
    requires d.Valid() && c.Valid() && i < d.count
    ensures r.0.Valid() && r.1.Valid() && r.0.count == d.count
  {
    var slot := found.(ledId := LedOf(i));
    if !Replaced(d.slots[i], slot) then (d, c, Ok)
    else
      var c1 := Invalidated(c, slot.ledId);
      var (c2, e) := if slot.present then Steadied(c1, s, slot.ledId) else OnSet(c1, slot.ledId, false);
      (d.(slots := d.slots[i := slot]), c2, e)
  }

  /** A rescan after its first `n` rounds, with the first error. */
  function SlotsRescanned(d: Disks, c: Controller, s: Settings, found: seq<Slot>, n: nat)
    : (r: (Disks, Controller, Status))
    requires d.Valid() && c.Valid() && n <= d.count && |found| == DISK_COUNT
    ensures r.0.Valid() && r.1.Valid() && r.0.count == d.count
  {
    if n == 0 then (d, c, Ok)
    else
      var (d1, c1, e1) := SlotsRescanned(d, c, s, found, n - 1);
      var (d2, c2, e2) := SlotRescanned(d1, c1, s, found[n - 1], n - 1);
      (d2, c2, if e1 == Ok then e2 else e1)
  }

  /** `entries` is None when the directory cannot be opened. */
  function Rescanned(d: Disks, c: Controller, s: Settings, entries: Option<seq<BlockEntry>>)
    : (r: (Disks, Controller, Status))
    requires d.Valid() && c.Valid()
    ensures r.0.Valid() && r.1.Valid()
  {
    if entries.None? then (d, c, IoError)
    else SlotsRescanned(d, c, s, Discovered(entries.value, d.count), d.count)
  }

  /** Before the first rescan every slot claims a device number that no absent
      slot has, so that the rescan reaches all of them. */
  function Fresh(count: nat): (d: Disks)
    requires count <= DISK_COUNT
    ensures d.Valid()
  {
    Disks(seq(DISK_COUNT, i requires 0 <= i < DISK_COUNT => Slot(LedOf(i), false, false, U32_MAX, 0)),
          count, Disarmed)
  }

  // ----- the invariant -----

  /** The cache entry of a slot's LED says what the policy wants, wherever it
      says anything; for an active slot it is known to. */
  ghost predicate SlotPolicy(slot: Slot, e: LedCache, s: Settings, i: nat) {
    && (slot.active ==>
          && slot.present && 0 < slot.deadline < U64_MAX
          && e.mode == ModeBlink && (e.onMs as int, e.offMs as int) == (BlinkTimes(s).0 as int, BlinkTimes(s).1 as int))
    && (!slot.active && e.mode != ModeUnknown ==>
          e.mode == if slot.present && s.diskInvert then ModeOn else ModeOff)
    && (e.colorValid ==> slot.present && e.color == DiskColor(s, i))
    && (e.brightnessValid ==> slot.present && e.brightness == s.diskBrightness)
  }

  /** The last LED update of the slot got through completely. */
  ghost predicate Known(slot: Slot, e: LedCache) {
    e.mode != ModeUnknown && (slot.present ==> e.colorValid && e.brightnessValid)
  }

  ghost predicate Policy(d: Disks, c: Controller, s: Settings)
    requires d.Valid() && c.Valid()
  {
    forall i :: 0 <= i < d.count ==> SlotPolicy(d.slots[i], c.cache[LedOf(i)], s, i)
  }

  ghost predicate AllKnown(d: Disks, c: Controller)
    requires d.Valid() && c.Valid()
  {
    forall i :: 0 <= i < d.count ==> Known(d.slots[i], c.cache[LedOf(i)])
  }

  /** No active deadline is forgotten. */
  ghost predicate Watched(d: Disks)
    requires d.Valid()
  {
    forall i :: 0 <= i < d.count && d.slots[i].active ==> WakesBy(d.timer, d.slots[i].deadline)
  }

  ghost predicate Consistent(d: Disks, c: Controller, s: Settings) {
    && d.Valid() && Coherent(c) && Usable(s)
    && Policy(d, c, s)
  }

  ghost predicate Invariant(d: Disks, c: Controller, s: Settings) {
    Consistent(d, c, s) && Watched(d)
  }

  // ----- what the device shows -----

  ghost predicate ModeShown(slot: Slot, led: Led, s: Settings) {
    if slot.active then
      && led.mode == Blink
      && led.onTime as int == BlinkTimes(s).0 as int
      && led.cycle as int == s.diskIntervalMs as int
    else led.mode == if slot.present && s.diskInvert then On else Off
  }

  /** Complete agreement of one device LED with the policy. */
  ghost predicate Shows(slot: Slot, led: Led, s: Settings, i: nat) {
    && ModeShown(slot, led, s)
    && (slot.present ==> led.color == DiskColor(s, i) && led.brightness == s.diskBrightness)
  }

  /** In every consistent state, whatever faults led to it: the LED of an active
      slot really blinks, the LED of a slot whose last update got through shows
      the policy, and a slot's colour, brightness or mode can be wrong on the
      device only where the cache knows that it does not know. */
  lemma DeviceShowsPolicy(d: Disks, c: Controller, s: Settings, i: nat)
    requires Consistent(d, c, s) && i < d.count
    ensures var slot, e, led := d.slots[i], c.cache[LedOf(i)], c.bus.leds[LedOf(i)];
            && (slot.active || e.mode != ModeUnknown ==> ModeShown(slot, led, s))
            && (Known(slot, e) ==> Shows(slot, led, s, i))
            && (e.colorValid ==> led.color == DiskColor(s, i))
            && (e.brightnessValid ==> led.brightness == s.diskBrightness)
  {
    TimingIsExact(s, 0);
    assert SlotPolicy(d.slots[i], c.cache[LedOf(i)], s, i);
    assert CoherentEntry(c.cache[LedOf(i)], c.bus.leds[LedOf(i)]);
  }

  // ----- every operation keeps it -----

  /** The steady entry of a present slot. */
  ghost predicate SteadyEntry(e: LedCache, s: Settings, i: nat) {
    && e.colorValid && e.color == DiskColor(s, i)
    && e.brightnessValid && e.brightness == s.diskBrightness
    && e.mode == if s.diskInvert then ModeOn else ModeOff
  }

  /** Three setters in a row, each described by how it ended. */
  lemma ThreeSetters(c: Controller, s: Settings, i: nat, c1: Controller, c2: Controller, c3: Controller,
                     e1: Status, e2: Status, e3: Status)
    requires Coherent(c) && Usable(s) && i < DISK_COUNT
    requires Ends(c, Color(LedOf(i), DiskColor(s, i)), c1, e1)
    requires if e1 == Ok then c1.Valid() && Ends(c1, Brightness(LedOf(i), Low8(s.diskBrightness)), c2, e2)
             else c2 == c1 && e2 == e1
    requires if e2 == Ok then c2.Valid() && Ends(c2, OnOff(LedOf(i), s.diskInvert), c3, e3)
             else c3 == c2 && e3 == e2
    ensures var led := LedOf(i);
            && Coherent(c3) && OnlyTouches(c, c3, led)
            && (e3 == Ok ==> SteadyEntry(c3.cache[led], s, i))
            && (e3 != Ok ==> c3.cache[led] == EMPTY_CACHE)
            && (c.bus.Healthy() ==> e3 == Ok && c3.bus.Healthy())
  {
    EndsCoherent(c, Color(LedOf(i), DiskColor(s, i)), c1, e1);
    if e1 == Ok {
      EndsCoherent(c1, Brightness(LedOf(i), Low8(s.diskBrightness)), c2, e2);
      if e2 == Ok {
        EndsCoherent(c2, OnOff(LedOf(i), s.diskInvert), c3, e3);
      }
    }
  }

  /** The device LED is steady: it has the override of its disk if there is one and
      the colour of all disks if not, the disk brightness, and is lit exactly when
      activity is to be the dark part. */
  ghost predicate SteadyLed(led: Led, s: Settings, i: nat) {
    && led.color == (if i in s.diskColors then s.diskColors[i] else s.diskColor)
    && led.brightness == s.diskBrightness
    && led.mode == if s.diskInvert then On else Off
  }

  /** `set_steady`: one success repairs any fault history of its LED; a failure
      drops the whole entry; no other LED is involved. */
  lemma SteadiedEffect(c: Controller, s: Settings, i: nat)
    requires Coherent(c) && Usable(s) && i < DISK_COUNT
    ensures var led := LedOf(i); var (c1, e) := Steadied(c, s, led);
            && Coherent(c1) && OnlyTouches(c, c1, led)
            && (e == Ok ==> SteadyEntry(c1.cache[led], s, i) && SteadyLed(c1.bus.leds[led], s, i))
            && (e != Ok ==> c1.cache[led] == EMPTY_CACHE)
            && (c.bus.Healthy() ==> e == Ok && c1.bus.Healthy())
  {
    hide StatusChanged;
    var led := LedOf(i);
    var (c1, e1) := ColorSet(c, led, DiskColor(s, i));
    ColorEnds(c, led, DiskColor(s, i));
    var (c2, e2) := if e1 == Ok then BrightnessSet(c1, led, Low8(s.diskBrightness)) else (c1, e1);
    BrightnessEnds(c1, led, Low8(s.diskBrightness));
    var (c3, e3) := if e2 == Ok then OnSet(c2, led, s.diskInvert) else (c2, e2);
    OnEnds(c2, led, s.diskInvert);
    ThreeSetters(c, s, i, c1, c2, c3, e1, e2, e3);
    assert CoherentEntry(c3.cache[led], c3.bus.leds[led]);
  }

  /** An operation on slot `i` that leaves the slot and its entry in order
      leaves everything in order. */
  lemma OneSlot(d: Disks, c: Controller, d1: Disks, c1: Controller, s: Settings, i: nat)
    requires Consistent(d, c, s) && d1.Valid() && i < d.count == d1.count
    requires Coherent(c1) && OnlyTouches(c, c1, LedOf(i))
    requires forall j :: 0 <= j < DISK_COUNT && j != i ==> d1.slots[j] == d.slots[j]
    requires SlotPolicy(d1.slots[i], c1.cache[LedOf(i)], s, i)
    ensures Consistent(d1, c1, s)
    ensures AllKnown(d, c) && Known(d1.slots[i], c1.cache[LedOf(i)]) ==> AllKnown(d1, c1)
  {
    forall j | 0 <= j < d.count && j != i
      ensures c1.cache[LedOf(j)] == c.cache[LedOf(j)]
    {
      assert LedOf(j) != LedOf(i);
    }
  }

  // ----- the shared timer -----

  lemma {:induction false} EarliestIsMin(slots: seq<Slot>, n: nat)
    requires n <= |slots|
    ensures forall i :: 0 <= i < n && slots[i].active ==> Earliest(slots, n) <= slots[i].deadline
    ensures Earliest(slots, n) != U64_MAX ==>
              exists i :: 0 <= i < n && slots[i].active && slots[i].deadline == Earliest(slots, n)
  {
    if n > 0 {
      EarliestIsMin(slots, n - 1);
    }
  }

  /** Slot `i` has the earliest deadline of all active slots. */
  ghost predicate IsEarliest(d: Disks, i: nat)
    requires d.Valid()
  {
    && i < d.count && d.slots[i].active
    && forall j :: 0 <= j < d.count && d.slots[j].active ==> d.slots[i].deadline <= d.slots[j].deadline
  }

  /** The timer is armed for the exact minimum, or disarmed when nothing is
      active. */
  ghost predicate ArmedExactly(d: Disks)
    requires d.Valid()
  {
    if exists i :: 0 <= i < d.count && d.slots[i].active
    then exists i :: 0 <= i < d.count && IsEarliest(d, i) && d.timer == Armed(d.slots[i].deadline)
    else d.timer == Disarmed
  }

  ghost predicate DeadlinesSane(d: Disks)
    requires d.Valid()
  {
    forall i :: 0 <= i < d.count && d.slots[i].active ==> 0 < d.slots[i].deadline < U64_MAX
  }

  /** Arming cannot fail, and arms for the exact minimum. */
  lemma RearmedExactly(d: Disks)
    requires d.Valid() && DeadlinesSane(d)
    ensures var (d1, e) := Rearmed(d);
            e == Ok && d1 == d.(timer := d1.timer) && ArmedExactly(d1) && Watched(d1)
  {
    EarliestIsMin(d.slots, d.count);
    var (d1, e) := Rearmed(d);
    var m := Earliest(d.slots, d.count);
    if m != U64_MAX {
      var i :| 0 <= i < d.count && d.slots[i].active && d.slots[i].deadline == m;
      assert IsEarliest(d1, i);
      assert m / NS_PER_SEC * NS_PER_SEC + m % NS_PER_SEC == m;
    }
  }

  // ----- activity -----

  /** The slot a disk event is about, if it is about one. */
  ghost predicate Concerns(d: Disks, led: byte)
    requires d.Valid()
  {
    LED_DISK_FIRST <= led < LED_DISK_FIRST + d.count && d.slots[led - LED_DISK_FIRST].present
  }

  lemma BlinkStartedEffect(d: Disks, c: Controller, s: Settings, i: nat)
    requires Consistent(d, c, s) && i < d.count && d.slots[i].present && !d.slots[i].active
    requires 0 < d.slots[i].deadline < U64_MAX
    ensures var (d1, c1) := BlinkStarted(d, c, s, i);
            && Consistent(d1, c1, s)
            && OnlyTouches(c, c1, LedOf(i))
            && d1 == d.(slots := d.slots[i := d.slots[i].(active := d1.slots[i].active)])
            && (!d1.slots[i].active ==> c1.cache[LedOf(i)] == EMPTY_CACHE)
            && (c.bus.Healthy() ==> c1.bus.Healthy())
            && (d1.slots[i].active <==> Acknowledged(c.bus.faults, RETRY_COUNT))
            && c1.bus.faults == Rest(c.bus.faults, RETRY_COUNT)
            && (d1.slots[i].active && AllKnown(d, c) ==> AllKnown(d1, c1))
  {
    hide StatusChanged, Acknowledged, Rest;
    TimingIsExact(s, 0);
    var led := LedOf(i);
    var (on, off) := BlinkTimes(s);
    var call := Flash(led, Low16(on), Low16(off), false);
    var (c1, e) := BlinkSet(c, led, Low16(on), Low16(off), false);
    BlinkEnds(c, led, Low16(on), Low16(off), false);
    EndsCoherent(c, call, c1, e);
    assert SlotPolicy(d.slots[i], c.cache[led], s, i);
    PerformOutcome(c, call);
    var (d2, c2) := BlinkStarted(d, c, s, i);
    OneSlot(d, c, d2, c2, s, i);
  }

  /** Activity on a slot: its deadline moves to `now + hold`; it is active
      afterwards exactly when it was before or one of the next five attempts is
      acknowledged, and otherwise its cache entry is dropped; no other slot
      changes; the timer is exact. */
  lemma ActivityKeeps(d: Disks, c: Controller, s: Settings, led: byte, now: Time)
    requires Invariant(d, c, s)
    ensures var (d1, c1, e) := ActivityHandled(d, c, s, led, now);
            && Invariant(d1, c1, s) && d1.count == d.count
            && (c.bus.Healthy() ==> c1.bus.Healthy())
            && (c.bus.Healthy() && AllKnown(d, c) ==> AllKnown(d1, c1))
            && OnlyTouches(c, c1, led)
            && (!Concerns(d, led) ==> d1 == d && c1 == c && e == if led < LED_DISK_FIRST then Invalid else Ok)
            && (Concerns(d, led) ==>
                  var i := led as int - LED_DISK_FIRST as int;
                  && e == Ok
                  && (forall j :: 0 <= j < d.count && j != i ==> d1.slots[j] == d.slots[j])
                  && d1.slots[i] == d.slots[i].(active := d1.slots[i].active, deadline := Deadline(s, now))
                  && (d1.slots[i].active <==> d.slots[i].active || Acknowledged(c.bus.faults, RETRY_COUNT))
                  && c1.bus.faults == (if d.slots[i].active then c.bus.faults else Rest(c.bus.faults, RETRY_COUNT))
                  && (d1.slots[i].active && AllKnown(d, c) ==> AllKnown(d1, c1))
                  && (!d1.slots[i].active ==> c1.cache[led] == EMPTY_CACHE)
                  && (d1.slots[i].active ==> ArmedExactly(d1)))
  {
    if Concerns(d, led) {
      ActivityOnSlot(d, c, s, led as int - LED_DISK_FIRST as int, now);
    }
  }

  lemma ActivityOnSlot(d: Disks, c: Controller, s: Settings, i: nat, now: Time)
    requires Invariant(d, c, s) && i < d.count && d.slots[i].present
    ensures var (d1, c1, e) := ActivityHandled(d, c, s, LedOf(i), now);
            && Invariant(d1, c1, s) && d1.count == d.count
            && (c.bus.Healthy() ==> c1.bus.Healthy() && d1.slots[i].active)
            && (d1.slots[i].active && AllKnown(d, c) ==> AllKnown(d1, c1))
            && OnlyTouches(c, c1, LedOf(i))
            && e == Ok
            && d1.slots == d.slots[i := d.slots[i].(active := d1.slots[i].active, deadline := Deadline(s, now))]
            && (d1.slots[i].active <==> d.slots[i].active || Acknowledged(c.bus.faults, RETRY_COUNT))
            && c1.bus.faults == (if d.slots[i].active then c.bus.faults else Rest(c.bus.faults, RETRY_COUNT))
            && (!d1.slots[i].active ==> c1.cache[LedOf(i)] == EMPTY_CACHE)
            && (d1.slots[i].active ==> ArmedExactly(d1))
  {
    hide BlinkStarted, Rearmed, ArmedExactly, Coherent, Watched, Policy, AllKnown, Usable, Rest;
    var d0 := d.(slots := d.slots[i := d.slots[i].(deadline := Deadline(s, now))]);
    DeadlineMoved(d, c, s, i, now);
    if d.slots[i].active {
      RearmedKeeps(d0, c, s);
    } else {
      BlinkStartedEffect(d0, c, s, i);
      var (d1, c1) := BlinkStarted(d0, c, s, i);
      if d1.slots[i].active {
        RearmedKeeps(d1, c1, s);
      } else {
        IdleSlotStaysWatched(d, d1, i);
      }
    }
  }

  /** Arming only touches the timer. */
  lemma RearmedKeeps(d: Disks, c: Controller, s: Settings)
    requires Consistent(d, c, s)
    ensures var (d1, e) := Rearmed(d);
            && e == Ok && d1 == d.(timer := d1.timer) && ArmedExactly(d1) && Invariant(d1, c, s)
            && (AllKnown(d, c) ==> AllKnown(d1, c))
  {
    hide Rearmed, ArmedExactly, CoherentEntry, SlotPolicy, Known, Usable;
    PolicyBoundsDeadlines(d, c, s);
    RearmedExactly(d);
  }

  lemma DeadlineMoved(d: Disks, c: Controller, s: Settings, i: nat, now: Time)
    requires Consistent(d, c, s) && i < d.count && d.slots[i].present
    ensures 0 < Deadline(s, now) < U64_MAX
    ensures var d0 := d.(slots := d.slots[i := d.slots[i].(deadline := Deadline(s, now))]);
            Consistent(d0, c, s) && (AllKnown(d, c) ==> AllKnown(d0, c))
  {
    TimingIsExact(s, now);
    assert SlotPolicy(d.slots[i], c.cache[LedOf(i)], s, i);
  }

  lemma IdleSlotStaysWatched(d: Disks, d1: Disks, i: nat)
    requires d.Valid() && d1.Valid() && Watched(d) && i < d.count == d1.count && d1.timer == d.timer
    requires forall j :: 0 <= j < d.count && j != i ==> d1.slots[j] == d.slots[j]
    requires !d1.slots[i].active
    ensures Watched(d1)
  {
  }

  lemma PolicyBoundsDeadlines(d: Disks, c: Controller, s: Settings)
    requires Consistent(d, c, s)
    ensures DeadlinesSane(d)
  {
    forall i | 0 <= i < d.count && d.slots[i].active
      ensures 0 < d.slots[i].deadline < U64_MAX
    {
      assert SlotPolicy(d.slots[i], c.cache[LedOf(i)], s, i);
    }
  }

  // ----- timer -----

  ghost predicate Due(slot: Slot, now: Time) {
    slot.active && slot.deadline <= now
  }

  lemma SlotExpiredKeeps(d: Disks, c: Controller, s: Settings, now: Time, i: nat)
    requires Consistent(d, c, s) && i < d.count
    ensures var (d1, c1) := SlotExpired(d, c, s, now, i);
            && Consistent(d1, c1, s) && OnlyTouches(c, c1, LedOf(i))
            && d1 == d.(slots := d.slots[i := if Due(d.slots[i], now)
                                              then d.slots[i].(active := false, deadline := 0) else d.slots[i]])
            && (c.bus.Healthy() ==> c1.bus.Healthy() && (AllKnown(d, c) ==> AllKnown(d1, c1)))
            && (Due(d.slots[i], now) ==>
                  (Known(d1.slots[i], c1.cache[LedOf(i)]) <==> Steadied(c, s, LedOf(i)).1 == Ok))
            && (c.bus.Healthy() && Due(d.slots[i], now) ==> Known(d1.slots[i], c1.cache[LedOf(i)]))
  {
    var (d1, c1) := SlotExpired(d, c, s, now, i);
    assert SlotPolicy(d.slots[i], c.cache[LedOf(i)], s, i);
    if Due(d.slots[i], now) {
      SteadiedEffect(c, s, i);
      OneSlot(d, c, d1, c1, s, i);
    }
  }

  lemma {:induction false} SlotsExpiredKeeps(d: Disks, c: Controller, s: Settings, now: Time, n: nat)
    requires Consistent(d, c, s) && n <= d.count
    ensures var (d1, c1) := SlotsExpired(d, c, s, now, n);
            && Consistent(d1, c1, s) && d1.timer == d.timer
            && (forall i :: 0 <= i < DISK_COUNT ==>
                  d1.slots[i] == if i < n && Due(d.slots[i], now)
                                 then d.slots[i].(active := false, deadline := 0) else d.slots[i])
            && (forall j :: 0 <= j < LED_DISK_FIRST ==> c1.cache[j] == c.cache[j] && c1.bus.leds[j] == c.bus.leds[j])
            && (c.bus.Healthy() ==> c1.bus.Healthy() && (AllKnown(d, c) ==> AllKnown(d1, c1)))
  {
    hide SlotExpired, Steadied, CoherentEntry, Usable, SlotPolicy, Known;
    if n > 0 {
      SlotsExpiredKeeps(d, c, s, now, n - 1);
      var (d1, c1) := SlotsExpired(d, c, s, now, n - 1);
      SlotExpiredKeeps(d1, c1, s, now, n - 1);
    }
  }

  /** The timer handler turns off exactly the active slots that are due, keeps
      the others as they are, and re-arms for the exact minimum of the rest. */
  lemma TimerKeeps(d: Disks, c: Controller, s: Settings, now: Time)
    requires Invariant(d, c, s)
    ensures var (d1, c1, e) := TimerHandled(d, c, s, now);
            && e == Ok && Invariant(d1, c1, s) && d1.count == d.count && ArmedExactly(d1)
            && (forall i :: 0 <= i < d.count ==>
                  d1.slots[i] == if Due(d.slots[i], now)
                                 then d.slots[i].(active := false, deadline := 0) else d.slots[i])
            && (forall j :: 0 <= j < LED_DISK_FIRST ==> c1.cache[j] == c.cache[j] && c1.bus.leds[j] == c.bus.leds[j])
            && (c.bus.Healthy() ==> c1.bus.Healthy() && (AllKnown(d, c) ==> AllKnown(d1, c1)))
  {
    var d0 := d.(timer := ExpirationRead(d.timer));
    SlotsExpiredKeeps(d0, c, s, now, d.count);
    var (d1, c1) := SlotsExpired(d0, c, s, now, d.count);
    PolicyBoundsDeadlines(d1, c1, s);
    RearmedExactly(d1);
  }

  // ----- when a due LED is restored -----

  predicate ColorKnown(e: LedCache, s: Settings, i: nat) {
    e.colorValid && e.color == DiskColor(s, i)
  }

  predicate BrightnessKnown(e: LedCache, s: Settings) {
    e.brightnessValid && e.brightness == s.diskBrightness
  }

  /** Told before `set_steady` on a blinking LED, from its cache entry and the
      outcomes ahead: the commands for a colour and a brightness that are not
      known are acknowledged, and the on/off command is applied. */
  predicate Restorable(e: LedCache, s: Settings, i: nat, faults: seq<Outcome>) {
    var f1 := if ColorKnown(e, s, i) then faults else Rest(faults, RETRY_COUNT);
    var f2 := if BrightnessKnown(e, s) then f1 else Rest(f1, RETRY_COUNT);
    && (ColorKnown(e, s, i) || Acknowledged(faults, RETRY_COUNT))
    && (BrightnessKnown(e, s) || Acknowledged(f1, RETRY_COUNT))
    && Reached(f2, RETRY_COUNT)
  }

  /** The outcomes left after `set_steady` on a LED whose mode is not the steady
      one; it stops at the first command that is not acknowledged. */
  function SteadiedRest(e: LedCache, s: Settings, i: nat, faults: seq<Outcome>): seq<Outcome> {
    var f1 := if ColorKnown(e, s, i) then faults else Rest(faults, RETRY_COUNT);
    if !ColorKnown(e, s, i) && !Acknowledged(faults, RETRY_COUNT) then f1
    else
      var f2 := if BrightnessKnown(e, s) then f1 else Rest(f1, RETRY_COUNT);
      if !BrightnessKnown(e, s) && !Acknowledged(f1, RETRY_COUNT) then f2 else Rest(f2, RETRY_COUNT)
  }

  /** The setters that restore a blinking LED, as outcomes on the device. */
  lemma ColorOutcome(c: Controller, s: Settings, i: nat)
    requires Coherent(c) && i < DISK_COUNT && c.cache[LedOf(i)].mode == ModeBlink
    ensures var led, hit := LedOf(i), ColorKnown(c.cache[LedOf(i)], s, i);
            var (c1, e) := ColorSet(c, led, DiskColor(s, i));
            && Coherent(c1) && c1.bus.leds[led].mode == Blink
            && (e == Ok <==> hit || Acknowledged(c.bus.faults, RETRY_COUNT))
            && c1.bus.faults == (if hit then c.bus.faults else Rest(c.bus.faults, RETRY_COUNT))
            && (e == Ok ==> c1.bus.leds[led].color == DiskColor(s, i)
                            && c1.cache[led] == c.cache[led].(color := DiskColor(s, i), colorValid := true))
  {
    hide ColorSet, StatusChanged, Acknowledged, Reached, Rest;
    var call := Color(LedOf(i), DiskColor(s, i));
    assert CoherentEntry(c.cache[LedOf(i)], c.bus.leds[LedOf(i)]);
    PerformCoherent(c, call);
    PerformEnds(c, call);
    if !Hit(c.cache[LedOf(i)], call) {
      PerformOutcome(c, call);
    }
  }

  lemma BrightnessOutcome(c: Controller, s: Settings, i: nat)
    requires Coherent(c) && Usable(s) && i < DISK_COUNT && c.cache[LedOf(i)].mode == ModeBlink
    ensures var led, hit := LedOf(i), BrightnessKnown(c.cache[LedOf(i)], s);
            var (c1, e) := BrightnessSet(c, led, Low8(s.diskBrightness));
            && Coherent(c1) && c1.bus.leds[led].mode == Blink && c1.bus.leds[led].color == c.bus.leds[led].color
            && (e == Ok <==> hit || Acknowledged(c.bus.faults, RETRY_COUNT))
            && c1.bus.faults == (if hit then c.bus.faults else Rest(c.bus.faults, RETRY_COUNT))
            && (e == Ok ==> c1.bus.leds[led].brightness == s.diskBrightness && c1.cache[led].mode == ModeBlink)
  {
    hide BrightnessSet, StatusChanged, Acknowledged, Reached, Rest;
    var call := Brightness(LedOf(i), Low8(s.diskBrightness));
    assert CoherentEntry(c.cache[LedOf(i)], c.bus.leds[LedOf(i)]);
    PerformCoherent(c, call);
    PerformEnds(c, call);
    if !Hit(c.cache[LedOf(i)], call) {
      PerformOutcome(c, call);
    }
  }

  lemma OnOutcome(c: Controller, s: Settings, i: nat)
    requires Coherent(c) && i < DISK_COUNT && c.cache[LedOf(i)].mode == ModeBlink
    ensures var led := LedOf(i); var (c1, e) := OnSet(c, led, s.diskInvert);
            && c1.bus.faults == Rest(c.bus.faults, RETRY_COUNT)
            && c1.bus.leds[led] == if Reached(c.bus.faults, RETRY_COUNT)
                                   then c.bus.leds[led].(mode := if s.diskInvert then On else Off)
                                   else c.bus.leds[led]
  {
    hide OnSet, StatusChanged, Acknowledged, Reached, Rest;
    PerformOutcome(c, OnOff(LedOf(i), s.diskInvert));
  }

  /** `set_steady` on a blinking LED, on the device: it either shows the whole
      steady state or goes on blinking. */
  lemma SteadiedOutcome(c: Controller, s: Settings, i: nat)
    requires Coherent(c) && Usable(s) && i < DISK_COUNT && c.cache[LedOf(i)].mode == ModeBlink
    ensures var c1, e := Steadied(c, s, LedOf(i)).0, c.cache[LedOf(i)]; var led := c1.bus.leds[LedOf(i)];
            && (if Restorable(e, s, i, c.bus.faults)
                then led.mode == (if s.diskInvert then On else Off) && led.color == DiskColor(s, i)
                     && led.brightness == s.diskBrightness
                else led.mode == Blink)
            && c1.bus.faults == SteadiedRest(e, s, i, c.bus.faults)
  {
    hide ColorSet, BrightnessSet, OnSet, Acknowledged, Reached, Rest;
    var led := LedOf(i);
    ColorOutcome(c, s, i);
    var (c1, e1) := ColorSet(c, led, DiskColor(s, i));
    if e1 == Ok {
      BrightnessOutcome(c1, s, i);
      var (c2, e2) := BrightnessSet(c1, led, Low8(s.diskBrightness));
      if e2 == Ok {
        OnOutcome(c2, s, i);
        assert CoherentEntry(c2.cache[led], c2.bus.leds[led]);
      }
    }
  }

  /** One round of the timer handler: the LED of a due slot shows its idle state
      exactly when it is restorable, and goes on blinking otherwise. */
  lemma SlotRestoredIff(d: Disks, c: Controller, s: Settings, now: Time, i: nat)
    requires Consistent(d, c, s) && i < d.count && Due(d.slots[i], now)
    ensures var (d1, c1) := SlotExpired(d, c, s, now, i); var led := c1.bus.leds[LedOf(i)];
            && (Shows(d1.slots[i], led, s, i) <==> Restorable(c.cache[LedOf(i)], s, i, c.bus.faults))
            && (!Shows(d1.slots[i], led, s, i) ==> led.mode == Blink)
            && c1.bus.faults == SteadiedRest(c.cache[LedOf(i)], s, i, c.bus.faults)
  {
    hide Steadied, Acknowledged, Reached, Rest;
    assert SlotPolicy(d.slots[i], c.cache[LedOf(i)], s, i);
    SteadiedOutcome(c, s, i);
  }

  /** The outcomes left after the first `n` rounds of the timer loop, told from the
      slots and the cache before it. */
  function TimerRest(d: Disks, c: Controller, s: Settings, now: Time, n: nat): seq<Outcome>
    requires d.Valid() && c.Valid() && n <= d.count
  {
    if n == 0 then c.bus.faults
    else
      var f, slot := TimerRest(d, c, s, now, n - 1), d.slots[n - 1];
      if slot.active && slot.deadline <= now then SteadiedRest(c.cache[LedOf(n - 1)], s, n - 1, f) else f
  }

  /** The timer loop uses up exactly those outcomes, and does not look at later
      slots yet. */
  lemma {:induction false} SlotsExpiredOutcome(d: Disks, c: Controller, s: Settings, now: Time, n: nat)
    requires Consistent(d, c, s) && n <= d.count
    ensures var (d1, c1) := SlotsExpired(d, c, s, now, n);
            && c1.bus.faults == TimerRest(d, c, s, now, n)
            && (forall j :: n <= j < d.count ==>
                  d1.slots[j] == d.slots[j] && c1.cache[LedOf(j)] == c.cache[LedOf(j)])
  {
    hide SlotExpired, CoherentEntry, Usable, SlotPolicy, Known, Shows, Restorable, SteadiedRest;
    if n > 0 {
      SlotsExpiredOutcome(d, c, s, now, n - 1);
      SlotsExpiredKeeps(d, c, s, now, n - 1);
      var (d1, c1) := SlotsExpired(d, c, s, now, n - 1);
      SlotExpiredKeeps(d1, c1, s, now, n - 1);
      if Due(d.slots[n - 1], now) {
        SlotRestoredIff(d1, c1, s, now, n - 1);
      } else {
        NotDueRound(d1, c1, s, now, n - 1);
      }
      LaterLeds(d1, c1, SlotExpired(d1, c1, s, now, n - 1).1, n - 1);
    }
  }

  lemma NotDueRound(d: Disks, c: Controller, s: Settings, now: Time, i: nat)
    requires d.Valid() && c.Valid() && i < d.count && !Due(d.slots[i], now)
    ensures SlotExpired(d, c, s, now, i) == (d, c)
  {
  }

  lemma LaterLeds(d: Disks, c: Controller, c1: Controller, i: nat)
    requires d.Valid() && i < d.count && OnlyTouches(c, c1, LedOf(i))
    ensures forall j :: 0 <= j < d.count && j != i ==>
              c1.cache[LedOf(j)] == c.cache[LedOf(j)] && c1.bus.leds[LedOf(j)] == c.bus.leds[LedOf(j)]
  {
    forall j | 0 <= j < d.count && j != i ensures LedOf(j) != LedOf(i) {
    }
  }

  /** Rounds after the slot's own leave its LED alone. */
  lemma {:induction false} LaterRounds(d: Disks, c: Controller, s: Settings, now: Time, i: nat, n: nat)
    requires Consistent(d, c, s) && i < n <= d.count
    ensures SlotsExpired(d, c, s, now, n).0.slots[i] == SlotsExpired(d, c, s, now, i + 1).0.slots[i]
    ensures SlotsExpired(d, c, s, now, n).1.bus.leds[LedOf(i)] == SlotsExpired(d, c, s, now, i + 1).1.bus.leds[LedOf(i)]
    decreases n
  {
    hide SlotExpired, CoherentEntry, Usable, SlotPolicy;
    if i + 1 < n {
      LaterRounds(d, c, s, now, i, n - 1);
      SlotsExpiredKeeps(d, c, s, now, n - 1);
      var (d1, c1) := SlotsExpired(d, c, s, now, n - 1);
      SlotExpiredKeeps(d1, c1, s, now, n - 1);
      LaterLeds(d1, c1, SlotExpired(d1, c1, s, now, n - 1).1, n - 1);
    }
  }

  /** The promise that a disk's LED returns to its steady state after the idle
      deadline, exactly: the LED of a due slot shows its idle state after the
      handler if and only if it is restorable by the outcomes that the due slots
      before it leave. Otherwise it goes on blinking, and the handler does not
      retry. */
  lemma TimerRestoresIff(d: Disks, c: Controller, s: Settings, now: Time, i: nat)
    requires Invariant(d, c, s) && i < d.count && Due(d.slots[i], now)
    ensures var (d1, c1, _) := TimerHandled(d, c, s, now); var led := c1.bus.leds[LedOf(i)];
            && !d1.slots[i].active
            && (Shows(d1.slots[i], led, s, i) <==>
                  Restorable(c.cache[LedOf(i)], s, i, TimerRest(d, c, s, now, i)))
            && (!Shows(d1.slots[i], led, s, i) ==> led.mode == Blink)
  {
    hide SlotExpired, Rearmed, CoherentEntry, Usable, SlotPolicy, Restorable, SteadiedRest;
    var d0 := d.(timer := ExpirationRead(d.timer));
    SlotsExpiredOutcome(d0, c, s, now, i);
    SameTimerRest(d, d0, c, s, now, i);
    SlotsExpiredKeeps(d0, c, s, now, i);
    var (d1, c1) := SlotsExpired(d0, c, s, now, i);
    SlotRestoredIff(d1, c1, s, now, i);
    LaterRounds(d0, c, s, now, i, d.count);
    TimerKeeps(d, c, s, now);
    RearmedSlots(SlotsExpired(d0, c, s, now, d.count).0);
  }

  lemma {:induction false} SameTimerRest(d: Disks, d1: Disks, c: Controller, s: Settings, now: Time, n: nat)
    requires d.Valid() && d1.Valid() && c.Valid() && n <= d.count == d1.count && d1.slots == d.slots
    ensures TimerRest(d1, c, s, now, n) == TimerRest(d, c, s, now, n)
  {
    if n > 0 {
      SameTimerRest(d, d1, c, s, now, n - 1);
    }
  }

  /** Due slots among the first `n`. */
  function DueCount(slots: seq<Slot>, now: Time, n: nat): nat
    requires n <= |slots|
  {
    if n == 0 then 0
    else DueCount(slots, now, n - 1) + (if slots[n - 1].active && slots[n - 1].deadline <= now then 1 else 0)
  }

  /** The outcomes left after `k` commands. */
  function RestAfter(faults: seq<Outcome>, k: nat): seq<Outcome> {
    if k == 0 then faults else Rest(RestAfter(faults, k - 1), RETRY_COUNT)
  }

  lemma {:induction false} KnownTimerRest(d: Disks, c: Controller, s: Settings, now: Time, n: nat)
    requires Consistent(d, c, s) && AllKnown(d, c) && n <= d.count
    ensures TimerRest(d, c, s, now, n) == RestAfter(c.bus.faults, DueCount(d.slots, now, n))
  {
    hide CoherentEntry, Usable, Rest;
    if n > 0 {
      KnownTimerRest(d, c, s, now, n - 1);
      assert SlotPolicy(d.slots[n - 1], c.cache[LedOf(n - 1)], s, n - 1);
      assert Known(d.slots[n - 1], c.cache[LedOf(n - 1)]);
    }
  }

  /** With every LED known before, that is one applied attempt among the five that
      are the slot's turn, acknowledged or not. */
  lemma KnownTimerRestoresIff(d: Disks, c: Controller, s: Settings, now: Time, i: nat)
    requires Invariant(d, c, s) && AllKnown(d, c) && i < d.count && Due(d.slots[i], now)
    ensures var (d1, c1, _) := TimerHandled(d, c, s, now);
            Shows(d1.slots[i], c1.bus.leds[LedOf(i)], s, i) <==>
              Reached(RestAfter(c.bus.faults, DueCount(d.slots, now, i)), RETRY_COUNT)
  {
    hide TimerHandled, CoherentEntry, Usable, Reached, Shows;
    TimerRestoresIff(d, c, s, now, i);
    KnownTimerRest(d, c, s, now, i);
    assert SlotPolicy(d.slots[i], c.cache[LedOf(i)], s, i);
    assert Known(d.slots[i], c.cache[LedOf(i)]);
  }

  lemma RearmedSlots(d: Disks)
    requires d.Valid()
    ensures Rearmed(d).0.slots == d.slots
  {
  }

  /** Five lost writes at the wrong moment: an idle disk's LED goes on blinking,
      with a working bus and no timer armed. */
  lemma FailedRestoreIsFinal(d: Disks, c: Controller, s: Settings, now: Time, i: nat)
    requires Invariant(d, c, s) && i < d.count && Due(d.slots[i], now)
    requires AllKnown(d, c) && Deaf(c.bus, RETRY_COUNT)
    requires forall j :: 0 <= j < d.count && j != i ==> !d.slots[j].active
    ensures var (d1, c1, e) := TimerHandled(d, c, s, now);
            && e == Ok && !d1.slots[i].active && d1.timer == Disarmed
            && c1.bus.Healthy() && c1.bus.leds[LedOf(i)].mode == Blink
  {
    hide SlotExpired, SlotPolicy;
    TimerKeeps(d, c, s, now);
    TimerRestoresIff(d, c, s, now, i);
    KnownTimerRestoresIff(d, c, s, now, i);
    var d0 := d.(timer := ExpirationRead(d.timer));
    SlotsExpiredOutcome(d0, c, s, now, d.count);
    KnownTimerRest(d0, c, s, now, d.count);
    OnlyOneDue(d.slots, now, i, d.count);
    OnlyOneDue(d.slots, now, i, i);
    DeafRest(c.bus.faults, RETRY_COUNT);
    RearmedBus(d, c, s, now);
  }

  lemma RearmedBus(d: Disks, c: Controller, s: Settings, now: Time)
    requires d.Valid() && c.Valid()
    ensures TimerHandled(d, c, s, now).1 ==
            SlotsExpired(d.(timer := ExpirationRead(d.timer)), c, s, now, d.count).1
  {
  }

  lemma {:induction false} OnlyOneDue(slots: seq<Slot>, now: Time, i: nat, n: nat)
    requires i < |slots| && n <= |slots| && Due(slots[i], now)
    requires forall j :: 0 <= j < n && j != i ==> !slots[j].active
    ensures DueCount(slots, now, n) == if i < n then 1 else 0
  {
    if n > 0 {
      OnlyOneDue(slots, now, i, n - 1);
    }
  }

  /** `set_steady` with nothing cached, when its three commands get through. */
  lemma SteadiedAcknowledged(c: Controller, s: Settings, i: nat)
    requires Coherent(c) && i < DISK_COUNT && c.cache[LedOf(i)] == EMPTY_CACHE
    requires |c.bus.faults| >= 3 && forall k :: 0 <= k < 3 ==> c.bus.faults[k].Accepted()
    ensures var (c1, e) := Steadied(c, s, LedOf(i)); e == Ok && c1.bus.faults == c.bus.faults[3..]
  {
    hide ColorSet, BrightnessSet, OnSet, StatusChanged;
    var led := LedOf(i);
    var color, level := Color(led, DiskColor(s, i)), Brightness(led, Low8(s.diskBrightness));
    PerformOutcome(c, color);
    PerformEnds(c, color);
    var c1 := Perform(c, color).0;
    PerformOutcome(c1, level);
    PerformEnds(c1, level);
    var c2 := Perform(c1, level).0;
    PerformOutcome(c2, OnOff(led, s.diskInvert));
  }

  // ----- rescan -----

  /** `found` as `discover` leaves it: nothing is active. */
  ghost predicate Quiet(found: seq<Slot>) {
    |found| == DISK_COUNT && forall i :: 0 <= i < DISK_COUNT ==> !found[i].active && found[i].deadline == 0
  }

  lemma SlotRescannedKeeps(d: Disks, c: Controller, s: Settings, found: Slot, i: nat)
    requires Consistent(d, c, s) && i < d.count && !found.active && found.deadline == 0
    ensures var (d1, c1, e) := SlotRescanned(d, c, s, found, i);
            && Consistent(d1, c1, s) && OnlyTouches(c, c1, LedOf(i))
            && d1 == d.(slots := d.slots[i := if Replaced(d.slots[i], found)
                                              then found.(ledId := LedOf(i)) else d.slots[i]])
            && (!Replaced(d.slots[i], found) ==> c1 == c)
            && (e == Ok && Replaced(d.slots[i], found) ==> Known(d1.slots[i], c1.cache[LedOf(i)]))
            && (e == Ok && AllKnown(d, c) ==> AllKnown(d1, c1))
            && (c.bus.Healthy() ==> c1.bus.Healthy() && e == Ok)
  {
    hide StatusChanged;
    var (d1, c1, e) := SlotRescanned(d, c, s, found, i);
    assert SlotPolicy(d.slots[i], c.cache[LedOf(i)], s, i);
    if Replaced(d.slots[i], found) {
      var c0 := Invalidated(c, LedOf(i));
      PerformCoherent(c, Forget(LedOf(i)));
      if found.present {
        SteadiedEffect(c0, s, i);
        TimingIsExact(s, 0);
      } else {
        PerformCoherent(c0, OnOff(LedOf(i), false));
        PerformEnds(c0, OnOff(LedOf(i), false));
      }
      OneSlot(d, c, d1, c1, s, i);
    }
  }

  /** What a rescan that got as far as slot `n` did to the slots. */
  ghost predicate RescannedTo(d: Disks, d1: Disks, found: seq<Slot>, n: nat)
    requires d.Valid() && d1.Valid() && |found| == DISK_COUNT
  {
    && d1.count == d.count && d1.timer == d.timer
    && forall i :: 0 <= i < DISK_COUNT ==>
         d1.slots[i] == if i < n && Replaced(d.slots[i], found[i])
                        then found[i].(ledId := LedOf(i)) else d.slots[i]
  }

  lemma {:induction false} SlotsRescannedShape(d: Disks, c: Controller, s: Settings, found: seq<Slot>, n: nat)
    requires d.Valid() && c.Valid() && n <= d.count && |found| == DISK_COUNT
    ensures RescannedTo(d, SlotsRescanned(d, c, s, found, n).0, found, n)
  {
    hide Steadied, OnSet, Invalidated;
    if n > 0 {
      SlotsRescannedShape(d, c, s, found, n - 1);
    }
  }

  lemma {:induction false} SlotsRescannedKeeps(d: Disks, c: Controller, s: Settings, found: seq<Slot>, n: nat)
    requires Consistent(d, c, s) && n <= d.count && Quiet(found)
    ensures var (d1, c1, e) := SlotsRescanned(d, c, s, found, n);
            && Consistent(d1, c1, s) && RescannedTo(d, d1, found, n)
            && (forall j :: 0 <= j < LED_DISK_FIRST ==> c1.cache[j] == c.cache[j] && c1.bus.leds[j] == c.bus.leds[j])
            && (forall j :: n <= j < d.count ==> c1.cache[LedOf(j)] == c.cache[LedOf(j)])
            && (c.bus.Healthy() ==> c1.bus.Healthy() && e == Ok)
  {
    hide SlotRescanned, CoherentEntry, Usable, SlotPolicy, Known, RescannedTo, Replaced;
    SlotsRescannedShape(d, c, s, found, n);
    if n > 0 {
      SlotsRescannedKeeps(d, c, s, found, n - 1);
      var (d1, c1, e1) := SlotsRescanned(d, c, s, found, n - 1);
      SlotRescannedKeeps(d1, c1, s, found[n - 1], n - 1);
      LaterLeds(d1, c1, SlotsRescanned(d, c, s, found, n).1, n - 1);
    }
  }

  /** Without an error, what was replaced or known before is known. */
  lemma {:induction false} SlotsRescannedKnown(d: Disks, c: Controller, s: Settings, found: seq<Slot>, n: nat)
    requires Consistent(d, c, s) && n <= d.count && Quiet(found)
    ensures var (d1, c1, e) := SlotsRescanned(d, c, s, found, n);
            e == Ok ==> forall i :: 0 <= i < n ==>
              (Replaced(d.slots[i], found[i]) || Known(d.slots[i], c.cache[LedOf(i)])
               ==> Known(d1.slots[i], c1.cache[LedOf(i)]))
  {
    hide SlotRescanned, CoherentEntry, Usable, SlotPolicy, Known, Replaced;
    if n > 0 {
      SlotsRescannedKnown(d, c, s, found, n - 1);
      SlotsRescannedKeeps(d, c, s, found, n - 1);
      var (d1, c1, e1) := SlotsRescanned(d, c, s, found, n - 1);
      SlotRescannedKeeps(d1, c1, s, found[n - 1], n - 1);
      LaterLeds(d1, c1, SlotsRescanned(d, c, s, found, n).1, n - 1);
    }
  }

  /** A rescan replaces exactly the slots whose device changed, keeps every
      invariant although it never touches the timer, and afterwards presence
      and device number of every slot are those just discovered. If it reports
      no error, every replaced slot's LED is known to show the new state. */
  lemma RescanKeeps(d: Disks, c: Controller, s: Settings, entries: seq<BlockEntry>)
    requires Invariant(d, c, s) && Listing(entries)
    ensures var (d1, c1, e) := Rescanned(d, c, s, Some(entries));
            var found := Discovered(entries, d.count);
            && Invariant(d1, c1, s) && RescannedTo(d, d1, found, d.count)
            && (forall i :: 0 <= i < d.count ==>
                  d1.slots[i].present == found[i].present && d1.slots[i].dev == found[i].dev)
            && DistinctDevs(d1.slots, d1.count)
            && (forall j :: 0 <= j < LED_DISK_FIRST ==> c1.cache[j] == c.cache[j] && c1.bus.leds[j] == c.bus.leds[j])
            && (e == Ok && AllKnown(d, c) ==> AllKnown(d1, c1))
            && (e == Ok && (forall i :: 0 <= i < d.count ==> Replaced(d.slots[i], found[i])) ==> AllKnown(d1, c1))
            && (c.bus.Healthy() ==> c1.bus.Healthy() && e == Ok)
  {
    DiscoveredIsAMatching(entries, d.count);
    SlotsRescannedKeeps(d, c, s, Discovered(entries, d.count), d.count);
    SlotsRescannedKnown(d, c, s, Discovered(entries, d.count), d.count);
  }

  // ----- what a rescan does on the device -----

  /** Told before the rescan of a replaced slot, from its device LED and the
      outcomes ahead: each command is applied, and those before it acknowledged,
      or the LED was right in that respect already. */
  predicate ComesToShow(led: Led, present: bool, s: Settings, i: nat, faults: seq<Outcome>) {
    if !present then led.mode == Off || Reached(faults, RETRY_COUNT)
    else
      var f1 := Rest(faults, RETRY_COUNT);
      var f2 := Rest(f1, RETRY_COUNT);
      var a1 := Acknowledged(faults, RETRY_COUNT);
      var a2 := a1 && Acknowledged(f1, RETRY_COUNT);
      && (led.color == DiskColor(s, i) || Reached(faults, RETRY_COUNT))
      && (led.brightness == s.diskBrightness || (a1 && Reached(f1, RETRY_COUNT)))
      && (led.mode == (if s.diskInvert then On else Off) || (a2 && Reached(f2, RETRY_COUNT)))
  }

  /** The outcomes left after a replaced slot. */
  function ReplacedRest(present: bool, s: Settings, i: nat, faults: seq<Outcome>): seq<Outcome> {
    if present then SteadiedRest(EMPTY_CACHE, s, i, faults) else Rest(faults, RETRY_COUNT)
  }

  /** `set_steady` with nothing cached. */
  lemma FreshSteadied(c: Controller, s: Settings, i: nat)
    requires Coherent(c) && Usable(s) && i < DISK_COUNT && c.cache[LedOf(i)] == EMPTY_CACHE
    ensures var c1, led := Steadied(c, s, LedOf(i)).0, c.bus.leds[LedOf(i)]; var led1 := c1.bus.leds[LedOf(i)];
            && c1.bus.faults == ReplacedRest(true, s, i, c.bus.faults)
            && (ComesToShow(led, true, s, i, c.bus.faults) <==>
                  && led1.color == DiskColor(s, i) && led1.brightness == s.diskBrightness
                  && led1.mode == if s.diskInvert then On else Off)
  {
    hide ColorSet, BrightnessSet, OnSet, StatusChanged, Acknowledged, Reached, Rest;
    var led := LedOf(i);
    var color, level := Color(led, DiskColor(s, i)), Brightness(led, Low8(s.diskBrightness));
    AcknowledgedReaches(c.bus.faults, RETRY_COUNT);
    PerformOutcome(c, color);
    PerformEnds(c, color);
    var (c1, e1) := Perform(c, color);
    if e1 == Ok {
      AcknowledgedReaches(c1.bus.faults, RETRY_COUNT);
      PerformOutcome(c1, level);
      PerformEnds(c1, level);
      var (c2, e2) := Perform(c1, level);
      if e2 == Ok {
        PerformOutcome(c2, OnOff(led, s.diskInvert));
      }
    }
  }

  lemma SlotRescannedIff(d: Disks, c: Controller, s: Settings, found: Slot, i: nat)
    requires Consistent(d, c, s) && i < d.count && Replaced(d.slots[i], found) && !found.active
    ensures var (d1, c1, _) := SlotRescanned(d, c, s, found, i);
            && (Shows(d1.slots[i], c1.bus.leds[LedOf(i)], s, i) <==>
                  ComesToShow(c.bus.leds[LedOf(i)], found.present, s, i, c.bus.faults))
            && c1.bus.faults == ReplacedRest(found.present, s, i, c.bus.faults)
  {
    hide Steadied, OnSet, StatusChanged, Acknowledged, Reached, Rest;
    var c0 := Invalidated(c, LedOf(i));
    PerformCoherent(c, Forget(LedOf(i)));
    if found.present {
      FreshSteadied(c0, s, i);
    } else {
      PerformOutcome(c0, OnOff(LedOf(i), false));
    }
  }

  /** The outcomes left after the first `n` rounds of a rescan. */
  function RescanRest(d: Disks, c: Controller, s: Settings, found: seq<Slot>, n: nat): seq<Outcome>
    requires d.Valid() && c.Valid() && n <= d.count && |found| == DISK_COUNT
  {
    if n == 0 then c.bus.faults
    else
      var f := RescanRest(d, c, s, found, n - 1);
      if Replaced(d.slots[n - 1], found[n - 1]) then ReplacedRest(found[n - 1].present, s, n - 1, f) else f
  }

  lemma {:induction false} SlotsRescannedOutcome(d: Disks, c: Controller, s: Settings, found: seq<Slot>, n: nat)
    requires Consistent(d, c, s) && n <= d.count && Quiet(found)
    ensures var (d1, c1, _) := SlotsRescanned(d, c, s, found, n);
            && c1.bus.faults == RescanRest(d, c, s, found, n)
            && (forall j :: n <= j < d.count ==>
                  d1.slots[j] == d.slots[j] && c1.bus.leds[LedOf(j)] == c.bus.leds[LedOf(j)])
  {
    hide SlotRescanned, CoherentEntry, Usable, SlotPolicy, Known, Shows, ComesToShow, ReplacedRest, RescannedTo;
    if n > 0 {
      SlotsRescannedOutcome(d, c, s, found, n - 1);
      SlotsRescannedKeeps(d, c, s, found, n - 1);
      var (d1, c1, _) := SlotsRescanned(d, c, s, found, n - 1);
      SlotRescannedKeeps(d1, c1, s, found[n - 1], n - 1);
      if Replaced(d.slots[n - 1], found[n - 1]) {
        SlotRescannedIff(d1, c1, s, found[n - 1], n - 1);
      }
      LaterLeds(d1, c1, SlotRescanned(d1, c1, s, found[n - 1], n - 1).1, n - 1);
    }
  }

  /** Later rounds leave the slot and its LED alone. */
  lemma {:induction false} LaterReplacements(d: Disks, c: Controller, s: Settings, found: seq<Slot>, i: nat, n: nat)
    requires Consistent(d, c, s) && i < n <= d.count && Quiet(found)
    ensures SlotsRescanned(d, c, s, found, n).0.slots[i] == SlotsRescanned(d, c, s, found, i + 1).0.slots[i]
    ensures SlotsRescanned(d, c, s, found, n).1.bus.leds[LedOf(i)] ==
            SlotsRescanned(d, c, s, found, i + 1).1.bus.leds[LedOf(i)]
    decreases n
  {
    hide SlotRescanned, CoherentEntry, Usable, SlotPolicy, Known;
    if i + 1 < n {
      LaterReplacements(d, c, s, found, i, n - 1);
      SlotsRescannedKeeps(d, c, s, found, n - 1);
      var (d1, c1, _) := SlotsRescanned(d, c, s, found, n - 1);
      SlotRescannedKeeps(d1, c1, s, found[n - 1], n - 1);
      LaterLeds(d1, c1, SlotRescanned(d1, c1, s, found[n - 1], n - 1).1, n - 1);
    }
  }

  /** The promise that a rescan brings LEDs up to date, exactly: the LED of a
      replaced slot shows it afterwards if and only if, by the outcomes that the
      replaced slots before it leave, it comes to. For a slot that became empty:
      the LED is off if it was off, or one of five attempts is applied. */
  lemma RescanShowsIff(d: Disks, c: Controller, s: Settings, entries: seq<BlockEntry>, i: nat)
    requires Invariant(d, c, s) && Listing(entries) && i < d.count
    requires Replaced(d.slots[i], Discovered(entries, d.count)[i])
    ensures var (d1, c1, _) := Rescanned(d, c, s, Some(entries)); var found := Discovered(entries, d.count);
            Shows(d1.slots[i], c1.bus.leds[LedOf(i)], s, i) <==>
              ComesToShow(c.bus.leds[LedOf(i)], found[i].present, s, i, RescanRest(d, c, s, found, i))
  {
    hide SlotRescanned, CoherentEntry, Usable, SlotPolicy, Known, Shows, ComesToShow, Replaced;
    var found := Discovered(entries, d.count);
    DiscoveredIsAMatching(entries, d.count);
    SlotsRescannedOutcome(d, c, s, found, i);
    SlotsRescannedKeeps(d, c, s, found, i);
    var (d1, c1, _) := SlotsRescanned(d, c, s, found, i);
    SlotRescannedIff(d1, c1, s, found[i], i);
    LaterReplacements(d, c, s, found, i, d.count);
  }

  /** An update that was lost is not retried: the next rescan of the same devices
      does nothing at all. */
  lemma RescanIsNotRepeated(d: Disks, c: Controller, s: Settings, entries: seq<BlockEntry>)
    requires Invariant(d, c, s) && Listing(entries)
    ensures var (d1, c1, _) := Rescanned(d, c, s, Some(entries)); Rescanned(d1, c1, s, Some(entries)) == (d1, c1, Ok)
  {
    hide SlotsRescanned, CoherentEntry, SlotPolicy, Known;
    RescanKeeps(d, c, s, entries);
    var (d1, c1, _) := Rescanned(d, c, s, Some(entries));
    NothingReplaced(d1, c1, s, Discovered(entries, d.count), d.count);
  }

  lemma {:induction false} NothingReplaced(d: Disks, c: Controller, s: Settings, found: seq<Slot>, n: nat)
    requires d.Valid() && c.Valid() && n <= d.count && |found| == DISK_COUNT
    requires forall i :: 0 <= i < d.count ==> !Replaced(d.slots[i], found[i])
    ensures SlotsRescanned(d, c, s, found, n) == (d, c, Ok)
  {
    if n > 0 {
      NothingReplaced(d, c, s, found, n - 1);
    }
  }

  /** Before the first rescan every slot counts as replaced, whatever is found. */
  lemma FreshReachesEverySlot(count: nat, entries: seq<BlockEntry>, i: nat)
    requires count <= DISK_COUNT && i < count
    ensures Replaced(Fresh(count).slots[i], Discovered(entries, count)[i])
  {
  }

  lemma FreshIsInvariant(c: Controller, s: Settings, count: nat)
    requires count <= DISK_COUNT && Coherent(c) && Usable(s)
    requires forall j :: LED_DISK_FIRST <= j < LED_COUNT ==> c.cache[j] == EMPTY_CACHE
    ensures Invariant(Fresh(count), c, s)
  {
  }

  lemma UnreadableListing(d: Disks, c: Controller, s: Settings)
    requires d.Valid() && c.Valid()
    ensures Rescanned(d, c, s, None) == (d, c, IoError)
  {
  }

  // ----- the policy in place -----

  class DiskLeds {
    const controller: LedController
    const settings: Settings
    const count: nat
    const slots: array<Slot>
    const timer: TimerFd

    constructor (controller: LedController, settings: Settings, count: nat)
      requires controller.Valid() && count <= DISK_COUNT
      ensures this.controller == controller && this.settings == settings && this.count == count
      ensures fresh(slots) && fresh(timer)
      ensures State() == Fresh(count) && Valid()
    {
      this.controller, this.settings, this.count := controller, settings, count;
      this.timer := new TimerFd();
      this.slots := new Slot[DISK_COUNT](i requires 0 <= i < DISK_COUNT => Slot(LedOf(i), false, false, U32_MAX, 0));
      new;
      assert slots[..] == Fresh(count).slots;
    }

    function State(): Disks
      reads slots, timer
    {
      Disks(slots[..], count, timer.timer)
    }

    ghost predicate Valid()
      reads slots, timer, controller.cache, controller.device
    {
      State().Valid() && controller.Valid()
    }

    method SetSteady(led: byte) returns (error: Status)
      requires controller.Valid() && led >= LED_DISK_FIRST
      modifies controller.cache, controller.device
      ensures controller.Valid()
      ensures (controller.State(), error) == Steadied(old(controller.State()), settings, led)
    {
      hide StatusChanged;
      var index := led as int - LED_DISK_FIRST as int;
      error := controller.SetColor(led, DiskColor(settings, index));
      if error == Ok {
        error := controller.SetBrightness(led, Low8(settings.diskBrightness));
      }
      if error == Ok {
        error := controller.SetOn(led, settings.diskInvert);
      }
    }

    method ArmTimer() returns (error: Status)
      requires Valid()
      modifies timer
      ensures (State(), error) == Rearmed(old(State()))
    {
      var earliest: u64 := U64_MAX;
      for i := 0 to count
        invariant earliest == Earliest(slots[..], i)
      {
        if slots[i].active && slots[i].deadline < earliest {
          earliest := slots[i].deadline;
        }
      }
      var sec, nsec := 0, 0;
      if earliest != U64_MAX {
        sec, nsec := earliest / NS_PER_SEC, earliest % NS_PER_SEC;
      }
      error := timer.SetTime(0, sec, nsec);
    }

    method RescanSlot(found: Slot, i: nat) returns (error: Status)
      requires Valid() && i < count
      modifies slots, controller.cache, controller.device
      ensures Valid()
      ensures (State(), controller.State(), error) ==
              SlotRescanned(old(State()), old(controller.State()), settings, found, i)
    {
      hide Steadied, OnSet;
      var slot := found.(ledId := LedOf(i));
      if !Replaced(slots[i], slot) {
        return Ok;
      }
      controller.Invalidate(slot.ledId);
      if slot.present {
        error := SetSteady(slot.ledId);
      } else {
        error := controller.SetOn(slot.ledId, false);
      }
      slots[i] := slot;
    }

    method Rescan(entries: Option<seq<BlockEntry>>) returns (error: Status)
      requires Valid()
      modifies slots, controller.cache, controller.device
      ensures Valid()
      ensures (State(), controller.State(), error) ==
              Rescanned(old(State()), old(controller.State()), settings, entries)
    {
      hide SlotRescanned;
      if entries.None? {
        return IoError;
      }
      var found := new Slot[DISK_COUNT](_ => EMPTY_SLOT);
      assert found[..] == seq(DISK_COUNT, _ => EMPTY_SLOT);
      Discover(entries.value, count, found);
      ghost var result := Discovered(entries.value, count);
      error := Ok;
      for i := 0 to count
        invariant Valid() && found[..] == result
        invariant (State(), controller.State(), error) ==
                  SlotsRescanned(old(State()), old(controller.State()), settings, result, i)
        modifies slots, controller.cache, controller.device
      {
        var e := RescanSlot(found[i], i);
        if error == Ok {
          error := e;
        }
      }
    }

    method StartBlink(i: nat)
      requires Valid() && i < count
      modifies slots, controller.cache, controller.device
      ensures Valid()
      ensures (State(), controller.State()) == BlinkStarted(old(State()), old(controller.State()), settings, i)
    {
      hide StatusChanged;
      var (on, off) := BlinkTimes(settings);
      var e := controller.SetBlink(LedOf(i), Low16(on), Low16(off), false);
      if e != Ok {
        controller.Invalidate(LedOf(i));
      } else {
        slots[i] := slots[i].(active := true);
      }
    }

    method HandleActivity(led: byte, now: Time) returns (error: Status)
      requires Valid()
      modifies slots, timer, controller.cache, controller.device
      ensures Valid()
      ensures (State(), controller.State(), error) ==
              ActivityHandled(old(State()), old(controller.State()), settings, led, now)
    {
      hide BlinkStarted, Rearmed;
      if led < LED_DISK_FIRST {
        return Invalid;
      }
      var i := led as int - LED_DISK_FIRST as int;
      if i >= count || !slots[i].present {
        return Ok;
      }
      slots[i] := slots[i].(deadline := Deadline(settings, now));
      if !slots[i].active {
        StartBlink(i);
      }
      error := Ok;
      if slots[i].active {
        error := ArmTimer();
      }
    }

    method HandleTimer(now: Time) returns (error: Status)
      requires Valid()
      modifies slots, timer, controller.cache, controller.device
      ensures Valid()
      ensures (State(), controller.State(), error) ==
              TimerHandled(old(State()), old(controller.State()), settings, now)
    {
      hide Steadied, Rearmed;
      timer.Read();
      ghost var d := State();
      for i := 0 to count
        invariant Valid()
        invariant (State(), controller.State()) == SlotsExpired(d, old(controller.State()), settings, now, i)
        modifies slots, controller.cache, controller.device
      {
        if !slots[i].active || slots[i].deadline > now {
          continue;
        }
        var e := SetSteady(slots[i].ledId);
        if e != Ok {
          controller.Invalidate(slots[i].ledId);
        }
        slots[i] := slots[i].(active := false, deadline := 0);
      }
      error := ArmTimer();
    }

    /** The maps hold exactly the present ones of the first `n` slots. */
    ghost predicate SyncedTo(runtime: BpfRuntime, n: nat)
      requires n <= slots.Length
      reads slots, runtime
    {
      Synced(runtime.kernel, slots[..], n)
    }

    method SyncSlot(runtime: BpfRuntime, i: nat) returns (error: Status)
      requires slots.Length == DISK_COUNT && i < count <= DISK_COUNT && DistinctDevs(slots[..], count)
      requires runtime.Safe() && SyncedTo(runtime, i)
      modifies runtime
      ensures error == Ok || error == IoError
      ensures runtime.Safe() && runtime.Extends(old(runtime.trace))
      ensures SetsOnly(runtime.trace, |old(runtime.trace)|, Targets(slots[..], i + 1))
      ensures error == Ok ==> SyncedTo(runtime, i + 1)
      ensures var n := if slots[i].present then 2 else 0;
              && (error == Ok <==> Clean(old(runtime.faults), n))
              && (error == Ok ==> runtime.faults == Later(old(runtime.faults), n))
    {
      hide L.Invariant, L.Run;
      NextTarget(slots[..], count, i);
      OneLater(runtime.faults);
      error := Ok;
      if slots[i].present {
        error := runtime.SetDiskTarget(slots[i].dev, slots[i].ledId);
      }
      runtime.KernelOk();
    }

    /** Rewrites the kernel maps for the present slots. At every step of the
        rewrite, and whichever update fails, every target has a state; on
        success the two maps are exactly the present slots, and every target ever
        set is among them exactly when every one set before is. It succeeds exactly
        when none of its map operations fails: one for each old entry, two for each
        present slot. */
    method SyncBpf(runtime: BpfRuntime) returns (error: Status)
      requires slots.Length == DISK_COUNT && count <= DISK_COUNT && DistinctDevs(slots[..], count)
      requires runtime.Safe()
      modifies runtime
      ensures error == Ok || error == IoError
      ensures runtime.Safe() && runtime.Extends(old(runtime.trace))
      ensures error == Ok ==> SyncedTo(runtime, count)
      ensures error == Ok ==>
                (SetsOnly(runtime.trace, 0, runtime.kernel.targets) <==>
                 SetsOnly(old(runtime.trace), 0, runtime.kernel.targets))
      ensures error == Ok <==>
                Clean(old(runtime.faults), |old(runtime.kernel.targets.Keys)| + |old(runtime.kernel.states.Keys)|
                                           + 2 * Present(slots[..], count))
      ensures old(runtime.faults) == [] ==> error == Ok && runtime.faults == []
    {
      hide L.Invariant, L.Run, Clean, Later, SetsOnly, Targets, Present;
      ghost var cleared := |runtime.kernel.targets.Keys| + |runtime.kernel.states.Keys|;
      ghost var all, faults, before := cleared + 2 * Present(slots[..], count), runtime.faults, runtime.trace;
      NoneLater(faults, all);
      NothingPresent(slots[..]);
      if Clean(faults, all) {
        CleanPrefix(faults, cleared, all);
      }
      error := runtime.ClearDiskTargets();
      if error != Ok {
        return;
      }
      runtime.KernelOk();
      for i := 0 to count
        invariant runtime.Safe() && runtime.Extends(before)
        invariant error == Ok && SyncedTo(runtime, i)
        invariant SetsOnly(runtime.trace, |before|, Targets(slots[..], i))
        invariant Clean(faults, cleared + 2 * Present(slots[..], i))
        invariant runtime.faults == Later(faults, cleared + 2 * Present(slots[..], i))
      {
        ghost var trace := runtime.trace;
        NextTarget(slots[..], count, i);
        TargetsGrow(slots[..], count, i);
        SlotSpends(slots[..], count, i, faults, cleared);
        error := SyncSlot(runtime, i);
        if error != Ok {
          return;
        }
        SetsOnlyGoesOn(trace, runtime.trace, |before|, Targets(slots[..], i), Targets(slots[..], i + 1));
      }
      SetsOnlySplits(before, runtime.trace, Targets(slots[..], count));
    }
  }
}
