/** Finding the block device behind each disk slot. */
module Discovery {
  import opened Types

  datatype Slot = Slot(ledId: byte, present: bool, active: bool, dev: u32, deadline: u64)

  const EMPTY_SLOT := Slot(0, false, false, 0, 0)

  const MINOR_LIMIT: nat := 0x10_0000
  const MAJOR_LIMIT: nat := 0x1000

  /** One directory entry: whether it is skipped before its device number is
      read, that number, and the slot `device_slot` assigns to it. */
  datatype BlockEntry = BlockEntry(skipped: bool, major: nat, minor: nat, slot: int)

  function ParseDev(e: BlockEntry): Option<u32> {
    if e.major >= MAJOR_LIMIT || e.minor >= MINOR_LIMIT then None
    else Some(e.major * MINOR_LIMIT + e.minor)
  }

  /** Device numbers are accepted when they fit into 12 and 20 bits, and both can be
      read off the packed word. */
  lemma PackingIsExact(e: BlockEntry)
    ensures ParseDev(e).Some? <==> e.major < 4096 && e.minor < 1048576
    ensures ParseDev(e).Some? ==> ParseDev(e).value / 1048576 == e.major && ParseDev(e).value % 1048576 == e.minor
  {
  }

  lemma PackingIsInjective(a: BlockEntry, b: BlockEntry)
    requires ParseDev(a).Some? && ParseDev(a) == ParseDev(b)
    ensures a.major == b.major && a.minor == b.minor
  {
  }

  predicate Eligible(e: BlockEntry, count: nat) {
    !e.skipped && ParseDev(e).Some? && 0 <= e.slot < count
  }

  predicate Candidate(e: BlockEntry, count: nat, s: nat) {
    Eligible(e, count) && e.slot == s
  }

  /** The first entry for slot `s` among the first `n`, if any. */
  function First(entries: seq<BlockEntry>, count: nat, s: nat, n: nat): (r: Option<nat>)
    requires n <= |entries|
    ensures r.Some? ==> r.value < n && Candidate(entries[r.value], count, s)
    ensures r.Some? ==> forall k :: 0 <= k < r.value ==> !Candidate(entries[k], count, s)
    ensures r.None? ==> forall k :: 0 <= k < n ==> !Candidate(entries[k], count, s)
  {
    if n == 0 then None
    else
      var r := First(entries, count, s, n - 1);
      if r.Some? then r
      else if Candidate(entries[n - 1], count, s) then Some(n - 1)
      else None
  }

  function Found(entries: seq<BlockEntry>, count: nat, s: nat, n: nat): Slot
    requires n <= |entries| && s < DISK_COUNT
  {
    var f := First(entries, count, s, n);
    if f.None? then EMPTY_SLOT
    else EMPTY_SLOT.(ledId := LED_DISK_FIRST as int + s, present := true, dev := ParseDev(entries[f.value]).value)
  }

  /** The result of a whole scan. */
  function Discovered(entries: seq<BlockEntry>, count: nat): (r: seq<Slot>)
    ensures |r| == DISK_COUNT
  {
    seq(DISK_COUNT, s requires 0 <= s < DISK_COUNT => Found(entries, count, s, |entries|))
  }

  method Discover(entries: seq<BlockEntry>, count: nat, found: array<Slot>)
    requires count <= DISK_COUNT && found.Length == DISK_COUNT
    requires found[..] == seq(DISK_COUNT, _ => EMPTY_SLOT)
    modifies found
    ensures found[..] == Discovered(entries, count)
  {
    for n := 0 to |entries|
      invariant forall s :: 0 <= s < DISK_COUNT ==> found[s] == Found(entries, count, s, n)
    {
      var e := entries[n];
      if e.skipped {
        continue;
      }
      var dev := ParseDev(e);
      if dev.None? {
        continue;
      }
      if e.slot < 0 || e.slot >= count {
        continue;
      }
      if found[e.slot].present {
        continue;
      }
      found[e.slot] := found[e.slot].(ledId := LED_DISK_FIRST as int + e.slot, present := true, dev := dev.value);
    }
  }

  /** The kernel lists every device number once. */
  ghost predicate Listing(entries: seq<BlockEntry>) {
    forall i, j :: 0 <= i < j < |entries| && !entries[i].skipped && !entries[j].skipped ==>
      entries[i].major != entries[j].major || entries[i].minor != entries[j].minor
  }

  ghost predicate DistinctDevs(slots: seq<Slot>, count: nat)
    requires count <= |slots|
  {
    forall i, j :: 0 <= i < j < count && slots[i].present && slots[j].present ==> slots[i].dev != slots[j].dev
  }

  /** The entry is a whole disk with a device number that fits, behind slot `s`. */
  ghost predicate Backs(e: BlockEntry, s: int) {
    !e.skipped && e.major < 4096 && e.minor < 1048576 && e.slot == s
  }

  /** `dev` belongs to the first listed entry of slot `s`. */
  ghost predicate IsFirstDevice(entries: seq<BlockEntry>, s: nat, k: nat, dev: u32) {
    && k < |entries| && Backs(entries[k], s) && dev as int == entries[k].major * 1048576 + entries[k].minor
    && forall j :: 0 <= j < k ==> !Backs(entries[j], s)
  }

  /** No device is behind two slots, and a slot is present exactly when some
      listed device belongs to it; then it holds the first such device. */
  lemma DiscoveredIsAMatching(entries: seq<BlockEntry>, count: nat)
    requires count <= DISK_COUNT && Listing(entries)
    ensures var r := Discovered(entries, count);
            && DistinctDevs(r, count)
            && (forall s :: 0 <= s < DISK_COUNT ==>
                  (r[s].present <==> s < count && exists k :: 0 <= k < |entries| && Backs(entries[k], s)))
            && (forall s :: 0 <= s < DISK_COUNT && r[s].present ==>
                  exists k :: IsFirstDevice(entries, s, k, r[s].dev))
            && (forall s :: 0 <= s < DISK_COUNT && r[s].present ==> r[s].ledId as int == s + 2)
            && (forall s :: 0 <= s < DISK_COUNT ==> !r[s].active && r[s].deadline == 0)
  {
    forall s, k | 0 <= s < count && 0 <= k < |entries|
      ensures Candidate(entries[k], count, s) <==> Backs(entries[k], s)
    {
      PackingIsExact(entries[k]);
    }
    forall s | 0 <= s < DISK_COUNT && Discovered(entries, count)[s].present
      ensures exists k :: IsFirstDevice(entries, s, k, Discovered(entries, count)[s].dev)
    {
      var k := First(entries, count, s, |entries|).value;
      assert IsFirstDevice(entries, s, k, Discovered(entries, count)[s].dev);
    }
    var r := Discovered(entries, count);
    forall i, j | 0 <= i < j < count && r[i].present && r[j].present
      ensures r[i].dev != r[j].dev
    {
      var a := First(entries, count, i, |entries|).value;
      var b := First(entries, count, j, |entries|).value;
      assert entries[a].slot == i && entries[b].slot == j;
    }
  }
}
