/** The daemon's settings, and the arithmetic that relies on their ranges. */
module Settings {
  import opened Types

  datatype PowerMode = PowerOn | PowerBlink | PowerBreath

  datatype Settings = Settings(
    networkEnabled: bool,
    disksEnabled: bool,
    powerEnabled: bool,
    networkIntervalMs: u32,
    networkPulseMs: u32,
    networkBrightness: u32,
    rxColor: Rgb,
    txColor: Rgb,
    diskIntervalMs: u32,
    diskHoldMs: u32,
    diskPulseMs: u32,
    diskBrightness: u32,
    diskColor: Rgb,
    diskColors: map<nat, Rgb>,
    diskInvert: bool,
    powerBrightness: u32,
    powerColor: Rgb,
    powerMode: PowerMode,
    powerOnMs: u32,
    powerOffMs: u32)

  const DEFAULTS := Settings(
    false, true, true,
    100, 45, 255, Rgb(0, 96, 255), Rgb(255, 0, 0),
    100, 200, 45, 255, Rgb(255, 255, 255), map[], false,
    255, Rgb(255, 255, 255), PowerOn, 0, 0)

  function DiskColor(s: Settings, slot: nat): Rgb {
    if slot < DISK_COUNT && slot in s.diskColors then s.diskColors[slot] else s.diskColor
  }

  /** The ranges each single setting is kept in. */
  predicate InRange(s: Settings) {
    && 1 <= s.networkIntervalMs <= 1000
    && s.networkPulseMs <= 1000
    && s.networkBrightness <= 255
    && 1 <= s.diskIntervalMs <= 1000
    && 1 <= s.diskHoldMs <= 10000
    && 1 <= s.diskPulseMs <= 1000
    && s.diskBrightness <= 255
    && s.powerBrightness <= 255
    && s.powerOnMs as int + s.powerOffMs as int <= U16_MAX
    && (forall slot :: slot in s.diskColors ==> slot < DISK_COUNT)
  }

  /** What the final check adds. */
  predicate Usable(s: Settings) {
    && InRange(s)
    && s.diskPulseMs < s.diskIntervalMs
    && (s.powerEnabled || s.disksEnabled || s.networkEnabled)
  }

  /** Unsigned 32-bit subtraction. */
  function Minus(a: u32, b: u32): u32 {
    (a as int - b as int) % 0x1_0000_0000
  }

  /** `(uint16_t)` of an unsigned int. */
  function Low16(a: u32): u16 {
    a % 0x1_0000
  }

  function Low8(a: u32): byte {
    a % 0x100
  }

  /** On and off time of the activity blink. */
  function BlinkTimes(s: Settings): (u32, u32) {
    if s.diskInvert then (Minus(s.diskIntervalMs, s.diskPulseMs), s.diskPulseMs)
    else (s.diskPulseMs, Minus(s.diskIntervalMs, s.diskPulseMs))
  }

  /** When the disk becomes idle again. */
  function Deadline(s: Settings, now: Time): u64 {
    (now as int + s.diskHoldMs as int * NS_PER_MS) % 0x1_0000_0000_0000_0000
  }

  /** Validated settings make the timing arithmetic exact: no wrap, no
      truncation, positive on and off times, and a deadline in the future. */
  lemma TimingIsExact(s: Settings, now: Time)
    requires Usable(s)
    ensures var (on, off) := BlinkTimes(s);
            && 0 < on && 0 < off
            && on as int + off as int == s.diskIntervalMs as int
            && Low16(on) == on && Low16(off) == off
            && (if s.diskInvert then off == s.diskPulseMs else on == s.diskPulseMs)
    ensures Deadline(s, now) as int == now as int + s.diskHoldMs as int * 1_000_000
    ensures now < Deadline(s, now) < U64_MAX
    ensures Low8(s.diskBrightness) == s.diskBrightness
    ensures Low8(s.networkBrightness) == s.networkBrightness
    ensures Low8(s.powerBrightness) == s.powerBrightness
    ensures Low16(s.powerOnMs) == s.powerOnMs && Low16(s.powerOffMs) == s.powerOffMs
  {
  }
}
