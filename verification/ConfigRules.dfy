/** From configuration lines and options to settings: number parsing, the range
    check of each line, and the final validation. */
module ConfigRules {
  import opened Types
  import opened Settings
  import opened ConfigText
  import LedController
  import Serials

  // ----- numbers -----

  predicate IsDigit(c: char) {
    '0' <= c <= '9'
  }

  predicate AllDigits(s: string) {
    forall k :: 0 <= k < |s| ==> IsDigit(s[k])
  }

  function Value(s: string): nat
    requires AllDigits(s)
  {
    if s == [] then 0 else 10 * Value(s[..|s| - 1]) + (s[|s| - 1] as int - '0' as int)
  }

  /** `strtoul` on the whole text: leading spaces, an optional sign, digits, and
      nothing after them; None on malformed or too large numbers. A minus sign
      negates in 64 bits. */
  function Strtoul(text: string): Option<u64> {
    var t := TrimLeft(text);
    var signed := t != [] && (t[0] == '-' || t[0] == '+');
    var d := if signed then t[1..] else t;
    if d == [] || !AllDigits(d) || Value(d) > U64_MAX then None
    else if signed && t[0] == '-' then Some((0x1_0000_0000_0000_0000 - Value(d)) % 0x1_0000_0000_0000_0000)
    else Some(Value(d))
  }

  function ParseUnsigned(text: string, min: u32, max: u32): (r: Option<u32>)
    ensures r.Some? ==> min <= r.value <= max
  {
    var v := Strtoul(text);
    if v.None? || v.value as int < min as int || v.value as int > max as int then None else Some(v.value)
  }

  function Decimal(n: nat): (s: string)
    ensures s != [] && AllDigits(s)
  {
    if n < 10 then [('0' as int + n) as char] else Decimal(n / 10) + [('0' as int + n % 10) as char]
  }

  lemma {:induction false} ValueOfDecimal(n: nat)
    ensures Value(Decimal(n)) == n
  {
    if n >= 10 {
      ValueOfDecimal(n / 10);
      var s := Decimal(n);
      assert s[..|s| - 1] == Decimal(n / 10);
    } else {
      assert Decimal(n)[..0] == [];
    }
  }

  lemma DecimalHead(n: nat)
    ensures TrimLeft(Decimal(n)) == Decimal(n)
    ensures IsDigit(Decimal(n)[0])
  {
  }

  /** A printed number is read back exactly when it is in range. */
  lemma NumberRoundTrip(n: u32, min: u32, max: u32)
    ensures ParseUnsigned(Decimal(n), min, max) == if min <= n <= max then Some(n) else None
  {
    ValueOfDecimal(n);
    DecimalHead(n);
  }

  /** A quirk of the library call: a negative number is accepted when its 64-bit
      negation lands in the range, and only then. */
  lemma NegativeNumbers(n: nat, min: u32, max: u32)
    requires 0 < n <= U64_MAX && min > 0
    ensures ParseUnsigned("-" + Decimal(n), min, max).Some? <==>
              min as int <= 0x1_0000_0000_0000_0000 - n <= max as int
  {
    hide Strtoul, Decimal;
    MinusRead(n);
  }

  lemma MinusRead(n: nat)
    requires 0 < n <= U64_MAX
    ensures Strtoul("-" + Decimal(n)) == Some(0x1_0000_0000_0000_0000 - n)
  {
    hide Decimal;
    ValueOfDecimal(n);
    var t := "-" + Decimal(n);
    assert TrimLeft(t) == t && t[1..] == Decimal(n);
  }

  // ----- lines and options -----

  /** What `sscanf` found in a power mode value. */
  datatype PowerFields = PowerFields(count: int, mode: string, onMs: u32, offMs: u32)

  /** One recognised setting, or an unknown key. Numbers, mapping methods and serial
      lists are kept as text; colours, booleans and the interface name come as their
      parsers' results, None for an error. */
  datatype Line =
    | Interface(enabled: Option<bool>)
    | NetworkInterval(text: string)
    | NetworkPulse(text: string)
    | NetworkBrightness(text: string)
    | RxColor(color: Option<Rgb>)
    | TxColor(color: Option<Rgb>)
    | DiskInterval(text: string)
    | DiskHold(text: string)
    | DiskPulse(text: string)
    | DiskBrightness(text: string)
    | DiskColorAll(color: Option<Rgb>)
    | DiskColorOf(slot: nat, color: Option<Rgb>)
    | Invert(flag: Option<bool>)
    | PowerBrightness(text: string)
    | PowerColor(color: Option<Rgb>)
    | PowerModeIs(fields: PowerFields)
    | MappingMethod(text: string)
    | DiskSerial(text: string)
    | NoDisks
    | NoPower
    | Other

  function ParsePowerMode(f: PowerFields, s: Settings): Option<Settings> {
    if f.count == 1 && f.mode == "none" then Some(s.(powerMode := PowerOn))
    else if f.count != 3 || f.onMs > U16_MAX || f.offMs > U16_MAX ||
            (f.onMs as int + f.offMs as int) % 0x1_0000_0000 > U16_MAX then None
    else if f.mode == "blink" then Some(s.(powerMode := PowerBlink, powerOnMs := f.onMs, powerOffMs := f.offMs))
    else if f.mode == "breath" then Some(s.(powerMode := PowerBreath, powerOnMs := f.onMs, powerOffMs := f.offMs))
    else None
  }

  /** One assignment; None stops the load with an error. */
  function Assign(s: Settings, line: Line): Option<Settings> {
    match line
    case Interface(enabled) => if enabled.None? then None else Some(s.(networkEnabled := enabled.value))
    case NetworkInterval(text) =>
      var v := ParseUnsigned(text, 1, 1000); if v.None? then None else Some(s.(networkIntervalMs := v.value))
    case NetworkPulse(text) =>
      var v := ParseUnsigned(text, 0, 1000); if v.None? then None else Some(s.(networkPulseMs := v.value))
    case NetworkBrightness(text) =>
      var v := ParseUnsigned(text, 0, 255); if v.None? then None else Some(s.(networkBrightness := v.value))
    case RxColor(c) => if c.None? then None else Some(s.(rxColor := c.value))
    case TxColor(c) => if c.None? then None else Some(s.(txColor := c.value))
    case DiskInterval(text) =>
      var v := ParseUnsigned(text, 1, 1000); if v.None? then None else Some(s.(diskIntervalMs := v.value))
    case DiskHold(text) =>
      var v := ParseUnsigned(text, 1, 10000); if v.None? then None else Some(s.(diskHoldMs := v.value))
    case DiskPulse(text) =>
      var v := ParseUnsigned(text, 1, 1000); if v.None? then None else Some(s.(diskPulseMs := v.value))
    case DiskBrightness(text) =>
      var v := ParseUnsigned(text, 0, 255); if v.None? then None else Some(s.(diskBrightness := v.value))
    case DiskColorAll(c) => if c.None? then None else Some(s.(diskColor := c.value))
    case DiskColorOf(slot, c) =>
      if slot >= DISK_COUNT then Some(s)
      else if c.None? then None else Some(s.(diskColors := s.diskColors[slot := c.value]))
    case Invert(flag) => if flag.None? then None else Some(s.(diskInvert := flag.value))
    case PowerBrightness(text) =>
      var v := ParseUnsigned(text, 0, 255); if v.None? then None else Some(s.(powerBrightness := v.value))
    case PowerColor(c) => if c.None? then None else Some(s.(powerColor := c.value))
    case PowerModeIs(f) => ParsePowerMode(f, s)
    case MappingMethod(text) => if text == "ata" || text == "hctl" || text == "serial" then Some(s) else None
    case DiskSerial(text) => if Serials.Parsed(text).None? then None else Some(s)
    case NoDisks => Some(s.(disksEnabled := false))
    case NoPower => Some(s.(powerEnabled := false))
    case Other => Some(s)
  }

  function Loaded(s: Settings, lines: seq<Line>): Option<Settings> {
    if lines == [] then Some(s)
    else
      var r := Loaded(s, lines[..|lines| - 1]);
      if r.None? then None else Assign(r.value, lines[|lines| - 1])
  }

  /** File lines and options, then the final check. */
  function Accepted(lines: seq<Line>): Option<Settings> {
    var r := Loaded(DEFAULTS, lines);
    if r.None? || r.value.diskPulseMs >= r.value.diskIntervalMs ||
       (!r.value.powerEnabled && !r.value.disksEnabled && !r.value.networkEnabled) then None
    else r
  }

  method Load(lines: seq<Line>) returns (r: Option<Settings>)
    ensures r == Loaded(DEFAULTS, lines)
  {
    var s := DEFAULTS;
    for k := 0 to |lines|
      invariant Loaded(DEFAULTS, lines[..k]) == Some(s)
    {
      var v := Assign(s, lines[k]);
      assert lines[..k + 1][..k] == lines[..k];
      if v.None? {
        LoadStops(DEFAULTS, lines, k + 1);
        return None;
      }
      s := v.value;
    }
    assert lines[..|lines|] == lines;
    r := Some(s);
  }

  /** After an error no later line matters. */
  lemma {:induction false} LoadStops(s: Settings, lines: seq<Line>, k: nat)
    requires k <= |lines| && Loaded(s, lines[..k]).None?
    ensures Loaded(s, lines).None?
    decreases |lines|
  {
    if k == |lines| {
      assert lines[..k] == lines;
    } else {
      var prefix := lines[..|lines| - 1];
      assert prefix[..k] == lines[..k];
      LoadStops(s, prefix, k);
    }
  }

  // ----- what acceptance guarantees -----

  lemma AssignKeepsRange(s: Settings, line: Line)
    requires InRange(s)
    ensures Assign(s, line).Some? ==> InRange(Assign(s, line).value)
  {
    hide ParseUnsigned, ParsePowerMode, Serials.Parsed;
    if line.PowerModeIs? {
      PowerModeKeepsRange(s, line.fields);
    }
  }

  lemma PowerModeKeepsRange(s: Settings, f: PowerFields)
    requires InRange(s)
    ensures ParsePowerMode(f, s).Some? ==> InRange(ParsePowerMode(f, s).value)
  {
  }

  lemma {:induction false} LoadedInRange(lines: seq<Line>)
    ensures Loaded(DEFAULTS, lines).Some? ==> InRange(Loaded(DEFAULTS, lines).value)
  {
    if lines != [] {
      var prefix := lines[..|lines| - 1];
      LoadedInRange(prefix);
      if Loaded(DEFAULTS, prefix).Some? {
        AssignKeepsRange(Loaded(DEFAULTS, prefix).value, lines[|lines| - 1]);
      }
    }
  }

  /** Whatever mix of lines and options led to it, accepted settings are usable:
      blink times are positive and sum to the interval in either invert setting,
      no 16-bit cycle wraps, no blink call is malformed, and every disk deadline
      lies strictly after its event. */
  lemma AcceptedIsSafe(lines: seq<Line>, led: byte, now: Time)
    requires Accepted(lines).Some? && led < LED_COUNT
    ensures var s := Accepted(lines).value;
            var (on, off) := BlinkTimes(s);
            && Usable(s)
            && 0 < on && 0 < off && on as int + off as int == s.diskIntervalMs as int
            && now < Deadline(s, now)
            && LedController.Cycle(Low16(on), Low16(off)) as int == s.diskIntervalMs as int
            && LedController.Cycle(Low16(s.powerOnMs), Low16(s.powerOffMs)) as int
               == s.powerOnMs as int + s.powerOffMs as int
            && !LedController.Flash(led, Low16(on), Low16(off), false).Malformed()
            && forall breath :: !LedController.Flash(led, Low16(s.powerOnMs), Low16(s.powerOffMs), breath).Malformed()
  {
    LoadedInRange(lines);
    TimingIsExact(Accepted(lines).value, now);
  }

  // ----- and nothing more is lost -----

  lemma {:induction false} LoadedConcat(s: Settings, a: seq<Line>, b: seq<Line>)
    ensures Loaded(s, a + b) ==
            if Loaded(s, a).None? then None else Loaded(Loaded(s, a).value, b)
  {
    if b == [] {
      assert a + b == a;
    } else {
      LoadedConcat(s, a, b[..|b| - 1]);
      assert (a + b)[..|a + b| - 1] == a + b[..|b| - 1];
    }
  }

  lemma LoadedOne(s: Settings, line: Line)
    ensures Loaded(s, [line]) == Assign(s, line)
  {
    assert [line][..0] == [];
  }

  function NetworkLines(s: Settings): seq<Line> {
    [Interface(Some(s.networkEnabled)), NetworkInterval(Decimal(s.networkIntervalMs)),
     NetworkPulse(Decimal(s.networkPulseMs)), NetworkBrightness(Decimal(s.networkBrightness)),
     RxColor(Some(s.rxColor)), TxColor(Some(s.txColor))]
  }

  function DiskLines(s: Settings): seq<Line> {
    [DiskInterval(Decimal(s.diskIntervalMs)), DiskHold(Decimal(s.diskHoldMs)), DiskPulse(Decimal(s.diskPulseMs)),
     DiskBrightness(Decimal(s.diskBrightness)), DiskColorAll(Some(s.diskColor)), Invert(Some(s.diskInvert))]
  }

  function PowerLines(s: Settings): seq<Line> {
    [PowerBrightness(Decimal(s.powerBrightness)), PowerColor(Some(s.powerColor)),
     PowerModeIs(PowerFields(3, if s.powerMode == PowerBreath then "breath" else "blink", s.powerOnMs, s.powerOffMs))]
    + (if s.powerMode == PowerOn then [PowerModeIs(PowerFields(1, "none", 0, 0))] else [])
  }

  lemma LoadStep(t: Settings, l: seq<Line>, k: nat, u: Settings)
    requires k < |l| && Loaded(t, l[..k]) == Some(u)
    ensures Loaded(t, l[..k + 1]) == Assign(u, l[k])
    ensures k + 1 == |l| ==> Loaded(t, l) == Assign(u, l[k])
  {
    assert l[..k + 1][..k] == l[..k];
    assert k + 1 == |l| ==> l[..k + 1] == l;
  }

  function WithNetwork(t: Settings, s: Settings): Settings {
    t.(networkEnabled := s.networkEnabled, networkIntervalMs := s.networkIntervalMs,
       networkPulseMs := s.networkPulseMs, networkBrightness := s.networkBrightness,
       rxColor := s.rxColor, txColor := s.txColor)
  }

  lemma NetworkLinesLoad(t: Settings, s: Settings)
    requires InRange(s)
    ensures Loaded(t, NetworkLines(s)) == Some(WithNetwork(t, s))
  {
    hide ParseUnsigned, Loaded;
    NumberRoundTrip(s.networkIntervalMs, 1, 1000);
    NumberRoundTrip(s.networkPulseMs, 0, 1000);
    NumberRoundTrip(s.networkBrightness, 0, 255);
    var l := NetworkLines(s);
    LoadedNothing(t, l);
    var u1 := t.(networkEnabled := s.networkEnabled);
    LoadStep(t, l, 0, t);
    var u2 := u1.(networkIntervalMs := s.networkIntervalMs);
    LoadStep(t, l, 1, u1);
    var u3 := u2.(networkPulseMs := s.networkPulseMs);
    LoadStep(t, l, 2, u2);
    var u4 := u3.(networkBrightness := s.networkBrightness);
    LoadStep(t, l, 3, u3);
    LoadStep(t, l, 4, u4);
    LoadStep(t, l, 5, u4.(rxColor := s.rxColor));
  }

  lemma LoadedNothing(t: Settings, l: seq<Line>)
    ensures Loaded(t, l[..0]) == Some(t)
  {
  }

  function WithDisks(t: Settings, s: Settings): Settings {
    t.(diskIntervalMs := s.diskIntervalMs, diskHoldMs := s.diskHoldMs, diskPulseMs := s.diskPulseMs,
       diskBrightness := s.diskBrightness, diskColor := s.diskColor, diskInvert := s.diskInvert)
  }

  lemma DiskLinesLoad(t: Settings, s: Settings)
    requires InRange(s)
    ensures Loaded(t, DiskLines(s)) == Some(WithDisks(t, s))
  {
    hide ParseUnsigned, Loaded;
    NumberRoundTrip(s.diskIntervalMs, 1, 1000);
    NumberRoundTrip(s.diskHoldMs, 1, 10000);
    NumberRoundTrip(s.diskPulseMs, 1, 1000);
    NumberRoundTrip(s.diskBrightness, 0, 255);
    var l := DiskLines(s);
    LoadedNothing(t, l);
    var u1 := t.(diskIntervalMs := s.diskIntervalMs);
    LoadStep(t, l, 0, t);
    var u2 := u1.(diskHoldMs := s.diskHoldMs);
    LoadStep(t, l, 1, u1);
    var u3 := u2.(diskPulseMs := s.diskPulseMs);
    LoadStep(t, l, 2, u2);
    var u4 := u3.(diskBrightness := s.diskBrightness);
    LoadStep(t, l, 3, u3);
    LoadStep(t, l, 4, u4);
    LoadStep(t, l, 5, u4.(diskColor := s.diskColor));
  }

  function WithPower(t: Settings, s: Settings): Settings {
    t.(powerBrightness := s.powerBrightness, powerColor := s.powerColor, powerMode := s.powerMode,
       powerOnMs := s.powerOnMs, powerOffMs := s.powerOffMs)
  }

  lemma PowerLinesLoad(t: Settings, s: Settings)
    requires InRange(s)
    ensures Loaded(t, PowerLines(s)) == Some(WithPower(t, s))
  {
    hide ParseUnsigned, Loaded;
    NumberRoundTrip(s.powerBrightness, 0, 255);
    var l := PowerLines(s);
    LoadedNothing(t, l);
    var u1 := t.(powerBrightness := s.powerBrightness);
    LoadStep(t, l, 0, t);
    var u2 := u1.(powerColor := s.powerColor);
    LoadStep(t, l, 1, u1);
    var u3 := u2.(powerMode := if s.powerMode == PowerBreath then PowerBreath else PowerBlink,
                  powerOnMs := s.powerOnMs, powerOffMs := s.powerOffMs);
    LoadStep(t, l, 2, u2);
    if s.powerMode == PowerOn {
      LoadStep(t, l, 3, u3);
    }
  }

  /** Switches that only options can turn off, and only off. */
  function SwitchLines(s: Settings): seq<Line> {
    (if s.disksEnabled then [] else [NoDisks]) + (if s.powerEnabled then [] else [NoPower])
  }

  lemma SwitchLinesLoad(t: Settings, s: Settings)
    requires t.disksEnabled && t.powerEnabled
    ensures Loaded(t, SwitchLines(s)) == Some(t.(disksEnabled := s.disksEnabled, powerEnabled := s.powerEnabled))
  {
    LoadedOne(t, NoDisks);
    LoadedOne(t, NoPower);
    LoadedOne(t.(disksEnabled := false), NoPower);
    LoadedConcat(t, if s.disksEnabled then [] else [NoDisks], if s.powerEnabled then [] else [NoPower]);
  }

  /** The overrides of the first `n` disks. */
  function ColorLines(s: Settings, n: nat): seq<Line> {
    if n == 0 then []
    else ColorLines(s, n - 1)
         + (if n - 1 in s.diskColors then [DiskColorOf(n - 1, Some(s.diskColors[n - 1]))] else [])
  }

  function Overrides(s: Settings, n: nat): map<nat, Rgb> {
    map k | k in s.diskColors && k < n :: s.diskColors[k]
  }

  lemma OneMoreOverride(s: Settings, n: nat)
    ensures Overrides(s, 0) == map[]
    ensures Overrides(s, n + 1) ==
            if n in s.diskColors then Overrides(s, n)[n := s.diskColors[n]] else Overrides(s, n)
  {
  }

  lemma {:induction false} ColorLinesLoad(t: Settings, s: Settings, n: nat)
    requires n <= DISK_COUNT && t.diskColors == map[]
    ensures Loaded(t, ColorLines(s, n)) == Some(t.(diskColors := Overrides(s, n)))
  {
    hide Loaded, Overrides, ParseUnsigned, ParsePowerMode;
    if n == 0 {
      OneMoreOverride(s, 0);
      LoadedNothing(t, []);
      assert [][..0] == ColorLines(s, 0);
    } else {
      OneMoreOverride(s, n - 1);
      ColorLinesLoad(t, s, n - 1);
      if n - 1 in s.diskColors {
        var line := DiskColorOf(n - 1, Some(s.diskColors[n - 1]));
        LoadedConcat(t, ColorLines(s, n - 1), [line]);
        LoadedOne(t.(diskColors := Overrides(s, n - 1)), line);
      } else {
        assert ColorLines(s, n) == ColorLines(s, n - 1);
      }
    }
  }

  /** Lines that write down given settings. */
  function Written(s: Settings): seq<Line> {
    NetworkLines(s) + DiskLines(s) + PowerLines(s) + SwitchLines(s) + ColorLines(s, DISK_COUNT)
  }

  /** Every usable configuration can be written down, and reading it back gives
      it exactly. */
  lemma WrittenIsAccepted(s: Settings)
    requires Usable(s)
    ensures Accepted(Written(s)) == Some(s)
  {
    hide Loaded, NetworkLines, DiskLines, PowerLines, SwitchLines, ColorLines;
    var t1 := WithNetwork(DEFAULTS, s);
    NetworkLinesLoad(DEFAULTS, s);
    var t2 := WithDisks(t1, s);
    DiskLinesLoad(t1, s);
    LoadedConcat(DEFAULTS, NetworkLines(s), DiskLines(s));
    var t3 := WithPower(t2, s);
    PowerLinesLoad(t2, s);
    LoadedConcat(DEFAULTS, NetworkLines(s) + DiskLines(s), PowerLines(s));
    var t4 := t3.(disksEnabled := s.disksEnabled, powerEnabled := s.powerEnabled);
    SwitchLinesLoad(t3, s);
    LoadedConcat(DEFAULTS, NetworkLines(s) + DiskLines(s) + PowerLines(s), SwitchLines(s));
    ColorLinesLoad(t4, s, DISK_COUNT);
    LoadedConcat(DEFAULTS, NetworkLines(s) + DiskLines(s) + PowerLines(s) + SwitchLines(s), ColorLines(s, DISK_COUNT));
    assert Overrides(s, DISK_COUNT) == s.diskColors;
  }

  /** The accepted configurations are exactly the usable ones. */
  lemma AcceptedIff(s: Settings)
    ensures (exists lines :: Accepted(lines) == Some(s)) <==> Usable(s)
  {
    if Usable(s) {
      WrittenIsAccepted(s);
    }
    forall lines | Accepted(lines) == Some(s)
      ensures Usable(s)
    {
      LoadedInRange(lines);
    }
  }

  // ----- settings that are only checked -----

  /** A line that changes nothing, or that is never accepted. */
  lemma {:induction false} NeutralLine(s: Settings, a: seq<Line>, line: Line, b: seq<Line>)
    requires forall t :: Assign(t, line) == Some(t)
    ensures Loaded(s, a + [line] + b) == Loaded(s, a + b)
  {
    hide Loaded, Assign;
    LoadedConcat(s, a + [line], b);
    LoadedConcat(s, a, [line]);
    LoadedConcat(s, a, b);
    if Loaded(s, a).Some? {
      LoadedOne(Loaded(s, a).value, line);
    }
  }

  lemma {:induction false} RejectedLine(s: Settings, a: seq<Line>, line: Line, b: seq<Line>)
    requires forall t :: Assign(t, line).None?
    ensures Loaded(s, a + [line] + b).None?
  {
    hide Loaded, Assign;
    LoadedConcat(s, a + [line], b);
    LoadedConcat(s, a, [line]);
    if Loaded(s, a).Some? {
      LoadedOne(Loaded(s, a).value, line);
    }
  }

  /** A mapping method is accepted anywhere if it is one of the three, and then plays
      no part in the other settings; otherwise nothing is loaded. */
  lemma MappingIsChecked(s: Settings, a: seq<Line>, text: string, b: seq<Line>)
    ensures Loaded(s, a + [MappingMethod(text)] + b) ==
            if text in ["ata", "hctl", "serial"] then Loaded(s, a + b) else None
  {
    hide Loaded;
    if text in ["ata", "hctl", "serial"] {
      NeutralLine(s, a, MappingMethod(text), b);
    } else {
      RejectedLine(s, a, MappingMethod(text), b);
    }
  }

  /** A list of serial numbers likewise: up to eight, each shorter than 128. */
  lemma SerialsAreChecked(s: Settings, a: seq<Line>, tokens: seq<string>, gaps: seq<string>, b: seq<Line>)
    requires Serials.Gaps(tokens, gaps) && forall k :: 0 <= k < |tokens| ==> Serials.Token(tokens[k])
    ensures Loaded(s, a + [DiskSerial(Serials.Join(tokens, gaps))] + b) ==
            if |tokens| <= 8 && forall k :: 0 <= k < |tokens| ==> |tokens[k]| < 128 then Loaded(s, a + b) else None
  {
    hide Loaded, Serials.Parsed, Serials.Join;
    Serials.SerialsRoundTrip(tokens, gaps);
    var line := DiskSerial(Serials.Join(tokens, gaps));
    if Serials.Parsed(line.text).Some? {
      NeutralLine(s, a, line, b);
    } else {
      RejectedLine(s, a, line, b);
    }
  }

  // ----- the last line of a setting decides -----

  /** Both lines are about the same setting. */
  predicate SameSetting(x: Line, y: Line) {
    match x
    case Interface(_) => y.Interface?
    case NetworkInterval(_) => y.NetworkInterval?
    case NetworkPulse(_) => y.NetworkPulse?
    case NetworkBrightness(_) => y.NetworkBrightness?
    case RxColor(_) => y.RxColor?
    case TxColor(_) => y.TxColor?
    case DiskInterval(_) => y.DiskInterval?
    case DiskHold(_) => y.DiskHold?
    case DiskPulse(_) => y.DiskPulse?
    case DiskBrightness(_) => y.DiskBrightness?
    case DiskColorAll(_) => y.DiskColorAll?
    case DiskColorOf(slot, _) => y.DiskColorOf? && y.slot == slot
    case Invert(_) => y.Invert?
    case PowerBrightness(_) => y.PowerBrightness?
    case PowerColor(_) => y.PowerColor?
    case PowerModeIs(_) => y.PowerModeIs?
    case _ => false
  }

  /** The number that a text spells out. */
  predicate Reads(text: string, n: u32) {
    Strtoul(text) == Some(n)
  }

  /** The settings have what the line says. */
  predicate Holds(s: Settings, line: Line) {
    match line
    case Interface(enabled) => enabled == Some(s.networkEnabled)
    case NetworkInterval(text) => Reads(text, s.networkIntervalMs)
    case NetworkPulse(text) => Reads(text, s.networkPulseMs)
    case NetworkBrightness(text) => Reads(text, s.networkBrightness)
    case RxColor(color) => color == Some(s.rxColor)
    case TxColor(color) => color == Some(s.txColor)
    case DiskInterval(text) => Reads(text, s.diskIntervalMs)
    case DiskHold(text) => Reads(text, s.diskHoldMs)
    case DiskPulse(text) => Reads(text, s.diskPulseMs)
    case DiskBrightness(text) => Reads(text, s.diskBrightness)
    case DiskColorAll(color) => color == Some(s.diskColor)
    case DiskColorOf(slot, color) => slot < 8 ==> slot in s.diskColors && color == Some(s.diskColors[slot])
    case Invert(flag) => flag == Some(s.diskInvert)
    case PowerBrightness(text) => Reads(text, s.powerBrightness)
    case PowerColor(color) => color == Some(s.powerColor)
    case PowerModeIs(f) => PowerHolds(s, f)
    case NoDisks => !s.disksEnabled
    case NoPower => !s.powerEnabled
    case _ => true
  }

  predicate PowerHolds(s: Settings, f: PowerFields) {
    if f.mode == "none" then s.powerMode == PowerOn
    else
      && s.powerMode == (if f.mode == "blink" then PowerBlink else PowerBreath)
      && s.powerOnMs == f.onMs && s.powerOffMs == f.offMs
  }

  /** An accepted power mode value is in force, and nothing else has changed. */
  lemma PowerModeHolds(f: PowerFields, s: Settings)
    requires ParsePowerMode(f, s).Some?
    ensures var t := ParsePowerMode(f, s).value;
            && PowerHolds(t, f)
            && t == s.(powerMode := t.powerMode, powerOnMs := t.powerOnMs, powerOffMs := t.powerOffMs)
  {
  }

  lemma NumberRead(text: string, min: u32, max: u32)
    ensures ParseUnsigned(text, min, max).Some? ==> Reads(text, ParseUnsigned(text, min, max).value)
  {
  }

  /** An accepted line is in force. */
  lemma AssignHolds(s: Settings, line: Line)
    requires Assign(s, line).Some?
    ensures Holds(Assign(s, line).value, line)
  {
    hide ParsePowerMode, Serials.Parsed, Strtoul;
    if line.PowerModeIs? {
      PowerModeHolds(line.fields, s);
    }
  }

  predicate NetworkLine(x: Line) {
    x.Interface? || x.NetworkInterval? || x.NetworkPulse? || x.NetworkBrightness? || x.RxColor? || x.TxColor?
  }

  predicate DiskLine(x: Line) {
    || x.DiskInterval? || x.DiskHold? || x.DiskPulse? || x.DiskBrightness? || x.DiskColorAll? || x.DiskColorOf?
    || x.Invert?
  }

  lemma NetworkHeld(s: Settings, y: Line, line: Line)
    requires NetworkLine(y) && Holds(s, y) && !SameSetting(y, line) && Assign(s, line).Some? && !line.PowerModeIs?
    ensures Holds(Assign(s, line).value, y)
  {
    hide ParseUnsigned, Serials.Parsed, Reads, PowerHolds;
  }

  lemma DiskHeld(s: Settings, y: Line, line: Line)
    requires DiskLine(y) && Holds(s, y) && !SameSetting(y, line) && Assign(s, line).Some? && !line.PowerModeIs?
    ensures Holds(Assign(s, line).value, y)
  {
    hide ParseUnsigned, Serials.Parsed, Reads, PowerHolds;
  }

  lemma OtherHeld(s: Settings, y: Line, line: Line)
    requires !NetworkLine(y) && !DiskLine(y) && Holds(s, y) && !SameSetting(y, line)
    requires Assign(s, line).Some? && !line.PowerModeIs?
    ensures Holds(Assign(s, line).value, y)
  {
    hide ParseUnsigned, Serials.Parsed, Reads;
  }

  lemma HeldByPowerMode(s: Settings, y: Line, f: PowerFields)
    requires Holds(s, y) && !y.PowerModeIs? && ParsePowerMode(f, s).Some?
    ensures Holds(ParsePowerMode(f, s).value, y)
  {
    hide ParsePowerMode, PowerHolds, Reads;
    PowerModeHolds(f, s);
  }

  /** A later line for another setting leaves it in force. */
  lemma AssignKeepsOthers(s: Settings, y: Line, line: Line)
    requires Holds(s, y) && !SameSetting(y, line) && Assign(s, line).Some?
    ensures Holds(Assign(s, line).value, y)
  {
    if line.PowerModeIs? {
      hide Holds, ParsePowerMode;
      HeldByPowerMode(s, y, line.fields);
    } else {
      hide Holds, Assign;
      if NetworkLine(y) {
        NetworkHeld(s, y, line);
      } else if DiskLine(y) {
        DiskHeld(s, y, line);
      } else {
        OtherHeld(s, y, line);
      }
    }
  }

  /** The last line of a setting decides, in the file and on the command line after it. */
  lemma {:induction false} LastLineDecides(s: Settings, lines: seq<Line>, k: nat)
    requires Loaded(s, lines).Some? && k < |lines|
    requires forall j :: k < j < |lines| ==> !SameSetting(lines[k], lines[j])
    ensures Holds(Loaded(s, lines).value, lines[k])
    decreases |lines|
  {
    hide Assign, Holds, SameSetting;
    var m := |lines| - 1;
    var before := Loaded(s, lines[..m]).value;
    if k == m {
      AssignHolds(before, lines[m]);
    } else {
      LastLineDecides(s, lines[..m], k);
      AssignKeepsOthers(before, lines[k], lines[m]);
    }
  }

  // ----- disk colours -----

  /** The last override for disk `k`. */
  function LastOverride(lines: seq<Line>, k: nat): Option<Rgb> {
    if lines == [] then None
    else
      var last := lines[|lines| - 1];
      if last.DiskColorOf? && last.slot == k then last.color else LastOverride(lines[..|lines| - 1], k)
  }

  /** The last colour for all disks; white without one. */
  function LastDiskColor(lines: seq<Line>): Rgb {
    if lines == [] then Rgb(255, 255, 255)
    else
      var last := lines[|lines| - 1];
      if last.DiskColorAll? && last.color.Some? then last.color.value else LastDiskColor(lines[..|lines| - 1])
  }

  /** The colours of disk `k` and of all disks. */
  ghost predicate Colors(s: Settings, k: nat, own: Option<Rgb>, all: Rgb) {
    && s.diskColor == all
    && (if own.Some? then k in s.diskColors && s.diskColors[k] == own.value else k !in s.diskColors)
  }

  lemma AssignColors(s: Settings, line: Line, k: nat, own: Option<Rgb>, all: Rgb)
    requires Assign(s, line).Some? && Colors(s, k, own, all) && k < 8
    ensures Colors(Assign(s, line).value, k, if line.DiskColorOf? && line.slot == k then line.color else own,
                   if line.DiskColorAll? && line.color.Some? then line.color.value else all)
    ensures line.DiskColorOf? && line.slot == k ==> line.color.Some?
  {
    hide ParseUnsigned, ParsePowerMode, Serials.Parsed;
    if line.PowerModeIs? {
      PowerModeHolds(line.fields, s);
    }
  }

  lemma DefaultColors(k: nat)
    ensures Colors(DEFAULTS, k, None, Rgb(255, 255, 255))
  {
  }

  /** In loaded settings the colours of the disks are those of the last lines that set
      them. */
  lemma {:induction false} DiskColorsLoaded(lines: seq<Line>, k: nat)
    requires Loaded(DEFAULTS, lines).Some? && k < 8
    ensures Colors(Loaded(DEFAULTS, lines).value, k, LastOverride(lines, k), LastDiskColor(lines))
  {
    hide Assign, Colors;
    if lines == [] {
      DefaultColors(k);
    } else {
      var prefix, last := lines[..|lines| - 1], lines[|lines| - 1];
      DiskColorsLoaded(prefix, k);
      AssignColors(Loaded(DEFAULTS, prefix).value, last, k, LastOverride(prefix, k), LastDiskColor(prefix));
    }
  }

  // ----- the documented defaults -----

  /** The settings that the documentation lists with their defaults, in its order. */
  const DOCUMENTED: seq<Line> := [
    Interface(Some(false)),
    NetworkInterval("100"), NetworkPulse("45"), RxColor(Some(Rgb(0, 96, 255))), TxColor(Some(Rgb(255, 0, 0))),
    NetworkBrightness("255"),
    MappingMethod("ata"), DiskSerial("SN1 SN2 SN3 SN4"),
    DiskInterval("100"), DiskHold("200"), DiskPulse("45"), Invert(Some(false)),
    DiskColorAll(Some(Rgb(255, 255, 255))), DiskBrightness("255"),
    PowerModeIs(PowerFields(1, "none", 0, 0)), PowerBrightness("255"), PowerColor(Some(Rgb(255, 255, 255)))]

  /** Lines that repeat what is in force change nothing. */
  lemma {:induction false} RepeatedLines(s: Settings, lines: seq<Line>)
    requires forall k :: 0 <= k < |lines| ==> Assign(s, lines[k]) == Some(s)
    ensures Loaded(s, lines) == Some(s)
  {
    hide Assign;
    if lines != [] {
      RepeatedLines(s, lines[..|lines| - 1]);
    }
  }

  lemma DocumentedNumbers()
    ensures Decimal(100) == "100" && Decimal(45) == "45" && Decimal(255) == "255" && Decimal(200) == "200"
  {
    assert Decimal(10) == "10" && Decimal(25) == "25" && Decimal(20) == "20";
  }

  /** One more serial number, with a space after it. */
  lemma OneMoreSerial(token: string, text: string, tokens: seq<string>, gaps: seq<string>)
    requires Serials.Gaps(tokens, gaps) && Serials.Join(tokens, gaps) == text && gaps[0] == ""
    requires tokens != []
    ensures var tokens1, gaps1 := [token] + tokens, ["", " "] + gaps[1..];
            Serials.Gaps(tokens1, gaps1) && Serials.Join(tokens1, gaps1) == token + " " + text
  {
    var tokens1, gaps1 := [token] + tokens, ["", " "] + gaps[1..];
    assert tokens1[1..] == tokens && gaps1[1..] == [" "] + gaps[1..];
    assert Serials.Join(tokens1[1..], gaps1[1..]) == " " + text by {
      assert gaps1[1..][1..] == gaps[1..];
    }
    assert gaps1[0] + (token + (" " + text)) == token + " " + text;
    assert forall k :: 1 < k < |gaps1| ==> gaps1[k] == gaps[k - 1];
  }

  lemma DocumentedSerials()
    ensures Serials.Parsed("SN1 SN2 SN3 SN4").Some?
  {
    hide Serials.Parsed, Serials.Join, Serials.Gaps;
    LastSerial();
    OneMoreSerial("SN3", "SN4", ["SN4"], ["", ""]);
    assert ["", ""][1..] == [""] && ["", " ", ""][1..] == [" ", ""] && ["", " ", " ", ""][1..] == [" ", " ", ""];
    assert ["SN3"] + ["SN4"] == ["SN3", "SN4"] && ["", " "] + [""] == ["", " ", ""];
    assert "SN3" + " " + "SN4" == "SN3 SN4";
    OneMoreSerial("SN2", "SN3 SN4", ["SN3", "SN4"], ["", " ", ""]);
    assert ["SN2"] + ["SN3", "SN4"] == ["SN2", "SN3", "SN4"] && ["", " "] + [" ", ""] == ["", " ", " ", ""];
    assert "SN2" + " " + "SN3 SN4" == "SN2 SN3 SN4";
    OneMoreSerial("SN1", "SN2 SN3 SN4", ["SN2", "SN3", "SN4"], ["", " ", " ", ""]);
    assert "SN1" + " " + "SN2 SN3 SN4" == "SN1 SN2 SN3 SN4";
    Serials.SerialsRoundTrip(["SN1"] + ["SN2", "SN3", "SN4"], ["", " "] + [" ", " ", ""]);
  }

  lemma LastSerial()
    ensures Serials.Gaps(["SN4"], ["", ""]) && Serials.Join(["SN4"], ["", ""]) == "SN4"
  {
    assert ["SN4"][1..] == [] && ["", ""][1..] == [""];
    assert "" + ("SN4" + "") == "SN4";
  }

  /** The documented defaults are the real ones: a file that sets them all is read like
      an empty one, whatever lines and options follow. */
  lemma DocumentedDefaults(lines: seq<Line>)
    ensures Loaded(DEFAULTS, DOCUMENTED + lines) == Loaded(DEFAULTS, lines)
    ensures Accepted(DOCUMENTED) == Accepted([]) == Some(DEFAULTS)
  {
    hide Loaded;
    DocumentedLines();
    RepeatedLines(DEFAULTS, DOCUMENTED);
    RepeatedLines(DEFAULTS, []);
    LoadedConcat(DEFAULTS, DOCUMENTED, lines);
  }

  lemma DocumentedLines()
    ensures forall k :: 0 <= k < |DOCUMENTED| ==> Assign(DEFAULTS, DOCUMENTED[k]) == Some(DEFAULTS)
  {
    hide ParseUnsigned, Serials.Parsed, Decimal;
    DocumentedNumbers();
    DocumentedSerials();
    NumberRoundTrip(100, 1, 1000);
    NumberRoundTrip(45, 0, 1000);
    NumberRoundTrip(45, 1, 1000);
    NumberRoundTrip(255, 0, 255);
    NumberRoundTrip(200, 1, 10000);
  }
}
