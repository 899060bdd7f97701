/** The LED microcontroller as the protocol tables describe it, and the bus to
    it. The bus may fail in every way the drivers can see: which way is fixed in
    advance by `faults`, one outcome for each attempt; an exhausted list means a
    healthy bus. A theorem about every `faults` is a theorem about every pattern
    of failures. */
module Mcu {
  import opened Types
  import opened WireFormat

  datatype Mode = Off | On | Blink | Breath

  datatype Led = Led(mode: Mode, brightness: byte, color: Rgb, cycle: u16, onTime: u16)

  datatype Command =
    | CmdBrightness(level: byte)
    | CmdColor(color: Rgb)
    | CmdOn(on: bool)
    | CmdBlink(cycle: u16, onTime: u16)
    | CmdBreath(cycle: u16, onTime: u16)

  function Word(high: byte, low: byte): u16 {
    high as int * 0x100 + low as int
  }

  /** How the microcontroller reads a frame; a malformed one is ignored. */
  function Decode(frame: seq<byte>): Option<Command> {
    if |frame| != 12 || frame[1..5] != [0xa0, 0x01, 0x00, 0x00] ||
       Sum(frame[1..10]) != Word(frame[10], frame[11]) then None
    else if frame[5] == 1 then Some(CmdBrightness(frame[6]))
    else if frame[5] == 2 then Some(CmdColor(Rgb(frame[6], frame[7], frame[8])))
    else if frame[5] == 3 && frame[6] < 2 then Some(CmdOn(frame[6] == 1))
    else if frame[5] == 4 then
      Some(CmdBlink(Word(frame[6], frame[7]), Word(frame[8], frame[9])))
    else if frame[5] == 5 then
      Some(CmdBreath(Word(frame[6], frame[7]), Word(frame[8], frame[9])))
    else None
  }

  /** What one command does to one LED. */
  function Execute(led: Led, c: Command): Led {
    match c
    case CmdBrightness(level) => led.(brightness := level)
    case CmdColor(color) => led.(color := color)
    case CmdOn(on) => led.(mode := if on then On else Off)
    case CmdBlink(cycle, onTime) => led.(mode := Blink, cycle := cycle, onTime := onTime)
    case CmdBreath(cycle, onTime) => led.(mode := Breath, cycle := cycle, onTime := onTime)
  }

  /** The LEDs after a frame arrives at register `reg`. */
  function Receive(leds: seq<Led>, reg: byte, frame: seq<byte>): (r: seq<Led>)
    ensures |r| == |leds|
    ensures forall j :: 0 <= j < |leds| && j != reg ==> r[j] == leds[j]
  {
    if reg < |leds| && |frame| == 12 && frame[0] == reg && Decode(frame).Some?
    then leds[reg := Execute(leds[reg], Decode(frame).value)]
    else leds
  }

  /** The command byte and the four parameters that ask for a command. */
  function Code(c: Command): byte {
    match c
    case CmdBrightness(_) => 1
    case CmdColor(_) => 2
    case CmdOn(_) => 3
    case CmdBlink(_, _) => 4
    case CmdBreath(_, _) => 5
  }

  function Timing(cycle: u16, onTime: u16): Params {
    Params(cycle / 0x100, cycle % 0x100, onTime / 0x100, onTime % 0x100)
  }

  function Args(c: Command): Params {
    match c
    case CmdBrightness(level) => Params(level, 0, 0, 0)
    case CmdColor(color) => Params(color.r, color.g, color.b, 0)
    case CmdOn(on) => Params(if on then 1 else 0, 0, 0, 0)
    case CmdBlink(cycle, onTime) => Timing(cycle, onTime)
    case CmdBreath(cycle, onTime) => Timing(cycle, onTime)
  }

  function FrameFor(led: byte, c: Command): seq<byte> {
    ProtocolFrame(led, Code(c), Args(c))
  }

  /** The frame addresses LED `reg` and asks it for `c`. */
  ghost predicate Asks(frame: seq<byte>, reg: byte, c: Command) {
    |frame| == 12 && frame[0] == reg && Decode(frame) == Some(c)
  }

  /** Every command survives the trip over the wire. */
  lemma DecodeFrame(led: byte, c: Command)
    ensures Asks(FrameFor(led, c), led, c)
  {
    var f := FrameFor(led, c);
    var p := Params(f[6], f[7], f[8], f[9]);
    assert f == ProtocolFrame(led, f[5], p);
    assert f[1..10] == Body(f[5], p);
    assert f[1..5] == [0xa0, 0x01, 0x00, 0x00];
  }

  // ----- the bus -----

  /** What happens to one attempt: the block write fails, the acknowledgement
      register cannot be read, or it reads `value`. A failed attempt may have
      been applied or not; an acknowledgement of 1 means it was. */
  datatype Outcome =
    | WriteFails(lost: bool)
    | AckFails(lost: bool)
    | Acks(value: byte, lost: bool)
  {
    predicate Accepted() {
      this == Acks(1, lost)
    }

    predicate Applied() {
      !lost || Accepted()
    }
  }

  datatype Bus = Bus(leds: seq<Led>, faults: seq<Outcome>, sent: nat, ack: Option<byte>) {
    predicate Valid() {
      |leds| == LED_COUNT
    }

    predicate Healthy() {
      faults == []
    }
  }

  function NextOutcome(b: Bus): Outcome {
    if b.faults == [] then Acks(1, false) else b.faults[0]
  }

  /** One block write; the result says whether the write itself was reported
      successful. */
  function Write(b: Bus, reg: byte, frame: seq<byte>): (Bus, bool) {
    var o := NextOutcome(b);
    (Bus(if o.Applied() then Receive(b.leds, reg, frame) else b.leds,
         if b.faults == [] then [] else b.faults[1..],
         b.sent + 1,
         if o.Acks? then Some(o.value) else None),
     !o.WriteFails?)
  }

  const RETRY_COUNT: nat := 5

  /** The retry loop that the daemon and the kernel module share: write, read
      the acknowledgement, stop at the first 1; `last` is the error so far. */
  function Send(b: Bus, reg: byte, frame: seq<byte>, left: nat, last: Status): (r: (Bus, Status))
    ensures |r.0.leds| == |b.leds|
    decreases left, |b.faults|
  {
    if left == 0 then (b, last)
    else
      var (b1, written) := Write(b, reg, frame);
      if !written || b1.ack.None? then Send(b1, reg, frame, left - 1, IoError)
      else if b1.ack.value == 1 then (b1, Ok)
      else Send(b1, reg, frame, left - 1, Refused)
  }

  /** `b1` is `b` except that LED `reg` may have executed `c`. */
  ghost predicate AtMost(b: Bus, b1: Bus, reg: byte, c: Command) {
    && b.Valid() && b1.Valid() && reg < LED_COUNT
    && (forall j :: 0 <= j < LED_COUNT && j != reg ==> b1.leds[j] == b.leds[j])
    && (b1.leds[reg] == b.leds[reg] || b1.leds[reg] == Execute(b.leds[reg], c))
  }

  lemma ExecuteTwice(led: Led, c: Command)
    ensures Execute(Execute(led, c), c) == Execute(led, c)
  {
  }

  lemma AtMostTwice(b: Bus, b1: Bus, b2: Bus, reg: byte, c: Command)
    requires AtMost(b, b1, reg, c) && AtMost(b1, b2, reg, c)
    ensures AtMost(b, b2, reg, c)
    ensures b2.leds[reg] == Execute(b1.leds[reg], c) ==> b2.leds[reg] == Execute(b.leds[reg], c)
  {
    ExecuteTwice(b.leds[reg], c);
  }

  lemma WriteEffect(b: Bus, reg: byte, frame: seq<byte>, c: Command)
    requires b.Valid() && reg < LED_COUNT && Asks(frame, reg, c)
    ensures var b1 := Write(b, reg, frame).0;
            && AtMost(b, b1, reg, c) && b1.sent == b.sent + 1
            && (b1.ack == Some(1) ==> b1.leds[reg] == Execute(b.leds[reg], c))
  {
  }

  /** Whatever goes wrong, a retry loop touches only its own LED, leaves it
      either untouched or with the command applied, and reports success only in
      the second case. */
  lemma {:induction false} SendEffect(b: Bus, reg: byte, frame: seq<byte>, c: Command, left: nat, last: Status)
    requires b.Valid() && reg < LED_COUNT && Asks(frame, reg, c)
    requires last == IoError || last == Refused
    ensures var (b1, s) := Send(b, reg, frame, left, last);
            && AtMost(b, b1, reg, c)
            && (s == Ok ==> b1.leds[reg] == Execute(b.leds[reg], c))
            && b.sent + (if left > 0 then 1 else 0) <= b1.sent <= b.sent + left
            && s != Invalid
    decreases left
  {
    if left > 0 {
      var (b1, written) := Write(b, reg, frame);
      WriteEffect(b, reg, frame, c);
      if !written || b1.ack != Some(1) {
        var last1 := if written && b1.ack.Some? then Refused else IoError;
        SendEffect(b1, reg, frame, c, left - 1, last1);
        AtMostTwice(b, b1, Send(b1, reg, frame, left - 1, last1).0, reg, c);
      }
    }
  }

  /** On a healthy bus the first attempt succeeds. */
  lemma SendHealthy(b: Bus, reg: byte, frame: seq<byte>, c: Command, left: nat, last: Status)
    requires b.Valid() && reg < LED_COUNT && left > 0 && b.Healthy() && Asks(frame, reg, c)
    ensures Send(b, reg, frame, left, last) ==
            (Bus(b.leds[reg := Execute(b.leds[reg], c)], [], b.sent + 1, Some(1)), Ok)
  {
  }

  // ----- how a retry loop ends, told from the outcomes ahead of it -----

  /** One of the next `n` attempts is acknowledged with 1. */
  predicate Acknowledged(faults: seq<Outcome>, n: nat) {
    |faults| < n || exists k :: 0 <= k < n && faults[k].Accepted()
  }

  /** One of the next `n` attempts is applied, acknowledged or not. */
  predicate Reached(faults: seq<Outcome>, n: nat) {
    |faults| < n || exists k :: 0 <= k < n && faults[k].Applied()
  }

  /** The outcomes left when `n` attempts are over, or one was acknowledged. */
  function Rest(faults: seq<Outcome>, n: nat): seq<Outcome> {
    if n == 0 || faults == [] then faults
    else if faults[0].Accepted() then faults[1..]
    else Rest(faults[1..], n - 1)
  }

  lemma AheadStep(faults: seq<Outcome>, n: nat)
    requires n > 0 && faults != []
    ensures Acknowledged(faults, n) <==> faults[0].Accepted() || Acknowledged(faults[1..], n - 1)
    ensures Reached(faults, n) <==> faults[0].Applied() || Reached(faults[1..], n - 1)
  {
    var rest := faults[1..];
    if |faults| >= n {
      assert forall k :: 0 < k < n ==> faults[k] == rest[k - 1];
      assert forall k :: 0 <= k < n - 1 ==> rest[k] == faults[k + 1];
    }
  }

  lemma AcknowledgedReaches(faults: seq<Outcome>, n: nat)
    ensures Acknowledged(faults, n) ==> Reached(faults, n)
  {
  }

  /** The retry loop reports success exactly when one of its attempts is
      acknowledged; the device has executed the command exactly when one of them
      is applied. */
  lemma {:induction false} SendOutcome(b: Bus, reg: byte, frame: seq<byte>, c: Command, n: nat, last: Status)
    requires b.Valid() && reg < LED_COUNT && Asks(frame, reg, c)
    requires last == IoError || last == Refused
    ensures var (b1, s) := Send(b, reg, frame, n, last);
            && (s == Ok <==> Acknowledged(b.faults, n))
            && (Acknowledged(b.faults, n) ==> Reached(b.faults, n))
            && b1.faults == Rest(b.faults, n)
            && b1.leds == if Reached(b.faults, n) then b.leds[reg := Execute(b.leds[reg], c)] else b.leds
    decreases n
  {
    if n > 0 {
      if b.faults == [] {
        SendHealthy(b, reg, frame, c, n, last);
      } else {
        var (b1, written) := Write(b, reg, frame);
        AheadStep(b.faults, n);
        ExecuteTwice(b.leds[reg], c);
        if !b.faults[0].Accepted() {
          SendOutcome(b1, reg, frame, c, n - 1, if written && b1.ack.Some? then Refused else IoError);
        }
      }
    }
  }

  /** A bus on which the next `n` writes are lost. */
  ghost predicate Deaf(b: Bus, n: nat) {
    |b.faults| == n && forall k :: 0 <= k < n ==> b.faults[k] == WriteFails(true)
  }

  lemma {:induction false} DeafRest(faults: seq<Outcome>, n: nat)
    requires |faults| == n && forall k :: 0 <= k < n ==> faults[k] == WriteFails(true)
    ensures Rest(faults, n) == [] && !Reached(faults, n)
  {
    if n > 0 {
      DeafRest(faults[1..], n - 1);
    }
  }

  /** The device behind the bus file descriptor. */
  class Device {
    var bus: Bus

    constructor (bus: Bus)
      ensures this.bus == bus
    {
      this.bus := bus;
    }

    method WriteBlock(reg: byte, frame: seq<byte>) returns (ok: bool)
      modifies this
      ensures (bus, ok) == Write(old(bus), reg, frame)
    {
      var r := Write(bus, reg, frame);
      bus, ok := r.0, r.1;
    }

    method ReadAck() returns (value: Option<byte>)
      ensures value == bus.ack
    {
      value := bus.ack;
    }
  }
}
