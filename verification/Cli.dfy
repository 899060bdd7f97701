/** The command line tool: status queries and blink commands, end to end through
    the microcontroller. */
module Cli {
  import opened Types
  import opened WireFormat
  import opened Mcu

  datatype LedData = LedData(mode: Mode, brightness: byte, color: Rgb, tOn: u16, tOff: u16)

  function ModeCode(m: Mode): byte {
    match m
    case Off => 0
    case On => 1
    case Blink => 2
    case Breath => 3
  }

  /** The nine data bytes of the documented status block. */
  function StatusBytes(led: Led): (r: seq<byte>)
    ensures |r| == 9
  {
    [ModeCode(led.mode), led.brightness, led.color.r, led.color.g, led.color.b,
     led.cycle / 0x100, led.cycle % 0x100, led.onTime / 0x100, led.onTime % 0x100]
  }

  /** The eleven bytes the microcontroller answers with: the data and its sum. */
  function StatusBlock(led: Led): seq<byte> {
    var sum := Sum(StatusBytes(led));
    SumBound(StatusBytes(led));
    StatusBytes(led) + [sum / 0x100, sum % 0x100]
  }

  /** `get_status` on the raw answer; None is "not available". */
  function GetStatus(raw: seq<byte>): Option<LedData> {
    if |raw| != 11 || !VerifyChecksum(raw) || raw[0] > 3 then None
    else
      var mode := if raw[0] == 0 then Off else if raw[0] == 1 then On else if raw[0] == 2 then Blink else Breath;
      var high, low := Word(raw[5], raw[6]), Word(raw[7], raw[8]);
      Some(LedData(mode, raw[1], Rgb(raw[2], raw[3], raw[4]), low, (high as int - low as int) % 0x1_0000))
  }

  /** The checker rejects a zero sum, so one real LED state — off, dark, black,
      never blinked — looks like a missing LED. */
  predicate Blank(led: Led) {
    led == Led(Off, 0, Rgb(0, 0, 0), 0, 0)
  }

  lemma StatusBlockVerifies(led: Led)
    ensures VerifyChecksum(StatusBlock(led)) <==> !Blank(led)
  {
    var data := StatusBytes(led);
    SumBound(data);
    assert StatusBlock(led)[..9] == data;
    SumZero(data);
    if Sum(data) == 0 {
      assert data[0] == 0 && data[1] == 0 && data[2] == 0 && data[3] == 0 && data[4] == 0;
      assert data[5] == 0 && data[6] == 0 && data[7] == 0 && data[8] == 0;
    }
    if Blank(led) {
      assert forall k :: 0 <= k < 9 ==> data[k] == 0;
    }
  }

  /** Reading back any LED state: exact, except that the blank state reads as
      unavailable. */
  lemma StatusRoundTrip(led: Led)
    ensures GetStatus(StatusBlock(led)) ==
            if Blank(led) then None
            else Some(LedData(led.mode, led.brightness, led.color, led.onTime,
                              (led.cycle as int - led.onTime as int) % 0x1_0000))
  {
    StatusBlockVerifies(led);
  }

  /** The LED state that a block tells of. */
  function Told(raw: seq<byte>): Led
    requires |raw| == 11
  {
    var mode := if raw[0] == 0 then Off else if raw[0] == 1 then On else if raw[0] == 2 then Blink else Breath;
    Led(mode, raw[1], Rgb(raw[2], raw[3], raw[4]), Word(raw[5], raw[6]), Word(raw[7], raw[8]))
  }

  /** The tool takes an answer for a status exactly when it is the block of some LED
      state other than the blank one: every other eleven bytes are rejected. */
  lemma AvailableIff(raw: seq<byte>)
    ensures GetStatus(raw).Some? <==> exists led :: !Blank(led) && raw == StatusBlock(led)
  {
    if GetStatus(raw).Some? {
      var led := Told(raw);
      assert raw[..9] == StatusBytes(led);
      assert raw == StatusBytes(led) + [raw[9], raw[10]];
      assert raw == StatusBlock(led);
      StatusBlockVerifies(led);
    }
    forall led | !Blank(led) && raw == StatusBlock(led) ensures GetStatus(raw).Some? {
      StatusRoundTrip(led);
    }
  }

  /** The frame of `set_blink` (command 4) and `set_breath` (command 5). */
  function BlinkFrame(led: byte, breath: bool, tOn: u16, tOff: u16): seq<byte> {
    var high := (tOn as int + tOff as int) % 0x1_0000;
    CliFrame(led, if breath then 5 else 4, Params(high / 0x100, high % 0x100, tOn / 0x100, tOn % 0x100))
  }

  /** For all 16-bit on and off times, even when their sum wraps, a blink command
      followed by a status query returns the same two times, whatever the LED
      did before. */
  lemma BlinkRoundTrip(leds: seq<Led>, led: byte, breath: bool, tOn: u16, tOff: u16)
    requires led < |leds|
    ensures var after := Receive(leds, led, BlinkFrame(led, breath, tOn, tOff))[led];
            && after.mode == (if breath then Breath else Blink)
            && GetStatus(StatusBlock(after)) ==
               Some(LedData(after.mode, leds[led].brightness, leds[led].color, tOn, tOff))
  {
    hide GetStatus, StatusBlock, Decode;
    var c := BlinkCommand(breath, tOn, tOff);
    BlinkFrameAsks(led, breath, tOn, tOff);
    StatusRoundTrip(Execute(leds[led], c));
    WrappedDifference(tOn, tOff);
  }

  function BlinkCommand(breath: bool, tOn: u16, tOff: u16): Command {
    var high := (tOn as int + tOff as int) % 0x1_0000;
    if breath then CmdBreath(high, tOn) else CmdBlink(high, tOn)
  }

  lemma BlinkFrameAsks(led: byte, breath: bool, tOn: u16, tOff: u16)
    ensures Asks(BlinkFrame(led, breath, tOn, tOff), led, BlinkCommand(breath, tOn, tOff))
  {
    hide ProtocolFrame, CliFrame, Decode;
    var c := BlinkCommand(breath, tOn, tOff);
    FramesAgree(led, Code(c), Args(c));
    DecodeFrame(led, c);
    assert BlinkFrame(led, breath, tOn, tOff) == FrameFor(led, c);
  }

  lemma WrappedDifference(tOn: u16, tOff: u16)
    ensures ((tOn as int + tOff as int) % 0x1_0000 - tOn as int) % 0x1_0000 == tOff
  {
  }
}
