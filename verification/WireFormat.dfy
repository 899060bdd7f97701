/** The 12-byte command frame and the 11-byte status block of the LED
    microcontroller, with the three encoders and the two checksum checkers that
    the repository contains. */
module WireFormat {
  import opened Types

  // ----- byte sums -----

  function Sum(s: seq<byte>): nat {
    if s == [] then 0 else Sum(s[..|s| - 1]) + s[|s| - 1]
  }

  lemma {:induction false} SumBound(s: seq<byte>)
    ensures Sum(s) <= 255 * |s|
  {
    if s != [] {
      SumBound(s[..|s| - 1]);
    }
  }

  lemma {:induction false} SumUpdate(s: seq<byte>, k: nat, v: byte)
    requires k < |s|
    ensures Sum(s[k := v]) == Sum(s) - s[k] as int + v as int
  {
    var n := |s| - 1;
    if k == n {
      assert s[k := v][..n] == s[..n];
    } else {
      SumUpdate(s[..n], k, v);
      assert s[k := v][..n] == s[..n][k := v];
    }
  }

  lemma {:induction false} SumConcat(s: seq<byte>, t: seq<byte>)
    ensures Sum(s + t) == Sum(s) + Sum(t)
  {
    if t == [] {
      assert s + t == s;
    } else {
      assert (s + t)[..|s + t| - 1] == s + t[..|t| - 1];
      SumConcat(s, t[..|t| - 1]);
    }
  }

  lemma SumOne(b: byte)
    ensures Sum([b]) == b
  {
    assert [b][..0] == [];
  }

  /** Sums of short literal frames, one byte at a time. */
  lemma SumUpTo(s: seq<byte>, n: nat)
    requires n < |s|
    ensures Sum(s[..n + 1]) == Sum(s[..n]) + s[n]
  {
    assert s[..n + 1][..n] == s[..n];
  }

  // ----- the documented frame -----

  datatype Params = Params(p0: byte, p1: byte, p2: byte, p3: byte)

  /** Bytes 0x01 to 0x09 of the documented frame. */
  function Body(command: byte, p: Params): (b: seq<byte>)
    ensures |b| == 9
  {
    [0xa0, 0x01, 0x00, 0x00, command, p.p0, p.p1, p.p2, p.p3]
  }

  /** The frame as the protocol table documents it: the LED id, the body, and
      the big-endian sum of the body. */
  function ProtocolFrame(led: byte, command: byte, p: Params): (f: seq<byte>)
    ensures |f| == 12
  {
    var sum := Sum(Body(command, p));
    SumBound(Body(command, p));
    [led] + Body(command, p) + [sum / 0x100, sum % 0x100]
  }

  lemma BodySum(command: byte, p: Params)
    ensures Sum(Body(command, p)) == 0xa1 + command as int + p.p0 as int + p.p1 as int + p.p2 as int + p.p3 as int
    ensures Sum([0x00] + Body(command, p)) == Sum(Body(command, p))
  {
    var s := Body(command, p);
    SumUpTo(s, 0);
    SumUpTo(s, 1);
    SumUpTo(s, 2);
    SumUpTo(s, 3);
    SumUpTo(s, 4);
    SumUpTo(s, 5);
    SumUpTo(s, 6);
    SumUpTo(s, 7);
    SumUpTo(s, 8);
    assert s[..9] == s;
    SumConcat([0x00], s);
    SumOne(0x00);
  }

  // ----- userspace daemon: fill a buffer, sum it, then patch byte 0 -----

  method Checksum(data: array<byte>, size: nat) returns (sum: nat)
    requires size <= data.Length
    ensures sum == Sum(data[..size])
  {
    sum := 0;
    for i := 0 to size
      invariant sum == Sum(data[..i])
    {
      sum := sum + data[i];
      assert data[..i + 1][..i] == data[..i];
    }
  }

  method DaemonFrame(led: byte, command: byte, p: Params) returns (frame: seq<byte>)
    ensures frame == ProtocolFrame(led, command, p)
  {
    var data := new byte[12] [0x00, 0xa0, 0x01, 0x00, 0x00, command,
                              p.p0, p.p1, p.p2, p.p3, 0x00, 0x00];
    var sum := Checksum(data, 10);
    assert data[..10] == [0x00] + Body(command, p);
    BodySum(command, p);
    data[10] := (sum / 0x100) % 0x100;
    data[11] := sum % 0x100;
    data[0] := led;
    frame := data[..];
  }

  // ----- kernel module: one 16-bit expression -----

  function KmodFrame(led: byte, command: byte, p: Params): (f: seq<byte>) {
    var cksum := (0xa1 + command as int + p.p0 as int + p.p1 as int + p.p2 as int + p.p3 as int) % 0x1_0000;
    [led, 0xa0, 0x01, 0x00, 0x00, command, p.p0, p.p1, p.p2, p.p3,
     (cksum / 0x100) % 0x100, cksum % 0x100]
  }

  // ----- command line tool: growable vector -----

  function ComputedChecksum(data: seq<byte>, size: int): nat {
    if size < 2 || size > |data| then 0 else Sum(data[..size])
  }

  method ComputeChecksum(data: seq<byte>, size: int) returns (sum: nat)
    ensures sum == ComputedChecksum(data, size)
  {
    if size < 2 || size > |data| {
      return 0;
    }
    sum := 0;
    for i := 0 to size
      invariant sum == Sum(data[..i])
    {
      sum := sum + data[i];
      assert data[..i + 1][..i] == data[..i];
    }
  }

  predicate VerifyChecksum(data: seq<byte>) {
    var size := |data|;
    if size < 2 then false
    else
      var sum := ComputedChecksum(data, size - 2);
      sum != 0 && sum == data[size - 1] as int + 0x100 * data[size - 2] as int
  }

  function AppendChecksum(data: seq<byte>): (r: seq<byte>)
    ensures |r| == |data| + 2
  {
    var sum := ComputedChecksum(data, |data|);
    data + [(sum / 0x100) % 0x100] + [sum % 0x100]
  }

  function CliFrame(led: byte, command: byte, p: Params): (f: seq<byte>) {
    var data := AppendChecksum([0x00, 0xa0, 0x01, 0x00, 0x00, command, p.p0, p.p1, p.p2, p.p3]);
    data[0 := led]
  }

  /** All three encoders put the documented twelve bytes on the bus; the daemon's
      is `DaemonFrame` above. */
  lemma FramesAgree(led: byte, command: byte, p: Params)
    ensures KmodFrame(led, command, p) == ProtocolFrame(led, command, p)
    ensures CliFrame(led, command, p) == ProtocolFrame(led, command, p)
  {
    KmodFrameAgrees(led, command, p);
    CliFrameAgrees(led, command, p);
  }

  lemma KmodFrameAgrees(led: byte, command: byte, p: Params)
    ensures KmodFrame(led, command, p) == ProtocolFrame(led, command, p)
  {
    BodySum(command, p);
  }

  lemma CliFrameAgrees(led: byte, command: byte, p: Params)
    ensures CliFrame(led, command, p) == ProtocolFrame(led, command, p)
  {
    hide Sum;
    BodySum(command, p);
    var data := [0x00] + Body(command, p);
    assert data == [0x00, 0xa0, 0x01, 0x00, 0x00, command, p.p0, p.p1, p.p2, p.p3];
    assert data[..10] == data;
  }

  // ----- what the checksum does and does not detect -----

  /** Exactly which payloads survive `append` followed by `verify`. */
  lemma AppendedVerifies(data: seq<byte>)
    ensures VerifyChecksum(AppendChecksum(data)) <==> |data| >= 2 && 0 < Sum(data) < 0x1_0000
  {
    var frame := AppendChecksum(data);
    var n := |data|;
    assert data[..n] == data;
    assert frame[..n] == data;
    var sum := ComputedChecksum(data, n);
    assert frame[n] == (sum / 0x100) % 0x100 && frame[n + 1] == sum % 0x100;
    Bytes(sum);
  }

  /** Two bytes hold a sum exactly when it is below 2^16. */
  lemma Bytes(sum: nat)
    ensures sum == sum % 0x100 + 0x100 * ((sum / 0x100) % 0x100) <==> sum < 0x1_0000
  {
    var q := sum / 0x100;
    assert sum == 0x100 * q + sum % 0x100;
    assert q % 0x100 == q <==> q < 0x100;
  }

  /** Up to 257 bytes the 16-bit checksum never overflows. */
  lemma ShortFramesVerify(data: seq<byte>)
    requires 2 <= |data| <= 257
    ensures VerifyChecksum(AppendChecksum(data)) <==> exists k :: 0 <= k < |data| && data[k] != 0
  {
    AppendedVerifies(data);
    SumBound(data);
    SumZero(data);
  }

  lemma {:induction false} SumZero(s: seq<byte>)
    ensures Sum(s) == 0 <==> forall k :: 0 <= k < |s| ==> s[k] == 0
  {
    if s != [] {
      var t := s[..|s| - 1];
      SumZero(t);
      assert forall k :: 0 <= k < |t| ==> s[k] == t[k];
    }
  }

  /** Every single-byte corruption of an accepted frame is rejected. */
  lemma SingleByteChangeRejected(frame: seq<byte>, k: nat, v: byte)
    requires VerifyChecksum(frame)
    requires k < |frame| && v != frame[k]
    ensures !VerifyChecksum(frame[k := v])
  {
    var n := |frame| - 2;
    var changed := frame[k := v];
    if k < n {
      SumUpdate(frame[..n], k, v);
      assert changed[..n] == frame[..n][k := v];
    } else {
      assert changed[..n] == frame[..n];
    }
  }

  /** A transposition of two payload bytes is never detected. */
  lemma TranspositionAccepted(frame: seq<byte>, i: nat, j: nat)
    requires VerifyChecksum(frame)
    requires i < |frame| - 2 && j < |frame| - 2
    ensures VerifyChecksum(frame[i := frame[j]][j := frame[i]])
  {
    var n := |frame| - 2;
    SumUpdate(frame[..n], i, frame[j]);
    SumUpdate(frame[..n][i := frame[j]], j, frame[i]);
    assert frame[i := frame[j]][j := frame[i]][..n] == frame[..n][i := frame[j]][j := frame[i]];
  }

  /** A command frame carries the sum of bytes 1 to 9 only, so the tool's own
      checker, which sums from byte 0, accepts it for LED 0 and no other. */
  lemma CommandFrameSelfChecks(led: byte, command: byte, p: Params)
    ensures VerifyChecksum(CliFrame(led, command, p)) <==> led == 0
  {
    FramesAgree(led, command, p);
    BodySum(command, p);
    var f := ProtocolFrame(led, command, p);
    assert f[..10] == [led] + Body(command, p);
    SumConcat([led], Body(command, p));
    SumOne(led);
  }

  /** The kernel module's check of an 11-byte status block, in 16-bit arithmetic. */
  method KmodAccepts(buf: array<byte>) returns (ok: bool)
    requires buf.Length == 11
    ensures ok == VerifyChecksum(buf[..])
  {
    var sum: u16 := 0;
    SumBound(buf[..9]);
    for i := 0 to 9
      invariant sum == Sum(buf[..i])
    {
      assert buf[..i + 1][..i] == buf[..i];
      SumBound(buf[..i + 1]);
      sum := (sum + buf[i]) % 0x1_0000;
    }
    assert buf[..][..9] == buf[..9];
    ok := !(sum == 0 || sum != buf[9] as int * 0x100 + buf[10] as int);
  }
}
