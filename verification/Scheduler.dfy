/** Credit scheduler that picks the colour of each network pulse. Credits are
    exact reals. */
module Scheduler {
  import opened Types

  datatype Sample = Sample(rx: u64, tx: u64) {
    predicate Mixed() {
      rx != 0 && tx != 0
    }

    /** The share of received bytes; meaningful for mixed samples. */
    function Share(): real
      requires Mixed()
    {
      rx as real / (rx as real + tx as real)
    }
  }

  datatype Pulses = Pulses(rxCredit: real, txCredit: real, rxPulses: u64, txPulses: u64)

  const INITIAL := Pulses(0.0, 0.0, 0, 0)

  /** One call of the scheduler: the new state and whether RX was chosen. */
  function Choice(p: Pulses, s: Sample): (Pulses, bool) {
    if s.tx == 0 then (p.(rxPulses := SaturatingAdd(p.rxPulses, 1)), true)
    else if s.rx == 0 then (p.(txPulses := SaturatingAdd(p.txPulses, 1)), false)
    else
      var total := s.rx as real + s.tx as real;
      var rxCredit := p.rxCredit + s.rx as real / total;
      var txCredit := p.txCredit + s.tx as real / total;
      if rxCredit >= txCredit
      then (Pulses(rxCredit - 1.0, txCredit, SaturatingAdd(p.rxPulses, 1), p.txPulses), true)
      else (Pulses(rxCredit, txCredit - 1.0, p.rxPulses, SaturatingAdd(p.txPulses, 1)), false)
  }

  /** The state after a history of samples. */
  function After(h: seq<Sample>): Pulses {
    if h == [] then INITIAL else Choice(After(h[..|h| - 1]), h[|h| - 1]).0
  }

  /** Whether sample `k` of a history was answered with RX. */
  predicate PickedRx(h: seq<Sample>, k: nat)
    requires k < |h|
  {
    Choice(After(h[..k]), h[k]).1
  }

  /** Sum of the RX shares of the mixed samples in `h[from..]`. */
  function Shares(h: seq<Sample>, from: nat): real
    requires from <= |h|
    decreases |h|
  {
    if |h| == from then 0.0
    else
      var last := h[|h| - 1];
      Shares(h[..|h| - 1], from) + (if last.Mixed() then last.Share() else 0.0)
  }

  /** Mixed samples in `h[from..]` answered with RX. */
  function MixedPicks(h: seq<Sample>, from: nat): nat
    requires from <= |h|
    decreases |h|
  {
    if |h| == from then 0
    else MixedPicks(h[..|h| - 1], from) + (if h[|h| - 1].Mixed() && PickedRx(h, |h| - 1) then 1 else 0)
  }

  /** Mixed samples in `h[from..]`. */
  function MixedCount(h: seq<Sample>, from: nat): nat
    requires from <= |h|
    decreases |h|
  {
    if |h| == from then 0
    else MixedCount(h[..|h| - 1], from) + (if h[|h| - 1].Mixed() then 1 else 0)
  }

  lemma SharesAddUp(s: Sample)
    requires s.Mixed()
    ensures 0.0 < s.Share() < 1.0
    ensures s.tx as real / (s.rx as real + s.tx as real) == 1.0 - s.Share()
  {
    ProperFraction(s.rx as real, s.tx as real);
  }

  lemma ProperFraction(r: real, t: real)
    requires r > 0.0 && t > 0.0
    ensures 0.0 < r / (r + t) < 1.0
    ensures t / (r + t) == 1.0 - r / (r + t)
  {
    var b := r + t;
    var x, y := r / b, t / b;
    assert x * b == r && y * b == t;
    Distribute(x, y, b);
    SameFactor(x + y, 1.0, b);
  }

  lemma Distribute(x: real, y: real, b: real)
    ensures (x + y) * b == x * b + y * b
  {
  }

  lemma SameFactor(x: real, y: real, b: real)
    requires b > 0.0 && x * b == y * b
    ensures x == y
  {
    if x < y {
      PositiveProduct(y - x, b);
    } else if x > y {
      PositiveProduct(x - y, b);
    }
  }

  lemma PositiveProduct(x: real, b: real)
    requires x > 0.0 && b > 0.0
    ensures x * b > 0.0
  {
  }

  /** Credits are the difference between what RX deserved and what it got, and
      never leave [-1/2, 1/2). */
  lemma {:induction false} CreditClosedForm(h: seq<Sample>)
    ensures After(h).rxCredit == Shares(h, 0) - MixedPicks(h, 0) as real
    ensures After(h).txCredit == -After(h).rxCredit
    ensures -0.5 <= After(h).rxCredit < 0.5
  {
    if h != [] {
      var prefix, last := h[..|h| - 1], h[|h| - 1];
      CreditClosedForm(prefix);
      if last.Mixed() {
        SharesAddUp(last);
      }
    }
  }

  /** The whole history in closed form: the number of mixed samples answered
      with RX is the rounded sum of their RX shares; one-sided samples play no
      part in it. */
  lemma PicksAreRoundedShares(h: seq<Sample>)
    ensures MixedPicks(h, 0) == (Shares(h, 0) + 0.5).Floor
    ensures After(h).rxCredit == Shares(h, 0) - (Shares(h, 0) + 0.5).Floor as real
  {
    CreditClosedForm(h);
    var x := Shares(h, 0) + 0.5;
    var n := MixedPicks(h, 0);
    assert n as real <= x < n as real + 1.0;
  }

  /** Samples of a history answered with RX, or with TX. */
  function Picks(h: seq<Sample>, rx: bool): nat {
    if h == [] then 0
    else Picks(h[..|h| - 1], rx) + (if PickedRx(h, |h| - 1) == rx then 1 else 0)
  }

  /** The pulse counters count the answers, up to the largest 64-bit number. */
  lemma {:induction false} PulsesCounted(h: seq<Sample>)
    ensures After(h).rxPulses == (if Picks(h, true) <= U64_MAX then Picks(h, true) else U64_MAX)
    ensures After(h).txPulses == (if Picks(h, false) <= U64_MAX then Picks(h, false) else U64_MAX)
    ensures Picks(h, true) + Picks(h, false) == |h|
  {
    if h != [] {
      PulsesCounted(h[..|h| - 1]);
    }
  }

  /** A one-sided sample picks its own side and leaves the credits alone. */
  lemma OneSidedSample(p: Pulses, s: Sample)
    requires !s.Mixed()
    ensures var (p1, rx) := Choice(p, s);
            p1.rxCredit == p.rxCredit && p1.txCredit == p.txCredit && (rx <==> s.tx == 0)
  {
  }

  // ----- fairness -----

  lemma {:induction false} WindowSplits(h: seq<Sample>, from: nat)
    requires from <= |h|
    ensures Shares(h, 0) == Shares(h[..from], 0) + Shares(h, from)
    ensures MixedPicks(h, 0) == MixedPicks(h[..from], 0) + MixedPicks(h, from)
    decreases |h|
  {
    if |h| == from {
      assert h[..from] == h;
    } else {
      var prefix := h[..|h| - 1];
      WindowSplits(prefix, from);
      assert prefix[..from] == h[..from];
    }
  }

  lemma {:induction false} SharesBound(h: seq<Sample>, from: nat)
    requires from <= |h|
    ensures 0.0 <= Shares(h, from) <= MixedCount(h, from) as real
    ensures MixedPicks(h, from) <= MixedCount(h, from)
    decreases |h|
  {
    if |h| != from {
      SharesBound(h[..|h| - 1], from);
      if h[|h| - 1].Mixed() {
        SharesAddUp(h[|h| - 1]);
      }
    }
  }

  /** In any window inside any history, either direction's picks among the
      mixed samples differ from its deserved share by strictly less than one. */
  lemma WindowFairness(h: seq<Sample>, from: nat)
    requires from <= |h|
    ensures var picks, shares, n := MixedPicks(h, from) as real, Shares(h, from), MixedCount(h, from) as real;
            && -1.0 < picks - shares < 1.0
            && -1.0 < (n - picks) - (n - shares) < 1.0
  {
    CreditClosedForm(h);
    CreditClosedForm(h[..from]);
    WindowSplits(h, from);
  }

  /** No colour is pinned: a window in which TX deserves at least one pulse
      contains a mixed sample answered with TX, and likewise for RX. */
  lemma NoPinning(h: seq<Sample>, from: nat)
    requires from <= |h|
    ensures MixedCount(h, from) as real - Shares(h, from) >= 1.0 ==>
              exists k :: from <= k < |h| && h[k].Mixed() && !PickedRx(h, k)
    ensures Shares(h, from) >= 1.0 ==>
              exists k :: from <= k < |h| && h[k].Mixed() && PickedRx(h, k)
  {
    WindowFairness(h, from);
    PicksWitness(h, from);
  }

  lemma {:induction false} PicksWitness(h: seq<Sample>, from: nat)
    requires from <= |h|
    ensures MixedPicks(h, from) < MixedCount(h, from) ==>
              exists k :: from <= k < |h| && h[k].Mixed() && !PickedRx(h, k)
    ensures MixedPicks(h, from) > 0 ==>
              exists k :: from <= k < |h| && h[k].Mixed() && PickedRx(h, k)
    decreases |h|
  {
    if |h| != from {
      var prefix := h[..|h| - 1];
      PicksWitness(prefix, from);
      SharesBound(prefix, from);
      forall k | from <= k < |prefix|
        ensures PickedRx(prefix, k) == PickedRx(h, k) && prefix[k] == h[k]
      {
        assert prefix[..k] == h[..k];
      }
      if MixedPicks(prefix, from) < MixedCount(prefix, from) {
        var k :| from <= k < |prefix| && prefix[k].Mixed() && !PickedRx(prefix, k);
        assert h[k].Mixed() && !PickedRx(h, k);
      }
      if MixedPicks(prefix, from) > 0 {
        var k :| from <= k < |prefix| && prefix[k].Mixed() && PickedRx(prefix, k);
        assert h[k].Mixed() && PickedRx(h, k);
      }
      assert h[|h| - 1].Mixed() ==> PickedRx(h, |h| - 1) || !PickedRx(h, |h| - 1);
    }
  }

  // ----- constant traffic -----

  function Repeat(s: Sample, n: nat): (h: seq<Sample>)
    ensures |h| == n && forall k :: 0 <= k < n ==> h[k] == s
  {
    seq(n, _ => s)
  }

  lemma {:induction false} RepeatShares(s: Sample, n: nat)
    requires s.Mixed()
    ensures Shares(Repeat(s, n), 0) == n as real * s.Share()
  {
    if n > 0 {
      RepeatShares(s, n - 1);
      assert Repeat(s, n)[..n - 1] == Repeat(s, n - 1);
      assert n as real * s.Share() == (n - 1) as real * s.Share() + s.Share();
    }
  }

  lemma ShareInLowestTerms(s: Sample, g: nat, p: nat, q: nat)
    requires s.Mixed() && s.rx == g * p && s.tx == g * q
    ensures p + q > 0 && s.Share() == p as real / (p + q) as real
  {
    assert g > 0 && p > 0;
    assert g * p + g * q == g * (p + q);
    IntMul(g, p);
    IntMul(g, p + q);
    Cancel(g as real, p as real, (p + q) as real);
  }

  /** Constant bytes a:b in lowest terms p:q — after every k rounds of p + q
      samples exactly k * p were RX and the credits are back to zero. */
  lemma ConstantRatio(s: Sample, g: nat, p: nat, q: nat, k: nat)
    requires s.Mixed() && s.rx == g * p && s.tx == g * q
    ensures MixedPicks(Repeat(s, k * (p + q)), 0) == k * p
    ensures After(Repeat(s, k * (p + q))).rxCredit == 0.0
    ensures After(Repeat(s, k * (p + q))).txCredit == 0.0
  {
    var n := k * (p + q);
    RoundsShares(s, g, p, q, k);
    CreditClosedForm(Repeat(s, n));
    SmallDifference(k * p, MixedPicks(Repeat(s, n), 0));
  }

  lemma RoundsShares(s: Sample, g: nat, p: nat, q: nat, k: nat)
    requires s.Mixed() && s.rx == g * p && s.tx == g * q
    ensures Shares(Repeat(s, k * (p + q)), 0) == (k * p) as real
  {
    ShareInLowestTerms(s, g, p, q);
    RepeatShares(s, k * (p + q));
    IntMul(k, p + q);
    IntMul(k, p);
    MulDiv(k as real, p as real, (p + q) as real);
  }

  lemma IntMul(a: int, b: int)
    ensures (a * b) as real == a as real * b as real
  {
  }

  lemma SmallDifference(a: int, b: int)
    requires -0.5 <= a as real - b as real < 0.5
    ensures a == b
  {
  }

  lemma Cancel(g: real, a: real, b: real)
    requires g > 0.0 && b > 0.0
    ensures g * b > 0.0
    ensures (g * a) / (g * b) == a / b
  {
    var x := a / b;
    assert x * b == a;
    assert (g * a) == x * (g * b);
  }

  lemma MulDiv(k: real, a: real, b: real)
    requires b > 0.0
    ensures (k * b) * (a / b) == k * a
  {
    var x := a / b;
    assert x * b == a;
    assert (k * b) * x == k * (x * b);
  }

  // ----- the scheduler in place -----

  class PulseScheduler {
    var rxCredit: real
    var txCredit: real
    var rxPulses: u64
    var txPulses: u64

    constructor ()
      ensures State() == INITIAL
    {
      rxCredit, txCredit, rxPulses, txPulses := 0.0, 0.0, 0, 0;
    }

    function State(): Pulses
      reads this
    {
      Pulses(rxCredit, txCredit, rxPulses, txPulses)
    }

    method ChooseRx(rxBytes: u64, txBytes: u64) returns (rx: bool)
      modifies this
      ensures (State(), rx) == Choice(old(State()), Sample(rxBytes, txBytes))
    {
      if txBytes == 0 {
        rx := true;
      } else if rxBytes == 0 {
        rx := false;
      } else {
        var total := rxBytes as real + txBytes as real;
        rxCredit := rxCredit + rxBytes as real / total;
        txCredit := txCredit + txBytes as real / total;
        rx := rxCredit >= txCredit;
        if rx {
          rxCredit := rxCredit - 1.0;
        } else {
          txCredit := txCredit - 1.0;
        }
      }
      if rx {
        rxPulses := SaturatingAdd(rxPulses, 1);
      } else {
        txPulses := SaturatingAdd(txPulses, 1);
      }
    }
  }
}
