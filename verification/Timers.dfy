/** Kernel one-shot timers: a timer is disarmed, armed for a point in time, or
    expired with the expiration not read yet. */
module Timers {
  import opened Types

  datatype Timer = Disarmed | Armed(at: nat) | Expired

  /** `timerfd_settime`: rejects a nanosecond field of a second or more; a zero
      value disarms; setting forgets an unread expiration. `base` is 0 for an
      absolute timer and the current time for a relative one. */
  function TimeSet(t: Timer, base: nat, sec: nat, nsec: nat): (Timer, Status) {
    if nsec >= NS_PER_SEC then (t, Invalid)
    else if sec == 0 && nsec == 0 then (Disarmed, Ok)
    else (Armed(base + sec * NS_PER_SEC + nsec), Ok)
  }

  /** `read`: consumes an expiration; without one it fails with EAGAIN. */
  function ExpirationRead(t: Timer): Timer {
    if t.Expired? then Disarmed else t
  }

  /** Time passes: an armed timer whose time has come expires. */
  function Elapsed(t: Timer, now: nat): Timer {
    if t.Armed? && t.at <= now then Expired else t
  }

  /** The timer will still wake the poll loop by `deadline`. */
  predicate WakesBy(t: Timer, deadline: nat) {
    t.Expired? || (t.Armed? && 0 < t.at <= deadline)
  }

  lemma ElapsedStillWakes(t: Timer, now: nat, deadline: nat)
    requires WakesBy(t, deadline)
    ensures WakesBy(Elapsed(t, now), deadline)
    ensures deadline <= now ==> Elapsed(t, now).Expired?
  {
  }

  class TimerFd {
    var timer: Timer

    constructor ()
      ensures timer == Disarmed
    {
      timer := Disarmed;
    }

    method SetTime(base: nat, sec: nat, nsec: nat) returns (error: Status)
      modifies this
      ensures (timer, error) == TimeSet(old(timer), base, sec, nsec)
    {
      var r := TimeSet(timer, base, sec, nsec);
      timer, error := r.0, r.1;
    }

    method Read()
      modifies this
      ensures timer == ExpirationRead(old(timer))
    {
      timer := ExpirationRead(timer);
    }
  }
}
