/**
 * A pausable countdown's bookkeeping. The clock is passed in as `now`; the
 * pygame timer service is reduced to `armed`, the interval most recently
 * handed to it for this timer's event (0 disarms).
 */
module Timers {

  datatype Option<T> = None | Some(value: T)

  class Timer {
    const id: int
    var lastStartTime: Option<int>
    var durationMillis: Option<int>
    var armed: int

    constructor (id: int)
      ensures this.id == id && lastStartTime == None && durationMillis == None && armed == 0
    {
      this.id := id;
      lastStartTime := None;
      durationMillis := None;
      armed := 0;
    }

    /** Keeps the time still remaining and disarms; needs a started timer. */
    method Pause(now: int)
      requires lastStartTime.Some? && durationMillis.Some?
      modifies this
      ensures durationMillis == Some(old(durationMillis.value) - (now - old(lastStartTime.value)))
      ensures lastStartTime == old(lastStartTime) && armed == 0
    {
      durationMillis := Some(durationMillis.value - (now - lastStartTime.value));
      armed := 0;
    }

    /** Restarts the clock and re-arms with the remaining time; needs a duration. */
    method Resume(now: int)
      requires durationMillis.Some?
      modifies this
      ensures lastStartTime == Some(now) && durationMillis == old(durationMillis)
      ensures armed == durationMillis.value
    {
      lastStartTime := Some(now);
      armed := durationMillis.value;
    }

    /** Records the start time and duration and arms the timer with the full duration. */
    method Start(duration: int, now: int)
      modifies this
      ensures lastStartTime == Some(now) && durationMillis == Some(duration) && armed == duration
    {
      lastStartTime := Some(now);
      durationMillis := Some(duration);
      armed := duration;
    }

    /** Forgets the start time and duration and disarms. */
    method Stop()
      modifies this
      ensures lastStartTime == None && durationMillis == None && armed == 0
    {
      lastStartTime := None;
      durationMillis := None;
      armed := 0;
    }
  }

  /** Start for d at t0, pause e later and resume: the timer is re-armed for exactly d - e. */
  method StartPauseResume(timer: Timer, d: int, t0: int, e: int, t3: int)
    modifies timer
    ensures timer.armed == d - e
    ensures timer.durationMillis == Some(d - e) && timer.lastStartTime == Some(t3)
  {
    timer.Start(d, t0);
    timer.Pause(t0 + e);
    timer.Resume(t3);
  }

  /** Stopping twice leaves the same state as stopping once. */
  method StopIsIdempotent(timer: Timer)
    modifies timer
    ensures timer.lastStartTime == None && timer.durationMillis == None && timer.armed == 0
  {
    timer.Stop();
    ghost var once := (timer.lastStartTime, timer.durationMillis, timer.armed);
    timer.Stop();
    assert (timer.lastStartTime, timer.durationMillis, timer.armed) == once;
  }
}
