/**
 * The background explosion timer (static/js/explosion-worker.js).
 *
 * The worker keeps ONE module-level interval. A start message `{id, duration}`
 * clears whatever interval is running and starts a new one whose start time
 * is the clock reading at that moment. Every interval tick computes
 * `elapsed = now - startTime` and posts either `{id, type: 'update',
 * progress: elapsed / duration}` or, once `elapsed >= duration`, a single
 * `{id, type: 'complete'}` after which the interval is cleared.
 *
 * Clock readings are parameters; the interval's scheduling is modelled by the
 * caller deciding when to call `Tick`.
 */
module ExplosionWorker {
  import opened Wrappers

  /** A message the worker posts back to the main thread. */
  datatype Msg = Update(id: int, progress: real) | Complete(id: int)

  /** What one tick of the interval started at `startTime` posts at clock `now`. */
  function TickMessage(id: int, duration: int, startTime: int, now: int): (m: Msg)
    requires duration > 0
    ensures m.id == id
    ensures m.Complete? <==> now - startTime >= duration
    ensures m.Update? ==> m.progress * (duration as real) == (now - startTime) as real
    ensures m.Update? && now >= startTime ==> 0.0 <= m.progress < 1.0
  {
    var elapsed := now - startTime;
    if elapsed >= duration then Complete(id)
    else Update(id, elapsed as real / duration as real)
  }

  /** With a clock that does not go backwards, the progress posted for one timer never decreases. */
  lemma ProgressMonotone(id: int, duration: int, startTime: int, t1: int, t2: int)
    requires duration > 0 && t1 <= t2
    requires TickMessage(id, duration, startTime, t1).Update?
    requires TickMessage(id, duration, startTime, t2).Update?
    ensures TickMessage(id, duration, startTime, t1).progress <= TickMessage(id, duration, startTime, t2).progress
  {
    var d := duration as real;
    var p1 := TickMessage(id, duration, startTime, t1).progress;
    var p2 := TickMessage(id, duration, startTime, t2).progress;
    assert p1 * d == (t1 - startTime) as real;
    assert p2 * d == (t2 - startTime) as real;
    assert (p2 - p1) * d == (t2 - t1) as real;
    NonNegativeFactor(p2 - p1, d);
  }

  lemma NonNegativeFactor(a: real, b: real)
    requires a * b >= 0.0 && b > 0.0
    ensures a >= 0.0
  {
  }

  /** Once a timer's tick would post `complete`, every later tick would too. */
  lemma CompleteIsStable(id: int, duration: int, startTime: int, t1: int, t2: int)
    requires duration > 0 && t1 <= t2
    requires TickMessage(id, duration, startTime, t1).Complete?
    ensures TickMessage(id, duration, startTime, t2).Complete?
  {
  }

  /** The worker's single module-level interval. */
  class Timer {
    /** Whether an interval is currently scheduled (`explosionTimer` not cleared). */
    var active: bool
    /** `id`, `duration` and `startTime` captured by the running interval. */
    var id: int
    var duration: int
    var startTime: int

    ghost predicate Valid()
      reads this
    {
      duration > 0
    }

    /** The worker script is loaded: no interval is running yet. */
    constructor ()
      ensures Valid() && !active
    {
      active := false;
      id := 0;
      duration := 1;
      startTime := 0;
    }

    /**
     * A start message: cancel the running interval, if any (clearInterval), and
     * start timing `newId` from `now` in a fresh one.
     */
    method Start(newId: int, newDuration: int, now: int)
      requires Valid()
      requires newDuration > 0
      modifies this
      ensures Valid()
      ensures active && id == newId && duration == newDuration && startTime == now
    {
      id, duration, startTime := newId, newDuration, now;
      active := true;
    }

    /** One interval tick at clock `now`: the message posted, if the interval is running. */
    method Tick(now: int) returns (m: Option<Msg>)
      requires Valid()
      modifies this
      ensures Valid()
      ensures id == old(id) && duration == old(duration) && startTime == old(startTime)
      ensures !old(active) ==> m == None && !active
      ensures old(active) ==> m == Some(TickMessage(id, duration, startTime, now))
      ensures active <==> old(active) && m.value.Update?
    {
      if !active {
        return None;
      }
      var elapsed := now - startTime;
      if elapsed >= duration {
        m := Some(Complete(id));
        active := false;  // clearInterval(explosionTimer)
      } else {
        m := Some(Update(id, elapsed as real / duration as real));
      }
    }
  }

  /**
   * Two start messages in a row: the first timer is cancelled, so every later
   * tick reports the second id and the first id never receives `complete`.
   */
  method RestartCancelsEarlierTimer(first: int, second: int, t0: int, t1: int, t2: int)
    returns (m1: Option<Msg>, m2: Option<Msg>)
    requires t0 <= t1 <= t2
    ensures m1.Some? && m1.value.id == second
    ensures m2.Some? && m2.value.id == second
    ensures first != second ==> m1 != Some(Complete(first)) && m2 != Some(Complete(first))
  {
    var timer := new Timer();
    timer.Start(first, 1000, t0);
    timer.Start(second, 1000, t1);
    m1 := timer.Tick(t1);
    m2 := timer.Tick(t2);
  }

  /** After `complete` has been posted, further ticks post nothing until the next start message. */
  method NothingAfterComplete(newId: int, duration: int, t0: int, t1: int, t2: int)
    returns (m1: Option<Msg>, m2: Option<Msg>)
    requires duration > 0 && t0 + duration <= t1 <= t2
    ensures m1 == Some(Complete(newId))
    ensures m2 == None
  {
    var timer := new Timer();
    timer.Start(newId, duration, t0);
    m1 := timer.Tick(t1);
    m2 := timer.Tick(t2);
  }
}
