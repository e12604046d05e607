/** A log of events, newest last: the calls of a run, the admissions of a limiter. */
module Logs {

  datatype Log<T> = Empty | More(before: Log<T>, last: T)

  function Size<T>(log: Log<T>): nat {
    match log
    case Empty => 0
    case More(before, _) => Size(before) + 1
  }

  function First<T>(log: Log<T>): T
    requires log.More?
  {
    if log.before.Empty? then log.last else First(log.before)
  }

  /** The log with one more event, k times. */
  function Repeat<T>(log: Log<T>, event: T, k: nat): Log<T> {
    if k == 0 then log else More(Repeat(log, event, k - 1), event)
  }

  /** `later` continues the run `log`. */
  predicate Extends<T(==)>(later: Log<T>, log: Log<T>) {
    later == log || (later.More? && Extends(later.before, log))
  }

  /** Times in the half-open span [lo, hi). */
  function CountIn(times: Log<int>, lo: int, hi: int): nat {
    match times
    case Empty => 0
    case More(before, t) => CountIn(before, lo, hi) + if lo <= t < hi then 1 else 0
  }

  /** Times that never go back and are not after `hi`. */
  predicate Upto(times: Log<int>, hi: int) {
    times.More? ==> 0 <= times.last <= hi && Upto(times.before, times.last)
  }

  lemma UptoLater(times: Log<int>, now: int, later: int)
    requires Upto(times, now) && now <= later
    ensures Upto(times, later)
  {
  }

  lemma {:induction false} NoneYet(times: Log<int>, now: int, lo: int, hi: int)
    requires Upto(times, now) && now < lo
    ensures CountIn(times, lo, hi) == 0
  {
    if times.More? {
      NoneYet(times.before, times.last, lo, hi);
    }
  }
}
