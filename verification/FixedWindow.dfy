/** The fixed-window limiter: a counter that lives one window from its first call. Times are whole
    milliseconds on the clock of Redis. */
module FixedWindow {
  import opened Numbers
  import opened RateLimit
  import opened Logs
  import opened RedisCounter

  function WindowMs(s: RateLimitSpec): nat { s.windowSeconds * 1000 }

  function ReplyTo(s: RateLimitSpec, c: Counter, now: int): Reply
    requires c.Counter?
  {
    if c.value > s.requests then Reply(false, 0, c.deadline - now)
    else Reply(true, s.requests - c.value, 0)
  }

  /** What `check` leaves in the key, and what it returns. */
  function Checked(s: RateLimitSpec, b: Boundary, c: Counter, now: int): (Counter, RateLimitResult) {
    var after := Incr(b, c, now, WindowMs(s));
    (after, ToResult(s.requests, ReplyTo(s, after, now)))
  }

  /** One key in Redis, and the atomic script as it runs on it. */
  class CounterKey {
    var counter: Counter

    constructor ()
      ensures counter == Absent
    {
      counter := Absent;
    }

    method Check(s: RateLimitSpec, b: Boundary, now: int) returns (result: RateLimitResult)
      modifies this
      ensures (counter, result) == Checked(s, b, old(counter), now)
    {
      var current := if Live(b, counter, now) then counter.value + 1 else 1;
      if current == 1 {
        counter := Counter(current, now + WindowMs(s));
      } else {
        counter := counter.(value := current);
      }
      var ttl := counter.deadline - now;
      if current > s.requests {
        return ToResult(s.requests, Reply(false, 0, ttl));
      }
      result := ToResult(s.requests, Reply(true, s.requests - current, 0));
    }
  }

  // ---- Runs ------------------------------------------------------------------------------------

  function Hits(s: RateLimitSpec, calls: Log<int>): Log<Hit> {
    match calls
    case Empty => Empty
    case More(before, now) => More(Hits(s, before), Hit(now, WindowMs(s)))
  }

  /** The counter after the calls of a run, from a fresh key. */
  function After(s: RateLimitSpec, b: Boundary, calls: Log<int>): Counter { Run(b, Hits(s, calls)).counter }

  lemma OneCall(s: RateLimitSpec, b: Boundary, calls: Log<int>, now: int)
    ensures After(s, b, More(calls, now)) == Incr(b, After(s, b, calls), now, WindowMs(s))
    ensures After(s, b, Empty) == Absent
  {
    assert Hits(s, More(calls, now)) == More(Hits(s, calls), Hit(now, WindowMs(s)));
    assert Hits(s, Empty) == Empty;
  }

  /** The reply to a call at `now` when it follows `calls`. */
  function ReplyAt(s: RateLimitSpec, b: Boundary, calls: Log<int>, now: int): Reply {
    ReplyTo(s, After(s, b, More(calls, now)), now)
  }

  function AdmittedBy(s: RateLimitSpec, b: Boundary, calls: Log<int>): Log<int> {
    match calls
    case Empty => Empty
    case More(before, now) =>
      var admitted := AdmittedBy(s, b, before);
      if ReplyAt(s, b, before, now).allowed then More(admitted, now) else admitted
  }

  /** Every counter lifetime admits exactly its first `limit` calls: a call is admitted iff its
      place in its lifetime is at most `limit`, and a lifetime with n calls admits min(n, limit). */
  lemma LifetimeAdmitsFirstLimit(s: RateLimitSpec, b: Boundary, calls: Log<int>, now: int, life: nat)
    ensures var marks := Run(b, Hits(s, More(calls, now))).marks;
            && (ReplyAt(s, b, calls, now).allowed <==> InLife(marks, marks.last.life) <= s.requests)
            && WithinLimit(marks, life, s.requests)
               == (if InLife(marks, life) <= s.requests then InLife(marks, life) else s.requests)
  {
    ValueIsPlace(b, Hits(s, More(calls, now)), life, s.requests);
  }

  /** `run` continues `calls` with refused calls only. */
  predicate OnlyRefused(s: RateLimitSpec, b: Boundary, run: Log<int>, calls: Log<int>) {
    run == calls
    || (run.More? && !ReplyAt(s, b, run.before, run.last).allowed && OnlyRefused(s, b, run.before, calls))
  }

  /** Refused calls never prolong a lifetime: however many come, the key expires when it would have. */
  lemma {:induction false} RefusedNeverProlong(s: RateLimitSpec, b: Boundary, calls: Log<int>, run: Log<int>)
    requires ValidSpec(s) && OnlyRefused(s, b, run, calls) && After(s, b, calls).Counter?
    ensures After(s, b, run).Counter? && After(s, b, run).deadline == After(s, b, calls).deadline
  {
    if run != calls {
      RefusedNeverProlong(s, b, calls, run.before);
      OneCall(s, b, run.before, run.last);
    }
  }

  /** When the current lifetime began. */
  function Birth(s: RateLimitSpec, c: Counter): int
    requires c.Counter?
  {
    c.deadline - WindowMs(s)
  }

  /** What is admitted in a span of one window from `from`, by where the current lifetime began. The
      span leaves its last instant out, or is closed. */
  ghost predicate SpanInv(s: RateLimitSpec, b: Boundary, calls: Log<int>, from: int, closed: bool) {
    var c := After(s, b, calls);
    var end := from + WindowMs(s) + if closed then 1 else 0;
    var most := if closed then s.requests else s.requests - 1;
    var n := CountIn(AdmittedBy(s, b, calls), from, end);
    if c.Absent? then n == 0 else
      && c.value >= 1
      && n <= most + s.requests
      && (Birth(s, c) < end ==> n <= most + Min(c.value, s.requests))
      && (Birth(s, c) <= from ==> n <= Min(c.value, s.requests))
      && (Birth(s, c) < from ==> n <= Min(c.value, s.requests) - 1)
  }

  lemma {:induction false} SpanInvHolds(s: RateLimitSpec, b: Boundary, calls: Log<int>, from: int, closed: bool)
    requires ValidSpec(s) && calls.More? && Upto(calls, calls.last)
    ensures SpanInv(s, b, calls, from, closed)
    ensures Birth(s, After(s, b, calls)) <= calls.last && Live(b, After(s, b, calls), calls.last)
    ensures Upto(AdmittedBy(s, b, calls), calls.last)
  {
    var before, now := calls.before, calls.last;
    OneCall(s, b, before, now);
    if before.More? {
      SpanInvHolds(s, b, before, from, closed);
      UptoLater(AdmittedBy(s, b, before), before.last, now);
      if before.last < from {
        NoneYet(AdmittedBy(s, b, before), before.last, from, from + WindowMs(s) + if closed then 1 else 0);
      }
    }
  }

  /** No span one window long holds 2 * limit admissions, and none holds more if both its ends
      count. */
  lemma WindowLaw(s: RateLimitSpec, b: Boundary, calls: Log<int>, from: int)
    requires ValidSpec(s) && Upto(calls, if calls.More? then calls.last else 0)
    ensures CountIn(AdmittedBy(s, b, calls), from, from + WindowMs(s)) <= 2 * s.requests - 1
    ensures CountIn(AdmittedBy(s, b, calls), from, from + WindowMs(s) + 1) <= 2 * s.requests
  {
    if calls.More? {
      SpanInvHolds(s, b, calls, from, false);
      SpanInvHolds(s, b, calls, from, true);
    }
  }

  // ---- The bound is sharp ----------------------------------------------------------------------

  /** k calls that find a live counter with room for them are all admitted. */
  lemma {:induction false} BurstAdmitted(s: RateLimitSpec, b: Boundary, calls: Log<int>, now: int, k: nat)
    requires After(s, b, calls).Counter? && Live(b, After(s, b, calls), now)
    requires After(s, b, calls).value >= 1 && After(s, b, calls).value + k <= s.requests
    ensures After(s, b, Repeat(calls, now, k)) == Counter(After(s, b, calls).value + k, After(s, b, calls).deadline)
    ensures AdmittedBy(s, b, Repeat(calls, now, k)) == Repeat(AdmittedBy(s, b, calls), now, k)
  {
    if k > 0 {
      BurstAdmitted(s, b, calls, now, k - 1);
      OneCall(s, b, Repeat(calls, now, k - 1), now);
    }
  }

  lemma {:induction false} BurstCounts(times: Log<int>, now: int, k: nat, lo: int, hi: int)
    ensures CountIn(Repeat(times, now, k), lo, hi) == CountIn(times, lo, hi) + if lo <= now < hi then k else 0
  {
    if k > 0 {
      BurstCounts(times, now, k - 1, lo, hi);
    }
  }

  /** One call at 0, the rest of the limit just before the window ends, and a full limit just
      after: the run that reaches the bound. */
  function EdgeRun(s: RateLimitSpec): Log<int>
    requires ValidSpec(s)
  {
    var w := WindowMs(s);
    Repeat(More(Repeat(More(Empty, 0), w - 1, s.requests - 1), w + 1), w + 1, s.requests - 1)
  }

  /** Bursts at window edges really happen: for every rule some run puts 2 * limit - 1 admissions
      into one window. */
  lemma WindowLawIsSharp(s: RateLimitSpec, b: Boundary)
    requires ValidSpec(s)
    ensures CountIn(AdmittedBy(s, b, EdgeRun(s)), WindowMs(s) - 1, 2 * WindowMs(s) - 1) == 2 * s.requests - 1
  {
    var w, lo, hi := WindowMs(s), WindowMs(s) - 1, 2 * WindowMs(s) - 1;
    var first := More(Empty, 0);
    OneCall(s, b, Empty, 0);
    assert After(s, b, first) == Counter(1, w);
    assert AdmittedBy(s, b, first) == More(AdmittedBy(s, b, Empty), 0);
    BurstAdmitted(s, b, first, w - 1, s.requests - 1);
    BurstCounts(AdmittedBy(s, b, first), w - 1, s.requests - 1, lo, hi);
    var second := More(Repeat(first, w - 1, s.requests - 1), w + 1);
    OneCall(s, b, Repeat(first, w - 1, s.requests - 1), w + 1);
    assert After(s, b, second) == Counter(1, 2 * w + 1);
    BurstAdmitted(s, b, second, w + 1, s.requests - 1);
    BurstCounts(AdmittedBy(s, b, second), w + 1, s.requests - 1, lo, hi);
  }

  // ---- What the caller is told -----------------------------------------------------------------

  /** `remaining` is exactly the number of further calls at the same instant that are admitted
      before the first refusal. */
  lemma RemainingIsExact(s: RateLimitSpec, b: Boundary, calls: Log<int>, now: int, k: nat)
    requires ValidSpec(s) && Upto(More(calls, now), now)
    requires k <= ReplyAt(s, b, calls, now).remaining
    ensures ReplyAt(s, b, Repeat(More(calls, now), now, k), now).allowed <==> k < ReplyAt(s, b, calls, now).remaining
  {
    SpanInvHolds(s, b, More(calls, now), 0, false);
    if After(s, b, More(calls, now)).value <= s.requests {
      BurstAdmitted(s, b, More(calls, now), now, k);
    }
  }

  // ---- What `check` returns ---------------------------------------------------------------------

  /** The key after calls of `check` from a fresh key. */
  function KeyAfter(s: RateLimitSpec, b: Boundary, calls: Log<int>): Counter {
    match calls
    case Empty => Absent
    case More(before, now) => Checked(s, b, KeyAfter(s, b, before), now).0
  }

  /** The result of a call at `now` that follows `calls`. */
  function ResultAt(s: RateLimitSpec, b: Boundary, calls: Log<int>, now: int): RateLimitResult {
    Checked(s, b, KeyAfter(s, b, calls), now).1
  }

  /** The times of the calls whose result let them through. */
  function LetThrough(s: RateLimitSpec, b: Boundary, calls: Log<int>): Log<int> {
    match calls
    case Empty => Empty
    case More(before, now) =>
      if ResultAt(s, b, before, now).allowed then More(LetThrough(s, b, before), now) else LetThrough(s, b, before)
  }

  lemma {:induction false} KeyAfterIsRun(s: RateLimitSpec, b: Boundary, calls: Log<int>)
    ensures KeyAfter(s, b, calls) == After(s, b, calls)
    ensures LetThrough(s, b, calls) == AdmittedBy(s, b, calls)
  {
    if calls.More? {
      KeyAfterIsRun(s, b, calls.before);
      OneCall(s, b, calls.before, calls.last);
    } else {
      OneCall(s, b, Empty, 0);
    }
  }

  lemma ResultIsReply(s: RateLimitSpec, b: Boundary, calls: Log<int>, now: int)
    ensures var result, reply := ResultAt(s, b, calls, now), ReplyAt(s, b, calls, now);
            && result.allowed == reply.allowed && result.remaining == reply.remaining && result.limit == s.requests
            && (reply.allowed ==> result.retryAfter == 0)
            && reply.retryMs <= 1000 * result.retryAfter
            && (0 <= reply.retryMs ==> 1000 * result.retryAfter < reply.retryMs + 1000)
  {
    KeyAfterIsRun(s, b, calls);
    OneCall(s, b, calls, now);
  }

  /** A call of `check` is let through if and only if it is one of the first of its counter lifetime, as many
      as the rule's number of requests. */
  lemma CheckAllowsIff(s: RateLimitSpec, b: Boundary, calls: Log<int>, now: int)
    requires ValidSpec(s)
    ensures var marks := Run(b, Hits(s, More(calls, now))).marks;
            ResultAt(s, b, calls, now).allowed <==> InLife(marks, marks.last.life) <= s.requests
  {
    ResultIsReply(s, b, calls, now);
    LifetimeAdmitsFirstLimit(s, b, calls, now, 0);
  }

  /** A lifetime begins with the first call that finds none, and lasts exactly the rule's window. */
  lemma CheckKeepsDeadline(s: RateLimitSpec, b: Boundary, calls: Log<int>, now: int)
    requires ValidSpec(s)
    ensures var before, after := KeyAfter(s, b, calls), KeyAfter(s, b, More(calls, now));
            after.Counter?
            && after.deadline == if Live(b, before, now) then before.deadline else now + 1000 * s.windowSeconds
  {
    KeyAfterIsPositive(s, b, calls);
  }

  lemma {:induction false} KeyAfterIsPositive(s: RateLimitSpec, b: Boundary, calls: Log<int>)
    ensures KeyAfter(s, b, calls).Counter? ==> KeyAfter(s, b, calls).value >= 1
  {
    if calls.More? {
      KeyAfterIsPositive(s, b, calls.before);
    }
  }

  /** No span as long as the rule's window holds twice the rule's number of requests, and none holds more if
      both its ends count. */
  lemma CheckKeepsWindow(s: RateLimitSpec, b: Boundary, calls: Log<int>, from: int)
    requires ValidSpec(s) && Upto(calls, if calls.More? then calls.last else 0)
    ensures CountIn(LetThrough(s, b, calls), from, from + 1000 * s.windowSeconds) <= 2 * s.requests - 1
    ensures CountIn(LetThrough(s, b, calls), from, from + 1000 * s.windowSeconds + 1) <= 2 * s.requests
  {
    KeyAfterIsRun(s, b, calls);
    WindowLaw(s, b, calls, from);
  }

  /** The limit reported is the rule's, and `remaining` the exact number of further calls that would be let
      through at once. */
  lemma CheckRemaining(s: RateLimitSpec, b: Boundary, calls: Log<int>, now: int, k: nat)
    requires ValidSpec(s) && Upto(More(calls, now), now)
    ensures var result := ResultAt(s, b, calls, now);
            && result.limit == s.requests && 0 <= result.remaining
            && (k <= result.remaining ==>
                  (ResultAt(s, b, Repeat(More(calls, now), now, k), now).allowed <==> k < result.remaining))
  {
    ResultIsReply(s, b, calls, now);
    ResultIsReply(s, b, Repeat(More(calls, now), now, k), now);
    if k <= ResultAt(s, b, calls, now).remaining {
      RemainingIsExact(s, b, calls, now, k);
    }
  }

  /** `retry_after` covers what is left of the lifetime by less than a second; it is 0 for a call that was let
      through. */
  lemma CheckRetryAfter(s: RateLimitSpec, b: Boundary, calls: Log<int>, now: int)
    requires ValidSpec(s) && Upto(More(calls, now), now)
    ensures var result, deadline := ResultAt(s, b, calls, now), KeyAfter(s, b, More(calls, now)).deadline;
            && (result.allowed ==> result.retryAfter == 0)
            && (!result.allowed ==> deadline <= now + 1000 * result.retryAfter < deadline + 1000)
  {
    ResultIsReply(s, b, calls, now);
    KeyAfterIsRun(s, b, More(calls, now));
    SpanInvHolds(s, b, More(calls, now), 0, false);
  }
}
