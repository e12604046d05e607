/** Quota counters: the bucket a moment falls into, the TTL of its Redis key, and what the TTL is
    worth over a whole day or month. Instants are microseconds. */
module Quota {
  import opened Numbers
  import opened RateLimit
  import opened Logs
  import opened Calendar
  import opened RedisCounter

  datatype Period = Daily | Monthly

  datatype Bucket = DayBucket(year: int, month: int, day: int) | MonthBucket(year: int, month: int)

  /** int() of a number of microseconds as seconds: towards zero. */
  function TruncatedSeconds(micros: int): int {
    if micros >= 0 then micros / SECOND else -(-micros / SECOND)
  }

  function BucketOf(period: Period, now: DateTime): Bucket {
    match period
    case Daily => DayBucket(now.year, now.month, now.day)
    case Monthly => MonthBucket(now.year, now.month)
  }

  /** The instant the TTL aims at: the last whole second of the day, or the first instant of the
      next month. */
  function Aim(period: Period, now: DateTime): int
    requires Valid(now)
  {
    match period
    case Daily => Instant(now.(micros := DAY - SECOND))
    case Monthly =>
      var (year, month) := NextMonth(now.year, now.month);
      Instant(DateTime(year, month, 1, 0))
  }

  function BucketAndTtl(period: Period, now: DateTime): (Bucket, int)
    requires Valid(now)
  {
    (BucketOf(period, now), Max(1, TruncatedSeconds(Aim(period, now) - Instant(now))))
  }

  // ---- The true bounds of a bucket -------------------------------------------------------------

  /** The first instant of the bucket of `now`, and the first instant after it, in closed form. */
  function Start(period: Period, now: DateTime): int {
    Ordinal(now.year, now.month, if period.Daily? then now.day else 1) * 86_400_000_000
  }

  function End(period: Period, now: DateTime): int {
    (if period.Daily? then Ordinal(now.year, now.month, now.day) + 1 else NextFirst(now.year, now.month))
    * 86_400_000_000
  }

  function LastDay(period: Period, now: DateTime): int {
    if period.Daily? then now.day else DaysInMonth(now.year, now.month)
  }

  /** The bounds by the month table. */
  lemma BoundsByTable(period: Period, now: DateTime)
    requires Valid(now)
    ensures Start(period, now) == DayNumber(now.year, now.month, if period.Daily? then now.day else 1) * DAY
    ensures End(period, now) == (DayNumber(now.year, now.month, LastDay(period, now)) + 1) * DAY
  {
    var (year, month) := NextMonth(now.year, now.month);
    MonthsAdjoin(now.year, now.month);
    DayNumberIsOrdinal(year, month, 1);
    DayNumberIsOrdinal(now.year, now.month, 1);
    DayNumberIsOrdinal(now.year, now.month, now.day);
  }

  lemma DaysAsInstants(day: int, micros: int, first: int, last: int)
    requires 0 <= micros < DAY
    ensures first * DAY <= day * DAY + micros < (last + 1) * DAY <==> first <= day <= last
  {
  }

  lemma DateByDayNumber(now: DateTime, t: DateTime)
    requires Valid(now) && Valid(t)
    ensures DayNumber(t.year, t.month, 1) <= DayNumber(t.year, t.month, t.day)
    ensures (t.year == now.year && t.month == now.month)
       <==> DayNumber(now.year, now.month, 1) <= DayNumber(t.year, t.month, t.day)
            <= DayNumber(now.year, now.month, DaysInMonth(now.year, now.month))
  {
    if EarlierMonth(t, now) {
      EarlierMonthsEndBefore(t, now);
    } else if EarlierMonth(now, t) {
      EarlierMonthsEndBefore(now.(day := DaysInMonth(now.year, now.month)), t);
    }
  }

  /** A bucket is the interval from its start to its end: two moments share a bucket exactly when
      one lies in the interval of the other. */
  lemma BucketIsInterval(period: Period, now: DateTime, t: DateTime)
    requires Valid(now) && Valid(t)
    ensures BucketOf(period, t) == BucketOf(period, now)
       <==> Start(period, now) <= Instant(t) < End(period, now)
  {
    DateByDayNumber(now, t);
    BoundsByTable(period, now);
    var first := if period.Daily? then now.day else 1;
    var last := if period.Daily? then now.day else DaysInMonth(now.year, now.month);
    DaysAsInstants(DayNumber(t.year, t.month, t.day), t.micros,
                   DayNumber(now.year, now.month, first), DayNumber(now.year, now.month, last));
  }

  // ---- When a counter expires ------------------------------------------------------------------

  /** When the key expires if `consume` creates it at `now`. */
  function ExpiryAt(period: Period, now: DateTime): int
    requires Valid(now)
  {
    Instant(now) + BucketAndTtl(period, now).1 * SECOND
  }

  lemma EndIsAhead(period: Period, now: DateTime)
    requires Valid(now)
    ensures Instant(now) < End(period, now)
  {
    BoundsByTable(period, now);
    LaterDayIsAhead(DayNumber(now.year, now.month, now.day), now.micros,
                    DayNumber(now.year, now.month, LastDay(period, now)));
  }

  lemma LaterDayIsAhead(day: int, micros: int, later: int)
    requires micros < DAY && day <= later
    ensures day * DAY + micros < (later + 1) * DAY
  {
  }

  lemma AimIsNearEnd(period: Period, now: DateTime)
    requires Valid(now)
    ensures Aim(period, now) == End(period, now) - if period.Daily? then SECOND else 0
  {
    BoundsByTable(period, now);
    if period.Monthly? {
      MonthsAdjoin(now.year, now.month);
      var (year, month) := NextMonth(now.year, now.month);
      assert Instant(DateTime(year, month, 1, 0)) == DayNumber(year, month, 1) * DAY;
    }
  }

  lemma TtlRounds(micros: int)
    ensures var ttl := Max(1, TruncatedSeconds(micros));
            if micros >= SECOND then micros - SECOND < ttl * SECOND <= micros else ttl == 1
  {
  }

  /** A counter expires strictly between 2 s before and 1 s after the true end of its day, or within
      1 s either side of the true end of its month; for every date. */
  lemma ExpiryNearEnd(period: Period, now: DateTime)
    requires Valid(now)
    ensures End(period, now) - (if period.Daily? then 2 else 1) * SECOND
          < ExpiryAt(period, now)
          < End(period, now) + SECOND
    ensures Instant(now) + SECOND <= ExpiryAt(period, now)
  {
    AimIsNearEnd(period, now);
    EndIsAhead(period, now);
    TtlRounds(Aim(period, now) - Instant(now));
  }

  /** The TTL is the number of whole seconds left to the end of the month, or to one second before the end
      of the day, and 1 when none is left. */
  lemma TtlIsSecondsLeft(period: Period, now: DateTime)
    requires Valid(now)
    ensures var ttl, left := BucketAndTtl(period, now).1,
                             End(period, now) - Instant(now) - if period.Daily? then 1_000_000 else 0;
            if left < 1_000_000 then ttl == 1 else 1_000_000 * ttl <= left < 1_000_000 * (ttl + 1)
  {
    AimIsNearEnd(period, now);
  }

  /** Both bounds are met to the microsecond in every bucket. */
  lemma ExpiryBoundsAreSharp(period: Period, year: int, month: int, day: int)
    requires Valid(DateTime(year, month, day, 0))
    requires period.Monthly? ==> day == DaysInMonth(year, month)
    ensures var early := DateTime(year, month, day, DAY - (if period.Daily? then 3 else 2) * SECOND + 1);
            Valid(early)
            && ExpiryAt(period, early) == End(period, early) - (if period.Daily? then 2 else 1) * SECOND + 1
    ensures var late := DateTime(year, month, day, DAY - 1);
            Valid(late) && ExpiryAt(period, late) == End(period, late) + SECOND - 1
  {
    LateExpiry(period, DateTime(year, month, day, DAY - (if period.Daily? then 3 else 2) * SECOND + 1));
    LateExpiry(period, DateTime(year, month, day, DAY - 1));
  }

  /** In the last seconds of its bucket a key is created for one second. */
  lemma LateExpiry(period: Period, now: DateTime)
    requires Valid(now) && (period.Monthly? ==> now.day == DaysInMonth(now.year, now.month))
    requires now.micros > DAY - (if period.Daily? then 3 else 2) * SECOND
    ensures ExpiryAt(period, now) == End(period, now) - DAY + now.micros + SECOND
  {
    AimIsNearEnd(period, now);
    OnLastDay(period, now);
    LateHit(period, now);
    assert ExpiryAt(period, now) == Instant(now) + ConsumeHit(period, now).ttl;
  }

  lemma OnLastDay(period: Period, now: DateTime)
    requires Valid(now) && (period.Monthly? ==> now.day == DaysInMonth(now.year, now.month))
    ensures Instant(now) == End(period, now) - DAY + now.micros
  {
    var day := DayNumber(now.year, now.month, now.day);
    assert End(period, now) == (day + 1) * DAY by {
      BoundsByTable(period, now);
      assert LastDay(period, now) == now.day;
    }
    assert Instant(now) == day * DAY + now.micros;
    InDay(day, now.micros);
  }

  lemma InDay(day: int, micros: int)
    ensures day * DAY + micros == (day + 1) * DAY - DAY + micros
  {
  }

  // ---- Runs of consume in one bucket -----------------------------------------------------------

  function ConsumeHit(period: Period, now: DateTime): Hit
    requires Valid(now)
  {
    Hit(Instant(now), BucketAndTtl(period, now).1 * SECOND)
  }

  predicate AllValid(calls: Log<DateTime>) {
    calls.More? ==> Valid(calls.last) && AllValid(calls.before)
  }

  function Hits(period: Period, calls: Log<DateTime>): Log<Hit>
    requires AllValid(calls)
  {
    match calls
    case Empty => Empty
    case More(before, now) => More(Hits(period, before), ConsumeHit(period, now))
  }

  /** Consumes that all fall into the bucket of `day`, on a clock that never goes back. */
  predicate InBucket(period: Period, calls: Log<DateTime>, day: DateTime) {
    calls.More? ==>
      && Valid(calls.last)
      && BucketOf(period, calls.last) == BucketOf(period, day)
      && InBucket(period, calls.before, day)
      && (calls.before.More? && Valid(calls.before.last) ==> Instant(calls.before.last) <= Instant(calls.last))
  }

  lemma {:induction false} InBucketIsValid(period: Period, calls: Log<DateTime>, day: DateTime)
    requires InBucket(period, calls, day)
    ensures AllValid(calls)
  {
    if calls.More? {
      InBucketIsValid(period, calls.before, day);
    }
  }

  function MostLives(period: Period): nat { if period.Daily? then 3 else 2 }

  /** The n-th lifetime of a bucket's counter outlasts the end of the bucket less so many seconds. */
  lemma {:induction false} LivesReachTheEnd(period: Period, b: Boundary, calls: Log<DateTime>, day: DateTime)
    requires Valid(day) && InBucket(period, calls, day) && AllValid(calls)
    ensures var t := Run(b, Hits(period, calls));
            && t.lives <= MostLives(period)
            && (t.counter.Absent? <==> t.lives == 0)
            && (t.lives > 0 ==>
                  && t.counter.value >= 1
                  && End(period, day) - (MostLives(period) - t.lives) * SECOND < t.counter.deadline)
  {
    if calls.More? {
      LivesReachTheEnd(period, b, calls.before, day);
      ExpiryNearEnd(period, calls.last);
      BucketIsInterval(period, day, calls.last);
      SameEnd(period, day, calls.last);
    }
  }

  lemma SameEnd(period: Period, a: DateTime, c: DateTime)
    requires Valid(a) && Valid(c) && BucketOf(period, a) == BucketOf(period, c)
    ensures End(period, a) == End(period, c)
  {
  }

  function Total(marks: Log<Mark>, limit: int): nat {
    match marks
    case Empty => 0
    case More(before, m) => Total(before, limit) + if m.value <= limit then 1 else 0
  }

  /** Over all lifetimes together no more than `limit` results per lifetime stay within the limit. */
  lemma {:induction false} TotalByLives(b: Boundary, hits: Log<Hit>, limit: nat)
    ensures var t := Run(b, hits);
            Total(t.marks, limit)
            <= (if t.lives == 0 then 0 else (t.lives - 1) * limit + WithinLimit(t.marks, t.lives, limit))
  {
    if hits.More? {
      var before, lives := Run(b, hits.before), Run(b, hits).lives;
      TotalByLives(b, hits.before, limit);
      ValueIsPlace(b, hits.before, lives, limit);
      ValueIsPlace(b, hits.before, before.lives, limit);
      LivesTimesLimit(before.lives, lives, limit);
    }
  }

  /** Over any run of `consume` in one bucket: a day spans at most three counter lifetimes, a month
      at most two; each lifetime yields exactly its first `limit` results as not exceeded, so the
      bucket as a whole yields at most three, or two, times `limit`. */
  lemma BucketBudget(period: Period, b: Boundary, calls: Log<DateTime>, day: DateTime, limit: nat, life: nat)
    requires Valid(day) && InBucket(period, calls, day) && AllValid(calls)
    ensures var t := Run(b, Hits(period, calls));
            && t.lives <= MostLives(period)
            && WithinLimit(t.marks, life, limit)
               == (if InLife(t.marks, life) <= limit then InLife(t.marks, life) else limit)
            && Total(t.marks, limit) <= MostLives(period) * limit
  {
    LivesReachTheEnd(period, b, calls, day);
    ValueIsPlace(b, Hits(period, calls), life, limit);
    TotalWithin(b, Hits(period, calls), limit, MostLives(period));
  }

  lemma TotalWithin(b: Boundary, hits: Log<Hit>, limit: nat, most: nat)
    requires Run(b, hits).lives <= most
    ensures Total(Run(b, hits).marks, limit) <= most * limit
  {
    var t := Run(b, hits);
    TotalByLives(b, hits, limit);
    ValueIsPlace(b, hits, t.lives, limit);
    LivesTimesLimit(t.lives, most, limit);
  }

  lemma LivesTimesLimit(lives: nat, most: nat, limit: nat)
    requires lives <= most
    ensures lives * limit <= most * limit
    ensures lives > 0 ==> (lives - 1) * limit + limit == lives * limit
  {
  }

  // ---- When a bucket keeps its cap -------------------------------------------------------------

  /** The counter that the first consume of a bucket creates is still the one at the last consume
      exactly when it has not expired by then. */
  lemma {:induction false} OneLifeIffFirstLasts(period: Period, b: Boundary, calls: Log<DateTime>, day: DateTime)
    requires Valid(day) && InBucket(period, calls, day) && AllValid(calls) && calls.More?
    ensures AllValid(More(Empty, First(calls)))
    ensures var t := Run(b, Hits(period, calls));
            && t.counter.Counter? && t.counter.value >= 1 && t.lives >= 1
            && (t.lives == 1 <==> !Expired(b, Instant(calls.last), ExpiryAt(period, First(calls))))
            && (t.lives == 1 ==> t.counter.deadline == ExpiryAt(period, First(calls)))
  {
    if calls.before.More? {
      OneLifeIffFirstLasts(period, b, calls.before, day);
      OneMoreHit(b, Hits(period, calls.before), ConsumeHit(period, calls.last));
    } else {
      ExpiryNearEnd(period, calls.last);
      assert Run(b, Hits(period, calls.before)) == Trace(Absent, 0, Empty);
      OneMoreHit(b, Hits(period, calls.before), ConsumeHit(period, calls.last));
    }
  }

  lemma OneMoreHit(b: Boundary, hits: Log<Hit>, hit: Hit)
    ensures var before, after := Run(b, hits), Run(b, More(hits, hit));
            if Live(b, before.counter, hit.now)
            then after.lives == before.lives && after.counter.value == before.counter.value + 1
                 && (before.counter.value >= 1 ==> after.counter.deadline == before.counter.deadline)
            else after.lives == before.lives + 1 && after.counter == Counter(1, hit.now + hit.ttl)
  {
  }

  /** Every lifetime yields a 1. */
  lemma {:induction false} LivesYieldOnes(b: Boundary, hits: Log<Hit>)
    ensures Run(b, hits).lives <= Total(Run(b, hits).marks, 1)
  {
    if hits.More? {
      LivesYieldOnes(b, hits.before);
    }
  }

  /** Whatever the limit, no more than `limit` results of the bucket are not exceeded. */
  ghost predicate KeepsEveryCap(marks: Log<Mark>) { forall limit: nat :: Total(marks, limit) <= limit }

  lemma OneLifeKeepsCap(b: Boundary, hits: Log<Hit>)
    ensures Run(b, hits).lives <= 1 <==> KeepsEveryCap(Run(b, hits).marks)
  {
    var t := Run(b, hits);
    if t.lives <= 1 {
      forall limit: nat
        ensures Total(t.marks, limit) <= limit
      {
        TotalByLives(b, hits, limit);
        ValueIsPlace(b, hits, t.lives, limit);
      }
    } else {
      LivesYieldOnes(b, hits);
      assert Total(t.marks, 1) > 1;
    }
  }

  /** With one lifetime the results within the limit are the first ones. With more, either the limit is
      passed, or all results are within it. */
  lemma {:induction false} TotalByLifetimes(b: Boundary, hits: Log<Hit>, limit: nat)
    requires limit > 0
    ensures var t := Run(b, hits);
            && (t.counter.Absent? <==> t.lives == 0) && (t.lives == 0 <==> hits.Empty?)
            && (t.lives > 0 ==> 1 <= t.counter.value <= Size(hits) - (t.lives - 1))
            && Total(t.marks, limit) <= Size(hits)
            && (t.lives == 1 ==>
                  t.counter.value == Size(hits)
                  && Total(t.marks, limit) == if Size(hits) <= limit then Size(hits) else limit)
            && (t.lives >= 2 ==> Total(t.marks, limit) > limit || Total(t.marks, limit) == Size(hits))
  {
    if hits.More? {
      TotalByLifetimes(b, hits.before, limit);
      OneMoreHit(b, hits.before, hits.last);
    }
  }

  lemma {:induction false} SizeOfHits(period: Period, calls: Log<DateTime>)
    requires AllValid(calls)
    ensures Size(Hits(period, calls)) == Size(calls)
  {
    if calls.More? {
      SizeOfHits(period, calls.before);
    }
  }

  /** Consume alone keeps the cap of a day or month if and only if there are no more calls than the limit, or
      the counter the first of them created has not expired by the last one. */
  lemma CapIffFirstCounterLasts(period: Period, b: Boundary, calls: Log<DateTime>, day: DateTime, limit: nat)
    requires Valid(day) && InBucket(period, calls, day) && AllValid(calls) && calls.More? && limit > 0
    ensures Valid(First(calls))
    ensures Total(Run(b, Hits(period, calls)).marks, limit) <= limit
       <==> Size(calls) <= limit || !Expired(b, Instant(calls.last), ExpiryAt(period, First(calls)))
  {
    OneLifeIffFirstLasts(period, b, calls, day);
    TotalByLifetimes(b, Hits(period, calls), limit);
    SizeOfHits(period, calls);
  }

  /** It keeps the caps for all limits if and only if that counter has not expired. */
  lemma EveryCapIffFirstCounterLasts(period: Period, b: Boundary, calls: Log<DateTime>, day: DateTime)
    requires Valid(day) && InBucket(period, calls, day) && AllValid(calls) && calls.More?
    ensures Valid(First(calls))
    ensures KeepsEveryCap(Run(b, Hits(period, calls)).marks)
       <==> !Expired(b, Instant(calls.last), ExpiryAt(period, First(calls)))
  {
    OneLifeIffFirstLasts(period, b, calls, day);
    OneLifeKeepsCap(b, Hits(period, calls));
  }

  /** So the cap is kept by every run that ends 2 s before its day or 1 s before its month does. */
  lemma CapKeptUntilTheEnd(period: Period, b: Boundary, calls: Log<DateTime>, day: DateTime)
    requires Valid(day) && InBucket(period, calls, day) && AllValid(calls) && calls.More?
    requires Instant(calls.last) <= End(period, day) - (if period.Daily? then 2 else 1) * SECOND
    ensures KeepsEveryCap(Run(b, Hits(period, calls)).marks)
  {
    EveryCapIffFirstCounterLasts(period, b, calls, day);
    FirstInBucket(period, calls, day);
    ExpiryNearEnd(period, First(calls));
    SameEnd(period, First(calls), day);
  }

  lemma {:induction false} FirstInBucket(period: Period, calls: Log<DateTime>, day: DateTime)
    requires InBucket(period, calls, day) && calls.More?
    ensures Valid(First(calls)) && BucketOf(period, First(calls)) == BucketOf(period, day)
  {
    if calls.before.More? {
      FirstInBucket(period, calls.before, day);
    }
  }

  // ---- The budget is sharp ---------------------------------------------------------------------

  /** A burst of hits that finds no live counter makes one lifetime, and all its results are within a
      limit it does not pass. */
  lemma {:induction false} FreshBurst(b: Boundary, hits: Log<Hit>, hit: Hit, k: nat, limit: nat)
    requires !Live(b, Run(b, hits).counter, hit.now) && hit.ttl > 0 && 1 <= k <= limit
    ensures var before, after := Run(b, hits), Run(b, Repeat(hits, hit, k));
            && after.lives == before.lives + 1
            && after.counter == Counter(k, hit.now + hit.ttl)
            && Total(after.marks, limit) == Total(before.marks, limit) + k
  {
    if k > 1 {
      FreshBurst(b, hits, hit, k - 1, limit);
    } else {
      assert Repeat(hits, hit, 1) == More(Repeat(hits, hit, 0), hit);
    }
  }

  lemma {:induction false} RepeatedConsumes(period: Period, calls: Log<DateTime>, now: DateTime, day: DateTime, k: nat)
    requires AllValid(calls) && InBucket(period, calls, day)
    requires Valid(now) && BucketOf(period, now) == BucketOf(period, day)
    requires calls.More? ==> Instant(calls.last) <= Instant(now)
    ensures AllValid(Repeat(calls, now, k)) && InBucket(period, Repeat(calls, now, k), day)
    ensures k > 0 ==> Repeat(calls, now, k).More? && Repeat(calls, now, k).last == now
    ensures Hits(period, Repeat(calls, now, k)) == Repeat(Hits(period, calls), ConsumeHit(period, now), k)
  {
    if k > 0 {
      RepeatedConsumes(period, calls, now, day, k - 1);
    }
  }

  /** `limit` consumes at once on a day whose counter, if any, has just expired. */
  lemma LateBurst(period: Period, b: Boundary, calls: Log<DateTime>, now: DateTime, day: DateTime, limit: nat)
    requires limit > 0 && AllValid(calls) && InBucket(period, calls, day)
    requires Valid(now) && BucketOf(period, now) == BucketOf(period, day)
    requires calls.More? ==> Instant(calls.last) <= Instant(now)
    requires !Live(b, Run(b, Hits(period, calls)).counter, Instant(now))
    requires Aim(period, now) - Instant(now) < 2 * SECOND
    ensures var more := Repeat(calls, now, limit);
            && AllValid(more) && InBucket(period, more, day) && more.More? && more.last == now
            && Run(b, Hits(period, more)).lives == Run(b, Hits(period, calls)).lives + 1
            && Run(b, Hits(period, more)).counter == Counter(limit, Instant(now) + SECOND)
            && Total(Run(b, Hits(period, more)).marks, limit) == Total(Run(b, Hits(period, calls)).marks, limit) + limit
  {
    LateHit(period, now);
    RepeatedConsumes(period, calls, now, day, limit);
    FreshBurst(b, Hits(period, calls), ConsumeHit(period, now), limit, limit);
  }

  /** Close to its aim a key lives for the minimum of one second. */
  lemma LateHit(period: Period, now: DateTime)
    requires Valid(now) && Aim(period, now) - Instant(now) < 2 * SECOND
    ensures ConsumeHit(period, now).ttl == SECOND
  {
    TtlRounds(Aim(period, now) - Instant(now));
  }

  /** Full bursts at the end of a day or month, each just after the counter of the last one expired. */
  function LateCalls(period: Period, year: int, month: int, day: int, limit: nat): Log<DateTime> {
    if period.Daily? then
      Repeat(Repeat(Repeat(Empty, LateAt(year, month, day, 1 - 3 * SECOND), limit),
                    LateAt(year, month, day, 2 - 2 * SECOND), limit),
             LateAt(year, month, day, 3 - SECOND), limit)
    else
      Repeat(Repeat(Empty, LateAt(year, month, day, 1 - 2 * SECOND), limit), LateAt(year, month, day, 2 - SECOND),
             limit)
  }

  function LateAt(year: int, month: int, day: int, micros: int): DateTime { DateTime(year, month, day, DAY + micros) }

  lemma LateAtIsLate(period: Period, year: int, month: int, day: int, micros: int)
    requires Valid(DateTime(year, month, day, 0)) && (period.Monthly? ==> day == DaysInMonth(year, month))
    requires -(if period.Daily? then 3 else 2) * SECOND < micros < 0
    ensures var now := LateAt(year, month, day, micros);
            && Valid(now) && BucketOf(period, now) == BucketOf(period, DateTime(year, month, day, 0))
            && Instant(now) == End(period, DateTime(year, month, day, 0)) + micros
            && Aim(period, now) - Instant(now) < 2 * SECOND
  {
    AimIsNearEnd(period, LateAt(year, month, day, micros));
    BoundsByTable(period, DateTime(year, month, day, 0));
  }

  lemma TwoBursts(period: Period, b: Boundary, t1: DateTime, t2: DateTime, day: DateTime, limit: nat)
    requires limit > 0 && Valid(t1) && Valid(t2) && Instant(t2) == Instant(t1) + SECOND + 1
    requires BucketOf(period, t1) == BucketOf(period, day) == BucketOf(period, t2)
    requires Aim(period, t1) - Instant(t1) < 2 * SECOND && Aim(period, t2) - Instant(t2) < 2 * SECOND
    ensures var calls := Repeat(Repeat(Empty, t1, limit), t2, limit);
            && AllValid(calls) && InBucket(period, calls, day) && calls.More? && calls.last == t2
            && Run(b, Hits(period, calls)).lives == 2
            && Run(b, Hits(period, calls)).counter == Counter(limit, Instant(t2) + SECOND)
            && Total(Run(b, Hits(period, calls)).marks, limit) == 2 * limit
  {
    assert Hits(period, Empty) == Empty;
    assert Run(b, Empty) == Trace(Absent, 0, Empty);
    LateBurst(period, b, Empty, t1, day, limit);
    LateBurst(period, b, Repeat(Empty, t1, limit), t2, day, limit);
  }

  lemma ThreeBursts(b: Boundary, t1: DateTime, t2: DateTime, t3: DateTime, day: DateTime, limit: nat)
    requires limit > 0 && Valid(t1) && Valid(t2) && Valid(t3)
    requires Instant(t2) == Instant(t1) + SECOND + 1 && Instant(t3) == Instant(t2) + SECOND + 1
    requires BucketOf(Daily, t1) == BucketOf(Daily, day) == BucketOf(Daily, t2) == BucketOf(Daily, t3)
    requires Aim(Daily, t1) - Instant(t1) < 2 * SECOND && Aim(Daily, t2) - Instant(t2) < 2 * SECOND
    requires Aim(Daily, t3) - Instant(t3) < 2 * SECOND
    ensures var calls := Repeat(Repeat(Repeat(Empty, t1, limit), t2, limit), t3, limit);
            && AllValid(calls) && InBucket(Daily, calls, day)
            && Run(b, Hits(Daily, calls)).lives == 3
            && Total(Run(b, Hits(Daily, calls)).marks, limit) == 3 * limit
  {
    TwoBursts(Daily, b, t1, t2, day, limit);
    LateBurst(Daily, b, Repeat(Repeat(Empty, t1, limit), t2, limit), t3, day, limit);
  }

  /** The budget is spent to the last unit, for every limit, at the end of every day and month: three
      lifetimes in a day, and two in a month, each with `limit` results that are not exceeded. */
  lemma LivesAreSharp(period: Period, b: Boundary, year: int, month: int, day: int, limit: nat)
    requires Valid(DateTime(year, month, day, 0)) && limit > 0
    requires period.Monthly? ==> day == DaysInMonth(year, month)
    ensures var calls := LateCalls(period, year, month, day, limit);
            && AllValid(calls) && InBucket(period, calls, DateTime(year, month, day, 0))
            && Run(b, Hits(period, calls)).lives == MostLives(period)
            && Total(Run(b, Hits(period, calls)).marks, limit) == MostLives(period) * limit
  {
    var start := DateTime(year, month, day, 0);
    if period.Daily? {
      LateAtIsLate(period, year, month, day, 1 - 3 * SECOND);
      LateAtIsLate(period, year, month, day, 2 - 2 * SECOND);
      LateAtIsLate(period, year, month, day, 3 - SECOND);
      ThreeBursts(b, LateAt(year, month, day, 1 - 3 * SECOND), LateAt(year, month, day, 2 - 2 * SECOND),
                  LateAt(year, month, day, 3 - SECOND), start, limit);
    } else {
      LateAtIsLate(period, year, month, day, 1 - 2 * SECOND);
      LateAtIsLate(period, year, month, day, 2 - SECOND);
      TwoBursts(period, b, LateAt(year, month, day, 1 - 2 * SECOND), LateAt(year, month, day, 2 - SECOND), start,
                limit);
    }
  }

  // ---- All buckets together --------------------------------------------------------------------

  function CounterAt(counters: map<Bucket, Counter>, bucket: Bucket): Counter {
    if bucket in counters then counters[bucket] else Absent
  }

  datatype Call = Call(period: Period, now: DateTime)

  function Consumed(b: Boundary, counters: map<Bucket, Counter>, call: Call): (after: map<Bucket, Counter>)
    requires Valid(call.now)
    ensures BucketOf(call.period, call.now) in after && after[BucketOf(call.period, call.now)].Counter?
  {
    var bucket, hit := BucketOf(call.period, call.now), ConsumeHit(call.period, call.now);
    counters[bucket := Incr(b, CounterAt(counters, bucket), hit.now, hit.ttl)]
  }

  /** Consumes of any period on a clock that never goes back. */
  predicate Ticking(calls: Log<Call>) {
    calls.More? ==>
      && Valid(calls.last.now) && Ticking(calls.before)
      && (calls.before.More? && Valid(calls.before.last.now)
          ==> Instant(calls.before.last.now) <= Instant(calls.last.now))
  }

  function ConsumeAll(b: Boundary, calls: Log<Call>): map<Bucket, Counter>
    requires Ticking(calls)
  {
    match calls
    case Empty => map[]
    case More(before, call) => Consumed(b, ConsumeAll(b, before), call)
  }

  /** The consumes that fall into one bucket. */
  function OfBucket(calls: Log<Call>, bucket: Bucket): Log<DateTime> {
    match calls
    case Empty => Empty
    case More(before, call) =>
      if BucketOf(call.period, call.now) == bucket
      then More(OfBucket(before, bucket), call.now) else OfBucket(before, bucket)
  }

  lemma {:induction false} OfBucketIsInBucket(calls: Log<Call>, period: Period, day: DateTime)
    requires Ticking(calls)
    ensures var mine := OfBucket(calls, BucketOf(period, day));
            && InBucket(period, mine, day) && AllValid(mine)
            && (mine.More? ==> Instant(mine.last) <= Instant(calls.last.now))
  {
    if calls.More? {
      OfBucketIsInBucket(calls.before, period, day);
    }
  }

  lemma OneConsume(b: Boundary, counters: map<Bucket, Counter>, call: Call, period: Period, day: DateTime)
    requires Valid(call.now)
    ensures var bucket := BucketOf(period, day);
            var before, after := CounterAt(counters, bucket), CounterAt(Consumed(b, counters, call), bucket);
            if BucketOf(call.period, call.now) != bucket then after == before
            else call.period == period
                 && after == Incr(b, before, ConsumeHit(period, call.now).now, ConsumeHit(period, call.now).ttl)
  {
  }

  lemma OneHit(b: Boundary, hits: Log<Hit>, hit: Hit)
    ensures Run(b, More(hits, hit)).counter == Incr(b, Run(b, hits).counter, hit.now, hit.ttl)
  {
  }

  /** A bucket's counter is what the consumes of that bucket alone make of it. */
  lemma {:induction false} BucketsAreIndependent(b: Boundary, calls: Log<Call>, period: Period, day: DateTime)
    requires Ticking(calls) && AllValid(OfBucket(calls, BucketOf(period, day)))
    ensures CounterAt(ConsumeAll(b, calls), BucketOf(period, day))
         == Run(b, Hits(period, OfBucket(calls, BucketOf(period, day)))).counter
  {
    if calls.More? {
      OfBucketIsInBucket(calls.before, period, day);
      BucketsAreIndependent(b, calls.before, period, day);
      OneConsume(b, ConsumeAll(b, calls.before), calls.last, period, day);
      if BucketOf(calls.last.period, calls.last.now) == BucketOf(period, day) {
        OneHit(b, Hits(period, OfBucket(calls.before, BucketOf(period, day))), ConsumeHit(period, calls.last.now));
      }
    }
  }

  /** Over every run of consumes, across days and months: a bucket keeps its cap if and only if it
      sees no more consumes than the limit, or the counter the first of them created has not expired by
      the last one. In any case the counter goes
      through at most three lifetimes if the bucket is a day's, two if it is a month's, and no more than
      so many times `limit` of its results are not exceeded. */
  lemma EveryBucketKeepsBudget(b: Boundary, calls: Log<Call>, period: Period, day: DateTime, limit: nat)
    requires Ticking(calls) && Valid(day)
    ensures var mine := OfBucket(calls, BucketOf(period, day));
            && AllValid(mine)
            && CounterAt(ConsumeAll(b, calls), BucketOf(period, day)) == Run(b, Hits(period, mine)).counter
            && Run(b, Hits(period, mine)).lives <= MostLives(period)
            && Total(Run(b, Hits(period, mine)).marks, limit) <= MostLives(period) * limit
            && (mine.More? && limit > 0 ==>
                  && Valid(First(mine))
                  && (Total(Run(b, Hits(period, mine)).marks, limit) <= limit
                      <==> Size(mine) <= limit || !Expired(b, Instant(mine.last), ExpiryAt(period, First(mine)))))
  {
    OfBucketIsInBucket(calls, period, day);
    if OfBucket(calls, BucketOf(period, day)).More? && limit > 0 {
      CapIffFirstCounterLasts(period, b, OfBucket(calls, BucketOf(period, day)), day, limit);
    }
    BucketsAreIndependent(b, calls, period, day);
    BucketBudget(period, b, OfBucket(calls, BucketOf(period, day)), day, limit, 0);
  }
}
