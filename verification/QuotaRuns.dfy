/** Runs of all gateway calls of one API key on the clock and on the Redis keys. What different calls do
    interleaves freely, down to the single Redis command: INCR, EXPIRE and DECR. Each command comes at its
    time on a clock that never goes back, and finds, or creates, the key that the reading leads to. */
module QuotaRuns {
  import opened Options
  import opened RateLimit
  import opened Logs
  import opened Sets
  import opened Sums
  import opened Calendar
  import opened GatewayQuota
  import opened Enforcement
  import opened QuotaSafety
  import Quota

  datatype Act = Arrives | Consumes | Expires | Answers(ok: bool) | GivesBack

  /** An EXPIRE that a call has yet to send, since its INCR made the value 1. */
  datatype Due = Due(name: Name, ttl: int)

  datatype Moment = Moment(w: World, due: map<CallId, Due>)

  /** The next thing that one call does, and when. */
  datatype Event = Event(now: DateTime, id: CallId, act: Act)

  predicate Clocked(events: Log<Event>) {
    events.More? ==>
      && Valid(events.last.now) && Clocked(events.before)
      && (events.before.More? ==> Instant(events.before.last.now) <= Instant(events.last.now))
  }

  /** Nothing has happened after `now`. */
  predicate Until(events: Log<Event>, now: DateTime)
    requires Clocked(events) && Valid(now)
  {
    events.More? ==> Instant(events.last.now) <= Instant(now)
  }

  /** What a call can do next. An EXPIRE that is due comes before anything else. */
  predicate Ready(rules: seq<Rule>, m: Moment, e: Event) {
    if e.act.Expires? then e.id in m.due else e.id !in m.due && CanAct(rules, m.w.st, e)
  }

  predicate CanAct(rules: seq<Rule>, st: State, e: Event) {
    match e.act
    case Arrives => e.id !in st.calls
    case Consumes => e.id in st.calls && st.calls[e.id].Enforcing? && |st.calls[e.id].held| < |rules|
    case Expires => false
    case Answers(_) => e.id in st.calls && st.calls[e.id].Forwarding?
    case GivesBack => e.id in st.calls && st.calls[e.id].Releasing? && st.calls[e.id].freed < |st.calls[e.id].held|
  }

  /** The event changes the value of a key. */
  predicate OnKey(rules: seq<Rule>, m: Moment, e: Event) {
    Ready(rules, m, e) && (e.act.Consumes? || e.act.GivesBack?)
  }

  /** The period whose key an event is about. */
  function PeriodOf(rules: seq<Rule>, m: Moment, e: Event): Quota.Period
    requires OnKey(rules, m, e)
  {
    if e.act.Consumes? then rules[|m.w.st.calls[e.id].held|].period else Returned(m.w.st, e.id).period
  }

  function NameOf(rules: seq<Rule>, m: Moment, e: Event): Name
    requires Valid(e.now) && OnKey(rules, m, e)
  {
    NameAt(PeriodOf(rules, m, e), ReadClock(PeriodOf(rules, m, e), e.now))
  }

  /** The place the key of a period leads to. */
  function PlaceAt(b: Boundary, w: World, period: Quota.Period, now: DateTime): Place
    requires Valid(now)
  {
    SlotAt(b, w, period, ReadClock(period, now)).place
  }

  /** The step of the run that an event is, if it is one. */
  function StepOf(b: Boundary, rules: seq<Rule>, m: Moment, e: Event): Step
    requires Valid(e.now) && Ready(rules, m, e) && !e.act.Expires?
  {
    match e.act
    case Arrives => Arrive(e.id)
    case Consumes => Consume(e.id, PlaceAt(b, m.w, PeriodOf(rules, m, e), e.now))
    case Answers(ok) => Upstream(e.id, ok)
    case GivesBack => GiveBack(e.id, PlaceAt(b, m.w, PeriodOf(rules, m, e), e.now))
  }

  /** INCR */
  function Incremented(b: Boundary, rules: seq<Rule>, w: World, period: Quota.Period, now: Reading, id: CallId): World {
    var slot := SlotAt(b, w, period, now);
    Written(w, NameAt(period, now), Raised(ShownAt(b, w, period, now)),
            slot.place.life, Advance(rules, w.st, Consume(id, slot.place)))
  }

  /** EXPIRE, which does nothing to a key that is not there. */
  function Expiring(b: Boundary, w: World, due: Due, now: int): World {
    var shown := Shown(b, KeyAt(w, due.name), now);
    if shown.None? then w else w.(keys := w.keys[due.name := shown.value.(expiry := Some(now + due.ttl))])
  }

  function Happen(b: Boundary, rules: seq<Rule>, m: Moment, e: Event): Moment
    requires Valid(e.now)
  {
    if !Ready(rules, m, e) then m
    else if e.act.Expires? then Moment(Expiring(b, m.w, m.due[e.id], Instant(e.now)), m.due - {e.id})
    else if !OnKey(rules, m, e) then m.(w := m.w.(st := Advance(rules, m.w.st, StepOf(b, rules, m, e))))
    else
      var period := PeriodOf(rules, m, e);
      var reading := ReadClock(period, e.now);
      if e.act.GivesBack? then m.(w := RolledBack(b, rules, m.w, period, reading, e.id))
      else
        var w := Incremented(b, rules, m.w, period, reading, e.id);
        var name := NameAt(period, reading);
        Moment(w, if w.keys[name].value == 1 then m.due[e.id := Due(name, reading.ttl)] else m.due)
  }

  function After(b: Boundary, rules: seq<Rule>, events: Log<Event>): Moment
    requires Clocked(events)
  {
    match events
    case Empty => Moment(NEW, map[])
    case More(before, e) => Happen(b, rules, After(b, rules, before), e)
  }

  function StepsOf(b: Boundary, rules: seq<Rule>, events: Log<Event>): Log<Step>
    requires Clocked(events)
  {
    match events
    case Empty => Empty
    case More(before, e) =>
      var m, steps := After(b, rules, before), StepsOf(b, rules, before);
      if Ready(rules, m, e) && !e.act.Expires? then More(steps, StepOf(b, rules, m, e)) else steps
  }

  /** A call that nothing comes between sends INCR and EXPIRE together. */
  lemma IncrementThenExpire(b: Boundary, rules: seq<Rule>, m: Moment, id: CallId, now: DateTime)
    requires Valid(now) && OnKey(rules, m, Event(now, id, Consumes))
    ensures var mid := Happen(b, rules, m, Event(now, id, Consumes));
            var period := PeriodOf(rules, m, Event(now, id, Consumes));
            Happen(b, rules, mid, Event(now, id, Expires)).w
            == Consumed(b, rules, m.w, period, ReadClock(period, now), id)
  {
  }

  lemma HappenIsStep(b: Boundary, rules: seq<Rule>, m: Moment, e: Event)
    requires Valid(e.now)
    ensures var after := Happen(b, rules, m, e);
            if Ready(rules, m, e) && !e.act.Expires?
            then Enabled(rules, m.w.st, StepOf(b, rules, m, e))
                 && after.w.st == Apply(rules, m.w.st, StepOf(b, rules, m, e))
            else after.w.st == m.w.st
  {
  }

  /** What happens on the clock is a run of the steps. */
  lemma {:induction false} AfterIsRun(b: Boundary, rules: seq<Rule>, events: Log<Event>)
    requires Clocked(events)
    ensures After(b, rules, events).w.st == Run(rules, StepsOf(b, rules, events))
  {
    if events.More? {
      AfterIsRun(b, rules, events.before);
      HappenIsStep(b, rules, After(b, rules, events.before), events.last);
    }
  }

  lemma ExpiringKeepsSync(b: Boundary, w: World, due: Due, now: int)
    requires Synced(w)
    ensures Synced(Expiring(b, w, due, now))
  {
    forall name
      ensures SyncedAt(Expiring(b, w, due, now), name)
    {
      assert SyncedAt(w, name);
    }
  }

  lemma HappenKeepsSync(b: Boundary, rules: seq<Rule>, m: Moment, e: Event)
    requires Valid(e.now) && Synced(m.w)
    ensures Synced(Happen(b, rules, m, e).w)
  {
    HappenIsStep(b, rules, m, e);
    if OnKey(rules, m, e) {
      var period := PeriodOf(rules, m, e);
      var reading := ReadClock(period, e.now);
      ShownIsCounter(b, m.w, period, reading);
      var after := Happen(b, rules, m, e).w;
      WriteKeepsSync(b, m.w, period, reading, after.keys[NameAt(period, reading)], after.st);
    } else if Ready(rules, m, e) && e.act.Expires? {
      ExpiringKeepsSync(b, m.w, m.due[e.id], Instant(e.now));
    } else {
      SyncedStays(m.w, Happen(b, rules, m, e).w.st);
    }
  }

  /** Under every interleaving each key shows the value of the counter of its present lifetime. */
  lemma {:induction false} AfterIsSynced(b: Boundary, rules: seq<Rule>, events: Log<Event>)
    requires Clocked(events)
    ensures Synced(After(b, rules, events).w)
  {
    if events.More? {
      AfterIsSynced(b, rules, events.before);
      HappenKeepsSync(b, rules, After(b, rules, events.before), events.last);
    } else {
      assert forall name :: SyncedAt(NEW, name);
    }
  }

  // ---- How often a key is created --------------------------------------------------------------

  /** So many seconds before the end of the bucket as lifetimes may still follow. */
  function EndLess(period: Quota.Period, day: DateTime, lives: nat): int
    requires Valid(day)
  {
    Quota.End(period, day) - (Quota.MostLives(period) - lives) * SECOND
  }

  /** A key with an expiry outlasts that instant, and one that is not the first of its bucket was created
      later than the one for the lifetime before. */
  ghost predicate KeyInv(period: Quota.Period, day: DateTime, key: Option<Key>, lives: nat, last: int)
    requires Valid(day)
  {
    && lives <= Quota.MostLives(period)
    && (key.None? <==> lives == 0)
    && (key.Some? && key.value.expiry.Some? ==> EndLess(period, day, lives) < key.value.expiry.value)
    && (lives >= 2 ==> EndLess(period, day, lives - 1) < last)
  }

  lemma OperationKeepsInv(b: Boundary, period: Quota.Period, day: DateTime, key: Option<Key>, lives: nat, last: int,
                          now: DateTime, next: Key)
    requires Valid(day) && Valid(now) && Quota.BucketOf(period, now) == Quota.BucketOf(period, day)
    requires KeyInv(period, day, key, lives, last) && (lives > 0 ==> last <= Instant(now))
    requires var shown := Shown(b, key, Instant(now)); next == Raised(shown) || next == Dropped(shown)
    ensures KeyInv(period, day, Some(next), lives + if Shown(b, key, Instant(now)).Some? then 0 else 1, Instant(now))
  {
    Quota.BucketIsInterval(period, day, now);
  }

  /** An EXPIRE that is due sets no instant before that one either. */
  ghost predicate DueInv(period: Quota.Period, day: DateTime, due: map<CallId, Due>, last: int)
    requires Valid(day)
  {
    forall id | id in due && due[id].name == Name(period, Quota.BucketOf(period, day)) ::
      SECOND <= due[id].ttl && EndLess(period, day, 1) < last + due[id].ttl
  }

  lemma NewDue(period: Quota.Period, day: DateTime, now: DateTime)
    requires Valid(day) && Valid(now) && Quota.BucketOf(period, now) == Quota.BucketOf(period, day)
    ensures var ttl := ReadClock(period, now).ttl;
            SECOND <= ttl && EndLess(period, day, 1) < Instant(now) + ttl
  {
    Quota.ExpiryNearEnd(period, now);
    Quota.SameEnd(period, day, now);
    assert ReadClock(period, now).ttl == Quota.BucketAndTtl(period, now).1 * SECOND;
  }

  lemma ExpireKeepsInv(period: Quota.Period, day: DateTime, key: Key, lives: nat, last: int, now: int, ttl: int)
    requires Valid(day) && KeyInv(period, day, Some(key), lives, last) && last <= now
    requires SECOND <= ttl && EndLess(period, day, 1) < last + ttl
    ensures KeyInv(period, day, Some(key.(expiry := Some(now + ttl))), lives, now)
  {
  }

  function LastInstant(events: Log<Event>): int
    requires Clocked(events)
  {
    if events.More? then Instant(events.last.now) else 0
  }

  /** The event changes the value of this key. */
  predicate Touches(rules: seq<Rule>, m: Moment, e: Event, name: Name)
    requires Valid(e.now)
  {
    OnKey(rules, m, e) && NameOf(rules, m, e) == name
  }

  predicate SetsExpiry(b: Boundary, rules: seq<Rule>, m: Moment, e: Event, name: Name)
    requires Valid(e.now)
  {
    e.act.Expires? && Ready(rules, m, e) && m.due[e.id].name == name && Shown(b, KeyAt(m.w, name), Instant(e.now)).Some?
  }

  /** What an event does to one key. */
  lemma KeyAfter(b: Boundary, rules: seq<Rule>, m: Moment, e: Event, name: Name)
    requires Valid(e.now)
    ensures var after, shown := Happen(b, rules, m, e), Shown(b, KeyAt(m.w, name), Instant(e.now));
            if Touches(rules, m, e, name) then
              && Lives(after.w, name) == Lives(m.w, name) + (if shown.Some? then 0 else 1)
              && (KeyAt(after.w, name) == Some(Raised(shown)) || KeyAt(after.w, name) == Some(Dropped(shown)))
            else
              && Lives(after.w, name) == Lives(m.w, name)
              && KeyAt(after.w, name)
                 == if SetsExpiry(b, rules, m, e, name)
                    then Some(shown.value.(expiry := Some(Instant(e.now) + m.due[e.id].ttl))) else KeyAt(m.w, name)
  {
  }

  lemma DueAfter(b: Boundary, rules: seq<Rule>, m: Moment, e: Event, period: Quota.Period, day: DateTime, last: int)
    requires Valid(e.now) && Valid(day) && last <= Instant(e.now) && DueInv(period, day, m.due, last)
    ensures DueInv(period, day, Happen(b, rules, m, e).due, Instant(e.now))
  {
    var name, due := Name(period, Quota.BucketOf(period, day)), Happen(b, rules, m, e).due;
    forall id | id in due && due[id].name == name
      ensures SECOND <= due[id].ttl && EndLess(period, day, 1) < Instant(e.now) + due[id].ttl
    {
      if id !in m.due || due[id] != m.due[id] {
        NewDue(period, day, e.now);
      }
    }
  }

  /** What holds of a day's or a month's key, and of the EXPIREs due for it. */
  ghost predicate FewLives(m: Moment, period: Quota.Period, day: DateTime, last: int)
    requires Valid(day)
  {
    var name := Name(period, Quota.BucketOf(period, day));
    KeyInv(period, day, KeyAt(m.w, name), Lives(m.w, name), last) && DueInv(period, day, m.due, last)
  }

  lemma HappenKeepsFew(b: Boundary, rules: seq<Rule>, m: Moment, e: Event, period: Quota.Period, day: DateTime,
                       last: int)
    requires Valid(e.now) && Valid(day) && last <= Instant(e.now) && FewLives(m, period, day, last)
    ensures FewLives(Happen(b, rules, m, e), period, day, Instant(e.now))
  {
    var name := Name(period, Quota.BucketOf(period, day));
    DueAfter(b, rules, m, e, period, day, last);
    KeyAfter(b, rules, m, e, name);
    if Touches(rules, m, e, name) {
      OperationKeepsInv(b, period, day, KeyAt(m.w, name), Lives(m.w, name), last, e.now,
                        KeyAt(Happen(b, rules, m, e).w, name).value);
    } else if SetsExpiry(b, rules, m, e, name) {
      ExpireKeepsInv(period, day, KeyAt(m.w, name).value, Lives(m.w, name), last, Instant(e.now), m.due[e.id].ttl);
    }
  }

  /** Whatever is consumed and given back, in any order and by any calls, and however late an EXPIRE comes:
      the key of a day is created at most three times, that of a month at most twice. */
  lemma {:induction false} LivesAreFew(b: Boundary, rules: seq<Rule>, events: Log<Event>, period: Quota.Period,
                                       day: DateTime)
    requires Clocked(events) && Valid(day)
    ensures FewLives(After(b, rules, events), period, day, LastInstant(events))
    ensures Lives(After(b, rules, events).w, Name(period, Quota.BucketOf(period, day))) <= Quota.MostLives(period)
  {
    if events.More? {
      var last := if events.before.More? then LastInstant(events.before) else Instant(events.last.now);
      LivesAreFew(b, rules, events.before, period, day);
      HappenKeepsFew(b, rules, After(b, rules, events.before), events.last, period, day, last);
    }
  }

  // ---- A day or month as a whole ---------------------------------------------------------------

  /** Units held come from lifetimes there have been. */
  ghost predicate HeldAreLived(w: World) {
    forall id, slot | id in w.st.calls && slot in Outstanding(w.st.calls[id]) ::
      1 <= slot.place.life <= Lives(w, Name(slot.period, slot.place.bucket))
  }

  lemma LivesGrow(b: Boundary, rules: seq<Rule>, m: Moment, e: Event, name: Name)
    requires Valid(e.now)
    ensures Lives(m.w, name) <= Lives(Happen(b, rules, m, e).w, name)
  {
    KeyAfter(b, rules, m, e, name);
  }

  lemma NewUnitIsLived(b: Boundary, rules: seq<Rule>, m: Moment, e: Event)
    requires Valid(e.now) && OnKey(rules, m, e) && e.act.Consumes?
    requires forall name | name in m.w.keys :: Lives(m.w, name) >= 1
    ensures var slot := Slot(PeriodOf(rules, m, e), PlaceAt(b, m.w, PeriodOf(rules, m, e), e.now));
            1 <= slot.place.life <= Lives(Happen(b, rules, m, e).w, Name(slot.period, slot.place.bucket))
  {
    KeyAfter(b, rules, m, e, NameOf(rules, m, e));
  }

  lemma HappenKeepsHeld(b: Boundary, rules: seq<Rule>, m: Moment, e: Event)
    requires ValidRules(rules) && Valid(e.now) && AllWellFormed(rules, m.w.st) && HeldAreLived(m.w)
    requires forall name | name in m.w.keys :: Lives(m.w, name) >= 1
    ensures HeldAreLived(Happen(b, rules, m, e).w)
  {
    var after := Happen(b, rules, m, e).w;
    HappenIsStep(b, rules, m, e);
    forall id, slot | id in after.st.calls && slot in Outstanding(after.st.calls[id])
      ensures 1 <= slot.place.life <= Lives(after, Name(slot.period, slot.place.bucket))
    {
      LivesGrow(b, rules, m, e, Name(slot.period, slot.place.bucket));
      if slot !in OutstandingOf(m.w.st, id) {
        OutstandingChanges(rules, m.w.st, StepOf(b, rules, m, e));
        assert slot == Touched(rules, m.w.st, StepOf(b, rules, m, e));
        NewUnitIsLived(b, rules, m, e);
      }
    }
  }

  lemma {:induction false} KeysAreLived(b: Boundary, rules: seq<Rule>, events: Log<Event>)
    requires Clocked(events)
    ensures forall name | name in After(b, rules, events).w.keys :: Lives(After(b, rules, events).w, name) >= 1
  {
    if events.More? {
      KeysAreLived(b, rules, events.before);
      forall name | name in After(b, rules, events).w.keys
        ensures Lives(After(b, rules, events).w, name) >= 1
      {
        KeyAfter(b, rules, After(b, rules, events.before), events.last, name);
      }
    }
  }

  lemma {:induction false} AfterHeldAreLived(b: Boundary, rules: seq<Rule>, events: Log<Event>)
    requires ValidRules(rules) && Clocked(events)
    ensures HeldAreLived(After(b, rules, events).w) && AllWellFormed(rules, After(b, rules, events).w.st)
  {
    AfterIsRun(b, rules, events);
    RunWellFormed(rules, StepsOf(b, rules, events));
    if events.More? {
      AfterHeldAreLived(b, rules, events.before);
      KeysAreLived(b, rules, events.before);
      HappenKeepsHeld(b, rules, After(b, rules, events.before), events.last);
    }
  }

  /** Calls that were admitted with a unit of the first n lifetimes of a bucket. */
  ghost function AdmittedIn(st: State, period: Quota.Period, bucket: Quota.Bucket, n: nat): set<CallId>
  {
    set id | id in st.calls && (st.calls[id].Forwarding? || st.calls[id].Served?)
             && HoldsOf(Outstanding(st.calls[id]), period, bucket, n)
  }

  ghost predicate HoldsOf(units: set<Slot>, period: Quota.Period, bucket: Quota.Bucket, n: nat) {
    exists life: nat :: 1 <= life <= n && Slot(period, Place(bucket, life)) in units
  }

  /** Give-backs into one of them of units that came from elsewhere. */
  function StraysIn(rules: seq<Rule>, steps: Log<Step>, period: Quota.Period, bucket: Quota.Bucket, n: nat): nat {
    if n == 0 then 0
    else StraysIn(rules, steps, period, bucket, n - 1) + StraysInto(rules, steps, Slot(period, Place(bucket, n)))
  }

  lemma {:induction false} AdmittedInLives(rules: seq<Rule>, steps: Log<Step>, i: nat, bucket: Quota.Bucket, n: nat)
    requires ValidRules(rules) && i < |rules|
    ensures |AdmittedIn(Run(rules, steps), rules[i].period, bucket, n)|
         <= n * rules[i].maxRequests + StraysIn(rules, steps, rules[i].period, bucket, n)
  {
    var st, period := Run(rules, steps), rules[i].period;
    if n == 0 {
      assert AdmittedIn(st, period, bucket, 0) == {};
    } else {
      var slot := Slot(period, Place(bucket, n));
      AdmittedInLives(rules, steps, i, bucket, n - 1);
      NeverOverQuota(rules, steps, i, slot);
      OneLifeMore(st, period, bucket, n);
      SumOfLives(n, rules[i].maxRequests);
    }
  }

  lemma SumOfLives(n: nat, limit: nat)
    requires n > 0
    ensures n * limit == (n - 1) * limit + limit
  {
  }

  lemma OneLifeMore(st: State, period: Quota.Period, bucket: Quota.Bucket, n: nat)
    requires n > 0
    ensures |AdmittedIn(st, period, bucket, n)|
         <= |AdmittedIn(st, period, bucket, n - 1)| + |Admitted(st, Slot(period, Place(bucket, n)))|
  {
    var less, last := AdmittedIn(st, period, bucket, n - 1), Admitted(st, Slot(period, Place(bucket, n)));
    forall id | id in AdmittedIn(st, period, bucket, n)
      ensures id in less + last
    {
      var life: nat :| 1 <= life <= n && Slot(period, Place(bucket, life)) in Outstanding(st.calls[id]);
      assert life < n ==> HoldsOf(Outstanding(st.calls[id]), period, bucket, n - 1);
    }
    SubsetSize(AdmittedIn(st, period, bucket, n), less + last);
  }

  /** Calls that were admitted with a unit of the bucket, whatever lifetime it came from. */
  ghost function AdmittedOn(st: State, period: Quota.Period, bucket: Quota.Bucket): set<CallId> {
    set id | id in st.calls && (st.calls[id].Forwarding? || st.calls[id].Served?)
             && exists life: nat :: Slot(period, Place(bucket, life)) in Outstanding(st.calls[id])
  }

  /** The cap on a calendar day or month: under every interleaving on the clock, the calls admitted and not
      given back exceed three times the limit of a day, or twice that of a month, by no more than the
      strays that day or month got. */
  lemma CalendarBudget(b: Boundary, rules: seq<Rule>, events: Log<Event>, i: nat, day: DateTime)
    requires ValidRules(rules) && Clocked(events) && i < |rules| && Valid(day)
    ensures var period, bucket := rules[i].period, Quota.BucketOf(rules[i].period, day);
            |AdmittedOn(After(b, rules, events).w.st, period, bucket)|
            <= Quota.MostLives(period) * rules[i].maxRequests
               + StraysIn(rules, StepsOf(b, rules, events), period, bucket, Quota.MostLives(period))
  {
    var period, bucket := rules[i].period, Quota.BucketOf(rules[i].period, day);
    var w, most := After(b, rules, events).w, Quota.MostLives(period);
    LivesAreFew(b, rules, events, period, day);
    AfterHeldAreLived(b, rules, events);
    AfterIsRun(b, rules, events);
    AdmittedInLives(rules, StepsOf(b, rules, events), i, bucket, most);
    forall id | id in AdmittedOn(w.st, period, bucket)
      ensures id in AdmittedIn(w.st, period, bucket, most)
    {
      var life: nat :| Slot(period, Place(bucket, life)) in Outstanding(w.st.calls[id]);
      assert 1 <= life <= most;
    }
    SubsetSize(AdmittedOn(w.st, period, bucket), AdmittedIn(w.st, period, bucket, most));
  }

  // ---- Strays ----------------------------------------------------------------------------------

  /** Since the run `events`, every operation on the key has found it. */
  predicate FoundSince(b: Boundary, rules: seq<Rule>, events: Log<Event>, later: Log<Event>, name: Name)
    requires Clocked(later)
  {
    later == events
    || (later.More? && FoundSince(b, rules, events, later.before, name)
        && FoundBy(b, rules, After(b, rules, later.before), later.last, name))
  }

  predicate FoundBy(b: Boundary, rules: seq<Rule>, m: Moment, e: Event, name: Name)
    requires Valid(e.now)
  {
    Touches(rules, m, e, name) ==> Shown(b, KeyAt(m.w, name), Instant(e.now)).Some?
  }

  lemma {:induction false} LivesSince(b: Boundary, rules: seq<Rule>, events: Log<Event>, later: Log<Event>, name: Name)
    requires Clocked(events) && Clocked(later) && Extends(later, events)
    ensures Lives(After(b, rules, later).w, name) >= Lives(After(b, rules, events).w, name)
    ensures Lives(After(b, rules, later).w, name) == Lives(After(b, rules, events).w, name)
       <==> FoundSince(b, rules, events, later, name)
  {
    if later != events {
      LivesSince(b, rules, events, later.before, name);
      KeyAfter(b, rules, After(b, rules, later.before), later.last, name);
    } else {
      assert FoundSince(b, rules, events, events, name);
    }
  }

  /** Under every interleaving: a give-back at `now` finds the counter that the unit was taken from, with the
      last of the events `taken`, if and only if it falls into the same bucket and the key has not expired
      since: every operation on it has found it, and so does this one. */
  lemma GiveBackFindsIt(b: Boundary, rules: seq<Rule>, taken: Log<Event>, later: Log<Event>, now: DateTime)
    requires Clocked(later) && Clocked(taken) && Extends(later, taken) && Valid(now)
    requires taken.More? && taken.last.act.Consumes? && OnKey(rules, After(b, rules, taken.before), taken.last)
    ensures var before := After(b, rules, taken.before);
            var period := PeriodOf(rules, before, taken.last);
            var name := NameAt(period, ReadClock(period, taken.last.now));
            PlaceAt(b, After(b, rules, later).w, period, now) == PlaceAt(b, before.w, period, taken.last.now)
            <==> Quota.BucketOf(period, now) == Quota.BucketOf(period, taken.last.now)
                 && FoundSince(b, rules, taken, later, name)
                 && Shown(b, KeyAt(After(b, rules, later).w, name), Instant(now)).Some?
  {
    var before := After(b, rules, taken.before);
    var period := PeriodOf(rules, before, taken.last);
    var name := NameAt(period, ReadClock(period, taken.last.now));
    KeyAfter(b, rules, before, taken.last, name);
    LivesSince(b, rules, taken, later, name);
  }

  // ---- Safe from now on ------------------------------------------------------------------------

  ghost function HereAt(b: Boundary, w: World, now: DateTime): Here
    requires Valid(now)
  {
    (period: Quota.Period) => PlaceAt(b, w, period, now)
  }

  /** What happens finds the counters of `here`. */
  predicate EventHere(b: Boundary, rules: seq<Rule>, here: Here, m: Moment, e: Event)
    requires Valid(e.now)
  {
    OnKey(rules, m, e) ==> PlaceAt(b, m.w, PeriodOf(rules, m, e), e.now) == here(PeriodOf(rules, m, e))
  }

  /** The run goes on from `now`, as long as keys lead to the counters of `here`. */
  predicate GoesOn(b: Boundary, rules: seq<Rule>, here: Here, events: Log<Event>, now: DateTime, later: Log<Event>)
    requires Clocked(later) && Valid(now)
  {
    later == events
    || (later.More? && GoesOn(b, rules, here, events, now, later.before)
        && Instant(now) <= Instant(later.last.now)
        && EventHere(b, rules, here, After(b, rules, later.before), later.last))
  }

  /** However the run goes on, as long as keys lead where they lead now, the calls past the check of the
      counter keep its limit. */
  ghost predicate SafeFrom(b: Boundary, rules: seq<Rule>, events: Log<Event>, now: DateTime, i: nat, slot: Slot)
    requires Clocked(events) && Valid(now) && i < |rules|
  {
    var here := HereAt(b, After(b, rules, events).w, now);
    forall later | Clocked(later) && GoesOn(b, rules, here, events, now, later) ::
      |PassedHolders(After(b, rules, later).w.st, slot)| <= rules[i].maxRequests
  }

  lemma {:induction false} GoesOnContinues(b: Boundary, rules: seq<Rule>, here: Here, events: Log<Event>,
                                           now: DateTime, later: Log<Event>)
    requires Clocked(events) && Clocked(later) && Valid(now) && GoesOn(b, rules, here, events, now, later)
    ensures Continues(rules, here, StepsOf(b, rules, events), StepsOf(b, rules, later))
  {
    if later != events {
      GoesOnContinues(b, rules, here, events, now, later.before);
      AfterIsRun(b, rules, later.before);
      HappenIsStep(b, rules, After(b, rules, later.before), later.last);
    } else {
      assert Continues(rules, here, StepsOf(b, rules, events), StepsOf(b, rules, events));
    }
  }

  /** An EXPIRE that is due leaves its key in place at once. */
  ghost predicate DueLater(m: Moment) { forall id | id in m.due :: m.due[id].ttl > 0 }

  lemma {:induction false} AfterDueLater(b: Boundary, rules: seq<Rule>, events: Log<Event>)
    requires Clocked(events)
    ensures DueLater(After(b, rules, events))
  {
    if events.More? {
      AfterDueLater(b, rules, events.before);
      HappenDueLater(b, rules, After(b, rules, events.before), events.last);
    }
  }

  lemma HappenDueLater(b: Boundary, rules: seq<Rule>, m: Moment, e: Event)
    requires Valid(e.now) && DueLater(m)
    ensures DueLater(Happen(b, rules, m, e))
  {
    if OnKey(rules, m, e) {
      NewDue(PeriodOf(rules, m, e), e.now, e.now);
    }
  }

  /** A command leaves its key where commands at the same instant find it. */
  lemma SamePlaceAtOnce(b: Boundary, rules: seq<Rule>, m: Moment, e: Event, period: Quota.Period)
    requires Valid(e.now) && DueLater(m)
    ensures PlaceAt(b, Happen(b, rules, m, e).w, period, e.now) == PlaceAt(b, m.w, period, e.now)
  {
    KeyAfter(b, rules, m, e, NameAt(period, ReadClock(period, e.now)));
  }

  /** All that goes on at one instant goes on where keys lead then. */
  ghost predicate AtOnce(b: Boundary, rules: seq<Rule>, events: Log<Event>, now: DateTime, later: Log<Event>)
    requires Clocked(events) && Valid(now)
  {
    && Clocked(later) && Until(later, now)
    && GoesOn(b, rules, HereAt(b, After(b, rules, events).w, now), events, now, later)
    && (forall period ::
          PlaceAt(b, After(b, rules, later).w, period, now) == PlaceAt(b, After(b, rules, events).w, period, now))
  }

  lemma OneMoreAtOnce(b: Boundary, rules: seq<Rule>, events: Log<Event>, now: DateTime, later: Log<Event>, e: Event)
    requires Clocked(events) && Valid(now) && AtOnce(b, rules, events, now, later) && e.now == now
    ensures AtOnce(b, rules, events, now, More(later, e))
  {
    AfterDueLater(b, rules, later);
    forall period
      ensures PlaceAt(b, After(b, rules, More(later, e)).w, period, now)
           == PlaceAt(b, After(b, rules, events).w, period, now)
    {
      SamePlaceAtOnce(b, rules, After(b, rules, later), e, period);
    }
  }

  /** A call first sends the EXPIRE it may owe. */
  lemma SettleAtOnce(b: Boundary, rules: seq<Rule>, events: Log<Event>, now: DateTime, later: Log<Event>, id: CallId)
    returns (settled: Log<Event>)
    requires Clocked(events) && Valid(now) && AtOnce(b, rules, events, now, later)
    ensures AtOnce(b, rules, events, now, settled) && id !in After(b, rules, settled).due
    ensures After(b, rules, settled).w.st == After(b, rules, later).w.st
  {
    settled := later;
    if id in After(b, rules, later).due {
      var e := Event(now, id, Expires);
      OneMoreAtOnce(b, rules, events, now, later, e);
      HappenIsStep(b, rules, After(b, rules, later), e);
      settled := More(later, e);
    }
  }

  function EventFor(step: Step, now: DateTime): Event {
    match step
    case Arrive(id) => Event(now, id, Arrives)
    case Consume(id, _) => Event(now, id, Consumes)
    case Upstream(id, ok) => Event(now, id, Answers(ok))
    case GiveBack(id, _) => Event(now, id, GivesBack)
  }

  lemma EventIsStep(b: Boundary, rules: seq<Rule>, m: Moment, step: Step, now: DateTime)
    requires Valid(now) && step.id !in m.due && StepHere(rules, HereAt(b, m.w, now), m.w.st, step)
    ensures Happen(b, rules, m, EventFor(step, now)).w.st == Advance(rules, m.w.st, step)
  {
    HappenIsStep(b, rules, m, EventFor(step, now));
    if Ready(rules, m, EventFor(step, now)) {
      assert StepOf(b, rules, m, EventFor(step, now)) == step;
    }
  }

  /** Whatever can go on while keys lead where they lead now, can go on at this very instant. */
  lemma {:induction false} GoOnAtOnce(b: Boundary, rules: seq<Rule>, events: Log<Event>, now: DateTime,
                                      steps: Log<Step>)
    returns (later: Log<Event>)
    requires Clocked(events) && Valid(now) && Until(events, now)
    requires Continues(rules, HereAt(b, After(b, rules, events).w, now), StepsOf(b, rules, events), steps)
    ensures AtOnce(b, rules, events, now, later) && After(b, rules, later).w.st == Run(rules, steps)
  {
    AfterIsRun(b, rules, events);
    later := events;
    assert GoesOn(b, rules, HereAt(b, After(b, rules, events).w, now), events, now, events);
    if steps != StepsOf(b, rules, events) {
      var mid := GoOnAtOnce(b, rules, events, now, steps.before);
      var settled := SettleAtOnce(b, rules, events, now, mid, steps.last.id);
      var e := EventFor(steps.last, now);
      StepIsHere(b, rules, events, now, settled, steps.last);
      EventIsStep(b, rules, After(b, rules, settled), steps.last, now);
      OneMoreAtOnce(b, rules, events, now, settled, e);
      later := More(settled, e);
    }
  }

  lemma StepIsHere(b: Boundary, rules: seq<Rule>, events: Log<Event>, now: DateTime, later: Log<Event>, step: Step)
    requires Clocked(events) && Valid(now) && AtOnce(b, rules, events, now, later)
    requires StepHere(rules, HereAt(b, After(b, rules, events).w, now), After(b, rules, later).w.st, step)
    ensures StepHere(rules, HereAt(b, After(b, rules, later).w, now), After(b, rules, later).w.st, step)
  {
  }

  /** In every reachable state of keys and calls, and at every instant: the limit of a counter is safe, as
      long as keys lead to the counters they lead to now, if and only if it is kept now, and its key does not
      lead to it, or it covers the units held of it and those astray that may still come back into it, or
      not enough calls can get to its check to fill it. */
  lemma SafeFromIff(b: Boundary, rules: seq<Rule>, events: Log<Event>, now: DateTime, i: nat, slot: Slot)
    requires ValidRules(rules) && Clocked(events) && Valid(now) && Until(events, now)
    requires i < |rules| && slot.period == rules[i].period
    ensures var w := After(b, rules, events).w;
            SafeFrom(b, rules, events, now, i, slot)
            <==> |PassedHolders(w.st, slot)| <= rules[i].maxRequests
                 && (PlaceAt(b, w, slot.period, now) != slot.place
                     || |Holders(w.st, slot)| + |Astray(w.st, slot)| <= Get(w.st.counters, slot)
                     || !CanFill(rules, HereAt(b, w, now), w.st, i, slot))
  {
    var w := After(b, rules, events).w;
    var here, steps := HereAt(b, w, now), StepsOf(b, rules, events);
    AfterIsRun(b, rules, events);
    SafeIff(rules, here, steps, i, slot);
    if Safe(rules, here, steps, i, slot) {
      forall later | Clocked(later) && GoesOn(b, rules, here, events, now, later)
        ensures |PassedHolders(After(b, rules, later).w.st, slot)| <= rules[i].maxRequests
      {
        GoesOnContinues(b, rules, here, events, now, later);
        AfterIsRun(b, rules, later);
      }
    } else {
      var overrun :| Continues(rules, here, steps, overrun)
                     && |PassedHolders(Run(rules, overrun), slot)| > rules[i].maxRequests;
      var later := GoOnAtOnce(b, rules, events, now, overrun);
    }
  }
}
