/** The quota code on its Redis keys: INCR and DECR on keys that expire, the loops of `_enforce_quota`
    and `_rollback_quota`, and the exception path of `handle`. Everything one call does to the keys is
    a step of the run of all calls. */
module Enforcement {
  import opened Options
  import opened Seqs
  import opened RateLimit
  import opened Logs
  import opened Sums
  import opened RedisCounter
  import opened GatewayQuota
  import opened Calendar
  import Quota

  /** `quota:{api_key_id}:{period}:{bucket}`, for one API key. */
  datatype Name = Name(period: Quota.Period, bucket: Quota.Bucket)

  /** A key that DECR created has no expiry. */
  datatype Key = Key(value: int, expiry: Option<int>)

  datatype QuotaCheck = QuotaCheck(period: Quota.Period, limit: nat, used: int)

  /** What a look at the clock means for a period: its bucket, the instant, and how long a key created then
      is to live. */
  datatype Reading = Reading(bucket: Quota.Bucket, instant: int, ttl: int)

  function ReadClock(period: Quota.Period, now: DateTime): Reading
    requires Valid(now)
  {
    var (bucket, ttl) := Quota.BucketAndTtl(period, now);
    Reading(bucket, Instant(now), ttl * SECOND)
  }

  function NameAt(period: Quota.Period, now: Reading): Name { Name(period, now.bucket) }

  // ---- One key ---------------------------------------------------------------------------------

  /** What Redis shows of a key. */
  function Shown(b: Boundary, key: Option<Key>, now: int): Option<Key> {
    if key.Some? && key.value.expiry.Some? && Expired(b, now, key.value.expiry.value) then None else key
  }

  function ValueOf(shown: Option<Key>): int { if shown.Some? then shown.value.value else 0 }

  /** INCR */
  function Raised(shown: Option<Key>): Key {
    Key(ValueOf(shown) + 1, if shown.Some? then shown.value.expiry else None)
  }

  /** INCR, and EXPIRE if the new value is 1, with nothing in between. */
  function Bumped(shown: Option<Key>, now: int, ttl: int): Key {
    var key := Raised(shown);
    if key.value == 1 then key.(expiry := Some(now + ttl)) else key
  }

  /** DECR */
  function Dropped(shown: Option<Key>): Key {
    Key(ValueOf(shown) - 1, if shown.Some? then shown.value.expiry else None)
  }

  function AsKey(c: Counter): Option<Key> { if c.Absent? then None else Some(Key(c.value, Some(c.deadline))) }

  /** Without give-backs a key is the expiring counter that the budget of a bucket is about. */
  lemma BumpedIsIncr(b: Boundary, c: Counter, period: Quota.Period, now: DateTime)
    requires Valid(now)
    ensures var reading, hit := ReadClock(period, now), Quota.ConsumeHit(period, now);
            && reading.bucket == Quota.BucketOf(period, now)
            && Some(Bumped(Shown(b, AsKey(c), reading.instant), reading.instant, reading.ttl))
               == AsKey(Incr(b, c, hit.now, hit.ttl))
  {
  }

  // ---- Keys and counters -----------------------------------------------------------------------

  /** The keys of one API key, how many times each has been created, and where the run of all calls has
      got to. */
  datatype World = World(keys: map<Name, Key>, lives: map<Name, nat>, st: State)

  const NEW := World(map[], map[], START)

  function KeyAt(w: World, name: Name): Option<Key> { if name in w.keys then Some(w.keys[name]) else None }

  function Lives(w: World, name: Name): nat { if name in w.lives then w.lives[name] else 0 }

  function ShownAt(b: Boundary, w: World, period: Quota.Period, now: Reading): Option<Key>
  {
    Shown(b, KeyAt(w, NameAt(period, now)), now.instant)
  }

  /** The counter that an operation on the key finds at `now`, or creates. */
  function SlotAt(b: Boundary, w: World, period: Quota.Period, now: Reading): Slot
  {
    var name := NameAt(period, now);
    Slot(period, Place(name.bucket, Lives(w, name) + if ShownAt(b, w, period, now).Some? then 0 else 1))
  }

  /** A key has the value of the counter of its latest lifetime, and no later one has been used. */
  ghost predicate SyncedAt(w: World, name: Name) {
    && (forall life: nat | life > Lives(w, name) ::
          Get(w.st.counters, Slot(name.period, Place(name.bucket, life))) == 0)
    && (name in w.keys ==>
          Get(w.st.counters, Slot(name.period, Place(name.bucket, Lives(w, name)))) == w.keys[name].value)
  }

  ghost predicate Synced(w: World) { forall name {:trigger SyncedAt(w, name)} :: SyncedAt(w, name) }

  function Advance(rules: seq<Rule>, st: State, step: Step): State {
    if Enabled(rules, st, step) then Apply(rules, st, step) else st
  }

  function Written(w: World, name: Name, key: Key, life: nat, st: State): World {
    World(w.keys[name := key], w.lives[name := life], st)
  }

  /** `consume`: what it does to the key, and the step of the run that it is. */
  function Consumed(b: Boundary, rules: seq<Rule>, w: World, period: Quota.Period, now: Reading, id: CallId): World
  {
    var slot := SlotAt(b, w, period, now);
    Written(w, NameAt(period, now), Bumped(ShownAt(b, w, period, now), now.instant, now.ttl),
            slot.place.life, Advance(rules, w.st, Consume(id, slot.place)))
  }

  /** `rollback` */
  function RolledBack(b: Boundary, rules: seq<Rule>, w: World, period: Quota.Period, now: Reading, id: CallId): World
  {
    var slot := SlotAt(b, w, period, now);
    Written(w, NameAt(period, now), Dropped(ShownAt(b, w, period, now)),
            slot.place.life, Advance(rules, w.st, GiveBack(id, slot.place)))
  }

  /** An operation finds the value that the run's counter has. */
  lemma ShownIsCounter(b: Boundary, w: World, period: Quota.Period, now: Reading)
    requires Synced(w)
    ensures Get(w.st.counters, SlotAt(b, w, period, now)) == ValueOf(ShownAt(b, w, period, now))
  {
    assert SyncedAt(w, NameAt(period, now));
  }

  lemma WriteKeepsSync(b: Boundary, w: World, period: Quota.Period, now: Reading, key: Key, st: State)
    requires Synced(w)
    requires st.counters == w.st.counters[SlotAt(b, w, period, now) := key.value]
    ensures Synced(Written(w, NameAt(period, now), key, SlotAt(b, w, period, now).place.life, st))
  {
    var after := Written(w, NameAt(period, now), key, SlotAt(b, w, period, now).place.life, st);
    forall name
      ensures SyncedAt(after, name)
    {
      assert SyncedAt(w, name);
    }
  }

  /** Redis still has the key. */
  predicate Finds(b: Boundary, keys: map<Name, Key>, name: Name, now: int) {
    name in keys && (keys[name].expiry.Some? ==> !Expired(b, now, keys[name].expiry.value))
  }

  /** `consume` on its key, and no other: one that is found keeps its deadline, and one that is not is
      created with the value 1 for the TTL; so is one whose give-backs had left nothing. The value reported
      is the key's. */
  lemma ConsumedKey(b: Boundary, rules: seq<Rule>, w: World, period: Quota.Period, now: Reading, id: CallId)
    ensures var name, after := Name(period, now.bucket), Consumed(b, rules, w, period, now, id);
            && name in after.keys && after.keys - {name} == w.keys - {name}
            && after.keys[name] == (if Finds(b, w.keys, name, now.instant) && w.keys[name].value != 0
                                    then Key(w.keys[name].value + 1, w.keys[name].expiry)
                                    else Key(1, Some(now.instant + now.ttl)))
            && after.keys[name].value == ValueOf(ShownAt(b, w, period, now)) + 1
  {
  }

  /** `rollback` on its key, and no other: one that is found has one unit less and keeps its deadline; one
      that is not is created with the value -1 and never expires. */
  lemma GivenBackKey(b: Boundary, rules: seq<Rule>, w: World, period: Quota.Period, now: Reading, id: CallId)
    ensures var name, after := Name(period, now.bucket), RolledBack(b, rules, w, period, now, id);
            && name in after.keys && after.keys - {name} == w.keys - {name}
            && after.keys[name] == (if Finds(b, w.keys, name, now.instant)
                                    then Key(w.keys[name].value - 1, w.keys[name].expiry) else Key(-1, None))
  {
  }

  // ---- What a call takes and gives back --------------------------------------------------------

  /** What the clock says when a call gets to the key of a period. */
  type Clock = Quota.Period -> Reading

  ghost predicate Distinct(periods: seq<Quota.Period>) {
    forall i, j | 0 <= i < j < |periods| :: periods[i] != periods[j]
  }

  function Periods(rules: seq<Rule>): (periods: seq<Quota.Period>)
    ensures |periods| == |rules|
  {
    seq(|rules|, i requires 0 <= i < |rules| => rules[i].period)
  }

  /** The counters that operations on these periods find. */
  ghost function SlotsAt(b: Boundary, w: World, periods: seq<Quota.Period>, at: Clock): (slots: seq<Slot>)
    ensures |slots| == |periods| && forall i | 0 <= i < |slots| :: slots[i].period == periods[i]
  {
    if periods == [] then [] else SlotsAt(b, w, Init(periods), at) + [SlotAt(b, w, Last(periods), at(Last(periods)))]
  }

  function SetOf(slots: seq<Slot>): set<Slot> { set s | s in slots }

  ghost predicate MovedAt(before: State, after: State, plus: set<Slot>, minus: set<Slot>, slot: Slot) {
    Get(after.counters, slot)
      == Get(before.counters, slot) + (if slot in plus then 1 else 0) - (if slot in minus then 1 else 0)
  }

  /** One unit more of the counters in `plus`, one less of those in `minus`. */
  ghost predicate Moved(before: State, after: State, plus: set<Slot>, minus: set<Slot>) {
    forall slot {:trigger MovedAt(before, after, plus, minus, slot)} :: MovedAt(before, after, plus, minus, slot)
  }

  lemma OneMoreTaken(before: State, mid: State, after: State, plus: set<Slot>, slot: Slot)
    requires Moved(before, mid, plus, {}) && Moved(mid, after, {slot}, {}) && slot !in plus
    ensures Moved(before, after, plus + {slot}, {})
  {
    forall other
      ensures MovedAt(before, after, plus + {slot}, {}, other)
    {
      assert MovedAt(before, mid, plus, {}, other) && MovedAt(mid, after, {slot}, {}, other);
    }
  }

  lemma OneMoreReturned(before: State, mid: State, after: State, minus: set<Slot>, slot: Slot)
    requires Moved(before, mid, {}, minus) && Moved(mid, after, {}, {slot}) && slot !in minus
    ensures Moved(before, after, {}, minus + {slot})
  {
    forall other
      ensures MovedAt(before, after, {}, minus + {slot}, other)
    {
      assert MovedAt(before, mid, {}, minus, other) && MovedAt(mid, after, {}, {slot}, other);
    }
  }

  lemma TakenThenReturned(before: State, mid: State, after: State, plus: set<Slot>, minus: set<Slot>)
    requires Moved(before, mid, plus, {}) && Moved(mid, after, {}, minus)
    ensures Moved(before, after, plus, minus)
  {
    forall slot
      ensures MovedAt(before, after, plus, minus, slot)
    {
      assert MovedAt(before, mid, plus, {}, slot) && MovedAt(mid, after, {}, minus, slot);
    }
  }

  lemma NotMoved(st: State)
    ensures Moved(st, st, {}, {})
  {
    forall slot
      ensures MovedAt(st, st, {}, {}, slot)
    {
    }
  }

  ghost predicate SameKey(w: World, after: World, name: Name) {
    KeyAt(after, name) == KeyAt(w, name) && Lives(after, name) == Lives(w, name)
  }

  /** Only keys of these periods have changed. */
  ghost predicate OnlyPeriods(w: World, after: World, periods: seq<Quota.Period>) {
    forall name: Name {:trigger SameKey(w, after, name)} | name.period !in periods :: SameKey(w, after, name)
  }

  lemma OtherPeriodsStay(b: Boundary, w: World, after: World, periods: seq<Quota.Period>, period: Quota.Period,
                         now: Reading)
    requires OnlyPeriods(w, after, periods) && period !in periods
    ensures SlotAt(b, after, period, now) == SlotAt(b, w, period, now)
    ensures ShownAt(b, after, period, now) == ShownAt(b, w, period, now)
  {
    assert SameKey(w, after, NameAt(period, now));
  }

  lemma OnePeriodMore(w: World, mid: World, after: World, periods: seq<Quota.Period>, name: Name, key: Key, life: nat,
                      st: State)
    requires periods != [] && name.period == Last(periods)
    requires OnlyPeriods(w, mid, Init(periods)) && after == Written(mid, name, key, life, st)
    ensures OnlyPeriods(w, after, periods)
  {
    forall other: Name | other.period !in periods
      ensures SameKey(w, after, other)
    {
      assert other.period !in Init(periods) && SameKey(w, mid, other);
    }
  }

  /** One unit of each of these periods is consumed, in order. */
  ghost function TakenAll(b: Boundary, rules: seq<Rule>, w: World, periods: seq<Quota.Period>, at: Clock,
                          id: CallId): World
  {
    if periods == [] then w
    else Consumed(b, rules, TakenAll(b, rules, w, Init(periods), at, id), Last(periods), at(Last(periods)), id)
  }

  /** One unit of each is given back. */
  ghost function GivenBack(b: Boundary, rules: seq<Rule>, w: World, periods: seq<Quota.Period>, back: Clock,
                           id: CallId): World
  {
    if periods == [] then w
    else RolledBack(b, rules, GivenBack(b, rules, w, Init(periods), back, id), Last(periods), back(Last(periods)), id)
  }

  lemma SlotIsNew(b: Boundary, w: World, periods: seq<Quota.Period>, at: Clock)
    requires periods != [] && Distinct(periods)
    ensures Last(periods) !in Init(periods)
    ensures var slot := SlotAt(b, w, Last(periods), at(Last(periods)));
            && slot !in SetOf(SlotsAt(b, w, Init(periods), at))
            && SetOf(SlotsAt(b, w, periods, at)) == SetOf(SlotsAt(b, w, Init(periods), at)) + {slot}
  {
    var slots, slot := SlotsAt(b, w, Init(periods), at), SlotAt(b, w, Last(periods), at(Last(periods)));
    assert SlotsAt(b, w, periods, at) == slots + [slot];
    forall i | 0 <= i < |slots|
      ensures slots[i] != slot
    {
      assert slots[i].period == periods[i];
    }
  }

  /** The loop that gives back: one unit less of the counter that each period's key leads to, and the
      call is so much nearer its end. */
  lemma {:induction false} GivingBack(b: Boundary, rules: seq<Rule>, w: World, periods: seq<Quota.Period>, back: Clock,
                                      id: CallId, held: seq<Slot>, exceeded: bool)
    requires Synced(w) && Distinct(periods) && |periods| <= |held|
    requires id in w.st.calls && w.st.calls[id] == Release(held, 0, exceeded)
    requires forall i | 0 <= i < |periods| :: held[i].period == periods[i]
    ensures var after := GivenBack(b, rules, w, periods, back, id);
            && Synced(after) && OnlyPeriods(w, after, periods)
            && after.st.calls == w.st.calls[id := Release(held, |periods|, exceeded)]
            && Moved(w.st, after.st, {}, SetOf(SlotsAt(b, w, periods, back)))
  {
    if periods == [] {
      NotMoved(w.st);
    } else {
      GivingBack(b, rules, w, Init(periods), back, id, held, exceeded);
      GivingBackOne(b, rules, w, GivenBack(b, rules, w, Init(periods), back, id), periods, back, id, held, exceeded);
    }
  }

  lemma GivingBackOne(b: Boundary, rules: seq<Rule>, w: World, mid: World, periods: seq<Quota.Period>, back: Clock,
                      id: CallId, held: seq<Slot>, exceeded: bool)
    requires Distinct(periods) && 0 < |periods| <= |held|
    requires held[|periods| - 1].period == Last(periods)
    requires Synced(mid) && OnlyPeriods(w, mid, Init(periods))
    requires mid.st.calls == w.st.calls[id := Release(held, |periods| - 1, exceeded)]
    requires Moved(w.st, mid.st, {}, SetOf(SlotsAt(b, w, Init(periods), back)))
    ensures var after := RolledBack(b, rules, mid, Last(periods), back(Last(periods)), id);
            && Synced(after) && OnlyPeriods(w, after, periods)
            && after.st.calls == w.st.calls[id := Release(held, |periods|, exceeded)]
            && Moved(w.st, after.st, {}, SetOf(SlotsAt(b, w, periods, back)))
  {
    var period, now := Last(periods), back(Last(periods));
    var after := RolledBack(b, rules, mid, period, now, id);
    SlotIsNew(b, w, periods, back);
    OtherPeriodsStay(b, w, mid, Init(periods), period, now);
    OneGivenBack(b, rules, mid, period, now, id, held, |periods| - 1, exceeded);
    OneMoreReturned(w.st, mid.st, after.st, SetOf(SlotsAt(b, w, Init(periods), back)), SlotAt(b, w, period, now));
    assert OnlyPeriods(w, after, periods) by {
      OnePeriodMore(w, mid, after, periods, NameAt(period, now), Dropped(ShownAt(b, mid, period, now)),
                    SlotAt(b, mid, period, now).place.life, after.st);
    }
  }

  lemma OneGivenBack(b: Boundary, rules: seq<Rule>, w: World, period: Quota.Period, now: Reading, id: CallId,
                     held: seq<Slot>, freed: nat, exceeded: bool)
    requires Synced(w) && id in w.st.calls && freed < |held| && held[freed].period == period
    requires w.st.calls[id] == Release(held, freed, exceeded)
    ensures var step := GiveBack(id, SlotAt(b, w, period, now).place);
            var after := RolledBack(b, rules, w, period, now, id);
            && Enabled(rules, w.st, step) && after.st == Apply(rules, w.st, step) && Synced(after)
            && after.st.calls == w.st.calls[id := Release(held, freed + 1, exceeded)]
            && Moved(w.st, after.st, {}, {SlotAt(b, w, period, now)})
  {
    var slot, after := SlotAt(b, w, period, now), RolledBack(b, rules, w, period, now, id);
    ShownIsCounter(b, w, period, now);
    WriteKeepsSync(b, w, period, now, Dropped(ShownAt(b, w, period, now)), after.st);
    forall other
      ensures MovedAt(w.st, after.st, {}, {slot}, other)
    {
    }
  }

  /** Where a call is after a check that it passed or did not. */
  function Checked(rules: seq<Rule>, held: seq<Slot>, passed: bool): Phase {
    if passed then AfterConsume(rules, held) else Releasing(held, 0, true)
  }

  /** A unit taken is one more of its counter; past the limit the call turns to giving back. */
  lemma OneTaken(b: Boundary, rules: seq<Rule>, w: World, now: Reading, id: CallId, held: seq<Slot>)
    requires Synced(w) && id in w.st.calls && |held| < |rules| && w.st.calls[id] == Enforcing(held)
    ensures var rule := rules[|held|];
            var slot := SlotAt(b, w, rule.period, now);
            var after := Consumed(b, rules, w, rule.period, now, id);
            && Enabled(rules, w.st, Consume(id, slot.place)) && after.st == Apply(rules, w.st, Consume(id, slot.place))
            && Synced(after) && Moved(w.st, after.st, {slot}, {})
            && after.st.calls == w.st.calls[id :=
                 Checked(rules, held + [slot], ValueOf(ShownAt(b, w, rule.period, now)) < rule.maxRequests)]
  {
    var period := rules[|held|].period;
    var after := Consumed(b, rules, w, period, now, id);
    ShownIsCounter(b, w, period, now);
    WriteKeepsSync(b, w, period, now, after.keys[NameAt(period, now)], after.st);
    forall slot
      ensures MovedAt(w.st, after.st, {SlotAt(b, w, period, now)}, {}, slot)
    {
    }
  }

  /** The rule has a unit left, as its key shows it. */
  ghost predicate HasRoom(b: Boundary, w: World, rule: Rule, at: Clock)
  {
    ValueOf(ShownAt(b, w, rule.period, at(rule.period))) < rule.maxRequests
  }

  /** So have the first n. */
  ghost predicate RoomUpTo(b: Boundary, w: World, rules: seq<Rule>, n: nat, at: Clock)
    requires n <= |rules|
  {
    n == 0 || (RoomUpTo(b, w, rules, n - 1, at) && HasRoom(b, w, rules[n - 1], at))
  }

  /** The first rule that has no room. */
  ghost predicate EndsAt(b: Boundary, w: World, rules: seq<Rule>, n: nat, at: Clock)
  {
    n < |rules| && RoomUpTo(b, w, rules, n, at) && !HasRoom(b, w, rules[n], at)
  }

  lemma {:induction false} NoRoomAtAll(b: Boundary, w: World, rules: seq<Rule>, i: nat, n: nat, at: Clock)
    requires i < n <= |rules| && !HasRoom(b, w, rules[i], at)
    ensures !RoomUpTo(b, w, rules, n, at)
  {
    if i < n - 1 {
      NoRoomAtAll(b, w, rules, i, n - 1, at);
    }
  }

  lemma {:induction false} SameRoom(b: Boundary, w: World, w': World, rules: seq<Rule>, n: nat, at: Clock)
    requires n <= |rules| && w.keys == w'.keys
    ensures RoomUpTo(b, w, rules, n, at) <==> RoomUpTo(b, w', rules, n, at)
  {
    if n > 0 {
      SameRoom(b, w, w', rules, n - 1, at);
    }
  }

  /** One turn of the loop that consumes, whether the rule has room or not. */
  lemma TakingOne(b: Boundary, rules: seq<Rule>, w: World, mid: World, periods: seq<Quota.Period>, at: Clock,
                  id: CallId)
    requires Distinct(periods) && 0 < |periods| <= |rules|
    requires Last(periods) == rules[|periods| - 1].period
    requires Synced(mid) && OnlyPeriods(w, mid, Init(periods))
    requires mid.st.calls == w.st.calls[id := Enforcing(SlotsAt(b, w, Init(periods), at))]
    requires Moved(w.st, mid.st, SetOf(SlotsAt(b, w, Init(periods), at)), {})
    ensures var after := Consumed(b, rules, mid, Last(periods), at(Last(periods)), id);
            var slots := SlotsAt(b, w, periods, at);
            && Synced(after) && OnlyPeriods(w, after, periods)
            && after.st.calls == w.st.calls[id := Checked(rules, slots, HasRoom(b, w, rules[|periods| - 1], at))]
            && Moved(w.st, after.st, SetOf(slots), {})
  {
    var period, now, slots := Last(periods), at(Last(periods)), SlotsAt(b, w, Init(periods), at);
    var after := Consumed(b, rules, mid, period, now, id);
    SlotIsNew(b, w, periods, at);
    OtherPeriodsStay(b, w, mid, Init(periods), period, now);
    OneTaken(b, rules, mid, now, id, slots);
    KeysTaken(b, rules, w, mid, periods, now, id);
    UnitsTaken(w.st, mid.st, after.st, slots, SlotAt(b, w, period, now), id,
               Checked(rules, slots + [SlotAt(b, w, period, now)], HasRoom(b, w, rules[|periods| - 1], at)));
  }

  lemma KeysTaken(b: Boundary, rules: seq<Rule>, w: World, mid: World, periods: seq<Quota.Period>, now: Reading,
                  id: CallId)
    requires periods != [] && OnlyPeriods(w, mid, Init(periods))
    ensures OnlyPeriods(w, Consumed(b, rules, mid, Last(periods), now, id), periods)
  {
    var after := Consumed(b, rules, mid, Last(periods), now, id);
    OnePeriodMore(w, mid, after, periods, NameAt(Last(periods), now), after.keys[NameAt(Last(periods), now)],
                  SlotAt(b, mid, Last(periods), now).place.life, after.st);
  }

  lemma UnitsTaken(before: State, mid: State, after: State, slots: seq<Slot>, slot: Slot, id: CallId, phase: Phase)
    requires mid.calls == before.calls[id := Enforcing(slots)] && after.calls == mid.calls[id := phase]
    requires Moved(before, mid, SetOf(slots), {}) && Moved(mid, after, {slot}, {}) && slot !in SetOf(slots)
    ensures after.calls == before.calls[id := phase] && Moved(before, after, SetOf(slots) + {slot}, {})
  {
    OneMoreTaken(before, mid, after, SetOf(slots), slot);
  }

  lemma FirstPeriods(rules: seq<Rule>, n: nat)
    requires ValidRules(rules) && 0 < n <= |rules|
    ensures var periods := Periods(rules)[..n];
            Distinct(periods) && Init(periods) == Periods(rules)[..n - 1] && Last(periods) == rules[n - 1].period
  {
  }

  /** The loop that consumes, as long as all rules have room. */
  lemma {:induction false} Taking(b: Boundary, rules: seq<Rule>, w: World, n: nat, at: Clock, id: CallId)
    requires ValidRules(rules) && Synced(w) && n <= |rules|
    requires id in w.st.calls && w.st.calls[id] == AfterConsume(rules, [])
    requires RoomUpTo(b, w, rules, n, at)
    ensures var periods := Periods(rules)[..n];
            var after, slots := TakenAll(b, rules, w, periods, at, id), SlotsAt(b, w, periods, at);
            && Synced(after) && OnlyPeriods(w, after, periods)
            && after.st.calls == w.st.calls[id := AfterConsume(rules, slots)]
            && Moved(w.st, after.st, SetOf(slots), {})
  {
    if n == 0 {
      NotMoved(w.st);
    } else {
      Taking(b, rules, w, n - 1, at, id);
      var periods := Periods(rules)[..n];
      FirstPeriods(rules, n);
      TakingOne(b, rules, w, TakenAll(b, rules, w, Init(periods), at, id), periods, at, id);
    }
  }

  /** What the loop sees of the next rule is what there was at the start. */
  lemma NextRule(b: Boundary, rules: seq<Rule>, w: World, n: nat, at: Clock, id: CallId)
    requires ValidRules(rules) && n < |rules|
    ensures var mid, period := TakenAll(b, rules, w, Periods(rules)[..n], at, id), rules[n].period;
            ShownAt(b, mid, period, at(period)) == ShownAt(b, w, period, at(period))
    ensures Init(Periods(rules)[..n + 1]) == Periods(rules)[..n]
  {
    OnlyTheirKeys(b, rules, w, Periods(rules)[..n], at, id);
    OtherPeriodsStay(b, w, TakenAll(b, rules, w, Periods(rules)[..n], at, id), Periods(rules)[..n],
                     rules[n].period, at(rules[n].period));
  }

  /** After so many turns of the loop: as many units are taken, and all these rules had room. */
  ghost predicate Turn(b: Boundary, rules: seq<Rule>, w: World, now: World, n: nat, at: Clock, id: CallId) {
    && n <= |rules| && now == TakenAll(b, rules, w, Periods(rules)[..n], at, id)
    && RoomUpTo(b, w, rules, n, at)
  }

  lemma FirstTurn(b: Boundary, rules: seq<Rule>, w: World, at: Clock, id: CallId)
    ensures Turn(b, rules, w, w, 0, at, id) && Periods(rules)[..0] == []
  {
  }

  lemma PeriodsGrow(rules: seq<Rule>, n: nat)
    requires n < |rules|
    ensures Periods(rules)[..n] + [rules[n].period] == Periods(rules)[..n + 1] <= Periods(rules)
    ensures |Periods(rules)[..n + 1]| == n + 1
  {
  }

  lemma LastTurn(b: Boundary, rules: seq<Rule>, w: World, now: World, at: Clock, id: CallId)
    requires Turn(b, rules, w, now, |rules|, at, id)
    ensures RoomUpTo(b, w, rules, |rules|, at)
    ensures Periods(rules)[..|rules|] == Periods(rules) && now == TakenAll(b, rules, w, Periods(rules), at, id)
  {
    assert Periods(rules)[..|rules|] == Periods(rules);
  }

  /** The rule that has no room ends the loop, and what was taken is given back. */
  lemma Exceeding(b: Boundary, rules: seq<Rule>, w: World, periods: seq<Quota.Period>, at: Clock, back: Clock,
                  id: CallId)
    requires ValidRules(rules) && Synced(w) && periods != [] && periods <= Periods(rules)
    requires id in w.st.calls && w.st.calls[id] == AfterConsume(rules, [])
    requires EndsAt(b, w, rules, |periods| - 1, at)
    ensures var after := GivenBack(b, rules, TakenAll(b, rules, w, periods, at, id), periods, back, id);
            Synced(after) && GaveBack(b, rules, w, after, periods, at, back, id)
  {
    assert Init(periods) == Periods(rules)[..|periods| - 1];
    Taking(b, rules, w, |periods| - 1, at, id);
    TakingOne(b, rules, w, TakenAll(b, rules, w, Init(periods), at, id), periods, at, id);
    AllGivenBack(b, rules, w.st, SlotsAt(b, w, periods, at), TakenAll(b, rules, w, periods, at, id), periods, back,
                 id, true);
  }

  lemma AllGivenBack(b: Boundary, rules: seq<Rule>, before: State, taken: seq<Slot>, mid: World,
                     periods: seq<Quota.Period>,
                     back: Clock, id: CallId, exceeded: bool)
    requires Distinct(periods) && Synced(mid) && |taken| == |periods|
    requires forall i | 0 <= i < |taken| :: taken[i].period == periods[i]
    requires mid.st.calls == before.calls[id := Release(taken, 0, exceeded)]
    requires Moved(before, mid.st, SetOf(taken), {})
    ensures var after := GivenBack(b, rules, mid, periods, back, id);
            && Synced(after) && after.st.calls == before.calls[id := Failed]
            && Moved(before, after.st, SetOf(taken), SetOf(SlotsAt(b, mid, periods, back)))
  {
    var after := GivenBack(b, rules, mid, periods, back, id);
    GivingBack(b, rules, mid, periods, back, id, taken, exceeded);
    TakenThenReturned(before, mid.st, after.st, SetOf(taken), SetOf(SlotsAt(b, mid, periods, back)));
    assert mid.st.calls[id := Failed] == before.calls[id := Failed];
  }

  lemma {:induction false} SameKeysSameSlots(b: Boundary, w: World, w': World, periods: seq<Quota.Period>, at: Clock)
    requires w.keys == w'.keys && w.lives == w'.lives
    ensures SlotsAt(b, w, periods, at) == SlotsAt(b, w', periods, at)
  {
    if periods != [] {
      SameKeysSameSlots(b, w, w', Init(periods), at);
    }
  }

  /** Steps that touch no counter. */
  lemma SyncedStays(w: World, st: State)
    requires Synced(w) && st.counters == w.st.counters
    ensures Synced(w.(st := st))
  {
    forall name
      ensures SyncedAt(w.(st := st), name)
    {
      assert SyncedAt(w, name);
    }
  }

  function Arrival(rules: seq<Rule>, w: World, id: CallId): World { w.(st := Advance(rules, w.st, Arrive(id))) }

  function Answer(rules: seq<Rule>, w: World, id: CallId, ok: bool): World {
    w.(st := Advance(rules, w.st, Upstream(id, ok)))
  }

  /** The call is past its checks, and has taken one unit where each key led. */
  ghost predicate Took(b: Boundary, rules: seq<Rule>, w: World, after: World, at: Clock, id: CallId)
  {
    var slots := SlotsAt(b, w, Periods(rules), at);
    after.st.calls == w.st.calls[id := AfterConsume(rules, slots)] && Moved(w.st, after.st, SetOf(slots), {})
  }

  /** The call has failed. One unit of each of these periods was taken, and one given back where its key
      then led. */
  ghost predicate GaveBack(b: Boundary, rules: seq<Rule>, w: World, after: World, periods: seq<Quota.Period>,
                           at: Clock, back: Clock,
                           id: CallId)
  {
    && after.st.calls == w.st.calls[id := Failed]
    && Moved(w.st, after.st, SetOf(SlotsAt(b, w, periods, at)),
             SetOf(SlotsAt(b, TakenAll(b, rules, w, periods, at, id), periods, back)))
  }

  lemma AllPassed(b: Boundary, rules: seq<Rule>, w: World, at: Clock, id: CallId)
    requires ValidRules(rules) && Synced(w)
    requires id in w.st.calls && w.st.calls[id] == AfterConsume(rules, [])
    requires RoomUpTo(b, w, rules, |rules|, at)
    ensures var after := TakenAll(b, rules, w, Periods(rules), at, id);
            Synced(after) && Took(b, rules, w, after, at, id)
  {
    assert Periods(rules)[..|rules|] == Periods(rules);
    Taking(b, rules, w, |rules|, at, id);
  }

  /** Arriving changes no key. */
  lemma ArrivalIsNew(b: Boundary, rules: seq<Rule>, w: World, id: CallId, at: Clock)
    requires Synced(w) && id !in w.st.calls
    ensures var arrived := Arrival(rules, w, id);
            && Synced(arrived) && arrived.st.calls == w.st.calls[id := AfterConsume(rules, [])]
            && (RoomUpTo(b, arrived, rules, |rules|, at) <==> RoomUpTo(b, w, rules, |rules|, at))
  {
    SameRoom(b, Arrival(rules, w, id), w, rules, |rules|, at);
    SyncedStays(w, Arrival(rules, w, id).st);
  }

  /** The call holds one unit of every quota, and that is all it changed. */
  ghost predicate WasServed(b: Boundary, rules: seq<Rule>, w: World, after: World, at: Clock, id: CallId) {
    var slots := SlotsAt(b, w, Periods(rules), at);
    after.st.calls == w.st.calls[id := Served(slots)] && Moved(w.st, after.st, SetOf(slots), {})
  }

  /** The call took units of some first quotas, and gave back one for each. */
  ghost predicate HasFailed(b: Boundary, rules: seq<Rule>, w: World, after: World, at: Clock, back: Clock, id: CallId) {
    exists periods ::
      periods <= Periods(rules) && GaveBack(b, rules, Arrival(rules, w, id), after, periods, at, back, id)
  }

  /** A call that the upstream serves keeps its units. */
  lemma UpstreamServes(b: Boundary, rules: seq<Rule>, w: World, at: Clock, id: CallId)
    requires ValidRules(rules) && Synced(w) && id !in w.st.calls && RoomUpTo(b, w, rules, |rules|, at)
    ensures var after := Answer(rules, TakenAll(b, rules, Arrival(rules, w, id), Periods(rules), at, id), id, true);
            Synced(after) && WasServed(b, rules, w, after, at, id)
  {
    ArrivalIsNew(b, rules, w, id, at);
    AllPassed(b, rules, Arrival(rules, w, id), at, id);
    ServedAfterPassing(b, rules, w, TakenAll(b, rules, Arrival(rules, w, id), Periods(rules), at, id), at, id);
  }

  lemma ServedAfterPassing(b: Boundary, rules: seq<Rule>, w: World, passed: World, at: Clock, id: CallId)
    requires ValidRules(rules) && id !in w.st.calls && Synced(passed)
    requires Took(b, rules, Arrival(rules, w, id), passed, at, id)
    ensures var served := Answer(rules, passed, id, true);
            Synced(served) && WasServed(b, rules, w, served, at, id)
  {
    var arrived, served := Arrival(rules, w, id), Answer(rules, passed, id, true);
    var slots := SlotsAt(b, w, Periods(rules), at);
    SameKeysSameSlots(b, arrived, w, Periods(rules), at);
    SyncedStays(passed, served.st);
    SameCounters(arrived.st, passed.st, served.st, SetOf(slots), {});
    SameStart(w.st, arrived.st, served.st, SetOf(slots), {});
    assert passed.st.calls == arrived.st.calls[id := Forwarding(slots)];
    assert served.st.calls == w.st.calls[id := Served(slots)];
  }

  lemma FailsByQuota(b: Boundary, rules: seq<Rule>, w: World, consumed: seq<Quota.Period>, at: Clock, back: Clock,
                     id: CallId)
    requires ValidRules(rules) && Synced(w) && id !in w.st.calls && consumed != [] && consumed <= Periods(rules)
    requires EndsAt(b, Arrival(rules, w, id), rules, |consumed| - 1, at)
    ensures var after := GivenBack(b, rules, TakenAll(b, rules, Arrival(rules, w, id), consumed, at, id), consumed,
                                   back, id);
            Synced(after) && HasFailed(b, rules, w, after, at, back, id)
  {
    ArrivalIsNew(b, rules, w, id, at);
    Exceeding(b, rules, Arrival(rules, w, id), consumed, at, back, id);
  }

  lemma FailsByUpstream(b: Boundary, rules: seq<Rule>, w: World, at: Clock, back: Clock, id: CallId)
    requires ValidRules(rules) && Synced(w) && id !in w.st.calls && RoomUpTo(b, w, rules, |rules|, at)
    ensures var periods := Periods(rules);
            var failed := Answer(rules, TakenAll(b, rules, Arrival(rules, w, id), periods, at, id), id, false);
            var after := GivenBack(b, rules, failed, periods, back, id);
            Synced(after) && HasFailed(b, rules, w, after, at, back, id)
  {
    ArrivalIsNew(b, rules, w, id, at);
    UpstreamFails(b, rules, Arrival(rules, w, id), at, back, id);
  }

  lemma SameStart(before: State, before': State, st: State, plus: set<Slot>, minus: set<Slot>)
    requires Moved(before', st, plus, minus) && before'.counters == before.counters
    ensures Moved(before, st, plus, minus)
  {
    forall slot
      ensures MovedAt(before, st, plus, minus, slot)
    {
      assert MovedAt(before', st, plus, minus, slot);
    }
  }

  /** A call that passed all checks and that the upstream fails gives everything back. */
  lemma UpstreamFails(b: Boundary, rules: seq<Rule>, w: World, at: Clock, back: Clock, id: CallId)
    requires ValidRules(rules) && Synced(w)
    requires id in w.st.calls && w.st.calls[id] == AfterConsume(rules, [])
    requires RoomUpTo(b, w, rules, |rules|, at)
    ensures var periods := Periods(rules);
            var failed := Answer(rules, TakenAll(b, rules, w, periods, at, id), id, false);
            var after := GivenBack(b, rules, failed, periods, back, id);
            Synced(after) && GaveBack(b, rules, w, after, periods, at, back, id)
  {
    var periods := Periods(rules);
    AllPassed(b, rules, w, at, id);
    var mid := TakenAll(b, rules, w, periods, at, id);
    var failed := Answer(rules, mid, id, false);
    SyncedStays(mid, failed.st);
    SameCounters(w.st, mid.st, failed.st, SetOf(SlotsAt(b, w, periods, at)), {});
    AllGivenBack(b, rules, w.st, SlotsAt(b, w, periods, at), failed, periods, back, id, false);
    SameKeysSameSlots(b, failed, mid, periods, back);
  }

  lemma SameCounters(before: State, st: State, st': State, plus: set<Slot>, minus: set<Slot>)
    requires Moved(before, st, plus, minus) && st'.counters == st.counters
    ensures Moved(before, st', plus, minus)
  {
    forall slot
      ensures MovedAt(before, st', plus, minus, slot)
    {
      assert MovedAt(before, st, plus, minus, slot);
    }
  }

  // ---- When a give-back finds its counter -------------------------------------------------------

  /** The key that a consume at `at` finds, or creates, is the one that a give-back at `back` finds: it
      falls into the same bucket, and the key has not expired since. */
  ghost predicate StillThere(b: Boundary, w: World, period: Quota.Period, at: Reading, back: Reading)
  {
    && back.bucket == at.bucket
    && Shown(b, Some(Bumped(ShownAt(b, w, period, at), at.instant, at.ttl)), back.instant).Some?
  }

  lemma FoundIffStillThere(b: Boundary, rules: seq<Rule>, w: World, period: Quota.Period, at: Reading, back: Reading,
                           id: CallId)
    ensures SlotAt(b, Consumed(b, rules, w, period, at, id), period, back) == SlotAt(b, w, period, at)
       <==> StillThere(b, w, period, at, back)
  {
  }

  lemma {:induction false} OnlyTheirKeys(b: Boundary, rules: seq<Rule>, w: World, periods: seq<Quota.Period>,
                                         at: Clock, id: CallId)
    ensures OnlyPeriods(w, TakenAll(b, rules, w, periods, at, id), periods)
  {
    if periods == [] {
      forall name
        ensures SameKey(w, w, name)
      {
      }
    } else {
      OnlyTheirKeys(b, rules, w, Init(periods), at, id);
      KeysTaken(b, rules, w, TakenAll(b, rules, w, Init(periods), at, id), periods, at(Last(periods)), id);
    }
  }

  /** When a call that no other comes between gives back what it took, each unit goes to the counter it came
      from if and only if it falls into the same bucket and the key has not expired since. */
  lemma {:induction false} OwnGiveBackFindsIt(b: Boundary, rules: seq<Rule>, w: World, periods: seq<Quota.Period>,
                                              at: Clock, back: Clock, id: CallId, k: nat)
    requires Distinct(periods) && k < |periods|
    ensures var taken, found := SlotsAt(b, w, periods, at),
            SlotsAt(b, TakenAll(b, rules, w, periods, at, id), periods, back);
            found[k] == taken[k] <==> StillThere(b, w, periods[k], at(periods[k]), back(periods[k]))
  {
    var mid := TakenAll(b, rules, w, Init(periods), at, id);
    OnlyTheirKeys(b, rules, w, Init(periods), at, id);
    SlotIsNew(b, w, periods, at);
    if k == |periods| - 1 {
      FoundIffStillThere(b, rules, mid, periods[k], at(periods[k]), back(periods[k]), id);
      OtherPeriodsStay(b, w, mid, Init(periods), periods[k], at(periods[k]));
    } else {
      OwnGiveBackFindsIt(b, rules, w, Init(periods), at, back, id, k);
      OtherKeyStays(b, rules, mid, Last(periods), at(Last(periods)), id, periods[k], back(periods[k]));
    }
  }

  lemma OtherKeyStays(b: Boundary, rules: seq<Rule>, w: World, period: Quota.Period, at: Reading, id: CallId,
                      other: Quota.Period, now: Reading)
    requires other != period
    ensures SlotAt(b, Consumed(b, rules, w, period, at, id), other, now) == SlotAt(b, w, other, now)
  {
  }

  lemma SlotIsFound(periods: seq<Quota.Period>, taken: seq<Slot>, found: seq<Slot>, k: nat)
    requires Distinct(periods) && |taken| == |found| == |periods| && k < |periods|
    requires forall i | 0 <= i < |periods| :: taken[i].period == periods[i] == found[i].period
    requires SetOf(taken) == SetOf(found)
    ensures taken[k] == found[k]
  {
    assert taken[k] in SetOf(taken);
    var i :| 0 <= i < |found| && found[i] == taken[k];
  }

  lemma EvenIffSame(before: State, after: State, plus: set<Slot>, minus: set<Slot>)
    requires Moved(before, after, plus, minus)
    ensures (forall slot :: Get(after.counters, slot) == Get(before.counters, slot)) <==> plus == minus
  {
    forall slot
      ensures Get(after.counters, slot) == Get(before.counters, slot) <==> (slot in plus <==> slot in minus)
    {
      assert MovedAt(before, after, plus, minus, slot);
    }
  }

  /** Nothing of what a failed call did is left if and only if all its keys were still there. */
  lemma NothingLeft(b: Boundary, rules: seq<Rule>, w: World, after: World, periods: seq<Quota.Period>, at: Clock,
                    back: Clock, id: CallId)
    requires Distinct(periods) && GaveBack(b, rules, w, after, periods, at, back, id)
    ensures (forall slot :: Get(after.st.counters, slot) == Get(w.st.counters, slot))
       <==> forall k | 0 <= k < |periods| :: StillThere(b, w, periods[k], at(periods[k]), back(periods[k]))
  {
    var taken := SlotsAt(b, w, periods, at);
    var found := SlotsAt(b, TakenAll(b, rules, w, periods, at, id), periods, back);
    EvenIffSame(w.st, after.st, SetOf(taken), SetOf(found));
    forall k | 0 <= k < |periods|
      ensures found[k] == taken[k] <==> StillThere(b, w, periods[k], at(periods[k]), back(periods[k]))
    {
      OwnGiveBackFindsIt(b, rules, w, periods, at, back, id, k);
    }
    assert (forall k | 0 <= k < |periods| :: found[k] == taken[k]) ==> found == taken;
    if SetOf(taken) == SetOf(found) {
      forall k | 0 <= k < |periods|
        ensures found[k] == taken[k]
      {
        SlotIsFound(periods, taken, found, k);
      }
    }
  }

  /** A failed call of the gateway leaves every counter as it was if and only if each key that it took a unit
      of was still there when it gave back. */
  lemma FailureLeavesNothing(b: Boundary, rules: seq<Rule>, w: World, after: World, at: Clock, back: Clock, id: CallId)
    requires ValidRules(rules) && HasFailed(b, rules, w, after, at, back, id)
    ensures exists periods ::
              && periods <= Periods(rules) && GaveBack(b, rules, Arrival(rules, w, id), after, periods, at, back, id)
              && ((forall slot :: Get(after.st.counters, slot) == Get(w.st.counters, slot))
                  <==> forall k | 0 <= k < |periods| :: StillThere(b, w, periods[k], at(periods[k]), back(periods[k])))
  {
    var arrived := Arrival(rules, w, id);
    var periods :| periods <= Periods(rules) && GaveBack(b, rules, arrived, after, periods, at, back, id);
    NothingLeft(b, rules, arrived, after, periods, at, back, id);
    forall k | 0 <= k < |periods|
      ensures StillThere(b, arrived, periods[k], at(periods[k]), back(periods[k]))
         <==> StillThere(b, w, periods[k], at(periods[k]), back(periods[k]))
    {
    }
  }

  // ---- The code --------------------------------------------------------------------------------

  /** `QuotaEnforcer` on the keys of one API key, and the quota part of one call of the gateway. Every
      operation on a key is one more step of the run of all calls. The loops here are about a call that
      no other call comes between; what every interleaving keeps is said about the runs. */
  class Enforcer {
    const rules: seq<Rule>
    const b: Boundary
    var keys: map<Name, Key>
    ghost var lives: map<Name, nat>
    ghost var st: State

    ghost function Value(): World reads this { World(keys, lives, st) }

    ghost predicate Consistent() reads this { ValidRules(rules) && Synced(Value()) }

    constructor (rules: seq<Rule>, b: Boundary)
      requires ValidRules(rules)
      ensures Consistent() && this.rules == rules && this.b == b && Value() == NEW
    {
      this.rules, this.b, keys, lives, st := rules, b, map[], map[], START;
      new;
      assert forall name :: SyncedAt(Value(), name);
    }

    /** INCR on the key of the bucket, and EXPIRE if that created it. */
    method Consume(period: Quota.Period, limit: nat, now: Reading, ghost id: CallId) returns (check: QuotaCheck)
      modifies this
      ensures Value() == Consumed(b, rules, old(Value()), period, now, id)
      ensures check == QuotaCheck(period, limit, ValueOf(ShownAt(b, old(Value()), period, now)) + 1)
    {
      var name := NameAt(period, now);
      var key := Shown(b, if name in keys then Some(keys[name]) else None, now.instant);
      var used, expiry := 1, None;
      if key.Some? {
        used, expiry := key.value.value + 1, key.value.expiry;
      }
      if used == 1 {
        expiry := Some(now.instant + now.ttl);
      }
      ghost var after := Consumed(b, rules, Value(), period, now, id);
      keys := keys[name := Key(used, expiry)];
      lives, st := after.lives, after.st;
      check := QuotaCheck(period, limit, used);
    }

    /** DECR on the key of the bucket that the clock reads now. */
    method Rollback(period: Quota.Period, now: Reading, ghost id: CallId)
      modifies this
      ensures Value() == RolledBack(b, rules, old(Value()), period, now, id)
    {
      var name := NameAt(period, now);
      ghost var after := RolledBack(b, rules, Value(), period, now, id);
      var key := Shown(b, if name in keys then Some(keys[name]) else None, now.instant);
      keys := keys[name := Dropped(key)];
      lives, st := after.lives, after.st;
    }

    /** Gives back one unit of every period consumed, wherever its key leads now. */
    method RollbackQuota(consumed: seq<Quota.Period>, back: Clock, ghost id: CallId)
      modifies this
      ensures Value() == GivenBack(b, rules, old(Value()), consumed, back, id)
    {
      for i := 0 to |consumed|
        invariant Value() == GivenBack(b, rules, old(Value()), consumed[..i], back, id)
      {
        assert Init(consumed[..i + 1]) == consumed[..i];
        Rollback(consumed[i], back(consumed[i]), id);
      }
      assert consumed[..|consumed|] == consumed;
    }

    /** Consumes one unit of every quota in order, or, at the first one that is exceeded, gives back
        everything and fails. It fails exactly when some quota has no unit left. What either leaves
        behind is in `AllPassed` and `Exceeding`. */
    method EnforceQuota(at: Clock, back: Clock, ghost id: CallId) returns (consumed: seq<Quota.Period>, exceeded: bool)
      requires ValidRules(rules)
      modifies this
      ensures consumed <= Periods(rules)
      ensures exceeded <==> !RoomUpTo(b, old(Value()), rules, |rules|, at)
      ensures !exceeded ==> consumed == Periods(rules) && Value() == TakenAll(b, rules, old(Value()), consumed, at, id)
      ensures exceeded ==>
                && consumed != [] && EndsAt(b, old(Value()), rules, |consumed| - 1, at)
                && Value() == GivenBack(b, rules, TakenAll(b, rules, old(Value()), consumed, at, id), consumed, back,
                                        id)
    {
      ghost var w := Value();
      consumed := [];
      FirstTurn(b, rules, w, at, id);
      for i := 0 to |rules|
        invariant consumed == Periods(rules)[..i] && Turn(b, rules, w, Value(), i, at, id)
      {
        var passed := ConsumeRule(i, at, id, w);
        PeriodsGrow(rules, i);
        consumed := consumed + [rules[i].period];
        if !passed {
          RollbackQuota(consumed, back, id);
          return consumed, true;
        }
      }
      LastTurn(b, rules, w, Value(), at, id);
      exceeded := false;
    }

    /** One turn of that loop. */
    method ConsumeRule(i: nat, at: Clock, ghost id: CallId, ghost w: World) returns (passed: bool)
      requires ValidRules(rules) && i < |rules| && Turn(b, rules, w, Value(), i, at, id)
      modifies this
      ensures passed ==> Turn(b, rules, w, Value(), i + 1, at, id)
      ensures !passed ==>
                && Value() == TakenAll(b, rules, w, Periods(rules)[..i + 1], at, id)
                && EndsAt(b, w, rules, i, at) && !RoomUpTo(b, w, rules, |rules|, at)
    {
      var rule := rules[i];
      NextRule(b, rules, w, i, at, id);
      var check := Consume(rule.period, rule.maxRequests, at(rule.period), id);
      passed := check.used <= check.limit;
      if !passed {
        NoRoomAtAll(b, w, rules, i, |rules|, at);
      }
    }

    /** The quota part of `handle`: either the call is served, with one unit of every quota and within
        its limit; or it has failed, and given back as many units of each period as it took. */
    method Handle(at: Clock, back: Clock, upstreamOk: bool, ghost id: CallId) returns (served: bool)
      requires Consistent() && id !in st.calls
      modifies this
      ensures Consistent()
      ensures served <==> upstreamOk && RoomUpTo(b, old(Value()), rules, |rules|, at)
      ensures served ==> WasServed(b, rules, old(Value()), Value(), at, id)
      ensures !served ==> HasFailed(b, rules, old(Value()), Value(), at, back, id)
    {
      ghost var w := Value();
      ArrivalIsNew(b, rules, w, id, at);
      st := Arrival(rules, w, id).st;
      var consumed, exceeded := EnforceQuota(at, back, id);
      if exceeded {
        FailsByQuota(b, rules, w, consumed, at, back, id);
        return false;
      }
      st := Answer(rules, Value(), id, upstreamOk).st;
      if !upstreamOk {
        RollbackQuota(consumed, back, id);
        FailsByUpstream(b, rules, w, at, back, id);
        return false;
      }
      UpstreamServes(b, rules, w, at, id);
      served := true;
    }
  }
}
