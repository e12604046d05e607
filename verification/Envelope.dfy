/** Why one number is enough for a token bucket. An envelope bounds the admissions of every time
    span by a capacity plus what is earned during the span. A level that is refilled and capped
    turns out to be the tightest of all those bounds, so "at least one token" is the same as "one
    more admission keeps the envelope". Nothing here depends on how fast tokens are earned. */
module Envelope {
  import opened Numbers
  import opened Seqs

  /** `earned(t)` is the amount earned up to time t. */
  datatype Curve = Curve(cap: real, earned: real -> real)

  ghost predicate Valid(c: Curve) {
    c.cap >= 1.0 && forall x, y | x <= y :: c.earned(x) <= c.earned(y)
  }

  ghost predicate Sorted(times: seq<real>) {
    forall i, j | 0 <= i < j < |times| :: times[i] <= times[j]
  }

  lemma SortedPrefix(xs: seq<real>, x: real)
    requires Sorted(xs + [x])
    ensures Sorted(xs) && forall i | 0 <= i < |xs| :: xs[i] <= x
  {
    var ys := xs + [x];
    assert forall i | 0 <= i < |xs| :: xs[i] == ys[i] <= ys[|xs|];
    assert forall i, j | 0 <= i < j < |xs| :: xs[i] == ys[i] <= ys[j] == xs[j];
  }

  /** The calls let through, given for each call whether it was. */
  function Picked(calls: seq<real>, picks: seq<bool>): (adm: seq<real>)
    requires |calls| == |picks|
  {
    if calls == [] then [] else
      Picked(Init(calls), Init(picks)) + if Last(picks) then [Last(calls)] else []
  }

  /** Admissions in the closed span [s, t]. */
  function CountIn(adm: seq<real>, s: real, t: real): nat {
    if adm == [] then 0 else
      CountIn(Init(adm), s, t) + if s <= Last(adm) <= t then 1 else 0
  }

  ghost predicate SpanKept(c: Curve, adm: seq<real>, s: real, t: real) {
    CountIn(adm, s, t) as real <= c.cap + c.earned(t) - c.earned(s)
  }

  /** The bound on every span. */
  ghost predicate Respects(c: Curve, adm: seq<real>) {
    forall s, t | s <= t :: SpanKept(c, adm, s, t)
  }

  /** The bound on the spans that end now. */
  ghost predicate RespectsNow(c: Curve, adm: seq<real>, now: real) {
    forall s | s <= now :: SpanKept(c, adm, s, now)
  }

  /** Tokens left if exactly the calls in `picks` take one; negative for a selection that overdraws. */
  function Level(c: Curve, calls: seq<real>, picks: seq<bool>): real
    requires |calls| == |picks|
    decreases |calls|, 0
  {
    if calls == [] then c.cap else
      LevelBefore(c, Init(calls), Init(picks), Last(calls)) - if Last(picks) then 1.0 else 0.0
  }

  function LevelBefore(c: Curve, calls: seq<real>, picks: seq<bool>, now: real): real
    requires |calls| == |picks|
    decreases |calls|, 1
  {
    if calls == [] then c.cap
    else MinReal(c.cap, Level(c, calls, picks) + c.earned(now) - c.earned(Last(calls)))
  }

  /** The bucket: let a call through whenever a token is left. */
  function Greedy(c: Curve, calls: seq<real>): (picks: seq<bool>)
    ensures |picks| == |calls|
  {
    if calls == [] then [] else
      var before := Greedy(c, Init(calls));
      before + [LevelBefore(c, Init(calls), before, Last(calls)) >= 1.0]
  }

  function Admitted(c: Curve, calls: seq<real>): seq<real> { Picked(calls, Greedy(c, calls)) }

  // ---- The level is the tightest bound ---------------------------------------------------------

  /** What the envelope leaves for the span from the i-th admission to now. */
  function Room(c: Curve, adm: seq<real>, i: nat, now: real): real
    requires i < |adm|
  {
    c.cap + c.earned(now) - c.earned(adm[i]) - (|adm| - i) as real
  }

  ghost predicate Least(c: Curve, x: real, adm: seq<real>, now: real) {
    && x <= c.cap
    && (forall i | 0 <= i < |adm| :: x <= Room(c, adm, i, now))
    && (x == c.cap || exists i :: 0 <= i < |adm| && x == Room(c, adm, i, now))
  }

  lemma LeastRefilled(c: Curve, x: real, adm: seq<real>, before: real, now: real)
    requires Valid(c) && Least(c, x, adm, before) && before <= now
    ensures Least(c, MinReal(c.cap, x + c.earned(now) - c.earned(before)), adm, now)
  {
    var gain := c.earned(now) - c.earned(before);
    assert forall i | 0 <= i < |adm| :: Room(c, adm, i, now) == Room(c, adm, i, before) + gain;
    if x != c.cap && x + gain < c.cap {
      var i :| 0 <= i < |adm| && x == Room(c, adm, i, before);
      assert x + gain == Room(c, adm, i, now);
    }
  }

  lemma LeastTaken(c: Curve, x: real, adm: seq<real>, now: real)
    requires Least(c, x, adm, now)
    ensures Least(c, x - 1.0, adm + [now], now)
  {
    var more := adm + [now];
    assert forall i | 0 <= i < |adm| :: Room(c, more, i, now) == Room(c, adm, i, now) - 1.0;
    assert Room(c, more, |adm|, now) == c.cap - 1.0;
    if x != c.cap {
      var i :| 0 <= i < |adm| && x == Room(c, adm, i, now);
      assert x - 1.0 == Room(c, more, i, now);
    }
  }

  lemma {:induction false} LevelIsLeast(c: Curve, calls: seq<real>, picks: seq<bool>)
    requires Valid(c) && |calls| == |picks| && calls != [] && Sorted(calls)
    ensures Least(c, Level(c, calls, picks), Picked(calls, picks), Last(calls))
    decreases |calls|, 0
  {
    var before, now := Init(calls), Last(calls);
    assert before + [now] == calls;
    LevelBeforeIsLeast(c, before, Init(picks), now);
    if Last(picks) {
      LeastTaken(c, LevelBefore(c, before, Init(picks), now), Picked(before, Init(picks)), now);
    } else {
      assert Picked(calls, picks) == Picked(before, Init(picks));
    }
  }

  lemma {:induction false} LevelBeforeIsLeast(c: Curve, calls: seq<real>, picks: seq<bool>, now: real)
    requires Valid(c) && |calls| == |picks| && Sorted(calls + [now])
    ensures Least(c, LevelBefore(c, calls, picks, now), Picked(calls, picks), now)
    decreases |calls|, 1
  {
    if calls != [] {
      SortedPrefix(calls, now);
      LevelIsLeast(c, calls, picks);
      LeastRefilled(c, Level(c, calls, picks), Picked(calls, picks), Last(calls), now);
    }
  }

  // ---- Counting in spans -----------------------------------------------------------------------

  lemma {:induction false} CountAtLeast(adm: seq<real>, i: nat, t: real)
    requires Sorted(adm) && i < |adm| && Last(adm) <= t
    ensures CountIn(adm, adm[i], t) >= |adm| - i
  {
    if i < |adm| - 1 {
      CountAtLeast(Init(adm), i, t);
    }
  }

  lemma {:induction false} CountAtMost(adm: seq<real>, s: real, t: real)
    requires Sorted(adm)
    ensures CountIn(adm, s, t) == 0
         || exists i :: 0 <= i < |adm| && s <= adm[i] && CountIn(adm, s, t) <= |adm| - i
  {
    if adm != [] {
      CountAtMost(Init(adm), s, t);
      if CountIn(Init(adm), s, t) != 0 {
        var i :| 0 <= i < |Init(adm)| && s <= Init(adm)[i] && CountIn(Init(adm), s, t) <= |Init(adm)| - i;
        assert s <= adm[i] && CountIn(adm, s, t) <= |adm| - i;
      } else if CountIn(adm, s, t) > 0 {
        assert s <= adm[|adm| - 1] && CountIn(adm, s, t) <= |adm| - (|adm| - 1);
      }
    }
  }

  lemma {:induction false} CountUntilNow(adm: seq<real>, s: real, now: real, t: real)
    requires now <= t && forall i | 0 <= i < |adm| :: adm[i] <= now
    ensures CountIn(adm, s, t) == CountIn(adm, s, now)
  {
    if adm != [] {
      CountUntilNow(Init(adm), s, now, t);
    }
  }

  lemma {:induction false} PickedSorted(calls: seq<real>, picks: seq<bool>, now: real)
    requires |calls| == |picks| && Sorted(calls + [now])
    ensures Sorted(Picked(calls, picks) + [now])
  {
    SortedPrefix(calls, now);
    if calls != [] {
      assert Init(calls) + [Last(calls)] == calls;
      PickedSorted(Init(calls), Init(picks), Last(calls));
      SortedPrefix(Picked(Init(calls), Init(picks)), Last(calls));
    }
  }

  // ---- The admission law -----------------------------------------------------------------------

  lemma SpanHasRoom(c: Curve, level: real, adm: seq<real>, s: real, now: real)
    requires Valid(c) && Sorted(adm) && s <= now && Least(c, level, adm, now)
    ensures CountIn(adm, s, now) as real <= c.cap + c.earned(now) - c.earned(s) - level
  {
    CountAtMost(adm, s, now);
    if CountIn(adm, s, now) > 0 {
      var i :| 0 <= i < |adm| && s <= adm[i] && CountIn(adm, s, now) <= |adm| - i;
      assert level <= Room(c, adm, i, now);
      assert c.earned(s) <= c.earned(adm[i]);
    }
  }

  /** One more admission keeps the spans ending now exactly when a token is left. */
  lemma TokenMeansRoom(c: Curve, level: real, adm: seq<real>, now: real)
    requires Valid(c) && Sorted(adm + [now]) && Least(c, level, adm, now)
    ensures level >= 1.0 <==> RespectsNow(c, adm + [now], now)
  {
    var more := adm + [now];
    assert Init(more) == adm;
    SortedPrefix(adm, now);
    if level >= 1.0 {
      forall s | s <= now
        ensures SpanKept(c, more, s, now)
      {
        SpanHasRoom(c, level, adm, s, now);
      }
    } else {
      var i :| 0 <= i < |adm| && level == Room(c, adm, i, now);
      CountAtLeast(more, i, now);
      assert more[i] == adm[i] && !SpanKept(c, more, adm[i], now);
    }
  }

  lemma GreedyPrefix(c: Curve, calls: seq<real>, now: real)
    ensures Init(Greedy(c, calls + [now])) == Greedy(c, calls)
    ensures Last(Greedy(c, calls + [now])) <==> LevelBefore(c, calls, Greedy(c, calls), now) >= 1.0
    ensures Admitted(c, calls + [now])
         == Admitted(c, calls) + if Last(Greedy(c, calls + [now])) then [now] else []
  {
    assert Init(calls + [now]) == calls;
  }

  /** A call is let through if and only if that keeps the envelope on every span ending now. */
  lemma AdmittedIffRoom(c: Curve, calls: seq<real>, now: real)
    requires Valid(c) && Sorted(calls + [now])
    ensures Last(Greedy(c, calls + [now])) <==> RespectsNow(c, Admitted(c, calls) + [now], now)
  {
    var picks := Greedy(c, calls);
    GreedyPrefix(c, calls, now);
    LevelBeforeIsLeast(c, calls, picks, now);
    PickedSorted(calls, picks, now);
    TokenMeansRoom(c, LevelBefore(c, calls, picks, now), Picked(calls, picks), now);
  }

  /** A bound kept for the spans ending at each admission is kept for all spans. */
  lemma RespectsExtended(c: Curve, adm: seq<real>, now: real)
    requires Valid(c) && Sorted(adm + [now]) && Respects(c, adm) && RespectsNow(c, adm + [now], now)
    ensures Respects(c, adm + [now])
  {
    var more := adm + [now];
    assert Init(more) == adm;
    SortedPrefix(adm, now);
    forall s, t | s <= t
      ensures SpanKept(c, more, s, t)
    {
      if s <= now <= t {
        CountUntilNow(more, s, now, t);
        assert SpanKept(c, more, s, now);
      } else {
        assert SpanKept(c, adm, s, t);
      }
    }
  }

  lemma {:induction false} AdmittedRespects(c: Curve, calls: seq<real>)
    requires Valid(c) && Sorted(calls)
    ensures Respects(c, Admitted(c, calls))
  {
    if calls != [] {
      var before, now := Init(calls), Last(calls);
      assert before + [now] == calls;
      SortedPrefix(before, now);
      AdmittedRespects(c, before);
      GreedyPrefix(c, before, now);
      AdmittedIffRoom(c, before, now);
      PickedSorted(before, Greedy(c, before), now);
      if Last(Greedy(c, calls)) {
        RespectsExtended(c, Admitted(c, before), now);
      } else {
        assert Admitted(c, calls) == Admitted(c, before);
      }
    }
  }

  // ---- No other selection admits more ----------------------------------------------------------

  lemma {:induction false} CountOfPart(adm: seq<real>, more: seq<real>, s: real, t: real)
    ensures CountIn(adm, s, t) <= CountIn(adm + more, s, t)
  {
    if more == [] {
      assert adm + more == adm;
    } else {
      CountOfPart(adm, Init(more), s, t);
      assert Init(adm + more) == adm + Init(more);
    }
  }

  lemma PartRespects(c: Curve, adm: seq<real>, more: seq<real>)
    requires Respects(c, adm + more)
    ensures Respects(c, adm)
  {
    forall s, t | s <= t
      ensures SpanKept(c, adm, s, t)
    {
      assert SpanKept(c, adm + more, s, t);
      CountOfPart(adm, more, s, t);
    }
  }

  /** A selection that keeps the envelope never overdraws. */
  lemma NeverOverdrawn(c: Curve, calls: seq<real>, picks: seq<bool>)
    requires Valid(c) && |calls| == |picks| && calls != [] && Sorted(calls)
    requires Respects(c, Picked(calls, picks))
    ensures Level(c, calls, picks) >= 0.0
  {
    var adm, now := Picked(calls, picks), Last(calls);
    LevelIsLeast(c, calls, picks);
    if Level(c, calls, picks) != c.cap {
      var i :| 0 <= i < |adm| && Level(c, calls, picks) == Room(c, adm, i, now);
      assert Init(calls) + [now] == calls;
      assert Sorted(calls + [now]);
      PickedSorted(calls, picks, now);
      SortedPrefix(adm, now);
      CountAtLeast(adm, i, now);
      assert SpanKept(c, adm, adm[i], now);
    }
  }

  /** The exchange argument: the bucket is never behind, in admissions or in admissions plus tokens. */
  lemma {:induction false} NeverBehind(c: Curve, calls: seq<real>, picks: seq<bool>)
    requires Valid(c) && |calls| == |picks| && Sorted(calls) && Respects(c, Picked(calls, picks))
    ensures |Picked(calls, picks)| <= |Admitted(c, calls)|
    ensures |Picked(calls, picks)| as real + Level(c, calls, picks)
         <= |Admitted(c, calls)| as real + Level(c, calls, Greedy(c, calls))
  {
    if calls != [] {
      var before, now := Init(calls), Last(calls);
      assert before + [now] == calls;
      SortedPrefix(before, now);
      PartRespects(c, Picked(before, Init(picks)), if Last(picks) then [now] else []);
      NeverBehind(c, before, Init(picks));
      GreedyPrefix(c, before, now);
      NeverOverdrawn(c, calls, picks);
      if before != [] {
        assert c.earned(Last(before)) <= c.earned(now);
      }
    }
  }
}
