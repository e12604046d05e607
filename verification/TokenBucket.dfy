/** The token-bucket limiter: a level that refills at a constant rate up to a capacity, and one
    token per admitted call. Time is in seconds (real); the key's own expiry runs on the
    millisecond clock of Redis. */
module TokenBucket {
  import opened Options
  import opened Numbers
  import opened Seqs
  import opened RateLimit
  import opened Envelope

  /** The arguments of the script. The last condition is what the limiter's TTL is for: the key
      outlives a refill from empty, with room for the truncation of the millisecond clock. */
  datatype RawParams = Params(capacity: nat, rate: real, ttlMs: int)
  type Params = p: RawParams | p.capacity >= 1 && p.rate > 0.0 && Outlasts(p)
    witness (assert Outlasts(Params(1, 1.0, 2000)); Params(1, 1.0, 2000))

  predicate Outlasts(p: RawParams) {
    (p.ttlMs as real - 1.0) * p.rate >= 1000.0 * p.capacity as real
  }

  function ParamsOf(s: RateLimitSpec): Params
    requires ValidSpec(s)
  {
    var capacity := if s.burst.Some? && s.burst.value != 0 then s.burst.value else s.requests;
    var rate := s.requests as real / s.windowSeconds as real;
    var ttlMs := (capacity as real / rate * 1000.0).Floor + 1000;
    TruncatedTtlOutlasts(capacity, rate, ttlMs);
    Params(capacity, rate, ttlMs)
  }

  lemma TruncatedTtlOutlasts(capacity: nat, rate: real, ttlMs: int)
    requires rate > 0.0
    requires ttlMs == (capacity as real / rate * 1000.0).Floor + 1000
    ensures Outlasts(Params(capacity, rate, ttlMs))
  {
    var full, ttl := capacity as real / rate, ttlMs as real;
    assert full * 1000.0 <= ttl - 1.0;
    DivideBack(capacity as real, rate);
    MulMonotone(rate, full * 1000.0, ttl - 1.0);
    assert full * 1000.0 * rate == 1000.0 * (full * rate);
  }

  lemma DivideBack(x: real, rate: real)
    requires rate > 0.0
    ensures x / rate * rate == x
  {
  }

  function Cap(p: Params): real { p.capacity as real }

  function ClockMs(now: real): int { (now * 1000.0).Floor }

  function Ceil(x: real): int { -((-x).Floor) }

  /** Milliseconds until the level is back at one token. */
  function RetryMs(p: Params, tokens: real): int { Ceil((1.0 - tokens) / p.rate * 1000.0) }

  /** The Redis hash behind one key, with the deadline set by PEXPIRE. */
  datatype Cell = Missing | Cell(tokens: real, ts: real, deadlineMs: int)

  function Refill(p: Params, tokens: real, elapsed: real): real {
    MinReal(Cap(p), tokens + elapsed * p.rate)
  }

  /** The level the script sees before it decides. */
  function LevelAt(p: Params, cell: Cell, now: real): real {
    if cell.Missing? then Cap(p)
    else Refill(p, cell.tokens, if now < cell.ts then 0.0 else now - cell.ts)
  }

  /** The script on a visible key: what it stores, and whether it lets the call through. */
  function Script(p: Params, cell: Cell, now: real): (r: (Cell, bool))
    ensures r.0.Cell?
  {
    var level := LevelAt(p, cell, now);
    var allowed := level >= 1.0;
    (Cell(if allowed then level - 1.0 else level, now, ClockMs(now) + p.ttlMs), allowed)
  }

  /** What the script returns, given what it stored and decided. */
  function ReplyOf(p: Params, tokens: real, allowed: bool): Reply {
    Reply(allowed, tokens.Floor, if allowed then 0 else RetryMs(p, tokens))
  }

  function Visible(b: Boundary, cell: Cell, now: real): Cell {
    if cell.Cell? && Expired(b, ClockMs(now), cell.deadlineMs) then Missing else cell
  }

  /** What `check` leaves in the key, and what it returns. */
  function Checked(rule: RateLimitSpec, b: Boundary, cell: Cell, now: real): (Cell, RateLimitResult)
    requires ValidSpec(rule)
  {
    var p := ParamsOf(rule);
    var (after, allowed) := Script(p, Visible(b, cell, now), now);
    (after, ToResult(p.capacity, ReplyOf(p, after.tokens, allowed)))
  }

  /** One key in Redis, and the atomic script as it runs on it, statement by statement. */
  class BucketKey {
    var cell: Cell

    constructor ()
      ensures cell == Missing
    {
      cell := Missing;
    }

    method Check(rule: RateLimitSpec, b: Boundary, now: real) returns (result: RateLimitResult)
      requires ValidSpec(rule)
      modifies this
      ensures (cell, result) == Checked(rule, b, old(cell), now)
    {
      var p := ParamsOf(rule);
      var reply := Eval(p, b, now);
      result := ToResult(p.capacity, reply);
    }

    method Eval(p: Params, b: Boundary, now: real) returns (reply: Reply)
      modifies this
      ensures var (after, allowed) := Script(p, Visible(b, old(cell), now), now);
              cell == after && reply == ReplyOf(p, after.tokens, allowed)
    {
      if cell.Cell? && Expired(b, ClockMs(now), cell.deadlineMs) {
        cell := Missing;
      }
      var tokens, ts := Cap(p), now;
      if cell.Cell? {
        tokens, ts := cell.tokens, cell.ts;
      }
      var delta := if now < ts then 0.0 else now - ts;
      tokens := MinReal(Cap(p), tokens + delta * p.rate);
      assert tokens == LevelAt(p, cell, now);
      var allowed, retry := false, 0;
      if tokens >= 1.0 {
        tokens := tokens - 1.0;
        allowed := true;
      } else {
        retry := RetryMs(p, tokens);
      }
      cell := Cell(tokens, now, ClockMs(now) + p.ttlMs);
      reply := Reply(allowed, tokens.Floor, retry);
    }
  }

  // ---- Runs -----------------------------------------------------------------------------------

  /** All calls on one key, from a fresh key, with expiry: the key and the verdicts. */
  function Run(p: Params, b: Boundary, calls: seq<real>): (r: (Cell, seq<bool>))
    ensures |r.1| == |calls|
    ensures |calls| > 0 ==> r.0.Cell? && r.0.ts == Last(calls)
  {
    if calls == [] then (Missing, []) else
      var (before, verdicts) := Run(p, b, Init(calls));
      var (after, allowed) := Script(p, Visible(b, before, Last(calls)), Last(calls));
      (after, verdicts + [allowed])
  }

  /** The same calls on a key that never expires. */
  function RunForever(p: Params, calls: seq<real>): (r: (Cell, seq<bool>))
    ensures |r.1| == |calls|
    ensures |calls| > 0 ==> r.0.Cell? && r.0.ts == Last(calls)
  {
    if calls == [] then (Missing, []) else
      var (before, verdicts) := RunForever(p, Init(calls));
      var (after, allowed) := Script(p, before, Last(calls));
      (after, verdicts + [allowed])
  }

  /** By the time a key can have expired, its bucket would be full again. */
  lemma ExpiredIsFull(p: Params, cell: Cell, now: real)
    requires cell.Cell? && cell.deadlineMs == ClockMs(cell.ts) + p.ttlMs && cell.tokens >= 0.0
    requires cell.deadlineMs <= ClockMs(now) && cell.ts <= now
    ensures Script(p, cell, now) == Script(p, Missing, now)
  {
    var elapsed := now - cell.ts;
    assert elapsed * 1000.0 >= p.ttlMs as real - 1.0;
    MulMonotone(p.rate, (p.ttlMs as real - 1.0) / 1000.0, elapsed);
    assert elapsed * p.rate >= Cap(p);
    assert LevelAt(p, cell, now) == Cap(p) == LevelAt(p, Missing, now);
  }

  lemma MulMonotone(rate: real, x: real, y: real)
    requires rate > 0.0 && x <= y
    ensures x * rate <= y * rate && rate * x <= rate * y
  {
  }

  lemma {:induction false} TokensInRange(p: Params, calls: seq<real>)
    requires Sorted(calls) && calls != []
    ensures 0.0 <= RunForever(p, calls).0.tokens <= Cap(p)
  {
    if |calls| > 1 {
      TokensInRange(p, Init(calls));
      MulMonotone(p.rate, 0.0, Last(calls) - Last(Init(calls)));
    }
  }

  /** Key expiry changes no verdict and not even the stored state, and so no reply. */
  lemma {:induction false} ExpiryChangesNothing(p: Params, b: Boundary, calls: seq<real>)
    requires Sorted(calls)
    ensures Run(p, b, calls) == RunForever(p, calls)
  {
    if calls != [] {
      ExpiryChangesNothing(p, b, Init(calls));
      var before, now := RunForever(p, Init(calls)).0, Last(calls);
      if before.Cell? && Expired(b, ClockMs(now), before.deadlineMs) {
        TokensInRange(p, Init(calls));
        DeadlineFromLastCall(p, Init(calls));
        ExpiredIsFull(p, before, now);
      }
    }
  }

  lemma DeadlineFromLastCall(p: Params, calls: seq<real>)
    requires calls != []
    ensures RunForever(p, calls).0.deadlineMs == ClockMs(Last(calls)) + p.ttlMs
  {
  }

  // ---- The admission law ----------------------------------------------------------------------

  /** The calls the limiter lets through, as times. */
  function AdmittedBy(p: Params, b: Boundary, calls: seq<real>): seq<real> {
    Picked(calls, Run(p, b, calls).1)
  }

  /** The span [s, t] holds no more admissions than the capacity plus the refill during the span. */
  ghost predicate SpanWithinRate(p: Params, adm: seq<real>, s: real, t: real) {
    CountIn(adm, s, t) as real <= Cap(p) + p.rate * (t - s)
  }

  ghost predicate WithinRate(p: Params, adm: seq<real>) {
    forall s, t | s <= t :: SpanWithinRate(p, adm, s, t)
  }

  /** The same for the spans that end now. */
  ghost predicate WithinRateNow(p: Params, adm: seq<real>, now: real) {
    forall s | s <= now :: SpanWithinRate(p, adm, s, now)
  }

  ghost function CurveOf(p: Params): Curve { Curve(Cap(p), (t: real) => p.rate * t) }

  lemma CurveIsValid(p: Params)
    ensures Valid(CurveOf(p))
  {
    forall x: real, y: real | x <= y
      ensures CurveOf(p).earned(x) <= CurveOf(p).earned(y)
    {
      MulMonotone(p.rate, x, y);
    }
  }

  lemma EarnedBetween(rate: real, s: real, t: real)
    ensures rate * t - rate * s == rate * (t - s)
  {
  }

  lemma SpanIsRate(p: Params, adm: seq<real>, s: real, t: real)
    ensures SpanKept(CurveOf(p), adm, s, t) <==> SpanWithinRate(p, adm, s, t)
  {
    EarnedBetween(p.rate, s, t);
    assert CurveOf(p).earned(t) == p.rate * t && CurveOf(p).earned(s) == p.rate * s && CurveOf(p).cap == Cap(p);
  }

  lemma RespectsIsWithinRate(p: Params, adm: seq<real>)
    ensures Respects(CurveOf(p), adm) <==> WithinRate(p, adm)
  {
    forall s, t {
      SpanIsRate(p, adm, s, t);
    }
  }

  lemma RespectsNowIsWithinRate(p: Params, adm: seq<real>, now: real)
    ensures RespectsNow(CurveOf(p), adm, now) <==> WithinRateNow(p, adm, now)
  {
    forall s {
      SpanIsRate(p, adm, s, now);
    }
  }

  /** The script stores exactly the level of the envelope, and decides by it. */
  lemma {:induction false} ScriptIsGreedy(p: Params, calls: seq<real>)
    requires Sorted(calls)
    ensures RunForever(p, calls).1 == Greedy(CurveOf(p), calls)
    ensures calls != [] ==> RunForever(p, calls).0.tokens == Level(CurveOf(p), calls, Greedy(CurveOf(p), calls))
  {
    if calls != [] {
      var before, now := Init(calls), Last(calls);
      assert before + [now] == calls;
      SortedPrefix(before, now);
      ScriptIsGreedy(p, before);
      GreedyPrefix(CurveOf(p), before, now);
      LevelAgrees(p, before, now);
    }
  }

  lemma LevelAtAsEarned(p: Params, cell: Cell, now: real)
    requires cell.Cell? && cell.ts <= now
    ensures LevelAt(p, cell, now) == MinReal(Cap(p), cell.tokens + CurveOf(p).earned(now) - CurveOf(p).earned(cell.ts))
  {
    assert (now - cell.ts) * p.rate == p.rate * now - p.rate * cell.ts;
  }

  lemma LevelAgrees(p: Params, calls: seq<real>, now: real)
    requires Sorted(calls + [now])
    requires calls != [] ==> RunForever(p, calls).0.tokens == Level(CurveOf(p), calls, Greedy(CurveOf(p), calls))
    ensures LevelAt(p, RunForever(p, calls).0, now) == LevelBefore(CurveOf(p), calls, Greedy(CurveOf(p), calls), now)
  {
    SortedPrefix(calls, now);
    if calls != [] {
      LevelAtAsEarned(p, RunForever(p, calls).0, now);
    }
  }

  /** Whether the last of `calls + [now]` is let through. */
  predicate Admits(p: Params, b: Boundary, calls: seq<real>, now: real) {
    Last(Run(p, b, calls + [now]).1)
  }

  /** Main law, half one: a call is admitted if and only if admitting it keeps the rate bound on
      every span that ends now; so a refused call would have broken one of them. */
  lemma AdmittedIffWithinRate(p: Params, b: Boundary, calls: seq<real>, now: real)
    requires Sorted(calls + [now])
    ensures Admits(p, b, calls, now) <==> WithinRateNow(p, AdmittedBy(p, b, calls) + [now], now)
  {
    SortedPrefix(calls, now);
    ExpiryChangesNothing(p, b, calls);
    ExpiryChangesNothing(p, b, calls + [now]);
    ScriptIsGreedy(p, calls);
    ScriptIsGreedy(p, calls + [now]);
    CurveIsValid(p);
    AdmittedIffRoom(CurveOf(p), calls, now);
    RespectsNowIsWithinRate(p, AdmittedBy(p, b, calls) + [now], now);
  }

  /** Main law, half two: in every run every span [s, t] holds at most
      capacity + rate * (t - s) admitted calls. */
  lemma AdmittedWithinRate(p: Params, b: Boundary, calls: seq<real>)
    requires Sorted(calls)
    ensures WithinRate(p, AdmittedBy(p, b, calls))
  {
    ExpiryChangesNothing(p, b, calls);
    ScriptIsGreedy(p, calls);
    CurveIsValid(p);
    AdmittedRespects(CurveOf(p), calls);
    RespectsIsWithinRate(p, AdmittedBy(p, b, calls));
  }

  /** No limiter that keeps the bound admits more of the same calls. */
  lemma MostPermissive(p: Params, b: Boundary, calls: seq<real>, picks: seq<bool>)
    requires Sorted(calls) && |picks| == |calls| && WithinRate(p, Picked(calls, picks))
    ensures |Picked(calls, picks)| <= |AdmittedBy(p, b, calls)|
  {
    ExpiryChangesNothing(p, b, calls);
    ScriptIsGreedy(p, calls);
    CurveIsValid(p);
    RespectsIsWithinRate(p, Picked(calls, picks));
    NeverBehind(CurveOf(p), calls, picks);
  }

  // ---- What the caller is told ----------------------------------------------------------------

  /** The reply to the last of `calls + [now]`. */
  function ReplyAt(p: Params, b: Boundary, calls: seq<real>, now: real): Reply {
    ReplyOf(p, Run(p, b, calls + [now]).0.tokens, Admits(p, b, calls, now))
  }

  lemma StepForever(p: Params, b: Boundary, calls: seq<real>, now: real)
    requires Sorted(calls + [now])
    ensures Run(p, b, calls + [now]).0 == Script(p, RunForever(p, calls).0, now).0
    ensures Admits(p, b, calls, now) == Script(p, RunForever(p, calls).0, now).1
    ensures RunForever(p, calls + [now]).0 == Run(p, b, calls + [now]).0
  {
    ExpiryChangesNothing(p, b, calls + [now]);
    assert Init(calls + [now]) == calls;
  }

  lemma SortedAgain(calls: seq<real>, now: real, k: nat)
    requires Sorted(calls + [now])
    ensures Sorted(calls + [now] + Again(now, k))
  {
    SortedPrefix(calls, now);
  }

  /** No time, no refill. */
  lemma AtSameInstant(p: Params, cell: Cell, now: real)
    requires cell.Cell? && cell.ts == now && cell.tokens <= Cap(p)
    ensures var (after, allowed) := Script(p, cell, now);
            && (allowed <==> cell.tokens >= 1.0)
            && after.tokens == if allowed then cell.tokens - 1.0 else cell.tokens
  {
    assert LevelAt(p, cell, now) == cell.tokens;
  }

  /** Tokens after k more calls at the same instant, none of them refused. */
  lemma {:induction false} TokensAfterMore(p: Params, b: Boundary, calls: seq<real>, now: real, k: nat)
    requires Sorted(calls + [now]) && k <= RunForever(p, calls + [now]).0.tokens.Floor
    ensures RunForever(p, calls + [now] + Again(now, k)).0.tokens
         == RunForever(p, calls + [now]).0.tokens - k as real
    ensures 0.0 <= RunForever(p, calls + [now]).0.tokens <= Cap(p)
  {
    TokensInRange(p, calls + [now]);
    if k == 0 {
      assert calls + [now] + Again(now, 0) == calls + [now];
    } else {
      TokensAfterMore(p, b, calls, now, k - 1);
      var sofar := calls + [now] + Again(now, k - 1);
      AgainGrows(now, k - 1);
      assert calls + [now] + Again(now, k) == sofar + [now];
      SortedAgain(calls, now, k);
      SortedAgain(calls, now, k - 1);
      StepForever(p, b, sofar, now);
      assert Last(sofar) == now;
      AtSameInstant(p, RunForever(p, sofar).0, now);
    }
  }

  /** `remaining` is exactly the number of further calls at the same instant that are admitted
      before the first refusal. */
  lemma RemainingIsExact(p: Params, b: Boundary, calls: seq<real>, now: real, k: nat)
    requires Sorted(calls + [now])
    ensures 0 <= ReplyAt(p, b, calls, now).remaining
    ensures k <= ReplyAt(p, b, calls, now).remaining ==>
              (Admits(p, b, calls + [now] + Again(now, k), now) <==> k < ReplyAt(p, b, calls, now).remaining)
  {
    StepForever(p, b, calls, now);
    TokensInRange(p, calls + [now]);
    if k <= RunForever(p, calls + [now]).0.tokens.Floor {
      AdmitsMore(p, b, calls, now, k);
    }
  }

  lemma AdmitsMore(p: Params, b: Boundary, calls: seq<real>, now: real, k: nat)
    requires Sorted(calls + [now]) && k <= RunForever(p, calls + [now]).0.tokens.Floor
    ensures Admits(p, b, calls + [now] + Again(now, k), now) <==> k < RunForever(p, calls + [now]).0.tokens.Floor
  {
    TokensAfterMore(p, b, calls, now, k);
    var sofar := calls + [now] + Again(now, k);
    SortedAgain(calls, now, k + 1);
    AgainGrows(now, k);
    assert sofar + [now] == calls + [now] + Again(now, k + 1);
    StepForever(p, b, sofar, now);
    assert Last(sofar) == now;
    AtSameInstant(p, RunForever(p, sofar).0, now);
  }

  // ---- The retry hint --------------------------------------------------------------------------

  /** Polls that come after `now` and no later than `until`. */
  ghost predicate PollsBetween(polls: seq<real>, now: real, until: real) {
    Sorted(polls) && forall i | 0 <= i < |polls| :: now <= polls[i] <= until
  }

  function HintedAt(now: real, retryMs: int): real { now + retryMs as real / 1000.0 }

  /** The last whole millisecond before the hinted one. */
  function LastRefusedAt(now: real, retryMs: int): real { now + (retryMs - 1) as real / 1000.0 }

  lemma StrictMul(rate: real, x: real, y: real)
    requires rate > 0.0 && x < y
    ensures x * rate < y * rate
  {
  }

  /** A bucket that has only been filling since `now`, where it held `tokens`. */
  ghost predicate Filling(p: Params, tokens: real, now: real, cell: Cell) {
    cell.Cell? && cell.tokens == tokens + (cell.ts - now) * p.rate
  }

  /** Not a whole token by `until`, if nothing is taken. */
  ghost predicate ShortUntil(p: Params, tokens: real, now: real, until: real) {
    tokens + (until - now) * p.rate < 1.0
  }

  lemma NotYetFull(rate: real, tokens: real, wait: real, since: real)
    requires rate > 0.0 && wait * rate == 1.0 - tokens
    ensures since < wait ==> tokens + since * rate < 1.0
    ensures wait <= since ==> 1.0 <= tokens + since * rate
  {
    if since < wait {
      StrictMul(rate, since, wait);
    } else {
      MulMonotone(rate, wait, since);
    }
  }

  lemma HintBrackets(p: Params, tokens: real)
    requires tokens < 1.0
    ensures RetryMs(p, tokens) >= 1
    ensures forall now :: ShortUntil(p, tokens, now, LastRefusedAt(now, RetryMs(p, tokens)))
    ensures forall now, t | t >= HintedAt(now, RetryMs(p, tokens)) :: !ShortUntil(p, tokens, now, t)
  {
    var wait := (1.0 - tokens) / p.rate;
    var hint := RetryMs(p, tokens);
    DivideBack(1.0 - tokens, p.rate);
    assert (hint - 1) as real < wait * 1000.0 <= hint as real;
    forall now
      ensures ShortUntil(p, tokens, now, LastRefusedAt(now, hint))
    {
      NotYetFull(p.rate, tokens, wait, LastRefusedAt(now, hint) - now);
    }
    forall now, t | t >= HintedAt(now, hint)
      ensures !ShortUntil(p, tokens, now, t)
    {
      NotYetFull(p.rate, tokens, wait, t - now);
    }
  }

  lemma PollRefused(p: Params, tokens: real, now: real, cell: Cell, t: real, until: real)
    requires Filling(p, tokens, now, cell) && ShortUntil(p, tokens, now, until) && cell.ts <= t <= until
    ensures var (after, allowed) := Script(p, cell, t);
            !allowed && Filling(p, tokens, now, after)
  {
    MulMonotone(p.rate, t - now, until - now);
    Distribute(p.rate, t - cell.ts, cell.ts - now);
    assert LevelAt(p, cell, t) == tokens + (t - now) * p.rate;
  }

  lemma PollAdmitted(p: Params, tokens: real, now: real, cell: Cell, t: real)
    requires Filling(p, tokens, now, cell) && !ShortUntil(p, tokens, now, t) && cell.ts <= t
    ensures Script(p, cell, t).1
  {
    Distribute(p.rate, t - cell.ts, cell.ts - now);
    assert tokens + (t - now) * p.rate == cell.tokens + (t - cell.ts) * p.rate;
  }

  lemma Distribute(rate: real, x: real, y: real)
    ensures x * rate + y * rate == (x + y) * rate
  {
  }

  lemma RefusedReply(p: Params, b: Boundary, calls: seq<real>, now: real)
    requires Sorted(calls + [now]) && !Admits(p, b, calls, now)
    ensures var cell := RunForever(p, calls + [now]).0;
            && cell.tokens < 1.0 && Filling(p, cell.tokens, now, cell)
            && ReplyAt(p, b, calls, now).retryMs == RetryMs(p, cell.tokens)
  {
    StepForever(p, b, calls, now);
  }

  lemma PollsSorted(calls: seq<real>, now: real, polls: seq<real>, until: real)
    requires Sorted(calls + [now]) && PollsBetween(polls, now, until)
    ensures Sorted(calls + [now] + polls)
    ensures Last(calls + [now] + polls) == if polls == [] then now else Last(polls)
  {
    SortedPrefix(calls, now);
  }

  /** Refused polls leave the bucket filling as if they had not come. */
  lemma {:induction false} PollsOnlyFill(
    p: Params, b: Boundary, calls: seq<real>, now: real, polls: seq<real>, until: real)
    requires Sorted(calls + [now]) && PollsBetween(polls, now, until)
    requires ShortUntil(p, RunForever(p, calls + [now]).0.tokens, now, until)
    ensures Filling(p, RunForever(p, calls + [now]).0.tokens, now, RunForever(p, calls + [now] + polls).0)
  {
    if polls == [] {
      assert calls + [now] + polls == calls + [now];
    } else {
      PollsOnlyFill(p, b, calls, now, Init(polls), until);
      assert Init(polls) + [Last(polls)] == polls;
      PollIsRefused(p, b, calls, now, Init(polls), Last(polls), until);
    }
  }

  lemma PollIsRefused(p: Params, b: Boundary, calls: seq<real>, now: real, polls: seq<real>, t: real, until: real)
    requires Sorted(calls + [now]) && PollsBetween(polls + [t], now, until)
    requires ShortUntil(p, RunForever(p, calls + [now]).0.tokens, now, until)
    requires Filling(p, RunForever(p, calls + [now]).0.tokens, now, RunForever(p, calls + [now] + polls).0)
    ensures !Admits(p, b, calls + [now] + polls, t)
    ensures Filling(p, RunForever(p, calls + [now]).0.tokens, now, RunForever(p, calls + [now] + (polls + [t])).0)
  {
    PollAfterPolls(calls, now, polls, t, until);
    NextPoll(p, b, calls + [now] + polls, RunForever(p, calls + [now]).0.tokens, now, t, until);
  }

  lemma PollAfterPolls(calls: seq<real>, now: real, polls: seq<real>, t: real, until: real)
    requires Sorted(calls + [now]) && PollsBetween(polls + [t], now, until)
    ensures calls + [now] + (polls + [t]) == calls + [now] + polls + [t]
    ensures Sorted(calls + [now] + polls + [t]) && t <= until
  {
    assert (polls + [t])[|polls|] == t;
    PollsSorted(calls, now, polls + [t], until);
    assert calls + [now] + (polls + [t]) == calls + [now] + polls + [t];
  }

  lemma NextPoll(p: Params, b: Boundary, sofar: seq<real>, tokens: real, now: real, t: real, until: real)
    requires sofar != [] && Sorted(sofar + [t]) && t <= until
    requires ShortUntil(p, tokens, now, until) && Filling(p, tokens, now, RunForever(p, sofar).0)
    ensures !Admits(p, b, sofar, t) && Filling(p, tokens, now, RunForever(p, sofar + [t]).0)
  {
    StepForever(p, b, sofar, t);
    SortedPrefix(sofar, t);
    PollRefused(p, tokens, now, RunForever(p, sofar).0, t, until);
  }

  /** The hint is exact to the millisecond: whatever is polled up to the millisecond before it is
      refused, and then a call at the hinted millisecond, or at any later time, is admitted. */
  lemma RetryHintIsExact(p: Params, b: Boundary, calls: seq<real>, now: real, polls: seq<real>, t: real)
    requires Sorted(calls + [now]) && !Admits(p, b, calls, now)
    ensures var retryMs := ReplyAt(p, b, calls, now).retryMs;
            PollsBetween(polls, now, LastRefusedAt(now, retryMs)) ==>
              && (forall i | 0 <= i < |polls| :: !Admits(p, b, calls + [now] + polls[..i], polls[i]))
              && (t >= HintedAt(now, retryMs) ==> Admits(p, b, calls + [now] + polls, t))
  {
    RefusedReply(p, b, calls, now);
    var retryMs := ReplyAt(p, b, calls, now).retryMs;
    var until := LastRefusedAt(now, retryMs);
    HintBrackets(p, RunForever(p, calls + [now]).0.tokens);
    if PollsBetween(polls, now, until) {
      forall i | 0 <= i < |polls|
        ensures !Admits(p, b, calls + [now] + polls[..i], polls[i])
      {
        assert polls[..i] + [polls[i]] == polls[..i + 1];
        PollsOnlyFill(p, b, calls, now, polls[..i], until);
        PollIsRefused(p, b, calls, now, polls[..i], polls[i], until);
      }
      if t >= HintedAt(now, retryMs) {
        PollsOnlyFill(p, b, calls, now, polls, until);
        PollsSorted(calls, now, polls, until);
        FilledIsAdmitted(p, b, calls + [now] + polls, now, RunForever(p, calls + [now]).0.tokens, t);
      }
    }
  }

  lemma FilledIsAdmitted(p: Params, b: Boundary, sofar: seq<real>, now: real, tokens: real, t: real)
    requires sofar != [] && Sorted(sofar) && Last(sofar) <= t
    requires !ShortUntil(p, tokens, now, t) && Filling(p, tokens, now, RunForever(p, sofar).0)
    ensures Admits(p, b, sofar, t)
  {
    assert Sorted(sofar + [t]);
    StepForever(p, b, sofar, t);
    PollAdmitted(p, tokens, now, RunForever(p, sofar).0, t);
  }

  /** Rounded up to seconds the hint stays sufficient and adds less than one second. */
  lemma RoundedHint(p: Params, b: Boundary, calls: seq<real>, now: real)
    requires Sorted(calls + [now]) && !Admits(p, b, calls, now)
    ensures var reply := ReplyAt(p, b, calls, now);
            && 1 <= reply.retryMs
            && reply.retryMs <= 1000 * ToResult(p.capacity, reply).retryAfter < reply.retryMs + 1000
  {
    RefusedReply(p, b, calls, now);
    HintBrackets(p, RunForever(p, calls + [now]).0.tokens);
  }

  // ---- What `check` returns ---------------------------------------------------------------------

  /** The key after calls of `check` from a fresh key, and all results. */
  function CheckRun(rule: RateLimitSpec, b: Boundary, calls: seq<real>): (r: (Cell, seq<RateLimitResult>))
    requires ValidSpec(rule)
    ensures |r.1| == |calls|
  {
    if calls == [] then (Missing, []) else
      var (before, results) := CheckRun(rule, b, Init(calls));
      var (after, result) := Checked(rule, b, before, Last(calls));
      (after, results + [result])
  }

  /** The result of a call at `now` that follows `calls`. */
  function ResultAt(rule: RateLimitSpec, b: Boundary, calls: seq<real>, now: real): RateLimitResult
    requires ValidSpec(rule)
  {
    Last(CheckRun(rule, b, calls + [now]).1)
  }

  function AllowedIn(results: seq<RateLimitResult>): (v: seq<bool>)
    ensures |v| == |results|
  {
    seq(|results|, i requires 0 <= i < |results| => results[i].allowed)
  }

  /** The calls whose result let them through. */
  function LetThrough(rule: RateLimitSpec, b: Boundary, calls: seq<real>): seq<real>
    requires ValidSpec(rule)
  {
    Picked(calls, AllowedIn(CheckRun(rule, b, calls).1))
  }

  lemma {:induction false} CheckRunIsRun(rule: RateLimitSpec, b: Boundary, calls: seq<real>)
    requires ValidSpec(rule)
    ensures CheckRun(rule, b, calls).0 == Run(ParamsOf(rule), b, calls).0
    ensures AllowedIn(CheckRun(rule, b, calls).1) == Run(ParamsOf(rule), b, calls).1
    ensures LetThrough(rule, b, calls) == AdmittedBy(ParamsOf(rule), b, calls)
  {
    if calls != [] {
      CheckRunIsRun(rule, b, Init(calls));
    }
  }

  lemma ResultIsReply(rule: RateLimitSpec, b: Boundary, calls: seq<real>, now: real)
    requires ValidSpec(rule)
    ensures var result, reply := ResultAt(rule, b, calls, now), ReplyAt(ParamsOf(rule), b, calls, now);
            && result.allowed == reply.allowed == Admits(ParamsOf(rule), b, calls, now)
            && result.remaining == reply.remaining
            && result.limit == ParamsOf(rule).capacity
            && reply.retryMs <= 1000 * result.retryAfter
            && (reply.allowed ==> result.retryAfter == 0)
            && (reply.retryMs >= 0 ==> 1000 * result.retryAfter < reply.retryMs + 1000)
  {
    CheckRunIsRun(rule, b, calls);
    assert Init(calls + [now]) == calls;
  }

  /** A bound per second, multiplied out: n tokens fit into d seconds. */
  lemma RateByRule(rule: RateLimitSpec, n: nat, cap: nat, d: real)
    requires ValidSpec(rule)
    ensures var w, requests := rule.windowSeconds as real, rule.requests as real;
            n as real <= cap as real + requests / w * d <==> n as real * w <= cap as real * w + requests * d
  {
    var w, requests := rule.windowSeconds as real, rule.requests as real;
    var rate := requests / w;
    DivideBack(requests, w);
    assert rate * d * w == rate * w * d == requests * d;
    ScaleUp(n as real, cap as real + rate * d, w);
    assert (cap as real + rate * d) * w == cap as real * w + rate * d * w;
  }

  lemma ScaleUp(x: real, y: real, w: real)
    requires w > 0.0
    ensures x <= y <==> x * w <= y * w
  {
  }

  /** The span [s, t] holds no more than the capacity, which is the burst if there is one and else the
      number of requests, and the requests that the rule earns in the span. */
  ghost predicate SpanByRule(rule: RateLimitSpec, adm: seq<real>, s: real, t: real) {
    var cap := if rule.burst.Some? && rule.burst.value != 0 then rule.burst.value else rule.requests;
    CountIn(adm, s, t) as real * rule.windowSeconds as real
    <= cap as real * rule.windowSeconds as real + rule.requests as real * (t - s)
  }

  lemma SpanByRuleIsRate(rule: RateLimitSpec, adm: seq<real>, s: real, t: real)
    requires ValidSpec(rule)
    ensures SpanByRule(rule, adm, s, t) <==> SpanWithinRate(ParamsOf(rule), adm, s, t)
  {
    RateByRule(rule, CountIn(adm, s, t), ParamsOf(rule).capacity, t - s);
  }

  /** A call of `check` is let through if and only if that keeps every span that ends now. */
  lemma CheckAdmitsIff(rule: RateLimitSpec, b: Boundary, calls: seq<real>, now: real)
    requires ValidSpec(rule) && Sorted(calls + [now])
    ensures ResultAt(rule, b, calls, now).allowed
       <==> forall s | s <= now :: SpanByRule(rule, LetThrough(rule, b, calls) + [now], s, now)
  {
    var more := LetThrough(rule, b, calls) + [now];
    ResultIsReply(rule, b, calls, now);
    CheckRunIsRun(rule, b, calls);
    AdmittedIffWithinRate(ParamsOf(rule), b, calls, now);
    forall s
      ensures SpanByRule(rule, more, s, now) <==> SpanWithinRate(ParamsOf(rule), more, s, now)
    {
      SpanByRuleIsRate(rule, more, s, now);
    }
  }

  /** Every span, wherever it ends, is kept. */
  lemma CheckKeepsRate(rule: RateLimitSpec, b: Boundary, calls: seq<real>, s: real, t: real)
    requires ValidSpec(rule) && Sorted(calls) && s <= t
    ensures SpanByRule(rule, LetThrough(rule, b, calls), s, t)
  {
    CheckRunIsRun(rule, b, calls);
    AdmittedWithinRate(ParamsOf(rule), b, calls);
    SpanByRuleIsRate(rule, LetThrough(rule, b, calls), s, t);
  }

  /** The limit reported is the capacity, and `remaining` the exact number of further calls that would be
      let through at once. */
  lemma CheckRemaining(rule: RateLimitSpec, b: Boundary, calls: seq<real>, now: real, k: nat)
    requires ValidSpec(rule) && Sorted(calls + [now])
    ensures var result := ResultAt(rule, b, calls, now);
            && result.limit == (if rule.burst.Some? && rule.burst.value != 0 then rule.burst.value else rule.requests)
            && 0 <= result.remaining
            && (k <= result.remaining ==>
                  (ResultAt(rule, b, calls + [now] + Again(now, k), now).allowed <==> k < result.remaining))
  {
    ResultIsReply(rule, b, calls, now);
    ResultIsReply(rule, b, calls + [now] + Again(now, k), now);
    RemainingIsExact(ParamsOf(rule), b, calls, now, k);
  }

  /** `retry_after` is the least number of whole seconds that is enough to wait, and 0 for a call that was
      let through: polls up to a second before it are refused, and any call from then on is let through. */
  lemma CheckRetryAfter(rule: RateLimitSpec, b: Boundary, calls: seq<real>, now: real, polls: seq<real>, t: real)
    requires ValidSpec(rule) && Sorted(calls + [now])
    ensures var result := ResultAt(rule, b, calls, now);
            && (result.allowed <==> result.retryAfter == 0)
            && (!result.allowed && PollsBetween(polls, now, now + (result.retryAfter - 1) as real) ==>
                  && (forall i | 0 <= i < |polls| :: !ResultAt(rule, b, calls + [now] + polls[..i], polls[i]).allowed)
                  && (t >= now + result.retryAfter as real ==> ResultAt(rule, b, calls + [now] + polls, t).allowed))
  {
    var p, result := ParamsOf(rule), ResultAt(rule, b, calls, now);
    ResultIsReply(rule, b, calls, now);
    if !result.allowed {
      var retryMs := ReplyAt(p, b, calls, now).retryMs;
      RefusedReply(p, b, calls, now);
      HintBrackets(p, RunForever(p, calls + [now]).0.tokens);
      assert (result.retryAfter - 1) as real <= (retryMs - 1) as real / 1000.0;
      assert result.retryAfter as real >= retryMs as real / 1000.0;
      RetryHintIsExact(p, b, calls, now, polls, t);
      forall i | 0 <= i < |polls|
        ensures ResultAt(rule, b, calls + [now] + polls[..i], polls[i]).allowed
             == Admits(p, b, calls + [now] + polls[..i], polls[i])
      {
        ResultIsReply(rule, b, calls + [now] + polls[..i], polls[i]);
      }
      ResultIsReply(rule, b, calls + [now] + polls, t);
    }
  }

  /** A clock that goes back earns nothing: the call is let through if and only if the call before it left
      something, and takes one of that. */
  lemma ClockBackEarnsNothing(rule: RateLimitSpec, b: Boundary, calls: seq<real>, t: real, now: real)
    requires ValidSpec(rule) && now <= t
    ensures var left, result := ResultAt(rule, b, calls, t).remaining, ResultAt(rule, b, calls + [t], now);
            && (result.allowed <==> left > 0)
            && result.remaining == if result.allowed then left - 1 else left
  {
    var cell := CheckRun(rule, b, calls + [t]).0;
    assert Init(calls + [t]) == calls && Init(calls + [t] + [now]) == calls + [t];
    assert ClockMs(now) <= ClockMs(t) < cell.deadlineMs by {
      TtlIsPositive(rule);
    }
    var p := ParamsOf(rule);
    assert LevelAt(p, cell, now) == cell.tokens;
  }

  lemma TtlIsPositive(rule: RateLimitSpec)
    requires ValidSpec(rule)
    ensures ParamsOf(rule).ttlMs > 0
  {
  }

  /** So many milliseconds more than one second are a refill of the capacity from empty, cut off. */
  ghost predicate RefillPlusSecond(rule: RateLimitSpec, ms: int) {
    var cap := if rule.burst.Some? && rule.burst.value != 0 then rule.burst.value else rule.requests;
    var spent := 1000.0 * (cap as real * rule.windowSeconds as real);
    (ms - 1000) as real * rule.requests as real <= spent < (ms - 999) as real * rule.requests as real
  }

  /** The key outlives its last call by a refill from empty and one second. */
  lemma KeyOutlivesRefill(rule: RateLimitSpec, b: Boundary, calls: seq<real>)
    requires ValidSpec(rule) && calls != []
    ensures var cell := CheckRun(rule, b, calls).0;
            cell.Cell? && RefillPlusSecond(rule, cell.deadlineMs - (Last(calls) * 1000.0).Floor)
  {
    CheckRunIsRun(rule, b, calls);
    assert Run(ParamsOf(rule), b, calls).0.deadlineMs == ClockMs(Last(calls)) + ParamsOf(rule).ttlMs;
    TtlByRule(rule);
  }

  lemma TtlByRule(rule: RateLimitSpec)
    requires ValidSpec(rule)
    ensures RefillPlusSecond(rule, ParamsOf(rule).ttlMs)
  {
    var p, w := ParamsOf(rule), rule.windowSeconds as real;
    DivideBack(rule.requests as real, w);
    DivideBack(p.capacity as real, p.rate);
    RefillByRate(p.capacity as real / p.rate, p.rate, w, rule.requests as real, p.capacity as real, p.ttlMs - 1000);
  }

  lemma RefillByRate(full: real, rate: real, w: real, requests: real, cap: real, ms: int)
    requires rate * w == requests && full * rate == cap && requests > 0.0
    requires ms == (full * 1000.0).Floor
    ensures ms as real * requests <= 1000.0 * (cap * w) < (ms + 1) as real * requests
  {
    Regroup(full, rate, w);
    assert full * requests == cap * w;
    Regroup(1000.0, full, requests);
    assert 1000.0 * full * requests == 1000.0 * (cap * w);
    var x, next := 1000.0 * full, (ms + 1) as real;
    assert x * requests == 1000.0 * (cap * w);
    MulMonotone(requests, ms as real, x);
    StrictMul(requests, x, next);
    assert 1000.0 * (cap * w) < next * requests;
  }

  lemma Regroup(x: real, y: real, z: real)
    ensures x * (y * z) == x * y * z
  {
  }
}
