/** The sliding-window log: a sorted set of admission times, pruned at every call. Times are whole
    milliseconds since the epoch. */
module SlidingWindow {
  import opened Options
  import opened Numbers
  import opened RateLimit
  import opened Logs

  datatype Spec = Spec(limit: nat, windowMs: nat)

  predicate Valid(s: Spec) { s.limit > 0 && s.windowMs > 0 }

  /** The arguments of the script. */
  function SpecOf(rule: RateLimitSpec): Spec { Spec(rule.requests, rule.windowSeconds * 1000) }

  /** A member of the sorted set with its score. */
  datatype Entry = Entry(score: int, member: nat)

  /** The sorted set behind one key, lowest score first, with the deadline set by PEXPIRE. */
  datatype Key = Key(entries: Log<Entry>, deadlineMs: int)

  const FRESH := Key(Empty, 0)

  datatype Call = Call(now: int, member: nat)

  /** ZREMRANGEBYSCORE key 0 cut */
  function RemoveUpTo(z: Log<Entry>, cut: int): Log<Entry> {
    match z
    case Empty => Empty
    case More(rest, e) =>
      var kept := RemoveUpTo(rest, cut);
      if 0 <= e.score <= cut then kept else More(kept, e)
  }

  /** ZADD: a member already there moves to its new score. */
  function Add(z: Log<Entry>, e: Entry): Log<Entry> { Insert(Without(z, e.member), e) }

  function Without(z: Log<Entry>, member: nat): Log<Entry> {
    match z
    case Empty => Empty
    case More(rest, e) =>
      if e.member == member then Without(rest, member) else More(Without(rest, member), e)
  }

  function Insert(z: Log<Entry>, e: Entry): Log<Entry> {
    if z.Empty? || z.last.score <= e.score then More(z, e)
    else More(Insert(z.before, e), z.last)
  }

  function Visible(b: Boundary, key: Key, now: int): Key {
    if Expired(b, now, key.deadlineMs) then FRESH else key
  }

  /** The script on a visible key: prune, then decide by what is left. */
  function Script(s: Spec, key: Key, call: Call): (Key, Reply) {
    var kept := RemoveUpTo(key.entries, call.now - s.windowMs);
    (NextKey(s, key, kept, call), Verdict(s, kept, call.now))
  }

  function Verdict(s: Spec, kept: Log<Entry>, now: int): Reply {
    if Size(kept) < s.limit then Reply(true, s.limit - Size(kept) - 1, 0)
    else Reply(false, 0, if kept.Empty? then s.windowMs else First(kept).score + s.windowMs - now)
  }

  function NextKey(s: Spec, key: Key, kept: Log<Entry>, call: Call): Key {
    if Size(kept) < s.limit then Key(Add(kept, Entry(call.now, call.member)), call.now + s.windowMs)
    else key.(entries := kept)
  }

  /** What `check` leaves in the key, and what it returns. */
  function Checked(rule: RateLimitSpec, key: Key, call: Call): (Key, RateLimitResult) {
    var (after, reply) := Script(SpecOf(rule), key, call);
    (after, Returned(rule, reply))
  }

  function Returned(rule: RateLimitSpec, reply: Reply): RateLimitResult {
    ToResult(rule.requests, reply.(remaining := Max(0, reply.remaining)))
  }

  /** One key in Redis, and the atomic script as it runs on it. */
  class LogKey {
    var entries: Log<Entry>
    var deadlineMs: int

    constructor ()
      ensures Key(entries, deadlineMs) == FRESH
    {
      entries, deadlineMs := Empty, 0;
    }

    method Check(rule: RateLimitSpec, b: Boundary, now: int, member: nat) returns (result: RateLimitResult)
      modifies this
      ensures (Key(entries, deadlineMs), result)
           == Checked(rule, Visible(b, old(Key(entries, deadlineMs)), now), Call(now, member))
    {
      if Expired(b, now, deadlineMs) {
        entries, deadlineMs := Empty, 0;
      }
      var reply := Eval(SpecOf(rule), now, member);
      result := ToResult(rule.requests, reply.(remaining := Max(0, reply.remaining)));
    }

    method Eval(s: Spec, now: int, member: nat) returns (reply: Reply)
      modifies this
      ensures (Key(entries, deadlineMs), reply) == Script(s, old(Key(entries, deadlineMs)), Call(now, member))
    {
      entries := RemoveUpTo(entries, now - s.windowMs);
      var count := Size(entries);
      if count < s.limit {
        entries := Add(entries, Entry(now, member));
        deadlineMs := now + s.windowMs;
        return Reply(true, s.limit - count - 1, 0);
      }
      var retry: int := s.windowMs;
      if entries.More? {
        retry := First(entries).score + s.windowMs - now;
      }
      reply := Reply(false, 0, retry);
    }
  }

  // ---- The specification: nothing but the history of admissions --------------------------------

  /** Admissions after `cut`, in order. */
  function Since(history: Log<int>, cut: int): Log<int> {
    match history
    case Empty => Empty
    case More(before, t) =>
      if cut < t then More(Since(before, cut), t) else Since(before, cut)
  }

  /** Admitted iff fewer than `limit` admissions fall into the window that ends now. */
  function SpecReply(s: Spec, history: Log<int>, now: int): Reply {
    var recent := Since(history, now - s.windowMs);
    if Size(recent) < s.limit then Reply(true, s.limit - Size(recent) - 1, 0)
    else Reply(false, 0, if recent.Empty? then s.windowMs else First(recent) + s.windowMs - now)
  }

  function SpecStep(s: Spec, history: Log<int>, now: int): Log<int> {
    if SpecReply(s, history, now).allowed then More(history, now) else history
  }

  // ---- Runs of the script ----------------------------------------------------------------------

  /** Whether keys expire, and by which rule, is a parameter: None is a key that never expires. */
  function Look(expiry: Option<Boundary>, key: Key, now: int): Key {
    if expiry.Some? then Visible(expiry.value, key, now) else key
  }

  function Kept(s: Spec, expiry: Option<Boundary>, key: Key, now: int): Log<Entry> {
    RemoveUpTo(Look(expiry, key, now).entries, now - s.windowMs)
  }

  /** The key, and the times of all admissions so far (which the key itself forgets). */
  datatype State = State(key: Key, admitted: Log<int>)

  function ReplyIn(s: Spec, expiry: Option<Boundary>, st: State, call: Call): Reply {
    Script(s, Look(expiry, st.key, call.now), call).1
  }

  function Step(s: Spec, expiry: Option<Boundary>, st: State, call: Call): State {
    State(Script(s, Look(expiry, st.key, call.now), call).0,
          if ReplyIn(s, expiry, st, call).allowed then More(st.admitted, call.now) else st.admitted)
  }

  /** A run of calls from a fresh key. */
  function Run(s: Spec, expiry: Option<Boundary>, calls: Log<Call>): State {
    match calls
    case Empty => State(FRESH, Empty)
    case More(before, call) => Step(s, expiry, Run(s, expiry, before), call)
  }

  /** The reply to `call` when it follows `calls`. */
  function ReplyAt(s: Spec, expiry: Option<Boundary>, calls: Log<Call>, call: Call): Reply {
    ReplyIn(s, expiry, Run(s, expiry, calls), call)
  }

  /** The times at which calls were admitted. */
  function AdmittedBy(s: Spec, expiry: Option<Boundary>, calls: Log<Call>): Log<int> {
    Run(s, expiry, calls).admitted
  }

  predicate Uses(calls: Log<Call>, member: nat) {
    calls.More? && (calls.last.member == member || Uses(calls.before, member))
  }

  /** A clock that never goes back, and members that are never reused. */
  predicate Proper(calls: Log<Call>) {
    calls.More? ==>
      && Proper(calls.before)
      && 0 <= calls.last.now
      && (calls.before.More? ==> calls.before.last.now <= calls.last.now)
      && !Uses(calls.before, calls.last.member)
  }

  // ---- Refinement ------------------------------------------------------------------------------

  function Scores(z: Log<Entry>): Log<int> {
    match z
    case Empty => Empty
    case More(rest, e) => More(Scores(rest), e.score)
  }

  predicate Known(z: Log<Entry>, calls: Log<Call>) {
    z.More? ==> Uses(calls, z.last.member) && Known(z.before, calls)
  }

  /** What the key holds, given the full history: exactly the scores of the last window, members
      that came with earlier calls, and a deadline one window after the last admission. */
  predicate Tracks(s: Spec, key: Key, history: Log<int>, now: int, calls: Log<Call>) {
    && Scores(key.entries) == Since(history, now - s.windowMs)
    && (history.More? ==> key.deadlineMs == history.last + s.windowMs)
    && Known(key.entries, calls)
  }

  lemma {:induction false} ScoresPruned(z: Log<Entry>, history: Log<int>, cut: int, later: int, hi: int)
    requires cut <= later && Upto(history, hi) && Scores(z) == Since(history, cut)
    ensures Scores(RemoveUpTo(z, later)) == Since(history, later)
  {
    if history.More? {
      var t := history.last;
      if cut < t {
        ScoresPruned(z.before, history.before, cut, later, t);
      } else {
        ScoresPruned(z, history.before, cut, later, t);
      }
    }
  }

  lemma {:induction false} NothingSince(history: Log<int>, cut: int)
    requires Upto(history, cut)
    ensures Since(history, cut) == Empty
  {
    if history.More? {
      UptoLater(history.before, history.last, cut);
      NothingSince(history.before, cut);
    }
  }

  lemma {:induction false} KnownPruned(z: Log<Entry>, calls: Log<Call>, cut: int)
    requires Known(z, calls)
    ensures Known(RemoveUpTo(z, cut), calls)
  {
    if z.More? {
      KnownPruned(z.before, calls, cut);
    }
  }

  lemma {:induction false} KnownLater(z: Log<Entry>, calls: Log<Call>, call: Call)
    requires Known(z, calls)
    ensures Known(z, More(calls, call))
  {
    if z.More? {
      KnownLater(z.before, calls, call);
    }
  }

  lemma {:induction false} WithoutNew(z: Log<Entry>, calls: Log<Call>, member: nat)
    requires Known(z, calls) && !Uses(calls, member)
    ensures Without(z, member) == z
  {
    if z.More? {
      WithoutNew(z.before, calls, member);
    }
  }

  lemma {:induction false} SameSize(z: Log<Entry>)
    ensures Size(Scores(z)) == Size(z)
    ensures z.More? ==> First(Scores(z)) == First(z).score
  {
    if z.More? {
      SameSize(z.before);
    }
  }

  lemma {:induction false} SinceUpto(history: Log<int>, cut: int, hi: int)
    requires Upto(history, hi)
    ensures Since(history, cut).More? ==> Since(history, cut).last <= hi && cut < First(Since(history, cut)) <= hi
  {
    if history.More? {
      SinceUpto(history.before, cut, history.last);
    }
  }

  /** Pruning at the next call, on a key that may have expired, gives the admissions of the window. */
  lemma PruneIsWindow(s: Spec, expiry: Option<Boundary>, key: Key, history: Log<int>, before: int, now: int,
                      calls: Log<Call>)
    requires Tracks(s, key, history, before, calls) && before <= now && Upto(history, now)
    ensures Scores(Kept(s, expiry, key, now)) == Since(history, now - s.windowMs)
    ensures Known(Kept(s, expiry, key, now), calls)
    ensures Kept(s, expiry, key, now).More? ==> Look(expiry, key, now) == key
  {
    var cut := now - s.windowMs;
    ScoresPruned(key.entries, history, before - s.windowMs, cut, now);
    KnownPruned(key.entries, calls, cut);
    if Look(expiry, key, now) != key && history.More? {
      assert Upto(history, cut);
      NothingSince(history, cut);
    }
  }

  /** One call: the reply is the specification's, and the key goes on tracking the history. */
  lemma CallTracks(s: Spec, expiry: Option<Boundary>, key: Key, history: Log<int>, before: int, calls: Log<Call>,
                   call: Call)
    requires Valid(s) && Tracks(s, key, history, before, calls) && !Uses(calls, call.member)
    requires before <= call.now && 0 <= call.now && Upto(history, call.now)
    ensures var (after, reply) := Script(s, Look(expiry, key, call.now), call);
            && reply == SpecReply(s, history, call.now)
            && Tracks(s, after, SpecStep(s, history, call.now), call.now, More(calls, call))
            && Upto(SpecStep(s, history, call.now), call.now)
  {
    PruneIsWindow(s, expiry, key, history, before, call.now, calls);
    var kept := Kept(s, expiry, key, call.now);
    SameSize(kept);
    KnownLater(kept, calls, call);
    if Size(kept) < s.limit {
      WithoutNew(kept, calls, call.member);
      SinceUpto(history, call.now - s.windowMs, call.now);
      assert kept.More? ==> kept.last.score == Scores(kept).last;
    }
  }

  lemma {:induction false} RunTracks(s: Spec, expiry: Option<Boundary>, calls: Log<Call>, now: int)
    requires Valid(s) && Proper(calls) && (calls.More? ==> now == calls.last.now)
    ensures Tracks(s, Run(s, expiry, calls).key, AdmittedBy(s, expiry, calls), now, calls)
    ensures Upto(AdmittedBy(s, expiry, calls), now)
  {
    if calls.More? {
      var before, call := calls.before, calls.last;
      var earlier := if before.More? then before.last.now else call.now;
      RunTracks(s, expiry, before, earlier);
      UptoLater(AdmittedBy(s, expiry, before), earlier, call.now);
      CallTracks(s, expiry, Run(s, expiry, before).key, AdmittedBy(s, expiry, before), earlier, before, call);
    }
  }

  /** Main result: the log refines the specification over the full history, with expiry by either
      rule or without: the reply to a call depends on the admissions of the last window only. */
  lemma RefinesHistory(s: Spec, expiry: Option<Boundary>, calls: Log<Call>, call: Call)
    requires Valid(s) && Proper(More(calls, call))
    ensures ReplyAt(s, expiry, calls, call) == SpecReply(s, AdmittedBy(s, expiry, calls), call.now)
    ensures Upto(AdmittedBy(s, expiry, calls), call.now)
  {
    var earlier := if calls.More? then calls.last.now else call.now;
    RunTracks(s, expiry, calls, earlier);
    UptoLater(AdmittedBy(s, expiry, calls), earlier, call.now);
    CallTracks(s, expiry, Run(s, expiry, calls).key, AdmittedBy(s, expiry, calls), earlier, calls, call);
  }

  /** The pruned set is exactly the admissions of the last window. */
  lemma KeyHoldsWindow(s: Spec, expiry: Option<Boundary>, calls: Log<Call>)
    requires Valid(s) && Proper(calls) && calls.More?
    ensures Scores(Run(s, expiry, calls).key.entries)
            == Since(AdmittedBy(s, expiry, calls), calls.last.now - s.windowMs)
  {
    RunTracks(s, expiry, calls, calls.last.now);
  }

  /** Key expiry changes no reply, by either boundary rule. */
  lemma {:induction false} ExpiryChangesNothing(s: Spec, b: Boundary, calls: Log<Call>, call: Call)
    requires Valid(s) && Proper(More(calls, call))
    ensures AdmittedBy(s, Some(b), calls) == AdmittedBy(s, None, calls)
    ensures ReplyAt(s, Some(b), calls, call) == ReplyAt(s, None, calls, call)
    decreases calls
  {
    if calls.More? {
      ExpiryChangesNothing(s, b, calls.before, calls.last);
    }
    RefinesHistory(s, Some(b), calls, call);
    RefinesHistory(s, None, calls, call);
  }

  // ---- The window law --------------------------------------------------------------------------

  lemma {:induction false} SinceIsCount(history: Log<int>, cut: int, now: int)
    requires Upto(history, now)
    ensures Size(Since(history, cut)) == CountIn(history, cut + 1, now + 1)
  {
    if history.More? {
      UptoLater(history.before, history.last, now);
      SinceIsCount(history.before, cut, now);
    }
  }

  /** Fewer than `limit` admissions in the window that ends with `now`. */
  predicate WindowHasRoom(s: Spec, history: Log<int>, now: int) {
    CountIn(history, now - s.windowMs + 1, now + 1) < s.limit
  }

  lemma SpecCounts(s: Spec, history: Log<int>, now: int)
    requires Upto(history, now)
    ensures SpecReply(s, history, now).allowed
       <==> WindowHasRoom(s, history, now)
  {
    SinceIsCount(history, now - s.windowMs, now);
  }

  /** A call is admitted if and only if fewer than `limit` calls were admitted in the window that
      ends with it. */
  lemma AdmittedIffWindowHasRoom(s: Spec, expiry: Option<Boundary>, calls: Log<Call>, call: Call)
    requires Valid(s) && Proper(More(calls, call))
    ensures ReplyAt(s, expiry, calls, call).allowed
       <==> WindowHasRoom(s, AdmittedBy(s, expiry, calls), call.now)
  {
    var history, reply := AdmittedBy(s, expiry, calls), ReplyAt(s, expiry, calls, call);
    assert reply == SpecReply(s, history, call.now) && Upto(history, call.now) by {
      RefinesHistory(s, expiry, calls, call);
    }
    SpecCounts(s, history, call.now);
  }

  lemma {:induction false} CountShifts(history: Log<int>, lo: int, lo': int, hi: int, now: int)
    requires lo' <= lo && Upto(history, now)
    ensures CountIn(history, lo, hi) <= CountIn(history, lo', now + 1)
  {
    if history.More? {
      UptoLater(history.before, history.last, now);
      CountShifts(history.before, lo, lo', hi, now);
    }
  }

  /** No span of one window length ever holds more than `limit` admissions. */
  lemma {:induction false} WindowLaw(s: Spec, expiry: Option<Boundary>, calls: Log<Call>, from: int)
    requires Valid(s) && Proper(calls)
    ensures CountIn(AdmittedBy(s, expiry, calls), from, from + s.windowMs) <= s.limit
  {
    if calls.More? {
      var before, call := calls.before, calls.last;
      WindowLaw(s, expiry, before, from);
      AdmittedIffWindowHasRoom(s, expiry, before, call);
      RefinesHistory(s, expiry, before, call);
      if from <= call.now < from + s.windowMs {
        CountShifts(AdmittedBy(s, expiry, before), from, call.now - s.windowMs + 1, from + s.windowMs, call.now);
      }
    }
  }

  // ---- What the caller is told -----------------------------------------------------------------

  /** Places taken in the window that ends at `now`. */
  function Taken(s: Spec, expiry: Option<Boundary>, calls: Log<Call>, now: int): nat {
    Size(Since(AdmittedBy(s, expiry, calls), now - s.windowMs))
  }

  lemma OneMore(s: Spec, expiry: Option<Boundary>, calls: Log<Call>, call: Call)
    requires Valid(s) && Proper(More(calls, call))
    ensures var reply := ReplyAt(s, expiry, calls, call);
            && Taken(s, expiry, calls, call.now) <= s.limit
            && (reply.allowed <==> Taken(s, expiry, calls, call.now) < s.limit)
            && Taken(s, expiry, More(calls, call), call.now)
               == Taken(s, expiry, calls, call.now) + (if reply.allowed then 1 else 0)
            && reply.remaining == s.limit - Taken(s, expiry, More(calls, call), call.now)
  {
    var history := AdmittedBy(s, expiry, calls);
    RefinesHistory(s, expiry, calls, call);
    TakenWithin(s, expiry, calls, call);
    OneMoreSpec(s, history, call.now);
    assert AdmittedBy(s, expiry, More(calls, call)) == SpecStep(s, history, call.now);
  }

  lemma TakenWithin(s: Spec, expiry: Option<Boundary>, calls: Log<Call>, call: Call)
    requires Valid(s) && Proper(More(calls, call))
    ensures Size(Since(AdmittedBy(s, expiry, calls), call.now - s.windowMs)) <= s.limit
  {
    RefinesHistory(s, expiry, calls, call);
    WindowLaw(s, expiry, calls, call.now - s.windowMs + 1);
    SinceIsCount(AdmittedBy(s, expiry, calls), call.now - s.windowMs, call.now);
  }

  lemma OneMoreSpec(s: Spec, history: Log<int>, now: int)
    requires Valid(s) && Size(Since(history, now - s.windowMs)) <= s.limit
    ensures var reply, cut := SpecReply(s, history, now), now - s.windowMs;
            && (reply.allowed <==> Size(Since(history, cut)) < s.limit)
            && Size(Since(SpecStep(s, history, now), cut))
               == Size(Since(history, cut)) + (if reply.allowed then 1 else 0)
            && reply.remaining == s.limit - Size(Since(SpecStep(s, history, now), cut))
  {
  }

  /** `run` continues `calls` with k more calls, all at the time of its last one. */
  predicate Burst(run: Log<Call>, calls: Log<Call>, k: nat) {
    if k == 0 then run == calls
    else run.More? && calls.More? && run.last.now == calls.last.now && Burst(run.before, calls, k - 1)
  }

  lemma {:induction false} PlacesTaken(s: Spec, expiry: Option<Boundary>, run: Log<Call>, calls: Log<Call>, k: nat)
    requires Valid(s) && Proper(run) && calls.More? && Burst(run, calls, k)
    requires k <= s.limit - Taken(s, expiry, calls, calls.last.now)
    ensures Taken(s, expiry, run, calls.last.now) == Taken(s, expiry, calls, calls.last.now) + k
  {
    if k > 0 {
      PlacesTaken(s, expiry, run.before, calls, k - 1);
      OneMore(s, expiry, run.before, run.last);
    }
  }

  /** `remaining` is exactly the number of further calls at the same instant that are admitted
      before the first refusal. */
  lemma RemainingIsExact(s: Spec, expiry: Option<Boundary>, calls: Log<Call>, call: Call, run: Log<Call>, k: nat,
                         next: Call)
    requires Valid(s) && Proper(More(run, next)) && Proper(More(calls, call))
    requires Burst(run, More(calls, call), k) && next.now == call.now
    requires k <= ReplyAt(s, expiry, calls, call).remaining
    ensures ReplyAt(s, expiry, run, next).allowed <==> k < ReplyAt(s, expiry, calls, call).remaining
  {
    OneMore(s, expiry, calls, call);
    PlacesTaken(s, expiry, run, More(calls, call), k);
    OneMore(s, expiry, run, next);
  }

  lemma {:induction false} SinceUnchanged(history: Log<int>, cut: int, later: int, hi: int)
    requires cut <= later && Upto(history, hi)
    requires Since(history, cut).More? ==> later < First(Since(history, cut))
    ensures Since(history, later) == Since(history, cut)
  {
    if history.More? {
      SinceUpto(history.before, cut, history.last);
      SinceUnchanged(history.before, cut, later, history.last);
    }
  }

  lemma {:induction false} SinceShrinks(history: Log<int>, cut: int, later: int)
    requires cut <= later
    ensures Size(Since(history, later)) <= Size(Since(history, cut))
    ensures Since(history, cut).More? && First(Since(history, cut)) <= later
        ==> Size(Since(history, later)) < Size(Since(history, cut))
  {
    if history.More? {
      SinceShrinks(history.before, cut, later);
    }
  }

  /** A full window stays full until the hinted millisecond, and has room from then on. */
  lemma FullUntilHint(s: Spec, history: Log<int>, now: int, t: int)
    requires Valid(s) && Upto(history, now) && Size(Since(history, now - s.windowMs)) == s.limit
    requires now <= t
    ensures SpecReply(s, history, t).allowed <==> t >= now + SpecReply(s, history, now).retryMs
  {
    SinceUpto(history, now - s.windowMs, now);
    if t < now + SpecReply(s, history, now).retryMs {
      SinceUnchanged(history, now - s.windowMs, t - s.windowMs, now);
    } else {
      SinceShrinks(history, now - s.windowMs, t - s.windowMs);
    }
  }

  lemma FullWhenRefused(s: Spec, expiry: Option<Boundary>, calls: Log<Call>, call: Call)
    requires Valid(s) && Proper(More(calls, call)) && !ReplyAt(s, expiry, calls, call).allowed
    ensures Taken(s, expiry, calls, call.now) == s.limit && Upto(AdmittedBy(s, expiry, calls), call.now)
    ensures ReplyAt(s, expiry, calls, call) == SpecReply(s, AdmittedBy(s, expiry, calls), call.now)
  {
    RefinesHistory(s, expiry, calls, call);
    OneMore(s, expiry, calls, call);
  }

  /** `run` continues `calls` with calls before `until`. */
  predicate Polls(run: Log<Call>, calls: Log<Call>, until: int) {
    run == calls || (run.More? && run.last.now < until && Polls(run.before, calls, until))
  }

  lemma {:induction false} PollsComeLater(run: Log<Call>, calls: Log<Call>, until: int)
    requires Polls(run, calls, until) && Proper(run) && calls.More?
    ensures run.More? && calls.last.now <= run.last.now
  {
    if run != calls {
      PollsComeLater(run.before, calls, until);
    }
  }

  lemma {:induction false} PollsAddNothing(s: Spec, expiry: Option<Boundary>, calls: Log<Call>, call: Call,
                                           run: Log<Call>)
    requires Valid(s) && Proper(More(calls, call)) && !ReplyAt(s, expiry, calls, call).allowed
    requires Proper(run) && Polls(run, More(calls, call), call.now + ReplyAt(s, expiry, calls, call).retryMs)
    ensures AdmittedBy(s, expiry, run) == AdmittedBy(s, expiry, calls)
  {
    var until := call.now + ReplyAt(s, expiry, calls, call).retryMs;
    if run != More(calls, call) {
      PollsAddNothing(s, expiry, calls, call, run.before);
      PollsComeLater(run, More(calls, call), until);
      FullWhenRefused(s, expiry, calls, call);
      RefinesHistory(s, expiry, run.before, run.last);
      FullUntilHint(s, AdmittedBy(s, expiry, calls), call.now, run.last.now);
    }
  }

  /** After refused polls a call is answered from the history before them. */
  lemma PolledReply(s: Spec, expiry: Option<Boundary>, calls: Log<Call>, call: Call, run: Log<Call>, next: Call)
    requires Valid(s) && Proper(More(calls, call)) && !ReplyAt(s, expiry, calls, call).allowed
    requires Proper(More(run, next))
    requires Polls(run, More(calls, call), call.now + ReplyAt(s, expiry, calls, call).retryMs)
    ensures ReplyAt(s, expiry, run, next) == SpecReply(s, AdmittedBy(s, expiry, calls), next.now)
  {
    assert AdmittedBy(s, expiry, run) == AdmittedBy(s, expiry, calls) by {
      PollsAddNothing(s, expiry, calls, call, run);
    }
    RefinesHistory(s, expiry, run, next);
  }

  /** The hint is exact: with no competing admission every call before the hinted millisecond is
      refused, and a call at it or later is admitted, however many refused calls came before it. */
  lemma RetryHintIsExact(s: Spec, expiry: Option<Boundary>, calls: Log<Call>, call: Call, run: Log<Call>, next: Call)
    requires Valid(s) && Proper(More(calls, call)) && !ReplyAt(s, expiry, calls, call).allowed
    requires Proper(More(run, next))
             && Polls(run, More(calls, call), call.now + ReplyAt(s, expiry, calls, call).retryMs)
    ensures ReplyAt(s, expiry, run, next).allowed <==> next.now >= call.now + ReplyAt(s, expiry, calls, call).retryMs
  {
    FullWhenRefused(s, expiry, calls, call);
    PolledReply(s, expiry, calls, call, run, next);
    PollsComeLater(run, More(calls, call), call.now + ReplyAt(s, expiry, calls, call).retryMs);
    FullUntilHint(s, AdmittedBy(s, expiry, calls), call.now, next.now);
  }

  /** The hint is a proper wait, and rounded up to seconds it stays sufficient and adds less than
      one second. */
  lemma RoundedHint(s: Spec, expiry: Option<Boundary>, calls: Log<Call>, call: Call)
    requires Valid(s) && Proper(More(calls, call)) && !ReplyAt(s, expiry, calls, call).allowed
    ensures var reply := ReplyAt(s, expiry, calls, call);
            && 0 < reply.retryMs <= s.windowMs
            && reply.retryMs <= 1000 * ToResult(s.limit, reply).retryAfter < reply.retryMs + 1000
  {
    RefinesHistory(s, expiry, calls, call);
    SpecHint(s, AdmittedBy(s, expiry, calls), call.now);
  }

  lemma SpecHint(s: Spec, history: Log<int>, now: int)
    requires Valid(s) && Upto(history, now) && !SpecReply(s, history, now).allowed
    ensures 0 < SpecReply(s, history, now).retryMs <= s.windowMs
  {
    SinceUpto(history, now - s.windowMs, now);
  }

  // ---- What `check` returns ---------------------------------------------------------------------

  /** The result of a call that follows `calls` on a fresh key. */
  function ResultAt(rule: RateLimitSpec, b: Boundary, calls: Log<Call>, call: Call): RateLimitResult {
    Returned(rule, ReplyAt(SpecOf(rule), Some(b), calls, call))
  }

  /** The times of the calls whose result let them through. */
  function LetThrough(rule: RateLimitSpec, b: Boundary, calls: Log<Call>): Log<int> {
    match calls
    case Empty => Empty
    case More(before, call) =>
      if ResultAt(rule, b, before, call).allowed then More(LetThrough(rule, b, before), call.now)
      else LetThrough(rule, b, before)
  }

  /** The key after calls of `check` from a fresh key. */
  function KeyAfter(rule: RateLimitSpec, b: Boundary, calls: Log<Call>): Key {
    match calls
    case Empty => FRESH
    case More(before, call) => Checked(rule, Visible(b, KeyAfter(rule, b, before), call.now), call).0
  }

  /** That is what `check` returns, call after call. */
  lemma {:induction false} CheckReturns(rule: RateLimitSpec, b: Boundary, calls: Log<Call>, call: Call)
    ensures KeyAfter(rule, b, calls) == Run(SpecOf(rule), Some(b), calls).key
    ensures Checked(rule, Visible(b, KeyAfter(rule, b, calls), call.now), call).1 == ResultAt(rule, b, calls, call)
    decreases calls
  {
    if calls.More? {
      CheckReturns(rule, b, calls.before, calls.last);
    }
  }

  lemma {:induction false} LetIsAdmitted(rule: RateLimitSpec, b: Boundary, calls: Log<Call>)
    ensures LetThrough(rule, b, calls) == AdmittedBy(SpecOf(rule), Some(b), calls)
  {
    if calls.More? {
      LetIsAdmitted(rule, b, calls.before);
    }
  }

  lemma ResultIsReply(rule: RateLimitSpec, b: Boundary, calls: Log<Call>, call: Call)
    requires ValidSpec(rule) && Proper(More(calls, call))
    ensures var result, reply := ResultAt(rule, b, calls, call), ReplyAt(SpecOf(rule), Some(b), calls, call);
            && result.allowed == reply.allowed && result.remaining == reply.remaining && result.limit == rule.requests
            && (reply.allowed ==> result.retryAfter == 0)
            && (!reply.allowed ==> 0 < reply.retryMs <= 1000 * result.retryAfter < reply.retryMs + 1000)
  {
    ReplyIsReturned(rule, ReplyAt(SpecOf(rule), Some(b), calls, call));
    if !ReplyAt(SpecOf(rule), Some(b), calls, call).allowed {
      RoundedHint(SpecOf(rule), Some(b), calls, call);
    } else {
      RefinesHistory(SpecOf(rule), Some(b), calls, call);
    }
    TakenAtMost(SpecOf(rule), Some(b), calls, call);
  }

  lemma ReplyIsReturned(rule: RateLimitSpec, reply: Reply)
    ensures var result := Returned(rule, reply);
            && result.allowed == reply.allowed && result.limit == rule.requests
            && (0 <= reply.remaining ==> result.remaining == reply.remaining)
            && reply.retryMs <= 1000 * result.retryAfter
            && (0 <= reply.retryMs ==> 1000 * result.retryAfter < reply.retryMs + 1000)
  {
  }

  lemma TakenAtMost(s: Spec, expiry: Option<Boundary>, calls: Log<Call>, call: Call)
    requires Valid(s) && Proper(More(calls, call))
    ensures 0 <= ReplyAt(s, expiry, calls, call).remaining
  {
    RefinesHistory(s, expiry, calls, call);
  }

  /** Fewer calls than the rule's number of requests lie in the rule's window that ends with `now`. */
  predicate RoomByRule(rule: RateLimitSpec, history: Log<int>, now: int) {
    CountIn(history, now - 1000 * rule.windowSeconds + 1, now + 1) < rule.requests
  }

  /** A call of `check` is let through if and only if fewer than the rule's number of requests were let
      through in the rule's window that ends with it. */
  lemma CheckAllowsIff(rule: RateLimitSpec, b: Boundary, calls: Log<Call>, call: Call)
    requires ValidSpec(rule) && Proper(More(calls, call))
    ensures ResultAt(rule, b, calls, call).allowed <==> RoomByRule(rule, LetThrough(rule, b, calls), call.now)
  {
    AllowedIffRoom(rule, b, calls, call);
    WindowByRule(rule, LetThrough(rule, b, calls), call.now);
  }

  lemma AllowedIffRoom(rule: RateLimitSpec, b: Boundary, calls: Log<Call>, call: Call)
    requires ValidSpec(rule) && Proper(More(calls, call))
    ensures ResultAt(rule, b, calls, call).allowed
       <==> WindowHasRoom(SpecOf(rule), LetThrough(rule, b, calls), call.now)
  {
    var s := SpecOf(rule);
    assert ResultAt(rule, b, calls, call).allowed == ReplyAt(s, Some(b), calls, call).allowed by {
      ResultIsReply(rule, b, calls, call);
    }
    assert ReplyAt(s, Some(b), calls, call).allowed <==> WindowHasRoom(s, AdmittedBy(s, Some(b), calls), call.now) by {
      AdmittedIffWindowHasRoom(s, Some(b), calls, call);
    }
    LetIsAdmitted(rule, b, calls);
  }

  lemma WindowByRule(rule: RateLimitSpec, history: Log<int>, now: int)
    ensures WindowHasRoom(SpecOf(rule), history, now) <==> RoomByRule(rule, history, now)
  {
  }

  /** No span as long as the rule's window holds more calls let through than the rule's number of requests. */
  lemma CheckKeepsWindow(rule: RateLimitSpec, b: Boundary, calls: Log<Call>, from: int)
    requires ValidSpec(rule) && Proper(calls)
    ensures CountIn(LetThrough(rule, b, calls), from, from + 1000 * rule.windowSeconds) <= rule.requests
  {
    LetIsAdmitted(rule, b, calls);
    WindowLaw(SpecOf(rule), Some(b), calls, from);
  }

  /** The limit reported is the rule's, and `remaining` the exact number of further calls that would be let
      through at once. */
  lemma CheckRemaining(rule: RateLimitSpec, b: Boundary, calls: Log<Call>, call: Call, run: Log<Call>, k: nat,
                       next: Call)
    requires ValidSpec(rule) && Proper(More(run, next)) && Proper(More(calls, call))
    requires Burst(run, More(calls, call), k) && next.now == call.now
    ensures var result := ResultAt(rule, b, calls, call);
            && result.limit == rule.requests && 0 <= result.remaining
            && (k <= result.remaining ==> (ResultAt(rule, b, run, next).allowed <==> k < result.remaining))
  {
    ResultIsReply(rule, b, calls, call);
    ResultIsReply(rule, b, run, next);
    TakenAtMost(SpecOf(rule), Some(b), calls, call);
    if k <= ResultAt(rule, b, calls, call).remaining {
      RemainingIsExact(SpecOf(rule), Some(b), calls, call, run, k, next);
    }
  }

  /** After a refusal so many whole seconds are the least that is enough to wait. */
  predicate ExactWait(refusedAt: int, wait: int, at: int, allowed: bool) {
    && (at <= refusedAt + 1000 * (wait - 1) ==> !allowed)
    && (refusedAt + 1000 * wait <= at ==> allowed)
  }

  lemma HintIsExactWait(refusedAt: int, ms: int, wait: int, at: int, allowed: bool)
    requires ms <= 1000 * wait < ms + 1000 && (allowed <==> at >= refusedAt + ms)
    ensures ExactWait(refusedAt, wait, at, allowed)
  {
  }

  /** `retry_after` is 0 for a call that was let through. After a refusal it is the least number of whole
      seconds that is enough to wait: of polls up to a second before it none is let through, and any call
      from then on is. */
  lemma CheckRetryAfter(rule: RateLimitSpec, b: Boundary, calls: Log<Call>, call: Call)
    requires ValidSpec(rule) && Proper(More(calls, call))
    ensures ResultAt(rule, b, calls, call).allowed <==> ResultAt(rule, b, calls, call).retryAfter == 0
  {
    HintInSeconds(rule, b, calls, call);
  }

  lemma CheckWaitIsExact(rule: RateLimitSpec, b: Boundary, calls: Log<Call>, call: Call, run: Log<Call>, next: Call,
                         refusal: RateLimitResult)
    requires ValidSpec(rule) && Proper(More(calls, call)) && Proper(More(run, next))
    requires refusal == ResultAt(rule, b, calls, call) && !refusal.allowed
    requires Polls(run, More(calls, call), call.now + 1000 * (refusal.retryAfter - 1) + 1)
    ensures ExactWait(call.now, refusal.retryAfter, next.now, ResultAt(rule, b, run, next).allowed)
  {
    HintInSeconds(rule, b, calls, call);
    RoundedWaitIsExact(rule, b, calls, call, run, next, refusal.retryAfter);
  }

  lemma RoundedWaitIsExact(rule: RateLimitSpec, b: Boundary, calls: Log<Call>, call: Call, run: Log<Call>, next: Call,
                           wait: int)
    requires ValidSpec(rule) && Proper(More(calls, call)) && Proper(More(run, next))
    requires !ResultAt(rule, b, calls, call).allowed
    requires var ms := ReplyAt(SpecOf(rule), Some(b), calls, call).retryMs; ms <= 1000 * wait < ms + 1000
    requires Polls(run, More(calls, call), call.now + 1000 * (wait - 1) + 1)
    ensures ExactWait(call.now, wait, next.now, ResultAt(rule, b, run, next).allowed)
  {
    var ms := ReplyAt(SpecOf(rule), Some(b), calls, call).retryMs;
    AllowedFromHint(rule, b, calls, call, run, next, call.now + 1000 * (wait - 1) + 1);
    HintIsExactWait(call.now, ms, wait, next.now, ResultAt(rule, b, run, next).allowed);
  }

  lemma HintInSeconds(rule: RateLimitSpec, b: Boundary, calls: Log<Call>, call: Call)
    requires ValidSpec(rule) && Proper(More(calls, call))
    ensures var wait := ResultAt(rule, b, calls, call).retryAfter;
            var ms := ReplyAt(SpecOf(rule), Some(b), calls, call).retryMs;
            && (ResultAt(rule, b, calls, call).allowed <==> wait == 0)
            && (wait != 0 ==> 0 < ms <= 1000 * wait < ms + 1000)
  {
    ResultIsReply(rule, b, calls, call);
  }

  lemma AllowedFromHint(rule: RateLimitSpec, b: Boundary, calls: Log<Call>, call: Call, run: Log<Call>, next: Call,
                        until: int)
    requires ValidSpec(rule) && Proper(More(calls, call)) && Proper(More(run, next))
    requires !ResultAt(rule, b, calls, call).allowed && Polls(run, More(calls, call), until)
    requires until <= call.now + ReplyAt(SpecOf(rule), Some(b), calls, call).retryMs
    ensures ResultAt(rule, b, run, next).allowed
       <==> next.now >= call.now + ReplyAt(SpecOf(rule), Some(b), calls, call).retryMs
  {
    var hint := call.now + ReplyAt(SpecOf(rule), Some(b), calls, call).retryMs;
    assert !ReplyAt(SpecOf(rule), Some(b), calls, call).allowed by {
      ResultIsReply(rule, b, calls, call);
    }
    PollsWithin(run, More(calls, call), until, hint);
    RetryHintIsExact(SpecOf(rule), Some(b), calls, call, run, next);
    ResultIsReply(rule, b, run, next);
  }

  lemma {:induction false} PollsWithin(run: Log<Call>, calls: Log<Call>, until: int, later: int)
    requires Polls(run, calls, until) && until <= later
    ensures Polls(run, calls, later)
  {
    if run != calls {
      PollsWithin(run.before, calls, until, later);
    }
  }
}
