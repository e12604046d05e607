/** Gateway traffic as it is written down. Every served call is recorded by three writes in one
    transaction: a request-log row, a per-key and per-day usage counter, and an outbox event. APIs
    and keys come and go meanwhile; deleting an API deletes its keys and their usage rows, but not
    the log. */
module Ledger {
  import opened Logs
  import opened Sums
  import Rollup

  type OrgId = Rollup.OrgId
  type ApiId = Rollup.ApiId
  type KeyId = nat
  type SessionId = nat

  datatype Api = Api(org: OrgId, active: bool)

  datatype ApiKey = ApiKey(api: ApiId, org: OrgId)

  /** What `handle` returns about a served call, and the day of its timestamp. */
  datatype Outcome = Outcome(key: KeyId, request: Rollup.Request, day: int)

  datatype UsageKey = UsageKey(key: KeyId, day: int)

  datatype Count = Count(requests: int, errors: int)

  datatype Event = RequestLogEvent(outcome: Outcome) | AuditLogEvent

  /** The committed tables that recording writes to. */
  datatype Db = Db(log: Log<Outcome>, usage: map<UsageKey, Count>, outbox: Log<Event>)

  /** The three writes of `record`, in the code's order. */
  datatype Change = AddLogRow | BumpUsage | AddEvent

  const RECORD := [AddLogRow, BumpUsage, AddEvent]

  /** A request's session: what it records, and the changes that only it sees so far. */
  datatype Session = Session(outcome: Outcome, pending: seq<Change>)

  /** `owners` and `usedKeys` remember all APIs and keys there ever were. */
  datatype State = State(
    apis: map<ApiId, Api>, keys: map<KeyId, ApiKey>, db: Db,
    sessions: map<SessionId, Session>, owners: map<ApiId, OrgId>, usedKeys: set<KeyId>)

  const START := State(map[], map[], Db(Empty, map[], Empty), map[], map[], {})

  // ---- Recording -------------------------------------------------------------------------------

  function Increment(usage: map<UsageKey, Count>, k: UsageKey, isError: bool): map<UsageKey, Count> {
    var prior := if k in usage then usage[k] else Count(0, 0);
    usage[k := Count(prior.requests + 1, prior.errors + if isError then 1 else 0)]
  }

  function Recorded(db: Db, o: Outcome): Db {
    Db(More(db.log, o), Increment(db.usage, UsageKey(o.key, o.day), Rollup.IsError(o.request)),
       More(db.outbox, RequestLogEvent(o)))
  }

  function Made(db: Db, o: Outcome, change: Change): Db {
    match change
    case AddLogRow => db.(log := More(db.log, o))
    case BumpUsage => db.(usage := Increment(db.usage, UsageKey(o.key, o.day), Rollup.IsError(o.request)))
    case AddEvent => db.(outbox := More(db.outbox, RequestLogEvent(o)))
  }

  /** The tables with the pending changes of a session made. */
  function Flushed(db: Db, o: Outcome, pending: seq<Change>): Db {
    if pending == [] then db else Made(Flushed(db, o, pending[..|pending| - 1]), o, pending[|pending| - 1])
  }

  /** A session that has made all its writes commits the record of its call, and nothing else. */
  lemma FullRecord(db: Db, o: Outcome)
    ensures Flushed(db, o, RECORD) == Recorded(db, o)
  {
    assert RECORD[..2] == [AddLogRow, BumpUsage] && RECORD[..2][..1] == [AddLogRow];
    assert Flushed(db, o, []) == db;
    assert Flushed(db, o, [AddLogRow]) == Made(db, o, AddLogRow);
    assert Flushed(db, o, RECORD[..2]) == Made(Flushed(db, o, [AddLogRow]), o, BumpUsage);
  }

  /** The writes of one session as the code makes them. */
  class Recorder {
    var log: Log<Outcome>
    var usage: map<UsageKey, Count>
    var outbox: Log<Event>

    constructor (db: Db)
      ensures Db(log, usage, outbox) == db
    {
      log, usage, outbox := db.log, db.usage, db.outbox;
    }

    /** INSERT ... ON CONFLICT DO UPDATE */
    method Upsert(key: KeyId, day: int, isError: bool)
      modifies `usage
      ensures usage == Increment(old(usage), UsageKey(key, day), isError)
    {
      var k := UsageKey(key, day);
      if k !in usage {
        usage := usage[k := Count(1, if isError then 1 else 0)];
      } else {
        usage := usage[k := Count(usage[k].requests + 1, usage[k].errors + if isError then 1 else 0)];
      }
    }

    method Record(o: Outcome)
      modifies this
      ensures Db(log, usage, outbox) == Recorded(old(Db(log, usage, outbox)), o)
    {
      log := More(log, o);
      Upsert(o.key, o.day, o.request.status >= 500);
      outbox := More(outbox, RequestLogEvent(o));
    }
  }

  // ---- Steps -----------------------------------------------------------------------------------

  datatype Step =
    | CreateApi(org: OrgId, api: ApiId)
    | UpdateApi(org: OrgId, api: ApiId, active: bool)
    | DeleteApi(org: OrgId, api: ApiId)
    | CreateKey(org: OrgId, api: ApiId, key: KeyId)
    | Handle(session: SessionId, outcome: Outcome)
    | Write(session: SessionId, change: Change)
    | Commit(session: SessionId)
    | Rollback(session: SessionId)
    | Audit

  /** `get_api`: the API exists in the organization. */
  predicate InOrg(st: State, org: OrgId, api: ApiId) { api in st.apis && st.apis[api].org == org }

  /** The outcome names the key, the key's API and the key's own organization. */
  predicate OutcomeOf(st: State, o: Outcome) {
    && o.key in st.keys
    && o.request.api == st.keys[o.key].api
    && o.request.org == st.keys[o.key].org
    && o.request.api in st.apis && st.apis[o.request.api].active
  }

  /** Ids are fresh; a session commits once all three writes are done and its key still exists (the
      usage row refers to it). */
  predicate Enabled(st: State, step: Step) {
    match step
    case CreateApi(_, api) => api !in st.owners
    case UpdateApi(org, api, _) => InOrg(st, org, api)
    case DeleteApi(org, api) => InOrg(st, org, api)
    case CreateKey(org, api, key) => InOrg(st, org, api) && key !in st.usedKeys
    case Handle(session, o) => session !in st.sessions && OutcomeOf(st, o)
    case Write(session, change) => session in st.sessions && st.sessions[session].pending + [change] <= RECORD
    case Commit(session) =>
      session in st.sessions && st.sessions[session].pending == RECORD && st.sessions[session].outcome.key in st.keys
    case Rollback(session) => session in st.sessions
    case Audit => true
  }

  function Cascade(usage: map<UsageKey, Count>, keys: map<KeyId, ApiKey>): map<UsageKey, Count> {
    map k | k in usage && k.key in keys :: usage[k]
  }

  function Apply(st: State, step: Step): State
    requires Enabled(st, step)
  {
    match step
    case CreateApi(org, api) => st.(apis := st.apis[api := Api(org, true)], owners := st.owners[api := org])
    case UpdateApi(_, api, active) => st.(apis := st.apis[api := st.apis[api].(active := active)])
    case DeleteApi(_, api) =>
      var keys := map k | k in st.keys && st.keys[k].api != api :: st.keys[k];
      st.(apis := st.apis - {api}, keys := keys, db := st.db.(usage := Cascade(st.db.usage, keys)))
    case CreateKey(org, api, key) =>
      st.(keys := st.keys[key := ApiKey(api, org)], usedKeys := st.usedKeys + {key})
    case Handle(session, o) => st.(sessions := st.sessions[session := Session(o, [])])
    case Write(session, change) =>
      var s := st.sessions[session];
      st.(sessions := st.sessions[session := Session(s.outcome, s.pending + [change])])
    case Commit(session) =>
      var s := st.sessions[session];
      st.(db := Flushed(st.db, s.outcome, s.pending), sessions := st.sessions - {session})
    case Rollback(session) => st.(sessions := st.sessions - {session})
    case Audit => st.(db := st.db.(outbox := More(st.db.outbox, AuditLogEvent)))
  }

  function Run(steps: Log<Step>): State {
    match steps
    case Empty => START
    case More(before, step) =>
      var st := Run(before);
      if Enabled(st, step) then Apply(st, step) else st
  }

  // ---- Every logged organization owns the logged API -------------------------------------------

  predicate Owned(owners: map<ApiId, OrgId>, r: Rollup.Request) { r.api in owners && owners[r.api] == r.org }

  predicate AllOwned(owners: map<ApiId, OrgId>, log: Log<Outcome>) {
    log.More? ==> Owned(owners, log.last.request) && AllOwned(owners, log.before)
  }

  ghost predicate Tenancy(st: State) {
    && (forall a | a in st.apis :: a in st.owners && st.owners[a] == st.apis[a].org)
    && (forall k | k in st.keys :: k in st.usedKeys && InOrg(st, st.keys[k].org, st.keys[k].api))
    && (forall s | s in st.sessions ::
          Owned(st.owners, st.sessions[s].outcome.request) && st.sessions[s].outcome.key in st.usedKeys)
    && AllOwned(st.owners, st.db.log)
  }

  lemma {:induction false} MoreOwners(owners: map<ApiId, OrgId>, log: Log<Outcome>, api: ApiId, org: OrgId)
    requires AllOwned(owners, log) && api !in owners
    ensures AllOwned(owners[api := org], log)
  {
    if log.More? {
      MoreOwners(owners, log.before, api, org);
    }
  }

  lemma StepKeepsTenancy(st: State, step: Step)
    requires Tenancy(st) && Enabled(st, step)
    ensures Tenancy(Apply(st, step))
  {
    if step.Commit? {
      FullRecord(st.db, st.sessions[step.session].outcome);
    } else if step.CreateApi? {
      MoreOwners(st.owners, st.db.log, step.api, step.org);
    }
  }

  lemma {:induction false} RunTenancy(steps: Log<Step>)
    ensures Tenancy(Run(steps))
  {
    if steps.More? {
      RunTenancy(steps.before);
      if Enabled(Run(steps.before), steps.last) {
        StepKeepsTenancy(Run(steps.before), steps.last);
      }
    }
  }

  /** The log as the rollup reads it. */
  function Requests(log: Log<Outcome>): Log<Rollup.Request> {
    match log
    case Empty => Empty
    case More(before, o) => More(Requests(before), o.request)
  }

  lemma {:induction false} PresentIsOwned(owners: map<ApiId, OrgId>, log: Log<Outcome>, k: Rollup.Key)
    requires AllOwned(owners, log) && Rollup.Present(Requests(log), k)
    ensures k.api in owners && owners[k.api] == k.org
  {
    if !Rollup.Matches(log.last.request, k) {
      PresentIsOwned(owners, log.before, k);
    }
  }

  /** Over every run of API and key changes and gateway traffic, grouping the log by organization and
      API is grouping by API: rolling up any day keeps the table's (api, day) pairs unique, and
      the rollup task never raises. */
  lemma RollupNeverConflicts(steps: Log<Step>, table: Rollup.Table, after: Rollup.Table, day: int)
    requires Rollup.UniqueRows(table) && Rollup.IsRollup(table, after, Requests(Run(steps).db.log), day)
    ensures Rollup.OneOwner(Requests(Run(steps).db.log), day) && Rollup.UniqueRows(after)
  {
    RunTenancy(steps);
    var st := Run(steps);
    forall k, l | Rollup.Present(Requests(st.db.log), k) && Rollup.Present(Requests(st.db.log), l)
                  && k.api == l.api && k.day == l.day == day
      ensures k.org == l.org
    {
      PresentIsOwned(st.owners, st.db.log, k);
      PresentIsOwned(st.owners, st.db.log, l);
    }
    Rollup.UniqueIffOneOwner(table, after, Requests(st.db.log), day);
  }

  // ---- Usage counters agree with the log and the outbox ----------------------------------------

  function RowsOf(log: Log<Outcome>, key: KeyId, errorsOnly: bool): nat {
    match log
    case Empty => 0
    case More(before, o) =>
      RowsOf(before, key, errorsOnly) + if o.key == key && (errorsOnly ==> o.request.status >= 500) then 1 else 0
  }

  function EventsOf(outbox: Log<Event>, key: KeyId): nat {
    match outbox
    case Empty => 0
    case More(before, e) => EventsOf(before, key) + if e.RequestLogEvent? && e.outcome.key == key then 1 else 0
  }

  function RequestColumn(usage: map<UsageKey, Count>): map<UsageKey, int> { map k | k in usage :: usage[k].requests }

  function ErrorColumn(usage: map<UsageKey, Count>): map<UsageKey, int> { map k | k in usage :: usage[k].errors }

  function OfKey(key: KeyId): UsageKey -> bool { (k: UsageKey) => k.key == key }

  ghost predicate Counted(db: Db, key: KeyId) {
    && Sum(RequestColumn(db.usage), OfKey(key)) == RowsOf(db.log, key, false)
    && Sum(ErrorColumn(db.usage), OfKey(key)) == RowsOf(db.log, key, true)
    && EventsOf(db.outbox, key) == RowsOf(db.log, key, false)
  }

  /** Every key there is has been counted, and keys there never were have left no trace. */
  ghost predicate Counts(st: State) {
    && (forall key | key in st.keys :: Counted(st.db, key))
    && (forall key | key !in st.usedKeys :: Counted(st.db, key) && RowsOf(st.db.log, key, false) == 0)
  }

  lemma RecordedCounts(db: Db, o: Outcome, key: KeyId)
    requires Counted(db, key)
    ensures Counted(Recorded(db, o), key)
  {
    var k, after := UsageKey(o.key, o.day), Recorded(db, o);
    SumWrite(RequestColumn(db.usage), OfKey(key), k, after.usage[k].requests);
    SumWrite(ErrorColumn(db.usage), OfKey(key), k, after.usage[k].errors);
    assert RequestColumn(after.usage) == RequestColumn(db.usage)[k := after.usage[k].requests];
    assert ErrorColumn(after.usage) == ErrorColumn(db.usage)[k := after.usage[k].errors];
  }

  lemma CascadeCounts(db: Db, keys: map<KeyId, ApiKey>, key: KeyId)
    requires key in keys && Counted(db, key)
    ensures Counted(db.(usage := Cascade(db.usage, keys)), key)
  {
    var after := Cascade(db.usage, keys);
    SumAgree(RequestColumn(db.usage), RequestColumn(after), OfKey(key));
    SumAgree(ErrorColumn(db.usage), ErrorColumn(after), OfKey(key));
  }

  lemma CascadeOfUnused(db: Db, keys: map<KeyId, ApiKey>, key: KeyId)
    requires Counted(db, key) && (forall k | k in db.usage :: k.key != key)
    ensures Counted(db.(usage := Cascade(db.usage, keys)), key)
  {
    var after := Cascade(db.usage, keys);
    SumAgree(RequestColumn(db.usage), RequestColumn(after), OfKey(key));
    SumAgree(ErrorColumn(db.usage), ErrorColumn(after), OfKey(key));
  }

  /** Usage rows refer to keys there have been. */
  ghost predicate UsageKnown(st: State) { forall k | k in st.db.usage :: k.key in st.usedKeys }

  lemma StepKeepsCounts(st: State, step: Step)
    requires Tenancy(st) && UsageKnown(st) && Counts(st) && Enabled(st, step)
    ensures UsageKnown(Apply(st, step)) && Counts(Apply(st, step))
  {
    var after := Apply(st, step);
    if step.Commit? {
      FullRecord(st.db, st.sessions[step.session].outcome);
    }
    forall key | key in after.keys || key !in after.usedKeys
      ensures Counted(after.db, key)
      ensures key !in after.usedKeys ==> RowsOf(after.db.log, key, false) == 0
    {
      assert Counted(st.db, key);
      if step.Commit? {
        RecordedCounts(st.db, st.sessions[step.session].outcome, key);
      } else if step.DeleteApi? {
        if key in after.keys {
          CascadeCounts(st.db, after.keys, key);
        } else {
          CascadeOfUnused(st.db, after.keys, key);
        }
      }
    }
  }

  lemma {:induction false} RunCounts(steps: Log<Step>)
    ensures UsageKnown(Run(steps)) && Counts(Run(steps))
  {
    if steps.More? {
      RunCounts(steps.before);
      RunTenancy(steps.before);
      if Enabled(Run(steps.before), steps.last) {
        StepKeepsCounts(Run(steps.before), steps.last);
      }
    }
  }

  /** In every committed state, for each key that still exists: its request count summed over days is
      its number of log rows and its number of request-log events in the outbox, and its summed error
      count is its number of rows with status at least 500; whatever was rolled back in between. */
  lemma UsageMatchesLog(steps: Log<Step>, key: KeyId)
    requires key in Run(steps).keys
    ensures var db := Run(steps).db;
            && Sum(RequestColumn(db.usage), OfKey(key)) == RowsOf(db.log, key, false) == EventsOf(db.outbox, key)
            && Sum(ErrorColumn(db.usage), OfKey(key)) == RowsOf(db.log, key, true)
  {
    RunCounts(steps);
    assert Counted(Run(steps).db, key);
  }

  // ---- Day by day ------------------------------------------------------------------------------

  /** The rows of one key and day, or those of them with status at least 500. */
  function RowsOn(log: Log<Outcome>, key: KeyId, day: int, errorsOnly: bool): nat {
    match log
    case Empty => 0
    case More(before, o) =>
      RowsOn(before, key, day, errorsOnly)
      + if o.key == key && o.day == day && (errorsOnly ==> o.request.status >= 500) then 1 else 0
  }

  /** The usage row of a key and day counts its rows of the log, and there is none without any. */
  ghost predicate CountedOn(db: Db, key: KeyId, day: int) {
    if RowsOn(db.log, key, day, false) == 0 then UsageKey(key, day) !in db.usage
    else
      && UsageKey(key, day) in db.usage
      && db.usage[UsageKey(key, day)] == Count(RowsOn(db.log, key, day, false), RowsOn(db.log, key, day, true))
  }

  lemma {:induction false} ErrorsAreRows(log: Log<Outcome>, key: KeyId, day: int)
    ensures RowsOn(log, key, day, true) <= RowsOn(log, key, day, false)
  {
    if log.More? {
      ErrorsAreRows(log.before, key, day);
    }
  }

  lemma RecordedOn(db: Db, o: Outcome, key: KeyId, day: int)
    requires CountedOn(db, key, day)
    ensures CountedOn(Recorded(db, o), key, day)
  {
    ErrorsAreRows(db.log, key, day);
  }

  /** Every key there is has been counted day by day, and other keys have no usage rows: neither those that
      there never were, nor those that are gone with their API. */
  ghost predicate CountsByDay(st: State) {
    && (forall k | k in st.db.usage :: k.key in st.keys)
    && (forall key, day | key in st.keys || key !in st.usedKeys :: CountedOn(st.db, key, day))
  }

  lemma StepKeepsDays(st: State, step: Step)
    requires Tenancy(st) && CountsByDay(st) && Enabled(st, step)
    ensures CountsByDay(Apply(st, step))
  {
    var after := Apply(st, step);
    if step.Commit? {
      FullRecord(st.db, st.sessions[step.session].outcome);
    }
    forall key, day | key in after.keys || key !in after.usedKeys
      ensures CountedOn(after.db, key, day)
    {
      assert CountedOn(st.db, key, day);
      if step.Commit? {
        RecordedOn(st.db, st.sessions[step.session].outcome, key, day);
      }
    }
  }

  /** In every committed state, for each key that still exists and each day: its usage row has the number of
      its log rows of that day, and of those with status at least 500; and there are no other usage rows. */
  lemma {:induction false} UsageByDay(steps: Log<Step>)
    ensures var st := Run(steps);
            && (forall k | k in st.db.usage :: k.key in st.keys)
            && (forall key, day | key in st.keys :: CountedOn(st.db, key, day))
    ensures CountsByDay(Run(steps))
  {
    if steps.More? {
      UsageByDay(steps.before);
      RunTenancy(steps.before);
      if Enabled(Run(steps.before), steps.last) {
        StepKeepsDays(Run(steps.before), steps.last);
      }
    }
  }

  // ---- One call --------------------------------------------------------------------------------

  /** A call is handled and its session writes so much of the record. */
  function Recording(steps: Log<Step>, session: SessionId, o: Outcome, written: nat): Log<Step>
    requires written <= 3
  {
    if written == 0 then More(steps, Handle(session, o))
    else
      More(Recording(steps, session, o, written - 1),
           Write(session, RECORD[written - 1]))
  }

  /** Until the commit only the session has changed. */
  lemma {:induction false} RecordingIsPending(steps: Log<Step>, session: SessionId, o: Outcome, written: nat)
    requires written <= 3 && session !in Run(steps).sessions && OutcomeOf(Run(steps), o)
    ensures var st := Run(steps);
            Run(Recording(steps, session, o, written))
            == st.(sessions := st.sessions[session := Session(o, RECORD[..written])])
  {
    if written > 0 {
      RecordingIsPending(steps, session, o, written - 1);
      OneWriteMore(Run(steps), session, o, written - 1);
    }
  }

  lemma OneWriteMore(st: State, session: SessionId, o: Outcome, written: nat)
    requires written < 3
    ensures var pending := st.(sessions := st.sessions[session := Session(o, RECORD[..written])]);
            var step := Write(session, RECORD[written]);
            && Enabled(pending, step)
            && Apply(pending, step) == st.(sessions := st.sessions[session := Session(o, RECORD[..written + 1])])
  {
    assert RECORD[..written + 1] == RECORD[..written] + [RECORD[written]];
  }

  /** A call that is rolled back leaves nothing, however far its writes have got. */
  lemma RolledBackLeavesNothing(steps: Log<Step>, session: SessionId, o: Outcome, written: nat)
    requires written <= 3 && session !in Run(steps).sessions && OutcomeOf(Run(steps), o)
    ensures Run(More(Recording(steps, session, o, written), Rollback(session))) == Run(steps)
  {
    RecordingIsPending(steps, session, o, written);
    assert Run(steps).sessions[session := Session(o, RECORD[..written])] - {session} == Run(steps).sessions;
  }

  /** When all writes are made and it commits, it leaves one log row, one event, and one request more in the
      usage row of its key and day, and one error more if its status is at least 500; and nothing else. */
  lemma CommittedOnce(steps: Log<Step>, session: SessionId, o: Outcome)
    requires session !in Run(steps).sessions && OutcomeOf(Run(steps), o)
    ensures var st, after := Run(steps), Run(More(Recording(steps, session, o, 3), Commit(session)));
            var k := UsageKey(o.key, o.day);
            var prior := if k in st.db.usage then st.db.usage[k] else Count(0, 0);
            && after == st.(db := after.db)
            && after.db.log == More(st.db.log, o) && after.db.outbox == More(st.db.outbox, RequestLogEvent(o))
            && after.db.usage
               == st.db.usage[k := Count(prior.requests + 1, prior.errors + if o.request.status >= 500 then 1 else 0)]
  {
    var st := Run(steps);
    RecordingIsPending(steps, session, o, 3);
    assert RECORD[..3] == RECORD;
    FullRecord(st.db, o);
    assert st.sessions[session := Session(o, RECORD)] - {session} == st.sessions;
  }

  /** A new key serves calls while its API is active, which it is at first, and is gone with it. */
  lemma KeyServesWhileActive(steps: Log<Step>, org: OrgId, api: ApiId, key: KeyId, active: bool, o: Outcome)
    requires api !in Run(steps).owners && key !in Run(steps).usedKeys
    requires o.key == key && o.request.api == api && o.request.org == org
    ensures var created := More(More(steps, CreateApi(org, api)), CreateKey(org, api, key));
            && OutcomeOf(Run(created), o) && Run(created).db == Run(steps).db
            && (OutcomeOf(Run(More(created, UpdateApi(org, api, active))), o) <==> active)
            && !OutcomeOf(Run(More(created, DeleteApi(org, api))), o)
            && Run(More(created, DeleteApi(org, api))).apis == Run(steps).apis - {api}
  {
    KeyCreated(steps, org, api, key);
  }

  lemma KeyCreated(steps: Log<Step>, org: OrgId, api: ApiId, key: KeyId)
    requires api !in Run(steps).owners && key !in Run(steps).usedKeys
    ensures var st := Run(More(More(steps, CreateApi(org, api)), CreateKey(org, api, key)));
            && st.db == Run(steps).db && InOrg(st, org, api) && st.apis[api].active
            && key in st.keys && st.keys[key] == ApiKey(api, org)
  {
    assert InOrg(Run(More(steps, CreateApi(org, api))), org, api);
  }
}
