/** The transactional outbox. Several workers drain it, each in one transaction of up to 50 batches;
    rows are picked with FOR UPDATE SKIP LOCKED, handed to a sink that may fail, and stamped; a
    transaction ends by commit or by rollback, and only a commit leaves anything in the table. */
module Outbox {
  import opened Numbers
  import opened Logs
  import opened Sets

  const BATCH := 200
  const ROUNDS := 50

  type RowId = nat
  type TxId = nat

  /** A committed row. Rows that are not published are pending. */
  datatype Row = Row(createdAt: int, published: bool, attempts: nat)

  datatype Status = Draining | Drained | Failing

  /** A worker's transaction: the rows it has locked (and handed to the sink), those of them it has
      stamped, and its completed batches. */
  datatype Tx = Tx(locked: set<RowId>, stamped: set<RowId>, batches: nat, status: Status)

  /** `handed` lists the batches handed to the sink, oldest first, and `accepted` those of them that it
      took; `committed` and `rolledBack` remember what the transactions that ended had handed over, and
      `undone` what the sink had taken from those that were rolled back. */
  datatype State = State(
    rows: map<RowId, Row>,
    open: map<TxId, Tx>,
    handed: Log<set<RowId>>,
    accepted: Log<set<RowId>>,
    committed: map<TxId, set<RowId>>,
    rolledBack: map<TxId, set<RowId>>,
    undone: map<TxId, set<RowId>>)

  const START := State(map[], map[], Empty, Empty, map[], map[], map[])

  datatype Step =
    | Insert(row: RowId, createdAt: int)
    | Begin(tx: TxId)
    | Batch(tx: TxId, size: nat, picked: set<RowId>, sinkOk: bool)
    | Commit(tx: TxId)
    | Rollback(tx: TxId)

  /** What the select of `tx` can return: rows pending in its own view that no other open
      transaction has locked. */
  function Available(st: State, tx: TxId): set<RowId>
    requires tx in st.open
  {
    set r | r in st.rows && !st.rows[r].published && r !in st.open[tx].stamped
            && forall other | other in st.open && other != tx :: r !in st.open[other].locked
  }

  /** Part of the rows, and no row of the rest is older. */
  ghost predicate OldestOf(rows: map<RowId, Row>, part: set<RowId>, all: set<RowId>) {
    part <= all && forall r, s {:trigger AsOld(rows, r, s)} | r in part && s in all - part :: AsOld(rows, r, s)
  }

  predicate AsOld(rows: map<RowId, Row>, r: RowId, s: RowId) {
    r in rows && s in rows && rows[r].createdAt <= rows[s].createdAt
  }

  /** The select returns a full batch if it can, oldest rows first. */
  ghost predicate Selects(st: State, tx: TxId, size: nat, picked: set<RowId>)
    requires tx in st.open
  {
    OldestOf(st.rows, picked, Available(st, tx)) && |picked| == Min(size, |Available(st, tx)|)
  }

  ghost predicate Enabled(st: State, step: Step) {
    match step
    case Insert(row, _) => row !in st.rows
    case Begin(tx) => tx !in st.open && tx !in st.committed && tx !in st.rolledBack
    case Batch(tx, size, picked, _) => tx in st.open && st.open[tx].status.Draining? && Selects(st, tx, size, picked)
    case Commit(tx) => tx in st.open && st.open[tx].status.Drained?
    case Rollback(tx) => tx in st.open
  }

  /** Select, deliver, stamp; or, when the sink fails, nothing more in this transaction. */
  function DrainBatch(t: Tx, picked: set<RowId>, sinkOk: bool): Tx {
    if picked == {} then t.(status := Drained)
    else if !sinkOk then t.(locked := t.locked + picked, status := Failing)
    else Tx(t.locked + picked, t.stamped + picked, t.batches + 1,
            if t.batches + 1 == ROUNDS then Drained else Draining)
  }

  function Publish(rows: map<RowId, Row>, stamped: set<RowId>): map<RowId, Row> {
    map r | r in rows :: if r in stamped then Row(rows[r].createdAt, true, rows[r].attempts + 1) else rows[r]
  }

  function Apply(st: State, step: Step): State
    requires Enabled(st, step)
  {
    match step
    case Insert(row, createdAt) => st.(rows := st.rows[row := Row(createdAt, false, 0)])
    case Begin(tx) => st.(open := st.open[tx := Tx({}, {}, 0, Draining)])
    case Batch(tx, _, picked, sinkOk) =>
      st.(open := st.open[tx := DrainBatch(st.open[tx], picked, sinkOk)],
          handed := if picked == {} then st.handed else More(st.handed, picked),
          accepted := if picked == {} || !sinkOk then st.accepted else More(st.accepted, picked))
    case Commit(tx) =>
      st.(rows := Publish(st.rows, st.open[tx].stamped),
          open := st.open - {tx},
          committed := st.committed[tx := st.open[tx].locked])
    case Rollback(tx) =>
      st.(open := st.open - {tx},
          rolledBack := st.rolledBack[tx := st.open[tx].locked],
          undone := st.undone[tx := st.open[tx].stamped])
  }

  ghost function Run(steps: Log<Step>): State {
    match steps
    case Empty => START
    case More(before, step) =>
      var st := Run(before);
      if Enabled(st, step) then Apply(st, step) else st
  }

  // ---- Who handed a row over -------------------------------------------------------------------

  /** How often a row was handed to the sink. */
  function TimesHanded(handed: Log<set<RowId>>, row: RowId): nat {
    match handed
    case Empty => 0
    case More(before, batch) => TimesHanded(before, row) + if row in batch then 1 else 0
  }

  function OpenHanders(open: map<TxId, Tx>, row: RowId): set<TxId> {
    set tx | tx in open && row in open[tx].locked
  }

  /** Open transactions that have stamped the row. */
  function OpenTakers(open: map<TxId, Tx>, row: RowId): set<TxId> {
    set tx | tx in open && row in open[tx].stamped
  }

  function Handers(ended: map<TxId, set<RowId>>, row: RowId): set<TxId> {
    set tx | tx in ended && row in ended[tx]
  }

  // ---- What every step keeps -------------------------------------------------------------------

  /** Open transactions hold disjoint rows. */
  ghost predicate Disjoint(st: State) {
    forall a, b | a in st.open && b in st.open && a != b :: st.open[a].locked !! st.open[b].locked
  }

  /** Locked rows are pending, and stamped as far as the sink took them. */
  ghost predicate LocksPending(st: State) {
    forall tx | tx in st.open ::
      && (forall r | r in st.open[tx].locked :: r in st.rows && !st.rows[r].published)
      && st.open[tx].stamped <= st.open[tx].locked
      && (!st.open[tx].status.Failing? ==> st.open[tx].stamped == st.open[tx].locked)
  }

  ghost predicate IdsOnce(st: State) {
    && st.open.Keys !! st.committed.Keys
    && st.open.Keys !! st.rolledBack.Keys
    && st.committed.Keys !! st.rolledBack.Keys
    && st.undone.Keys == st.rolledBack.Keys
    && (forall tx | tx in st.committed :: st.committed[tx] <= st.rows.Keys)
  }

  /** A row is published iff exactly one committed transaction handed it over, and its `attempts`
      is that number: what a failed delivery adds is undone with its transaction. */
  ghost predicate PublishedOnce(st: State) {
    forall r | r in st.rows ::
      && |Handers(st.committed, r)| == (if st.rows[r].published then 1 else 0)
      && st.rows[r].attempts == |Handers(st.committed, r)|
  }

  ghost predicate AllAccounted(st: State) {
    forall r: RowId :: Account(st, r) == 0 && AcceptedAccount(st, r) == 0
  }

  ghost predicate Inv(st: State) {
    Disjoint(st) && LocksPending(st) && IdsOnce(st) && PublishedOnce(st) && AllAccounted(st)
  }

  lemma StepKeepsLocks(st: State, step: Step)
    requires Disjoint(st) && LocksPending(st) && IdsOnce(st) && Enabled(st, step)
    ensures Disjoint(Apply(st, step)) && LocksPending(Apply(st, step)) && IdsOnce(Apply(st, step))
  {
    if step.Commit? {
      var tx := step.tx;
      forall other | other in st.open && other != tx
        ensures st.open[other].locked !! st.open[tx].locked
      {
      }
    }
  }

  lemma CommitPublishes(rows: map<RowId, Row>, committed: map<TxId, set<RowId>>, tx: TxId, locked: set<RowId>, r: RowId)
    requires r in rows && tx !in committed && (r in locked ==> !rows[r].published)
    requires |Handers(committed, r)| == (if rows[r].published then 1 else 0) == rows[r].attempts
    ensures var row := Publish(rows, locked)[r];
            |Handers(committed[tx := locked], r)| == (if row.published then 1 else 0) == row.attempts
  {
    EndedMore(committed, tx, locked, r);
  }

  lemma StepKeepsPublished(st: State, step: Step)
    requires LocksPending(st) && IdsOnce(st) && PublishedOnce(st) && Enabled(st, step)
    ensures PublishedOnce(Apply(st, step))
  {
    if step.Insert? {
      assert Handers(st.committed, step.row) == {};
    } else if step.Commit? {
      var locked := st.open[step.tx].locked;
      forall r | r in st.rows
        ensures var row := Publish(st.rows, locked)[r];
                |Handers(st.committed[step.tx := locked], r)| == (if row.published then 1 else 0) == row.attempts
      {
        CommitPublishes(st.rows, st.committed, step.tx, locked, r);
      }
    }
  }

  lemma StepKeepsAccounts(st: State, step: Step)
    requires Disjoint(st) && LocksPending(st) && IdsOnce(st) && AllAccounted(st) && Enabled(st, step)
    ensures AllAccounted(Apply(st, step))
  {
    forall r: RowId
      ensures Account(Apply(st, step), r) == 0 && AcceptedAccount(Apply(st, step), r) == 0
    {
      assert Account(st, r) == 0 && AcceptedAccount(st, r) == 0;
      StepKeepsAccount(st, step, r);
      StepKeepsAccepted(st, step, r);
    }
  }

  function Account(st: State, r: RowId): int {
    TimesHanded(st.handed, r) - |OpenHanders(st.open, r)| - |Handers(st.committed, r)| - |Handers(st.rolledBack, r)|
  }

  function AcceptedAccount(st: State, r: RowId): int {
    TimesHanded(st.accepted, r) - |OpenTakers(st.open, r)| - |Handers(st.committed, r)| - |Handers(st.undone, r)|
  }

  lemma OpenStampsMore(open: map<TxId, Tx>, tx: TxId, t: Tx, taken: set<RowId>, r: RowId)
    requires tx in open && t.stamped == open[tx].stamped + taken && open[tx].stamped !! taken
    ensures |OpenTakers(open[tx := t], r)| == |OpenTakers(open, r)| + if r in taken then 1 else 0
  {
    assert OpenTakers(open[tx := t], r) == OpenTakers(open, r) + if r in taken then {tx} else {};
  }

  lemma OpenTakersLess(open: map<TxId, Tx>, tx: TxId, r: RowId)
    requires tx in open
    ensures |OpenTakers(open - {tx}, r)| == |OpenTakers(open, r)| - if r in open[tx].stamped then 1 else 0
  {
    var mine := if r in open[tx].stamped then {tx} else {};
    assert OpenTakers(open - {tx}, r) == OpenTakers(open, r) - mine && mine <= OpenTakers(open, r);
  }

  lemma OpenLocksMore(open: map<TxId, Tx>, tx: TxId, t: Tx, picked: set<RowId>, r: RowId)
    requires tx in open && t.locked == open[tx].locked + picked && open[tx].locked !! picked
    ensures |OpenHanders(open[tx := t], r)| == |OpenHanders(open, r)| + if r in picked then 1 else 0
  {
    assert OpenHanders(open[tx := t], r) == OpenHanders(open, r) + if r in picked then {tx} else {};
  }

  lemma OpenLess(open: map<TxId, Tx>, tx: TxId, r: RowId)
    requires tx in open
    ensures |OpenHanders(open - {tx}, r)| == |OpenHanders(open, r)| - if r in open[tx].locked then 1 else 0
  {
    var mine := if r in open[tx].locked then {tx} else {};
    assert OpenHanders(open - {tx}, r) == OpenHanders(open, r) - mine && mine <= OpenHanders(open, r);
  }

  lemma EndedMore(ended: map<TxId, set<RowId>>, tx: TxId, locked: set<RowId>, r: RowId)
    requires tx !in ended
    ensures |Handers(ended[tx := locked], r)| == |Handers(ended, r)| + if r in locked then 1 else 0
  {
    assert Handers(ended[tx := locked], r) == Handers(ended, r) + if r in locked then {tx} else {};
  }

  lemma PickedIsNew(st: State, step: Step)
    requires LocksPending(st) && step.Batch? && Enabled(st, step)
    ensures st.open[step.tx].locked !! step.picked
  {
  }

  lemma StepKeepsAccount(st: State, step: Step, r: RowId)
    requires LocksPending(st) && IdsOnce(st) && Enabled(st, step)
    ensures Account(Apply(st, step), r) == Account(st, r)
  {
    match step
    case Insert(_, _) =>
    case Begin(tx) =>
      assert OpenHanders(Apply(st, step).open, r) == OpenHanders(st.open, r);
    case Batch(tx, _, picked, sinkOk) =>
      PickedIsNew(st, step);
      OpenLocksMore(st.open, tx, DrainBatch(st.open[tx], picked, sinkOk), picked, r);
    case Commit(tx) =>
      OpenLess(st.open, tx, r);
      EndedMore(st.committed, tx, st.open[tx].locked, r);
    case Rollback(tx) =>
      OpenLess(st.open, tx, r);
      EndedMore(st.rolledBack, tx, st.open[tx].locked, r);
  }

  lemma BatchKeepsAccepted(st: State, tx: TxId, size: nat, picked: set<RowId>, sinkOk: bool, r: RowId)
    requires LocksPending(st) && Enabled(st, Batch(tx, size, picked, sinkOk))
    ensures AcceptedAccount(Apply(st, Batch(tx, size, picked, sinkOk)), r) == AcceptedAccount(st, r)
  {
    PickedIsNew(st, Batch(tx, size, picked, sinkOk));
    OpenStampsMore(st.open, tx, DrainBatch(st.open[tx], picked, sinkOk), if sinkOk then picked else {}, r);
  }

  lemma CommitKeepsAccepted(st: State, tx: TxId, r: RowId)
    requires LocksPending(st) && IdsOnce(st) && Enabled(st, Commit(tx))
    ensures AcceptedAccount(Apply(st, Commit(tx)), r) == AcceptedAccount(st, r)
  {
    OpenTakersLess(st.open, tx, r);
    EndedMore(st.committed, tx, st.open[tx].locked, r);
  }

  lemma RollbackKeepsAccepted(st: State, tx: TxId, r: RowId)
    requires IdsOnce(st) && Enabled(st, Rollback(tx))
    ensures AcceptedAccount(Apply(st, Rollback(tx)), r) == AcceptedAccount(st, r)
  {
    OpenTakersLess(st.open, tx, r);
    EndedMore(st.undone, tx, st.open[tx].stamped, r);
  }

  lemma StepKeepsAccepted(st: State, step: Step, r: RowId)
    requires LocksPending(st) && IdsOnce(st) && Enabled(st, step)
    ensures AcceptedAccount(Apply(st, step), r) == AcceptedAccount(st, r)
  {
    match step
    case Insert(_, _) =>
    case Begin(tx) =>
      assert OpenTakers(Apply(st, step).open, r) == OpenTakers(st.open, r);
    case Batch(tx, size, picked, sinkOk) =>
      BatchKeepsAccepted(st, tx, size, picked, sinkOk, r);
    case Commit(tx) =>
      CommitKeepsAccepted(st, tx, r);
    case Rollback(tx) =>
      RollbackKeepsAccepted(st, tx, r);
  }

  lemma StepKeepsInv(st: State, step: Step)
    requires Inv(st) && Enabled(st, step)
    ensures Inv(Apply(st, step))
  {
    StepKeepsLocks(st, step);
    StepKeepsPublished(st, step);
    StepKeepsAccounts(st, step);
  }

  lemma {:induction false} RunInv(steps: Log<Step>)
    ensures Inv(Run(steps))
  {
    if steps.More? {
      RunInv(steps.before);
      if Enabled(Run(steps.before), steps.last) {
        StepKeepsInv(Run(steps.before), steps.last);
      }
    }
  }

  // ---- Main results ----------------------------------------------------------------------------

  /** For every interleaving of workers, sink failures, commits and rollbacks: a row was handed to
      the sink once for the transaction that committed it or still holds it open, if there is one,
      and once for every rolled-back transaction that handed it over. */
  lemma HandedOnceAndPerRollback(steps: Log<Step>, row: RowId)
    ensures var st := Run(steps);
            row in st.rows ==>
              TimesHanded(st.handed, row)
              == (if st.rows[row].published || OpenHanders(st.open, row) != {} then 1 else 0)
                 + |Handers(st.rolledBack, row)|
  {
    RunInv(steps);
    var st := Run(steps);
    if row in st.rows {
      assert Account(st, row) == 0;
      if tx :| tx in OpenHanders(st.open, row) {
        assert forall other | other in OpenHanders(st.open, row) :: other == tx;
        assert OpenHanders(st.open, row) == {tx};
      }
    }
  }

  /** A row was accepted by the sink once for every transaction that stamped it: the one that committed
      it, one that is still open, and every one that was rolled back afterwards. */
  lemma AcceptedPerStamp(steps: Log<Step>, row: RowId)
    ensures var st := Run(steps);
            TimesHanded(st.accepted, row)
            == |OpenTakers(st.open, row)| + |Handers(st.committed, row)| + |Handers(st.undone, row)|
  {
    RunInv(steps);
    assert AcceptedAccount(Run(steps), row) == 0;
  }

  /** A row is delivered twice, or more often, exactly when one transaction that had delivered it was
      rolled back and it was delivered again since: it is published or stamped once more, or another
      transaction that had delivered it was rolled back too. */
  lemma DoubleDeliveryIff(steps: Log<Step>, row: RowId)
    requires row in Run(steps).rows
    ensures var st := Run(steps);
            TimesHanded(st.accepted, row) > 1
            <==> Handers(st.undone, row) != {}
                 && (st.rows[row].published || OpenTakers(st.open, row) != {} || |Handers(st.undone, row)| > 1)
  {
    RunInv(steps);
    AcceptedPerStamp(steps, row);
    var st := Run(steps);
    if tx :| tx in OpenTakers(st.open, row) {
      assert row in st.open[tx].locked;
      assert forall other | other in OpenTakers(st.open, row) :: row in st.open[other].locked && other == tx;
      assert OpenTakers(st.open, row) == {tx};
    }
    if tx :| tx in Handers(st.undone, row) {
      assert |Handers(st.undone, row)| > 0;
    }
  }

  /** A worker delivers row 0. Row 1 is inserted; the sink refuses it, and all is rolled back. */
  function FailedWorker(): Log<Step> {
    var delivered := More(More(More(Empty, Insert(0, 0)), Begin(0)), Batch(0, BATCH, {0}, true));
    More(More(More(delivered, Insert(1, 1)), Batch(0, BATCH, {1}, false)), Rollback(0))
  }

  /** The next worker delivers both. */
  function SecondDelivery(): Log<Step> {
    More(More(FailedWorker(), Begin(1)), Batch(1, BATCH, {0, 1}, true))
  }

  /** A batch takes all there is if that is not too much. */
  lemma TakesAll(st: State, tx: TxId, picked: set<RowId>, sinkOk: bool)
    requires tx in st.open && st.open[tx].status.Draining? && picked == Available(st, tx) && |picked| <= BATCH
    ensures Enabled(st, Batch(tx, BATCH, picked, sinkOk))
  {
    assert Available(st, tx) - picked == {};
  }

  lemma RunDelivered()
    ensures Run(More(More(More(Empty, Insert(0, 0)), Begin(0)), Batch(0, BATCH, {0}, true)))
         == START.(rows := map[0 := Row(0, false, 0)], open := map[0 := Tx({0}, {0}, 1, Draining)],
                   handed := More(Empty, {0}), accepted := More(Empty, {0}))
  {
    var inserted := More(Empty, Insert(0, 0));
    assert Run(Empty) == START;
    assert Run(inserted) == START.(rows := map[0 := Row(0, false, 0)]);
    var begun := Run(More(inserted, Begin(0)));
    assert begun == START.(rows := map[0 := Row(0, false, 0)], open := map[0 := Tx({}, {}, 0, Draining)]);
    assert Available(begun, 0) == {0};
    TakesAll(begun, 0, {0}, true);
  }

  lemma RunFailedWorker()
    ensures Run(FailedWorker())
         == START.(rows := map[0 := Row(0, false, 0), 1 := Row(1, false, 0)],
                   handed := More(More(Empty, {0}), {1}), accepted := More(Empty, {0}),
                   rolledBack := map[0 := {0} + {1}], undone := map[0 := {0}])
  {
    RunDelivered();
    var steps := FailedWorker();
    var inserted := Run(steps.before.before);
    assert inserted.rows == map[0 := Row(0, false, 0), 1 := Row(1, false, 0)];
    assert inserted.open == map[0 := Tx({0}, {0}, 1, Draining)];
    assert Available(inserted, 0) == {1};
    TakesAll(inserted, 0, {1}, false);
    assert Run(steps.before).open == map[0 := Tx({0} + {1}, {0}, 1, Failing)];
  }

  /** The publisher's "without double-delivery" fails: here is a run of its workers in which the sink accepts
      a row twice. */
  lemma DeliveredTwice()
    ensures TimesHanded(Run(SecondDelivery()).accepted, 0) == 2
  {
    RunFailedWorker();
    var begun := Run(More(FailedWorker(), Begin(1)));
    assert begun.open == map[1 := Tx({}, {}, 0, Draining)];
    assert Available(begun, 1) == {0, 1};
    TakesAll(begun, 1, {0, 1}, true);
    assert Run(SecondDelivery()).accepted == More(More(Empty, {0}), {0, 1});
    assert TimesHanded(More(Empty, {0}), 0) == 1;
  }

  /** Open transactions never share a row, and never hold one that is already published. */
  lemma LocksAreExclusive(steps: Log<Step>, a: TxId, b: TxId)
    requires a in Run(steps).open && b in Run(steps).open && a != b
    ensures Run(steps).open[a].locked !! Run(steps).open[b].locked
    ensures forall r | r in Run(steps).open[a].locked :: r in Run(steps).rows && !Run(steps).rows[r].published
  {
    RunInv(steps);
  }

  /** A row stays, with its time of creation; and a published row stays published, however the run goes
      on. */
  lemma {:induction false} PublishedForever(steps: Log<Step>, later: Log<Step>, row: RowId)
    requires Extends(later, steps) && row in Run(steps).rows
    ensures row in Run(later).rows && Run(later).rows[row].createdAt == Run(steps).rows[row].createdAt
    ensures Run(steps).rows[row].published ==> Run(later).rows[row].published
  {
    if later != steps {
      PublishedForever(steps, later.before, row);
    }
  }

  /** The sink is never called without rows. */
  lemma {:induction false} BatchesAreNotEmpty(steps: Log<Step>)
    ensures TimesEmpty(Run(steps).handed) == TimesEmpty(Run(steps).accepted) == 0
  {
    if steps.More? {
      BatchesAreNotEmpty(steps.before);
      if Enabled(Run(steps.before), steps.last) {
        StepKeepsBatches(Run(steps.before), steps.last);
      }
    }
  }

  lemma StepKeepsBatches(st: State, step: Step)
    requires Enabled(st, step)
    ensures TimesEmpty(Apply(st, step).handed) == TimesEmpty(st.handed)
    ensures TimesEmpty(Apply(st, step).accepted) == TimesEmpty(st.accepted)
  {
  }

  function TimesEmpty(handed: Log<set<RowId>>): nat {
    match handed
    case Empty => 0
    case More(before, batch) => TimesEmpty(before) + if batch == {} then 1 else 0
  }

  /** `attempts` does not count failures: a pending row has none, a published row exactly one. */
  lemma AttemptsAreCommits(steps: Log<Step>, row: RowId)
    requires row in Run(steps).rows
    ensures Run(steps).rows[row].attempts == if Run(steps).rows[row].published then 1 else 0
  {
    RunInv(steps);
  }

  // ---- The code of one worker ------------------------------------------------------------------

  /** The table as a transaction sees it: what it stamped is published, and what it handed over in
      vain has one more attempt. */
  function View(rows: map<RowId, Row>, t: Tx): map<RowId, Row> {
    map r | r in rows ::
      if r in t.stamped then Row(rows[r].createdAt, true, rows[r].attempts + 1)
      else if r in t.locked then rows[r].(attempts := rows[r].attempts + 1)
      else rows[r]
  }

  function LockedElsewhere(open: map<TxId, Tx>, tx: TxId): set<RowId> {
    set other, r | other in open && other != tx && r in open[other].locked :: r
  }

  /** Pending rows that `elsewhere` does not hold. */
  function Unlocked(rows: map<RowId, Row>, elsewhere: set<RowId>): set<RowId> {
    set r | r in rows && !rows[r].published && r !in elsewhere
  }

  function IdsOf(rows: seq<RowId>): set<RowId> { set r | r in rows }

  /** A full batch of the available rows if there are that many, oldest first. */
  ghost predicate IsBatch(rows: map<RowId, Row>, available: set<RowId>, size: nat, picked: set<RowId>) {
    available <= rows.Keys && OldestOf(rows, picked, available) && |picked| == Min(size, |available|)
  }

  /** Half way through the select: `picked` are the oldest of `all`, in order, and `rest` the others. */
  ghost predicate Picking(rows: map<RowId, Row>, all: set<RowId>, rest: set<RowId>, picked: seq<RowId>) {
    && rest <= all <= rows.Keys
    && IdsOf(picked) == all - rest && |all| == |picked| + |rest|
    && (forall i, j | 0 <= i < j < |picked| :: picked[i] != picked[j])
    && InOrder(rows, picked)
    && OldestOf(rows, all - rest, all)
  }

  ghost predicate InOrder(rows: map<RowId, Row>, picked: seq<RowId>) {
    forall i, j | 0 <= i < j < |picked| ::
      picked[i] in rows && picked[j] in rows && rows[picked[i]].createdAt <= rows[picked[j]].createdAt
  }

  lemma PickedInOrder(rows: map<RowId, Row>, all: set<RowId>, rest: set<RowId>, picked: seq<RowId>, oldest: RowId)
    requires Picking(rows, all, rest, picked) && oldest in rest
    ensures InOrder(rows, picked + [oldest])
    ensures forall i | 0 <= i < |picked| :: picked[i] != oldest
  {
    forall i | 0 <= i < |picked|
      ensures picked[i] in all - rest && AsOld(rows, picked[i], oldest)
    {
      assert picked[i] in IdsOf(picked);
      assert AsOld(rows, picked[i], oldest);
    }
  }

  lemma PickedAreOldest(rows: map<RowId, Row>, all: set<RowId>, rest: set<RowId>, oldest: RowId)
    requires rest <= all && OldestOf(rows, all - rest, all) && oldest in rest
    requires forall r | r in rest :: AsOld(rows, oldest, r)
    ensures OldestOf(rows, all - (rest - {oldest}), all)
  {
    forall p, r | p in all - (rest - {oldest}) && r in rest - {oldest}
      ensures AsOld(rows, p, r)
    {
      assert p != oldest ==> p in all - rest && AsOld(rows, p, r);
    }
  }

  lemma PickingStep(rows: map<RowId, Row>, all: set<RowId>, rest: set<RowId>, picked: seq<RowId>, oldest: RowId)
    requires Picking(rows, all, rest, picked) && oldest in rest
    requires forall r | r in rest :: AsOld(rows, oldest, r)
    ensures Picking(rows, all, rest - {oldest}, picked + [oldest])
  {
    assert IdsOf(picked + [oldest]) == IdsOf(picked) + {oldest};
    PickedInOrder(rows, all, rest, picked, oldest);
    PickedAreOldest(rows, all, rest, oldest);
  }

  lemma PickingEnd(rows: map<RowId, Row>, all: set<RowId>, rest: set<RowId>, picked: seq<RowId>, size: nat)
    requires Picking(rows, all, rest, picked) && |picked| <= size && (|picked| == size || rest == {})
    ensures IsBatch(rows, all, size, IdsOf(picked)) && |IdsOf(picked)| == |picked|
  {
    assert all == IdsOf(picked) + rest;
  }

  function Mark(rows: map<RowId, Row>, marked: set<RowId>, published: bool): map<RowId, Row> {
    map r | r in rows ::
      if r in marked then Row(rows[r].createdAt, rows[r].published || published, rows[r].attempts + 1) else rows[r]
  }

  /** The loop over the batch and the step of the transaction have the same effect on its view. */
  lemma MarkIsBatch(rows: map<RowId, Row>, t: Tx, picked: set<RowId>, sinkOk: bool)
    requires t.stamped == t.locked && picked !! t.locked && forall r | r in picked :: r in rows && !rows[r].published
    ensures Mark(View(rows, t), picked, sinkOk) == View(rows, DrainBatch(t, picked, sinkOk))
  {
  }

  /** What is unlocked in the view is what is unlocked in the table and not yet stamped. */
  lemma ViewSelects(rows: map<RowId, Row>, t: Tx, elsewhere: set<RowId>, size: nat, picked: set<RowId>)
    requires t.stamped == t.locked
    requires IsBatch(View(rows, t), Unlocked(View(rows, t), elsewhere), size, picked)
    ensures IsBatch(rows, Unlocked(rows, elsewhere) - t.locked, size, picked)
  {
    assert Unlocked(View(rows, t), elsewhere) == Unlocked(rows, elsewhere) - t.locked;
    forall r, s | r in picked && s in Unlocked(rows, elsewhere) - t.locked - picked
      ensures AsOld(rows, r, s)
    {
      assert AsOld(View(rows, t), r, s);
    }
  }

  /** In the middle of a transaction, with so many batches behind it. */
  ghost predicate InTx(table: map<RowId, Row>, view: map<RowId, Row>, mine: Tx, batches: nat) {
    && mine.batches == batches && mine.status == (if batches < ROUNDS then Draining else Drained)
    && mine.stamped == mine.locked && view == View(table, mine)
  }

  /** At its end. */
  ghost predicate Ready(table: map<RowId, Row>, view: map<RowId, Row>, mine: Tx) {
    mine.status.Drained? && mine.stamped == mine.locked && view == View(table, mine)
  }

  /** One batch, marked as the sink's answer says. */
  lemma BatchDrained(table: map<RowId, Row>, view: map<RowId, Row>, elsewhere: set<RowId>, mine: Tx, batches: nat,
                     size: nat, picked: set<RowId>, sinkOk: bool)
    requires InTx(table, view, mine, batches) && batches < ROUNDS
    requires IsBatch(view, Unlocked(view, elsewhere), size, picked)
    ensures IsBatch(table, Unlocked(table, elsewhere) - mine.locked, size, picked)
    ensures var next := DrainBatch(mine, picked, sinkOk);
            && Mark(view, picked, sinkOk) == View(table, next)
            && (picked == {} || sinkOk ==> next.stamped == next.locked == mine.locked + picked)
            && (picked != {} && sinkOk ==> InTx(table, View(table, next), next, batches + 1))
  {
    ViewSelects(table, mine, elsewhere, size, picked);
    MarkIsBatch(table, mine, picked, sinkOk);
    NextBatch(mine, batches, picked, sinkOk);
  }

  lemma NextBatch(mine: Tx, batches: nat, picked: set<RowId>, sinkOk: bool)
    requires mine.batches == batches < ROUNDS && mine.status.Draining? && mine.stamped == mine.locked
    ensures var next := DrainBatch(mine, picked, sinkOk);
            && (picked == {} || sinkOk ==> next.stamped == next.locked == mine.locked + picked)
            && (picked != {} && sinkOk ==>
                  next.batches == batches + 1 && next.status == if batches + 1 < ROUNDS then Draining else Drained)
  {
  }

  // ---- A session takes part in the protocol ----------------------------------------------------

  /** What a session knows of the state of all workers: the table, what others hold, its own work. */
  ghost predicate Knows(st: State, tx: TxId, table: map<RowId, Row>, elsewhere: set<RowId>, mine: Tx) {
    && table == st.rows && elsewhere == LockedElsewhere(st.open, tx)
    && tx in st.open && st.open[tx] == mine
  }

  lemma KnownAvailable(st: State, tx: TxId, table: map<RowId, Row>, elsewhere: set<RowId>, mine: Tx)
    requires Knows(st, tx, table, elsewhere, mine) && LocksPending(st) && !mine.status.Failing?
    ensures Available(st, tx) == Unlocked(table, elsewhere) - mine.locked
  {
  }

  /** A batch that `drain_outbox` took in its session is a step of the protocol. */
  lemma BatchIsStep(st: State, tx: TxId, table: map<RowId, Row>, elsewhere: set<RowId>, mine: Tx,
                    size: nat, picked: set<RowId>, sinkOk: bool)
    requires Inv(st) && Knows(st, tx, table, elsewhere, mine) && mine.status.Draining?
    requires IsBatch(table, Unlocked(table, elsewhere) - mine.locked, size, picked)
    ensures var step := Batch(tx, size, picked, sinkOk);
            Enabled(st, step) && Knows(Apply(st, step), tx, table, elsewhere, DrainBatch(mine, picked, sinkOk))
  {
    KnownAvailable(st, tx, table, elsewhere, mine);
    var open := st.open[tx := DrainBatch(mine, picked, sinkOk)];
    OthersStay(st.open, open, tx);
    OthersStay(open, st.open, tx);
  }

  /** Committing the session's view is the commit of the protocol. */
  lemma CommitIsStep(st: State, tx: TxId, table: map<RowId, Row>, elsewhere: set<RowId>, mine: Tx)
    requires Inv(st) && Knows(st, tx, table, elsewhere, mine) && mine.status.Drained?
    ensures Enabled(st, Commit(tx)) && Apply(st, Commit(tx)).rows == View(table, mine)
  {
  }

  lemma OthersStay(open: map<TxId, Tx>, after: map<TxId, Tx>, tx: TxId)
    requires forall other | other != tx && other in open :: other in after && after[other] == open[other]
    ensures LockedElsewhere(open, tx) <= LockedElsewhere(after, tx)
  {
    forall r | r in LockedElsewhere(open, tx)
      ensures r in LockedElsewhere(after, tx)
    {
      var other :| other in open && other != tx && r in open[other].locked;
      assert r in after[other].locked;
    }
  }

  /** The oldest of `all`, as many as so many rounds can take, are `done`, and they are counted. */
  ghost predicate DrainedSoFar(rows: map<RowId, Row>, all: set<RowId>, rounds: nat, done: set<RowId>, total: nat) {
    IsBatch(rows, all, rounds * BATCH, done) && total == |done|
  }

  /** The oldest of all, and then the oldest of the rest: together the oldest. An empty batch means
      that nothing is left, however many rounds were to come. */
  lemma OneMoreRound(rows: map<RowId, Row>, all: set<RowId>, done: set<RowId>, picked: set<RowId>, round: nat,
                     total: nat)
    requires DrainedSoFar(rows, all, round, done, total) && round < ROUNDS
    requires IsBatch(rows, all - done, BATCH, picked)
    ensures DrainedSoFar(rows, all, round + 1, done + picked, total + |picked|)
    ensures |picked| > 0 <==> |all| > round * BATCH
    ensures |picked| == 0 ==> DrainedSoFar(rows, all, ROUNDS, done + picked, total)
  {
    assert all == done + (all - done);
    assert |all| == |done| + |all - done|;
    if |picked| == 0 {
      assert done + picked == done;
    }
  }

  /** The sink fails on one of the batches that n rows make. */
  ghost predicate SinkFails(sinkOk: nat -> bool, n: nat) {
    exists k :: 0 <= k < ROUNDS && !sinkOk(k) && n > k * BATCH
  }

  /** It fails first on this transaction's next batch, with `taken` delivered before. */
  ghost predicate FailedAt(sinkOk: nat -> bool, n: nat, batches: nat, taken: nat) {
    && batches < ROUNDS && n > batches * BATCH && taken == batches * BATCH
    && !sinkOk(batches) && (forall k | 0 <= k < batches :: sinkOk(k))
  }

  lemma FailsLiterally(sinkOk: nat -> bool, n: nat)
    ensures SinkFails(sinkOk, n) <==> exists k :: 0 <= k < 50 && !sinkOk(k) && n > 200 * k
  {
    assert forall k :: 0 <= k < ROUNDS && !sinkOk(k) && n > k * BATCH <==> 0 <= k < 50 && !sinkOk(k) && n > 200 * k;
  }

  /** All is well so far, and nothing comes after. */
  lemma SinkNeverFails(sinkOk: nat -> bool, n: nat, rounds: nat)
    requires rounds <= ROUNDS && forall k | 0 <= k < rounds :: sinkOk(k)
    requires rounds == ROUNDS || n <= rounds * BATCH
    ensures !SinkFails(sinkOk, n)
  {
  }

  /** A worker's session: the committed table, the session's view of it, and the rows that other
      transactions hold. `mine` is the transaction as the protocol sees it. */
  class Session {
    var table: map<RowId, Row>
    var view: map<RowId, Row>
    const elsewhere: set<RowId>
    ghost var mine: Tx

    constructor (table: map<RowId, Row>, elsewhere: set<RowId>)
      ensures InTx(this.table, view, mine, 0) && mine.locked == {} && this.table == table && this.elsewhere == elsewhere
    {
      this.table, this.view, this.elsewhere, this.mine := table, table, elsewhere, Tx({}, {}, 0, Draining);
    }

    /** SELECT ... WHERE published_at IS NULL ORDER BY created_at LIMIT size FOR UPDATE SKIP LOCKED */
    method Select(size: nat) returns (picked: seq<RowId>)
      ensures forall i, j | 0 <= i < j < |picked| :: picked[i] != picked[j]
      ensures InOrder(view, picked) && |IdsOf(picked)| == |picked|
      ensures IsBatch(view, Unlocked(view, elsewhere), size, IdsOf(picked))
    {
      var rows, all := view, Unlocked(view, elsewhere);
      var rest := all;
      picked := [];
      while |picked| < size && rest != {}
        invariant |picked| <= size && Picking(rows, all, rest, picked)
        decreases rest
      {
        var oldest := LeastOf(rest, (r: RowId) => if r in rows then rows[r].createdAt else 0);
        PickingStep(rows, all, rest, picked, oldest);
        picked := picked + [oldest];
        rest := rest - {oldest};
      }
      PickingEnd(rows, all, rest, picked, size);
    }

    /** Sets `published_at` (or not) and bumps `attempts` of the rows of one batch, one by one. */
    method MarkAll(picked: seq<RowId>, published: bool)
      requires forall i, j | 0 <= i < j < |picked| :: picked[i] != picked[j]
      requires forall i | 0 <= i < |picked| :: picked[i] in view
      modifies `view
      ensures view == Mark(old(view), IdsOf(picked), published)
    {
      for i := 0 to |picked|
        invariant view == Mark(old(view), IdsOf(picked[..i]), published)
      {
        var row := view[picked[i]];
        assert picked[i] !in picked[..i];
        assert picked[..i + 1] == picked[..i] + [picked[i]];
        view := view[picked[i] := Row(row.createdAt, row.published || published, row.attempts + 1)];
      }
      assert picked[..|picked|] == picked;
    }

    /** `drain_outbox`: the oldest rows no one else holds are delivered and stamped; or, if the sink
        fails, only their `attempts` are bumped and the failure is raised. */
    method DrainOutbox(size: nat, sinkOk: bool, ghost batches: nat)
        returns (count: nat, failed: bool, ghost picked: set<RowId>)
      requires InTx(table, view, mine, batches) && batches < ROUNDS
      modifies `view, `mine
      ensures IsBatch(table, Unlocked(table, elsewhere) - old(mine).locked, size, picked)
      ensures mine == DrainBatch(old(mine), picked, sinkOk) && view == View(table, mine)
      ensures failed <==> picked != {} && !sinkOk
      ensures forall r | r in picked :: view[r] == Row(old(view)[r].createdAt, sinkOk, old(view)[r].attempts + 1)
      ensures view.Keys == old(view).Keys && forall r | r in view && r !in picked :: view[r] == old(view)[r]
      ensures !failed ==> count == |picked| && mine.stamped == mine.locked == old(mine).locked + picked
      ensures !failed && count > 0 ==> InTx(table, view, mine, batches + 1)
    {
      var ids := Select(size);
      picked := IdsOf(ids);
      BatchDrained(table, view, elsewhere, mine, batches, size, picked, sinkOk);
      MarkAll(ids, sinkOk);
      mine := DrainBatch(mine, picked, sinkOk);
      count, failed := |ids|, ids != [] && !sinkOk;
    }

    /** `_publish_telemetry` in its `session_scope`. If the sink fails on one of the batches, which
        happens if it fails before the rows no one else holds are used up, the session is rolled back
        and the table is as it was; the rows of the batches before, some if and only if the sink took the
        first, will be delivered again. Otherwise the 50 * 200 oldest of these rows, or all of them, are
        published, committed and counted. */
    method PublishTelemetry(sinkOk: nat -> bool) returns (total: nat, failed: bool)
      requires InTx(table, view, mine, 0) && mine.locked == {}
      modifies this
      ensures var n := |Unlocked(old(table), elsewhere)|;
              && (failed <==> exists k :: 0 <= k < 50 && !sinkOk(k) && n > 200 * k)
              && (failed ==>
                    && table == old(table)
                    && 200 * mine.batches < n && |mine.stamped| == 200 * mine.batches
                    && !sinkOk(mine.batches) && (forall k | 0 <= k < mine.batches :: sinkOk(k)))
              && (!failed ==>
                    && Ready(old(table), table, mine) && table == Publish(old(table), mine.locked)
                    && OldestOf(old(table), mine.locked, Unlocked(old(table), elsewhere))
                    && total == |mine.locked| == if n < 10_000 then n else 10_000)
    {
      total, failed := DrainBatches(sinkOk);
      FailsLiterally(sinkOk, |Unlocked(table, elsewhere)|);
      if failed {
        view := table;
      } else {
        table := view;
      }
    }

    /** The loop of up to 50 batches, which ends early when a batch comes back empty. */
    method DrainBatches(sinkOk: nat -> bool) returns (total: nat, failed: bool)
      requires InTx(table, view, mine, 0) && mine.locked == {}
      modifies `view, `mine
      ensures failed <==> SinkFails(sinkOk, |Unlocked(table, elsewhere)|)
      ensures failed ==> FailedAt(sinkOk, |Unlocked(table, elsewhere)|, mine.batches, |mine.stamped|)
      ensures !failed ==>
                Ready(table, view, mine) && DrainedSoFar(table, Unlocked(table, elsewhere), ROUNDS, mine.locked, total)
    {
      ghost var all := Unlocked(table, elsewhere);
      total, failed := 0, false;
      for round := 0 to ROUNDS
        invariant InTx(table, view, mine, round) && forall k | 0 <= k < round :: sinkOk(k)
        invariant DrainedSoFar(table, all, round, mine.locked, total)
      {
        var count, raised := DrainOnce(sinkOk(round), round, all, total);
        if raised {
          return total, true;
        }
        total := total + count;
        if count == 0 {
          SinkNeverFails(sinkOk, |all|, round);
          return total, false;
        }
      }
      SinkNeverFails(sinkOk, |all|, ROUNDS);
    }

    /** One turn of the loop, in terms of the whole. */
    method DrainOnce(sinkOk: bool, ghost round: nat, ghost all: set<RowId>, ghost total: nat)
        returns (count: nat, raised: bool)
      requires InTx(table, view, mine, round) && round < ROUNDS
      requires all == Unlocked(table, elsewhere) && DrainedSoFar(table, all, round, mine.locked, total)
      modifies `view, `mine
      ensures raised <==> !sinkOk && |all| > round * BATCH
      ensures raised ==> mine.batches == round && |mine.stamped| == round * BATCH
      ensures !raised ==> (count > 0 <==> |all| > round * BATCH)
      ensures !raised && count > 0 ==>
                InTx(table, view, mine, round + 1) && DrainedSoFar(table, all, round + 1, mine.locked, total + count)
      ensures !raised && count == 0 ==>
                Ready(table, view, mine) && DrainedSoFar(table, all, ROUNDS, mine.locked, total)
    {
      ghost var done, picked := mine.locked, {};
      count, raised, picked := DrainOutbox(BATCH, sinkOk, round);
      OneMoreRound(table, all, done, picked, round, total);
    }
  }
}
