/** Quota enforcement by many gateway calls at once. Each INCR and DECR is one atomic step; the
    steps of different calls interleave freely. A step names the counter its own clock reading leads
    to: the bucket, and which of the lifetimes of its Redis key, for a key that expires is created
    anew. So the consume and the give-back of one unit may disagree about the counter. */
module GatewayQuota {
  import opened Logs
  import opened Sets
  import opened Sums
  import Quota

  datatype Rule = Rule(period: Quota.Period, maxRequests: nat)

  /** One lifetime of the counter of a bucket. */
  datatype Place = Place(bucket: Quota.Bucket, life: nat)

  datatype Slot = Slot(period: Quota.Period, place: Place)

  type CallId = nat

  /** Where a call is. `held` are the slots it has consumed a unit of, in order. */
  datatype Phase =
    | Enforcing(held: seq<Slot>)
    | Forwarding(held: seq<Slot>)
    | Releasing(held: seq<Slot>, freed: nat, exceeded: bool)
    | Served(held: seq<Slot>)
    | Failed

  datatype State = State(counters: map<Slot, int>, calls: map<CallId, Phase>)

  const START := State(map[], map[])

  datatype Step =
    | Arrive(id: CallId)
    | Consume(id: CallId, place: Place)
    | Upstream(id: CallId, ok: bool)
    | GiveBack(id: CallId, place: Place)

  /** The API's quotas: one per period. */
  ghost predicate ValidRules(rules: seq<Rule>) {
    forall i, j | 0 <= i < j < |rules| :: rules[i].period != rules[j].period
  }

  function AfterConsume(rules: seq<Rule>, held: seq<Slot>): Phase {
    if |held| < |rules| then Enforcing(held) else Forwarding(held)
  }

  function Release(held: seq<Slot>, freed: nat, exceeded: bool): Phase {
    if freed < |held| then Releasing(held, freed, exceeded) else Failed
  }

  /** Whether a step can happen; a step that cannot leaves the state alone. */
  predicate Enabled(rules: seq<Rule>, st: State, step: Step) {
    match step
    case Arrive(id) => id !in st.calls
    case Consume(id, _) => id in st.calls && st.calls[id].Enforcing? && |st.calls[id].held| < |rules|
    case Upstream(id, _) => id in st.calls && st.calls[id].Forwarding?
    case GiveBack(id, _) => id in st.calls && st.calls[id].Releasing? && st.calls[id].freed < |st.calls[id].held|
  }

  function Apply(rules: seq<Rule>, st: State, step: Step): State
    requires Enabled(rules, st, step)
  {
    match step
    case Arrive(id) => st.(calls := st.calls[id := AfterConsume(rules, [])])
    case Consume(id, place) =>
      var held := st.calls[id].held;
      var rule := rules[|held|];
      var slot := Slot(rule.period, place);
      var used := Get(st.counters, slot) + 1;
      var phase := if used > rule.maxRequests then Release(held + [slot], 0, true)
                   else AfterConsume(rules, held + [slot]);
      State(st.counters[slot := used], st.calls[id := phase])
    case Upstream(id, ok) =>
      var held := st.calls[id].held;
      st.(calls := st.calls[id := if ok then Served(held) else Release(held, 0, false)])
    case GiveBack(id, place) =>
      var phase := st.calls[id];
      var slot := Slot(phase.held[phase.freed].period, place);
      State(st.counters[slot := Get(st.counters, slot) - 1],
            st.calls[id := Release(phase.held, phase.freed + 1, phase.exceeded)])
  }

  function Run(rules: seq<Rule>, steps: Log<Step>): State {
    match steps
    case Empty => START
    case More(before, step) =>
      var st := Run(rules, before);
      if Enabled(rules, st, step) then Apply(rules, st, step) else st
  }

  // ---- Who holds what --------------------------------------------------------------------------

  function SlotsFrom(held: seq<Slot>, first: nat, end: nat): set<Slot>
    requires end <= |held|
  {
    set i | first <= i < end :: held[i]
  }

  lemma SlotsAppended(held: seq<Slot>, slot: Slot)
    ensures SlotsFrom(held + [slot], 0, |held| + 1) == SlotsFrom(held, 0, |held|) + {slot}
    ensures SlotsFrom(held + [slot], 0, |held|) == SlotsFrom(held, 0, |held|)
  {
    var more := held + [slot];
    assert forall i | 0 <= i < |held| :: more[i] == held[i];
    assert more[|held|] == slot;
    forall s | s in SlotsFrom(held, 0, |held|)
      ensures s in SlotsFrom(more, 0, |held| + 1) && s in SlotsFrom(more, 0, |held|)
    {
      var i :| 0 <= i < |held| && held[i] == s;
      assert more[i] == s;
    }
  }

  /** The units a call has consumed and not given back. */
  function Outstanding(phase: Phase): set<Slot> {
    match phase
    case Releasing(held, freed, _) => SlotsFrom(held, freed, |held|)
    case Failed => {}
    case _ => SlotsFrom(phase.held, 0, |phase.held|)
  }

  /** ... of those, the ones whose check it passed. */
  function Passed(phase: Phase): set<Slot> {
    if phase.Releasing? && phase.exceeded && phase.held != []
    then SlotsFrom(phase.held, phase.freed, |phase.held| - 1)
    else Outstanding(phase)
  }

  function Holders(st: State, slot: Slot): set<CallId> {
    set id | id in st.calls && slot in Outstanding(st.calls[id])
  }

  function PassedHolders(st: State, slot: Slot): set<CallId> {
    set id | id in st.calls && slot in Passed(st.calls[id])
  }

  /** Calls that were admitted: past all checks, and neither failed nor on the way there. */
  function Admitted(st: State, slot: Slot): set<CallId> {
    set id | id in st.calls && (st.calls[id].Forwarding? || st.calls[id].Served?) && slot in Outstanding(st.calls[id])
  }

  // ---- Shape of a call -------------------------------------------------------------------------

  ghost predicate HeldInOrder(rules: seq<Rule>, held: seq<Slot>) {
    |held| <= |rules| && forall i | 0 <= i < |held| :: held[i].period == rules[i].period
  }

  ghost predicate WellFormed(rules: seq<Rule>, phase: Phase) {
    match phase
    case Enforcing(held) => HeldInOrder(rules, held) && |held| < |rules|
    case Releasing(held, freed, _) => HeldInOrder(rules, held) && freed < |held|
    case Failed => true
    case _ => HeldInOrder(rules, phase.held)
  }

  ghost predicate AllWellFormed(rules: seq<Rule>, st: State) {
    forall id | id in st.calls :: WellFormed(rules, st.calls[id])
  }

  lemma StepWellFormed(rules: seq<Rule>, st: State, step: Step)
    requires AllWellFormed(rules, st) && Enabled(rules, st, step)
    ensures AllWellFormed(rules, Apply(rules, st, step))
  {
    var after := Apply(rules, st, step);
    assert step.Arrive? || WellFormed(rules, st.calls[step.id]);
    assert WellFormed(rules, after.calls[step.id]);
  }

  lemma {:induction false} RunWellFormed(rules: seq<Rule>, steps: Log<Step>)
    ensures AllWellFormed(rules, Run(rules, steps))
  {
    if steps.More? {
      RunWellFormed(rules, steps.before);
      if Enabled(rules, Run(rules, steps.before), steps.last) {
        StepWellFormed(rules, Run(rules, steps.before), steps.last);
      }
    }
  }

  /** The slot whose counter a step changes, and by how much. */
  function Touched(rules: seq<Rule>, st: State, step: Step): Slot
    requires Enabled(rules, st, step) && (step.Consume? || step.GiveBack?)
  {
    if step.Consume? then Slot(rules[|st.calls[step.id].held|].period, step.place)
    else Slot(st.calls[step.id].held[st.calls[step.id].freed].period, step.place)
  }

  /** The unit a give-back is about, as it was consumed. */
  function Returned(st: State, id: CallId): Slot
    requires id in st.calls && st.calls[id].Releasing? && st.calls[id].freed < |st.calls[id].held|
  {
    st.calls[id].held[st.calls[id].freed]
  }

  function OutstandingOf(st: State, id: CallId): set<Slot> {
    if id in st.calls then Outstanding(st.calls[id]) else {}
  }

  /** A consume adds one unit to its call, a give-back removes the unit consumed; nothing else
      changes what a call holds. */
  lemma OutstandingChanges(rules: seq<Rule>, st: State, step: Step)
    requires ValidRules(rules) && AllWellFormed(rules, st) && Enabled(rules, st, step)
    ensures var after := OutstandingOf(Apply(rules, st, step), step.id);
            var before := OutstandingOf(st, step.id);
            match step
            case Consume(_, _) =>
              var slot := Touched(rules, st, step);
              slot !in before && after == before + {slot} && forall s | s in before :: s.period != slot.period
            case GiveBack(id, _) =>
              var slot := Returned(st, id);
              slot in before && after == before - {slot} && forall s | s in after :: s.period != slot.period
            case _ => after == before
  {
    if !step.Arrive? {
      var phase := st.calls[step.id];
      assert WellFormed(rules, phase);
      if step.Consume? {
        SlotsAppended(phase.held, Touched(rules, st, step));
      } else if step.GiveBack? {
        var held, freed := phase.held, phase.freed;
        assert SlotsFrom(held, freed, |held|) == {held[freed]} + SlotsFrom(held, freed + 1, |held|);
      }
    }
  }

  lemma HoldersChange(rules: seq<Rule>, st: State, step: Step, slot: Slot)
    requires Enabled(rules, st, step)
    ensures Holders(Apply(rules, st, step), slot)
         == if slot in OutstandingOf(Apply(rules, st, step), step.id)
            then Holders(st, slot) + {step.id} else Holders(st, slot) - {step.id}
    ensures step.id in Holders(st, slot) <==> slot in OutstandingOf(st, step.id)
  {
  }

  // ---- What a counter counts -------------------------------------------------------------------

  /** A give-back into the slot of a unit that was taken from another one. */
  function StrayInto1(rules: seq<Rule>, st: State, step: Step, slot: Slot): nat {
    if step.GiveBack? && Enabled(rules, st, step) && Touched(rules, st, step) == slot && Returned(st, step.id) != slot
    then 1 else 0
  }

  /** A give-back elsewhere of a unit that was taken from the slot. */
  function StrayOut1(rules: seq<Rule>, st: State, step: Step, slot: Slot): nat {
    if step.GiveBack? && Enabled(rules, st, step) && Touched(rules, st, step) != slot && Returned(st, step.id) == slot
    then 1 else 0
  }

  function StraysInto(rules: seq<Rule>, steps: Log<Step>, slot: Slot): nat {
    match steps
    case Empty => 0
    case More(before, step) => StraysInto(rules, before, slot) + StrayInto1(rules, Run(rules, before), step, slot)
  }

  function StraysOut(rules: seq<Rule>, steps: Log<Step>, slot: Slot): nat {
    match steps
    case Empty => 0
    case More(before, step) => StraysOut(rules, before, slot) + StrayOut1(rules, Run(rules, before), step, slot)
  }

  lemma StepAccount(rules: seq<Rule>, st: State, step: Step, slot: Slot)
    requires ValidRules(rules) && AllWellFormed(rules, st) && Enabled(rules, st, step)
    ensures var after := Apply(rules, st, step);
            Get(after.counters, slot) - Get(st.counters, slot) + StrayInto1(rules, st, step, slot)
            == |Holders(after, slot)| - |Holders(st, slot)| + StrayOut1(rules, st, step, slot)
  {
    OutstandingChanges(rules, st, step);
    HoldersChange(rules, st, step, slot);
  }

  /** Under every interleaving, whatever counters the give-backs find: a counter with the strays it
      got equals the units held of it with the strays it lost. */
  lemma {:induction false} CounterAccounts(rules: seq<Rule>, steps: Log<Step>, slot: Slot)
    requires ValidRules(rules)
    ensures Get(Run(rules, steps).counters, slot) + StraysInto(rules, steps, slot)
         == |Holders(Run(rules, steps), slot)| + StraysOut(rules, steps, slot)
  {
    if steps.More? {
      CounterAccounts(rules, steps.before, slot);
      RunWellFormed(rules, steps.before);
      if Enabled(rules, Run(rules, steps.before), steps.last) {
        StepAccount(rules, Run(rules, steps.before), steps.last, slot);
      }
    }
  }

  /** Every counter equals the units held of it. */
  ghost predicate Conserved(st: State) {
    forall slot :: Get(st.counters, slot) == |Holders(st, slot)|
  }

  /** A give-back that finds the counter its unit was taken from. */
  predicate Aligned(rules: seq<Rule>, st: State, step: Step) {
    step.GiveBack? && Enabled(rules, st, step) ==> step.place == Returned(st, step.id).place
  }

  predicate AlignedRun(rules: seq<Rule>, steps: Log<Step>) {
    steps.More? ==> AlignedRun(rules, steps.before) && Aligned(rules, Run(rules, steps.before), steps.last)
  }

  ghost predicate AlwaysConserved(rules: seq<Rule>, steps: Log<Step>) {
    Conserved(Run(rules, steps)) && (steps.More? ==> AlwaysConserved(rules, steps.before))
  }

  lemma StepConserves(rules: seq<Rule>, st: State, step: Step)
    requires ValidRules(rules) && AllWellFormed(rules, st) && Enabled(rules, st, step) && Conserved(st)
    ensures Conserved(Apply(rules, st, step)) <==> Aligned(rules, st, step)
  {
    var after := Apply(rules, st, step);
    if Aligned(rules, st, step) {
      forall slot
        ensures Get(after.counters, slot) == |Holders(after, slot)|
      {
        StepAccount(rules, st, step, slot);
        assert Get(st.counters, slot) == |Holders(st, slot)|;
      }
    } else {
      var slot := Touched(rules, st, step);
      StepAccount(rules, st, step, slot);
      assert Get(st.counters, slot) == |Holders(st, slot)|;
      assert Get(after.counters, slot) != |Holders(after, slot)|;
    }
  }

  /** Under every interleaving, the counters equal the units held throughout the run if and only if
      every give-back finds the counter its unit was taken from. */
  lemma {:induction false} ConservedIffAligned(rules: seq<Rule>, steps: Log<Step>)
    requires ValidRules(rules)
    ensures AlwaysConserved(rules, steps) <==> AlignedRun(rules, steps)
  {
    if steps.More? {
      ConservedIffAligned(rules, steps.before);
      RunWellFormed(rules, steps.before);
      var st := Run(rules, steps.before);
      if AlwaysConserved(rules, steps.before) && Enabled(rules, st, steps.last) {
        StepConserves(rules, st, steps.last);
      }
    }
  }

  // ---- The quota -------------------------------------------------------------------------------

  function PassedOf(st: State, id: CallId): set<Slot> {
    if id in st.calls then Passed(st.calls[id]) else {}
  }

  lemma PassedAreHeld(rules: seq<Rule>, st: State, slot: Slot)
    requires AllWellFormed(rules, st)
    ensures PassedHolders(st, slot) <= Holders(st, slot)
    ensures |PassedHolders(st, slot)| <= |Holders(st, slot)|
  {
    forall id | id in PassedHolders(st, slot)
      ensures id in Holders(st, slot)
    {
      assert WellFormed(rules, st.calls[id]);
    }
    SubsetSize(PassedHolders(st, slot), Holders(st, slot));
  }

  /** Only a consume within the limit adds a passed unit. */
  lemma PassedChanges(rules: seq<Rule>, st: State, step: Step)
    requires ValidRules(rules) && AllWellFormed(rules, st) && Enabled(rules, st, step)
    ensures var after := PassedOf(Apply(rules, st, step), step.id);
            if step.Consume? && Get(st.counters, Touched(rules, st, step)) < rules[|st.calls[step.id].held|].maxRequests
            then after == PassedOf(st, step.id) + {Touched(rules, st, step)}
            else after <= PassedOf(st, step.id)
  {
    if step.Consume? {
      var held := st.calls[step.id].held;
      SlotsAppended(held, Touched(rules, st, step));
    }
  }

  lemma PassedHoldersChange(rules: seq<Rule>, st: State, step: Step, slot: Slot)
    requires Enabled(rules, st, step)
    ensures var after := Apply(rules, st, step);
            PassedHolders(after, slot)
            == if slot in PassedOf(after, step.id) then PassedHolders(st, slot) + {step.id}
               else PassedHolders(st, slot) - {step.id}
    ensures step.id in PassedHolders(st, slot) <==> slot in PassedOf(st, step.id)
  {
  }

  lemma JoinOrLeave<T>(s: set<T>, x: T, joins: bool)
    ensures |if joins then s + {x} else s - {x}| == |s| + (if joins && x !in s then 1 else 0)
                                                   - (if !joins && x in s then 1 else 0)
  {
  }

  /** One step adds at most one call past the check of a slot, and only if its counter has room. */
  lemma StepPassed(rules: seq<Rule>, st: State, step: Step, i: nat, slot: Slot)
    requires ValidRules(rules) && AllWellFormed(rules, st) && Enabled(rules, st, step)
    requires i < |rules| && slot.period == rules[i].period
    ensures var before, after := |PassedHolders(st, slot)|, |PassedHolders(Apply(rules, st, step), slot)|;
            after <= before
            || (after == before + 1 && step.Consume? && Touched(rules, st, step) == slot
                && Get(st.counters, slot) < rules[i].maxRequests)
  {
    PassedChanges(rules, st, step);
    PassedHoldersChange(rules, st, step, slot);
    JoinOrLeave(PassedHolders(st, slot), step.id, slot in PassedOf(Apply(rules, st, step), step.id));
  }

  /** Under every interleaving: the calls that passed the check of a counter and still hold its unit,
      and so the calls admitted, exceed `max_requests` by no more than the strays the counter got. */
  lemma {:induction false} NeverOverQuota(rules: seq<Rule>, steps: Log<Step>, i: nat, slot: Slot)
    requires ValidRules(rules) && i < |rules| && slot.period == rules[i].period
    ensures |PassedHolders(Run(rules, steps), slot)| <= rules[i].maxRequests + StraysInto(rules, steps, slot)
    ensures |Admitted(Run(rules, steps), slot)| <= rules[i].maxRequests + StraysInto(rules, steps, slot)
  {
    if steps.More? {
      var st := Run(rules, steps.before);
      NeverOverQuota(rules, steps.before, i, slot);
      CounterAccounts(rules, steps.before, slot);
      RunWellFormed(rules, steps.before);
      PassedAreHeld(rules, st, slot);
      if Enabled(rules, st, steps.last) {
        StepPassed(rules, st, steps.last, i, slot);
      }
    }
    SubsetSize(Admitted(Run(rules, steps), slot), PassedHolders(Run(rules, steps), slot));
  }

  // ---- Conservation over all buckets of a period -----------------------------------------------

  function InPeriod(period: Quota.Period): Slot -> bool { (slot: Slot) => slot.period == period }

  ghost predicate HoldsPeriod(units: set<Slot>, period: Quota.Period) {
    exists slot :: slot in units && slot.period == period
  }

  ghost function PeriodHolders(st: State, period: Quota.Period): set<CallId> {
    set id | id in st.calls && HoldsPeriod(Outstanding(st.calls[id]), period)
  }

  /** How a step changes whether its call holds a unit of a period, and the counters of the period. */
  lemma PeriodChanges(rules: seq<Rule>, st: State, step: Step, period: Quota.Period)
    requires ValidRules(rules) && AllWellFormed(rules, st) && Enabled(rules, st, step)
    ensures var after := Apply(rules, st, step);
            var change := Sum(after.counters, InPeriod(period)) - Sum(st.counters, InPeriod(period));
            var held := HoldsPeriod(OutstandingOf(st, step.id), period);
            var holds := HoldsPeriod(OutstandingOf(after, step.id), period);
            change == (if holds then 1 else 0) - (if held then 1 else 0)
    ensures Net1(rules, st, step, step.id, period)
         == Sum(Apply(rules, st, step).counters, InPeriod(period)) - Sum(st.counters, InPeriod(period))
  {
    OutstandingChanges(rules, st, step);
    var after := Apply(rules, st, step);
    if step.Consume? {
      var slot := Touched(rules, st, step);
      SumWrite(st.counters, InPeriod(period), slot, Get(st.counters, slot) + 1);
      assert slot in OutstandingOf(after, step.id);
    } else if step.GiveBack? {
      var slot := Touched(rules, st, step);
      SumWrite(st.counters, InPeriod(period), slot, Get(st.counters, slot) - 1);
      assert Returned(st, step.id) in OutstandingOf(st, step.id);
      assert Returned(st, step.id).period == slot.period;
    }
  }

  /** Over all buckets of a period together the counters equal the units held, under every
      interleaving, wherever the give-backs land. */
  lemma {:induction false} TotalConserved(rules: seq<Rule>, steps: Log<Step>, period: Quota.Period)
    requires ValidRules(rules)
    ensures Sum(Run(rules, steps).counters, InPeriod(period)) == |PeriodHolders(Run(rules, steps), period)|
  {
    if steps.More? {
      TotalConserved(rules, steps.before, period);
      RunWellFormed(rules, steps.before);
      var st, step := Run(rules, steps.before), steps.last;
      if Enabled(rules, st, step) {
        PeriodChanges(rules, st, step, period);
        PeriodHoldersChange(rules, st, step, period);
      }
    }
  }

  lemma PeriodHoldersChange(rules: seq<Rule>, st: State, step: Step, period: Quota.Period)
    requires Enabled(rules, st, step)
    ensures var after := Apply(rules, st, step);
            PeriodHolders(after, period)
            == if HoldsPeriod(OutstandingOf(after, step.id), period) then PeriodHolders(st, period) + {step.id}
               else PeriodHolders(st, period) - {step.id}
    ensures step.id in PeriodHolders(st, period) <==> HoldsPeriod(OutstandingOf(st, step.id), period)
  {
  }

  // ---- What one call leaves behind -------------------------------------------------------------

  /** What a step of call `id` adds to the counters of a period, and to one counter. */
  function Net1(rules: seq<Rule>, st: State, step: Step, id: CallId, period: Quota.Period): int {
    if step.id != id || !Enabled(rules, st, step) then 0
    else if step.Consume? && Touched(rules, st, step).period == period then 1
    else if step.GiveBack? && Touched(rules, st, step).period == period then -1
    else 0
  }

  function Net(rules: seq<Rule>, steps: Log<Step>, id: CallId, period: Quota.Period): int {
    match steps
    case Empty => 0
    case More(before, step) => Net(rules, before, id, period) + Net1(rules, Run(rules, before), step, id, period)
  }

  function NetOnSlot(rules: seq<Rule>, steps: Log<Step>, id: CallId, slot: Slot): int {
    match steps
    case Empty => 0
    case More(before, step) =>
      var st := Run(rules, before);
      NetOnSlot(rules, before, id, slot) +
      if step.id != id || !Enabled(rules, st, step) || step.Arrive? || step.Upstream? then 0
      else if Touched(rules, st, step) != slot then 0
      else if step.Consume? then 1 else -1
  }

  /** What a call has added to the counters of a period is what it still holds of it. */
  lemma {:induction false} NetIsHeld(rules: seq<Rule>, steps: Log<Step>, id: CallId, period: Quota.Period)
    requires ValidRules(rules)
    ensures Net(rules, steps, id, period)
         == if HoldsPeriod(OutstandingOf(Run(rules, steps), id), period) then 1 else 0
  {
    if steps.More? {
      NetIsHeld(rules, steps.before, id, period);
      RunWellFormed(rules, steps.before);
      if Enabled(rules, Run(rules, steps.before), steps.last) {
        PeriodChanges(rules, Run(rules, steps.before), steps.last, period);
      }
    }
  }

  /** The give-backs of this call find their counters. */
  predicate AlignedCall(rules: seq<Rule>, steps: Log<Step>, id: CallId) {
    steps.More? ==>
      && AlignedCall(rules, steps.before, id)
      && (steps.last.id == id ==> Aligned(rules, Run(rules, steps.before), steps.last))
  }

  /** ... and, when its give-backs find their counters, the same for every single counter. */
  lemma {:induction false} NetOnSlotIsHeld(rules: seq<Rule>, steps: Log<Step>, id: CallId, slot: Slot)
    requires ValidRules(rules) && AlignedCall(rules, steps, id)
    ensures NetOnSlot(rules, steps, id, slot) == if slot in OutstandingOf(Run(rules, steps), id) then 1 else 0
  {
    if steps.More? {
      NetOnSlotIsHeld(rules, steps.before, id, slot);
      RunWellFormed(rules, steps.before);
      if Enabled(rules, Run(rules, steps.before), steps.last) {
        OutstandingChanges(rules, Run(rules, steps.before), steps.last);
      }
    }
  }

  /** How many units of a period a call has given back, and whether they found their counters. */
  function Gives(rules: seq<Rule>, steps: Log<Step>, id: CallId, period: Quota.Period): nat {
    match steps
    case Empty => 0
    case More(before, step) =>
      Gives(rules, before, id, period) + if GivesOf(rules, Run(rules, before), step, id, period) then 1 else 0
  }

  predicate GivesOf(rules: seq<Rule>, st: State, step: Step, id: CallId, period: Quota.Period) {
    step.GiveBack? && step.id == id && Enabled(rules, st, step) && Returned(st, id).period == period
  }

  predicate AlignedOn(rules: seq<Rule>, steps: Log<Step>, id: CallId, period: Quota.Period) {
    steps.More? ==>
      && AlignedOn(rules, steps.before, id, period)
      && (GivesOf(rules, Run(rules, steps.before), steps.last, id, period) ==>
            Aligned(rules, Run(rules, steps.before), steps.last))
  }

  predicate NothingOn(rules: seq<Rule>, steps: Log<Step>, id: CallId, slot: Slot) {
    NetOnSlot(rules, steps, id, slot) == 0
  }

  /** A call gives back a unit of a period at most once, and then holds none, nor takes another. */
  ghost predicate GivenOnce(rules: seq<Rule>, steps: Log<Step>, id: CallId, period: Quota.Period) {
    if Gives(rules, steps, id, period) == 0 then
      && AlignedOn(rules, steps, id, period)
      && forall slot: Slot | slot.period == period ::
           NetOnSlot(rules, steps, id, slot) == if slot in OutstandingOf(Run(rules, steps), id) then 1 else 0
    else
      && Gives(rules, steps, id, period) == 1
      && id in Run(rules, steps).calls
      && (Run(rules, steps).calls[id].Releasing? || Run(rules, steps).calls[id].Failed?)
      && (forall slot | slot in OutstandingOf(Run(rules, steps), id) :: slot.period != period)
      && (AlignedOn(rules, steps, id, period)
          <==> forall slot: Slot | slot.period == period :: NothingOn(rules, steps, id, slot))
  }

  /** Other steps of the call do not touch the counters of a period it has given back. */
  lemma GivenStays(rules: seq<Rule>, steps: Log<Step>, id: CallId, period: Quota.Period)
    requires ValidRules(rules) && steps.More? && Gives(rules, steps.before, id, period) == 1
    requires GivenOnce(rules, steps.before, id, period)
    ensures GivenOnce(rules, steps, id, period)
  {
    var st, step := Run(rules, steps.before), steps.last;
    RunWellFormed(rules, steps.before);
    if Enabled(rules, st, step) {
      OutstandingChanges(rules, st, step);
    }
    assert !GivesOf(rules, st, step, id, period);
    forall slot: Slot | slot.period == period
      ensures NothingOn(rules, steps, id, slot) <==> NothingOn(rules, steps.before, id, slot)
    {
    }
  }

  /** The one give-back of a period leaves its counters as they were if and only if it is no stray. */
  lemma FirstGiven(rules: seq<Rule>, steps: Log<Step>, id: CallId, period: Quota.Period)
    requires ValidRules(rules) && steps.More? && Gives(rules, steps.before, id, period) == 0
    requires GivenOnce(rules, steps.before, id, period)
    requires GivesOf(rules, Run(rules, steps.before), steps.last, id, period)
    ensures GivenOnce(rules, steps, id, period)
  {
    var st, step := Run(rules, steps.before), steps.last;
    var taken, found := Returned(st, id), Touched(rules, st, step);
    RunWellFormed(rules, steps.before);
    OutstandingChanges(rules, st, step);
    forall slot: Slot | slot.period == period
      ensures NetOnSlot(rules, steps, id, slot) == (if slot == taken then 1 else 0) - (if slot == found then 1 else 0)
    {
    }
    assert NothingOn(rules, steps, id, taken) <==> found == taken;
  }

  lemma {:induction false} GivenAtMostOnce(rules: seq<Rule>, steps: Log<Step>, id: CallId, period: Quota.Period)
    requires ValidRules(rules)
    ensures GivenOnce(rules, steps, id, period)
  {
    if steps.More? {
      var st, step := Run(rules, steps.before), steps.last;
      GivenAtMostOnce(rules, steps.before, id, period);
      if Gives(rules, steps.before, id, period) == 1 {
        GivenStays(rules, steps, id, period);
      } else if GivesOf(rules, st, step, id, period) {
        FirstGiven(rules, steps, id, period);
      } else {
        RunWellFormed(rules, steps.before);
        if Enabled(rules, st, step) {
          OutstandingChanges(rules, st, step);
        }
      }
    }
  }

  lemma {:induction false} AlignedByPeriod(rules: seq<Rule>, steps: Log<Step>, id: CallId)
    ensures AlignedCall(rules, steps, id)
       <==> AlignedOn(rules, steps, id, Quota.Daily) && AlignedOn(rules, steps, id, Quota.Monthly)
  {
    if steps.More? {
      AlignedByPeriod(rules, steps.before, id);
    }
  }

  /** A call that ended in a quota or upstream error has left every period's counters net unchanged; and
      every single counter if and only if its own give-backs found theirs. */
  lemma FailedCallLeavesNothing(rules: seq<Rule>, steps: Log<Step>, id: CallId)
    requires ValidRules(rules)
    requires id in Run(rules, steps).calls && Run(rules, steps).calls[id].Failed?
    ensures forall period :: Net(rules, steps, id, period) == 0
    ensures AlignedCall(rules, steps, id) <==> forall slot :: NothingOn(rules, steps, id, slot)
  {
    forall period
      ensures Net(rules, steps, id, period) == 0
    {
      NetIsHeld(rules, steps, id, period);
    }
    AlignedByPeriod(rules, steps, id);
    GivenAtMostOnce(rules, steps, id, Quota.Daily);
    GivenAtMostOnce(rules, steps, id, Quota.Monthly);
    if AlignedCall(rules, steps, id) {
      forall slot
        ensures NothingOn(rules, steps, id, slot)
      {
        GivenAtMostOnce(rules, steps, id, slot.period);
        assert slot.period == Quota.Daily || slot.period == Quota.Monthly;
      }
    }
  }

  // ---- A give-back that strays -------------------------------------------------------------------

  const ONE_A_DAY := [Rule(Quota.Daily, 1)]

  /** A call consumes today, fails, and gives back after midnight; or, within the same day, after the
      key that it found has expired. */
  function LateFailure(today: Place, tomorrow: Place): Log<Step> {
    More(More(More(More(Empty, Arrive(0)), Consume(0, today)), Upstream(0, false)), GiveBack(0, tomorrow))
  }

  /** Two calls on the next counter follow. */
  function MidnightRun(today: Place, tomorrow: Place): Log<Step> {
    More(More(More(More(LateFailure(today, tomorrow), Arrive(1)), Consume(1, tomorrow)), Arrive(2)),
         Consume(2, tomorrow))
  }

  lemma SoloConsume(st: State, id: CallId, place: Place)
    requires id in st.calls && st.calls[id] == Enforcing([])
    requires Get(st.counters, Slot(Quota.Daily, place)) < 1
    ensures var slot := Slot(Quota.Daily, place);
            var rules := ONE_A_DAY;
            Enabled(rules, st, Consume(id, place)) && Apply(rules, st, Consume(id, place))
            == State(st.counters[slot := Get(st.counters, slot) + 1], st.calls[id := Forwarding([slot])])
  {
    assert [] + [Slot(Quota.Daily, place)] == [Slot(Quota.Daily, place)];
  }

  /** The call of `LateFailure` up to where it is to give back. */
  lemma BeforeLateFailure(today: Place)
    ensures Run(ONE_A_DAY, More(More(More(Empty, Arrive(0)), Consume(0, today)), Upstream(0, false)))
         == State(map[Slot(Quota.Daily, today) := 1], map[0 := Releasing([Slot(Quota.Daily, today)], 0, false)])
  {
    var a := Slot(Quota.Daily, today);
    var arrived := More(Empty, Arrive(0));
    assert Run(ONE_A_DAY, Empty) == START;
    assert Run(ONE_A_DAY, arrived) == State(map[], map[0 := Enforcing([])]);
    SoloConsume(Run(ONE_A_DAY, arrived), 0, today);
    assert Run(ONE_A_DAY, More(arrived, Consume(0, today))) == State(map[a := 1], map[0 := Forwarding([a])]);
  }

  lemma AfterLateFailure(today: Place, tomorrow: Place)
    requires today != tomorrow
    ensures !AlignedRun(ONE_A_DAY, LateFailure(today, tomorrow))
    ensures Run(ONE_A_DAY, LateFailure(today, tomorrow))
         == State(map[Slot(Quota.Daily, today) := 1, Slot(Quota.Daily, tomorrow) := -1], map[0 := Failed])
  {
    BeforeLateFailure(today);
  }

  lemma AdmittedAfterMidnight(st: State, today: Place, tomorrow: Place)
    requires today != tomorrow
    requires st == State(map[Slot(Quota.Daily, today) := 1, Slot(Quota.Daily, tomorrow) := -1], map[0 := Failed])
    ensures var one := Apply(ONE_A_DAY, st, Arrive(1));
            Enabled(ONE_A_DAY, one, Consume(1, tomorrow)) &&
            var two := Apply(ONE_A_DAY, one, Consume(1, tomorrow));
            var b := Slot(Quota.Daily, tomorrow);
            Enabled(ONE_A_DAY, two, Arrive(2)) && Get(two.counters, b) == 0
            && two.calls == map[0 := Failed, 1 := Forwarding([b])]
  {
    SoloConsume(Apply(ONE_A_DAY, st, Arrive(1)), 1, tomorrow);
  }

  lemma NoStrayByOthers(rules: seq<Rule>, steps: Log<Step>, step: Step, slot: Slot)
    requires !step.GiveBack?
    ensures StraysInto(rules, More(steps, step), slot) == StraysInto(rules, steps, slot)
  {
  }

  lemma OneStray(today: Place, tomorrow: Place)
    requires today != tomorrow
    ensures StraysInto(ONE_A_DAY, MidnightRun(today, tomorrow), Slot(Quota.Daily, tomorrow)) == 1
  {
    var b := Slot(Quota.Daily, tomorrow);
    var steps := MidnightRun(today, tomorrow);
    var late := LateFailure(today, tomorrow);
    AfterLateFailure(today, tomorrow);
    CounterAccounts(ONE_A_DAY, late, b);
    NoStrayByOthers(ONE_A_DAY, steps.before, steps.last, b);
    NoStrayByOthers(ONE_A_DAY, steps.before.before, steps.before.last, b);
    NoStrayByOthers(ONE_A_DAY, steps.before.before.before, steps.before.before.last, b);
    NoStrayByOthers(ONE_A_DAY, late, Arrive(1), b);
    assert Holders(Run(ONE_A_DAY, late), b) == {};
    NothingLost(today, tomorrow);
  }

  lemma NothingLost(today: Place, tomorrow: Place)
    requires today != tomorrow
    ensures StraysOut(ONE_A_DAY, LateFailure(today, tomorrow), Slot(Quota.Daily, tomorrow)) == 0
  {
    var steps := LateFailure(today, tomorrow);
    var b := Slot(Quota.Daily, tomorrow);
    var slots := [Slot(Quota.Daily, today)];
    assert StraysOut(ONE_A_DAY, steps.before.before.before, b) == 0;
    assert StraysOut(ONE_A_DAY, steps.before.before, b) == 0;
    assert StraysOut(ONE_A_DAY, steps.before, b) == 0;
    BeforeLateFailure(today);
    assert Returned(Run(ONE_A_DAY, steps.before), 0) == slots[0];
  }

  /** The bound on strays is reached: after one stray the counter it hit starts at -1 and lets one call
      more through than the limit. */
  lemma MidnightGiveBackOverruns(today: Place, tomorrow: Place)
    requires today != tomorrow
    ensures ValidRules(ONE_A_DAY) && !AlignedRun(ONE_A_DAY, MidnightRun(today, tomorrow))
    ensures var admitted := Admitted(Run(ONE_A_DAY, MidnightRun(today, tomorrow)), Slot(Quota.Daily, tomorrow));
            admitted == {1, 2} && |admitted| == ONE_A_DAY[0].maxRequests + 1
    ensures StraysInto(ONE_A_DAY, MidnightRun(today, tomorrow), Slot(Quota.Daily, tomorrow)) == 1
  {
    OneStray(today, tomorrow);
    var b := Slot(Quota.Daily, tomorrow);
    var steps := MidnightRun(today, tomorrow);
    AfterLateFailure(today, tomorrow);
    var st := Run(ONE_A_DAY, LateFailure(today, tomorrow));
    AdmittedAfterMidnight(st, today, tomorrow);
    assert steps.before.before.before.before == LateFailure(today, tomorrow);
    assert !AlignedRun(ONE_A_DAY, steps.before.before.before);
    assert !AlignedRun(ONE_A_DAY, steps.before.before);
    var one := Run(ONE_A_DAY, steps.before.before.before);
    assert one == Apply(ONE_A_DAY, st, Arrive(1));
    var two := Run(ONE_A_DAY, steps.before.before);
    assert two == Apply(ONE_A_DAY, one, Consume(1, tomorrow));
    var three := Run(ONE_A_DAY, steps.before);
    assert three == Apply(ONE_A_DAY, two, Arrive(2));
    SoloConsume(three, 2, tomorrow);
    assert Run(ONE_A_DAY, steps).calls == map[0 := Failed, 1 := Forwarding([b]), 2 := Forwarding([b])];
    assert [b][0] == b;
    assert Admitted(Run(ONE_A_DAY, steps), b) == {1, 2};
  }
}
