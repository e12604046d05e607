/** Whether the limit of a counter is safe from here on. A counter that got stray give-backs is short of the
    units held of it, and so it will be if units from elsewhere are on their way into it. Whether that can
    let too many calls past its check depends on what can happen while the keys lead to the counters they
    lead to now: calls come, are checked, fail and give back. */
module QuotaSafety {
  import opened Logs
  import opened Sets
  import opened Sums
  import opened GatewayQuota
  import Quota

  /** The counter that the key of each period leads to now. */
  type Here = Quota.Period -> Place

  /** A step that finds the counters of `here`. */
  predicate StepHere(rules: seq<Rule>, here: Here, st: State, step: Step) {
    Enabled(rules, st, step) && (step.Consume? || step.GiveBack?)
    ==> step.place == here(Touched(rules, st, step).period)
  }

  /** `later` continues the run `steps` on the counters of `here`. */
  predicate Continues(rules: seq<Rule>, here: Here, steps: Log<Step>, later: Log<Step>) {
    later == steps
    || (later.More? && Continues(rules, here, steps, later.before)
        && StepHere(rules, here, Run(rules, later.before), later.last))
  }

  /** However the run continues, the calls past the check of the counter keep its limit. */
  ghost predicate Safe(rules: seq<Rule>, here: Here, steps: Log<Step>, i: nat, slot: Slot)
    requires i < |rules|
  {
    forall later | Continues(rules, here, steps, later) ::
      |PassedHolders(Run(rules, later), slot)| <= rules[i].maxRequests
  }

  // ---- Calls on their way ----------------------------------------------------------------------

  /** The call may still give back its unit of the first quota. */
  predicate HoldsFirst(phase: Phase) {
    match phase
    case Enforcing(held) => held != []
    case Forwarding(held) => held != []
    case Releasing(held, freed, _) => held != [] && freed == 0
    case Served(_) => false
    case Failed => false
  }

  function InFlight(st: State): set<CallId> { set id | id in st.calls && HoldsFirst(st.calls[id]) }

  /** Calls whose next step is the check of the i-th quota. */
  function Waiting(st: State, i: nat): set<CallId> {
    set id | id in st.calls && AtCheck(st.calls[id], i)
  }

  predicate AtCheck(phase: Phase, i: nat) { phase.Enforcing? && |phase.held| == i }

  /** The call may still give back, into the counter, a unit that it took from another one. */
  ghost predicate MayStray(phase: Phase, slot: Slot) {
    !phase.Served? && exists other :: other in Outstanding(phase) && other.period == slot.period && other != slot
  }

  ghost function Astray(st: State, slot: Slot): set<CallId> {
    set id | id in st.calls && MayStray(st.calls[id], slot)
  }

  function FirstSlot(rules: seq<Rule>, here: Here): Slot
    requires rules != []
  {
    Slot(rules[0].period, here(rules[0].period))
  }

  /** What the first quota's counter would show if every call on its way gave back. */
  function Level(rules: seq<Rule>, here: Here, st: State): int
    requires rules != []
  {
    Get(st.counters, FirstSlot(rules, here)) - |InFlight(st)|
  }

  /** Enough calls can get to the check of the i-th quota to fill its limit: it is checked first; or the
      first quota has room, once the calls on their way have given back; or enough of them are already
      past it. There are two periods, so no third quota. */
  predicate CanFill(rules: seq<Rule>, here: Here, st: State, i: nat, slot: Slot)
    requires i < |rules|
  {
    || i == 0
    || Level(rules, here, st) < rules[0].maxRequests
    || |Waiting(st, i)| + |PassedHolders(st, slot)| > rules[i].maxRequests
  }

  lemma TwoOfThree(a: Quota.Period, b: Quota.Period, c: Quota.Period)
    ensures a == b || a == c || b == c
  {
  }

  lemma TwoPeriods(rules: seq<Rule>)
    requires ValidRules(rules)
    ensures |rules| <= 2
  {
    if |rules| > 2 {
      TwoOfThree(rules[0].period, rules[1].period, rules[2].period);
    }
  }

  // ---- One step --------------------------------------------------------------------------------

  /** What one call's change of phase does to the sets of calls. */
  lemma CallChanges(st: State, after: State, id: CallId, phase: Phase, slot: Slot, i: nat)
    requires after.calls == st.calls[id := phase]
    ensures PassedHolders(after, slot)
         == if slot in Passed(phase) then PassedHolders(st, slot) + {id} else PassedHolders(st, slot) - {id}
    ensures Holders(after, slot)
         == if slot in Outstanding(phase) then Holders(st, slot) + {id} else Holders(st, slot) - {id}
    ensures InFlight(after) == if HoldsFirst(phase) then InFlight(st) + {id} else InFlight(st) - {id}
    ensures Waiting(after, i)
         == if phase.Enforcing? && |phase.held| == i then Waiting(st, i) + {id} else Waiting(st, i) - {id}
  {
  }

  lemma InFlightChanges(st: State, after: State, id: CallId, phase: Phase)
    requires after.calls == st.calls[id := phase]
    ensures |InFlight(after)| == |InFlight(st)| + (if HoldsFirst(phase) && id !in InFlight(st) then 1 else 0)
                                 - (if !HoldsFirst(phase) && id in InFlight(st) then 1 else 0)
  {
    assert InFlight(after) == if HoldsFirst(phase) then InFlight(st) + {id} else InFlight(st) - {id};
    JoinOrLeave(InFlight(st), id, HoldsFirst(phase));
  }

  /** Consuming and giving back of the first quota keep its level; being served raises it. */
  lemma LevelRises(rules: seq<Rule>, here: Here, st: State, step: Step)
    requires ValidRules(rules) && rules != [] && AllWellFormed(rules, st)
    requires Enabled(rules, st, step) && StepHere(rules, here, st, step)
    ensures var after := Apply(rules, st, step);
            if step.Upstream? && step.ok then Level(rules, here, after) >= Level(rules, here, st)
            else Level(rules, here, after) == Level(rules, here, st)
  {
    var after := Apply(rules, st, step);
    InFlightChanges(st, after, step.id, after.calls[step.id]);
    if !step.Arrive? {
      assert WellFormed(rules, st.calls[step.id]);
    }
  }

  lemma WaitingChanges(st: State, after: State, id: CallId, phase: Phase)
    requires after.calls == st.calls[id := phase] && !(phase.Enforcing? && |phase.held| == 1)
    ensures |Waiting(after, 1)| == |Waiting(st, 1)| - if id in Waiting(st, 1) then 1 else 0
  {
    assert Waiting(after, 1) == Waiting(st, 1) - {id};
  }

  /** While the first quota has no room, no call gets to the second check, and those that pass it were
      waiting for it. */
  lemma NoneArrives(rules: seq<Rule>, here: Here, st: State, step: Step)
    requires ValidRules(rules) && |rules| == 2 && AllWellFormed(rules, st)
    requires Enabled(rules, st, step) && StepHere(rules, here, st, step)
    requires Level(rules, here, st) >= rules[0].maxRequests
    ensures var phase := Apply(rules, st, step).calls[step.id]; !(phase.Enforcing? && |phase.held| == 1)
    ensures step.Consume? && Touched(rules, st, step).period == rules[1].period ==> step.id in Waiting(st, 1)
  {
    if !step.Arrive? {
      assert WellFormed(rules, st.calls[step.id]);
    }
  }

  /** So every call past the second check was waiting for it. */
  lemma NoneJoin(rules: seq<Rule>, here: Here, st: State, step: Step, slot: Slot)
    requires ValidRules(rules) && |rules| == 2 && AllWellFormed(rules, st)
    requires Enabled(rules, st, step) && StepHere(rules, here, st, step)
    requires slot.period == rules[1].period && Level(rules, here, st) >= rules[0].maxRequests
    ensures var after := Apply(rules, st, step);
            |Waiting(after, 1)| + |PassedHolders(after, slot)| <= |Waiting(st, 1)| + |PassedHolders(st, slot)|
  {
    var after := Apply(rules, st, step);
    StepPassed(rules, st, step, 1, slot);
    NoneArrives(rules, here, st, step);
    WaitingChanges(st, after, step.id, after.calls[step.id]);
  }

  // ---- Safe ------------------------------------------------------------------------------------

  /** A counter that no key leads to is passed by no more calls. */
  lemma {:induction false} ElsewhereIsSafe(rules: seq<Rule>, here: Here, steps: Log<Step>, later: Log<Step>,
                                           i: nat, slot: Slot)
    requires ValidRules(rules) && i < |rules| && slot.period == rules[i].period
    requires slot.place != here(slot.period) && Continues(rules, here, steps, later)
    ensures |PassedHolders(Run(rules, later), slot)| <= |PassedHolders(Run(rules, steps), slot)|
  {
    if later != steps {
      ElsewhereIsSafe(rules, here, steps, later.before, i, slot);
      RunWellFormed(rules, later.before);
      if Enabled(rules, Run(rules, later.before), later.last) {
        StepPassed(rules, Run(rules, later.before), later.last, i, slot);
      }
    }
  }

  lemma AstraySet(st: State, after: State, id: CallId, phase: Phase, slot: Slot)
    requires after.calls == st.calls[id := phase]
    ensures Astray(after, slot) == if MayStray(phase, slot) then Astray(st, slot) + {id} else Astray(st, slot) - {id}
  {
    forall other
      ensures other in Astray(after, slot)
         <==> if other == id then MayStray(phase, slot) else other in Astray(st, slot)
    {
      assert other != id && other in st.calls ==> after.calls[other] == st.calls[other];
    }
  }

  lemma AstrayChanges(st: State, after: State, id: CallId, phase: Phase, slot: Slot)
    requires after.calls == st.calls[id := phase]
    ensures |Astray(after, slot)| == |Astray(st, slot)|
                                     + (if MayStray(phase, slot) && id !in Astray(st, slot) then 1 else 0)
                                     - (if !MayStray(phase, slot) && id in Astray(st, slot) then 1 else 0)
  {
    AstraySet(st, after, id, phase, slot);
    JoinOrLeave(Astray(st, slot), id, MayStray(phase, slot));
  }

  /** What the counter shows beyond the units held of it and those on their way into it. */
  ghost function Margin(st: State, slot: Slot): int {
    Get(st.counters, slot) - |Holders(st, slot)| - |Astray(st, slot)|
  }

  /** On the counters of `here` a call that is astray gives back into the slot, or is served. */
  lemma StrayStep(rules: seq<Rule>, here: Here, st: State, step: Step, slot: Slot)
    requires ValidRules(rules) && AllWellFormed(rules, st) && slot.place == here(slot.period)
    requires Enabled(rules, st, step) && StepHere(rules, here, st, step)
    ensures var after := Apply(rules, st, step);
            var strays, stray := step.id in Astray(st, slot), MayStray(after.calls[step.id], slot);
            if step.GiveBack? && Returned(st, step.id).period == slot.period && Returned(st, step.id) != slot
            then strays && !stray
            else (stray ==> strays) && (strays && !stray ==> step.Upstream? && step.ok)
  {
    var after := Apply(rules, st, step);
    var phase := after.calls[step.id];
    OutstandingChanges(rules, st, step);
    if step.id in Astray(st, slot) {
      var other :| other in Outstanding(st.calls[step.id]) && other.period == slot.period && other != slot;
      if other in Outstanding(phase) {
        assert !phase.Served? ==> MayStray(phase, slot);
      }
    }
    if MayStray(phase, slot) {
      var other :| other in Outstanding(phase) && other.period == slot.period && other != slot;
      assert other in OutstandingOf(st, step.id);
    }
  }

  lemma MarginRises(rules: seq<Rule>, here: Here, st: State, step: Step, slot: Slot)
    requires ValidRules(rules) && AllWellFormed(rules, st) && slot.place == here(slot.period)
    requires Enabled(rules, st, step) && StepHere(rules, here, st, step)
    ensures Margin(Apply(rules, st, step), slot) >= Margin(st, slot)
    ensures !(step.Upstream? && step.ok) ==> Margin(Apply(rules, st, step), slot) == Margin(st, slot)
  {
    var after := Apply(rules, st, step);
    StepAccount(rules, st, step, slot);
    StrayStep(rules, here, st, step, slot);
    AstrayChanges(st, after, step.id, after.calls[step.id], slot);
  }

  /** The margin never falls. */
  lemma {:induction false} MarginNeverFalls(rules: seq<Rule>, here: Here, steps: Log<Step>, later: Log<Step>,
                                            slot: Slot)
    requires ValidRules(rules) && Continues(rules, here, steps, later) && slot.place == here(slot.period)
    ensures Margin(Run(rules, later), slot) >= Margin(Run(rules, steps), slot)
  {
    if later != steps {
      MarginNeverFalls(rules, here, steps, later.before, slot);
      RunWellFormed(rules, later.before);
      if Enabled(rules, Run(rules, later.before), later.last) {
        MarginRises(rules, here, Run(rules, later.before), later.last, slot);
      }
    }
  }

  lemma {:induction false} CoveredIsSafe(rules: seq<Rule>, here: Here, steps: Log<Step>, later: Log<Step>,
                                         i: nat, slot: Slot)
    requires ValidRules(rules) && i < |rules| && slot == Slot(rules[i].period, here(rules[i].period))
    requires Continues(rules, here, steps, later) && Margin(Run(rules, steps), slot) >= 0
    requires |PassedHolders(Run(rules, steps), slot)| <= rules[i].maxRequests
    ensures |PassedHolders(Run(rules, later), slot)| <= rules[i].maxRequests
  {
    if later != steps {
      var st := Run(rules, later.before);
      CoveredIsSafe(rules, here, steps, later.before, i, slot);
      MarginNeverFalls(rules, here, steps, later.before, slot);
      RunWellFormed(rules, later.before);
      PassedAreHeld(rules, st, slot);
      if Enabled(rules, st, later.last) {
        StepPassed(rules, st, later.last, i, slot);
      }
    }
  }

  /** A counter that not enough calls can get to is not overrun, however short it is. */
  lemma {:induction false} UnfilledIsSafe(rules: seq<Rule>, here: Here, steps: Log<Step>, later: Log<Step>,
                                          i: nat, slot: Slot)
    requires ValidRules(rules) && i < |rules| && slot.period == rules[i].period
    requires Continues(rules, here, steps, later) && !CanFill(rules, here, Run(rules, steps), i, slot)
    ensures !CanFill(rules, here, Run(rules, later), i, slot)
    ensures |PassedHolders(Run(rules, later), slot)| <= rules[i].maxRequests
  {
    if later != steps {
      var st := Run(rules, later.before);
      UnfilledIsSafe(rules, here, steps, later.before, i, slot);
      RunWellFormed(rules, later.before);
      TwoPeriods(rules);
      if Enabled(rules, st, later.last) {
        LevelRises(rules, here, st, later.last);
        NoneJoin(rules, here, st, later.last, slot);
      }
    }
  }

  // ---- Not safe --------------------------------------------------------------------------------

  lemma {:induction false} ContinuesFurther(
    rules: seq<Rule>, here: Here, steps: Log<Step>, mid: Log<Step>, later: Log<Step>)
    requires Continues(rules, here, steps, mid) && Continues(rules, here, mid, later)
    ensures Continues(rules, here, steps, later)
  {
    if later != mid {
      ContinuesFurther(rules, here, steps, mid, later.before);
    }
  }

  /** One possible step more. */
  lemma OneStep(rules: seq<Rule>, here: Here, steps: Log<Step>, step: Step)
    requires ValidRules(rules) && rules != []
    requires Enabled(rules, Run(rules, steps), step) && StepHere(rules, here, Run(rules, steps), step)
    ensures Continues(rules, here, steps, More(steps, step))
    ensures Run(rules, More(steps, step)) == Apply(rules, Run(rules, steps), step)
    ensures !(step.Upstream? && step.ok) ==>
              Level(rules, here, Run(rules, More(steps, step))) == Level(rules, here, Run(rules, steps))
  {
    assert Continues(rules, here, steps, steps);
    RunWellFormed(rules, steps);
    LevelRises(rules, here, Run(rules, steps), step);
  }

  /** A call that holds a unit of the counter without having passed its check gives all back. */
  lemma {:induction false} FinishRelease(rules: seq<Rule>, here: Here, slot: Slot, steps: Log<Step>, id: CallId)
    returns (later: Log<Step>)
    requires ValidRules(rules) && rules != [] && slot.place == here(slot.period)
    requires id in Run(rules, steps).calls && Run(rules, steps).calls[id].Releasing?
    requires var phase := Run(rules, steps).calls[id];
             WellFormed(rules, phase) && phase.held[|phase.held| - 1] == slot
    ensures Continues(rules, here, steps, later)
    ensures Run(rules, later).calls == Run(rules, steps).calls[id := Failed]
    ensures Get(Run(rules, later).counters, slot) == Get(Run(rules, steps).counters, slot) - 1
    ensures Level(rules, here, Run(rules, later)) == Level(rules, here, Run(rules, steps))
    decreases |Run(rules, steps).calls[id].held| - Run(rules, steps).calls[id].freed
  {
    var phase := Run(rules, steps).calls[id];
    var held, freed := phase.held, phase.freed;
    var step := GiveBack(id, here(held[freed].period));
    assert freed < |held| - 1 ==> held[freed].period != slot.period;
    OneStep(rules, here, steps, step);
    later := More(steps, step);
    if freed + 1 < |held| {
      var mid := later;
      assert Run(rules, mid).calls[id] == Releasing(held, freed + 1, phase.exceeded);
      later := FinishRelease(rules, here, slot, mid, id);
      ContinuesFurther(rules, here, steps, mid, later);
    }
  }

  /** Every unit of the counter is held past its check. */
  ghost predicate Clean(st: State, slot: Slot) {
    forall id | id in st.calls && slot in Outstanding(st.calls[id]) :: slot in Passed(st.calls[id])
  }

  lemma CleanHolders(st: State, slot: Slot)
    requires Clean(st, slot)
    ensures |Holders(st, slot)| <= |PassedHolders(st, slot)|
  {
    SubsetSize(Holders(st, slot), PassedHolders(st, slot));
  }

  lemma AllPassedIsClean(st: State, slot: Slot)
    requires Holders(st, slot) - PassedHolders(st, slot) == {}
    ensures Clean(st, slot)
  {
    forall id | id in st.calls && slot in Outstanding(st.calls[id])
      ensures slot in Passed(st.calls[id])
    {
      assert id in Holders(st, slot) && id !in Holders(st, slot) - PassedHolders(st, slot);
    }
  }

  lemma OneReleased(st: State, after: State, id: CallId, slot: Slot, i: nat)
    requires id in Holders(st, slot) - PassedHolders(st, slot) && after.calls == st.calls[id := Failed]
    ensures Holders(after, slot) == Holders(st, slot) - {id} && PassedHolders(after, slot) == PassedHolders(st, slot)
    ensures Waiting(after, i) == Waiting(st, i)
    ensures Holders(after, slot) - PassedHolders(after, slot) < Holders(st, slot) - PassedHolders(st, slot)
  {
    CallChanges(st, after, id, Failed, slot, i);
    assert id !in Holders(after, slot);
  }

  /** All calls that have not passed the check give back. */
  lemma {:induction false} ReleaseUnpassed(rules: seq<Rule>, here: Here, steps: Log<Step>, i: nat, slot: Slot)
    returns (later: Log<Step>)
    requires ValidRules(rules) && i < |rules| && slot.place == here(slot.period)
    requires |Holders(Run(rules, steps), slot)| > Get(Run(rules, steps).counters, slot)
    ensures Continues(rules, here, steps, later) && Clean(Run(rules, later), slot)
    ensures |Holders(Run(rules, later), slot)| > Get(Run(rules, later).counters, slot)
    ensures PassedHolders(Run(rules, later), slot) == PassedHolders(Run(rules, steps), slot)
    ensures Waiting(Run(rules, later), i) == Waiting(Run(rules, steps), i)
    ensures Level(rules, here, Run(rules, later)) == Level(rules, here, Run(rules, steps))
    decreases Holders(Run(rules, steps), slot) - PassedHolders(Run(rules, steps), slot)
  {
    later := steps;
    var st := Run(rules, steps);
    var unpassed := Holders(st, slot) - PassedHolders(st, slot);
    assert Continues(rules, here, steps, steps);
    if id :| id in unpassed {
      RunWellFormed(rules, steps);
      var mid := FinishRelease(rules, here, slot, steps, id);
      OneReleased(st, Run(rules, mid), id, slot, i);
      later := ReleaseUnpassed(rules, here, mid, i, slot);
      ContinuesFurther(rules, here, steps, mid, later);
    } else {
      AllPassedIsClean(st, slot);
    }
  }

  /** What one more call past the check needs to leave: nothing lost, one more passed. */
  ghost predicate OnePassed(rules: seq<Rule>, here: Here, st: State, after: State, i: nat, slot: Slot)
    requires i < |rules|
  {
    && Clean(after, slot)
    && |PassedHolders(after, slot)| == |PassedHolders(st, slot)| + 1
    && Get(after.counters, slot) == Get(st.counters, slot) + 1
    && Level(rules, here, after) == Level(rules, here, st)
    && |Waiting(after, i)| + 1 >= |Waiting(st, i)|
  }

  /** A call at the check passes it, if the counter has room. */
  lemma PassCheck(rules: seq<Rule>, here: Here, steps: Log<Step>, i: nat, slot: Slot, id: CallId)
    returns (later: Log<Step>)
    requires ValidRules(rules) && i < |rules| && slot == Slot(rules[i].period, here(rules[i].period))
    requires id in Waiting(Run(rules, steps), i) && Clean(Run(rules, steps), slot)
    requires Get(Run(rules, steps).counters, slot) < rules[i].maxRequests
    ensures Continues(rules, here, steps, later)
    ensures OnePassed(rules, here, Run(rules, steps), Run(rules, later), i, slot)
  {
    var st, step := Run(rules, steps), Consume(id, slot.place);
    RunWellFormed(rules, steps);
    OneStep(rules, here, steps, step);
    later := More(steps, step);
    var after := Run(rules, later);
    SlotsAppended(st.calls[id].held, slot);
    assert WellFormed(rules, st.calls[id]);
    OneMorePassed(st, after, id, after.calls[id], slot, i);
  }

  lemma OneMorePassed(st: State, after: State, id: CallId, phase: Phase, slot: Slot, i: nat)
    requires after.calls == st.calls[id := phase] && id in st.calls && slot !in Passed(st.calls[id])
    requires Clean(st, slot) && slot in Passed(phase)
    ensures Clean(after, slot) && |PassedHolders(after, slot)| == |PassedHolders(st, slot)| + 1
    ensures |Waiting(after, i)| + 1 >= |Waiting(st, i)|
  {
    CallChanges(st, after, id, phase, slot, i);
    JoinOrLeave(PassedHolders(st, slot), id, true);
    JoinOrLeave(Waiting(st, i), id, phase.Enforcing? && |phase.held| == i);
  }

  /** A new call. */
  lemma NewCall(rules: seq<Rule>, here: Here, steps: Log<Step>) returns (later: Log<Step>, id: CallId)
    requires ValidRules(rules) && rules != []
    ensures Continues(rules, here, steps, later) && id !in Run(rules, steps).calls
    ensures Run(rules, later) == Run(rules, steps).(calls := Run(rules, steps).calls[id := Enforcing([])])
    ensures Level(rules, here, Run(rules, later)) == Level(rules, here, Run(rules, steps))
  {
    id := Fresh(Run(rules, steps).calls.Keys);
    OneStep(rules, here, steps, Arrive(id));
    later := More(steps, Arrive(id));
  }

  lemma NewCallChanges(st: State, after: State, id: CallId, phase: Phase, slot: Slot, i: nat)
    requires id !in st.calls && after.calls == st.calls[id := phase] && Clean(st, slot)
    requires slot !in Outstanding(phase) && slot !in Passed(phase)
    ensures Clean(after, slot) && PassedHolders(after, slot) == PassedHolders(st, slot)
    ensures Waiting(st, i) <= Waiting(after, i)
    ensures phase.Enforcing? && |phase.held| == i ==>
              id in Waiting(after, i) && |Waiting(after, i)| == |Waiting(st, i)| + 1
  {
    CallChanges(st, after, id, phase, slot, i);
    assert id !in Waiting(st, i) && id !in PassedHolders(st, slot);
  }

  /** A new call passes the check of the first quota. */
  lemma PassFirst(rules: seq<Rule>, here: Here, steps: Log<Step>, slot: Slot) returns (later: Log<Step>)
    requires ValidRules(rules) && rules != [] && slot == FirstSlot(rules, here)
    requires Clean(Run(rules, steps), slot) && Get(Run(rules, steps).counters, slot) < rules[0].maxRequests
    ensures Continues(rules, here, steps, later)
    ensures OnePassed(rules, here, Run(rules, steps), Run(rules, later), 0, slot)
  {
    var arrived, id := NewCall(rules, here, steps);
    NewCallChanges(Run(rules, steps), Run(rules, arrived), id, Enforcing([]), slot, 0);
    later := PassCheck(rules, here, arrived, 0, slot, id);
    ContinuesFurther(rules, here, steps, arrived, later);
  }

  /** A new call passes the checks of both quotas. */
  lemma PassBoth(rules: seq<Rule>, here: Here, steps: Log<Step>, slot: Slot) returns (later: Log<Step>)
    requires ValidRules(rules) && |rules| == 2 && slot == Slot(rules[1].period, here(rules[1].period))
    requires Clean(Run(rules, steps), slot) && Get(Run(rules, steps).counters, slot) < rules[1].maxRequests
    requires Get(Run(rules, steps).counters, FirstSlot(rules, here)) < rules[0].maxRequests
    ensures Continues(rules, here, steps, later)
    ensures OnePassed(rules, here, Run(rules, steps), Run(rules, later), 1, slot)
  {
    var first := FirstSlot(rules, here);
    var arrived, id := NewCall(rules, here, steps);
    var step := Consume(id, first.place);
    OneStep(rules, here, arrived, step);
    var passed := More(arrived, step);
    var st, after := Run(rules, steps), Run(rules, passed);
    assert [] + [first] == [first];
    assert after.calls == st.calls[id := Enforcing([first])];
    assert slot.period != first.period;
    NewCallChanges(st, after, id, Enforcing([first]), slot, 1);
    later := PassCheck(rules, here, passed, 1, slot, id);
    ContinuesFurther(rules, here, steps, arrived, passed);
    ContinuesFurther(rules, here, steps, passed, later);
  }

  /** A call on its way that is past the second check, or was turned back at the first, gives back its unit
      of the first quota; it keeps what it holds of the second. */
  lemma FreeFirst(rules: seq<Rule>, here: Here, steps: Log<Step>, slot: Slot, id: CallId) returns (later: Log<Step>)
    requires ValidRules(rules) && |rules| == 2 && slot.period == rules[1].period && Clean(Run(rules, steps), slot)
    requires id in InFlight(Run(rules, steps)) && id !in Waiting(Run(rules, steps), 1)
    ensures Continues(rules, here, steps, later) && Clean(Run(rules, later), slot)
    ensures PassedHolders(Run(rules, later), slot) == PassedHolders(Run(rules, steps), slot)
    ensures Waiting(Run(rules, later), 1) == Waiting(Run(rules, steps), 1)
    ensures InFlight(Run(rules, later)) == InFlight(Run(rules, steps)) - {id}
    ensures Get(Run(rules, later).counters, slot) == Get(Run(rules, steps).counters, slot)
    ensures Level(rules, here, Run(rules, later)) == Level(rules, here, Run(rules, steps))
  {
    var failed := FailUpstream(rules, here, steps, slot, id);
    later := GiveFirst(rules, here, failed, slot, id);
    ContinuesFurther(rules, here, steps, failed, later);
  }

  lemma GiveFirst(rules: seq<Rule>, here: Here, steps: Log<Step>, slot: Slot, id: CallId) returns (later: Log<Step>)
    requires ValidRules(rules) && |rules| == 2 && slot.period == rules[1].period && Clean(Run(rules, steps), slot)
    requires id in Run(rules, steps).calls && Run(rules, steps).calls[id].Releasing?
    requires Run(rules, steps).calls[id].freed == 0
    ensures Continues(rules, here, steps, later) && Clean(Run(rules, later), slot)
    ensures PassedHolders(Run(rules, later), slot) == PassedHolders(Run(rules, steps), slot)
    ensures Waiting(Run(rules, later), 1) == Waiting(Run(rules, steps), 1)
    ensures InFlight(Run(rules, later)) == InFlight(Run(rules, steps)) - {id}
    ensures Get(Run(rules, later).counters, slot) == Get(Run(rules, steps).counters, slot)
    ensures Level(rules, here, Run(rules, later)) == Level(rules, here, Run(rules, steps))
  {
    var step := GiveBack(id, here(rules[0].period));
    RunWellFormed(rules, steps);
    FirstIsNotTheSlot(rules, here, Run(rules, steps), slot, id);
    OneStep(rules, here, steps, step);
    later := More(steps, step);
    FirstIsFreed(rules, Run(rules, steps), Run(rules, later), slot, id);
  }

  lemma FirstIsNotTheSlot(rules: seq<Rule>, here: Here, st: State, slot: Slot, id: CallId)
    requires ValidRules(rules) && |rules| == 2 && slot.period == rules[1].period && AllWellFormed(rules, st)
    requires id in st.calls && st.calls[id].Releasing? && st.calls[id].freed == 0
    ensures var step := GiveBack(id, here(rules[0].period));
            && WellFormed(rules, st.calls[id]) && Enabled(rules, st, step) && StepHere(rules, here, st, step)
            && Get(Apply(rules, st, step).counters, slot) == Get(st.counters, slot)
  {
    assert WellFormed(rules, st.calls[id]);
  }

  lemma FirstIsFreed(rules: seq<Rule>, st: State, after: State, slot: Slot, id: CallId)
    requires ValidRules(rules) && |rules| == 2 && slot.period == rules[1].period && Clean(st, slot)
    requires id in st.calls && st.calls[id].Releasing? && st.calls[id].freed == 0 && WellFormed(rules, st.calls[id])
    requires after.calls == st.calls[id := Release(st.calls[id].held, 1, st.calls[id].exceeded)]
    ensures Clean(after, slot) && PassedHolders(after, slot) == PassedHolders(st, slot)
    ensures Waiting(after, 1) == Waiting(st, 1) && InFlight(after) == InFlight(st) - {id}
  {
    var held, phase := st.calls[id].held, after.calls[id];
    CallChanges(st, after, id, phase, slot, 1);
    assert held[0].period == rules[0].period;
    assert SlotsFrom(held, 0, |held|) == {held[0]} + SlotsFrom(held, 1, |held|);
    assert |held| > 1 ==> SlotsFrom(held, 0, |held| - 1) == {held[0]} + SlotsFrom(held, 1, |held| - 1);
    assert slot in Passed(phase) <==> slot in Passed(st.calls[id]);
    assert slot in Outstanding(phase) <==> slot in Outstanding(st.calls[id]);
  }

  /** A call that is with the upstream fails; one that is giving back already does nothing. */
  lemma FailUpstream(rules: seq<Rule>, here: Here, steps: Log<Step>, slot: Slot, id: CallId) returns (later: Log<Step>)
    requires ValidRules(rules) && |rules| == 2 && slot.period == rules[1].period && Clean(Run(rules, steps), slot)
    requires id in InFlight(Run(rules, steps)) && id !in Waiting(Run(rules, steps), 1)
    ensures Continues(rules, here, steps, later) && Clean(Run(rules, later), slot)
    ensures id in Run(rules, later).calls
    ensures Run(rules, later).calls[id].Releasing? && Run(rules, later).calls[id].freed == 0
    ensures PassedHolders(Run(rules, later), slot) == PassedHolders(Run(rules, steps), slot)
    ensures Waiting(Run(rules, later), 1) == Waiting(Run(rules, steps), 1)
    ensures InFlight(Run(rules, later)) == InFlight(Run(rules, steps))
    ensures Run(rules, later).counters == Run(rules, steps).counters
    ensures Level(rules, here, Run(rules, later)) == Level(rules, here, Run(rules, steps))
  {
    var st := Run(rules, steps);
    later := steps;
    RunWellFormed(rules, steps);
    assert WellFormed(rules, st.calls[id]);
    assert Continues(rules, here, steps, steps);
    if st.calls[id].Forwarding? {
      OneStep(rules, here, steps, Upstream(id, false));
      later := More(steps, Upstream(id, false));
      HoldsOn(st, Run(rules, later), slot, id);
    }
  }

  lemma HoldsOn(st: State, after: State, slot: Slot, id: CallId)
    requires id in st.calls && st.calls[id].Forwarding? && st.calls[id].held != [] && Clean(st, slot)
    requires after.calls == st.calls[id := Releasing(st.calls[id].held, 0, false)]
    ensures Clean(after, slot) && PassedHolders(after, slot) == PassedHolders(st, slot)
    ensures Waiting(after, 1) == Waiting(st, 1) && InFlight(after) == InFlight(st)
  {
    var phase := Releasing(st.calls[id].held, 0, false);
    assert Passed(phase) == Outstanding(phase) == Outstanding(st.calls[id]) == Passed(st.calls[id]);
    CallChanges(st, after, id, phase, slot, 1);
  }

  lemma {:induction false} Overrun(rules: seq<Rule>, here: Here, steps: Log<Step>, i: nat, slot: Slot)
    returns (later: Log<Step>)
    requires ValidRules(rules) && i < |rules| && slot == Slot(rules[i].period, here(rules[i].period))
    requires Clean(Run(rules, steps), slot) && CanFill(rules, here, Run(rules, steps), i, slot)
    requires |PassedHolders(Run(rules, steps), slot)| > Get(Run(rules, steps).counters, slot)
    ensures Continues(rules, here, steps, later)
    ensures |PassedHolders(Run(rules, later), slot)| > rules[i].maxRequests
    decreases rules[i].maxRequests - |PassedHolders(Run(rules, steps), slot)|, InFlight(Run(rules, steps))
  {
    var st := Run(rules, steps);
    later := steps;
    assert Continues(rules, here, steps, steps);
    TwoPeriods(rules);
    if |PassedHolders(st, slot)| <= rules[i].maxRequests {
      var mid;
      if i == 0 {
        mid := PassFirst(rules, here, steps, slot);
      } else if id :| id in Waiting(st, 1) {
        mid := PassCheck(rules, here, steps, 1, slot, id);
      } else if id :| id in InFlight(st) {
        mid := FreeFirst(rules, here, steps, slot, id);
      } else {
        assert |InFlight(st)| == 0 && |Waiting(st, 1)| == 0;
        mid := PassBoth(rules, here, steps, slot);
      }
      later := Overrun(rules, here, mid, i, slot);
      ContinuesFurther(rules, here, steps, mid, later);
    }
  }

  /** A counter that is short of the units held of it, and that a key leads to and enough calls can fill, is
      overrun by some continuation. */
  lemma ShortCounterOverruns(rules: seq<Rule>, here: Here, steps: Log<Step>, i: nat, slot: Slot)
    returns (later: Log<Step>)
    requires ValidRules(rules) && i < |rules| && slot == Slot(rules[i].period, here(rules[i].period))
    requires |Holders(Run(rules, steps), slot)| > Get(Run(rules, steps).counters, slot)
    requires CanFill(rules, here, Run(rules, steps), i, slot)
    ensures Continues(rules, here, steps, later)
    ensures |PassedHolders(Run(rules, later), slot)| > rules[i].maxRequests
  {
    var mid := ReleaseUnpassed(rules, here, steps, i, slot);
    CleanHolders(Run(rules, mid), slot);
    later := Overrun(rules, here, mid, i, slot);
    ContinuesFurther(rules, here, steps, mid, later);
  }

  // ---- Units astray ----------------------------------------------------------------------------

  /** What driving a call leaves as it was. */
  ghost predicate Undisturbed(rules: seq<Rule>, here: Here, st: State, after: State, i: nat, slot: Slot)
    requires rules != []
  {
    && PassedHolders(after, slot) == PassedHolders(st, slot)
    && Holders(after, slot) == Holders(st, slot)
    && Waiting(after, i) == Waiting(st, i)
    && Level(rules, here, after) == Level(rules, here, st)
  }

  /** The unit of the i-th quota that a call holds, and may still give back, is not one of the slot. */
  predicate StrayAt(phase: Phase, i: nat, slot: Slot) {
    match phase
    case Served(_) => false
    case Failed => false
    case Releasing(held, freed, _) => freed <= i < |held| && held[i] != slot
    case _ => i < |phase.held| && phase.held[i] != slot
  }

  lemma HeldByPlace(rules: seq<Rule>, held: seq<Slot>, first: nat, end: nat, i: nat, slot: Slot)
    requires ValidRules(rules) && HeldInOrder(rules, held) && first <= end <= |held| && i < |rules|
    requires slot.period == rules[i].period
    ensures slot in SlotsFrom(held, first, end) <==> first <= i < end && held[i] == slot
  {
    forall k | first <= k < end && held[k].period == slot.period
      ensures k == i
    {
      assert rules[k].period == rules[i].period;
    }
  }

  lemma StrayByPlace(rules: seq<Rule>, phase: Phase, i: nat, slot: Slot)
    requires ValidRules(rules) && WellFormed(rules, phase) && i < |rules| && slot.period == rules[i].period
    ensures MayStray(phase, slot) <==> StrayAt(phase, i, slot)
    ensures StrayAt(phase, i, slot) ==> slot !in Outstanding(phase) && slot !in Passed(phase)
  {
    if !phase.Failed? && !phase.Served? {
      var held, first := phase.held, if phase.Releasing? then phase.freed else 0;
      if i < |held| {
        HeldByPlace(rules, held, first, |held|, i, held[i]);
        HeldByPlace(rules, held, first, |held|, i, slot);
        HeldByPlace(rules, held, first, if |held| == first then first else |held| - 1, i, slot);
      }
      forall other | other in Outstanding(phase) && other.period == slot.period
        ensures i < |held| && other == held[i] && first <= i
      {
        HeldByPlace(rules, held, first, |held|, i, other);
      }
    }
  }

  /** A call that neither holds the slot nor waits for its check, before or after. */
  lemma OutOfSight(st: State, after: State, id: CallId, phase: Phase, slot: Slot, i: nat)
    requires id in st.calls && after.calls == st.calls[id := phase]
    requires slot !in Outstanding(phase) && slot !in Outstanding(st.calls[id])
    requires slot !in Passed(phase) && slot !in Passed(st.calls[id])
    requires !AtCheck(phase, i) && !AtCheck(st.calls[id], i)
    ensures PassedHolders(after, slot) == PassedHolders(st, slot) && Holders(after, slot) == Holders(st, slot)
    ensures Waiting(after, i) == Waiting(st, i)
  {
    CallChanges(st, after, id, phase, slot, i);
  }

  /** The call goes on, and stays astray, or has just given the unit back. */
  predicate GoesStraight(phase: Phase, i: nat, slot: Slot) {
    StrayAt(phase, i, slot) || (phase.Releasing? && phase.freed == i + 1) || phase.Failed?
  }

  lemma StrayGoesOn(rules: seq<Rule>, here: Here, st: State, after: State, id: CallId, phase: Phase, i: nat, slot: Slot)
    requires ValidRules(rules) && AllWellFormed(rules, st) && AllWellFormed(rules, after)
    requires i < |rules| && slot.period == rules[i].period
    requires id in st.calls && after.calls == st.calls[id := phase] && StrayAt(st.calls[id], i, slot)
    requires Level(rules, here, after) == Level(rules, here, st) && GoesStraight(phase, i, slot)
    ensures Undisturbed(rules, here, st, after, i, slot)
    ensures Astray(after, slot) == if StrayAt(phase, i, slot) then Astray(st, slot) else Astray(st, slot) - {id}
    ensures id in Astray(st, slot)
  {
    assert WellFormed(rules, st.calls[id]) && WellFormed(rules, after.calls[id]);
    StrayByPlace(rules, st.calls[id], i, slot);
    StrayByPlace(rules, phase, i, slot);
    GivenIsGone(rules, phase, i, slot);
    OutOfSight(st, after, id, phase, slot, i);
    AstraySet(st, after, id, phase, slot);
  }

  lemma GivenIsGone(rules: seq<Rule>, phase: Phase, i: nat, slot: Slot)
    requires ValidRules(rules) && WellFormed(rules, phase) && i < |rules| && slot.period == rules[i].period
    ensures (phase.Releasing? && phase.freed == i + 1) || phase.Failed? ==>
              slot !in Outstanding(phase) && slot !in Passed(phase)
  {
    if phase.Releasing? && phase.freed == i + 1 {
      HeldByPlace(rules, phase.held, phase.freed, |phase.held|, i, slot);
      HeldByPlace(rules, phase.held, phase.freed, |phase.held| - 1, i, slot);
    }
  }

  /** The next step of a call astray that is not giving back yet: a check that comes after, or the answer
      of the upstream. */
  function TowardsRelease(rules: seq<Rule>, here: Here, st: State, id: CallId): Step
    requires id in st.calls && (st.calls[id].Forwarding? || (st.calls[id].Enforcing? && |st.calls[id].held| < |rules|))
  {
    if st.calls[id].Forwarding? then Upstream(id, false) else Consume(id, here(rules[|st.calls[id].held|].period))
  }

  lemma TowardsReleaseKeeps(rules: seq<Rule>, here: Here, st: State, id: CallId, i: nat, slot: Slot)
    requires ValidRules(rules) && AllWellFormed(rules, st) && i < |rules| && slot.period == rules[i].period
    requires id in st.calls && StrayAt(st.calls[id], i, slot) && !st.calls[id].Releasing?
    ensures WellFormed(rules, st.calls[id])
    ensures var step := TowardsRelease(rules, here, st, id);
            && Enabled(rules, st, step) && StepHere(rules, here, st, step)
            && var after := Apply(rules, st, step);
               var phase := after.calls[id];
               && after.calls == st.calls[id := phase] && StrayAt(phase, i, slot)
               && (phase.Releasing? || (phase.Forwarding? && st.calls[id].Enforcing?))
               && Get(after.counters, slot) == Get(st.counters, slot)
  {
    assert WellFormed(rules, st.calls[id]);
    TwoPeriods(rules);
  }

  /** A call astray gets to giving back. */
  lemma {:induction false} GetToRelease(rules: seq<Rule>, here: Here, steps: Log<Step>, i: nat, slot: Slot, id: CallId)
    returns (later: Log<Step>)
    requires ValidRules(rules) && i < |rules| && slot.period == rules[i].period
    requires id in Run(rules, steps).calls && StrayAt(Run(rules, steps).calls[id], i, slot)
    ensures Continues(rules, here, steps, later)
    ensures Undisturbed(rules, here, Run(rules, steps), Run(rules, later), i, slot)
    ensures Astray(Run(rules, later), slot) == Astray(Run(rules, steps), slot)
    ensures Get(Run(rules, later).counters, slot) == Get(Run(rules, steps).counters, slot)
    ensures id in Run(rules, later).calls && StrayAt(Run(rules, later).calls[id], i, slot)
    ensures Run(rules, later).calls[id].Releasing?
    decreases var phase := Run(rules, steps).calls[id];
              if phase.Enforcing? then 2 else if phase.Forwarding? then 1 else 0
  {
    var st := Run(rules, steps);
    later := steps;
    assert Continues(rules, here, steps, steps);
    if !st.calls[id].Releasing? {
      RunWellFormed(rules, steps);
      TowardsReleaseKeeps(rules, here, st, id, i, slot);
      var step := TowardsRelease(rules, here, st, id);
      OneStep(rules, here, steps, step);
      var mid := More(steps, step);
      RunWellFormed(rules, mid);
      StrayGoesOn(rules, here, st, Run(rules, mid), id, Run(rules, mid).calls[id], i, slot);
      later := GetToRelease(rules, here, mid, i, slot, id);
      ContinuesFurther(rules, here, steps, mid, later);
    }
  }

  lemma ReleaseKeeps(rules: seq<Rule>, here: Here, st: State, id: CallId, i: nat, slot: Slot)
    requires ValidRules(rules) && AllWellFormed(rules, st)
    requires i < |rules| && slot == Slot(rules[i].period, here(rules[i].period))
    requires id in st.calls && StrayAt(st.calls[id], i, slot) && st.calls[id].Releasing?
    ensures WellFormed(rules, st.calls[id])
    ensures var freed := st.calls[id].freed;
            var step := GiveBack(id, here(rules[freed].period));
            && Enabled(rules, st, step) && StepHere(rules, here, st, step)
            && var after := Apply(rules, st, step);
               var phase := after.calls[id];
               && after.calls == st.calls[id := phase]
               && Get(after.counters, slot) == Get(st.counters, slot) - (if freed == i then 1 else 0)
               && (if freed == i then (phase.Releasing? && phase.freed == i + 1) || phase.Failed?
                   else StrayAt(phase, i, slot) && phase.Releasing? && phase.freed == freed + 1)
  {
    assert WellFormed(rules, st.calls[id]);
  }

  /** ... and gives its unit back, into the slot. */
  lemma {:induction false} GiveStray(rules: seq<Rule>, here: Here, steps: Log<Step>, i: nat, slot: Slot, id: CallId)
    returns (later: Log<Step>)
    requires ValidRules(rules) && i < |rules| && slot == Slot(rules[i].period, here(rules[i].period))
    requires id in Run(rules, steps).calls && StrayAt(Run(rules, steps).calls[id], i, slot)
    requires Run(rules, steps).calls[id].Releasing?
    ensures Continues(rules, here, steps, later)
    ensures Undisturbed(rules, here, Run(rules, steps), Run(rules, later), i, slot)
    ensures id in Astray(Run(rules, steps), slot)
    ensures Astray(Run(rules, later), slot) == Astray(Run(rules, steps), slot) - {id}
    ensures Get(Run(rules, later).counters, slot) == Get(Run(rules, steps).counters, slot) - 1
    decreases i - Run(rules, steps).calls[id].freed
  {
    var st := Run(rules, steps);
    RunWellFormed(rules, steps);
    ReleaseKeeps(rules, here, st, id, i, slot);
    var step := GiveBack(id, here(rules[st.calls[id].freed].period));
    OneStep(rules, here, steps, step);
    later := More(steps, step);
    RunWellFormed(rules, later);
    StrayGoesOn(rules, here, st, Run(rules, later), id, Run(rules, later).calls[id], i, slot);
    if st.calls[id].freed < i {
      var mid := later;
      later := GiveStray(rules, here, mid, i, slot, id);
      ContinuesFurther(rules, here, steps, mid, later);
    }
  }

  /** All units astray are given back, and the counter is short. */
  lemma {:induction false} GiveAllStrays(rules: seq<Rule>, here: Here, steps: Log<Step>, i: nat, slot: Slot)
    returns (later: Log<Step>)
    requires ValidRules(rules) && i < |rules| && slot == Slot(rules[i].period, here(rules[i].period))
    requires Margin(Run(rules, steps), slot) < 0
    ensures Continues(rules, here, steps, later)
    ensures Undisturbed(rules, here, Run(rules, steps), Run(rules, later), i, slot)
    ensures |Holders(Run(rules, later), slot)| > Get(Run(rules, later).counters, slot)
    decreases Astray(Run(rules, steps), slot)
  {
    later := steps;
    assert Continues(rules, here, steps, steps);
    if id :| id in Astray(Run(rules, steps), slot) {
      RunWellFormed(rules, steps);
      assert WellFormed(rules, Run(rules, steps).calls[id]);
      StrayByPlace(rules, Run(rules, steps).calls[id], i, slot);
      var releasing := GetToRelease(rules, here, steps, i, slot, id);
      var mid := GiveStray(rules, here, releasing, i, slot, id);
      ContinuesFurther(rules, here, steps, releasing, mid);
      later := GiveAllStrays(rules, here, mid, i, slot);
      ContinuesFurther(rules, here, steps, mid, later);
    }
  }

  // ---- The exact condition ---------------------------------------------------------------------

  /** A counter that does not cover the units held of it and astray, that a key leads to and enough calls can
      fill, is overrun by some continuation. */
  lemma UncoveredOverruns(rules: seq<Rule>, here: Here, steps: Log<Step>, i: nat, slot: Slot) returns (later: Log<Step>)
    requires ValidRules(rules) && i < |rules| && slot == Slot(rules[i].period, here(rules[i].period))
    requires Margin(Run(rules, steps), slot) < 0 && CanFill(rules, here, Run(rules, steps), i, slot)
    ensures Continues(rules, here, steps, later)
    ensures |PassedHolders(Run(rules, later), slot)| > rules[i].maxRequests
  {
    var mid := GiveAllStrays(rules, here, steps, i, slot);
    later := ShortCounterOverruns(rules, here, mid, i, slot);
    ContinuesFurther(rules, here, steps, mid, later);
  }

  /** In every reachable state, and for all counters that the keys may lead to: the limit of a counter is
      safe, as long as keys lead there, if and only if it is kept now, and no key leads to the counter, or
      the counter covers the units held of it and those astray that may still come back into it, or not
      enough calls can get to its check to fill it. */
  lemma SafeIff(rules: seq<Rule>, here: Here, steps: Log<Step>, i: nat, slot: Slot)
    requires ValidRules(rules) && i < |rules| && slot.period == rules[i].period
    ensures var st := Run(rules, steps);
            Safe(rules, here, steps, i, slot)
            <==> |PassedHolders(st, slot)| <= rules[i].maxRequests
                 && (slot.place != here(slot.period)
                     || |Holders(st, slot)| + |Astray(st, slot)| <= Get(st.counters, slot)
                     || !CanFill(rules, here, st, i, slot))
    ensures |Holders(Run(rules, steps), slot)| <= Get(Run(rules, steps).counters, slot)
       <==> StraysInto(rules, steps, slot) <= StraysOut(rules, steps, slot)
  {
    CounterAccounts(rules, steps, slot);
    var st := Run(rules, steps);
    assert Continues(rules, here, steps, steps);
    if |PassedHolders(st, slot)| <= rules[i].maxRequests {
      if slot.place != here(slot.period) {
        forall later | Continues(rules, here, steps, later)
          ensures |PassedHolders(Run(rules, later), slot)| <= rules[i].maxRequests
        {
          ElsewhereIsSafe(rules, here, steps, later, i, slot);
        }
      } else if Margin(st, slot) >= 0 {
        forall later | Continues(rules, here, steps, later)
          ensures |PassedHolders(Run(rules, later), slot)| <= rules[i].maxRequests
        {
          CoveredIsSafe(rules, here, steps, later, i, slot);
        }
      } else if CanFill(rules, here, st, i, slot) {
        var later := UncoveredOverruns(rules, here, steps, i, slot);
      } else {
        forall later | Continues(rules, here, steps, later)
          ensures |PassedHolders(Run(rules, later), slot)| <= rules[i].maxRequests
        {
          UnfilledIsSafe(rules, here, steps, later, i, slot);
        }
      }
    }
  }
}
