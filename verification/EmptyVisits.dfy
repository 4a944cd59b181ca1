/**
 HeaterOn visits whose defrost type turns on no heater: they have no end of their own. Exactly which visits
 are bounded, exactly what ends one that is not, and exactly on which platforms there are such visits.
 */
module EmptyVisits {
  import opened Options
  import opened Units
  import opened DefrostTypes
  import opened DefrostModel
  import opened DefrostRuns
  import opened DefrostTiming
  import opened DefrostProperties

  // ---------------------------------------------------------------- no heater is on

  predicate NoHeaterIsOn(m: Machine) { forall e: Evaporator :: !On(m, e) }

  /** A visit whose type turns on no heater has none on. */
  predicate EmptyIsCold(c: Config, m: Machine) {
    m.leaf == HeaterOn && !TypeHeats(c, m.rec.defrostType) ==> NoHeaterIsOn(m)
  }

  lemma EnteringEmptyIsCold(c: Config, m: Machine, limit: nat)
    requires Inv(c, m, limit) && 0 < limit && m.leaf == HeaterOnEntry && m.timer == Some(0)
    ensures EmptyIsCold(c, Step(c, m, DefrostTimerExpires))
  {
    var m1 := Save(Come(m.(timer := None), HeaterOn), HeaterOn);
    var r := Step(c, m, DefrostTimerExpires);
    TimerMoves(c, m.(timer := None));
    assert r == Arrive(c, m.(timer := None), HeaterOn);
    TurningOnStartsCounters(m1);
    TypeSelectsAHeater(c, m1);
    forall e: Evaporator ensures On(r, e) ==> Selects(m1, e) {
      match e case FreshFood => case Freezer => case Convertible =>
    }
  }

  lemma StepKeepsCold(c: Config, m: Machine, ev: Event, limit: nat)
    requires Inv(c, m, limit) && EmptyIsCold(c, m)
    requires 0 < limit <= 255 && Enabled(m, ev) && Bounded(ev, limit) && Tame(m, ev)
    ensures EmptyIsCold(c, Step(c, m, ev))
  {
    hide Minute, Send, Test, TakeRole, PowerUp, EvapTemperature, Told, Elapsed;
    var r := Step(c, m, ev);
    StepKeeps(c, m, ev, limit);
    if ev.DefrostTimerExpires? && m.leaf == HeaterOnEntry {
      EnteringEmptyIsCold(c, m, limit);
    } else if KeepsGroups(c, m, ev) {
      forall e: Evaporator ensures Follows(m, r) && r.leaf == HeaterOn && On(r, e) ==> On(m, e) {
        match e case FreshFood => case Freezer => case Convertible =>
      }
    } else {
      CellsHold(c, r);
      assert |Fitted(c.platform)| == 3;
    }
  }

  lemma {:induction false} RunKeepsCold(c: Config, m: Machine, evs: seq<Event>, limit: nat)
    requires Inv(c, m, limit) && EmptyIsCold(c, m) && 0 < limit <= 255
    requires Possible(c, m, evs, limit) && AllTame(c, m, evs)
    ensures EmptyIsCold(c, Run(c, m, evs))
    decreases |evs|
  {
    if evs != [] {
      StepKeeps(c, m, evs[0], limit);
      StepKeepsCold(c, m, evs[0], limit);
      hide Step, Inv, EmptyIsCold;
      RunKeepsCold(c, Step(c, m, evs[0]), evs[1..], limit);
    }
  }

  lemma ReachableIsCold(c: Config, m: Machine, limit: nat)
    requires Reachable(c, m, limit) && 0 < limit <= 255
    ensures Inv(c, m, limit) && EmptyIsCold(c, m)
  {
    ReachableInv(c, m, limit);
    var saved: Machine, env: Environment, evs: seq<Event> :|
      RunFromPowerUp(c, saved, env, evs, limit) && m == Run(c, PowerUp(c, saved, env), evs);
    PowerUpEstablishes(c, saved, env, limit);
    hide PowerUp;
    RunKeepsCold(c, PowerUp(c, saved, env), evs, limit);
  }

  // ---------------------------------------------------------------- exactly which visits are bounded

  /** A possible run without failing requests that stays in the HeaterOn visit it starts in. */
  predicate StaysInVisit(c: Config, m: Machine, evs: seq<Event>, limit: nat)
    decreases |evs|
  {
    m.leaf == HeaterOn &&
    (evs != [] ==>
       Enabled(m, evs[0]) && Bounded(evs[0], limit) && Tame(m, evs[0]) &&
       StaysInVisit(c, Step(c, m, evs[0]), evs[1..], limit))
  }

  lemma StepKeepsType(c: Config, m: Machine, ev: Event, limit: nat)
    requires Inv(c, m, limit) && 0 < limit <= 255 && Enabled(m, ev) && Bounded(ev, limit) && Tame(m, ev)
    requires m.leaf == HeaterOn && Step(c, m, ev).leaf == HeaterOn
    ensures Step(c, m, ev).rec.defrostType == m.rec.defrostType
  {
    StepKeeps(c, m, ev, limit);
    if ev.RoleChanged? { RoleChangeInHeaterOn(c, m, ev.role); }
    hide Step;
  }

  lemma {:induction false} VisitIsBounded(c: Config, m: Machine, evs: seq<Event>, limit: nat)
    requires Inv(c, m, limit) && 0 < limit <= 255 && StaysInVisit(c, m, evs, limit) && TypeHeats(c, m.rec.defrostType)
    ensures var r := Run(c, m, evs); r.hist.visits != [] && Stayed(r) <= limit * MSEC_PER_MIN
    decreases |evs|
  {
    if evs == [] {
      TypeSelectsAHeater(c, m);
      TimeOfAnOnHeater(c, m, limit);
    } else {
      StepKeeps(c, m, evs[0], limit);
      StepKeepsType(c, m, evs[0], limit);
      hide Step, Inv;
      VisitIsBounded(c, Step(c, m, evs[0]), evs[1..], limit);
    }
  }

  lemma EmptyVisitWaits(c: Config, m: Machine, ms: nat, limit: nat)
    requires Inv(c, m, limit) && m.leaf == HeaterOn && NoHeaterIsOn(m)
    ensures StaysInVisit(c, m, [Elapse(ms)], limit)
    ensures var r := Run(c, m, [Elapse(ms)]); r.hist.visits != [] && Stayed(r) == Stayed(m) + ms
  {
    CellsHold(c, m);
    assert forall e: Evaporator :: CellOk(m, e) && !On(m, e);
    var r := Elapsed(m, ms);
    assert [Elapse(ms)][1..] == [] && StaysInVisit(c, r, [], limit) && Run(c, r, []) == r;
  }

  /** Exactly which HeaterOn visits are bounded by the max-on-times: those whose type turns on a heater. */
  lemma VisitIsBoundedExactly(c: Config, m: Machine, limit: nat)
    requires Reachable(c, m, limit) && 0 < limit <= 255 && m.leaf == HeaterOn
    ensures TypeHeats(c, m.rec.defrostType) <==>
            forall evs: seq<Event> :: StaysInVisit(c, m, evs, limit) ==>
              var r := Run(c, m, evs); r.hist.visits != [] && Stayed(r) <= limit * MSEC_PER_MIN
  {
    ReachableIsCold(c, m, limit);
    if TypeHeats(c, m.rec.defrostType) {
      forall evs: seq<Event> | StaysInVisit(c, m, evs, limit)
        ensures var r := Run(c, m, evs); r.hist.visits != [] && Stayed(r) <= limit * MSEC_PER_MIN
      {
        VisitIsBounded(c, m, evs, limit);
      }
    } else {
      EmptyVisitWaits(c, m, limit * MSEC_PER_MIN + 1, limit);
    }
  }

  // ---------------------------------------------------------------- exactly what ends an empty visit

  /** Power, disabling, a request to exit or for a state, and an evaporator at its termination temperature. */
  predicate EndsEmptyVisit(c: Config, m: Machine, ev: Event) {
    ev.PowerCycle? || ev == DisableChanged(true) || (ev.TestRequested? && ev.request != RequestNone) ||
    (ev.EvapTemperatureChanged? && m.env.evapValid.At(ev.evap) && ev.temperature >= c.data.termination.At(ev.evap))
  }

  lemma GoingLeavesHeaterOn(c: Config, m: Machine, l: Leaf)
    requires l == Idle || l == Dwell || l == Disabled
    ensures Go(c, m, l).leaf != HeaterOn
  {
    if l == Idle { ArrivalKeepsVotes(c, Leave(c, m), Idle, FreshFood); }
  }

  lemma StillNoneIsOn(m: Machine, e: Evaporator)
    requires NoHeaterIsOn(m)
    ensures forall o: Evaporator :: !VoteHeater(m, e, false, true).heat.At(o).vote.value
  {
    forall o: Evaporator ensures !VoteHeater(m, e, false, true).heat.At(o).vote.value {
      assert !On(m, o);
      match o case FreshFood => case Freezer => case Convertible =>
    }
  }

  lemma DwellFollows(c: Config, m: Machine)
    requires forall e: Evaporator :: !m.heat.At(e).vote.value
    ensures DwellIfAllOff(c, m).leaf == Dwell
  {
    hide Leave;
  }

  lemma TerminationEndsEmptyVisit(c: Config, m: Machine, e: Evaporator)
    requires m.leaf == HeaterOn && NoHeaterIsOn(m)
    ensures HeaterTemperature(c, m, e).leaf ==
            if m.env.evapTemperature.At(e) < c.data.termination.At(e) then HeaterOn else Dwell
  {
    hide Go, AbnormalMinutes, VoteAt, DwellIfAllOff, NoHeaterIsOn;
    if m.env.evapTemperature.At(e) >= c.data.termination.At(e) {
      StillNoneIsOn(m, e);
      var m1 := VoteHeater(m, e, false, true);
      var m2 := if m1.heat.At(e).minutes < AbnormalMinutes(c, m1.env.role, e)
                then m1.(rec := m1.rec.(wasAbnormal := m1.rec.wasAbnormal.With(e, false))) else m1;
      DwellFollows(c, m2.(rec := m2.rec.(maxTimeFault := m2.rec.maxTimeFault.With(e, false))));
    }
  }

  lemma TemperatureInEmptyVisit(c: Config, m: Machine, e: Evaporator, t: int)
    requires m.leaf == HeaterOn && NoHeaterIsOn(m)
    ensures EvapTemperature(c, m, e, t).leaf != HeaterOn <==> m.env.evapValid.At(e) && t >= c.data.termination.At(e)
  {
    var m1 := m.(env := EnvironmentAfter(m.env, EvapTemperatureChanged(e, t)));
    assert m1.env.evapTemperature.At(e) == t by {
      match e case FreshFood => case Freezer => case Convertible =>
    }
    forall o: Evaporator ensures !On(m1, o) { assert !On(m, o); }
    hide HeaterTemperature, Send, Go;
    HeaterOnSend(c, m1, SigEvaporatorTemperatureChanged(e));
    TerminationEndsEmptyVisit(c, m1, e);
    var r := Told(c, m, EvapTemperatureChanged(e, t));
    assert r == if m.env.evapValid.At(e) then HeaterTemperature(c, m1, e) else m1;
    PrimaryTemperatureIsIgnored(c, r, t);
  }

  /** In HeaterOn and in Dwell nobody handles the temperature of a primary evaporator. */
  lemma PrimaryTemperatureIsIgnored(c: Config, m: Machine, t: int)
    requires m.leaf == HeaterOn || m.leaf == Dwell
    ensures Send(c, m, SigPrimaryEvaporatorTemperatureChanged(t)) == m
  {
    if m.leaf == HeaterOn {
      HeaterOnSend(c, m, SigPrimaryEvaporatorTemperatureChanged(t));
    } else {
      SendIsPlain(c, m, SigPrimaryEvaporatorTemperatureChanged(t));
    }
  }

  lemma TestInHeaterOn(c: Config, m: Machine, request: TestRequest)
    requires m.leaf == HeaterOn
    ensures Test(c, m, request).leaf != HeaterOn <==> request != RequestNone
  {
    var m1 := m.(rec := m.rec.(request := request));
    if request == RequestExitHeaterOn {
      ExitRequestIsSent(c, m);
      GoingLeavesHeaterOn(c, m1, Dwell);
    } else if request != RequestNone {
      StateTestIsSent(c, m, request);
      GoingLeavesHeaterOn(c, m1, Idle);
    }
    hide Go, Send;
  }

  lemma ToldInHeaterOn(c: Config, m: Machine, ev: Event)
    requires m.leaf == HeaterOn && !ev.EvapTemperatureChanged?
    ensures Told(c, m, ev).leaf != HeaterOn <==> ev == DisableChanged(true)
  {
    var env := EnvironmentAfter(m.env, ev);
    var s := SignalFor(c, env, ev);
    ToldSignalIsPlain(c, env, ev);
    SignalsOfOtherEvents(c, env, ev);
    hide Send, Go, EnvironmentAfter, SignalFor;
    if s.Some? {
      HeaterOnSend(c, m.(env := env), s.value);
      GoingLeavesHeaterOn(c, m.(env := env), Disabled);
    }
  }

  lemma SignalsOfOtherEvents(c: Config, env: Environment, ev: Event)
    requires !ev.EvapTemperatureChanged?
    ensures SignalFor(c, env, ev) == Some(SigDisableDefrost) <==> ev == DisableChanged(true)
    ensures SignalFor(c, env, ev).Some? ==>
              !SignalFor(c, env, ev).value.SigEvaporatorTemperatureChanged? &&
              !SignalFor(c, env, ev).value.SigHeaterMaxOnTimeReached?
  {
    hide PrechillConditionsAreMet;
  }

  lemma NothingIsDue(c: Config, m: Machine, ev: Event, limit: nat)
    requires Inv(c, m, limit) && m.leaf == HeaterOn && NoHeaterIsOn(m) && Enabled(m, ev)
    ensures !ev.DefrostTimerExpires? && !ev.HeaterMinute?
  {
    CellsHold(c, m);
    assert forall e: Evaporator :: CellOk(m, e) && !On(m, e);
  }

  /** No other event ends such a visit: its timer is not armed, no count runs and every other signal is deferred to
      nobody. */
  lemma EmptyVisitEndsExactly(c: Config, m: Machine, ev: Event, limit: nat)
    requires Reachable(c, m, limit) && 0 < limit <= 255 && Enabled(m, ev)
    requires m.leaf == HeaterOn && !TypeHeats(c, m.rec.defrostType)
    ensures Step(c, m, ev).leaf != HeaterOn <==> EndsEmptyVisit(c, m, ev)
  {
    hide Reachable;
    ReachableIsCold(c, m, limit);
    NothingIsDue(c, m, ev, limit);
    hide Inv, Fitted, EvapTemperature, Test, TakeRole, Send, Minute, PowerUp, Told;
    match ev
    case EvapTemperatureChanged(e, t) => TemperatureInEmptyVisit(c, m, e, t);
    case TestRequested(r) => TestInHeaterOn(c, m, r);
    case RoleChanged(role) => RoleChangeInHeaterOn(c, m, role);
    case Background(_, _, _, _) =>
    case Elapse(ms) =>
    case PowerCycle(next) => PowerUpEstablishes(c, m, next, 255);
    case _ => ToldInHeaterOn(c, m, ev);
  }

  // ---------------------------------------------------------------- exactly where there are such visits

  /** What a test for a SecondaryOnly defrost asks for in Idle, until the heaters would be turned on, and a wait. */
  function UntilEmptyVisit(c: Config, env: Environment, ms: nat): seq<Event> {
    [Background(env, SecondaryOnly, false, false), TestRequested(RequestDefrost), Elapse(Delay(c)), DefrostTimerExpires,
     Elapse(ms)]
  }

  lemma LeavingIdleTwice(c: Config, m: Machine)
    requires m.leaf == Idle && m.rec.nextTypeOverride == SecondaryOnly && !m.skipForDisable
    ensures m.skipForTest ==>
              var r := Leave(c, m);
              !r.skipForTest && !r.skipForDisable && r.rec.nextTypeOverride == SecondaryOnly &&
              r.rec.request == m.rec.request
    ensures !m.skipForTest ==> Leave(c, m).rec.defrostType == SecondaryOnly
  {
    hide PrimaryFor, SecondaryFor, ChosenBeforeFull;
  }

  lemma TestEntersDefrost(c: Config, m: Machine)
    requires m.leaf == Idle && m.rec.nextTypeOverride == SecondaryOnly && !m.skipForDisable
    ensures var r := Step(c, m, TestRequested(RequestDefrost));
            r.leaf == HeaterOnEntry && r.timer == Some(Delay(c)) && r.rec.defrostType == SecondaryOnly
  {
    hide Test, ReactAll, Leave;
    StateTestIsSent(c, m, RequestDefrost);
    var m1 := m.(rec := m.rec.(request := RequestDefrost), skipForTest := true);
    LeavingIdleTwice(c, m1);
    LeavingIdleTwice(c, Save(Come(Leave(c, m1), Idle), Idle));
  }

  lemma DelayRuns(c: Config, m: Machine, limit: nat)
    requires Inv(c, m, limit) && 0 < limit <= 255 && m.leaf == HeaterOnEntry && m.timer == Some(Delay(c))
    ensures Enabled(m, Elapse(Delay(c)))
    ensures var r := Step(c, m, Elapse(Delay(c)));
            Inv(c, r, limit) && r.leaf == HeaterOnEntry && r.timer == Some(0) && r.rec == m.rec
  {
    assert forall e: Evaporator :: m.heat.At(e).ticks == None;
    hide Inv;
    ElapseKeeps(c, m, Delay(c), limit);
  }

  lemma DelayAndTimer(c: Config, m: Machine, limit: nat)
    requires Inv(c, m, limit) && 0 < limit <= 255 && m.leaf == HeaterOnEntry && m.timer == Some(Delay(c))
    ensures Enabled(m, Elapse(Delay(c)))
    ensures var m1 := Step(c, m, Elapse(Delay(c)));
            Enabled(m1, DefrostTimerExpires) && Inv(c, m1, limit) &&
            var r := Step(c, m1, DefrostTimerExpires);
            Inv(c, r, limit) && EmptyIsCold(c, r) && r.leaf == HeaterOn && r.rec.defrostType == m.rec.defrostType &&
            Stayed(r) == 0
  {
    hide Inv, EmptyIsCold, Go, Elapsed, Send;
    DelayRuns(c, m, limit);
    var m1 := Step(c, m, Elapse(Delay(c)));
    TimerKeeps(c, m1, limit);
    EnteringEmptyIsCold(c, m1, limit);
    TimerMoves(c, m1.(timer := None));
    EntryGoesOn(c, m1.(timer := None));
  }

  lemma EntryGoesOn(c: Config, m: Machine)
    requires m.leaf == HeaterOnEntry
    ensures var r := Go(c, m, HeaterOn);
            r.leaf == HeaterOn && r.rec == m.rec && r.hist.visits != [] && Stayed(r) == 0
  {
    hide VoteChosen, ReactAll;
  }

  lemma OverriddenStep(c: Config, m: Machine, env: Environment, limit: nat)
    requires Inv(c, m, limit) && 0 < limit <= 255 && m.leaf == Idle && MaxOnBounded(env, limit)
    ensures var r := Step(c, m, Background(env, SecondaryOnly, false, false));
            Inv(c, r, limit) && r.leaf == Idle && r.rec.nextTypeOverride == SecondaryOnly && !r.skipForDisable
  {
    BackgroundKeeps(c, m, Background(env, SecondaryOnly, false, false), limit);
    hide Steady, VisitIsTimed, DelayWasServed, Heating, CountOk, Merge;
  }

  lemma TestedStep(c: Config, m: Machine, limit: nat)
    requires Inv(c, m, limit) && 0 < limit <= 255
    requires m.leaf == Idle && m.rec.nextTypeOverride == SecondaryOnly && !m.skipForDisable
    ensures var r := Step(c, m, TestRequested(RequestDefrost));
            Inv(c, r, limit) && r.leaf == HeaterOnEntry && r.timer == Some(Delay(c)) &&
            r.rec.defrostType == SecondaryOnly
  {
    hide Inv, Test;
    StateTestKeeps(c, m, RequestDefrost, limit);
    TestEntersDefrost(c, m);
  }

  lemma EmptyVisitSteps(c: Config, saved: Machine, env: Environment, limit: nat, ms: nat)
    requires |Fitted(c.platform)| < 2 && (saved.rec.eepromCleared || saved.recorded == Idle)
    requires MaxOnBounded(env, limit) && 0 < limit <= 255
    ensures var m0 := PowerUp(c, saved, env);
            var m1 := Step(c, m0, Background(env, SecondaryOnly, false, false));
            var m2 := Step(c, m1, TestRequested(RequestDefrost));
            var m3 := Step(c, m2, Elapse(Delay(c)));
            var m4 := Step(c, m3, DefrostTimerExpires);
            var r := Step(c, m4, Elapse(ms));
            m0.leaf == m1.leaf == Idle && Enabled(m2, Elapse(Delay(c))) && Enabled(m3, DefrostTimerExpires) &&
            Enabled(m4, Elapse(ms)) && r.leaf == HeaterOn && r.rec.defrostType == SecondaryOnly && NoHeaterIsOn(r) &&
            r.hist.visits != [] && Stayed(r) == ms
  {
    hide PowerUp, Inv, Fitted, Step, Enabled, NoHeaterIsOn;
    var m0 := PowerUp(c, saved, env);
    PowerUpEstablishes(c, saved, env, limit);
    StartsInIdle(c, saved, env);
    OverriddenStep(c, m0, env, limit);
    var m1 := Step(c, m0, Background(env, SecondaryOnly, false, false));
    TestedStep(c, m1, limit);
    var m2 := Step(c, m1, TestRequested(RequestDefrost));
    DelayAndTimer(c, m2, limit);
    WaitedStep(c, Step(c, Step(c, m2, Elapse(Delay(c))), DefrostTimerExpires), ms, limit);
  }

  /** The failing family: on a platform with fewer than two evaporators, a test for a SecondaryOnly defrost from Idle
      leads from start-up to a HeaterOn visit with no heater on, which lasts for any time whatever. */
  lemma EmptyVisitIsReachable(c: Config, saved: Machine, env: Environment, limit: nat, ms: nat)
    requires |Fitted(c.platform)| < 2 && (saved.rec.eepromCleared || saved.recorded == Idle)
    requires MaxOnBounded(env, limit) && 0 < limit <= 255
    ensures var evs := UntilEmptyVisit(c, env, ms);
            RunFromPowerUp(c, saved, env, evs, limit) &&
            var m := Run(c, PowerUp(c, saved, env), evs);
            m.leaf == HeaterOn && m.rec.defrostType == SecondaryOnly && NoHeaterIsOn(m) &&
            m.hist.visits != [] && Stayed(m) == ms
  {
    hide PowerUp, Inv, Fitted, Step, Run, Possible, AllTame, NoHeaterIsOn;
    EmptyVisitSteps(c, saved, env, limit, ms);
    var e1, e2, e3 := Background(env, SecondaryOnly, false, false), TestRequested(RequestDefrost), Elapse(Delay(c));
    var m0 := PowerUp(c, saved, env);
    var m1 := Step(c, m0, e1);
    var m2 := Step(c, m1, e2);
    var m3 := Step(c, m2, e3);
    var m4 := Step(c, m3, DefrostTimerExpires);
    NothingHappens(c, Step(c, m4, Elapse(ms)), limit);
    Prepends(c, m4, Elapse(ms), [], limit);
    Prepends(c, m3, DefrostTimerExpires, [Elapse(ms)] + [], limit);
    Prepends(c, m2, e3, [DefrostTimerExpires] + ([Elapse(ms)] + []), limit);
    Prepends(c, m1, e2, [e3] + ([DefrostTimerExpires] + ([Elapse(ms)] + [])), limit);
    Prepends(c, m0, e1, [e2] + ([e3] + ([DefrostTimerExpires] + ([Elapse(ms)] + []))), limit);
    assert [e1] + ([e2] + ([e3] + ([DefrostTimerExpires] + ([Elapse(ms)] + [])))) == UntilEmptyVisit(c, env, ms);
  }

  lemma WaitedStep(c: Config, m: Machine, ms: nat, limit: nat)
    requires Inv(c, m, limit) && m.leaf == HeaterOn && NoHeaterIsOn(m)
    ensures Enabled(m, Elapse(ms))
    ensures var r := Step(c, m, Elapse(ms));
            r.leaf == HeaterOn && r.rec == m.rec && NoHeaterIsOn(r) && r.hist.visits != [] &&
            Stayed(r) == Stayed(m) + ms
  {
    CellsHold(c, m);
    assert forall e: Evaporator :: CellOk(m, e) && !On(m, e);
    forall e: Evaporator ensures !On(Elapsed(m, ms), e) {
      assert !On(m, e);
      match e case FreshFood => case Freezer => case Convertible =>
    }
  }

  lemma StartsInIdle(c: Config, saved: Machine, env: Environment)
    requires saved.rec.eepromCleared || saved.recorded == Idle
    ensures PowerUp(c, saved, env).leaf == Idle && PowerUp(c, saved, env).env == env
  {
    hide ReactAll, PrimaryFor, SecondaryFor, TooWarmOnPowerUp, ChosenBeforeFull, LeaveIdle;
  }

  /** Everything that a run without failing requests can reach from a start-up with a known type saved. */
  ghost predicate ReachableFromKnownType(c: Config, m: Machine, limit: nat) {
    exists saved: Machine, env: Environment, evs: seq<Event> ::
      saved.rec.defrostType != DontCare && RunFromPowerUp(c, saved, env, evs, limit) &&
      m == Run(c, PowerUp(c, saved, env), evs)
  }

  lemma KnownTypeIsReached(c: Config, m: Machine, limit: nat)
    requires ReachableFromKnownType(c, m, limit)
    ensures m.rec.defrostType != DontCare
  {
    var saved: Machine, env: Environment, evs: seq<Event> :|
      saved.rec.defrostType != DontCare && RunFromPowerUp(c, saved, env, evs, limit) &&
      m == Run(c, PowerUp(c, saved, env), evs);
    PowerUpIsTimely(c, saved, env);
    hide PowerUp;
    PossibleOccurs(c, PowerUp(c, saved, env), evs, limit);
    RunIsTimely(c, PowerUp(c, saved, env), evs);
  }

  /** Exactly which platforms have such visits: those with fewer than two evaporators. */
  lemma EmptyVisitExactly(c: Config, limit: nat)
    requires 0 < limit <= 255
    ensures (exists m: Machine ::
               ReachableFromKnownType(c, m, limit) && m.leaf == HeaterOn && !TypeHeats(c, m.rec.defrostType)) <==>
            |Fitted(c.platform)| < 2
  {
    if m: Machine :|
      ReachableFromKnownType(c, m, limit) && m.leaf == HeaterOn && !TypeHeats(c, m.rec.defrostType)
    {
      KnownTypeIsReached(c, m, limit);
    }
    if |Fitted(c.platform)| < 2 { EmptyVisitExists(c, limit); }
  }

  lemma EmptyVisitExists(c: Config, limit: nat)
    requires |Fitted(c.platform)| < 2 && 0 < limit <= 255
    ensures exists m: Machine ::
              ReachableFromKnownType(c, m, limit) && m.leaf == HeaterOn && !TypeHeats(c, m.rec.defrostType)
  {
    hide RunFromPowerUp, Run, PowerUp, UntilEmptyVisit, Fitted, NoHeaterIsOn;
    var saved, env := Erased(), NothingRead();
    EmptyVisitIsReachable(c, saved, env, limit, 0);
    var m := Run(c, PowerUp(c, saved, env), UntilEmptyVisit(c, env, 0));
    assert ReachableFromKnownType(c, m, limit);
  }

  function NothingRead(): Environment {
    var no, zero := Trio(false, false, false), Trio(0, 0, 0);
    Environment(false, CoolOff, AsFreezer, true, no, no, zero, no, false, zero, 0,
                false, false, false, false, false, 0, zero)
  }

  /** The records after the EEPROM has been cleared. */
  function Erased(): Machine {
    var no, zero := Trio(false, false, false), Trio(0, 0, 0);
    var rec := Records(RequestNone, false, false, false, false, false, 0, no, true, Full, DontCare, 0, no, zero, zero);
    Machine(Idle, Idle, None, NothingRead(), rec, Trio(IDLE_CELL, IDLE_CELL, IDLE_CELL), NO_SLOTS, NO_SLOTS,
            false, false, History([], [], zero, false))
  }
}
