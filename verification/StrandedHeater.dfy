/**
 What becomes of a heater that a transition out of HeaterOn has left on: exactly what turns it off, and
 that its minute count is not among that.
 */
module StrandedHeater {
  import opened Options
  import opened Units
  import opened DefrostTypes
  import opened DefrostModel
  import opened DefrostRuns
  import opened DefrostTiming
  import opened DefrostProperties

  /** The states a defrost passes on its way to HeaterOn: none of them votes on a heater. */
  predicate BeforeHeating(l: Leaf) { l == Idle || l == PrechillPrep || l == Prechill || l == HeaterOnEntry }

  lemma LeavingKeepsVotes(c: Config, m: Machine)
    requires BeforeHeating(m.leaf)
    ensures Leave(c, m).heat == m.heat
  {
    LeaveIdleFacts(c, m);
  }

  lemma SavingKeepsVotes(m: Machine, l: Leaf, e: Evaporator)
    ensures Save(m, l).heat.At(e).vote == m.heat.At(e).vote
  {
    match e case FreshFood => case Freezer => case Convertible =>
  }

  lemma GoingOnKeepsVote(c: Config, m: Machine, l: Leaf, e: Evaporator)
    requires BeforeHeating(m.leaf) && On(m, e) && (BeforeHeating(l) || l == HeaterOn || l == Dwell || l == Disabled)
    ensures var r := Go(c, m, l);
            (BeforeHeating(l) ==> BeforeHeating(r.leaf)) && (!BeforeHeating(l) ==> r.leaf == l) &&
            (On(r, e) <==> l != Dwell && l != Disabled)
  {
    LeavingKeepsVotes(c, m);
    var m1 := Leave(c, m);
    if BeforeHeating(l) {
      ArrivalKeepsVotes(c, m1, l, e);
    } else {
      SavingKeepsVotes(Come(m1, l), l, e);
      var m2 := Save(Come(m1, l), l);
      if l == HeaterOn {
        VoteChosenSets(m2.heat, m2.rec.defrostType, m2.primary, m2.secondary, Vote(true, true), m2.recorded);
      }
      match e case FreshFood => case Freezer => case Convertible =>
    }
  }

  /** A heater that is on before the heating states survives a step: only these two states turn it off. */
  predicate Survives(r: Machine, e: Evaporator) {
    (On(r, e) <==> r.leaf != Dwell && r.leaf != Disabled) &&
    (BeforeHeating(r.leaf) || r.leaf == HeaterOn || r.leaf == Dwell || r.leaf == Disabled)
  }

  lemma SignalKeepsVote(c: Config, m: Machine, s: Signal, e: Evaporator)
    requires Plain(s) && BeforeHeating(m.leaf) && On(m, e)
    ensures Survives(Send(c, m, s), e) && Send(c, m, s).leaf != HeaterOn
    ensures On(Send(c, m, s), e) <==> !s.SigDisableDefrost?
  {
    hide Send, Go;
    SendIsPlain(c, m, s);
    var l := PlainTarget(c, m, s);
    if l.Some? { GoingOnKeepsVote(c, Marked(m, s), l.value, e); }
  }

  lemma OnlyDisablingDisables(c: Config, env: Environment, ev: Event)
    ensures SignalFor(c, env, ev) == Some(SigDisableDefrost) <==> ev == DisableChanged(true)
  {
    hide PrechillConditionsAreMet;
  }

  lemma ToldKeepsVote(c: Config, m: Machine, ev: Event, e: Evaporator)
    requires BeforeHeating(m.leaf) && On(m, e)
    ensures Survives(Told(c, m, ev), e) && Told(c, m, ev).leaf != HeaterOn
    ensures On(Told(c, m, ev), e) <==> ev != DisableChanged(true)
  {
    hide Send, EnvironmentAfter, SignalFor;
    var env := EnvironmentAfter(m.env, ev);
    var s := SignalFor(c, env, ev);
    ToldSignalIsPlain(c, env, ev);
    OnlyDisablingDisables(c, env, ev);
    if s.Some? {
      SignalKeepsVote(c, m.(env := env), s.value, e);
    }
  }

  lemma TemperatureKeepsVote(c: Config, m: Machine, o: Evaporator, t: int, e: Evaporator)
    requires BeforeHeating(m.leaf) && On(m, e)
    ensures Survives(EvapTemperature(c, m, o, t), e) && On(EvapTemperature(c, m, o, t), e)
  {
    hide Told, Send;
    var r := Told(c, m, EvapTemperatureChanged(o, t));
    ToldKeepsVote(c, m, EvapTemperatureChanged(o, t), e);
    SignalKeepsVote(c, r, SigPrimaryEvaporatorTemperatureChanged(t), e);
  }

  lemma TestKeepsVote(c: Config, m: Machine, request: TestRequest, e: Evaporator)
    requires BeforeHeating(m.leaf) && On(m, e)
    ensures Survives(Test(c, m, request), e)
    ensures On(Test(c, m, request), e) <==> !(request == RequestExitHeaterOn && m.leaf == HeaterOnEntry)
  {
    var m1 := m.(rec := m.rec.(request := request));
    if request == RequestExitHeaterOn {
      ExitRequestIsSent(c, m);
      hide Test, Go;
      if m.leaf == HeaterOnEntry { GoingOnKeepsVote(c, m1, Dwell, e); }
    } else if request != RequestNone {
      StateTestIsSent(c, m, request);
      hide Test, Go;
      GoingOnKeepsVote(c, if m.leaf == Idle then m1.(skipForTest := true) else m1, Idle, e);
    } else {
      hide Send, Go;
    }
  }

  lemma ExpiryKeepsVote(c: Config, m: Machine, e: Evaporator)
    requires BeforeHeating(m.leaf) && On(m, e)
    ensures Survives(Send(c, m, SigDefrostTimerExpired), e) && On(Send(c, m, SigDefrostTimerExpired), e)
  {
    hide Go;
    if m.leaf != Idle {
      TimerMoves(c, m);
      GoingOnKeepsVote(c, m, AfterTimer(m.leaf), e);
    }
  }

  /** Exactly what turns off a heater that is on before the heating states: a power cut, disabling, and the request to
      exit in HeaterOnEntry. No temperature, no minute count and no max-on-time is among it. */
  lemma StrandedExactlyUntil(c: Config, m: Machine, ev: Event, e: Evaporator)
    requires BeforeHeating(m.leaf) && On(m, e)
    ensures On(Step(c, m, ev), e) <==>
            !(ev.PowerCycle? || ev == DisableChanged(true) ||
              (ev == TestRequested(RequestExitHeaterOn) && m.leaf == HeaterOnEntry))
    ensures !ev.PowerCycle? ==> Survives(Step(c, m, ev), e)
  {
    hide EvapTemperature, Test, TakeRole, Send, Minute, PowerUp, Told;
    match ev
    case EvapTemperatureChanged(o, t) => TemperatureKeepsVote(c, m, o, t, e);
    case TestRequested(r) => TestKeepsVote(c, m, r, e);
    case RoleChanged(role) => RoleKeepsVote(c, m, role, e);
    case Elapse(ms) => WaitingKeepsVote(m, ms, e);
    case Background(_, _, _, _) =>
    case DefrostTimerExpires => ExpiryKeepsVote(c, m.(timer := None), e);
    case HeaterMinute(o) => MinuteKeepsVote(c, m, o, e);
    case PowerCycle(next) => PowerUpTurnsOff(c, m, next, e);
    case _ => ToldKeepsVote(c, m, ev, e);
  }

  lemma WaitingKeepsVote(m: Machine, ms: nat, e: Evaporator)
    ensures On(Elapsed(m, ms), e) == On(m, e)
  {
    match e case FreshFood => case Freezer => case Convertible =>
  }

  lemma RoleKeepsVote(c: Config, m: Machine, role: Role, e: Evaporator)
    requires BeforeHeating(m.leaf) && On(m, e)
    ensures Survives(TakeRole(c, m, role), e) && On(TakeRole(c, m, role), e)
  {
    hide Send, PrimaryFor, SecondaryFor;
    var m1 := GiveRole(c, m, role);
    SignalKeepsVote(c, m1, SigPrimaryEvaporatorTemperatureChanged(m1.env.evapTemperature.convertible), e);
  }

  lemma MinuteKeepsVote(c: Config, m: Machine, o: Evaporator, e: Evaporator)
    requires BeforeHeating(m.leaf) && On(m, e)
    ensures Survives(Minute(c, m, o), e) && On(Minute(c, m, o), e)
  {
    MinuteOutsideHeaterOn(c, m, o);
    CountedCell(m, o, e);
  }

  lemma PowerUpTurnsOff(c: Config, m: Machine, env: Environment, e: Evaporator)
    ensures !On(PowerUp(c, m, env), e)
  {
    PowerUpEstablishes(c, m, env, 255);
    CellsHold(c, PowerUp(c, m, env));
    assert CellOk(PowerUp(c, m, env), e);
  }

  /** The run stays in the states before heating, without a power cut. */
  predicate StaysBeforeHeating(c: Config, m: Machine, evs: seq<Event>)
    decreases |evs|
  {
    BeforeHeating(m.leaf) && (evs != [] ==> !evs[0].PowerCycle? && StaysBeforeHeating(c, Step(c, m, evs[0]), evs[1..]))
  }

  /** So a stranded heater stays on however long a run stays there and whatever happens in it. */
  lemma {:induction false} StrandedHeaterStaysOn(c: Config, m: Machine, evs: seq<Event>, e: Evaporator)
    requires On(m, e) && StaysBeforeHeating(c, m, evs)
    ensures On(Run(c, m, evs), e) && BeforeHeating(Run(c, m, evs).leaf)
    decreases |evs|
  {
    if evs != [] {
      StrandedExactlyUntil(c, m, evs[0], e);
      StrandedHeaterStaysOn(c, Step(c, m, evs[0]), evs[1..], e);
    }
  }

  // ---------------------------------------------------------------- no bound at all

  /** In Idle with the convertible heater on and nothing but its counter running. */
  predicate CountsInIdle(m: Machine) {
    m.leaf == Idle && m.timer.None? && On(m, Convertible) && m.heat.convertible.ticks == Some(0) &&
    m.heat.freshFood.ticks == m.heat.freezer.ticks == None && !On(m, FreshFood) && !On(m, Freezer) &&
    m.recorded == Idle && !m.skipForDisable && m.hist.visits != []
  }

  function EightBits(n: nat): uint8 { n % 0x100 }

  lemma IdleMinutePasses(c: Config, m: Machine)
    requires CountsInIdle(m)
    ensures Enabled(m, Elapse(MSEC_PER_MIN)) && Enabled(Step(c, m, Elapse(MSEC_PER_MIN)), HeaterMinute(Convertible))
    ensures var r := Step(c, Step(c, m, Elapse(MSEC_PER_MIN)), HeaterMinute(Convertible));
            CountsInIdle(r) && r.env == m.env && Stayed(r) == Stayed(m) + MSEC_PER_MIN &&
            r.heat.convertible.minutes == EightBits(m.heat.convertible.minutes + 1)
  {
    hide Minute;
    var m1 := Elapsed(m, MSEC_PER_MIN);
    MinuteOutsideHeaterOn(c, m1, Convertible);
    assert forall e: Evaporator :: e != Convertible ==> m.heat.At(e).ticks == None;
  }

  /** Nobody answers a count in Idle: it passes every max-on-time and wraps, and the heater stays on. */
  lemma {:induction false} StrandedCountWraps(c: Config, m: Machine, k: nat, limit: nat)
    requires CountsInIdle(m)
    ensures Possible(c, m, Minutes(k), limit)
    ensures var r := Run(c, m, Minutes(k));
            CountsInIdle(r) && r.env == m.env && Stayed(r) == Stayed(m) + k * MSEC_PER_MIN &&
            r.heat.convertible.minutes == EightBits(m.heat.convertible.minutes + k)
    decreases k
  {
    hide Step, CountsInIdle, EightBits, Possible, Run;
    Wraps(m.heat.convertible.minutes, k);
    if k == 0 {
      NothingHappens(c, m, limit);
    } else {
      IdleMinutePasses(c, m);
      var m1 := Step(c, m, Elapse(MSEC_PER_MIN));
      var m2 := Step(c, m1, HeaterMinute(Convertible));
      StrandedCountWraps(c, m2, k - 1, limit);
      PrependsPossible(c, m1, HeaterMinute(Convertible), Minutes(k - 1), limit);
      PrependsPossible(c, m, Elapse(MSEC_PER_MIN), [HeaterMinute(Convertible)] + Minutes(k - 1), limit);
      assert Minutes(k) == [Elapse(MSEC_PER_MIN)] + ([HeaterMinute(Convertible)] + Minutes(k - 1));
    }
  }

  lemma Wraps(start: uint8, k: nat)
    ensures k == 0 ==> start == EightBits(start + k)
    ensures k > 0 ==> EightBits(EightBits(start + 1) + (k - 1)) == EightBits(start + k)
  {}

  const HEATING := HeaterCell(Vote(true, true), 0, Some(0))

  lemma SecondaryHeatersStart(c: Config, m: Machine)
    requires m.leaf == HeaterOnEntry && m.timer == Some(Delay(c)) && m.recorded == HeaterOn
    requires m.rec.defrostType == SecondaryOnly && m.secondary == Slots(Some(FreshFood), Some(Convertible))
    requires m.heat == Trio(IDLE_CELL, IDLE_CELL, IDLE_CELL) && !m.skipForDisable
    ensures var m1 := Step(c, m, Elapse(Delay(c)));
            var r := Step(c, m1, DefrostTimerExpires);
            Enabled(m, Elapse(Delay(c))) && Enabled(m1, DefrostTimerExpires) &&
            r.leaf == HeaterOn && r.recorded == HeaterOn && r.timer == None && r.env == m.env && !r.skipForDisable &&
            r.rec.defrostType == SecondaryOnly && r.heat == Trio(HEATING, IDLE_CELL, HEATING)
  {
    assert forall e: Evaporator :: m.heat.At(e).ticks == None;
    var m1 := Elapsed(m, Delay(c)).(timer := None);
    TimerMoves(c, m1);
    var m2 := Come(m1, HeaterOn);
    VoteChosenSets(m2.heat, SecondaryOnly, m2.primary, m2.secondary, Vote(true, true), HeaterOn);
    hide VoteChosen, Go, Send;
  }

  lemma TestLeavesConvertibleOn(c: Config, m: Machine)
    requires HasAllCompartments(c.platform) && m.leaf == HeaterOn && m.recorded == HeaterOn && m.timer == None
    requires m.rec.defrostType == SecondaryOnly && m.heat == Trio(HEATING, IDLE_CELL, HEATING) && !m.skipForDisable
    ensures var r := Step(c, GiveRole(c, m, AsFreezer), TestRequested(RequestIdle));
            CountsInIdle(r) && r.env == m.env.(role := AsFreezer) && Stayed(r) == 0 && r.heat.convertible.minutes == 0
  {
    var m1 := GiveRole(c, m, AsFreezer);
    StateTestIsSent(c, m1, RequestIdle);
    VoteChosenSets(m1.heat, SecondaryOnly, m1.primary, m1.secondary, Vote(false, false), HeaterOn);
    hide VoteChosen, Test, Send;
  }

  function UntilStranded(c: Config): seq<Event> {
    [Elapse(Delay(c)), DefrostTimerExpires, RoleChanged(AsFreezer), TestRequested(RequestIdle)]
  }

  lemma StrandedAfterFourEvents(c: Config, saved: Machine, env: Environment)
    requires ResumesSecondaryOnly(c, saved, env)
    ensures var m0 := PowerUp(c, saved, env);
            var m1 := Step(c, m0, Elapse(Delay(c)));
            var m2 := Step(c, m1, DefrostTimerExpires);
            var m4 := Step(c, Step(c, m2, RoleChanged(AsFreezer)), TestRequested(RequestIdle));
            Enabled(m0, Elapse(Delay(c))) && Enabled(m1, DefrostTimerExpires) &&
            CountsInIdle(m4) && m4.env == env.(role := AsFreezer) && Stayed(m4) == 0 &&
            m4.heat.convertible.minutes == 0
  {
    hide Go, Send, TakeRole, Test, Elapsed, CountsInIdle, Enabled;
    var m0 := PowerUp(c, saved, env);
    PowerUpResumes(c, saved, env);
    assert m0.recorded == HeaterOn && !m0.skipForDisable by { PowerUpEstablishes(c, saved, env, 255); }
    hide PowerUp;
    SecondaryHeatersStart(c, m0);
    var m2 := Step(c, Step(c, m0, Elapse(Delay(c))), DefrostTimerExpires);
    RoleChangeInHeaterOn(c, m2, AsFreezer);
    TestLeavesConvertibleOn(c, m2);
  }

  /** From start-up there is, for every number of minutes, a possible run after which the convertible heater has been on
      that long in Idle, whatever the max-on-times. */
  lemma StrandedHeaterTimeIsUnbounded(c: Config, saved: Machine, env: Environment, limit: nat, k: nat)
    requires ResumesSecondaryOnly(c, saved, env) && MaxOnBounded(env, limit)
    ensures var evs := UntilStranded(c) + Minutes(k);
            Possible(c, PowerUp(c, saved, env), evs, limit) &&
            var m := Run(c, PowerUp(c, saved, env), evs);
            m.leaf == Idle && On(m, Convertible) && m.hist.visits != [] && Stayed(m) == k * MSEC_PER_MIN &&
            m.heat.convertible.minutes == k % 0x100 && CountsInIdle(m) && m.env == env.(role := AsFreezer)
  {
    hide PowerUp, Step, Possible, Run, Minutes;
    var m0 := PowerUp(c, saved, env);
    StrandedAfterFourEvents(c, saved, env);
    var e1, e2, e3, e4 := Elapse(Delay(c)), DefrostTimerExpires, RoleChanged(AsFreezer), TestRequested(RequestIdle);
    var m1 := Step(c, m0, e1);
    var m2 := Step(c, m1, e2);
    var m3 := Step(c, m2, e3);
    StrandedCountWraps(c, Step(c, m3, e4), k, limit);
    PrependsPossible(c, m3, e4, Minutes(k), limit);
    PrependsPossible(c, m2, e3, [e4] + Minutes(k), limit);
    PrependsPossible(c, m1, e2, [e3] + ([e4] + Minutes(k)), limit);
    PrependsPossible(c, m0, e1, [e2] + ([e3] + ([e4] + Minutes(k))), limit);
    assert [e1] + ([e2] + ([e3] + ([e4] + Minutes(k)))) == UntilStranded(c) + Minutes(k);
  }

  lemma PrependsPossible(c: Config, m: Machine, ev: Event, evs: seq<Event>, limit: nat)
    requires Enabled(m, ev) && Bounded(ev, limit) && Possible(c, Step(c, m, ev), evs, limit)
    ensures Possible(c, m, [ev] + evs, limit) && Run(c, m, [ev] + evs) == Run(c, Step(c, m, ev), evs)
  {
    hide Step;
    assert ([ev] + evs)[0] == ev && ([ev] + evs)[1..] == evs;
  }
}
