/**
 How often a heater is declared abnormal: once in a HeaterOn visit, but for a convertible heater whose role
 changes, and exactly in which configurations that exception is met.
 */
module AbnormalDefrosts {
  import opened Options
  import opened Units
  import opened DefrostTypes
  import opened DefrostModel
  import opened DefrostRuns
  import opened DefrostProperties

  /** The configurations in which the abnormal event can come twice in a visit: a fitted convertible heater whose two
      thresholds differ, are positive and lie below the limit of the max-on-times. */
  predicate CanBeAbnormalTwice(c: Config, limit: nat) {
    var a, b := AbnormalMinutes(c, AsFreshFood, Convertible), AbnormalMinutes(c, AsFreezer, Convertible);
    HasAllCompartments(c.platform) && a != b && 0 < a < limit && 0 < b < limit
  }

  /** The abnormal event comes at most once in a visit, but for a convertible heater in such a configuration, whose role
      has changed in the visit; then it comes at most twice. */
  lemma AbnormalComesOnce(c: Config, m: Machine, limit: nat, e: Evaporator)
    requires Reachable(c, m, limit) && 0 < limit <= 255 && m.leaf == HeaterOn
    ensures m.hist.abnormalFired.At(e) <= 2
    ensures m.hist.abnormalFired.At(e) > 1 ==> e == Convertible && m.hist.roleChanged && CanBeAbnormalTwice(c, limit)
  {
    hide Reachable, VisitIsTimed, DelayWasServed, Heating;
    ReachableInv(c, m, limit);
    CountsHold(c, m, limit);
    assert CountOk(c, m, limit, e);
    PartitionIsDisjointAndCovers(c, m);
    hide PrimaryFor, SecondaryFor, CellOk;
  }

  lemma AbnormalMinute(c: Config, m: Machine)
    requires m.leaf == HeaterOn
    requires m.heat.convertible.minutes + 1 == AbnormalMinutes(c, m.env.role, Convertible)
    requires AbnormalMinutes(c, m.env.role, Convertible) < m.env.maxOnMinutes.convertible
    ensures var r := Step(c, m, HeaterMinute(Convertible));
            r.leaf == HeaterOn && r.env == m.env && r.timer == m.timer &&
            r.heat == m.heat.(convertible := CountMinute(m.heat.convertible)) &&
            r.hist.abnormalFired.convertible == m.hist.abnormalFired.convertible + 1
  {
    hide Go, Send, Minute, HeaterMaxOnTime, AbnormalMinutes;
    MinuteInHeaterOn(c, m, Convertible);
    CountedCell(m, Convertible, Convertible);
    assert Minute(c, m, Convertible) == HeaterAbnormal(Counted(m, Convertible), Convertible);
  }

  /** The convertible heater is the only one whose counter runs, k minutes short of its present threshold. */
  predicate CountsAlone(c: Config, m: Machine, k: nat) {
    m.leaf == HeaterOn && m.timer.None? && m.heat.convertible.ticks == Some(0) &&
    m.heat.freshFood.ticks == m.heat.freezer.ticks == None &&
    m.heat.convertible.minutes + k == AbnormalMinutes(c, m.env.role, Convertible) < m.env.maxOnMinutes.convertible
  }

  lemma MinutePasses(c: Config, m: Machine, k: nat)
    requires CountsAlone(c, m, k) && k > 0
    ensures Enabled(m, Elapse(MSEC_PER_MIN)) && Enabled(Step(c, m, Elapse(MSEC_PER_MIN)), HeaterMinute(Convertible))
    ensures var r := Step(c, Step(c, m, Elapse(MSEC_PER_MIN)), HeaterMinute(Convertible));
            CountsAlone(c, r, k - 1) && r.env == m.env &&
            r.hist.abnormalFired.convertible == m.hist.abnormalFired.convertible + if k == 1 then 1 else 0
  {
    hide Minute, AbnormalMinutes, Send, HeaterAbnormal, HeaterMaxOnTime, PrimaryFor;
    var m1 := Elapsed(m, MSEC_PER_MIN);
    assert forall e: Evaporator :: e != Convertible ==> m.heat.At(e).ticks == None;
    assert m1.heat == m.heat.(convertible := m1.heat.convertible);
    assert m1.env == m.env && m1.leaf == HeaterOn && m1.hist.abnormalFired == m.hist.abnormalFired;
    if k == 1 {
      AbnormalMinute(c, m1);
    } else {
      MinuteInHeaterOn(c, m1, Convertible);
      CountedCell(m1, Convertible, Convertible);
    }
  }

  lemma {:induction false} CountsUpToThreshold(c: Config, m: Machine, k: nat, limit: nat)
    requires CountsAlone(c, m, k) && k > 0
    ensures Possible(c, m, Minutes(k), limit) && AllTame(c, m, Minutes(k))
    ensures var r := Run(c, m, Minutes(k));
            CountsAlone(c, r, 0) && r.env == m.env &&
            r.hist.abnormalFired.convertible == m.hist.abnormalFired.convertible + 1
    decreases k
  {
    hide Step, CountsAlone, Possible, AllTame, Run;
    MinutePasses(c, m, k);
    var m1 := Step(c, m, Elapse(MSEC_PER_MIN));
    var m2 := Step(c, m1, HeaterMinute(Convertible));
    if k > 1 {
      CountsUpToThreshold(c, m2, k - 1, limit);
    } else {
      NothingHappens(c, m2, limit);
    }
    Prepends(c, m1, HeaterMinute(Convertible), Minutes(k - 1), limit);
    Prepends(c, m, Elapse(MSEC_PER_MIN), [HeaterMinute(Convertible)] + Minutes(k - 1), limit);
    assert Minutes(k) == [Elapse(MSEC_PER_MIN)] + ([HeaterMinute(Convertible)] + Minutes(k - 1));
  }

  /** Both thresholds are met in one visit: the convertible heater, the last one on, counts up to its threshold, takes
      the role with the later one, and counts up to that. */
  lemma MeetsBothThresholds(c: Config, m: Machine, role: Role, limit: nat)
    requires CountsAlone(c, m, AbnormalMinutes(c, m.env.role, Convertible))
    requires 0 < AbnormalMinutes(c, m.env.role, Convertible) < AbnormalMinutes(c, role, Convertible)
    requires AbnormalMinutes(c, role, Convertible) < m.env.maxOnMinutes.convertible
    ensures var a := AbnormalMinutes(c, m.env.role, Convertible);
            var evs := Minutes(a) + ([RoleChanged(role)] + Minutes(AbnormalMinutes(c, role, Convertible) - a));
            Possible(c, m, evs, limit) && AllTame(c, m, evs) &&
            var r := Run(c, m, evs);
            r.leaf == HeaterOn && r.hist.abnormalFired.convertible == m.hist.abnormalFired.convertible + 2
  {
    var a, b := AbnormalMinutes(c, m.env.role, Convertible), AbnormalMinutes(c, role, Convertible);
    hide AbnormalMinutes, PrimaryFor, SecondaryFor, Step;
    CountsUpToThreshold(c, m, a, limit);
    var m1 := Run(c, m, Minutes(a));
    RoleChangeInHeaterOn(c, m1, role);
    var m2 := GiveRole(c, m1, role);
    CountsUpToThreshold(c, m2, b - a, limit);
    Prepends(c, m1, RoleChanged(role), Minutes(b - a), limit);
    Appends(c, m, Minutes(a), [RoleChanged(role)] + Minutes(b - a), limit);
  }

  /** An evaporator that warms up to its termination temperature turns off its heater, and nothing else while another
      covered heater is on. */
  lemma WarmsUp(c: Config, m: Machine, e: Evaporator, other: Evaporator)
    requires m.leaf == HeaterOn && m.recorded == HeaterOn && m.env.evapValid.At(e)
    requires other != e && Covers(m, other) && On(m, other)
    ensures var r := Step(c, m, EvapTemperatureChanged(e, c.data.termination.At(e)));
            r.leaf == HeaterOn && r.recorded == HeaterOn && r.timer == m.timer && r.hist == m.hist &&
            r.primary == m.primary && r.secondary == m.secondary &&
            r.env == EnvironmentAfter(m.env, EvapTemperatureChanged(e, c.data.termination.At(e))) &&
            r.rec.defrostType == m.rec.defrostType &&
            r.heat == m.heat.With(e, VoteCell(m.heat.At(e), Vote(false, true), HeaterOn))
  {
    var t := c.data.termination.At(e);
    var m1 := m.(env := EnvironmentAfter(m.env, EvapTemperatureChanged(e, t)));
    WarmingIsTold(c, m, e, t);
    HeaterTurnsOff(c, m1, e, other);
    var r := HeaterTemperature(c, m1, e);
    HeaterOnSend(c, r, SigPrimaryEvaporatorTemperatureChanged(t));
    hide Told, HeaterTemperature, Send, VoteCell;
  }

  lemma WarmingIsTold(c: Config, m: Machine, e: Evaporator, t: int)
    requires m.leaf == HeaterOn && m.env.evapValid.At(e)
    ensures var m1 := m.(env := EnvironmentAfter(m.env, EvapTemperatureChanged(e, t)));
            Told(c, m, EvapTemperatureChanged(e, t)) == HeaterTemperature(c, m1, e) &&
            m1.env.evapTemperature.At(e) == t
  {
    hide Send, HeaterTemperature;
    var m1 := m.(env := EnvironmentAfter(m.env, EvapTemperatureChanged(e, t)));
    assert m1.env.evapTemperature.At(e) == t by {
      match e case FreshFood => case Freezer => case Convertible =>
    }
    HeaterOnSend(c, m1, SigEvaporatorTemperatureChanged(e));
  }

  lemma HeaterTurnsOff(c: Config, m: Machine, e: Evaporator, other: Evaporator)
    requires m.leaf == HeaterOn && m.recorded == HeaterOn && m.env.evapTemperature.At(e) >= c.data.termination.At(e)
    requires other != e && Covers(m, other) && On(m, other)
    ensures var r := HeaterTemperature(c, m, e);
            r == m.(rec := r.rec, heat := m.heat.With(e, VoteCell(m.heat.At(e), Vote(false, true), HeaterOn))) &&
            r.rec.defrostType == m.rec.defrostType
  {
    hide Go, AbnormalMinutes;
    var h := m.heat.With(e, VoteCell(m.heat.At(e), Vote(false, true), HeaterOn));
    assert h.At(other) == m.heat.At(other) by {
      match e case FreshFood => case Freezer => case Convertible =>
    }
  }

  /** What start-up finds when power failed during a Full defrost with the heaters on, every evaporator still cold. */
  predicate ResumesFull(c: Config, saved: Machine, env: Environment, limit: nat) {
    HasAllCompartments(c.platform) && saved.recorded == HeaterOn && saved.rec.defrostType == Full &&
    !saved.rec.eepromCleared && !env.cabinetValid.freezer && env.evapValid == Trio(true, true, true) &&
    env.evapTemperature.freshFood < c.data.termination.freshFood &&
    env.evapTemperature.freezer < c.data.termination.freezer &&
    env.evapTemperature.convertible < c.data.termination.convertible &&
    0 < limit <= 255 && env.maxOnMinutes == Trio(limit, limit, limit)
  }

  lemma PowerUpResumesFull(c: Config, saved: Machine, env: Environment, limit: nat)
    requires ResumesFull(c, saved, env, limit)
    ensures var m := PowerUp(c, saved, env);
            m.leaf == HeaterOnEntry && m.timer == Some(Delay(c)) && m.rec.defrostType == Full && m.env == env &&
            m.recorded == HeaterOn && m.primary.Has(Freezer) && m.secondary.Has(FreshFood) && Covers(m, Convertible) &&
            m.heat == Trio(IDLE_CELL, IDLE_CELL, IDLE_CELL)
  {
    hide ReactAll, Go, ChosenBeforeFull;
  }

  /** The delay runs out and all three heaters are turned on. */
  lemma AllHeatersStart(c: Config, m: Machine)
    requires m.leaf == HeaterOnEntry && m.timer == Some(Delay(c)) && m.rec.defrostType == Full && m.recorded == HeaterOn
    requires m.primary.Has(Freezer) && m.secondary.Has(FreshFood) && Covers(m, Convertible)
    requires m.heat == Trio(IDLE_CELL, IDLE_CELL, IDLE_CELL)
    ensures var m1 := Step(c, m, Elapse(Delay(c)));
            Enabled(m, Elapse(Delay(c))) && Enabled(m1, DefrostTimerExpires) &&
            var r := Step(c, m1, DefrostTimerExpires);
            var cell := HeaterCell(Vote(true, true), 0, Some(0));
            r.leaf == HeaterOn && r.recorded == HeaterOn && r.timer == None && r.env == m.env &&
            r.primary == m.primary && r.secondary == m.secondary && r.heat == Trio(cell, cell, cell) &&
            r.hist.abnormalFired == Trio(0, 0, 0)
  {
    assert forall e: Evaporator :: m.heat.At(e).ticks == None;
    var m1 := Elapsed(m, Delay(c));
    TimerMoves(c, m1.(timer := None));
    var m2 := Come(m1.(timer := None), HeaterOn);
    VoteChosenSets(m2.heat, Full, m2.primary, m2.secondary, Vote(true, true), HeaterOn);
    hide VoteChosen, Go, Send;
    assert Arrive(c, m1.(timer := None), HeaterOn).heat ==
           VoteChosen(m2.heat, Full, m2.primary, m2.secondary, Vote(true, true), HeaterOn);
  }

  /** From a resumed Full defrost: the other two evaporators warm up at once and the convertible one does not. */
  function WarmUps(c: Config): seq<Event> {
    [Elapse(Delay(c)), DefrostTimerExpires, EvapTemperatureChanged(FreshFood, c.data.termination.freshFood),
     EvapTemperatureChanged(Freezer, c.data.termination.freezer)]
  }

  lemma OnlyConvertibleIsLeft(c: Config, saved: Machine, env: Environment, limit: nat)
    requires ResumesFull(c, saved, env, limit) && 0 < AbnormalMinutes(c, env.role, Convertible) < limit
    ensures var m := PowerUp(c, saved, env);
            Possible(c, m, WarmUps(c), limit) && AllTame(c, m, WarmUps(c)) &&
            var r := Run(c, m, WarmUps(c));
            CountsAlone(c, r, AbnormalMinutes(c, env.role, Convertible)) && r.env.role == env.role &&
            r.env.maxOnMinutes.convertible == limit && r.hist.abnormalFired.convertible == 0
  {
    hide AbnormalMinutes, PowerUp;
    var m0 := PowerUp(c, saved, env);
    PowerUpResumesFull(c, saved, env, limit);
    AllHeatersStart(c, m0);
    var e1, e2, e3, e4 := WarmUps(c)[0], WarmUps(c)[1], WarmUps(c)[2], WarmUps(c)[3];
    var m1 := Step(c, m0, e1);
    var m2 := Step(c, m1, e2);
    WarmsUp(c, m2, FreshFood, Convertible);
    var m3 := Step(c, m2, e3);
    WarmsUp(c, m3, Freezer, Convertible);
    var m4 := Step(c, m3, e4);
    assert CountsAlone(c, m4, AbnormalMinutes(c, env.role, Convertible));
    hide Step, CountsAlone;
    Prepends(c, m3, e4, [], limit);
    Prepends(c, m2, e3, [e4] + [], limit);
    Prepends(c, m1, e2, [e3] + ([e4] + []), limit);
    Prepends(c, m0, e1, [e2] + ([e3] + ([e4] + [])), limit);
    assert [e1] + ([e2] + ([e3] + ([e4] + []))) == WarmUps(c);
  }

  /** From the last heater on to both thresholds: the first, the role with the later one, and the second. */
  function ToBothThresholds(c: Config, role: Role): seq<Event>
    requires AbnormalMinutes(c, role, Convertible) <= AbnormalMinutes(c, OtherRole(role), Convertible)
  {
    var a, b := AbnormalMinutes(c, role, Convertible), AbnormalMinutes(c, OtherRole(role), Convertible);
    Minutes(a) + ([RoleChanged(OtherRole(role))] + Minutes(b - a))
  }

  /** The converse: in every such configuration this run from start-up has the event twice in a visit. */
  lemma AbnormalComesTwice(c: Config, saved: Machine, env: Environment, limit: nat)
    requires ResumesFull(c, saved, env, limit) && CanBeAbnormalTwice(c, limit)
    requires AbnormalMinutes(c, env.role, Convertible) < AbnormalMinutes(c, OtherRole(env.role), Convertible)
    ensures var evs := WarmUps(c) + ToBothThresholds(c, env.role);
            RunFromPowerUp(c, saved, env, evs, limit) &&
            var m := Run(c, PowerUp(c, saved, env), evs);
            m.leaf == HeaterOn && m.hist.abnormalFired.convertible == 2
  {
    hide PowerUp, Step, Run, WarmUps, Possible, AllTame, Minutes, CountsAlone, AbnormalMinutes;
    var m0 := PowerUp(c, saved, env);
    assert MaxOnBounded(env, limit);
    OnlyConvertibleIsLeft(c, saved, env, limit);
    hide ResumesFull;
    var m1 := Run(c, m0, WarmUps(c));
    MeetsBothThresholds(c, m1, OtherRole(env.role), limit);
    Appends(c, m0, WarmUps(c), ToBothThresholds(c, env.role), limit);
  }

  /** Exactly in which configurations the abnormal event can come more than once in a HeaterOn visit. */
  lemma AbnormalTwiceExactly(c: Config, limit: nat)
    requires 0 < limit <= 255
    ensures (exists m: Machine, e: Evaporator ::
               Reachable(c, m, limit) && m.leaf == HeaterOn && m.hist.abnormalFired.At(e) > 1) <==>
            CanBeAbnormalTwice(c, limit)
  {
    if m: Machine, e: Evaporator :| Reachable(c, m, limit) && m.leaf == HeaterOn && m.hist.abnormalFired.At(e) > 1 {
      AbnormalComesOnce(c, m, limit, e);
    }
    if CanBeAbnormalTwice(c, limit) {
      var role := if AbnormalMinutes(c, AsFreshFood, Convertible) < AbnormalMinutes(c, AsFreezer, Convertible)
                  then AsFreshFood else AsFreezer;
      TwiceIsReachable(c, role, limit);
    }
  }

  lemma TwiceIsReachable(c: Config, role: Role, limit: nat)
    requires CanBeAbnormalTwice(c, limit) && 0 < limit <= 255
    requires AbnormalMinutes(c, role, Convertible) < AbnormalMinutes(c, OtherRole(role), Convertible)
    ensures exists m: Machine, e: Evaporator ::
              Reachable(c, m, limit) && m.leaf == HeaterOn && m.hist.abnormalFired.At(e) > 1
  {
    var saved, env := FullWhenPowerFailed(), ColdAndValid(c, role, limit);
    assert ResumesFull(c, saved, env, limit) && env.role == role;
    AbnormalComesTwice(c, saved, env, limit);
    hide *;
    var m := Run(c, PowerUp(c, saved, env), WarmUps(c) + ToBothThresholds(c, env.role));
    assert m.hist.abnormalFired.At(Convertible) == m.hist.abnormalFired.convertible;
  }

  function ColdAndValid(c: Config, role: Role, limit: uint8): Environment {
    var t := c.data.termination;
    var cold := Trio(t.freshFood - 1, t.freezer - 1, t.convertible - 1);
    Environment(false, CoolOff, role, true, Trio(true, true, true), Trio(true, true, true), cold,
                Trio(false, false, false), false, cold, 0, false, false, false, false, false, 0,
                Trio(limit, limit, limit))
  }

  function FullWhenPowerFailed(): Machine {
    var no, zero := Trio(false, false, false), Trio(0, 0, 0);
    var rec := Records(RequestNone, false, false, false, false, false, 0, no, false, Full, DontCare, 0, no, zero, zero);
    var env := Environment(false, CoolOff, AsFreezer, true, no, no, zero, no, false, zero, 0,
                           false, false, false, false, false, 0, zero);
    Machine(HeaterOn, HeaterOn, None, env, rec, Trio(IDLE_CELL, IDLE_CELL, IDLE_CELL), NO_SLOTS, NO_SLOTS, false, false,
            History([], [], zero, false))
  }

  /** Once a heater has been declared abnormal in a HeaterOn visit, its defrost stays on record as abnormal for the
      rest of the visit, unless its role, and so its threshold, has changed: ending by temperature does not clear it. */
  lemma AbnormalDefrostStaysOnRecord(c: Config, m: Machine, limit: nat, e: Evaporator)
    requires Reachable(c, m, limit) && 0 < limit <= 255 && m.leaf == HeaterOn && m.hist.abnormalFired.At(e) > 0
    requires e != Convertible || !m.hist.roleChanged
    ensures m.rec.wasAbnormal.At(e) && m.heat.At(e).minutes >= AbnormalMinutes(c, m.env.role, e)
  {
    ReachableInv(c, m, limit);
    CountsHold(c, m, limit);
    assert CountOk(c, m, limit, e);
  }
}
