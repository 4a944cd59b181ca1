/**
 The records of defrosts over visits and runs: when a defrost is on record as abnormal, and what the counters count.
 */
module DefrostRecords {
  import opened Options
  import opened Units
  import opened DefrostTypes
  import opened DefrostModel
  import opened DefrostRuns
  import opened DefrostTiming
  import opened DefrostProperties
  import opened HeatInEveryRun
  import opened DefrostTable
  import opened DefrostExactly
  import opened DefrostVotes
  import opened DefrostRecovery
  import AbnormalDefrosts

  // ---------------------------------------------------------------- staying in HeaterOn

  /** HeaterOn is left exactly when the table aims at some state. */
  lemma LeavingIsAiming(c: Config, m: Machine, ev: Event)
    requires Regular(c, m) && m.leaf == HeaterOn && Enabled(m, ev) && !ev.PowerCycle?
    ensures Step(c, m, ev).leaf == HeaterOn <==> Aim(c, m, ev, Step(c, m, ev).env).None?
  {
    hide Step, Regular, Enabled;
    StepIsARow(c, m, ev);
    var env := Step(c, m, ev).env;
    HeaterOnIsNoAim(c, m, ev, env);
    var aim := Aim(c, m, ev, env);
    if aim.Some? { SettlesAlike(c, env, TypeAfter(c, m, ev, env), aim.value); }
    hide IsRead, RecordsAfter, Aim, Settles, TypeAfter;
  }

  lemma HeaterOnIsNoAim(c: Config, m: Machine, ev: Event, env: Environment)
    requires m.leaf == HeaterOn
    ensures Aim(c, m, ev, env) != Some(HeaterOn)
  {}

  /** What a step that stays in HeaterOn does to a counter and to the history of the visit. */
  predicate VisitGoesOn(c: Config, m: Machine, ev: Event, r: Machine, e: Evaporator) {
    r.heat.At(e).minutes == (if ev == HeaterMinute(e) then PublishedMinute(m, e) else m.heat.At(e).minutes) &&
    r.hist.abnormalFired.At(e) == m.hist.abnormalFired.At(e) + (if BecomesAbnormal(c, m, ev, e) then 1 else 0) &&
    r.hist.roleChanged == (m.hist.roleChanged || (ev.RoleChanged? && ev.role != m.env.role))
  }

  lemma ToldVisitGoesOn(c: Config, m: Machine, ev: Event, e: Evaporator)
    requires m.leaf == HeaterOn && IsTold(ev) && Aim(c, m, ev, Told(c, m, ev).env).None?
    ensures VisitGoesOn(c, m, ev, Told(c, m, ev), e)
  {
    hide Go, EnvironmentAfter;
    NothingEndsOutside(c, m, ev, e);
    ToldInHeaterOnGoes(c, m, ev);
    ToldReads(c, m, ev);
    hide Told, Aim, BecomesAbnormal;
  }

  lemma TemperatureVisitGoesOn(c: Config, m: Machine, o: Evaporator, t: int, e: Evaporator)
    requires Regular(c, m) && m.leaf == HeaterOn
    requires Aim(c, m, EvapTemperatureChanged(o, t), EnvironmentAfter(m.env, EvapTemperatureChanged(o, t))).None?
    ensures VisitGoesOn(c, m, EvapTemperatureChanged(o, t), EvapTemperature(c, m, o, t), e)
  {
    var ev := EvapTemperatureChanged(o, t);
    var m0 := m.(env := EnvironmentAfter(m.env, ev));
    assert m.recorded == HeaterOn;
    RegularParts(c, m);
    hide Regular, Go, Aim, EnvironmentAfter, EvapTemperature, Partitioned, EndsHeater, VoteHeater, Touched;
    TemperatureInHeaterOnGoes(c, m, o, t);
    VotingKeepsLeaf(m0, o);
    OneMinuteKept(m0, o, e);
    assert !BecomesAbnormal(c, m, ev, e);
  }

  lemma OneMinuteKept(m: Machine, o: Evaporator, e: Evaporator)
    requires m.recorded == HeaterOn
    ensures VoteHeater(m, o, false, true).heat.At(e).minutes == m.heat.At(e).minutes
  {
    VotingKeepsMinutes(m, o, Vote(false, true));
    match e case FreshFood => case Freezer => case Convertible =>
  }

  lemma MinuteVisitGoesOn(c: Config, m: Machine, o: Evaporator, e: Evaporator)
    requires Regular(c, m) && m.leaf == HeaterOn && Aim(c, m, HeaterMinute(o), m.env).None?
    ensures VisitGoesOn(c, m, HeaterMinute(o), Minute(c, m, o), e)
  {
    hide Aim, Partitioned, VoteHeater, Touched, Minute, BecomesAbnormal, HistoryOfMinute, EndsHeater, Timely;
    var m0 := Counted(m, o);
    assert m.recorded == HeaterOn by { SavedInHeaterOn(c, m); }
    CountedCell(m, o, e);
    MinuteInHeaterOnGoes(c, m, o);
    hide Go;
    OneMinuteKept(m0, o, e);
    VotingKeepsLeaf(m0, o);
    MinuteHistory(c, m, o, e);
  }

  lemma SavedInHeaterOn(c: Config, m: Machine)
    requires Regular(c, m) && m.leaf == HeaterOn
    ensures m.recorded == HeaterOn
  {}

  lemma MinuteHistory(c: Config, m: Machine, o: Evaporator, e: Evaporator)
    requires m.leaf == HeaterOn
    ensures var h := HistoryOfMinute(c, m, o);
            h.roleChanged == m.hist.roleChanged &&
            h.abnormalFired.At(e) ==
            m.hist.abnormalFired.At(e) + if BecomesAbnormal(c, m, HeaterMinute(o), e) then 1 else 0
  {
    hide AbnormalMinutes, AbnormalThreshold, EndsHeater, PublishedMinute;
    ThresholdsAgree(c, m.env.role, o);
    OneIsSet(m.hist.abnormalFired, o, m.hist.abnormalFired.At(o) + 1, e);
  }

  lemma StepVisitGoesOn(c: Config, m: Machine, ev: Event, e: Evaporator)
    requires Regular(c, m) && m.leaf == HeaterOn && Enabled(m, ev) && !ev.PowerCycle?
    requires Step(c, m, ev).leaf == HeaterOn
    ensures VisitGoesOn(c, m, ev, Step(c, m, ev), e)
  {
    hide Regular, VisitGoesOn, Aim, EvapTemperature, Test, TakeRole, Elapsed, Send, Minute, Told, EnvironmentAfter;
    LeavingIsAiming(c, m, ev);
    StepReads(c, m, ev);
    NothingIsDueInHeaterOn(c, m, ev);
    if ev.TestRequested? || ev.Elapse? || ev.DefrostTimerExpires? || ev.HeaterMinute? { NothingIsRead(m.env, ev); }
    match ev
    case EvapTemperatureChanged(o, t) => TemperatureVisitGoesOn(c, m, o, t, e);
    case TestRequested(request) => TestVisitGoesOn(c, m, request, e);
    case RoleChanged(role) => RoleVisitGoesOn(c, m, role, e);
    case Background(_, _, _, _) => QuietVisitGoesOn(c, m, ev, e);
    case Elapse(_) => QuietVisitGoesOn(c, m, ev, e);
    case DefrostTimerExpires =>
    case HeaterMinute(o) => MinuteVisitGoesOn(c, m, o, e);
    case _ => ToldVisitGoesOn(c, m, ev, e);
  }

  lemma NothingIsDueInHeaterOn(c: Config, m: Machine, ev: Event)
    requires Regular(c, m) && m.leaf == HeaterOn && Enabled(m, ev)
    ensures !ev.DefrostTimerExpires?
  {}

  lemma QuietVisitGoesOn(c: Config, m: Machine, ev: Event, e: Evaporator)
    requires ev.Background? || ev.Elapse?
    ensures m.leaf == HeaterOn ==> VisitGoesOn(c, m, ev, Step(c, m, ev), e)
  {
    hide Merge;
    match e case FreshFood => case Freezer => case Convertible =>
  }

  lemma TestVisitGoesOn(c: Config, m: Machine, request: TestRequest, e: Evaporator)
    requires m.leaf == HeaterOn && Aim(c, m, TestRequested(request), m.env).None?
    ensures VisitGoesOn(c, m, TestRequested(request), Test(c, m, request), e)
  {
    assert request == RequestNone;
    hide Send;
  }

  lemma RoleVisitGoesOn(c: Config, m: Machine, role: Role, e: Evaporator)
    requires m.leaf == HeaterOn
    ensures VisitGoesOn(c, m, RoleChanged(role), TakeRole(c, m, role), e)
  {
    assert Step(c, m, RoleChanged(role)) == TakeRole(c, m, role);
    RoleChangeInHeaterOn(c, m, role);
    hide TakeRole, PrimaryFor, SecondaryFor;
  }

  // ---------------------------------------------------------------- the record of one visit

  /** The threshold of e has not changed in the present visit. */
  predicate SameThreshold(m: Machine, e: Evaporator) { e == Convertible ==> !m.hist.roleChanged }

  /** A heater that is on past its threshold has been declared abnormal in the visit. */
  predicate DeclaredWhenMet(c: Config, m: Machine, e: Evaporator) {
    var threshold := AbnormalThreshold(c.data, m.env.role, e);
    m.leaf == HeaterOn && On(m, e) && SameThreshold(m, e) && 0 < threshold <= m.heat.At(e).minutes ==>
      m.hist.abnormalFired.At(e) > 0
  }

  lemma NewVisitIsFresh(m: Machine, r: Machine)
    requires m.hist.visits != [] && Last(m.hist.visits).leaf == m.leaf && m.leaf != r.leaf && NewVisitsOnly(m, r)
    requires r.hist.visits != [] && Last(r.hist.visits).leaf == r.leaf
    ensures Stayed(r) == 0
  {
    if |r.hist.visits| == |m.hist.visits| { assert false; }
  }

  lemma FreshVisitDeclaresNothing(c: Config, r: Machine, e: Evaporator, limit: nat)
    requires Inv(c, r, limit) && r.leaf == HeaterOn && Stayed(r) == 0
    ensures DeclaredWhenMet(c, r, e)
  {
    CountsHold(c, r, limit);
    assert CountOk(c, r, limit, e);
    hide Inv, Passed, AbnormalThreshold;
  }

  lemma EntryDeclaresNothing(c: Config, m: Machine, ev: Event, e: Evaporator, limit: nat)
    requires Timely(c, m) && m.leaf != HeaterOn && Step(c, m, ev).leaf == HeaterOn && Enabled(m, ev)
    requires Inv(c, Step(c, m, ev), limit)
    ensures DeclaredWhenMet(c, Step(c, m, ev), e)
  {
    var r := Step(c, m, ev);
    assert !ev.Elapse?;
    hide Step, Enabled, Inv, DeclaredWhenMet, VisitIsTimed, DelayWasServed;
    StepKeepsTime(c, m, ev);
    NewVisitIsFresh(m, r);
    FreshVisitDeclaresNothing(c, r, e, limit);
  }

  lemma GoingOnDeclares(c: Config, m: Machine, ev: Event, r: Machine, e: Evaporator)
    requires m.leaf == HeaterOn && r.leaf == HeaterOn && DeclaredWhenMet(c, m, e) && VisitGoesOn(c, m, ev, r, e)
    requires On(r, e) ==> On(m, e) && !EndsByTime(c, m, ev, e)
    requires r.env.role == if ev.RoleChanged? then ev.role else m.env.role
    requires ev == HeaterMinute(e) ==> PublishedMinute(m, e) == m.heat.At(e).minutes + 1
    ensures DeclaredWhenMet(c, r, e)
  {
    hide EndsHeater, PublishedMinute;
  }

  lemma StepDeclares(c: Config, m: Machine, ev: Event, e: Evaporator, limit: nat)
    requires Inv(c, m, limit) && Regular(c, m) && DeclaredWhenMet(c, m, e)
    requires 0 < limit <= 255 && Enabled(m, ev) && Bounded(ev, limit) && Tame(m, ev)
    ensures DeclaredWhenMet(c, Step(c, m, ev), e)
  {
    var r := Step(c, m, ev);
    StepKeeps(c, m, ev, limit);
    if ev.PowerCycle? {
      assert r.leaf != HeaterOn by { PowerUpEstablishes(c, m, ev.next, 255); PowerCycleIsPowerUp(c, m, ev.next); }
    } else if r.leaf == HeaterOn && m.leaf != HeaterOn {
      EntryDeclaresNothing(c, m, ev, e, limit);
    } else if r.leaf == HeaterOn {
      hide Step;
      StayingDeclares(c, m, ev, e, limit);
    }
  }

  lemma StayingDeclares(c: Config, m: Machine, ev: Event, e: Evaporator, limit: nat)
    requires Inv(c, m, limit) && Regular(c, m) && DeclaredWhenMet(c, m, e) && 0 < limit <= 255
    requires Enabled(m, ev) && !ev.PowerCycle? && m.leaf == HeaterOn && Step(c, m, ev).leaf == HeaterOn
    ensures DeclaredWhenMet(c, Step(c, m, ev), e)
  {
    var r := Step(c, m, ev);
    hide Step, Inv, Regular, VisitGoesOn, DeclaredWhenMet, Enabled, Aim, EndsHeater, ReadingsAfter;
    StepVisitGoesOn(c, m, ev, e);
    StepVotes(c, m, ev, e);
    StepReads(c, m, ev);
    LeavingIsAiming(c, m, ev);
    if ev == HeaterMinute(e) { MinuteCounts(c, m, e, limit); CountedCell(m, e, e); }
    RoleIsReadLast(m, ev);
    hide Step;
    GoingOnDeclares(c, m, ev, r, e);
  }

  lemma RoleIsReadLast(m: Machine, ev: Event)
    requires !ev.PowerCycle?
    ensures ReadingsAfter(m, ev).role == if ev.RoleChanged? then ev.role else m.env.role
  {}

  lemma {:induction false} RunDeclares(c: Config, m: Machine, evs: seq<Event>, e: Evaporator, limit: nat)
    requires Inv(c, m, limit) && Regular(c, m) && Bounds(c, m, 255) && DeclaredWhenMet(c, m, e) && 0 < limit <= 255
    requires Possible(c, m, evs, limit) && AllTame(c, m, evs)
    ensures DeclaredWhenMet(c, Run(c, m, evs), e) && Regular(c, Run(c, m, evs))
    decreases |evs|
  {
    if evs != [] {
      StepKeeps(c, m, evs[0], limit);
      StepIsRegular(c, m, evs[0]);
      StepDeclares(c, m, evs[0], e, limit);
      hide Step, Inv, Regular, Bounds, DeclaredWhenMet, Tame;
      RunDeclares(c, Step(c, m, evs[0]), evs[1..], e, limit);
    }
  }

  lemma ReachableDeclares(c: Config, m: Machine, e: Evaporator, limit: nat)
    requires Reachable(c, m, limit) && 0 < limit <= 255
    ensures Regular(c, m) && DeclaredWhenMet(c, m, e)
  {
    var saved: Machine, env: Environment, evs: seq<Event> :|
      RunFromPowerUp(c, saved, env, evs, limit) && m == Run(c, PowerUp(c, saved, env), evs);
    PowerUpEstablishes(c, saved, env, limit);
    PowerUpIsRegular(c, saved, env);
    hide PowerUp, Inv, Regular, Bounds;
    RunDeclares(c, PowerUp(c, saved, env), evs, e, limit);
  }

  /** A heater that ends by temperature clears the record of its evaporator exactly when its count is short of the
      threshold: in every state of HeaterOn of every possible run. */
  lemma NormalDefrostClearsRecord(c: Config, m: Machine, e: Evaporator, t: int)
    requires Attainable(c, m) && m.leaf == HeaterOn && m.env.evapValid.At(e) && t >= c.data.termination.At(e)
    ensures Step(c, m, EvapTemperatureChanged(e, t)).rec.wasAbnormal.At(e) <==>
            m.rec.wasAbnormal.At(e) && m.heat.At(e).minutes >= AbnormalThreshold(c.data, m.env.role, e)
  {
    hide Attainable, Regular, Bounds, Step;
    AttainableIsRegular(c, m);
    TemperatureRecords(c, m, e, t);
  }

  lemma TemperatureRecords(c: Config, m: Machine, e: Evaporator, t: int)
    requires Regular(c, m) && m.leaf == HeaterOn && m.env.evapValid.At(e) && t >= c.data.termination.At(e)
    ensures Step(c, m, EvapTemperatureChanged(e, t)).rec.wasAbnormal.At(e) <==>
            m.rec.wasAbnormal.At(e) && m.heat.At(e).minutes >= AbnormalThreshold(c.data, m.env.role, e)
  {
    var ev := EvapTemperatureChanged(e, t);
    hide Step, Regular;
    StepIsARow(c, m, ev);
    AbnormalIsRecorded(c, m, ev, Step(c, m, ev).env, e);
    hide RecordsAfter, IsRead, LeadsTo, AbnormalThreshold;
  }

  lemma AbnormalIsRecorded(c: Config, m: Machine, ev: Event, env: Environment, e: Evaporator)
    ensures RecordsAfter(c, m, ev, env).wasAbnormal.At(e) == AbnormalAfter(c, m, ev, e)
  {
    hide FaultAfter, AbnormalAfter, AbnormalDefrostsAfter, DefrostsAfter, InvalidAfter, LeavesIdle, Decides, Aim;
    hide TypeAfter, CountAfter, NextN;
    match e case FreshFood => case Freezer => case Convertible =>
  }

  /** In every state that a run from start-up without a failing request reaches: when the heater of e, on, ends by
      temperature with its threshold positive and unchanged in the visit, its defrost is on record as abnormal if and
      only if it was declared abnormal in this visit. With a threshold of zero the record stays as it was. */
  lemma OnRecordExactly(c: Config, m: Machine, e: Evaporator, t: int, limit: nat)
    requires Reachable(c, m, limit) && 0 < limit <= 255 && m.leaf == HeaterOn && On(m, e)
    requires m.env.evapValid.At(e) && t >= c.data.termination.At(e) && SameThreshold(m, e)
    ensures var onRecord := Step(c, m, EvapTemperatureChanged(e, t)).rec.wasAbnormal.At(e);
            if AbnormalThreshold(c.data, m.env.role, e) > 0 then onRecord <==> m.hist.abnormalFired.At(e) > 0
            else onRecord == m.rec.wasAbnormal.At(e)
  {
    hide Step, Reachable;
    ReachableDeclares(c, m, e, limit);
    TemperatureRecords(c, m, e, t);
    ThresholdsAgree(c, m.env.role, e);
    hide Regular, AbnormalThreshold, AbnormalMinutes;
    if m.hist.abnormalFired.At(e) > 0 { AbnormalDefrosts.AbnormalDefrostStaysOnRecord(c, m, limit, e); }
  }

  // ---------------------------------------------------------------- the counters

  /** How many HeaterOn visits of a run end, other than by a power cut, with e heated by their type. */
  function DefrostsEnded(c: Config, m: Machine, evs: seq<Event>, e: Evaporator): nat
    decreases |evs|
  {
    if evs == [] then 0
    else
      var r := Step(c, m, evs[0]);
      (if m.leaf == HeaterOn && r.leaf != HeaterOn && !evs[0].PowerCycle? &&
          IsHeated(c.platform, m.env.role, m.rec.defrostType, e) then 1 else 0) + DefrostsEnded(c, r, evs[1..], e)
  }

  /** How often in a run a published minute of e is its threshold, below its max-on-time, in HeaterOn. */
  function TimesAbnormal(c: Config, m: Machine, evs: seq<Event>, e: Evaporator): nat
    decreases |evs|
  {
    if evs == [] then 0
    else (if BecomesAbnormal(c, m, evs[0], e) then 1 else 0) + TimesAbnormal(c, Step(c, m, evs[0]), evs[1..], e)
  }

  lemma CountsAreRecorded(c: Config, m: Machine, ev: Event, env: Environment, e: Evaporator)
    ensures RecordsAfter(c, m, ev, env).defrosts.At(e) == DefrostsAfter(c, m, ev, env, e)
    ensures RecordsAfter(c, m, ev, env).abnormalDefrosts.At(e) == AbnormalDefrostsAfter(c, m, ev, e)
  {
    hide FaultAfter, AbnormalAfter, AbnormalDefrostsAfter, DefrostsAfter, InvalidAfter, LeavesIdle, Decides, Aim;
    hide TypeAfter, CountAfter, NextN;
    match e case FreshFood => case Freezer => case Convertible =>
  }

  function SixteenBits(n: nat): uint16 { n % 0x1_0000 }

  lemma StepCounts(c: Config, m: Machine, ev: Event, e: Evaporator)
    requires Regular(c, m) && Enabled(m, ev)
    ensures var r := Step(c, m, ev);
            var ended := m.leaf == HeaterOn && r.leaf != HeaterOn && !ev.PowerCycle? &&
                         IsHeated(c.platform, m.env.role, m.rec.defrostType, e);
            r.rec.defrosts.At(e) == SixteenBits(m.rec.defrosts.At(e) + if ended then 1 else 0) &&
            r.rec.abnormalDefrosts.At(e) ==
            SixteenBits(m.rec.abnormalDefrosts.At(e) + if BecomesAbnormal(c, m, ev, e) then 1 else 0)
  {
    var r := Step(c, m, ev);
    hide Step, Enabled, IsHeated, RecordsAfter, IsRead, LeadsTo, Aim, EndsHeater, AbnormalThreshold;
    if ev.PowerCycle? {
      PowerCycleRecovers(c, m, ev.next);
      CountsSurvive(c, m, ev.next);
      hide Regular, RecordsResumed;
    } else {
      StepIsARow(c, m, ev);
      CountsAreRecorded(c, m, ev, r.env, e);
      if m.leaf == HeaterOn { LeavingIsAiming(c, m, ev); }
      hide Regular, BecomesAbnormal;
    }
  }

  lemma CountsSurvive(c: Config, m: Machine, env: Environment)
    ensures var r := RecordsResumed(c, m, env);
            r.defrosts == m.rec.defrosts && r.abnormalDefrosts == m.rec.abnormalDefrosts
  {
    hide IsTooWarm, NextN;
  }

  lemma {:induction false} DefrostsCount(c: Config, m: Machine, evs: seq<Event>, e: Evaporator)
    requires Regular(c, m) && Bounds(c, m, 255) && Occurs(c, m, evs)
    ensures Run(c, m, evs).rec.defrosts.At(e) == SixteenBits(m.rec.defrosts.At(e) + DefrostsEnded(c, m, evs, e))
    decreases |evs|
  {
    hide Step, Regular, Bounds, Enabled, IsHeated, SixteenBits;
    if evs == [] {
      OnceWrapped(m.rec.defrosts.At(e));
    } else {
      StepCounts(c, m, evs[0], e);
      StepIsRegular(c, m, evs[0]);
      var m1 := Step(c, m, evs[0]);
      DefrostsCount(c, m1, evs[1..], e);
      var ended := m.leaf == HeaterOn && m1.leaf != HeaterOn && !evs[0].PowerCycle? &&
                   IsHeated(c.platform, m.env.role, m.rec.defrostType, e);
      Wraps(m.rec.defrosts.At(e), if ended then 1 else 0, DefrostsEnded(c, m1, evs[1..], e));
    }
  }

  lemma {:induction false} AbnormalsCount(c: Config, m: Machine, evs: seq<Event>, e: Evaporator)
    requires Regular(c, m) && Bounds(c, m, 255) && Occurs(c, m, evs)
    ensures Run(c, m, evs).rec.abnormalDefrosts.At(e) ==
            SixteenBits(m.rec.abnormalDefrosts.At(e) + TimesAbnormal(c, m, evs, e))
    decreases |evs|
  {
    hide Step, Regular, Bounds, Enabled, BecomesAbnormal, SixteenBits;
    if evs == [] {
      OnceWrapped(m.rec.abnormalDefrosts.At(e));
    } else {
      StepCounts(c, m, evs[0], e);
      StepIsRegular(c, m, evs[0]);
      var m1 := Step(c, m, evs[0]);
      AbnormalsCount(c, m1, evs[1..], e);
      Wraps(m.rec.abnormalDefrosts.At(e), if BecomesAbnormal(c, m, evs[0], e) then 1 else 0,
            TimesAbnormal(c, m1, evs[1..], e));
    }
  }

  lemma OnceWrapped(n: uint16)
    ensures SixteenBits(n) == n
  {}

  lemma Wraps(n: nat, d: nat, k: nat)
    ensures SixteenBits(SixteenBits(n + d) + k) == SixteenBits(n + (d + k))
  {
    var q := (n + d) / 0x1_0000;
    assert n + d == q * 0x1_0000 + SixteenBits(n + d);
  }

  /** Over any possible run from start-up, power cuts included, the sixteen-bit counters count exactly the visits that
      ended and the defrosts declared abnormal. */
  lemma DefrostsAreCounted(c: Config, saved: Machine, env: Environment, evs: seq<Event>, e: Evaporator)
    requires Occurs(c, PowerUp(c, saved, env), evs)
    ensures var m := PowerUp(c, saved, env);
            var r := Run(c, m, evs);
            r.rec.defrosts.At(e) == SixteenBits(m.rec.defrosts.At(e) + DefrostsEnded(c, m, evs, e)) &&
            r.rec.abnormalDefrosts.At(e) == SixteenBits(m.rec.abnormalDefrosts.At(e) + TimesAbnormal(c, m, evs, e))
  {
    PowerUpIsRegular(c, saved, env);
    hide PowerUp, Regular, Bounds, Run, SixteenBits, DefrostsEnded, TimesAbnormal;
    DefrostsCount(c, PowerUp(c, saved, env), evs, e);
    AbnormalsCount(c, PowerUp(c, saved, env), evs, e);
  }
}
