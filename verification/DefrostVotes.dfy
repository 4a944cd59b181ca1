/**
 The heater votes of the defrost machine, event by event, as the table says.
 */
module DefrostVotes {
  import opened Options
  import opened DefrostTypes
  import opened DefrostModel
  import opened DefrostRuns
  import opened DefrostTiming
  import opened DefrostProperties
  import opened HeatInEveryRun
  import opened DefrostTable
  import opened DefrostTransitions
  import opened DefrostExactly

  /** The vote for the heater of e once its state has been left. */
  function LeftVote(c: Config, m: Machine, e: Evaporator): Vote<bool> {
    if HoldsHeatersOff(m.leaf) || (m.leaf == HeaterOn && IsHeated(c.platform, m.env.role, m.rec.defrostType, e))
    then Vote(false, false) else m.heat.At(e).vote
  }

  lemma LeavesVoting(c: Config, m: Machine, e: Evaporator)
    requires Partitioned(c, m)
    ensures Leave(c, m).heat.At(e).vote == LeftVote(c, m, e)
  {
    LeavingVotes(c, m, e);
    GroupsByRole(c, m);
    VotedCell(m.heat.At(e), Vote(false, false), m.recorded);
    hide Leave, VoteCell, Selects, IsHeated, Partitioned;
  }

  lemma GoesVoting(c: Config, m: Machine, l: Leaf, e: Evaporator)
    requires Partitioned(c, m) && (Timed(m.leaf) || m.timer.None?) && (l == HeaterOn ==> m.leaf != Idle)
    ensures Go(c, m, l).heat.At(e).vote ==
            if HoldsHeatersOff(l) then Vote(false, true)
            else if l == HeaterOn && IsHeated(c.platform, m.env.role, m.rec.defrostType, e) then Vote(true, true)
            else LeftVote(c, m, e)
  {
    LeavesExactly(c, m);
    LeavesVoting(c, m, e);
    assert m.leaf != Idle ==> LeftRecords(c, m).defrostType == m.rec.defrostType;
    hide Leave, Arrive, IsHeated, LeftRecords, LeftVote;
    PartitionFrame(c, m, Leave(c, m));
    hide Partitioned;
    ArrivesVoting(c, Leave(c, m), l, e);
  }

  lemma SettlesAlike(c: Config, env: Environment, t: DefrostType, l: Leaf)
    ensures HoldsHeatersOff(Settles(c, env, t, l)) == HoldsHeatersOff(l)
    ensures Settles(c, env, t, l) == HeaterOn <==> l == HeaterOn
  {
    hide KnownFault, CoolsForPrechill, PrechillIsOver;
  }

  /** The state that a transition goes to directly: a state test goes by way of Idle. */
  function Directly(ev: Event, l: Leaf): Leaf { if IsStateTest(ev) then Idle else l }

  lemma AimedVotes(c: Config, m: Machine, ev: Event, env: Environment, m1: Machine, l: Leaf, e: Evaporator)
    requires Partitioned(c, m1) && (Timed(m1.leaf) || m1.timer.None?) && m1.leaf == m.leaf && m1.env == env
    requires m1.rec.defrostType == m.rec.defrostType && (m.leaf == HeaterOn ==> env.role == m.env.role)
    requires Aim(c, m, ev, env) == Some(l) && (l == HeaterOn ==> m.leaf == HeaterOnEntry)
    requires l != Dwell ==> m1.heat.At(e).vote == m.heat.At(e).vote
    requires IsStateTest(ev) ==> !HoldsHeatersOff(l) && l != HeaterOn
    ensures Go(c, m1, Directly(ev, l)).heat.At(e).vote == VoteAfter(c, m, ev, env, e)
  {
    hide Aim, IsHeated, Partitioned, Settles, Go;
    GoesVoting(c, m1, Directly(ev, l), e);
    SettlesAlike(c, env, TypeAfter(c, m, ev, env), l);
    hide IsStateTest, TypeAfter;
  }

  lemma StayingVotes(c: Config, m: Machine, ev: Event, env: Environment, r: Machine, e: Evaporator)
    requires Aim(c, m, ev, env).None? && (m.leaf != HeaterOn || !(ev.EvapTemperatureChanged? || ev.HeaterMinute?))
    requires r.heat.At(e).vote == m.heat.At(e).vote
    ensures r.heat.At(e).vote == VoteAfter(c, m, ev, env, e)
  {
    NothingEndsOutside(c, m, ev, e);
    hide Aim, EndsByTime, EndsByTemperature, LeadsTo;
  }

  lemma AimsOfHeaterOn(c: Config, m: Machine, ev: Event, env: Environment)
    requires !ev.TestRequested?
    ensures Aim(c, m, ev, env) == Some(HeaterOn) ==> m.leaf == HeaterOnEntry
    ensures m.leaf == HeaterOn && Aim(c, m, ev, env).Some? ==> !ev.RoleChanged?
  {
    hide SkipsPrechill, Sabbath, CoolsForPrechill, MayChill, ThermistorFails, PrimaryTemperature, IsColdAgain;
  }

  /** A machine that has read an event without touching a heater, and goes where the table aims. */
  lemma ReadVotes(c: Config, m: Machine, ev: Event, m1: Machine, r: Machine, e: Evaporator)
    requires Partitioned(c, m1) && (Timed(m1.leaf) || m1.timer.None?) && m1.leaf == m.leaf && !ev.TestRequested?
    requires m1.rec.defrostType == m.rec.defrostType && (!ev.RoleChanged? ==> m1.env.role == m.env.role)
    requires m1.heat.At(e).vote == m.heat.At(e).vote
    requires m.leaf != HeaterOn || !(ev.EvapTemperatureChanged? || ev.HeaterMinute?)
    requires var aim := Aim(c, m, ev, m1.env); r == if aim.Some? then Go(c, m1, aim.value) else m1
    ensures r.heat.At(e).vote == VoteAfter(c, m, ev, m1.env, e)
  {
    hide Aim, Partitioned, Go, VoteAfter;
    AimsOfHeaterOn(c, m, ev, m1.env);
    var aim := Aim(c, m, ev, m1.env);
    if aim.Some? {
      AimedVotes(c, m, ev, m1.env, m1, aim.value, e);
    } else {
      StayingVotes(c, m, ev, m1.env, r, e);
    }
  }

  lemma ToldMachineKeeps(c: Config, m: Machine, ev: Event)
    requires Partitioned(c, m)
    ensures var m1 := ToldMachine(c, m, ev);
            m1 == m.(env := EnvironmentAfter(m.env, ev), skipForDisable := m1.skipForDisable) &&
            m1.env.role == m.env.role && Partitioned(c, m1)
  {
    assert EnvironmentAfter(m.env, ev).role == m.env.role;
    hide EnvironmentAfter;
    PartitionOfRole(c, m, ToldMachine(c, m, ev));
  }

  lemma ToldVotes(c: Config, m: Machine, ev: Event, e: Evaporator)
    requires Regular(c, m) && IsTold(ev)
    ensures Told(c, m, ev).heat.At(e).vote == VoteAfter(c, m, ev, EnvironmentAfter(m.env, ev), e)
  {
    hide Go, Aim, VoteAfter, EnvironmentAfter, Told, ToldMachine, Partitioned, Regular;
    RegularParts(c, m);
    ToldMachineKeeps(c, m, ev);
    if m.leaf == HeaterOn { ToldInHeaterOnGoes(c, m, ev); } else { ToldGoes(c, m, ev); }
    ReadVotes(c, m, ev, ToldMachine(c, m, ev), Told(c, m, ev), e);
  }

  lemma TemperatureVotes(c: Config, m: Machine, o: Evaporator, t: int, e: Evaporator)
    requires Regular(c, m)
    ensures var ev := EvapTemperatureChanged(o, t);
            EvapTemperature(c, m, o, t).heat.At(e).vote == VoteAfter(c, m, ev, EnvironmentAfter(m.env, ev), e)
  {
    var ev := EvapTemperatureChanged(o, t);
    var m0 := m.(env := EnvironmentAfter(m.env, ev));
    assert m0.env.role == m.env.role && (m.leaf == HeaterOn ==> m.recorded == HeaterOn);
    RegularParts(c, m);
    PartitionOfRole(c, m, m0);
    hide Regular, Go, Aim, VoteAfter, EnvironmentAfter, EvapTemperature, Partitioned;
    if m.leaf == HeaterOn {
      TemperatureInHeaterOnGoes(c, m, o, t);
      TemperatureInHeaterOnVotes(c, m, o, t, e);
    } else {
      TemperatureGoes(c, m, o, t);
      ReadVotes(c, m, ev, m0, EvapTemperature(c, m, o, t), e);
    }
  }

  lemma OneVoteOff(m: Machine, o: Evaporator, e: Evaporator)
    ensures VoteHeater(m, o, false, true).heat.At(e).vote == if o == e then Vote(false, true) else m.heat.At(e).vote
  {
    VotedCell(m.heat.At(o), Vote(false, true), m.recorded);
    match e case FreshFood => case Freezer => case Convertible =>
  }

  /** A heater that ends in HeaterOn, and HeaterOn with it when it is the last. */
  lemma EndingVotes(c: Config, m: Machine, ev: Event, m1: Machine, r: Machine, e: Evaporator)
    requires m.leaf == HeaterOn && (ev.EvapTemperatureChanged? || ev.HeaterMinute?) && EndsHeater(c, m, ev)
    requires Partitioned(c, m1) && m1.timer.None? && m1.leaf == HeaterOn && m1.rec.defrostType == m.rec.defrostType
    requires m1.env.role == m.env.role
    requires m1.heat.At(e).vote == if ev.evap == e then Vote(false, true) else m.heat.At(e).vote
    requires var aim := Aim(c, m, ev, m1.env); if aim.Some? then r == Go(c, m1, aim.value) else r.heat == m1.heat
    ensures r.heat.At(e).vote == VoteAfter(c, m, ev, m1.env, e)
  {
    hide EndsHeater, AnotherIsOn, Go, Partitioned;
    var aim := Aim(c, m, ev, m1.env);
    if aim.Some? {
      hide VoteAfter;
      AimedVotes(c, m, ev, m1.env, m1, aim.value, e);
    } else {
      hide Aim, LeadsTo;
    }
  }

  /** Nothing ends, and only a count or a reading changes. */
  lemma GoingOnVotes(c: Config, m: Machine, ev: Event, env: Environment, r: Machine, e: Evaporator)
    requires m.leaf == HeaterOn && (ev.EvapTemperatureChanged? || ev.HeaterMinute?) && !EndsHeater(c, m, ev)
    requires r.heat.At(e).vote == m.heat.At(e).vote
    ensures Aim(c, m, ev, env).None? && r.heat.At(e).vote == VoteAfter(c, m, ev, env, e)
  {
    hide EndsHeater, AnotherIsOn, LeadsTo;
  }

  lemma TemperatureInHeaterOnVotes(c: Config, m: Machine, o: Evaporator, t: int, e: Evaporator)
    requires Regular(c, m) && m.leaf == HeaterOn
    ensures var ev := EvapTemperatureChanged(o, t);
            EvapTemperature(c, m, o, t).heat.At(e).vote == VoteAfter(c, m, ev, EnvironmentAfter(m.env, ev), e)
  {
    var ev := EvapTemperatureChanged(o, t);
    var m0 := m.(env := EnvironmentAfter(m.env, ev));
    assert m0.env.role == m.env.role && m.recorded == HeaterOn;
    RegularParts(c, m);
    PartitionOfRole(c, m, m0);
    TemperatureInHeaterOnGoes(c, m, o, t);
    VotingKeepsLeaf(m0, o);
    OneVoteOff(m0, o, e);
    TouchingKeepsType(c, m, ev);
    hide Regular, Go, Aim, VoteAfter, EnvironmentAfter, EvapTemperature, PrimaryFor, SecondaryFor, EndsHeater;
    hide Touched, VoteHeater;
    var m1 := VoteHeater(m0, o, false, true).(rec := Touched(c, m, ev));
    if EndsHeater(c, m, ev) {
      EndingVotes(c, m, ev, m1, EvapTemperature(c, m, o, t), e);
    } else {
      GoingOnVotes(c, m, ev, m0.env, m0, e);
    }
  }

  lemma TouchingKeepsType(c: Config, m: Machine, ev: Event)
    ensures Touched(c, m, ev).defrostType == m.rec.defrostType
  {
    hide FaultAfter, AbnormalAfter, AbnormalDefrostsAfter, EndsByTime;
  }

  lemma MinuteVotes(c: Config, m: Machine, o: Evaporator, e: Evaporator)
    requires Regular(c, m)
    ensures Minute(c, m, o).heat.At(e).vote == VoteAfter(c, m, HeaterMinute(o), m.env, e)
  {
    var ev := HeaterMinute(o);
    var m0 := Counted(m, o);
    RegularParts(c, m);
    CountingKeepsVote(m, o, e);
    assert m.leaf == HeaterOn ==> m.recorded == HeaterOn;
    hide Regular, Go, Aim, VoteAfter, PrimaryFor, SecondaryFor, EndsHeater, VoteHeater, Touched, Minute;
    if m.leaf != HeaterOn {
      MinuteOutsideHeaterOn(c, m, o);
      MinuteAimsAtNothing(c, m, o);
      StayingVotes(c, m, ev, m.env, m0, e);
    } else {
      PartitionOfRole(c, m, m0);
      MinuteInHeaterOnGoes(c, m, o);
      VotingKeepsLeaf(m0, o);
      OneVoteOff(m0, o, e);
      TouchingKeepsType(c, m, ev);
      if EndsHeater(c, m, ev) {
        EndingVotes(c, m, ev, VoteHeater(m0, o, false, true).(rec := Touched(c, m, ev)), Minute(c, m, o), e);
      } else {
        GoingOnVotes(c, m, ev, m.env, m0, e);
      }
    }
  }

  lemma CountingKeepsVote(m: Machine, o: Evaporator, e: Evaporator)
    ensures Counted(m, o).heat.At(e).vote == m.heat.At(e).vote
  {
    CountedCell(m, o, e);
  }

  lemma MinuteAimsAtNothing(c: Config, m: Machine, o: Evaporator)
    requires m.leaf != HeaterOn
    ensures Aim(c, m, HeaterMinute(o), m.env).None?
  {}

  lemma RoleVotes(c: Config, m: Machine, role: Role, e: Evaporator)
    requires Regular(c, m)
    ensures TakeRole(c, m, role).heat.At(e).vote == VoteAfter(c, m, RoleChanged(role), m.env.(role := role), e)
  {
    RegularParts(c, m);
    GivingRoleDivides(c, m, role);
    var m1 := GiveRole(c, m, role);
    if m.leaf == HeaterOn {
      assert Step(c, m, RoleChanged(role)) == TakeRole(c, m, role);
      RoleChangeInHeaterOn(c, m, role);
      assert Aim(c, m, RoleChanged(role), m1.env).None?;
    } else {
      RoleGoes(c, m, role);
    }
    hide Regular, Go, Aim, VoteAfter, GiveRole, TakeRole, Partitioned;
    ReadVotes(c, m, RoleChanged(role), m1, TakeRole(c, m, role), e);
  }

  lemma ExpiryVotes(c: Config, m: Machine, e: Evaporator)
    requires Regular(c, m) && m.timer == Some(0)
    ensures Send(c, m.(timer := None), SigDefrostTimerExpired).heat.At(e).vote ==
            VoteAfter(c, m, DefrostTimerExpires, m.env, e)
  {
    RegularParts(c, m);
    ExpiryGoes(c, m);
    hide Regular, Go, Aim, VoteAfter, Send, PrimaryFor, SecondaryFor;
    ReadVotes(c, m, DefrostTimerExpires, m.(timer := None), Send(c, m.(timer := None), SigDefrostTimerExpired), e);
  }

  lemma ExitVotes(c: Config, m: Machine, e: Evaporator)
    requires Regular(c, m) && (m.leaf == HeaterOnEntry || m.leaf == HeaterOn)
    ensures Test(c, m, RequestExitHeaterOn).heat.At(e).vote ==
            VoteAfter(c, m, TestRequested(RequestExitHeaterOn), m.env, e)
  {
    var m0 := m.(rec := m.rec.(request := RequestExitHeaterOn));
    RegularParts(c, m);
    ExitRequestIsSent(c, m);
    hide Regular, Go, VoteAfter, Partitioned, Test;
    PartitionFrame(c, m, m0);
    AimedVotes(c, m, TestRequested(RequestExitHeaterOn), m.env, m0, Dwell, e);
  }

  function TestedMachine(m: Machine, request: TestRequest): Machine {
    m.(rec := m.rec.(request := request), skipForTest := m.skipForTest || Waiting(m.leaf))
  }

  lemma StateTestGoes(c: Config, m: Machine, request: TestRequest)
    requires m.leaf != Disabled && IsStateTest(TestRequested(request))
    ensures Test(c, m, request) == Go(c, TestedMachine(m, request), Idle)
  {
    StateTestIsSent(c, m, request);
    hide Test, Go;
  }

  lemma StateTestVotes(c: Config, m: Machine, request: TestRequest, e: Evaporator)
    requires Regular(c, m) && m.leaf != Disabled && IsStateTest(TestRequested(request))
    ensures Test(c, m, request).heat.At(e).vote == VoteAfter(c, m, TestRequested(request), m.env, e)
  {
    var m1 := TestedMachine(m, request);
    RegularParts(c, m);
    StateTestGoes(c, m, request);
    hide Regular, Go, VoteAfter, Partitioned, Test;
    PartitionFrame(c, m, m1);
    AimedVotes(c, m, TestRequested(request), m.env, m1, TestAim(m.leaf, request).value, e);
  }

  lemma TestVotes(c: Config, m: Machine, request: TestRequest, e: Evaporator)
    requires Regular(c, m)
    ensures Test(c, m, request).heat.At(e).vote == VoteAfter(c, m, TestRequested(request), m.env, e)
  {
    hide Regular, Go, VoteAfter, Test;
    if TestAim(m.leaf, request).None? {
      IgnoredTestKeepsVotes(c, m, request);
      StayingVotes(c, m, TestRequested(request), m.env, m, e);
    } else if request == RequestExitHeaterOn {
      ExitVotes(c, m, e);
    } else {
      StateTestVotes(c, m, request, e);
    }
  }

  lemma IgnoredTestKeepsVotes(c: Config, m: Machine, request: TestRequest)
    requires TestAim(m.leaf, request).None?
    ensures Test(c, m, request).heat == m.heat
  {
    if request == RequestExitHeaterOn {
      ExitRequestIsSent(c, m);
    } else if request != RequestNone {
      StateTestIsSent(c, m, request);
    }
    hide Send, Go;
  }

  lemma ElapsingVotes(c: Config, m: Machine, ms: nat, e: Evaporator)
    ensures Elapsed(m, ms).heat.At(e).vote == VoteAfter(c, m, Elapse(ms), m.env, e)
  {
    assert Elapsed(m, ms).heat.At(e).vote == m.heat.At(e).vote by {
      match e case FreshFood => case Freezer => case Convertible =>
    }
    assert Aim(c, m, Elapse(ms), m.env).None?;
    hide Aim, VoteAfter, Elapsed;
    StayingVotes(c, m, Elapse(ms), m.env, Elapsed(m, ms), e);
  }

  lemma BackgroundVotes(c: Config, m: Machine, ev: Event, e: Evaporator)
    requires ev.Background?
    ensures Step(c, m, ev).heat.At(e).vote == VoteAfter(c, m, ev, Step(c, m, ev).env, e)
  {
    var r := Step(c, m, ev);
    assert Aim(c, m, ev, r.env).None?;
    hide Aim, VoteAfter, Merge;
    StayingVotes(c, m, ev, r.env, r, e);
  }

  // ---------------------------------------------------------------- readings

  lemma LeavingKeepsReadings(c: Config, m: Machine)
    ensures Leave(c, m).env == m.env
  {
    hide VoteChosen, VoteAll, CountChosen, CoveredThermistorsAreValid, PrimaryFor, SecondaryFor, ChosenBeforeFull;
  }

  lemma {:induction false} ArrivingKeepsReadings(c: Config, m: Machine, l: Leaf)
    ensures Arrive(c, m, l).env == m.env
    decreases Rank(l)
  {
    hide ReactAll, VoteAll, VoteChosen, PrechillMustEnd, AnyKnownThermistorIsInvalid, PrechillConditionsAreMet, Leave;
    var m0 := Come(m, l);
    var m1 := Save(m0, l);
    match l
    case Idle =>
      LeavingKeepsReadings(c, m1);
      if m1.rec.request == RequestPrechill {
        ArrivingKeepsReadings(c, Leave(c, m1), PrechillPrep);
      } else if m1.rec.request == RequestDefrost {
        ArrivingKeepsReadings(c, Leave(c, m1), HeaterOnEntry);
      }
    case PrechillPrep =>
      var m2 := m1.(rec := m1.rec.(dontSkipPrechill := false, request := RequestNone, useAhamTime := false));
      LeavingKeepsReadings(c, m0);
      LeavingKeepsReadings(c, m2);
      ArrivingKeepsReadings(c, Leave(c, m0), HeaterOnEntry);
      ArrivingKeepsReadings(c, Leave(c, m2), Prechill);
    case Prechill =>
      LeavingKeepsReadings(c, m1);
      ArrivingKeepsReadings(c, Leave(c, m1), HeaterOnEntry);
    case _ =>
  }

  lemma GoingKeepsReadings(c: Config, m: Machine, l: Leaf)
    ensures Go(c, m, l).env == m.env
  {
    hide Leave, Arrive;
    LeavingKeepsReadings(c, m);
    ArrivingKeepsReadings(c, Leave(c, m), l);
  }

  lemma DwellingKeepsReadings(c: Config, m: Machine)
    ensures DwellIfAllOff(c, m).env == m.env
  {
    hide Go, AllHeatersAreOff;
    GoingKeepsReadings(c, m, Dwell);
  }

  lemma TurningOffKeepsReadings(c: Config, m: Machine, e: Evaporator)
    ensures HeaterMaxOnTime(c, m, e).env == m.env && HeaterTemperature(c, m, e).env == m.env
  {
    hide DwellIfAllOff, VoteHeater, AbnormalMinutes;
    VotingKeepsLeaf(m, e);
    var m1 := VoteHeater(m, e, false, true);
    DwellingKeepsReadings(c, if m1.env.evapValid.At(e)
                             then m1.(rec := m1.rec.(maxTimeFault := m1.rec.maxTimeFault.With(e, true)))
                             else m1.(rec := m1.rec.(invalidThermistorDuringDefrost := true)));
    var m2 := if m1.heat.At(e).minutes < AbnormalMinutes(c, m1.env.role, e)
              then m1.(rec := m1.rec.(wasAbnormal := m1.rec.wasAbnormal.With(e, false))) else m1;
    DwellingKeepsReadings(c, m2.(rec := m2.rec.(maxTimeFault := m2.rec.maxTimeFault.With(e, false))));
  }

  lemma HeaterOnKeepsReadings(c: Config, m: Machine, s: Signal)
    requires m.leaf == HeaterOn
    ensures Send(c, m, s).env == m.env
  {
    hide Go, HeaterMaxOnTime, HeaterTemperature;
    forall l: Leaf ensures Go(c, m, l).env == m.env { GoingKeepsReadings(c, m, l); }
    forall e: Evaporator ensures HeaterMaxOnTime(c, m, e).env == m.env && HeaterTemperature(c, m, e).env == m.env {
      TurningOffKeepsReadings(c, m, e);
    }
  }

  lemma WaitingKeepsReadings(c: Config, m: Machine, s: Signal)
    requires m.leaf != HeaterOn && !Plain(s)
    ensures Send(c, m, s).env == m.env
  {
    hide Go, SlotEndsPostDwell;
    forall m1: Machine, l: Leaf ensures Go(c, m1, l).env == m1.env { GoingKeepsReadings(c, m1, l); }
  }

  lemma SendingKeepsReadings(c: Config, m: Machine, s: Signal)
    ensures Send(c, m, s).env == m.env
  {
    if m.leaf == HeaterOn {
      HeaterOnKeepsReadings(c, m, s);
    } else if !Plain(s) {
      WaitingKeepsReadings(c, m, s);
    } else {
      SendIsPlain(c, m, s);
      hide Send, Go, PlainTarget;
      var l := PlainTarget(c, m, s);
      if l.Some? { GoingKeepsReadings(c, Marked(m, s), l.value); }
    }
  }

  function ReadingsAfter(m: Machine, ev: Event): Environment
    requires !ev.PowerCycle?
  {
    if ev.RoleChanged? then m.env.(role := ev.role)
    else if ev.Background? then Merge(m.env, ev.next)
    else EnvironmentAfter(m.env, ev)
  }

  lemma ToldReads(c: Config, m: Machine, ev: Event)
    ensures Told(c, m, ev).env == EnvironmentAfter(m.env, ev)
  {
    hide Send, EnvironmentAfter, SignalFor;
    forall m1: Machine, s: Signal ensures Send(c, m1, s).env == m1.env { SendingKeepsReadings(c, m1, s); }
  }

  lemma StepReads(c: Config, m: Machine, ev: Event)
    requires !ev.PowerCycle?
    ensures Step(c, m, ev).env == ReadingsAfter(m, ev)
  {
    hide Send, Told, EnvironmentAfter, AbnormalMinutes, PrimaryFor, SecondaryFor, CountMinute, Merge;
    forall m1: Machine, s: Signal ensures Send(c, m1, s).env == m1.env { SendingKeepsReadings(c, m1, s); }
    ToldReads(c, m, ev);
    if ev.TestRequested? || ev.Elapse? || ev.DefrostTimerExpires? || ev.HeaterMinute? { NothingIsRead(m.env, ev); }
  }

  lemma NothingIsRead(env: Environment, ev: Event)
    requires ev.TestRequested? || ev.Elapse? || ev.DefrostTimerExpires? || ev.HeaterMinute?
    ensures EnvironmentAfter(env, ev) == env
  {}

  lemma StepVotes(c: Config, m: Machine, ev: Event, e: Evaporator)
    requires Regular(c, m) && Enabled(m, ev) && !ev.PowerCycle?
    ensures Step(c, m, ev).heat.At(e).vote == VoteAfter(c, m, ev, ReadingsAfter(m, ev), e)
  {
    hide VoteAfter, Regular, EvapTemperature, Test, TakeRole, Elapsed, Send, Minute, PowerUp, Told, EnvironmentAfter;
    if ev.TestRequested? || ev.Elapse? || ev.DefrostTimerExpires? || ev.HeaterMinute? { NothingIsRead(m.env, ev); }
    match ev
    case EvapTemperatureChanged(o, t) => TemperatureVotes(c, m, o, t, e);
    case TestRequested(request) => TestVotes(c, m, request, e);
    case RoleChanged(role) => RoleVotes(c, m, role, e);
    case Background(_, _, _, _) => BackgroundVotes(c, m, ev, e);
    case Elapse(ms) => ElapsingVotes(c, m, ms, e);
    case DefrostTimerExpires => ExpiryVotes(c, m, e);
    case HeaterMinute(o) => MinuteVotes(c, m, o, e);
    case _ => ToldVotes(c, m, ev, e);
  }

  /** In every state of every possible run, every event that can happen, but a power cut, leaves every heater voted as
      its row says. */
  lemma EveryVoteExactly(c: Config, m: Machine, ev: Event, e: Evaporator)
    requires Attainable(c, m) && Enabled(m, ev) && !ev.PowerCycle?
    ensures Step(c, m, ev).heat.At(e).vote == VoteAfter(c, m, ev, Step(c, m, ev).env, e)
  {
    hide Regular, Bounds, Attainable, VoteAfter, Step;
    AttainableIsRegular(c, m);
    StepReads(c, m, ev);
    StepVotes(c, m, ev, e);
  }

  // ---------------------------------------------------------------- the other loads

  /** Load by load, what a state asks for: the fans on the evaporators' side turn in Prechill only, compressor, condenser
      fan and the two plain dampers rest from HeaterOnEntry to Dwell, and valve and fresh food damper have a setting for
      each of the four parts of a defrost. */
  lemma LoadsByState(c: Config, l: Leaf)
    ensures CaredLoads(c, l).None? <==> l == Idle || l == PrechillPrep || l == Disabled
    ensures CaredLoads(c, l).Some? ==>
              var v, d := CaredLoads(c, l).value, c.data;
              var data := if l == Prechill then d.prechillLoads else d.postDwellLoads;
              var warm := l == HeaterOnEntry || l == HeaterOn || l == Dwell;
              (l == Prechill ==> v == d.prechillLoads) &&
              (l != Prechill ==>
                 v.freezerFan == v.freshFoodFan == v.iceCabinetFan == v.deliFan == v.convertibleFan == OFF) &&
              v.compressor == (if warm then OFF else data.compressor) &&
              v.condenserFan == (if warm then OFF else data.condenserFan) &&
              v.deliDamper == (if warm then CLOSED else data.deliDamper) &&
              v.convertibleDamper == (if warm then CLOSED else data.convertibleDamper) &&
              v.valve == (if l == Dwell then d.dwellValve else if warm then d.heaterOnEntryValve else data.valve) &&
              v.freshFoodDamper == if l == Dwell then d.dwellFreshFoodDamper
                                   else if warm then d.heaterOnEntryFreshFoodDamper
                                   else data.freshFoodDamper
  {}
}
