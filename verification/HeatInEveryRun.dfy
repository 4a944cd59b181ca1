/**
 How long a HeaterOn visit lasts in any possible run at all, heaters left on by an earlier defrost included:
 their counts may be past the max-on-time or about to wrap, and that costs one minute more.
 */
module HeatInEveryRun {
  import opened Options
  import opened Units
  import opened DefrostTypes
  import opened DefrostModel
  import opened DefrostRuns
  import opened DefrostTiming
  import opened DefrostProperties

  // ---------------------------------------------------------------- the invariant

  /** A counter's timer runs exactly while its heater is on. */
  predicate InStep(h: HeaterCell) {
    (h.vote.value <==> h.ticks.Some?) && (h.ticks.Some? ==> h.ticks.value <= MSEC_PER_MIN)
  }

  /** How many minutes more an eight-bit count can be published before one of them is at the limit. */
  function MinutesToGo(minutes: uint8, limit: nat): nat {
    if minutes < limit then limit - minutes
    else if minutes == 255 then limit + 1
    else 1
  }

  /** A heater that is on in HeaterOn leaves the visit no longer than the limit and a minute. */
  predicate EndsInTime(m: Machine, h: HeaterCell, limit: nat)
    requires m.hist.visits != []
  {
    m.leaf == HeaterOn && h.ticks.Some? ==>
      Stayed(m) + MinutesToGo(h.minutes, limit) * MSEC_PER_MIN - h.ticks.value <= (limit + 1) * MSEC_PER_MIN
  }

  predicate CellFits(c: Config, m: Machine, e: Evaporator, limit: nat)
    requires m.hist.visits != []
  {
    InStep(m.heat.At(e)) && (On(m, e) ==> e in Fitted(c.platform)) &&
    (m.leaf != HeaterOn && !On(m, e) ==> m.heat.At(e).minutes == 0) && EndsInTime(m, m.heat.At(e), limit)
  }

  /** What is true of every settled machine, whatever heaters are on. */
  predicate Bounds(c: Config, m: Machine, limit: nat) {
    Partitioned(c, m) && m.recorded == Recorded(m.leaf) && MaxOnBounded(m.env, limit) && m.hist.visits != [] &&
    Heating(m) && forall e: Evaporator :: CellFits(c, m, e, limit)
  }

  // ---------------------------------------------------------------- leaving and arriving

  /** The states that a HeaterOn visit may lead to directly: saving them resets the counters of heaters that are off. */
  predicate Resets(l: Leaf) { l == Idle || l == Dwell || l == Disabled }

  /** A heater between two states, on the way to l. */
  predicate CellMayEnd(c: Config, m: Machine, l: Leaf, e: Evaporator) {
    InStep(m.heat.At(e)) && (On(m, e) ==> e in Fitted(c.platform)) &&
    (!On(m, e) && (m.recorded != HeaterOn || !Resets(l)) ==> m.heat.At(e).minutes == 0)
  }

  predicate MayEnd(c: Config, m: Machine, l: Leaf, limit: nat) {
    Partitioned(c, m) && MaxOnBounded(m.env, limit) && forall e: Evaporator :: CellMayEnd(c, m, l, e)
  }

  lemma VoteAllSets(h: Heaters, v: Vote<bool>, recorded: Leaf, e: Evaporator)
    ensures VoteAll(h, v, recorded).At(e) == VoteCell(h.At(e), v, recorded)
  {
    match e case FreshFood => case Freezer => case Convertible =>
  }

  lemma ChosenVoteSets(m: Machine, v: Vote<bool>, e: Evaporator)
    ensures VoteChosen(m.heat, m.rec.defrostType, m.primary, m.secondary, v, m.recorded).At(e) ==
            if Selects(m, e) then VoteCell(m.heat.At(e), v, m.recorded) else m.heat.At(e)
  {
    VoteChosenSets(m.heat, m.rec.defrostType, m.primary, m.secondary, v, m.recorded);
    match e case FreshFood => case Freezer => case Convertible =>
  }

  lemma SavedCell(m: Machine, l: Leaf, e: Evaporator)
    ensures Save(m, l).heat.At(e) ==
            if m.recorded == Recorded(l) then m.heat.At(e) else React(m.heat.At(e), Recorded(l))
  {
    match e case FreshFood => case Freezer => case Convertible =>
  }

  /** How leaving a state votes on a heater. */
  lemma LeavingVotes(c: Config, m: Machine, e: Evaporator)
    ensures var h := m.heat.At(e);
            var off := VoteCell(h, Vote(false, false), m.recorded);
            Leave(c, m).heat.At(e) ==
            match m.leaf {
              case HeaterOn => if Selects(m, e) then off else h
              case Dwell => off
              case PostDwell => off
              case Disabled => off
              case _ => h
            }
  {
    LeaveIdleFacts(c, m);
    ChosenVoteSets(m, Vote(false, false), e);
    VoteAllSets(m.heat, Vote(false, false), m.recorded, e);
    hide VoteAll, VoteChosen, VoteCell, CountChosen, CoveredThermistorsAreValid, LeaveIdle;
  }

  /** A state may be left for l: HeaterOn only for a state that resets. */
  lemma LeavingMayEnd(c: Config, m: Machine, l: Leaf, limit: nat, e: Evaporator)
    requires m.hist.visits != [] && CellFits(c, m, e, limit) && m.recorded == Recorded(m.leaf)
    requires m.leaf == HeaterOn ==> Resets(l)
    ensures CellMayEnd(c, Leave(c, m), l, e)
  {
    LeavingVotes(c, m, e);
    assert Leave(c, m).recorded == m.recorded by { LeavingSavesNothing(c, m); }
    hide Leave, Fitted, EndsInTime, Selects;
  }

  lemma LeavingSavesNothing(c: Config, m: Machine)
    ensures Leave(c, m).recorded == m.recorded
  {
    hide VoteChosen, VoteAll, CountChosen, CoveredThermistorsAreValid, PrimaryFor, SecondaryFor;
  }

  lemma LeavingKeepsTheRest(c: Config, m: Machine)
    requires Partitioned(c, m)
    ensures var r := Leave(c, m); Partitioned(c, r) && r.recorded == m.recorded && r.env == m.env
  {
    LeaveIdleFacts(c, m);
    hide VoteChosen, VoteAll, CountChosen, CoveredThermistorsAreValid;
  }

  /** A cell after l has been saved. */
  lemma SavingMayEnd(c: Config, m: Machine, l: Leaf, e: Evaporator)
    requires CellMayEnd(c, m, l, e)
    ensures var r := Save(Come(m, l), l);
            InStep(r.heat.At(e)) && (On(r, e) ==> e in Fitted(c.platform)) &&
            (!On(r, e) ==> r.heat.At(e).minutes == 0)
  {
    SavedCell(Come(m, l), l, e);
  }

  /** A machine that stays where it has just arrived, outside HeaterOn. */
  lemma RestsThere(c: Config, m: Machine, r: Machine, limit: nat)
    requires MayEnd(c, m, r.leaf, limit) && r.leaf != HeaterOn
    requires r.recorded == Recorded(r.leaf) && r.env == m.env && r.primary == m.primary && r.secondary == m.secondary
    requires r.hist.visits != [] && r.heat == Save(Come(m, r.leaf), r.leaf).heat
    ensures Bounds(c, r, limit)
  {
    forall e: Evaporator ensures CellFits(c, r, e, limit) {
      SavingMayEnd(c, m, r.leaf, e);
    }
  }

  lemma VotedOffThere(c: Config, m: Machine, r: Machine, limit: nat)
    requires MayEnd(c, m, r.leaf, limit) && r.leaf != HeaterOn && r.leaf != HeaterOnEntry
    requires r.recorded == Recorded(r.leaf) && r.env == m.env && r.primary == m.primary && r.secondary == m.secondary
    requires r.hist.visits != []
    requires r.heat == VoteAll(Save(Come(m, r.leaf), r.leaf).heat, Vote(false, true), r.recorded)
    ensures Bounds(c, r, limit)
  {
    forall e: Evaporator ensures CellFits(c, r, e, limit) {
      SavingMayEnd(c, m, r.leaf, e);
      VoteAllSets(Save(Come(m, r.leaf), r.leaf).heat, Vote(false, true), r.recorded, e);
    }
  }

  lemma TurnedOnThere(c: Config, m: Machine, limit: nat)
    requires MayEnd(c, m, HeaterOn, limit)
    ensures Bounds(c, Arrive(c, m, HeaterOn), limit)
  {
    var r := Arrive(c, m, HeaterOn);
    var m1 := Save(Come(m, HeaterOn), HeaterOn);
    assert Stayed(r) == 0;
    PartitionIsDisjointAndCovers(c, r);
    forall e: Evaporator ensures CellFits(c, r, e, limit) && (Selects(r, e) ==> Covers(r, e) && On(r, e)) {
      SavingMayEnd(c, m, HeaterOn, e);
      ChosenVoteSets(m1, Vote(true, true), e);
    }
  }

  lemma ArrivingBounds(c: Config, m: Machine, l: Leaf, limit: nat)
    requires MayEnd(c, m, l, limit)
    ensures Bounds(c, Arrive(c, m, l), limit)
    decreases Rank(l)
  {
    hide ReactAll, VoteAll, VoteChosen, PrechillMustEnd, AnyKnownThermistorIsInvalid, PrechillConditionsAreMet;
    hide Leave, MayEnd, Bounds;
    match l
    case Idle => ArrivingInIdleBounds(c, m, limit);
    case PrechillPrep => ArrivingInPrechillPrepBounds(c, m, limit);
    case Prechill => ArrivingInPrechillBounds(c, m, limit);
    case HeaterOnEntry => RestsThere(c, m, Arrive(c, m, l), limit);
    case HeaterOn => TurnedOnThere(c, m, limit);
    case _ => VotedOffThere(c, m, Arrive(c, m, l), limit);
  }

  lemma ArrivingInIdleBounds(c: Config, m: Machine, limit: nat)
    requires MayEnd(c, m, Idle, limit)
    ensures Bounds(c, Arrive(c, m, Idle), limit)
    decreases Rank(Idle), 0
  {
    hide ReactAll, Bounds;
    var m1 := Save(Come(m, Idle), Idle);
    LeaveIdleFacts(c, m1);
    forall l: Leaf, e: Evaporator ensures CellMayEnd(c, Leave(c, m1), l, e) { SavingMayEnd(c, m, Idle, e); }
    hide LeaveIdle, CellMayEnd;
    if m1.rec.request == RequestPrechill {
      ArrivingBounds(c, Leave(c, m1), PrechillPrep, limit);
    } else if m1.rec.request == RequestDefrost {
      ArrivingBounds(c, Leave(c, m1), HeaterOnEntry, limit);
    } else {
      RestsThere(c, m, Arrive(c, m, Idle), limit);
    }
  }

  lemma ArrivingInPrechillPrepBounds(c: Config, m: Machine, limit: nat)
    requires MayEnd(c, m, PrechillPrep, limit)
    ensures Bounds(c, Arrive(c, m, PrechillPrep), limit)
    decreases Rank(PrechillPrep), 0
  {
    var m0 := Come(m, PrechillPrep);
    var m1 := Save(m0, PrechillPrep);
    if AnyKnownThermistorIsInvalid(m0.env) {
      forall e: Evaporator ensures CellMayEnd(c, Leave(c, m0), HeaterOnEntry, e) {
        assert CellMayEnd(c, m, PrechillPrep, e);
      }
      ArrivingBounds(c, Leave(c, m0), HeaterOnEntry, limit);
    } else {
      var m2 := m1.(rec := m1.rec.(dontSkipPrechill := false, request := RequestNone, useAhamTime := false));
      if PrechillConditionsAreMet(c, m2.env) {
        forall e: Evaporator ensures CellMayEnd(c, Leave(c, m2), Prechill, e) { SavingMayEnd(c, m, PrechillPrep, e); }
        ArrivingBounds(c, Leave(c, m2), Prechill, limit);
      } else {
        RestsThere(c, m, Arrive(c, m, PrechillPrep), limit);
      }
    }
  }

  lemma ArrivingInPrechillBounds(c: Config, m: Machine, limit: nat)
    requires MayEnd(c, m, Prechill, limit)
    ensures Bounds(c, Arrive(c, m, Prechill), limit)
    decreases Rank(Prechill), 0
  {
    var m1 := Save(Come(m, Prechill), Prechill);
    if PrechillMustEnd(c, m1) {
      forall e: Evaporator ensures CellMayEnd(c, Leave(c, m1), HeaterOnEntry, e) { SavingMayEnd(c, m, Prechill, e); }
      ArrivingBounds(c, Leave(c, m1), HeaterOnEntry, limit);
    } else {
      RestsThere(c, m, Arrive(c, m, Prechill), limit);
    }
  }

  lemma GoingBounds(c: Config, m: Machine, l: Leaf, limit: nat)
    requires Bounds(c, m, limit) && (m.leaf == HeaterOn ==> Resets(l))
    ensures Bounds(c, Go(c, m, l), limit)
  {
    LeavingKeepsTheRest(c, m);
    forall e: Evaporator ensures CellMayEnd(c, Leave(c, m), l, e) {
      assert CellFits(c, m, e, limit);
      LeavingMayEnd(c, m, l, limit, e);
    }
    ArrivingBounds(c, Leave(c, m), l, limit);
  }

  // ---------------------------------------------------------------- steps

  /** Nothing that the bounds speak of has changed. */
  lemma BoundsFrame(c: Config, m: Machine, r: Machine, limit: nat)
    requires Bounds(c, m, limit) && r == m.(env := r.env, rec := r.rec, timer := r.timer, skipForTest := r.skipForTest,
                                            skipForDisable := r.skipForDisable, hist := r.hist)
    requires r.env.role == m.env.role && MaxOnBounded(r.env, limit) && r.rec.defrostType == m.rec.defrostType
    requires r.hist.visits == m.hist.visits
    ensures Bounds(c, r, limit)
  {
    forall e: Evaporator ensures CellFits(c, r, e, limit) && Selects(r, e) == Selects(m, e) {
      assert CellFits(c, m, e, limit);
    }
    HeatingFrame(m, r);
  }

  /** A machine in HeaterOn within bounds, but for when the heater e ends. */
  predicate OthersFit(c: Config, m: Machine, e: Evaporator, limit: nat) {
    m.leaf == HeaterOn && m.recorded == HeaterOn && Partitioned(c, m) && MaxOnBounded(m.env, limit) &&
    m.hist.visits != [] && (forall o: Evaporator :: o != e ==> CellFits(c, m, o, limit)) &&
    InStep(m.heat.At(e)) && (On(m, e) ==> e in Fitted(c.platform))
  }

  /** A heater is turned off in HeaterOn, and HeaterOn left with the last one. */
  lemma TurningOffBounds(c: Config, m: Machine, e: Evaporator, r: Records, limit: nat)
    requires OthersFit(c, m, e, limit)
    ensures Bounds(c, DwellIfAllOff(c, VoteHeater(m, e, false, true).(rec := r)), limit)
  {
    var m1 := VoteHeater(m, e, false, true).(rec := r);
    forall o: Evaporator ensures CellFits(c, m1, o, limit) {
      assert o != e ==> CellFits(c, m, o, limit);
      match o case FreshFood => case Freezer => case Convertible =>
    }
    if AllHeatersAreOff(m1) {
      LeavingOffBounds(c, m1, limit);
    } else {
      SomeHeaterIsOn(m1);
    }
  }

  lemma SomeHeaterIsOn(m: Machine)
    requires !AllHeatersAreOff(m)
    ensures exists e: Evaporator :: Covers(m, e) && On(m, e)
  {
    var s := if !SlotIsOff(m.heat, m.primary.e0) then m.primary.e0
             else if !SlotIsOff(m.heat, m.primary.e1) then m.primary.e1
             else if !SlotIsOff(m.heat, m.secondary.e0) then m.secondary.e0
             else m.secondary.e1;
    assert Covers(m, s.value) && On(m, s.value);
  }

  lemma LeavingOffBounds(c: Config, m: Machine, limit: nat)
    requires Partitioned(c, m) && m.recorded == HeaterOn && MaxOnBounded(m.env, limit) && m.hist.visits != []
    requires m.leaf == HeaterOn && forall e: Evaporator :: CellFits(c, m, e, limit)
    ensures Bounds(c, Go(c, m, Dwell), limit)
  {
    LeavingKeepsTheRest(c, m);
    forall e: Evaporator ensures CellMayEnd(c, Leave(c, m), Dwell, e) {
      assert CellFits(c, m, e, limit);
      LeavingMayEnd(c, m, Dwell, limit, e);
    }
    ArrivingBounds(c, Leave(c, m), Dwell, limit);
  }

  lemma MaxOnTimeBounds(c: Config, m: Machine, e: Evaporator, limit: nat)
    requires OthersFit(c, m, e, limit)
    ensures Bounds(c, HeaterMaxOnTime(c, m, e), limit)
  {
    hide Bounds, OthersFit, DwellIfAllOff, VoteAt;
    TurningOffBounds(c, m, e, if m.env.evapValid.At(e) then m.rec.(maxTimeFault := m.rec.maxTimeFault.With(e, true))
                              else m.rec.(invalidThermistorDuringDefrost := true), limit);
  }

  lemma AllFitIsOthersFit(c: Config, m: Machine, e: Evaporator, limit: nat)
    requires Bounds(c, m, limit) && m.leaf == HeaterOn
    ensures OthersFit(c, m, e, limit)
  {
    assert CellFits(c, m, e, limit);
  }

  lemma TerminationBounds(c: Config, m: Machine, e: Evaporator, limit: nat)
    requires Bounds(c, m, limit) && m.leaf == HeaterOn
    ensures Bounds(c, HeaterTemperature(c, m, e), limit)
  {
    AllFitIsOthersFit(c, m, e, limit);
    hide Bounds, OthersFit, DwellIfAllOff, VoteAt;
    var m1 := VoteHeater(m, e, false, true);
    var r := if m1.heat.At(e).minutes < AbnormalMinutes(c, m1.env.role, e)
             then m1.rec.(wasAbnormal := m1.rec.wasAbnormal.With(e, false)) else m1.rec;
    TurningOffBounds(c, m, e, r.(maxTimeFault := r.maxTimeFault.With(e, false)), limit);
  }

  lemma SignalBounds(c: Config, m: Machine, s: Signal, limit: nat)
    requires Bounds(c, m, limit) && Plain(s)
    ensures Bounds(c, Send(c, m, s), limit)
  {
    hide Bounds, Send, Go, HeaterMaxOnTime, HeaterTemperature;
    if m.leaf == HeaterOn {
      HeaterOnSend(c, m, s);
      match s
      case SigHeaterMaxOnTimeReached(e) => AllFitIsOthersFit(c, m, e, limit); MaxOnTimeBounds(c, m, e, limit);
      case SigEvaporatorTemperatureChanged(e) => TerminationBounds(c, m, e, limit);
      case SigDisableDefrost => GoingBounds(c, m, Disabled, limit);
      case _ =>
    } else {
      SendIsPlain(c, m, s);
      var l := PlainTarget(c, m, s);
      if l.Some? {
        MarkingBounds(c, m, s, limit);
        GoingBounds(c, Marked(m, s), l.value, limit);
      }
    }
  }

  lemma MarkingBounds(c: Config, m: Machine, s: Signal, limit: nat)
    requires Bounds(c, m, limit)
    ensures Bounds(c, Marked(m, s), limit) && Marked(m, s).leaf == m.leaf
  {
    assert MaxOnBounded(m.env, limit);
    hide Bounds;
    BoundsFrame(c, m, Marked(m, s), limit);
  }

  lemma ToldBounds(c: Config, m: Machine, ev: Event, limit: nat)
    requires Bounds(c, m, limit)
    ensures Bounds(c, Told(c, m, ev), limit)
  {
    var env := EnvironmentAfter(m.env, ev);
    assert env.role == m.env.role && MaxOnBounded(env, limit);
    hide Bounds, Send, EnvironmentAfter, SignalFor;
    BoundsFrame(c, m, m.(env := env), limit);
    ToldSignalIsPlain(c, env, ev);
    var s := SignalFor(c, env, ev);
    if s.Some? { SignalBounds(c, m.(env := env), s.value, limit); }
  }

  lemma TemperatureBounds(c: Config, m: Machine, e: Evaporator, temperature: int, limit: nat)
    requires Bounds(c, m, limit)
    ensures Bounds(c, EvapTemperature(c, m, e, temperature), limit)
  {
    hide Bounds, Told, Send;
    ToldBounds(c, m, EvapTemperatureChanged(e, temperature), limit);
    SignalBounds(c, Told(c, m, EvapTemperatureChanged(e, temperature)),
                 SigPrimaryEvaporatorTemperatureChanged(temperature), limit);
  }

  lemma RoleBounds(c: Config, m: Machine, role: Role, limit: nat)
    requires Bounds(c, m, limit)
    ensures Bounds(c, TakeRole(c, m, role), limit)
  {
    var r := GiveRole(c, m, role);
    PartitionIsDisjointAndCovers(c, m);
    PartitionIsDisjointAndCovers(c, r);
    hide PrimaryFor, SecondaryFor, Send;
    forall e: Evaporator ensures CellFits(c, r, e, limit) && Covers(r, e) == Covers(m, e) {
      assert CellFits(c, m, e, limit);
    }
    RoleKeepsHeating(c, m, r);
    SignalBounds(c, r, SigPrimaryEvaporatorTemperatureChanged(r.env.evapTemperature.convertible), limit);
  }

  /** The bound at a published minute: the count goes on to the limit, from past it to its end, or around once. */
  lemma CountingFits(c: Config, m: Machine, e: Evaporator, limit: nat)
    requires m.hist.visits != [] && CellFits(c, m, e, limit) && 0 < limit <= 255
    requires m.heat.At(e).ticks == Some(MSEC_PER_MIN)
    requires m.leaf == HeaterOn ==> CountMinute(m.heat.At(e)).minutes < limit
    ensures CellFits(c, Counted(m, e), e, limit)
  {
    CountedCell(m, e, e);
    hide Fitted;
  }

  lemma MinuteBounds(c: Config, m: Machine, e: Evaporator, limit: nat)
    requires Bounds(c, m, limit) && 0 < limit <= 255 && Enabled(m, HeaterMinute(e))
    ensures Bounds(c, Minute(c, m, e), limit)
  {
    var m1 := Counted(m, e);
    forall o: Evaporator
      ensures o != e ==> CellFits(c, m1, o, limit)
      ensures On(m1, o) == On(m, o) && Selects(m1, o) == Selects(m, o) && Covers(m1, o) == Covers(m, o)
    {
      assert CellFits(c, m, o, limit);
      CountedCell(m, e, o);
    }
    assert CellFits(c, m, e, limit);
    CountedCell(m, e, e);
    HeatingFrame(m, m1);
    hide Minute, HeaterMaxOnTime, HeaterAbnormal, Heating;
    if m.leaf != HeaterOn {
      MinuteOutsideHeaterOn(c, m, e);
      CountingFits(c, m, e, limit);
    } else {
      MinuteInHeaterOn(c, m, e);
      if m1.heat.At(e).minutes >= m.env.maxOnMinutes.At(e) {
        MaxOnTimeBounds(c, m1, e, limit);
      } else {
        MaxOnIsBounded(m.env, e, limit);
        CountingFits(c, m, e, limit);
        AbnormalBounds(c, m1, e, limit);
      }
    }
  }

  lemma MaxOnIsBounded(env: Environment, e: Evaporator, limit: nat)
    requires MaxOnBounded(env, limit)
    ensures env.maxOnMinutes.At(e) <= limit
  {
    match e case FreshFood => case Freezer => case Convertible =>
  }

  lemma AbnormalBounds(c: Config, m: Machine, e: Evaporator, limit: nat)
    requires Bounds(c, m, limit)
    ensures Bounds(c, HeaterAbnormal(m, e), limit)
  {
    assert MaxOnBounded(m.env, limit);
    hide Bounds;
    BoundsFrame(c, m, HeaterAbnormal(m, e), limit);
  }

  lemma TestBounds(c: Config, m: Machine, request: TestRequest, limit: nat)
    requires Bounds(c, m, limit)
    ensures Bounds(c, Test(c, m, request), limit)
  {
    assert MaxOnBounded(m.env, limit);
    hide Bounds, Go;
    var m1 := m.(rec := m.rec.(request := request));
    BoundsFrame(c, m, m1, limit);
    BoundsFrame(c, m, ClearRequest(m1), limit);
    BoundsFrame(c, m, m1.(skipForTest := true), limit);
    if request == RequestExitHeaterOn {
      ExitRequestIsSent(c, m);
      hide Test;
      if m.leaf == HeaterOnEntry || m.leaf == HeaterOn { GoingBounds(c, m1, Dwell, limit); }
    } else if request != RequestNone {
      StateTestIsSent(c, m, request);
      hide Test;
      if m.leaf != Disabled {
        GoingBounds(c, if m.leaf == Idle || m.leaf == PostDwell then m1.(skipForTest := true) else m1, Idle, limit);
      }
    }
  }

  lemma ExpiryBounds(c: Config, m: Machine, limit: nat)
    requires Bounds(c, m, limit)
    ensures Bounds(c, Send(c, m.(timer := None), SigDefrostTimerExpired), limit)
  {
    assert MaxOnBounded(m.env, limit);
    hide Bounds, Go, SlotEndsPostDwell;
    var m1 := m.(timer := None);
    BoundsFrame(c, m, m1, limit);
    if m.leaf == Dwell {
      GoingBounds(c, m1, Idle, limit);
      GoingBounds(c, m1, PostDwell, limit);
    } else if Timed(m.leaf) {
      TimerMoves(c, m1);
      GoingBounds(c, m1, AfterTimer(m.leaf), limit);
    }
  }

  lemma ElapseBounds(c: Config, m: Machine, ms: nat, limit: nat)
    requires Bounds(c, m, limit) && Enabled(m, Elapse(ms))
    ensures Bounds(c, Elapsed(m, ms), limit)
  {
    var r := Elapsed(m, ms);
    assert Stayed(r) == Stayed(m) + ms;
    forall e: Evaporator
      ensures CellFits(c, r, e, limit) && On(r, e) == On(m, e) && Selects(r, e) == Selects(m, e)
      ensures Covers(r, e) == Covers(m, e)
    {
      assert CellFits(c, m, e, limit);
      assert m.heat.At(e).ticks.Some? ==> m.heat.At(e).ticks.value + ms <= MSEC_PER_MIN;
      match e case FreshFood => case Freezer => case Convertible =>
    }
    HeatingFrame(m, r);
  }

  lemma PowerUpBounds(c: Config, m: Machine, env: Environment, limit: nat)
    requires MaxOnBounded(env, limit)
    ensures Bounds(c, PowerUp(c, m, env), limit)
  {
    var m1 := Prepare(c, m, env);
    forall e: Evaporator ensures CellMayEnd(c, m1, InitialLeaf(m1), e) {
      match e case FreshFood => case Freezer => case Convertible =>
    }
    ArrivingBounds(c, m1, InitialLeaf(m1), limit);
  }

  lemma BackgroundBounds(c: Config, m: Machine, ev: Event, limit: nat)
    requires Bounds(c, m, limit) && ev.Background? && Bounded(ev, limit)
    ensures Bounds(c, Step(c, m, ev), limit)
  {
    hide Bounds;
    BoundsFrame(c, m, Step(c, m, ev), limit);
  }

  /** Every event that can happen keeps the bounds. */
  lemma StepBounds(c: Config, m: Machine, ev: Event, limit: nat)
    requires Bounds(c, m, limit) && 0 < limit <= 255 && Enabled(m, ev) && Bounded(ev, limit)
    ensures Bounds(c, Step(c, m, ev), limit)
  {
    hide Bounds, EvapTemperature, Test, TakeRole, Elapsed, Send, Minute, PowerUp, Told;
    match ev
    case EvapTemperatureChanged(e, t) => TemperatureBounds(c, m, e, t, limit);
    case TestRequested(r) => TestBounds(c, m, r, limit);
    case RoleChanged(role) => RoleBounds(c, m, role, limit);
    case Background(_, _, _, _) => BackgroundBounds(c, m, ev, limit);
    case Elapse(ms) => ElapseBounds(c, m, ms, limit);
    case DefrostTimerExpires => ExpiryBounds(c, m, limit);
    case HeaterMinute(e) => MinuteBounds(c, m, e, limit);
    case PowerCycle(next) => PowerUpBounds(c, m, next, limit);
    case _ => ToldBounds(c, m, ev, limit);
  }

  // ---------------------------------------------------------------- all runs

  lemma {:induction false} RunBounds(c: Config, m: Machine, evs: seq<Event>, limit: nat)
    requires Bounds(c, m, limit) && 0 < limit <= 255 && Possible(c, m, evs, limit)
    ensures Bounds(c, Run(c, m, evs), limit)
    decreases |evs|
  {
    if evs != [] {
      StepBounds(c, m, evs[0], limit);
      hide Bounds, Step;
      RunBounds(c, Step(c, m, evs[0]), evs[1..], limit);
    }
  }

  /** In every possible run from start-up, stranded heaters and role changes included, a HeaterOn visit whose type
      selects a heater, or in which one is on, has lasted at most the limit of the max-on-times and one minute. */
  lemma HeatIsBoundedInEveryRun(c: Config, saved: Machine, env: Environment, evs: seq<Event>, limit: nat)
    requires MaxOnBounded(env, limit) && 0 < limit <= 255 && Possible(c, PowerUp(c, saved, env), evs, limit)
    ensures var m := Run(c, PowerUp(c, saved, env), evs);
            m.hist.visits != [] &&
            (m.leaf == HeaterOn && (exists e: Evaporator :: Selects(m, e) || On(m, e)) ==>
               Stayed(m) <= (limit + 1) * MSEC_PER_MIN)
  {
    PowerUpBounds(c, saved, env, limit);
    RunBounds(c, PowerUp(c, saved, env), evs, limit);
    var m := Run(c, PowerUp(c, saved, env), evs);
    hide Run, PowerUp;
    if m.leaf == HeaterOn && exists e: Evaporator :: Selects(m, e) || On(m, e) {
      OnHeaterBoundsVisit(c, m, limit);
    }
  }

  lemma OnHeaterBoundsVisit(c: Config, m: Machine, limit: nat)
    requires Bounds(c, m, limit) && m.leaf == HeaterOn && exists e: Evaporator :: Selects(m, e) || On(m, e)
    ensures Stayed(m) <= (limit + 1) * MSEC_PER_MIN
  {
    var e: Evaporator :| Selects(m, e) || On(m, e);
    if !On(m, e) {
      e :| Covers(m, e) && On(m, e);
    }
    assert CellFits(c, m, e, limit);
  }
}
