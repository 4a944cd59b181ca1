/**
 The transitions of the defrost machine in terms of the table: the conditions it tests, and all that leaving a state,
 arriving in one and passing through the next do to the records and the heater votes.
 */
module DefrostTransitions {
  import opened Options
  import opened Units
  import opened DefrostTypes
  import opened DefrostModel
  import opened DefrostRuns
  import opened DefrostProperties
  import opened HeatInEveryRun
  import opened DefrostTable

  // ---------------------------------------------------------------- conditions

  lemma FaultsAgree(env: Environment)
    ensures AnyKnownThermistorIsInvalid(env) <==> KnownFault(env)
  {
    assert env.evapValid.At(Freezer) == env.evapValid.freezer;
    assert env.evapValid.At(FreshFood) == env.evapValid.freshFood;
    assert env.evapValid.At(Convertible) == env.evapValid.convertible;
  }

  lemma ModesAgree(c: Config, env: Environment)
    ensures PrechillConditionsAreMet(c, env) <==> CoolsForPrechill(c.platform, env)
  {}

  lemma CabinetsAgree(c: Config, env: Environment, cabinet: Evaporator)
    ensures CabinetEndsPrechill(c, env, cabinet) <==> !MayChill(c.data, env, cabinet)
  {}

  /** What holds of an evaporator in a slot holds of a primary evaporator, and the other way round. */
  lemma SlotsArePrimary(c: Config, m: Machine)
    requires Partitioned(c, m)
    ensures m.primary.e0.Some? ==> IsPrimary(c.platform, m.env.role, m.primary.e0.value)
    ensures m.primary.e1.Some? ==> IsPrimary(c.platform, m.env.role, m.primary.e1.value)
    ensures forall e: Evaporator :: IsPrimary(c.platform, m.env.role, e) ==>
              m.primary.e0 == Some(e) || m.primary.e1 == Some(e)
  {
    GroupsByRole(c, m);
    assert m.primary.e0.Some? ==> m.primary.Has(m.primary.e0.value);
    assert m.primary.e1.Some? ==> m.primary.Has(m.primary.e1.value);
    forall e: Evaporator | IsPrimary(c.platform, m.env.role, e)
      ensures m.primary.e0 == Some(e) || m.primary.e1 == Some(e)
    {
      assert m.primary.Has(e);
    }
  }

  lemma PrimariesOverAgree(c: Config, m: Machine)
    requires Partitioned(c, m)
    ensures SlotEndsPrechill(c, m.env, m.primary.e0) || SlotEndsPrechill(c, m.env, m.primary.e1) <==>
            exists e: Evaporator :: IsPrimary(c.platform, m.env.role, e) && m.env.evapValid.At(e) &&
                                    m.env.evapTemperature.At(e) <= c.data.prechillPrimaryExit
  {
    SlotsArePrimary(c, m);
    hide IsPrimary, PrimaryFor, SecondaryFor;
  }

  lemma CabinetsOverAgree(c: Config, env: Environment)
    ensures (env.cabinetValid.freezer && CabinetEndsPrechill(c, env, Freezer)) ||
            (env.cabinetValid.freshFood && CabinetEndsPrechill(c, env, FreshFood)) ||
            (env.cabinetValid.convertible && CabinetEndsPrechill(c, env, Convertible)) <==>
            exists cabinet: Evaporator :: env.cabinetValid.At(cabinet) && !MayChill(c.data, env, cabinet)
  {
    CabinetsAgree(c, env, Freezer);
    CabinetsAgree(c, env, FreshFood);
    CabinetsAgree(c, env, Convertible);
    assert env.cabinetValid.At(Freezer) == env.cabinetValid.freezer;
    assert env.cabinetValid.At(FreshFood) == env.cabinetValid.freshFood;
    assert env.cabinetValid.At(Convertible) == env.cabinetValid.convertible;
    hide MayChill, CabinetEndsPrechill;
  }

  lemma MinutesOverAgree(c: Config, m: Machine)
    ensures PrechillMinutesLeft(c, m) == 0 <==>
            m.env.prechillMinutesMet >= PrechillMinutes(c.data, m.rec.defrostType)
    ensures PrechillMinutesLeft(c, m) > 0 ==>
              PrechillMinutesLeft(c, m) == PrechillMinutes(c.data, m.rec.defrostType) - m.env.prechillMinutesMet
  {}

  lemma OverAgrees(c: Config, m: Machine)
    requires Partitioned(c, m)
    ensures PrechillMustEnd(c, m) <==> PrechillIsOver(c, m.env, m.rec.defrostType)
    ensures !PrechillMustEnd(c, m) ==>
              PrechillMinutesLeft(c, m) == PrechillMinutes(c.data, m.rec.defrostType) - m.env.prechillMinutesMet
  {
    MinutesOverAgree(c, m);
    PrimariesOverAgree(c, m);
    CabinetsOverAgree(c, m.env);
    hide PrechillMinutesLeft, SlotEndsPrechill, CabinetEndsPrechill, MayChill, IsPrimary, PrechillMinutes;
  }

  lemma TypesAgree(c: Config, m: Machine)
    requires Partitioned(c, m)
    ensures ChosenBeforeFull(c, m) == NextN(c, m.rec, m.env)
    ensures DecidedType(ChooseBeforeFull(c, m).rec) == NextType(c, m.rec, m.env)
  {
    SlotsArePrimary(c, m);
    hide IsPrimary, PrimaryFor, SecondaryFor;
  }

  lemma ColdAgrees(c: Config, r: Records, t: int)
    ensures TemperatureEndsPostDwell(c, r, t) <==> IsColdAgain(c.data, r.defrostType, t)
  {}

  lemma SlotsColdAgree(c: Config, m: Machine)
    requires Partitioned(c, m)
    ensures SlotEndsPostDwell(c, m, m.primary.e0) || SlotEndsPostDwell(c, m, m.primary.e1) <==>
            exists e: Evaporator :: IsPrimary(c.platform, m.env.role, e) &&
              IsColdAgain(c.data, m.rec.defrostType, m.env.evapTemperature.At(e))
  {
    SlotsArePrimary(c, m);
    forall t: int ensures TemperatureEndsPostDwell(c, m.rec, t) <==> IsColdAgain(c.data, m.rec.defrostType, t) {
      ColdAgrees(c, m.rec, t);
    }
    hide IsPrimary, PrimaryFor, SecondaryFor, TemperatureEndsPostDwell, IsColdAgain;
  }

  lemma ValidAgree(c: Config, m: Machine)
    requires Partitioned(c, m)
    ensures !CoveredThermistorsAreValid(m) <==>
            exists e: Evaporator :: e in Fitted(c.platform) && !m.env.evapValid.At(e)
  {
    GroupsByRole(c, m);
    assert m.primary.e0.Some? ==> Covers(m, m.primary.e0.value);
    assert m.primary.e1.Some? ==> Covers(m, m.primary.e1.value);
    assert m.secondary.e0.Some? ==> Covers(m, m.secondary.e0.value);
    assert m.secondary.e1.Some? ==> Covers(m, m.secondary.e1.value);
    hide PrimaryFor, SecondaryFor, Fitted, IsHeated, IsPrimary;
    forall e: Evaporator | e in Fitted(c.platform) && !m.env.evapValid.At(e)
      ensures !CoveredThermistorsAreValid(m)
    {
      assert Covers(m, e);
    }
  }

  lemma WarmAgree(c: Config, m: Machine)
    requires Partitioned(c, m)
    ensures AllHeatersAreOff(m) <==> !exists e: Evaporator :: e in Fitted(c.platform) && On(m, e)
  {
    GroupsByRole(c, m);
    assert m.primary.e0.Some? ==> Covers(m, m.primary.e0.value);
    assert m.primary.e1.Some? ==> Covers(m, m.primary.e1.value);
    assert m.secondary.e0.Some? ==> Covers(m, m.secondary.e0.value);
    assert m.secondary.e1.Some? ==> Covers(m, m.secondary.e1.value);
    hide PrimaryFor, SecondaryFor, Fitted, IsHeated, IsPrimary;
    forall e: Evaporator | e in Fitted(c.platform) && On(m, e) ensures !AllHeatersAreOff(m) {
      assert Covers(m, e);
    }
  }

  lemma SkipsAgree(m: Machine)
    ensures SkipsPrechill(m.rec, m.env) <==>
            !m.rec.dontSkipPrechill &&
            (AnyPreviousDefrostWasAbnormal(m) || m.rec.tooWarmOnPowerUp || m.rec.invalidThermistorDuringDefrost ||
             m.rec.eepromCleared)
  {
    assert m.rec.wasAbnormal.At(Freezer) == m.rec.wasAbnormal.freezer;
    assert m.rec.wasAbnormal.At(FreshFood) == m.rec.wasAbnormal.freshFood;
    assert m.rec.wasAbnormal.At(Convertible) == m.rec.wasAbnormal.convertible;
  }

  // ---------------------------------------------------------------- arriving

  /** The records of a machine that has settled after asking for l. */
  function ArrivedRecords(r: Records, env: Environment, l: Leaf): Records {
    var prepares := l == PrechillPrep && !KnownFault(env);
    r.(request := RequestNone, dontSkipPrechill := r.dontSkipPrechill && !prepares,
       useAhamTime := r.useAhamTime && !prepares, valveHomingRequested := r.valveHomingRequested || l == Dwell)
  }

  /** What neither arriving nor leaving changes. */
  predicate SameChoices(m: Machine, r: Machine) {
    r.env == m.env && r.primary == m.primary && r.secondary == m.secondary && r.skipForTest == m.skipForTest &&
    r.hist.decisions == m.hist.decisions
  }

  /** The vote for the heater of e after arriving in l. */
  function ArrivedVote(c: Config, m: Machine, l: Leaf, e: Evaporator): Vote<bool> {
    if HoldsHeatersOff(l) then Vote(false, true)
    else if l == HeaterOn && IsHeated(c.platform, m.env.role, m.rec.defrostType, e) then Vote(true, true)
    else m.heat.At(e).vote
  }

  /** A machine that has asked for l has settled as the table says. */
  predicate Settled(c: Config, m: Machine, r: Machine, l: Leaf) {
    r.leaf == Settles(c, m.env, m.rec.defrostType, l) && r.rec == ArrivedRecords(m.rec, m.env, l) &&
    SameChoices(m, r) && |m.hist.visits| < |r.hist.visits| &&
    (r.leaf == Prechill ==> r.timer == Some(PrechillTime(c, m.env, m.rec.defrostType)))
  }

  lemma ArrivesInHeaterOnEntry(c: Config, m: Machine)
    ensures Settled(c, m, Arrive(c, m, HeaterOnEntry), HeaterOnEntry)
  {
    hide Save, PrechillIsOver, KnownFault, CoolsForPrechill;
    SavesOnly(Come(m, HeaterOnEntry), HeaterOnEntry);
  }

  lemma ArrivesInHeaterOn(c: Config, m: Machine)
    requires m.rec.request == RequestNone
    ensures Settled(c, m, Arrive(c, m, HeaterOn), HeaterOn)
  {
    hide Save, VoteChosen, PrechillIsOver, KnownFault, CoolsForPrechill;
    SavesOnly(Come(m, HeaterOn), HeaterOn);
  }

  lemma ArrivesHoldingOff(c: Config, m: Machine, l: Leaf)
    requires l == Dwell || ((l == PostDwell || l == Disabled) && m.rec.request == RequestNone)
    ensures Settled(c, m, Arrive(c, m, l), l)
  {
    hide Save, VoteAll, PrechillIsOver, KnownFault, CoolsForPrechill;
    SavesOnly(Come(m, l), l);
  }

  lemma SavesOnly(m: Machine, l: Leaf)
    ensures var r := Save(m, l); r == m.(recorded := Recorded(l), heat := r.heat)
  {}

  lemma ArrivesInIdle(c: Config, m: Machine)
    requires m.rec.request == RequestNone || m.rec.request == RequestIdle
    ensures Settled(c, m, Arrive(c, m, Idle), Idle)
  {
    hide Save, PrechillIsOver, KnownFault, Go, CoolsForPrechill;
    SavesOnly(Come(m, Idle), Idle);
  }

  lemma ArrivesInPrechill(c: Config, m: Machine)
    requires Partitioned(c, m) && m.timer.None? && m.rec.request == RequestNone
    ensures Settled(c, m, Arrive(c, m, Prechill), Prechill)
  {
    hide ReactAll, PrechillMustEnd, KnownFault, Arrive, PrechillMinutesLeft, PrechillIsOver, PrechillMinutes;
    var m1 := Save(Come(m, Prechill), Prechill);
    SavesOnly(Come(m, Prechill), Prechill);
    hide Save, PrimaryFor, SecondaryFor;
    OverAgrees(c, m1);
    ArrivesInHeaterOnEntry(c, m1);
    PrechillArrival(c, m);
  }

  lemma PrechillArrival(c: Config, m: Machine)
    requires m.timer.None?
    ensures var m1 := Save(Come(m, Prechill), Prechill);
            Arrive(c, m, Prechill) ==
            if PrechillMustEnd(c, m1) then Arrive(c, m1, HeaterOnEntry)
            else m1.(timer := Some(PrechillMinutesLeft(c, m1) * MSEC_PER_MIN))
  {
    hide ReactAll, PrechillMustEnd, PrechillMinutesLeft, AnyKnownThermistorIsInvalid, PrechillConditionsAreMet;
  }

  function Prepared(m: Machine): Machine {
    var m1 := Save(Come(m, PrechillPrep), PrechillPrep);
    m1.(rec := m1.rec.(dontSkipPrechill := false, request := RequestNone, useAhamTime := false))
  }

  lemma PrechillPrepArrival(c: Config, m: Machine)
    requires m.timer.None?
    ensures Arrive(c, m, PrechillPrep) ==
            if AnyKnownThermistorIsInvalid(m.env) then Arrive(c, Come(m, PrechillPrep), HeaterOnEntry)
            else if PrechillConditionsAreMet(c, m.env) then Arrive(c, Prepared(m), Prechill)
            else Prepared(m).(timer := Some(c.data.maxPrechillPrepMinutes * MSEC_PER_MIN))
  {
    SavesOnly(Come(m, PrechillPrep), PrechillPrep);
    hide Save, PrechillMustEnd, PrechillConditionsAreMet, AnyKnownThermistorIsInvalid, PrechillMinutesLeft;
  }

  lemma ArrivesInPrechillPrep(c: Config, m: Machine)
    requires Partitioned(c, m) && m.timer.None?
    ensures Settled(c, m, Arrive(c, m, PrechillPrep), PrechillPrep)
  {
    hide PrechillIsOver, KnownFault, Arrive, PrechillConditionsAreMet, CoolsForPrechill, AnyKnownThermistorIsInvalid;
    SavesOnly(Come(m, PrechillPrep), PrechillPrep);
    hide Save, PrimaryFor, SecondaryFor, PrechillTime;
    FaultsAgree(m.env);
    ModesAgree(c, m.env);
    PrechillPrepArrival(c, m);
    ArrivesInHeaterOnEntry(c, Come(m, PrechillPrep));
    ArrivesInPrechill(c, Prepared(m));
  }

  lemma ArrivesExactly(c: Config, m: Machine, l: Leaf)
    requires Partitioned(c, m) && m.timer.None? && RequestFits(m.rec.request, l)
    requires l == Idle ==> m.rec.request == RequestNone || m.rec.request == RequestIdle
    ensures Settled(c, m, Arrive(c, m, l), l)
  {
    hide Arrive, Settled, Partitioned;
    match l
    case Idle => ArrivesInIdle(c, m);
    case PrechillPrep => ArrivesInPrechillPrep(c, m);
    case Prechill => ArrivesInPrechill(c, m);
    case HeaterOnEntry => ArrivesInHeaterOnEntry(c, m);
    case HeaterOn => ArrivesInHeaterOn(c, m);
    case _ => ArrivesHoldingOff(c, m, l);
  }

  lemma ArrivesVoting(c: Config, m: Machine, l: Leaf, e: Evaporator)
    requires Partitioned(c, m)
    ensures Arrive(c, m, l).heat.At(e).vote == ArrivedVote(c, m, l, e)
  {
    hide ReactAll, PrechillIsOver, KnownFault, IsHeated;
    match l
    case HeaterOn => ArrivesTurningOn(c, m, e);
    case Dwell => ArrivesTurningOff(c, m, l, e);
    case PostDwell => ArrivesTurningOff(c, m, l, e);
    case Disabled => ArrivesTurningOff(c, m, l, e);
    case _ => ArrivalKeepsVotes(c, m, l, e);
  }

  lemma ArrivesTurningOn(c: Config, m: Machine, e: Evaporator)
    requires Partitioned(c, m)
    ensures Arrive(c, m, HeaterOn).heat.At(e).vote == ArrivedVote(c, m, HeaterOn, e)
  {
    hide Save, VoteChosen, Selects, IsHeated, PrimaryFor, SecondaryFor, VoteCell;
    var m1 := Save(Come(m, HeaterOn), HeaterOn);
    SavesOnly(Come(m, HeaterOn), HeaterOn);
    SavingVotes(Come(m, HeaterOn), HeaterOn, e);
    GroupsByRole(c, m1);
    ChosenVoteSets(m1, Vote(true, true), e);
    VotedCell(m1.heat.At(e), Vote(true, true), m1.recorded);
  }

  lemma ArrivesTurningOff(c: Config, m: Machine, l: Leaf, e: Evaporator)
    requires HoldsHeatersOff(l)
    ensures Arrive(c, m, l).heat.At(e).vote == Vote(false, true)
  {
    hide Save, VoteAll, VoteCell;
    var m1 := Save(Come(m, l), l);
    SavesOnly(Come(m, l), l);
    VoteAllSets(m1.heat, Vote(false, true), m1.recorded, e);
    VotedCell(m1.heat.At(e), Vote(false, true), m1.recorded);
  }

  lemma VotedCell(h: HeaterCell, v: Vote<bool>, recorded: Leaf)
    ensures VoteCell(h, v, recorded).vote == v
  {}

  lemma SavingVotes(m: Machine, l: Leaf, e: Evaporator)
    ensures Save(m, l).heat.At(e).vote == m.heat.At(e).vote
  {
    SavedCell(m, l, e);
  }

  // ---------------------------------------------------------------- leaving

  predicate DecidesOnLeaving(m: Machine) { m.leaf == Idle && !m.skipForTest && !m.skipForDisable }

  function CountedDefrosts(c: Config, m: Machine, e: Evaporator): uint16 {
    (m.rec.defrosts.At(e) + if IsHeated(c.platform, m.env.role, m.rec.defrostType, e) then 1 else 0) % 0x1_0000
  }

  /** The records of a machine that has left its state. */
  function LeftRecords(c: Config, m: Machine): Records {
    if m.leaf == Idle then
      var r := m.rec.(tooWarmOnPowerUp := false, eepromCleared := false);
      if !DecidesOnLeaving(m) then r
      else
        var t := NextType(c, m.rec, m.env);
        r.(secondaryOnlyBeforeFull := NextN(c, m.rec, m.env), defrostType := t, nextTypeOverride := DontCare,
           secondaryOnlyCount := if t == SecondaryOnly then (m.rec.secondaryOnlyCount + 1) % 0x100 else 0)
    else if m.leaf == HeaterOn then
      m.rec.(
        invalidThermistorDuringDefrost :=
          m.rec.invalidThermistorDuringDefrost &&
          exists e: Evaporator :: e in Fitted(c.platform) && !m.env.evapValid.At(e),
        defrosts := Trio(CountedDefrosts(c, m, FreshFood), CountedDefrosts(c, m, Freezer),
                         CountedDefrosts(c, m, Convertible)))
    else m.rec
  }

  function LeftDecisions(c: Config, m: Machine): seq<DefrostType> {
    if DecidesOnLeaving(m) then m.hist.decisions + [NextType(c, m.rec, m.env)] else m.hist.decisions
  }

  predicate Departed(c: Config, m: Machine, r: Machine) {
    r.leaf == m.leaf && r.timer.None? && r.env == m.env && r.primary == m.primary && r.secondary == m.secondary &&
    r.hist.visits == m.hist.visits && r.rec == LeftRecords(c, m) && r.hist.decisions == LeftDecisions(c, m) &&
    r.skipForTest == (m.skipForTest && m.leaf != Idle) &&
    r.skipForDisable == (m.skipForDisable && m.leaf != Disabled)
  }

  lemma LeavesIdleExactly(c: Config, m: Machine)
    requires Partitioned(c, m) && m.leaf == Idle && m.timer.None?
    ensures Departed(c, m, Leave(c, m))
  {
    hide ChosenBeforeFull, DecidedType, NextN, NextType, Partitioned;
    var m1 := m.(rec := m.rec.(tooWarmOnPowerUp := false, eepromCleared := false));
    assert Partitioned(c, m1) && NextType(c, m1.rec, m.env) == NextType(c, m.rec, m.env) by {
      LeavingIdleKeepsGroups(c, m);
    }
    TypesAgree(c, m1);
    LeavingIdleKeepsGroups(c, m);
    hide Partition, PrimaryFor, SecondaryFor;
  }

  lemma LeavingIdleKeepsGroups(c: Config, m: Machine)
    requires Partitioned(c, m)
    ensures var m1 := m.(rec := m.rec.(tooWarmOnPowerUp := false, eepromCleared := false));
            Partitioned(c, m1) && Partition(c, m1) == m1 &&
            NextN(c, m1.rec, m.env) == NextN(c, m.rec, m.env) && NextType(c, m1.rec, m.env) == NextType(c, m.rec, m.env)
  {
    hide IsPrimary;
  }

  lemma CountsAgree(c: Config, m: Machine)
    requires Partitioned(c, m)
    ensures CountChosen(m.rec.defrosts, m.rec.defrostType, m.primary, m.secondary) ==
            Trio(CountedDefrosts(c, m, FreshFood), CountedDefrosts(c, m, Freezer), CountedDefrosts(c, m, Convertible))
  {
    PartitionIsDisjointAndCovers(c, m);
    GroupsByRole(c, m);
    CountsOncePerGroup(m.rec.defrosts, m.primary);
    CountsOncePerGroup(CountSlots(m.rec.defrosts, m.primary), m.secondary);
    CountsOncePerGroup(m.rec.defrosts, m.secondary);
    SlotsDiffer(c, m);
    hide PrimaryFor, SecondaryFor, Fitted, IsPrimary, IsHeated, CountSlots;
  }

  predicate Differ(s: Slots) { s.e0.Some? && s.e1.Some? ==> s.e0 != s.e1 }

  lemma SlotsDiffer(c: Config, m: Machine)
    requires Partitioned(c, m)
    ensures Differ(m.primary) && Differ(m.secondary)
  {}

  function OneMoreIf(n: uint16, more: bool): uint16 { if more then (n + 1) % 0x1_0000 else n }

  lemma CountsOncePerGroup(t: Trio<uint16>, s: Slots)
    ensures Differ(s) ==>
              CountSlots(t, s) == Trio(OneMoreIf(t.freshFood, s.Has(FreshFood)), OneMoreIf(t.freezer, s.Has(Freezer)),
                                       OneMoreIf(t.convertible, s.Has(Convertible)))
  {}

  lemma LeavesHeaterOnExactly(c: Config, m: Machine)
    requires Partitioned(c, m) && m.leaf == HeaterOn && m.timer.None?
    ensures Departed(c, m, Leave(c, m))
  {
    ValidAgree(c, m);
    CountsAgree(c, m);
    hide VoteChosen, CountChosen, CountedDefrosts, CoveredThermistorsAreValid, Partitioned, Fitted;
  }

  lemma LeavesExactly(c: Config, m: Machine)
    requires Partitioned(c, m) && (Timed(m.leaf) || m.timer.None?)
    ensures Departed(c, m, Leave(c, m))
  {
    if m.leaf == Idle {
      LeavesIdleExactly(c, m);
    } else if m.leaf == HeaterOn {
      LeavesHeaterOnExactly(c, m);
    } else {
      hide LeaveIdle, LeaveHeaterOn, VoteAll, Partitioned, NextType;
    }
  }

  // ---------------------------------------------------------------- transitions

  /** A machine that has left its state for l, and settled, as the table says. */
  predicate Gone(c: Config, m: Machine, r: Machine, l: Leaf) {
    var left := LeftRecords(c, m);
    r.leaf == Settles(c, m.env, left.defrostType, l) && r.rec == ArrivedRecords(left, m.env, l) && r.env == m.env &&
    r.skipForTest == (m.skipForTest && m.leaf != Idle) && r.hist.decisions == LeftDecisions(c, m) &&
    |m.hist.visits| < |r.hist.visits| &&
    (r.leaf == Prechill ==> r.timer == Some(PrechillTime(c, m.env, left.defrostType)))
  }

  lemma DepartsAndSettles(c: Config, m: Machine, m1: Machine, r: Machine, l: Leaf)
    requires Departed(c, m, m1) && Settled(c, m1, r, l)
    ensures Gone(c, m, r, l)
  {
    hide LeftRecords, LeftDecisions, Settles, ArrivedRecords, PrechillTime;
  }

  lemma GoesExactly(c: Config, m: Machine, l: Leaf)
    requires Partitioned(c, m) && (Timed(m.leaf) || m.timer.None?) && RequestFits(m.rec.request, l)
    requires l == Idle ==> m.rec.request == RequestNone || m.rec.request == RequestIdle
    ensures Gone(c, m, Go(c, m, l), l)
  {
    hide Leave, Arrive, Settled, Gone, LeftRecords;
    LeavesExactly(c, m);
    var m1 := Leave(c, m);
    LeavingKeepsRequest(c, m);
    PartitionFrame(c, m, m1);
    hide Partitioned;
    ArrivesExactly(c, m1, l);
    DepartsAndSettles(c, m, m1, Arrive(c, m1, l), l);
  }

  lemma PartitionFrame(c: Config, m: Machine, r: Machine)
    requires Partitioned(c, m) && r.env == m.env && r.primary == m.primary && r.secondary == m.secondary
    ensures Partitioned(c, r)
  {}

  lemma LeavingKeepsRequest(c: Config, m: Machine)
    ensures LeftRecords(c, m).request == m.rec.request
  {
    hide NextType, NextN, CountedDefrosts;
  }
}
