/**
 The defrost machine does exactly what the table says: every event, in every state that any possible run reaches.
 */
module DefrostExactly {
  import opened Options
  import opened DefrostTypes
  import opened DefrostModel
  import opened DefrostRuns
  import opened DefrostTiming
  import opened DefrostProperties
  import opened HeatInEveryRun
  import opened DefrostTable
  import opened DefrostTransitions

  // ---------------------------------------------------------------- reading an event

  predicate Waiting(l: Leaf) { l == Idle || l == PostDwell }

  /** The records once an event has had its effect in HeaterOn, or was a change from outside. */
  function Touched(c: Config, m: Machine, ev: Event): Records {
    var r := m.rec.(
      invalidThermistorDuringDefrost :=
        m.rec.invalidThermistorDuringDefrost ||
        exists e: Evaporator :: EndsByTime(c, m, ev, e) && !m.env.evapValid.At(e),
      maxTimeFault :=
        Trio(FaultAfter(c, m, ev, FreshFood), FaultAfter(c, m, ev, Freezer), FaultAfter(c, m, ev, Convertible)),
      wasAbnormal :=
        Trio(AbnormalAfter(c, m, ev, FreshFood), AbnormalAfter(c, m, ev, Freezer),
             AbnormalAfter(c, m, ev, Convertible)),
      abnormalDefrosts :=
        Trio(AbnormalDefrostsAfter(c, m, ev, FreshFood), AbnormalDefrostsAfter(c, m, ev, Freezer),
             AbnormalDefrostsAfter(c, m, ev, Convertible)));
    if ev.Background?
    then r.(nextTypeOverride := ev.nextTypeOverride, dontSkipPrechill := ev.dontSkipPrechill,
            useAhamTime := ev.useAhamTime)
    else r
  }

  lemma NothingEndsOutside(c: Config, m: Machine, ev: Event, e: Evaporator)
    requires m.leaf != HeaterOn || !(ev.EvapTemperatureChanged? || ev.HeaterMinute?)
    ensures !EndsByTime(c, m, ev, e) && !EndsByTemperature(c, m, ev, e) && !BecomesAbnormal(c, m, ev, e)
  {
    hide EndsHeater, AbnormalThreshold;
  }

  lemma UntouchedEvaporator(c: Config, m: Machine, ev: Event, e: Evaporator)
    requires !EndsByTime(c, m, ev, e) && !EndsByTemperature(c, m, ev, e) && !BecomesAbnormal(c, m, ev, e)
    ensures FaultAfter(c, m, ev, e) == m.rec.maxTimeFault.At(e)
    ensures AbnormalAfter(c, m, ev, e) == m.rec.wasAbnormal.At(e)
  {
    hide EndsByTime, EndsByTemperature, BecomesAbnormal;
  }

  lemma NoAbnormalCounted(c: Config, m: Machine, ev: Event, e: Evaporator)
    requires !BecomesAbnormal(c, m, ev, e)
    ensures AbnormalDefrostsAfter(c, m, ev, e) == m.rec.abnormalDefrosts.At(e)
  {}

  lemma UntouchedOutside(c: Config, m: Machine, ev: Event)
    requires m.leaf != HeaterOn || !(ev.EvapTemperatureChanged? || ev.HeaterMinute?)
    ensures Touched(c, m, ev) ==
            if ev.Background?
            then m.rec.(nextTypeOverride := ev.nextTypeOverride, dontSkipPrechill := ev.dontSkipPrechill,
                        useAhamTime := ev.useAhamTime)
            else m.rec
  {
    hide FaultAfter, AbnormalAfter, AbnormalDefrostsAfter, EndsByTime, EndsByTemperature, BecomesAbnormal;
    forall e: Evaporator
      ensures !EndsByTime(c, m, ev, e) && !EndsByTemperature(c, m, ev, e) && !BecomesAbnormal(c, m, ev, e)
    {
      NothingEndsOutside(c, m, ev, e);
    }
    UntouchedEvaporator(c, m, ev, FreshFood);
    UntouchedEvaporator(c, m, ev, Freezer);
    UntouchedEvaporator(c, m, ev, Convertible);
    NoAbnormalCounted(c, m, ev, FreshFood);
    NoAbnormalCounted(c, m, ev, Freezer);
    NoAbnormalCounted(c, m, ev, Convertible);
  }

  /** The machine once an event has been read and has had its own effect: whatever has not changed of m. */
  predicate HasRead(c: Config, m: Machine, ev: Event, m1: Machine) {
    IsRead(m.env, ev, m1.env) && m1.leaf == m.leaf && m1.rec == Touched(c, m, ev) &&
    m1.hist.decisions == m.hist.decisions && m1.skipForTest == m.skipForTest &&
    m1.skipForDisable == (m.skipForDisable || (ev == DisableChanged(true) && Waiting(m.leaf)))
  }

  lemma RegularParts(c: Config, m: Machine)
    requires Regular(c, m)
    ensures m.rec.request == RequestNone && (m.skipForTest ==> m.leaf == Idle)
    ensures m.skipForDisable ==> m.leaf == Disabled
    ensures Partitioned(c, m) && (m.timer.Some? <==> Timed(m.leaf))
  {}

  lemma NoDefrostCounted(c: Config, m: Machine, ev: Event, env: Environment, e: Evaporator)
    requires m.leaf != HeaterOn || Aim(c, m, ev, env).None?
    ensures DefrostsAfter(c, m, ev, env, e) == m.rec.defrosts.At(e)
  {
    hide Aim;
  }

  lemma StayingIsARow(c: Config, m: Machine, ev: Event, r: Machine)
    requires m.rec.request == RequestNone && (m.skipForTest ==> m.leaf == Idle)
    requires HasRead(c, m, ev, r) && Aim(c, m, ev, r.env).None?
    requires ev == TestRequested(RequestIdle) ==> m.leaf == Disabled
    ensures IsRow(c, m, ev, r)
  {
    hide IsRead, FaultAfter, AbnormalAfter, AbnormalDefrostsAfter, DefrostsAfter, EndsByTime, KnownFault, NextN;
    hide NextType, Aim;
    NoDefrostCounted(c, m, ev, r.env, FreshFood);
    NoDefrostCounted(c, m, ev, r.env, Freezer);
    NoDefrostCounted(c, m, ev, r.env, Convertible);
  }

  /** What holds of a regular machine, as far as the rows need it. */
  predicate AtRest(m: Machine) {
    m.rec.request == RequestNone && (m.skipForTest ==> m.leaf == Idle) && (m.skipForDisable ==> m.leaf == Disabled)
  }

  /** A machine that has gone to l with the records that the table says is the row. */
  lemma GoneIsARow(c: Config, m: Machine, ev: Event, m1: Machine, l: Leaf, r: Machine)
    requires Gone(c, m1, r, l) && IsRead(m.env, ev, m1.env) && Aim(c, m, ev, m1.env) == Some(l)
    requires RecordsAfter(c, m, ev, m1.env) == ArrivedRecords(LeftRecords(c, m1), m1.env, l)
    requires LeftDecisions(c, m1) ==
             m.hist.decisions + if Decides(m, ev, Some(l)) then [NextType(c, m.rec, m1.env)] else []
    requires (m1.skipForTest && m1.leaf != Idle) == SkipsDecision(m, ev, Some(l))
    ensures IsRow(c, m, ev, r)
  {
    TypeIsRecorded(c, m, ev, m1.env);
    assert ArrivedRecords(LeftRecords(c, m1), m1.env, l).defrostType == LeftRecords(c, m1).defrostType;
    hide IsRead, Aim, NextType, Settles, RecordsAfter, TypeAfter, ArrivedRecords, LeftRecords, LeftDecisions, Decides;
    hide SkipsDecision, PrechillTime;
  }

  lemma TypeIsRecorded(c: Config, m: Machine, ev: Event, env: Environment)
    ensures RecordsAfter(c, m, ev, env).defrostType == TypeAfter(c, m, ev, env)
  {
    hide FaultAfter, AbnormalAfter, AbnormalDefrostsAfter, DefrostsAfter, InvalidAfter, LeavesIdle, Decides, Aim;
    hide TypeAfter, CountAfter, NextN;
  }

  lemma GoingIsARow(c: Config, m: Machine, ev: Event, m1: Machine, l: Leaf, r: Machine)
    requires AtRest(m) && HasRead(c, m, ev, m1) && !ev.TestRequested? && !ev.Background?
    requires Aim(c, m, ev, m1.env) == Some(l) && Gone(c, m1, r, l)
    ensures IsRow(c, m, ev, r)
  {
    if m.leaf == Idle {
      GoingFromIdleIsARow(c, m, ev, m1, l, r);
    } else if m.leaf == HeaterOn {
      GoingFromHeaterOnIsARow(c, m, ev, m1, l, r);
    } else {
      GoingElsewhereIsARow(c, m, ev, m1, l, r);
    }
  }

  lemma ElsewhereDecidesNothing(c: Config, m: Machine, ev: Event, env: Environment)
    requires m.leaf != Idle && m.leaf != HeaterOn && !ev.TestRequested?
    ensures var aim := Aim(c, m, ev, env);
            !Decides(m, ev, aim) && !LeavesIdle(m, ev, aim) &&
            InvalidAfter(c, m, ev, aim) == m.rec.invalidThermistorDuringDefrost
  {
    hide Aim, EndsByTime;
    forall e: Evaporator ensures !EndsByTime(c, m, ev, e) { Untouched(c, m, ev, env, e); }
  }

  lemma ElsewhereRecords(c: Config, m: Machine, ev: Event, env: Environment, l: Leaf)
    requires m.leaf != Idle && m.leaf != HeaterOn && m.rec.request == RequestNone
    requires !ev.TestRequested? && !ev.Background? && Aim(c, m, ev, env) == Some(l)
    ensures RecordsAfter(c, m, ev, env) == ArrivedRecords(m.rec, env, l)
  {
    hide Aim, KnownFault, NextN, NextType, FaultAfter, AbnormalAfter, AbnormalDefrostsAfter, DefrostsAfter, Decides;
    hide LeavesIdle, InvalidAfter;
    Untouched(c, m, ev, env, FreshFood);
    Untouched(c, m, ev, env, Freezer);
    Untouched(c, m, ev, env, Convertible);
    ElsewhereDecidesNothing(c, m, ev, env);
  }

  lemma GoingElsewhereIsARow(c: Config, m: Machine, ev: Event, m1: Machine, l: Leaf, r: Machine)
    requires AtRest(m) && HasRead(c, m, ev, m1) && !ev.TestRequested? && !ev.Background?
    requires m.leaf != Idle && m.leaf != HeaterOn
    requires Aim(c, m, ev, m1.env) == Some(l) && Gone(c, m1, r, l)
    ensures IsRow(c, m, ev, r)
  {
    hide IsRead, Aim, NextN, NextType, RecordsAfter, Touched, ArrivedRecords, IsRow, Gone;
    UntouchedOutside(c, m, ev);
    ElsewhereDecidesNothing(c, m, ev, m1.env);
    ElsewhereRecords(c, m, ev, m1.env, l);
    GoneIsARow(c, m, ev, m1, l, r);
  }

  lemma IdleAims(c: Config, m: Machine, ev: Event, env: Environment)
    requires m.leaf == Idle && !ev.TestRequested?
    ensures Aim(c, m, ev, env) != Some(Idle) && (Aim(c, m, ev, env) == Some(Disabled) <==> ev == DisableChanged(true))
  {
    hide SkipsPrechill, Sabbath;
  }

  lemma IdleRecords(c: Config, m: Machine, ev: Event, env: Environment, l: Leaf)
    requires m.leaf == Idle && m.rec.request == RequestNone && !ev.TestRequested? && !ev.Background?
    requires Aim(c, m, ev, env) == Some(l)
    ensures var decides := l != Disabled && !m.skipForTest;
            var t := if decides then NextType(c, m.rec, env) else m.rec.defrostType;
            var prepares := l == PrechillPrep && !KnownFault(env);
            RecordsAfter(c, m, ev, env) ==
            m.rec.(dontSkipPrechill := m.rec.dontSkipPrechill && !prepares,
                   useAhamTime := m.rec.useAhamTime && !prepares,
                   valveHomingRequested := m.rec.valveHomingRequested || l == Dwell,
                   tooWarmOnPowerUp := false, eepromCleared := false, defrostType := t,
                   secondaryOnlyBeforeFull := if decides then NextN(c, m.rec, env) else m.rec.secondaryOnlyBeforeFull,
                   nextTypeOverride := if decides then DontCare else m.rec.nextTypeOverride,
                   secondaryOnlyCount := if !decides then m.rec.secondaryOnlyCount
                                         else if t == SecondaryOnly then (m.rec.secondaryOnlyCount + 1) % 0x100 else 0)
  {
    hide Aim, KnownFault, NextN, NextType, FaultAfter, AbnormalAfter, AbnormalDefrostsAfter, DefrostsAfter, EndsByTime;
    IdleAims(c, m, ev, env);
    Untouched(c, m, ev, env, FreshFood);
    Untouched(c, m, ev, env, Freezer);
    Untouched(c, m, ev, env, Convertible);
    forall e: Evaporator ensures !EndsByTime(c, m, ev, e) { Untouched(c, m, ev, env, e); }
  }

  lemma Untouched(c: Config, m: Machine, ev: Event, env: Environment, e: Evaporator)
    requires m.leaf != HeaterOn
    ensures !EndsByTime(c, m, ev, e) && FaultAfter(c, m, ev, e) == m.rec.maxTimeFault.At(e)
    ensures AbnormalAfter(c, m, ev, e) == m.rec.wasAbnormal.At(e)
    ensures AbnormalDefrostsAfter(c, m, ev, e) == m.rec.abnormalDefrosts.At(e)
    ensures DefrostsAfter(c, m, ev, env, e) == m.rec.defrosts.At(e)
  {
    NothingEndsOutside(c, m, ev, e);
    UntouchedEvaporator(c, m, ev, e);
    NoAbnormalCounted(c, m, ev, e);
    NoDefrostCounted(c, m, ev, env, e);
    hide FaultAfter, AbnormalAfter, AbnormalDefrostsAfter, DefrostsAfter, EndsByTime;
  }

  lemma GoingFromIdleIsARow(c: Config, m: Machine, ev: Event, m1: Machine, l: Leaf, r: Machine)
    requires AtRest(m) && HasRead(c, m, ev, m1) && !ev.TestRequested? && !ev.Background? && m.leaf == Idle
    requires Aim(c, m, ev, m1.env) == Some(l) && Gone(c, m1, r, l)
    ensures IsRow(c, m, ev, r)
  {
    hide IsRead, Aim, KnownFault, NextN, NextType, RecordsAfter, Touched, IsRow, Gone;
    IdleAims(c, m, ev, m1.env);
    UntouchedOutside(c, m, ev);
    IdleRecords(c, m, ev, m1.env, l);
    GoneIsARow(c, m, ev, m1, l, r);
  }

  lemma HeaterOnReads(c: Config, m: Machine, ev: Event, env: Environment)
    requires m.leaf == HeaterOn && !ev.TestRequested? && Aim(c, m, ev, env).Some? && IsRead(m.env, ev, env)
    ensures env.role == m.env.role && env.evapValid == m.env.evapValid
    ensures Aim(c, m, ev, env) == Some(Dwell) || Aim(c, m, ev, env) == Some(Disabled)
  {
    assert env.evapValid.At(FreshFood) == m.env.evapValid.At(FreshFood);
    assert env.evapValid.At(Freezer) == m.env.evapValid.At(Freezer);
    assert env.evapValid.At(Convertible) == m.env.evapValid.At(Convertible);
    hide AnotherIsOn;
  }

  lemma GoingFromHeaterOnIsARow(c: Config, m: Machine, ev: Event, m1: Machine, l: Leaf, r: Machine)
    requires AtRest(m) && HasRead(c, m, ev, m1) && !ev.TestRequested? && !ev.Background? && m.leaf == HeaterOn
    requires Aim(c, m, ev, m1.env) == Some(l) && Gone(c, m1, r, l)
    ensures IsRow(c, m, ev, r)
  {
    hide IsRead, NextType, RecordsAfter, Aim, LeftRecords, ArrivedRecords, IsRow, Gone, Touched;
    HeaterOnReads(c, m, ev, m1.env);
    LeavingHeaterOnRecords(c, m, ev, m1, l);
    GoneIsARow(c, m, ev, m1, l, r);
  }

  lemma LeavingHeaterOnRecords(c: Config, m: Machine, ev: Event, m1: Machine, l: Leaf)
    requires m.rec.request == RequestNone && !ev.TestRequested? && !ev.Background? && m.leaf == HeaterOn
    requires m1.leaf == HeaterOn && m1.rec == Touched(c, m, ev)
    requires m1.env.role == m.env.role && m1.env.evapValid == m.env.evapValid
    requires Aim(c, m, ev, m1.env) == Some(l) && (l == Dwell || l == Disabled)
    ensures RecordsAfter(c, m, ev, m1.env) == ArrivedRecords(LeftRecords(c, m1), m1.env, l)
  {
    hide KnownFault, NextType, FaultAfter, AbnormalAfter, AbnormalDefrostsAfter, CountedDefrosts, EndsByTime, Fitted;
    hide Aim, DefrostsAfter;
    TouchingKeepsCounts(c, m, ev);
    CountsDefrosts(c, m, ev, m1, l, FreshFood);
    CountsDefrosts(c, m, ev, m1, l, Freezer);
    CountsDefrosts(c, m, ev, m1, l, Convertible);
  }

  lemma TouchingKeepsCounts(c: Config, m: Machine, ev: Event)
    ensures Touched(c, m, ev).defrosts == m.rec.defrosts && Touched(c, m, ev).defrostType == m.rec.defrostType
  {
    hide FaultAfter, AbnormalAfter, AbnormalDefrostsAfter, EndsByTime;
  }

  lemma CountsDefrosts(c: Config, m: Machine, ev: Event, m1: Machine, l: Leaf, e: Evaporator)
    requires m.leaf == HeaterOn && Aim(c, m, ev, m1.env) == Some(l) && m1.env.role == m.env.role
    requires m1.rec.defrosts == m.rec.defrosts && m1.rec.defrostType == m.rec.defrostType
    ensures DefrostsAfter(c, m, ev, m1.env, e) == CountedDefrosts(c, m1, e)
  {
    hide Aim, IsHeated;
  }

  // ---------------------------------------------------------------- events told by a signal

  lemma OneIsSet<T>(t: Trio<T>, e: Evaporator, v: T, o: Evaporator)
    ensures t.With(e, v).At(o) == if o == e then v else t.At(o)
  {
    match o case FreshFood => case Freezer => case Convertible =>
  }

  lemma ThermistorIsRead(env: Environment, ev: Event, e: Evaporator)
    requires !ev.Background?
    ensures var after := EnvironmentAfter(env, ev);
            after.evapValid.At(e) == (if ev.EvapThermistorChanged? && ev.evap == e then ev.valid
                                      else env.evapValid.At(e)) &&
            after.cabinetValid.At(e) == if ev.FreezerThermistorChanged? && e == Freezer then ev.valid
                                        else env.cabinetValid.At(e)
  {
    if ev.EvapThermistorChanged? {
      OneIsSet(env.evapValid, ev.evap, ev.valid, e);
    } else if ev.FreezerThermistorChanged? {
      OneIsSet(env.cabinetValid, Freezer, ev.valid, e);
    }
  }

  lemma TemperatureIsRead(env: Environment, ev: Event, e: Evaporator)
    ensures var after := EnvironmentAfter(env, ev);
            after.evapTemperature.At(e) == (if ev.EvapTemperatureChanged? && ev.evap == e then ev.temperature
                                            else env.evapTemperature.At(e)) &&
            after.cabinetTemperature.At(e) == if ev.CabinetTemperatureChanged? && ev.cabinet == e then ev.temperature
                                              else env.cabinetTemperature.At(e)
  {
    if ev.EvapTemperatureChanged? {
      OneIsSet(env.evapTemperature, ev.evap, ev.temperature, e);
    } else if ev.CabinetTemperatureChanged? {
      OneIsSet(env.cabinetTemperature, ev.cabinet, ev.temperature, e);
    }
  }

  lemma CoolingIsSet(env: Environment, ev: Event)
    requires !ev.RoleChanged?
    ensures CoolingIsRead(env, ev, EnvironmentAfter(env, ev))
  {}

  lemma SabbathIsSet(env: Environment, ev: Event)
    ensures SabbathIsRead(env, ev, EnvironmentAfter(env, ev))
  {}

  lemma SilentIsKept(env: Environment, ev: Event)
    requires !ev.Background?
    ensures SilentIsRead(env, ev, EnvironmentAfter(env, ev))
  {}

  lemma EnvironmentIsRead(env: Environment, ev: Event)
    requires !ev.RoleChanged? && !ev.Background? && !ev.PowerCycle?
    ensures IsRead(env, ev, EnvironmentAfter(env, ev))
  {
    var after := EnvironmentAfter(env, ev);
    hide EnvironmentAfter, CoolingIsRead, SabbathIsRead, SilentIsRead;
    CoolingIsSet(env, ev);
    SabbathIsSet(env, ev);
    SilentIsKept(env, ev);
    forall e: Evaporator
      ensures after.evapValid.At(e) ==
              if ev.EvapThermistorChanged? && ev.evap == e then ev.valid else env.evapValid.At(e)
      ensures after.evapTemperature.At(e) ==
              if ev.EvapTemperatureChanged? && ev.evap == e then ev.temperature else env.evapTemperature.At(e)
      ensures after.cabinetTemperature.At(e) ==
              if ev.CabinetTemperatureChanged? && ev.cabinet == e then ev.temperature else env.cabinetTemperature.At(e)
      ensures after.cabinetValid.At(e) ==
              if ev.FreezerThermistorChanged? && e == Freezer then ev.valid else env.cabinetValid.At(e)
    {
      ThermistorIsRead(env, ev, e);
      TemperatureIsRead(env, ev, e);
    }
  }

  lemma RoleIsRead(env: Environment, role: Role)
    ensures IsRead(env, RoleChanged(role), env.(role := role))
  {}

  lemma BackgroundIsRead(env: Environment, ev: Event)
    requires ev.Background?
    ensures IsRead(env, ev, Merge(env, ev.next))
  {
    var after := Merge(env, ev.next);
    forall e: Evaporator
      ensures after.cabinetValid.At(e) == if e == Freezer then env.cabinetValid.freezer else ev.next.cabinetValid.At(e)
    {
      match e case FreshFood => case Freezer => case Convertible =>
    }
  }

  /** An event is read, and the machine goes where the table aims. */
  lemma AimedIsARow(c: Config, m: Machine, ev: Event, m1: Machine, r: Machine)
    requires Regular(c, m) && !ev.TestRequested? && !ev.PowerCycle? && HasRead(c, m, ev, m1) && Partitioned(c, m1)
    requires Timed(m.leaf) || m1.timer.None?
    requires var aim := Aim(c, m, ev, m1.env); r == if aim.Some? then Go(c, m1, aim.value) else m1
    requires Aim(c, m, ev, m1.env).Some? ==> !ev.Background?
    ensures IsRow(c, m, ev, r)
  {
    RegularParts(c, m);
    var aim := Aim(c, m, ev, m1.env);
    hide Aim, Regular, Go, Partitioned, IsRow, Gone, IsRead;
    if aim.Some? {
      GoesExactly(c, m1, aim.value);
      assert AtRest(m);
      hide Touched;
      GoingIsARow(c, m, ev, m1, aim.value, r);
    } else {
      StayingIsARow(c, m, ev, r);
    }
  }

  /** The events that are told to the machine by one signal or none. */
  predicate IsTold(ev: Event) {
    !ev.EvapTemperatureChanged? && !ev.TestRequested? && !ev.RoleChanged? && !ev.Background? && !ev.Elapse? &&
    !ev.DefrostTimerExpires? && !ev.HeaterMinute? && !ev.PowerCycle?
  }

  function ToldTarget(c: Config, m: Machine, env: Environment, ev: Event): Option<Leaf> {
    var s := SignalFor(c, env, ev);
    if s.Some? then PlainTarget(c, m.(env := env), s.value) else None
  }

  lemma IdleIsToldAim(c: Config, m: Machine, env: Environment, ev: Event)
    requires m.leaf == Idle && IsTold(ev) && IsRead(m.env, ev, env)
    ensures ToldTarget(c, m, env, ev) == Aim(c, m, ev, env)
  {
    SkipsAgree(m.(env := env));
    hide SkipsPrechill, AnyPreviousDefrostWasAbnormal, PrechillConditionsAreMet;
  }

  lemma PrechillPrepIsToldAim(c: Config, m: Machine, env: Environment, ev: Event)
    requires m.leaf == PrechillPrep && IsTold(ev) && IsRead(m.env, ev, env)
    ensures ToldTarget(c, m, env, ev) == Aim(c, m, ev, env)
  {
    ModesAgree(c, env);
    hide PrechillConditionsAreMet, CoolsForPrechill;
  }

  lemma PrechillIsToldAim(c: Config, m: Machine, env: Environment, ev: Event)
    requires m.leaf == Prechill && IsTold(ev) && IsRead(m.env, ev, env)
    ensures ToldTarget(c, m, env, ev) == Aim(c, m, ev, env)
  {
    if ev.CabinetTemperatureChanged? { CabinetsAgree(c, env, ev.cabinet); }
    hide PrechillConditionsAreMet, MayChill, CabinetEndsPrechill;
  }

  lemma OtherIsToldAim(c: Config, m: Machine, env: Environment, ev: Event)
    requires m.leaf != Idle && m.leaf != PrechillPrep && m.leaf != Prechill && m.leaf != HeaterOn && IsTold(ev)
    ensures ToldTarget(c, m, env, ev) == Aim(c, m, ev, env)
  {
    hide PrechillConditionsAreMet;
  }

  lemma ToldIsAimed(c: Config, m: Machine, env: Environment, ev: Event)
    requires m.leaf != HeaterOn && IsTold(ev) && IsRead(m.env, ev, env)
    ensures ToldTarget(c, m, env, ev) == Aim(c, m, ev, env)
  {
    hide ToldTarget, Aim, IsRead;
    match m.leaf
    case Idle => IdleIsToldAim(c, m, env, ev);
    case PrechillPrep => PrechillPrepIsToldAim(c, m, env, ev);
    case Prechill => PrechillIsToldAim(c, m, env, ev);
    case _ => OtherIsToldAim(c, m, env, ev);
  }

  lemma OnlyDisablingMarks(c: Config, env: Environment, ev: Event)
    ensures SignalFor(c, env, ev) == Some(SigDisableDefrost) <==> ev == DisableChanged(true)
  {
    hide PrechillConditionsAreMet;
  }

  /** The machine once it has been told, before any transition. */
  function ToldMachine(c: Config, m: Machine, ev: Event): Machine {
    var m1 := m.(env := EnvironmentAfter(m.env, ev));
    if ev == DisableChanged(true) && Waiting(m.leaf) then m1.(skipForDisable := true) else m1
  }

  lemma DisablingAims(c: Config, m: Machine, env: Environment)
    ensures m.leaf != Disabled ==> Aim(c, m, DisableChanged(true), env) == Some(Disabled)
  {}

  lemma ToldGoes(c: Config, m: Machine, ev: Event)
    requires m.leaf != HeaterOn && IsTold(ev)
    ensures var m1 := ToldMachine(c, m, ev);
            var aim := Aim(c, m, ev, m1.env);
            Told(c, m, ev) == if aim.Some? then Go(c, m1, aim.value) else m1
  {
    hide IsRead, Send, Go, EnvironmentAfter, SignalFor, Aim, PlainTarget;
    var env := EnvironmentAfter(m.env, ev);
    EnvironmentIsRead(m.env, ev);
    ToldIsAimed(c, m, env, ev);
    ToldSignalIsPlain(c, env, ev);
    OnlyDisablingMarks(c, env, ev);
    DisablingAims(c, m, env);
    var s := SignalFor(c, env, ev);
    if s.Some? {
      assert s.value.SigDisableDefrost? ==> s == Some(SigDisableDefrost);
      SendIsPlain(c, m.(env := env), s.value);
    }
  }

  lemma ToldInHeaterOnGoes(c: Config, m: Machine, ev: Event)
    requires m.leaf == HeaterOn && IsTold(ev)
    ensures var m1 := ToldMachine(c, m, ev);
            var aim := Aim(c, m, ev, m1.env);
            Told(c, m, ev) == if aim.Some? then Go(c, m1, aim.value) else m1
  {
    hide Send, Go, EnvironmentAfter, SignalFor;
    var env := EnvironmentAfter(m.env, ev);
    var s := SignalFor(c, env, ev);
    ToldSignalIsPlain(c, env, ev);
    OtherSignals(c, env, ev);
    HeaterOnAims(c, m, ev, env);
    hide Aim, IsTold;
    if s.Some? {
      assert s.value.SigDisableDefrost? ==> s == Some(SigDisableDefrost);
      HeaterOnSend(c, m.(env := env), s.value);
    }
  }

  lemma HeaterOnAims(c: Config, m: Machine, ev: Event, env: Environment)
    requires m.leaf == HeaterOn && IsTold(ev)
    ensures Aim(c, m, ev, env) == if ev == DisableChanged(true) then Some(Disabled) else None
  {}

  lemma OtherSignals(c: Config, env: Environment, ev: Event)
    requires IsTold(ev)
    ensures SignalFor(c, env, ev) == Some(SigDisableDefrost) <==> ev == DisableChanged(true)
    ensures SignalFor(c, env, ev).Some? ==>
              !SignalFor(c, env, ev).value.SigEvaporatorTemperatureChanged? &&
              !SignalFor(c, env, ev).value.SigHeaterMaxOnTimeReached?
  {
    hide PrechillConditionsAreMet;
  }

  lemma ToldHasRead(c: Config, m: Machine, ev: Event)
    requires IsTold(ev) && Partitioned(c, m)
    ensures var m1 := ToldMachine(c, m, ev); HasRead(c, m, ev, m1) && Partitioned(c, m1) && m1.timer == m.timer
  {
    EnvironmentIsRead(m.env, ev);
    UntouchedOutside(c, m, ev);
    assert EnvironmentAfter(m.env, ev).role == m.env.role;
    hide IsRead, EnvironmentAfter, Touched;
  }

  lemma ToldIsARow(c: Config, m: Machine, ev: Event)
    requires Regular(c, m) && IsTold(ev)
    ensures IsRow(c, m, ev, Told(c, m, ev))
  {
    hide IsRow, Aim, HasRead, Told, Go, ToldMachine;
    RegularParts(c, m);
    hide Regular, Partitioned;
    ToldHasRead(c, m, ev);
    if m.leaf == HeaterOn { ToldInHeaterOnGoes(c, m, ev); } else { ToldGoes(c, m, ev); }
    AimedIsARow(c, m, ev, ToldMachine(c, m, ev), Told(c, m, ev));
  }

  // ---------------------------------------------------------------- the other events outside HeaterOn

  /** The signal that brings the temperature of a primary evaporator, and what the table aims at for it. */
  lemma PrimarySignalAims(c: Config, m: Machine, t: int)
    requires m.leaf != HeaterOn
    ensures Send(c, m, SigPrimaryEvaporatorTemperatureChanged(t)) ==
            if m.leaf == Prechill && t <= c.data.prechillPrimaryExit then Go(c, m, HeaterOnEntry)
            else if m.leaf == PostDwell && IsColdAgain(c.data, m.rec.defrostType, t) then Go(c, m, Idle)
            else m
  {
    SendIsPlain(c, m, SigPrimaryEvaporatorTemperatureChanged(t));
    ColdAgrees(c, m.rec, t);
    hide Send, Go, TemperatureEndsPostDwell, IsColdAgain;
  }

  lemma TemperatureGoes(c: Config, m: Machine, e: Evaporator, t: int)
    requires m.leaf != HeaterOn && Partitioned(c, m)
    ensures var ev := EvapTemperatureChanged(e, t);
            var m1 := m.(env := EnvironmentAfter(m.env, ev));
            var aim := Aim(c, m, ev, m1.env);
            EvapTemperature(c, m, e, t) == if aim.Some? then Go(c, m1, aim.value) else m1
  {
    hide Send, Go, IsColdAgain, IsPrimary, MayChill;
    var ev := EvapTemperatureChanged(e, t);
    var m1 := m.(env := EnvironmentAfter(m.env, ev));
    SendIsPlain(c, m1, SigEvaporatorTemperatureChanged(e));
    PrimarySignalAims(c, m1, t);
    GroupsByRole(c, m1);
    hide PrimaryFor, SecondaryFor;
  }

  lemma TemperatureIsARow(c: Config, m: Machine, e: Evaporator, t: int)
    requires Regular(c, m) && m.leaf != HeaterOn
    ensures IsRow(c, m, EvapTemperatureChanged(e, t), EvapTemperature(c, m, e, t))
  {
    var ev := EvapTemperatureChanged(e, t);
    var m1 := m.(env := EnvironmentAfter(m.env, ev));
    hide IsRow, Aim, EvapTemperature, Go, Touched, IsRead;
    RegularParts(c, m);
    EnvironmentIsRead(m.env, ev);
    UntouchedOutside(c, m, ev);
    TemperatureGoes(c, m, e, t);
    hide Regular;
    AimedIsARow(c, m, ev, m1, EvapTemperature(c, m, e, t));
  }

  lemma RoleGoes(c: Config, m: Machine, role: Role)
    requires m.leaf != HeaterOn && Partitioned(c, m)
    ensures var m1 := GiveRole(c, m, role);
            var aim := Aim(c, m, RoleChanged(role), m1.env);
            TakeRole(c, m, role) == if aim.Some? then Go(c, m1, aim.value) else m1
  {
    hide Send, Go, IsColdAgain, IsPrimary, MayChill;
    var m1 := GiveRole(c, m, role);
    GivingRoleDivides(c, m, role);
    PrimarySignalAims(c, m1, m1.env.evapTemperature.convertible);
    GroupsByRole(c, m1);
    hide PrimaryFor, SecondaryFor;
  }

  lemma GivingRoleDivides(c: Config, m: Machine, role: Role)
    requires Partitioned(c, m)
    ensures var m1 := GiveRole(c, m, role);
            Partitioned(c, m1) && m1.env == m.env.(role := role) && m1.rec == m.rec && m1.leaf == m.leaf &&
            m1.timer == m.timer && m1.hist.decisions == m.hist.decisions && m1.skipForTest == m.skipForTest &&
            m1.skipForDisable == m.skipForDisable && m1.hist.visits == m.hist.visits && m1.heat == m.heat
  {}

  lemma RoleIsARow(c: Config, m: Machine, role: Role)
    requires Regular(c, m) && m.leaf != HeaterOn
    ensures IsRow(c, m, RoleChanged(role), TakeRole(c, m, role))
  {
    hide IsRow, Aim, TakeRole, Go, Touched, IsRead, GiveRole;
    RegularParts(c, m);
    RoleIsRead(m.env, role);
    UntouchedOutside(c, m, RoleChanged(role));
    GivingRoleDivides(c, m, role);
    RoleGoes(c, m, role);
    hide Regular, Partitioned;
    AimedIsARow(c, m, RoleChanged(role), GiveRole(c, m, role), TakeRole(c, m, role));
  }

  lemma ExpiryGoes(c: Config, m: Machine)
    requires Timed(m.leaf) && Partitioned(c, m)
    ensures var m1 := m.(timer := None);
            Aim(c, m, DefrostTimerExpires, m.env).Some? &&
            Send(c, m1, SigDefrostTimerExpired) == Go(c, m1, Aim(c, m, DefrostTimerExpires, m.env).value)
  {
    var m1 := m.(timer := None);
    if m.leaf == Dwell {
      SlotsColdAgree(c, m1);
    } else {
      TimerMoves(c, m1);
    }
    hide Go, SlotEndsPostDwell, IsColdAgain, IsPrimary, PrimaryFor, SecondaryFor;
  }

  lemma ExpiryIsARow(c: Config, m: Machine)
    requires Regular(c, m) && m.timer == Some(0)
    ensures IsRow(c, m, DefrostTimerExpires, Send(c, m.(timer := None), SigDefrostTimerExpired))
  {
    hide IsRow, Aim, Send, Go, Touched, IsRead;
    RegularParts(c, m);
    EnvironmentIsRead(m.env, DefrostTimerExpires);
    UntouchedOutside(c, m, DefrostTimerExpires);
    ExpiryGoes(c, m);
    hide Regular, PrimaryFor, SecondaryFor;
    AimedIsARow(c, m, DefrostTimerExpires, m.(timer := None), Send(c, m.(timer := None), SigDefrostTimerExpired));
  }

  lemma ElapseIsARow(c: Config, m: Machine, ms: nat)
    requires Regular(c, m)
    ensures IsRow(c, m, Elapse(ms), Elapsed(m, ms))
  {
    EnvironmentIsRead(m.env, Elapse(ms));
    UntouchedOutside(c, m, Elapse(ms));
    assert Aim(c, m, Elapse(ms), m.env).None?;
    hide IsRead, Touched, IsRow, Aim;
    StayingIsARow(c, m, Elapse(ms), Elapsed(m, ms));
  }

  lemma BackgroundIsARow(c: Config, m: Machine, ev: Event)
    requires Regular(c, m) && ev.Background?
    ensures IsRow(c, m, ev, Step(c, m, ev))
  {
    hide IsRow, Aim, HasRead, Step, Regular;
    RegularParts(c, m);
    BackgroundHasRead(c, m, ev);
    StayingIsARow(c, m, ev, Step(c, m, ev));
  }

  lemma BackgroundHasRead(c: Config, m: Machine, ev: Event)
    requires ev.Background?
    ensures HasRead(c, m, ev, Step(c, m, ev)) && Aim(c, m, ev, Step(c, m, ev).env).None?
  {
    hide IsRead, Touched, Merge;
    BackgroundIsRead(m.env, ev);
    UntouchedOutside(c, m, ev);
  }

  lemma MinuteOutsideIsARow(c: Config, m: Machine, e: Evaporator)
    requires Regular(c, m) && m.leaf != HeaterOn
    ensures IsRow(c, m, HeaterMinute(e), Minute(c, m, e))
  {
    MinuteOutsideHeaterOn(c, m, e);
    EnvironmentIsRead(m.env, HeaterMinute(e));
    UntouchedOutside(c, m, HeaterMinute(e));
    assert Aim(c, m, HeaterMinute(e), m.env).None?;
    hide IsRead, Touched, IsRow, Aim, Minute;
    StayingIsARow(c, m, HeaterMinute(e), Counted(m, e));
  }

  // ---------------------------------------------------------------- tests

  /** A test that the machine does not answer. */
  lemma IgnoredTestIsARow(c: Config, m: Machine, request: TestRequest)
    requires Regular(c, m) && TestAim(m.leaf, request).None?
    ensures IsRow(c, m, TestRequested(request), m)
  {
    var ev := TestRequested(request);
    RegularParts(c, m);
    EnvironmentIsRead(m.env, ev);
    UntouchedOutside(c, m, ev);
    hide IsRead, Touched, Regular, IsRow;
    StayingIsARow(c, m, ev, m);
  }

  lemma ExitIsARow(c: Config, m: Machine)
    requires Regular(c, m)
    ensures IsRow(c, m, TestRequested(RequestExitHeaterOn), Test(c, m, RequestExitHeaterOn))
  {
    hide IsRead, Test, Go, Regular, Gone, IsRow, Partitioned;
    ExitRequestIsSent(c, m);
    RegularParts(c, m);
    EnvironmentIsRead(m.env, TestRequested(RequestExitHeaterOn));
    var m1 := m.(rec := m.rec.(request := RequestExitHeaterOn));
    if m.leaf == HeaterOnEntry || m.leaf == HeaterOn {
      PartitionFrame(c, m, m1);
      GoesExactly(c, m1, Dwell);
      LeavingByTestIsARow(c, m, RequestExitHeaterOn, m1, Go(c, m1, Dwell), Dwell);
    } else {
      assert ClearRequest(m1) == m;
      IgnoredTestIsARow(c, m, RequestExitHeaterOn);
    }
  }

  lemma TestRecords(c: Config, m: Machine, request: TestRequest, l: Leaf)
    requires m.rec.request == RequestNone && TestAim(m.leaf, request) == Some(l)
    ensures var ev := TestRequested(request);
            var decides := Decides(m, ev, Some(l));
            var t := if decides then NextType(c, m.rec, m.env) else m.rec.defrostType;
            var passes := LeavesIdle(m, ev, Some(l));
            var prepares := l == PrechillPrep && !KnownFault(m.env);
            RecordsAfter(c, m, ev, m.env) ==
            (if m.leaf == HeaterOn then LeftRecords(c, m) else m.rec).(
              dontSkipPrechill := m.rec.dontSkipPrechill && !prepares,
              useAhamTime := m.rec.useAhamTime && !prepares,
              valveHomingRequested := m.rec.valveHomingRequested || l == Dwell,
              tooWarmOnPowerUp := m.rec.tooWarmOnPowerUp && !passes, eepromCleared := m.rec.eepromCleared && !passes,
              defrostType := t,
              secondaryOnlyBeforeFull := if decides then NextN(c, m.rec, m.env) else m.rec.secondaryOnlyBeforeFull,
              nextTypeOverride := if decides then DontCare else m.rec.nextTypeOverride,
              secondaryOnlyCount := if !decides then m.rec.secondaryOnlyCount
                                    else if t == SecondaryOnly then (m.rec.secondaryOnlyCount + 1) % 0x100 else 0)
  {
    hide KnownFault, NextN, NextType, FaultAfter, AbnormalAfter, AbnormalDefrostsAfter, EndsByTime, IsHeated, Fitted;
    hide Decides, LeavesIdle, TestAim;
    UntouchedByTest(c, m, request);
    if m.leaf != HeaterOn {
      NoDefrostCounted(c, m, TestRequested(request), m.env, FreshFood);
      NoDefrostCounted(c, m, TestRequested(request), m.env, Freezer);
      NoDefrostCounted(c, m, TestRequested(request), m.env, Convertible);
      hide DefrostsAfter;
    }
  }

  /** A test that leads directly to Dwell or to Idle. */
  lemma LeavingByTestIsARow(c: Config, m: Machine, request: TestRequest, m1: Machine, r: Machine, l: Leaf)
    requires AtRest(m) && (if request == RequestExitHeaterOn then l == Dwell else request == RequestIdle && l == Idle)
    requires m.leaf != Disabled && (l == Dwell ==> m.leaf == HeaterOnEntry || m.leaf == HeaterOn)
    requires m1 == m.(rec := m.rec.(request := request), skipForTest := m.skipForTest || (l == Idle && Waiting(m.leaf)))
    requires Gone(c, m1, r, l) && IsRead(m.env, TestRequested(request), m.env)
    ensures IsRow(c, m, TestRequested(request), r)
  {
    hide IsRead, KnownFault, NextN, NextType, RecordsAfter, IsHeated, Fitted, IsRow, Gone;
    TestRecords(c, m, request, l);
    GoneIsARow(c, m, TestRequested(request), m1, l, r);
  }

  lemma UntouchedByTest(c: Config, m: Machine, request: TestRequest)
    ensures forall e: Evaporator ::
              !EndsByTime(c, m, TestRequested(request), e) &&
              FaultAfter(c, m, TestRequested(request), e) == m.rec.maxTimeFault.At(e) &&
              AbnormalAfter(c, m, TestRequested(request), e) == m.rec.wasAbnormal.At(e)
    ensures forall e: Evaporator ::
              AbnormalDefrostsAfter(c, m, TestRequested(request), e) == m.rec.abnormalDefrosts.At(e)
  {
    hide FaultAfter, AbnormalAfter, AbnormalDefrostsAfter, EndsByTime;
    forall e: Evaporator
      ensures !EndsByTime(c, m, TestRequested(request), e)
      ensures FaultAfter(c, m, TestRequested(request), e) == m.rec.maxTimeFault.At(e)
      ensures AbnormalAfter(c, m, TestRequested(request), e) == m.rec.wasAbnormal.At(e)
      ensures AbnormalDefrostsAfter(c, m, TestRequested(request), e) == m.rec.abnormalDefrosts.At(e)
    {
      NothingEndsOutside(c, m, TestRequested(request), e);
      UntouchedEvaporator(c, m, TestRequested(request), e);
      NoAbnormalCounted(c, m, TestRequested(request), e);
    }
  }

  /** A test for a state that lies beyond Idle: Idle is entered and left at once. */
  lemma TestPassesIdle(c: Config, m: Machine, l: Leaf)
    requires m.leaf != Disabled && Partitioned(c, m) && (Timed(m.leaf) || m.timer.None?)
    requires (m.rec.request == RequestPrechill && l == PrechillPrep) ||
             (m.rec.request == RequestDefrost && l == HeaterOnEntry)
    ensures var idle := PassedIdle(c, m);
            Go(c, m, Idle) == Go(c, idle, l) && Gone(c, idle, Go(c, idle, l), l) &&
            idle.leaf == Idle && idle.env == m.env && idle.rec == LeftRecords(c, m) &&
            idle.skipForTest == (m.skipForTest && m.leaf != Idle) && idle.skipForDisable == m.skipForDisable &&
            idle.hist.decisions == LeftDecisions(c, m)
  {
    hide Leave, LeftRecords, Partitioned, Save;
    LeavesExactly(c, m);
    var left := Leave(c, m);
    assert Partitioned(c, left) by { PartitionFrame(c, m, left); }
    SavesOnly(Come(left, Idle), Idle);
    var idle := PassedIdle(c, m);
    PartitionFrame(c, left, idle);
    assert LeftRecords(c, m).request == m.rec.request by { LeavingKeepsRequest(c, m); }
    IdlePassing(c, left);
    hide Arrive, Go;
    GoesExactly(c, idle, l);
  }

  function PassedIdle(c: Config, m: Machine): Machine { Save(Come(Leave(c, m), Idle), Idle) }

  lemma IdlePassing(c: Config, m: Machine)
    requires m.rec.request == RequestPrechill || m.rec.request == RequestDefrost
    ensures Arrive(c, m, Idle) ==
            Go(c, Save(Come(m, Idle), Idle), if m.rec.request == RequestPrechill then PrechillPrep else HeaterOnEntry)
  {
    SavesOnly(Come(m, Idle), Idle);
    hide Save, Leave, LeaveIdle;
  }

  /** The next type depends on little of the records. */
  lemma TypeFrame(c: Config, r: Records, r1: Records, env: Environment)
    requires r1.nextTypeOverride == r.nextTypeOverride && r1.secondaryOnlyCount == r.secondaryOnlyCount
    requires r1.wasAbnormal == r.wasAbnormal
    ensures NextN(c, r1, env) == NextN(c, r, env) && NextType(c, r1, env) == NextType(c, r, env)
  {
    hide IsPrimary, Sabbath;
  }

  lemma PassingTestIsARow(c: Config, m: Machine, request: TestRequest, m1: Machine, r: Machine, l: Leaf)
    requires AtRest(m) && m.leaf != Disabled && Partitioned(c, m1) && (Timed(m1.leaf) || m1.timer.None?)
    requires (request == RequestPrechill && l == PrechillPrep) || (request == RequestDefrost && l == HeaterOnEntry)
    requires m1 == m.(rec := m.rec.(request := request), skipForTest := m.skipForTest || Waiting(m.leaf))
    requires r == Go(c, m1, Idle) && IsRead(m.env, TestRequested(request), m.env)
    ensures IsRow(c, m, TestRequested(request), r)
  {
    hide IsRead, KnownFault, NextN, NextType, RecordsAfter, IsHeated, Fitted, Settles, Go, Partitioned, PassedIdle;
    TestPassesIdle(c, m1, l);
    var idle := PassedIdle(c, m1);
    TestRecords(c, m, request, l);
    TypeFrame(c, m.rec, idle.rec, m.env);
    PassedIsARow(c, m, request, m1, idle, r, l);
  }

  /** The records of the Idle that a test passes, left again. */
  lemma PassedRecords(c: Config, m: Machine, request: TestRequest, m1: Machine, idle: Machine)
    requires AtRest(m) && m.leaf != Disabled
    requires m1 == m.(rec := m.rec.(request := request), skipForTest := m.skipForTest || Waiting(m.leaf))
    requires idle.leaf == Idle && idle.env == m.env && idle.rec == LeftRecords(c, m1)
    requires idle.skipForTest == (m1.skipForTest && m.leaf != Idle) && idle.skipForDisable == m1.skipForDisable
    requires NextN(c, idle.rec, m.env) == NextN(c, m.rec, m.env)
    requires NextType(c, idle.rec, m.env) == NextType(c, m.rec, m.env)
    ensures var t := if m.leaf != PostDwell then NextType(c, m.rec, m.env) else m.rec.defrostType;
            DecidesOnLeaving(idle) == (m.leaf != PostDwell) && !DecidesOnLeaving(m1) &&
            LeftRecords(c, idle) ==
            (if m.leaf == HeaterOn then LeftRecords(c, m) else m.rec).(
              request := request, tooWarmOnPowerUp := false, eepromCleared := false, defrostType := t,
              secondaryOnlyBeforeFull := if m.leaf != PostDwell then NextN(c, m.rec, m.env)
                                         else m.rec.secondaryOnlyBeforeFull,
              nextTypeOverride := if m.leaf != PostDwell then DontCare else m.rec.nextTypeOverride,
              secondaryOnlyCount := if m.leaf == PostDwell then m.rec.secondaryOnlyCount
                                    else if t == SecondaryOnly then (m.rec.secondaryOnlyCount + 1) % 0x100 else 0)
  {
    hide NextN, NextType, IsHeated, Fitted;
  }

  lemma PassedRowRecords(c: Config, m: Machine, request: TestRequest, left: Records, l: Leaf)
    requires m.rec.request == RequestNone && m.leaf != Disabled
    requires (request == RequestPrechill && l == PrechillPrep) || (request == RequestDefrost && l == HeaterOnEntry)
    requires var t := if m.leaf != PostDwell then NextType(c, m.rec, m.env) else m.rec.defrostType;
             left ==
             (if m.leaf == HeaterOn then LeftRecords(c, m) else m.rec).(
               request := request, tooWarmOnPowerUp := false, eepromCleared := false, defrostType := t,
               secondaryOnlyBeforeFull := if m.leaf != PostDwell then NextN(c, m.rec, m.env)
                                          else m.rec.secondaryOnlyBeforeFull,
               nextTypeOverride := if m.leaf != PostDwell then DontCare else m.rec.nextTypeOverride,
               secondaryOnlyCount := if m.leaf == PostDwell then m.rec.secondaryOnlyCount
                                     else if t == SecondaryOnly then (m.rec.secondaryOnlyCount + 1) % 0x100 else 0)
    ensures ArrivedRecords(left, m.env, l) == RecordsAfter(c, m, TestRequested(request), m.env)
  {
    hide KnownFault, NextN, NextType, RecordsAfter, CountedDefrosts, Fitted;
    TestRecords(c, m, request, l);
  }

  lemma PassedIsARow(c: Config, m: Machine, request: TestRequest, m1: Machine, idle: Machine, r: Machine, l: Leaf)
    requires AtRest(m) && m.leaf != Disabled && IsRead(m.env, TestRequested(request), m.env)
    requires (request == RequestPrechill && l == PrechillPrep) || (request == RequestDefrost && l == HeaterOnEntry)
    requires m1 == m.(rec := m.rec.(request := request), skipForTest := m.skipForTest || Waiting(m.leaf))
    requires idle.leaf == Idle && idle.env == m.env && idle.rec == LeftRecords(c, m1)
    requires idle.skipForTest == (m1.skipForTest && m.leaf != Idle) && idle.skipForDisable == m1.skipForDisable
    requires idle.hist.decisions == LeftDecisions(c, m1) && Gone(c, idle, r, l)
    requires NextN(c, idle.rec, m.env) == NextN(c, m.rec, m.env)
    requires NextType(c, idle.rec, m.env) == NextType(c, m.rec, m.env)
    ensures IsRow(c, m, TestRequested(request), r)
  {
    hide IsRead, NextN, NextType, RecordsAfter, LeftRecords, ArrivedRecords, IsRow, Gone;
    PassedRecords(c, m, request, m1, idle);
    PassedRowRecords(c, m, request, LeftRecords(c, idle), l);
    GoneIsARow(c, m, TestRequested(request), idle, l, r);
  }

  lemma StateTestIsARow(c: Config, m: Machine, request: TestRequest)
    requires Regular(c, m) && IsStateTest(TestRequested(request))
    ensures IsRow(c, m, TestRequested(request), Test(c, m, request))
  {
    hide IsRead, Test, Go, Regular, Gone, IsRow, Partitioned;
    StateTestIsSent(c, m, request);
    RegularParts(c, m);
    EnvironmentIsRead(m.env, TestRequested(request));
    var m0 := m.(rec := m.rec.(request := request));
    var m1 := if Waiting(m.leaf) then m0.(skipForTest := true) else m0;
    if m.leaf == Disabled {
      assert ClearRequest(m0) == m;
      IgnoredTestIsARow(c, m, request);
    } else {
      PartitionFrame(c, m, m1);
      if request == RequestIdle {
        GoesExactly(c, m1, Idle);
        LeavingByTestIsARow(c, m, request, m1, Go(c, m1, Idle), Idle);
      } else {
        var l := if request == RequestPrechill then PrechillPrep else HeaterOnEntry;
        PassingTestIsARow(c, m, request, m1, Go(c, m1, Idle), l);
      }
    }
  }

  // ---------------------------------------------------------------- events in HeaterOn

  lemma RoleInHeaterOnIsARow(c: Config, m: Machine, role: Role)
    requires Regular(c, m) && m.leaf == HeaterOn
    ensures IsRow(c, m, RoleChanged(role), TakeRole(c, m, role))
  {
    assert Step(c, m, RoleChanged(role)) == TakeRole(c, m, role);
    RoleChangeInHeaterOn(c, m, role);
    RegularParts(c, m);
    RoleIsRead(m.env, role);
    UntouchedOutside(c, m, RoleChanged(role));
    GivingRoleDivides(c, m, role);
    assert Aim(c, m, RoleChanged(role), m.env.(role := role)).None?;
    hide IsRow, Aim, TakeRole, Step, Touched, IsRead, GiveRole, Regular, Partitioned;
    StayingIsARow(c, m, RoleChanged(role), GiveRole(c, m, role));
  }

  lemma TemperatureTouches(c: Config, m: Machine, e: Evaporator, t: int)
    requires m.leaf == HeaterOn
    ensures var ev := EvapTemperatureChanged(e, t);
            var normal := m.heat.At(e).minutes < AbnormalMinutes(c, m.env.role, e);
            Touched(c, m, ev) ==
            if !EndsHeater(c, m, ev) then m.rec
            else m.rec.(wasAbnormal := if normal then m.rec.wasAbnormal.With(e, false) else m.rec.wasAbnormal,
                        maxTimeFault := m.rec.maxTimeFault.With(e, false))
  {
    hide EndsHeater, FaultAfter, AbnormalAfter, AbnormalDefrostsAfter, EndsByTime, AbnormalMinutes;
    var ev := EvapTemperatureChanged(e, t);
    TouchedByTemperature(c, m, e, t, FreshFood);
    TouchedByTemperature(c, m, e, t, Freezer);
    TouchedByTemperature(c, m, e, t, Convertible);
    forall o: Evaporator ensures !EndsByTime(c, m, ev, o) { TouchedByTemperature(c, m, e, t, o); }
  }

  lemma ThresholdsAgree(c: Config, role: Role, e: Evaporator)
    ensures AbnormalMinutes(c, role, e) == AbnormalThreshold(c.data, role, e)
  {}

  lemma TouchedByTemperature(c: Config, m: Machine, e: Evaporator, t: int, o: Evaporator)
    requires m.leaf == HeaterOn
    ensures var ev := EvapTemperatureChanged(e, t);
            var ends := o == e && EndsHeater(c, m, ev);
            !EndsByTime(c, m, ev, o) &&
            FaultAfter(c, m, ev, o) == (m.rec.maxTimeFault.At(o) && !ends) &&
            AbnormalAfter(c, m, ev, o) ==
              (m.rec.wasAbnormal.At(o) && !(ends && m.heat.At(e).minutes < AbnormalMinutes(c, m.env.role, e))) &&
            AbnormalDefrostsAfter(c, m, ev, o) == m.rec.abnormalDefrosts.At(o)
  {
    ThresholdsAgree(c, m.env.role, e);
    NoAbnormalCounted(c, m, EvapTemperatureChanged(e, t), o);
    hide EndsHeater, AbnormalThreshold, AbnormalMinutes, AbnormalDefrostsAfter;
  }

  /** Another heater is on exactly when not all are off once that of e is. */
  lemma AnotherKeepsHeaterOn(c: Config, m: Machine, e: Evaporator, r: Records)
    requires Partitioned(c, m)
    ensures AllHeatersAreOff(VoteHeater(m, e, false, true).(rec := r)) <==> !AnotherIsOn(c, m, e)
  {
    var m1 := VoteHeater(m, e, false, true).(rec := r);
    hide VoteCell, Fitted, AllHeatersAreOff;
    PartitionFrame(c, m, m1);
    WarmAgree(c, m1);
    VotedCell(m.heat.At(e), Vote(false, true), m.recorded);
    forall o: Evaporator ensures On(m1, o) <==> o != e && On(m, o) {
      match o case FreshFood => case Freezer => case Convertible =>
    }
    hide Partitioned, VoteHeater, On;
  }

  lemma VotingKeepsMinutes(m: Machine, e: Evaporator, v: Vote<bool>)
    requires m.recorded == HeaterOn
    ensures VoteHeater(m, e, v.value, v.care).heat.At(e).minutes == m.heat.At(e).minutes
  {
    match e case FreshFood => case Freezer => case Convertible =>
  }

  /** What a temperature does in HeaterOn: the heater goes off, and HeaterOn is left with the last one. */
  lemma TemperatureEffect(c: Config, m: Machine, e: Evaporator, t: int)
    requires m.leaf == HeaterOn && m.recorded == HeaterOn && m.env.evapValid.At(e)
    ensures var ev := EvapTemperatureChanged(e, t);
            var m0 := m.(env := EnvironmentAfter(m.env, ev));
            HeaterTemperature(c, m0, e) ==
            if EndsHeater(c, m, ev)
            then DwellIfAllOff(c, VoteHeater(m0, e, false, true).(rec := Touched(c, m, ev)))
            else m0
  {
    var ev := EvapTemperatureChanged(e, t);
    var m0 := m.(env := EnvironmentAfter(m.env, ev));
    OneIsSet(m.env.evapTemperature, e, t, e);
    TemperatureTouches(c, m, e, t);
    VotingKeepsMinutes(m0, e, Vote(false, true));
    hide Touched, VoteAt, AbnormalMinutes, DwellIfAllOff;
  }

  lemma PrimaryIsIgnored(c: Config, m: Machine, t: int)
    requires m.leaf == HeaterOn || m.leaf == Dwell
    ensures Send(c, m, SigPrimaryEvaporatorTemperatureChanged(t)) == m
  {
    if m.leaf == HeaterOn {
      HeaterOnSend(c, m, SigPrimaryEvaporatorTemperatureChanged(t));
    } else {
      SendIsPlain(c, m, SigPrimaryEvaporatorTemperatureChanged(t));
    }
  }

  lemma GoingToDwell(c: Config, m: Machine)
    ensures Go(c, m, Dwell).leaf == Dwell
  {
    hide Leave, VoteAll, Save;
    SavesOnly(Come(Leave(c, m), Dwell), Dwell);
  }

  lemma TemperatureInHeaterOnGoes(c: Config, m: Machine, e: Evaporator, t: int)
    requires Partitioned(c, m) && m.leaf == HeaterOn && m.recorded == HeaterOn
    ensures var ev := EvapTemperatureChanged(e, t);
            var m0 := m.(env := EnvironmentAfter(m.env, ev));
            var aim := Aim(c, m, ev, m0.env);
            var m1 := if EndsHeater(c, m, ev) then VoteHeater(m0, e, false, true).(rec := Touched(c, m, ev)) else m0;
            EvapTemperature(c, m, e, t) == if aim.Some? then Go(c, m1, aim.value) else m1
  {
    var ev := EvapTemperatureChanged(e, t);
    var m0 := m.(env := EnvironmentAfter(m.env, ev));
    assert m0.env.role == m.env.role && m0.env.evapValid == m.env.evapValid;
    hide Touched, Send, Go, AllHeatersAreOff, AnotherIsOn, VoteHeater, HeaterTemperature, Partitioned, EnvironmentAfter;
    assert Told(c, m, ev) == if m.env.evapValid.At(e) then HeaterTemperature(c, m0, e) else m0 by {
      HeaterOnSend(c, m0, SigEvaporatorTemperatureChanged(e));
    }
    if m.env.evapValid.At(e) { TemperatureEffect(c, m, e, t); }
    assert Partitioned(c, m0) by { PartitionOfRole(c, m, m0); }
    AnotherKeepsHeaterOn(c, m0, e, Touched(c, m, ev));
    SameOthers(c, m, m0, e);
    GoingToDwell(c, VoteHeater(m0, e, false, true).(rec := Touched(c, m, ev)));
    VotingKeepsLeaf(m0, e);
    hide Told, EndsHeater;
    PrimaryIsIgnored(c, Told(c, m, ev), t);
  }

  lemma PartitionOfRole(c: Config, m: Machine, r: Machine)
    requires Partitioned(c, m) && r.env.role == m.env.role && r.primary == m.primary && r.secondary == m.secondary
    ensures Partitioned(c, r)
  {}

  lemma SameOthers(c: Config, m: Machine, r: Machine, e: Evaporator)
    requires r.heat == m.heat
    ensures AnotherIsOn(c, r, e) == AnotherIsOn(c, m, e)
  {
    hide Fitted;
    forall o: Evaporator ensures On(r, o) == On(m, o) {}
  }

  lemma VotingKeepsLeaf(m: Machine, e: Evaporator)
    ensures var r := VoteHeater(m, e, false, true); r == m.(heat := r.heat)
  {}

  lemma TemperatureInHeaterOnIsARow(c: Config, m: Machine, e: Evaporator, t: int)
    requires Regular(c, m) && m.leaf == HeaterOn
    ensures IsRow(c, m, EvapTemperatureChanged(e, t), EvapTemperature(c, m, e, t))
  {
    var ev := EvapTemperatureChanged(e, t);
    var m0 := m.(env := EnvironmentAfter(m.env, ev));
    assert m0.env.role == m.env.role && m.recorded == HeaterOn;
    RegularParts(c, m);
    EnvironmentIsRead(m.env, ev);
    TemperatureTouches(c, m, e, t);
    TemperatureInHeaterOnGoes(c, m, e, t);
    VotingKeepsLeaf(m0, e);
    hide IsRow, Aim, EvapTemperature, Go, Touched, IsRead, EndsHeater, VoteHeater, EnvironmentAfter, Regular;
    hide PrimaryFor, SecondaryFor;
    var m1 := if EndsHeater(c, m, ev) then VoteHeater(m0, e, false, true).(rec := Touched(c, m, ev)) else m0;
    AimedIsARow(c, m, ev, m1, EvapTemperature(c, m, e, t));
  }

  lemma MinuteTouches(c: Config, m: Machine, e: Evaporator)
    requires m.leaf == HeaterOn
    ensures var ev := HeaterMinute(e);
            var abnormal := PublishedMinute(m, e) == AbnormalMinutes(c, m.env.role, e);
            Touched(c, m, ev) ==
            if EndsHeater(c, m, ev) && m.env.evapValid.At(e) then
              m.rec.(maxTimeFault := m.rec.maxTimeFault.With(e, true))
            else if EndsHeater(c, m, ev) then m.rec.(invalidThermistorDuringDefrost := true)
            else if abnormal then
              m.rec.(wasAbnormal := m.rec.wasAbnormal.With(e, true),
                     abnormalDefrosts := m.rec.abnormalDefrosts.With(e, (m.rec.abnormalDefrosts.At(e) + 1) % 0x1_0000))
            else m.rec
  {
    hide EndsHeater, FaultAfter, AbnormalAfter, AbnormalDefrostsAfter, EndsByTime, AbnormalMinutes, PublishedMinute;
    var ev := HeaterMinute(e);
    TouchedByMinute(c, m, e, FreshFood);
    TouchedByMinute(c, m, e, Freezer);
    TouchedByMinute(c, m, e, Convertible);
    match e case FreshFood => case Freezer => case Convertible =>
    forall o: Evaporator ensures EndsByTime(c, m, ev, o) <==> o == e && EndsHeater(c, m, ev) {
      TouchedByMinute(c, m, e, o);
    }
  }

  lemma TouchedByMinute(c: Config, m: Machine, e: Evaporator, o: Evaporator)
    requires m.leaf == HeaterOn
    ensures var ev := HeaterMinute(e);
            var abnormal := o == e && !EndsHeater(c, m, ev) &&
                            PublishedMinute(m, e) == AbnormalMinutes(c, m.env.role, e);
            (EndsByTime(c, m, ev, o) <==> o == e && EndsHeater(c, m, ev)) &&
            FaultAfter(c, m, ev, o) ==
              (m.rec.maxTimeFault.At(o) || (o == e && EndsHeater(c, m, ev) && m.env.evapValid.At(e))) &&
            AbnormalAfter(c, m, ev, o) == (m.rec.wasAbnormal.At(o) || abnormal) &&
            AbnormalDefrostsAfter(c, m, ev, o) ==
              if abnormal then (m.rec.abnormalDefrosts.At(o) + 1) % 0x1_0000 else m.rec.abnormalDefrosts.At(o)
  {
    ThresholdsAgree(c, m.env.role, e);
    var ev := HeaterMinute(e);
    if !BecomesAbnormal(c, m, ev, o) { NoAbnormalCounted(c, m, ev, o); }
    hide EndsHeater, AbnormalThreshold, AbnormalMinutes, PublishedMinute;
  }

  function HistoryOfMinute(c: Config, m: Machine, e: Evaporator): History {
    if !EndsHeater(c, m, HeaterMinute(e)) && PublishedMinute(m, e) == AbnormalMinutes(c, m.env.role, e)
    then m.hist.(abnormalFired := m.hist.abnormalFired.With(e, m.hist.abnormalFired.At(e) + 1)) else m.hist
  }

  lemma MinuteInHeaterOnGoes(c: Config, m: Machine, e: Evaporator)
    requires Partitioned(c, m) && m.leaf == HeaterOn && m.recorded == HeaterOn
    ensures var ev := HeaterMinute(e);
            var m0 := Counted(m, e);
            var aim := Aim(c, m, ev, m.env);
            var m1 := (if EndsHeater(c, m, ev) then VoteHeater(m0, e, false, true) else m0).(rec := Touched(c, m, ev));
            var r := Minute(c, m, e);
            if aim.Some? then r == Go(c, m1, aim.value) else r == m1.(hist := HistoryOfMinute(c, m, e))
  {
    var ev := HeaterMinute(e);
    var m0 := Counted(m, e);
    hide Touched, Go, AllHeatersAreOff, AnotherIsOn, VoteHeater, Partitioned, AbnormalMinutes;
    MinuteTouches(c, m, e);
    CountedCell(m, e, e);
    MinuteInHeaterOn(c, m, e);
    hide Minute;
    assert Partitioned(c, m0) by { PartitionOfRole(c, m, m0); }
    AnotherKeepsHeaterOn(c, m0, e, Touched(c, m, ev));
    CountingKeepsOthers(c, m, e);
    VotingKeepsLeaf(m0, e);
  }

  lemma CountingKeepsOthers(c: Config, m: Machine, e: Evaporator)
    ensures AnotherIsOn(c, Counted(m, e), e) == AnotherIsOn(c, m, e)
  {
    hide Fitted;
    forall o: Evaporator ensures On(Counted(m, e), o) == On(m, o) { CountedCell(m, e, o); }
  }

  lemma MinuteInHeaterOnIsARow(c: Config, m: Machine, e: Evaporator)
    requires Regular(c, m) && m.leaf == HeaterOn
    ensures IsRow(c, m, HeaterMinute(e), Minute(c, m, e))
  {
    var ev := HeaterMinute(e);
    var m0 := Counted(m, e);
    assert m.recorded == HeaterOn;
    RegularParts(c, m);
    EnvironmentIsRead(m.env, ev);
    MinuteInHeaterOnGoes(c, m, e);
    VotingKeepsLeaf(m0, e);
    hide IsRow, Aim, Minute, Go, Touched, IsRead, EndsHeater, VoteHeater, Regular, PrimaryFor, SecondaryFor;
    var m1 := (if EndsHeater(c, m, ev) then VoteHeater(m0, e, false, true) else m0).(rec := Touched(c, m, ev));
    if Aim(c, m, ev, m.env).Some? {
      AimedIsARow(c, m, ev, m1, Minute(c, m, e));
    } else {
      StayingIsARow(c, m, ev, Minute(c, m, e));
    }
  }

  // ---------------------------------------------------------------- every event

  /** Every event but a power cut takes the machine to the row of the table. */
  lemma StepIsARow(c: Config, m: Machine, ev: Event)
    requires Regular(c, m) && Enabled(m, ev) && !ev.PowerCycle?
    ensures IsRow(c, m, ev, Step(c, m, ev))
  {
    hide IsRow, Regular, EvapTemperature, Test, TakeRole, Elapsed, Send, Minute, PowerUp, Told;
    match ev
    case EvapTemperatureChanged(e, t) =>
      if m.leaf == HeaterOn { TemperatureInHeaterOnIsARow(c, m, e, t); } else { TemperatureIsARow(c, m, e, t); }
    case TestRequested(request) => TestIsARow(c, m, request);
    case RoleChanged(role) =>
      if m.leaf == HeaterOn { RoleInHeaterOnIsARow(c, m, role); } else { RoleIsARow(c, m, role); }
    case Background(_, _, _, _) => BackgroundIsARow(c, m, ev);
    case Elapse(ms) => ElapseIsARow(c, m, ms);
    case DefrostTimerExpires => ExpiryIsARow(c, m);
    case HeaterMinute(e) =>
      if m.leaf == HeaterOn { MinuteInHeaterOnIsARow(c, m, e); } else { MinuteOutsideIsARow(c, m, e); }
    case _ => ToldIsARow(c, m, ev);
  }

  lemma TestIsARow(c: Config, m: Machine, request: TestRequest)
    requires Regular(c, m)
    ensures IsRow(c, m, TestRequested(request), Test(c, m, request))
  {
    if request == RequestNone {
      RegularParts(c, m);
      assert m.(rec := m.rec.(request := RequestNone)) == m;
      hide Regular, IsRow;
      IgnoredTestIsARow(c, m, request);
    } else if request == RequestExitHeaterOn {
      ExitIsARow(c, m);
    } else {
      StateTestIsARow(c, m, request);
    }
  }

  lemma SkipsOnlyInIdle(c: Config, m: Machine, ev: Event, r: Machine)
    requires Regular(c, m) && IsRow(c, m, ev, r) && r.skipForTest
    ensures r.leaf == Idle
  {
    hide IsRead, RecordsAfter, Timely, Partitioned, IdleAim, PrechillIsOver, KnownFault, CoolsForPrechill;
  }

  lemma {:induction false} RunIsRegular(c: Config, m: Machine, evs: seq<Event>)
    requires Regular(c, m) && Bounds(c, m, 255) && Occurs(c, m, evs)
    ensures Regular(c, Run(c, m, evs)) && Bounds(c, Run(c, m, evs), 255)
    decreases |evs|
  {
    if evs != [] {
      var r := Step(c, m, evs[0]);
      hide Step, Bounds, Enabled;
      StepIsRegular(c, m, evs[0]);
      hide Regular;
      RunIsRegular(c, r, evs[1..]);
    }
  }

  lemma StepIsRegular(c: Config, m: Machine, ev: Event)
    requires Regular(c, m) && Bounds(c, m, 255) && Enabled(m, ev)
    ensures Regular(c, Step(c, m, ev)) && Bounds(c, Step(c, m, ev), 255)
  {
    var r := Step(c, m, ev);
    hide Step, Enabled, CellFits, Heating, Timely;
    StepKeepsTime(c, m, ev);
    StepBounds(c, m, ev, 255);
    if ev.PowerCycle? {
      assert Step(c, m, ev) == PowerUp(c, m, ev.next) by { PowerCycleIsPowerUp(c, m, ev.next); }
      PowerUpIsRegular(c, m, ev.next);
    } else {
      StepIsARow(c, m, ev);
      if r.skipForTest { SkipsOnlyInIdle(c, m, ev, r); }
    }
  }

  lemma PowerCycleIsPowerUp(c: Config, m: Machine, env: Environment)
    ensures Step(c, m, PowerCycle(env)) == PowerUp(c, m, env)
  {}

  lemma PowerUpIsRegular(c: Config, m: Machine, env: Environment)
    ensures Regular(c, PowerUp(c, m, env)) && Bounds(c, PowerUp(c, m, env), 255)
  {
    PowerUpIsTimely(c, m, env);
    PowerUpBounds(c, m, env, 255);
    PowerUpSkipsNothing(c, m, env);
    hide PowerUp, CellFits;
  }

  lemma PowerUpSkipsNothing(c: Config, m: Machine, env: Environment)
    ensures !PowerUp(c, m, env).skipForTest
  {
    var m1 := Prepare(c, m, env);
    PreparedIsPartitioned(c, m, env);
    hide Prepare, Arrive;
    ArrivesExactly(c, m1, InitialLeaf(m1));
  }

  lemma PreparedIsPartitioned(c: Config, m: Machine, env: Environment)
    ensures var m1 := Prepare(c, m, env);
            Partitioned(c, m1) && m1.timer.None? && m1.rec.request == RequestIdle && !m1.skipForTest && m1.env == env
  {
    hide TooWarmOnPowerUp, ChosenBeforeFull;
  }

  lemma AttainableIsRegular(c: Config, m: Machine)
    requires Attainable(c, m)
    ensures Regular(c, m) && Bounds(c, m, 255)
  {
    var saved: Machine, env: Environment, evs: seq<Event> :|
      Occurs(c, PowerUp(c, saved, env), evs) && m == Run(c, PowerUp(c, saved, env), evs);
    PowerUpIsRegular(c, saved, env);
    hide PowerUp, Regular, Bounds;
    RunIsRegular(c, PowerUp(c, saved, env), evs);
  }

  /** In every state of every possible run, every event that can happen, but a power cut, does what its row says: where
      it leads, every record, every reading, the decision made or skipped and the time of a prechill that starts. */
  lemma EveryEventExactly(c: Config, m: Machine, ev: Event)
    requires Attainable(c, m) && Enabled(m, ev) && !ev.PowerCycle?
    ensures IsRow(c, m, ev, Step(c, m, ev))
  {
    hide Regular, Bounds, IsRow, Step, Attainable;
    AttainableIsRegular(c, m);
    StepIsARow(c, m, ev);
  }
}
