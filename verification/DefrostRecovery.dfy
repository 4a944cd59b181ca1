/**
 What a power cut leads to: the state that is resumed, every record that survives, and the type decided next.
 */
module DefrostRecovery {
  import opened DefrostTypes
  import opened DefrostModel
  import opened DefrostRuns
  import opened DefrostTiming
  import opened HeatInEveryRun
  import opened DefrostTable
  import opened DefrostTransitions
  import opened DefrostExactly

  /** Too warm at start-up, read off the thermistors: the freezer cabinet above its extreme or at the termination
      temperature of its evaporator, or a primary evaporator at its own. */
  predicate IsTooWarm(c: Config, env: Environment) {
    var cabinet := env.cabinetTemperature.freezer;
    (env.cabinetValid.freezer && (env.freezerExtremeHigh < cabinet || c.data.termination.freezer <= cabinet)) ||
    exists e: Evaporator :: IsPrimary(c.platform, env.role, e) && env.evapValid.At(e) &&
                            c.data.termination.At(e) <= env.evapTemperature.At(e)
  }

  /** Where a machine that was in l when power failed starts again. */
  function ResumesIn(l: Leaf, cleared: bool, tooWarm: bool): Leaf {
    if cleared then Idle
    else
      match l
      case Idle => Idle
      case PrechillPrep => if tooWarm then Idle else HeaterOnEntry
      case Prechill => if tooWarm then Idle else HeaterOnEntry
      case HeaterOnEntry => if tooWarm then Dwell else HeaterOnEntry
      case HeaterOn => if tooWarm then Dwell else HeaterOnEntry
      case Dwell => if tooWarm then Idle else Dwell
      case PostDwell => Idle
      case Disabled => Idle
  }

  /** The records after a start: what was not saved is as good as new. */
  function RecordsResumed(c: Config, m: Machine, env: Environment): Records {
    var tooWarm := IsTooWarm(c, env);
    var cleared := m.rec.eepromCleared;
    Records(RequestNone, false, false, tooWarm, false, ResumesIn(m.leaf, cleared, tooWarm) == Dwell,
            NextN(c, m.rec, env), Trio(false, false, false), cleared,
            if c.platform.numberOfEvaporators == 1 then Full else m.rec.defrostType,
            if cleared || tooWarm || m.leaf == Disabled then Full else m.rec.nextTypeOverride,
            m.rec.secondaryOnlyCount, m.rec.wasAbnormal, m.rec.abnormalDefrosts, m.rec.defrosts)
  }

  lemma TooWarmAgrees(c: Config, m: Machine)
    requires Partitioned(c, m)
    ensures TooWarmOnPowerUp(c, m) <==> IsTooWarm(c, m.env)
  {
    SlotsArePrimary(c, m);
    hide IsPrimary, PrimaryFor, SecondaryFor;
  }

  function Started(c: Config, m: Machine, env: Environment): Machine {
    TypeWithOneEvaporator(c, Partition(c, Blank(m, env)))
  }

  lemma StartedIsPartitioned(c: Config, m: Machine, env: Environment)
    ensures var m1 := Started(c, m, env);
            Partitioned(c, m1) && m1.env == env && m1.recorded == m.recorded && m1.timer.None? && m1.hist == m.hist &&
            !m1.skipForTest && !m1.skipForDisable && m1.heat == Trio(IDLE_CELL, IDLE_CELL, IDLE_CELL) &&
            m1.rec == m.rec.(request := RequestIdle, dontSkipPrechill := false, useAhamTime := false,
                             tooWarmOnPowerUp := false, invalidThermistorDuringDefrost := false,
                             valveHomingRequested := false, secondaryOnlyBeforeFull := 0,
                             maxTimeFault := Trio(false, false, false),
                             defrostType := if c.platform.numberOfEvaporators == 1 then Full else m.rec.defrostType)
  {}

  lemma PreparedRecords(c: Config, m: Machine, env: Environment)
    requires Timely(c, m)
    ensures var m1 := Prepare(c, m, env);
            Partitioned(c, m1) && m1.env == env && m1.recorded == m.recorded && m1.timer.None? && m1.hist == m.hist &&
            !m1.skipForTest && !m1.skipForDisable && m1.heat == Trio(IDLE_CELL, IDLE_CELL, IDLE_CELL) &&
            m1.rec == RecordsResumed(c, m, env).(request := RequestIdle, valveHomingRequested := false) &&
            InitialLeaf(m1) == ResumesIn(m.leaf, m.rec.eepromCleared, IsTooWarm(c, env))
  {
    hide TypeWithOneEvaporator, Partition, Blank, IsTooWarm, NextN, Partitioned;
    StartedIsPartitioned(c, m, env);
    var m1 := Started(c, m, env);
    TypesAgree(c, m1);
    TypeFrame(c, m.rec, m1.rec, env);
    var m2 := ChooseBeforeFull(c, m1);
    PartitionFrame(c, m1, m2);
    TooWarmAgrees(c, m2);
    PartitionFrame(c, m1, Prepare(c, m, env));
    hide TooWarmOnPowerUp, ChosenBeforeFull;
  }

  /** In every timely state, and so in every state of every possible run, a power cut leads to the state that its leaf,
      the cleared flag and the thermistors found say, with these records, nothing decided and every heater off. */
  lemma PowerCycleRecovers(c: Config, m: Machine, env: Environment)
    requires Timely(c, m)
    ensures var r := Step(c, m, PowerCycle(env));
            r.leaf == ResumesIn(m.leaf, m.rec.eepromCleared, IsTooWarm(c, env)) &&
            r.rec == RecordsResumed(c, m, env) && r.env == env &&
            r.hist.decisions == m.hist.decisions && !r.skipForTest &&
            forall e: Evaporator :: r.heat.At(e).vote == Vote(false, r.leaf == Dwell)
  {
    hide Prepare, InitialLeaf, Timely, IsTooWarm, NextN;
    PreparedRecords(c, m, env);
    var m1 := Prepare(c, m, env);
    var l := InitialLeaf(m1);
    hide Arrive, Partitioned;
    ArrivesExactly(c, m1, l);
    RecoversDirectly(c, m1, l);
    forall e: Evaporator ensures Arrive(c, m1, l).heat.At(e).vote == Vote(false, l == Dwell) {
      ArrivesVoting(c, m1, l, e);
      match e case FreshFood => case Freezer => case Convertible =>
    }
  }

  lemma RecoversDirectly(c: Config, m: Machine, l: Leaf)
    requires (l == Idle || l == HeaterOnEntry || l == Dwell) && Settled(c, m, Arrive(c, m, l), l)
    ensures Arrive(c, m, l).leaf == l &&
            Arrive(c, m, l).rec ==
            m.rec.(request := RequestNone, valveHomingRequested := m.rec.valveHomingRequested || l == Dwell)
  {
    hide Arrive, KnownFault, PrechillIsOver, CoolsForPrechill;
  }

  // ---------------------------------------------------------------- the type decided next

  /** Nothing has been decided since m, or Full first. */
  predicate FullComesFirst(m: Machine, r: Machine) {
    m.hist.decisions <= r.hist.decisions &&
    if |r.hist.decisions| == |m.hist.decisions| then r.rec.nextTypeOverride == Full
    else r.hist.decisions[|m.hist.decisions|] == Full
  }

  /** No test puts another type in the place of the override. */
  predicate LeavesOverride(evs: seq<Event>) {
    forall i :: 0 <= i < |evs| && evs[i].Background? ==> evs[i].nextTypeOverride == Full
  }

  lemma StepKeepsFullFirst(c: Config, m: Machine, ev: Event)
    requires Regular(c, m) && Enabled(m, ev) && m.rec.nextTypeOverride == Full
    requires ev.Background? ==> ev.nextTypeOverride == Full
    ensures FullComesFirst(m, Step(c, m, ev))
  {
    var r := Step(c, m, ev);
    hide Step, RecordsResumed, Enabled;
    if ev.PowerCycle? {
      PowerCycleRecovers(c, m, ev.next);
      assert RecordsResumed(c, m, ev.next).nextTypeOverride == Full by { ResumedOverride(c, m, ev.next); }
    } else {
      StepIsARow(c, m, ev);
      hide Regular, Timely, IsRead, LeadsTo;
      OverrideAfter(c, m, ev, r.env);
      hide RecordsAfter, Decides, Aim;
    }
  }

  lemma ResumedOverride(c: Config, m: Machine, env: Environment)
    requires m.rec.nextTypeOverride == Full
    ensures RecordsResumed(c, m, env).nextTypeOverride == Full
  {
    hide IsTooWarm, NextN;
  }

  lemma OverrideAfter(c: Config, m: Machine, ev: Event, env: Environment)
    requires m.rec.nextTypeOverride == Full && (ev.Background? ==> ev.nextTypeOverride == Full)
    ensures !Decides(m, ev, Aim(c, m, ev, env)) ==> RecordsAfter(c, m, ev, env).nextTypeOverride == Full
    ensures NextType(c, m.rec, env) == Full
  {
    hide Aim, Decides, FaultAfter, AbnormalAfter, AbnormalDefrostsAfter, DefrostsAfter, InvalidAfter, LeavesIdle, NextN;
    hide CountAfter;
  }

  lemma DecisionsGrow(c: Config, m: Machine, ev: Event)
    requires Regular(c, m) && Enabled(m, ev)
    ensures m.hist.decisions <= Step(c, m, ev).hist.decisions
  {
    hide Step, RecordsResumed, Enabled;
    if ev.PowerCycle? {
      PowerCycleRecovers(c, m, ev.next);
    } else {
      StepIsARow(c, m, ev);
      hide Regular, IsRead, LeadsTo, RecordsAfter, Decides, Aim;
    }
  }

  lemma {:induction false} RunDecisionsGrow(c: Config, m: Machine, evs: seq<Event>)
    requires Regular(c, m) && Bounds(c, m, 255) && Occurs(c, m, evs)
    ensures m.hist.decisions <= Run(c, m, evs).hist.decisions
    decreases |evs|
  {
    if evs != [] {
      DecisionsGrow(c, m, evs[0]);
      StepIsRegular(c, m, evs[0]);
      hide Step, Regular, Bounds, Enabled;
      RunDecisionsGrow(c, Step(c, m, evs[0]), evs[1..]);
    }
  }

  lemma {:induction false} FullStaysFirst(c: Config, m: Machine, evs: seq<Event>)
    requires Regular(c, m) && Bounds(c, m, 255) && Occurs(c, m, evs)
    requires m.rec.nextTypeOverride == Full && LeavesOverride(evs)
    ensures FullComesFirst(m, Run(c, m, evs))
    decreases |evs|
  {
    if evs != [] {
      StepKeepsFullFirst(c, m, evs[0]);
      StepIsRegular(c, m, evs[0]);
      var m1 := Step(c, m, evs[0]);
      hide Step, Regular, Bounds, Enabled;
      if m1.hist.decisions == m.hist.decisions {
        assert LeavesOverride(evs[1..]);
        FullStaysFirst(c, m1, evs[1..]);
      } else {
        RunDecisionsGrow(c, m1, evs[1..]);
      }
    }
  }

  /** After a start with the EEPROM cleared, too warm or in Disabled, the first type decided is Full in every possible
      run whose tests do not replace the override, more power cuts included. */
  lemma FullComesFirstAfterStart(c: Config, m: Machine, env: Environment, evs: seq<Event>)
    requires Timely(c, m) && (m.rec.eepromCleared || IsTooWarm(c, env) || m.leaf == Disabled)
    requires Occurs(c, Step(c, m, PowerCycle(env)), evs) && LeavesOverride(evs)
    ensures FullComesFirst(m, Run(c, Step(c, m, PowerCycle(env)), evs))
  {
    PowerCycleRecovers(c, m, env);
    PowerCycleIsPowerUp(c, m, env);
    PowerUpIsRegular(c, m, env);
    var m1 := Step(c, m, PowerCycle(env));
    hide Step, PowerUp, Regular, Bounds, IsTooWarm, Run, Occurs, Timely;
    FullStaysFirst(c, m1, evs);
  }
}
