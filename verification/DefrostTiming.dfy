/**
 What holds of the defrost machine in every possible run, whatever heaters, roles and test requests do:
 the timer table, the periods of the timed states, the delay before the heaters, and how long a
 defrost waits apart from heating.
 */
module DefrostTiming {
  import opened Options
  import opened Units
  import opened DefrostTypes
  import opened DefrostModel
  import opened DefrostRuns

  // ---------------------------------------------------------------- the time of one defrost

  /** The order of the states within a defrost; zero outside it. */
  function Stage(l: Leaf): nat {
    match l
    case Idle => 0
    case Disabled => 0
    case PrechillPrep => 1
    case Prechill => 2
    case HeaterOnEntry => 3
    case HeaterOn => 4
    case Dwell => 5
    case PostDwell => 6
  }

  function Last(v: seq<Visit>): Visit
    requires v != []
  {
    v[|v| - 1]
  }

  /** The last visit continues the defrost of the visit before it. */
  predicate Continues(v: seq<Visit>) {
    |v| >= 2 && 0 < Stage(v[|v| - 2].leaf) < Stage(v[|v| - 1].leaf)
  }

  function Counts(l: Leaf, heating: bool): bool { (l == HeaterOn) == heating }

  /** The time of the present defrost spent in HeaterOn, or outside it. */
  function Spent(v: seq<Visit>, heating: bool): nat
    decreases |v|
  {
    if v == [] then 0
    else (if Counts(Last(v).leaf, heating) then Last(v).stayed else 0) +
         if Continues(v) then Spent(v[..|v| - 1], heating) else 0
  }

  function Max(a: nat, b: nat): nat { if a < b then b else a }

  /** The longest a state other than HeaterOn may last, whatever the defrost type. */
  function Longest(c: Config, l: Leaf): nat {
    MSEC_PER_MIN *
    (match l
     case PrechillPrep => c.data.maxPrechillPrepMinutes
     case Prechill => Max(c.data.maxPrechillMinutes, c.data.maxPrechillSecondaryOnlyMinutes)
     case Dwell => c.data.dwellMinutes
     case PostDwell => Max(c.data.postDwellMinutes, c.data.postDwellSecondaryOnlyMinutes)
     case _ => 0) +
    if l == HeaterOnEntry then Delay(c) else 0
  }

  /** The sum of the longest waits of all states up to a stage. */
  function Allowance(c: Config, stage: nat): nat {
    (if stage >= 1 then Longest(c, PrechillPrep) else 0) + (if stage >= 2 then Longest(c, Prechill) else 0) +
    (if stage >= 3 then Longest(c, HeaterOnEntry) else 0) + (if stage >= 5 then Longest(c, Dwell) else 0) +
    (if stage >= 6 then Longest(c, PostDwell) else 0)
  }

  predicate WaitedSoFar(c: Config, v: seq<Visit>) {
    v != [] && Stage(Last(v).leaf) > 0 ==> Spent(v, false) <= Allowance(c, Stage(Last(v).leaf))
  }

  function Left(m: Machine): nat { if m.timer.Some? then m.timer.value else 0 }

  /** The defrost has waited, and will wait in its present state, no longer than the states up to it allow. */
  predicate WaitedOk(c: Config, m: Machine) {
    Stage(m.leaf) > 0 ==> Spent(m.hist.visits, false) + Left(m) <= Allowance(c, Stage(m.leaf))
  }

  lemma SpentOnArrival(c: Config, v: seq<Visit>, l: Leaf)
    requires WaitedSoFar(c, v)
    ensures Stage(l) > 0 ==> Spent(v + [Visit(l, 0)], false) + Longest(c, l) <= Allowance(c, Stage(l))
    ensures WaitedSoFar(c, v + [Visit(l, 0)])
  {
    var w := v + [Visit(l, 0)];
    assert w[..|w| - 1] == v;
    assert v != [] ==> w[|w| - 2] == Last(v);
  }

  lemma SpentGrows(v: seq<Visit>, ms: nat, heating: bool)
    requires v != []
    ensures var w := v[|v| - 1 := Last(v).(stayed := Last(v).stayed + ms)];
            Spent(w, heating) == Spent(v, heating) + if Counts(Last(v).leaf, heating) then ms else 0
  {
    var w := v[|v| - 1 := Last(v).(stayed := Last(v).stayed + ms)];
    assert w[..|w| - 1] == v[..|v| - 1];
  }

  // ---------------------------------------------------------------- the invariant

  /** What is true of every settled machine, whatever its heaters are voted. */
  predicate Timely(c: Config, m: Machine) {
    m.recorded == Recorded(m.leaf) && m.rec.request == RequestNone && (m.skipForDisable ==> m.leaf == Disabled) &&
    (m.timer.Some? <==> Timed(m.leaf)) && m.hist.visits != [] && Last(m.hist.visits).leaf == m.leaf &&
    VisitIsTimed(c, m) && DelayWasServed(c, m)
  }

  /** What a state needs of the machine that enters it. */
  predicate MayEnterInTime(c: Config, m: Machine, l: Leaf) {
    m.timer == None && (m.skipForDisable ==> l == Disabled) && RequestFits(m.rec.request, l) &&
    (l == HeaterOn ==> EndsWithFullDelay(c, m))
  }

  /** The result of an arrival or a transition that starts with m's visits. */
  predicate InTime(c: Config, m: Machine, r: Machine) {
    Timely(c, r) && (WaitedSoFar(c, m.hist.visits) ==> WaitedOk(c, r)) && NewVisitsOnly(m, r) && KeepsTypes(c, m, r)
  }

  /** Visits are only added, with no time spent in them yet. */
  predicate NewVisitsOnly(m: Machine, r: Machine) {
    m.hist.visits <= r.hist.visits &&
    forall i :: |m.hist.visits| <= i < |r.hist.visits| ==> r.hist.visits[i].stayed == 0
  }

  /** No number of SecondaryOnly defrosts is configured, none is under way and none is asked for next. */
  predicate OnlyFull(c: Config, r: Records) {
    c.data.secondaryOnlyBeforeFull == c.data.secondaryOnlyBeforeFullWhenAbnormal ==
      c.data.secondaryOnlyBeforeFullInSabbath == 0 &&
    r.defrostType == Full && r.nextTypeOverride != SecondaryOnly
  }

  /** A known type stays known, and only Full ones follow where no others can. */
  predicate KeepsTypes(c: Config, m: Machine, r: Machine) {
    (m.rec.defrostType != DontCare ==> r.rec.defrostType != DontCare) && (OnlyFull(c, m.rec) ==> OnlyFull(c, r.rec))
  }

  lemma LeaveInTime(c: Config, m: Machine)
    ensures var r := Leave(c, m);
            r.leaf == m.leaf && r.recorded == m.recorded && r.hist.visits == m.hist.visits && r.env == m.env &&
            r.rec.request == m.rec.request && (r.timer == None || (!Timed(m.leaf) && r.timer == m.timer)) &&
            r.skipForDisable == (m.skipForDisable && m.leaf != Disabled) && KeepsTypes(c, m, r)
  {
    ChosenWhereOnlyFull(c, m);
    hide VoteChosen, VoteAll, CountChosen, CoveredThermistorsAreValid, PrimaryFor, SecondaryFor, ChosenBeforeFull;
  }

  lemma ChosenWhereOnlyFull(c: Config, m: Machine)
    ensures OnlyFull(c, m.rec) ==> forall m1: Machine :: ChosenBeforeFull(c, m1) == 0
  {}

  /** A machine that stays where it has just arrived. */
  lemma SettlesInTime(c: Config, m: Machine, r: Machine)
    requires r.hist.visits == m.hist.visits + [Visit(r.leaf, 0)] && r.recorded == Recorded(r.leaf)
    requires r.rec.request == RequestNone && (r.skipForDisable ==> r.leaf == Disabled)
    requires (r.timer.Some? <==> Timed(r.leaf)) && Left(r) <= Period(c, r)
    requires r.timer.Some? && r.leaf != Prechill ==> r.timer.value == Period(c, r)
    requires r.leaf == HeaterOn ==> EndsWithFullDelay(c, m)
    requires KeepsTypes(c, m, r)
    ensures InTime(c, m, r)
  {
    assert Last(r.hist.visits) == Visit(r.leaf, 0);
    if WaitedSoFar(c, m.hist.visits) { SpentOnArrival(c, m.hist.visits, r.leaf); }
    if r.leaf == HeaterOn { assert r.hist.visits[|r.hist.visits| - 2] == Last(m.hist.visits); }
    hide Spent, Allowance;
  }

  /** Arriving in a state that leads on at once leaves as much time as before. */
  lemma PassesInTime(c: Config, m: Machine, m1: Machine, l: Leaf, r: Machine)
    requires m1.hist.visits == m.hist.visits + [Visit(l, 0)] && InTime(c, m1, r) && KeepsTypes(c, m, m1)
    ensures InTime(c, m, r)
  {
    if WaitedSoFar(c, m.hist.visits) { SpentOnArrival(c, m.hist.visits, l); }
  }

  lemma ArriveInTime(c: Config, m: Machine, l: Leaf)
    requires MayEnterInTime(c, m, l)
    ensures InTime(c, m, Arrive(c, m, l))
    decreases Rank(l)
  {
    hide ReactAll, VoteAll, VoteChosen, Leave, PrechillMustEnd, AnyKnownThermistorIsInvalid;
    hide PrechillConditionsAreMet, InTime;
    match l
    case Idle => ArriveIdleInTime(c, m);
    case PrechillPrep => ArrivePrechillPrepInTime(c, m);
    case Prechill => ArrivePrechillInTime(c, m);
    case _ => SettlesInTime(c, m, Arrive(c, m, l));
  }

  lemma ArriveIdleInTime(c: Config, m: Machine)
    requires MayEnterInTime(c, m, Idle)
    ensures InTime(c, m, Arrive(c, m, Idle))
    decreases Rank(Idle), 0
  {
    hide ReactAll, Leave, InTime;
    var r := Arrive(c, m, Idle);
    var m1 := Save(Come(m, Idle), Idle);
    LeaveInTime(c, m1);
    if m1.rec.request == RequestPrechill {
      ArriveInTime(c, Leave(c, m1), PrechillPrep);
      PassesInTime(c, m, Leave(c, m1), Idle, r);
    } else if m1.rec.request == RequestDefrost {
      ArriveInTime(c, Leave(c, m1), HeaterOnEntry);
      PassesInTime(c, m, Leave(c, m1), Idle, r);
    } else {
      SettlesInTime(c, m, r);
    }
  }

  lemma ArrivePrechillPrepInTime(c: Config, m: Machine)
    requires MayEnterInTime(c, m, PrechillPrep)
    ensures InTime(c, m, Arrive(c, m, PrechillPrep))
    decreases Rank(PrechillPrep), 0
  {
    hide ReactAll, VoteAll, VoteChosen, Leave, PrechillMustEnd, AnyKnownThermistorIsInvalid;
    hide PrechillConditionsAreMet, InTime;
    var r := Arrive(c, m, PrechillPrep);
    var m0 := Come(m, PrechillPrep);
    if AnyKnownThermistorIsInvalid(m0.env) {
      LeaveInTime(c, m0);
      ArriveInTime(c, Leave(c, m0), HeaterOnEntry);
      PassesInTime(c, m, Leave(c, m0), PrechillPrep, r);
    } else {
      var m1 := Save(m0, PrechillPrep);
      var m2 := m1.(rec := m1.rec.(dontSkipPrechill := false, request := RequestNone, useAhamTime := false));
      if PrechillConditionsAreMet(c, m2.env) {
        LeaveInTime(c, m2);
        ArriveInTime(c, Leave(c, m2), Prechill);
        PassesInTime(c, m, Leave(c, m2), PrechillPrep, r);
      } else {
        SettlesInTime(c, m, r);
      }
    }
  }

  lemma ArrivePrechillInTime(c: Config, m: Machine)
    requires MayEnterInTime(c, m, Prechill)
    ensures InTime(c, m, Arrive(c, m, Prechill))
    decreases Rank(Prechill), 0
  {
    hide ReactAll, VoteAll, VoteChosen, Leave, PrechillMustEnd, InTime;
    var r := Arrive(c, m, Prechill);
    var m1 := Save(Come(m, Prechill), Prechill);
    if PrechillMustEnd(c, m1) {
      LeaveInTime(c, m1);
      ArriveInTime(c, Leave(c, m1), HeaterOnEntry);
      PassesInTime(c, m, Leave(c, m1), Prechill, r);
    } else {
      SettlesInTime(c, m, r);
    }
  }

  predicate MayGoInTime(c: Config, m: Machine, l: Leaf) {
    (Timed(m.leaf) || m.timer == None) && (m.skipForDisable ==> l == Disabled || m.leaf == Disabled) &&
    RequestFits(m.rec.request, l) && (l == HeaterOn ==> EndsWithFullDelay(c, m))
  }

  lemma GoInTime(c: Config, m: Machine, l: Leaf)
    requires MayGoInTime(c, m, l)
    ensures InTime(c, m, Go(c, m, l))
  {
    LeaveInTime(c, m);
    ArriveInTime(c, Leave(c, m), l);
  }

  // ---------------------------------------------------------------- every step

  /** Heaters, readings, records and groups do not matter. */
  predicate SameTime(m: Machine, r: Machine) {
    r.leaf == m.leaf && r.recorded == m.recorded && r.timer == m.timer && r.hist.visits == m.hist.visits &&
    r.skipForDisable == m.skipForDisable && r.rec.request == m.rec.request && r.rec.defrostType == m.rec.defrostType &&
    r.rec.nextTypeOverride == m.rec.nextTypeOverride
  }

  /** A step keeps the machine timely, and what the present defrost has waited within its allowance. */
  predicate KeepsTime(c: Config, m: Machine, r: Machine) {
    Timely(c, r) && (WaitedOk(c, m) ==> WaitedOk(c, r)) && NewVisitsOnly(m, r) && KeepsTypes(c, m, r)
  }

  lemma SameTimeKeeps(c: Config, m: Machine, r: Machine)
    requires Timely(c, m) && SameTime(m, r)
    ensures KeepsTime(c, m, r)
  {}

  lemma GoKeepsTime(c: Config, m: Machine, m1: Machine, l: Leaf)
    requires Timely(c, m) && MayGoInTime(c, m1, l) && m1.hist.visits == m.hist.visits && KeepsTypes(c, m, m1)
    ensures KeepsTime(c, m, Go(c, m1, l))
  {
    hide Go;
    GoInTime(c, m1, l);
  }

  lemma HeaterSignalKeepsTime(c: Config, m: Machine, m1: Machine)
    requires Timely(c, m) && SameTime(m, m1) && m.leaf == HeaterOn
    ensures KeepsTime(c, m, DwellIfAllOff(c, m1))
  {
    hide Go, AllHeatersAreOff;
    if AllHeatersAreOff(m1) { GoKeepsTime(c, m, m1, Dwell); } else { SameTimeKeeps(c, m, m1); }
  }

  lemma MaxOnTimeKeepsTime(c: Config, m: Machine, e: Evaporator)
    requires Timely(c, m) && m.leaf == HeaterOn
    ensures KeepsTime(c, m, HeaterMaxOnTime(c, m, e))
  {
    hide VoteAt, DwellIfAllOff, Timely, KeepsTime;
    var m1 := VoteHeater(m, e, false, true);
    HeaterSignalKeepsTime(c, m, if m1.env.evapValid.At(e)
                                then m1.(rec := m1.rec.(maxTimeFault := m1.rec.maxTimeFault.With(e, true)))
                                else m1.(rec := m1.rec.(invalidThermistorDuringDefrost := true)));
  }

  lemma TemperatureKeepsTime(c: Config, m: Machine, e: Evaporator)
    requires Timely(c, m) && m.leaf == HeaterOn
    ensures KeepsTime(c, m, HeaterTemperature(c, m, e))
  {
    hide VoteAt, DwellIfAllOff, Timely, WaitedOk, AbnormalMinutes;
    if m.env.evapTemperature.At(e) >= c.data.termination.At(e) {
      var m1 := VoteHeater(m, e, false, true);
      var m2 := if m1.heat.At(e).minutes < AbnormalMinutes(c, m1.env.role, e)
                then m1.(rec := m1.rec.(wasAbnormal := m1.rec.wasAbnormal.With(e, false))) else m1;
      HeaterSignalKeepsTime(c, m, m2.(rec := m2.rec.(maxTimeFault := m2.rec.maxTimeFault.With(e, false))));
    }
  }

  lemma SendKeepsTime(c: Config, m: Machine, s: Signal)
    requires Timely(c, m) && Plain(s)
    ensures KeepsTime(c, m, Send(c, m, s))
  {
    hide Send, Go, HeaterMaxOnTime, HeaterTemperature;
    if m.leaf == HeaterOn {
      HeaterOnSend(c, m, s);
      match s
      case SigHeaterMaxOnTimeReached(e) => MaxOnTimeKeepsTime(c, m, e);
      case SigEvaporatorTemperatureChanged(e) => TemperatureKeepsTime(c, m, e);
      case SigDisableDefrost => GoKeepsTime(c, m, m, Disabled);
      case _ =>
    } else {
      SendIsPlain(c, m, s);
      var l := PlainTarget(c, m, s);
      if l.Some? { GoKeepsTime(c, m, Marked(m, s), l.value); }
    }
  }

  lemma ToldKeepsTime(c: Config, m: Machine, ev: Event)
    requires Timely(c, m)
    ensures KeepsTime(c, m, Told(c, m, ev))
  {
    hide Send, Timely, WaitedOk, EnvironmentAfter, SignalFor;
    var env := EnvironmentAfter(m.env, ev);
    SameTimeKeeps(c, m, m.(env := env));
    var s := SignalFor(c, env, ev);
    ToldSignalIsPlain(c, env, ev);
    if s.Some? {
      SendKeepsTime(c, m.(env := env), s.value);
    }
  }

  lemma EvapTemperatureKeepsTime(c: Config, m: Machine, e: Evaporator, t: int)
    requires Timely(c, m)
    ensures KeepsTime(c, m, EvapTemperature(c, m, e, t))
  {
    hide Told, Send, Timely, WaitedOk;
    ToldKeepsTime(c, m, EvapTemperatureChanged(e, t));
    SendKeepsTime(c, Told(c, m, EvapTemperatureChanged(e, t)), SigPrimaryEvaporatorTemperatureChanged(t));
  }

  lemma RoleKeepsTime(c: Config, m: Machine, role: Role)
    requires Timely(c, m)
    ensures KeepsTime(c, m, TakeRole(c, m, role))
  {
    hide Send, Timely, WaitedOk, PrimaryFor, SecondaryFor;
    var m1 := GiveRole(c, m, role);
    SameTimeKeeps(c, m, m1);
    SendKeepsTime(c, m1, SigPrimaryEvaporatorTemperatureChanged(m1.env.evapTemperature.convertible));
  }

  lemma ExitRequestKeepsTime(c: Config, m: Machine)
    requires Timely(c, m)
    ensures KeepsTime(c, m, Test(c, m, RequestExitHeaterOn))
  {
    hide Test, Go, VisitIsTimed, DelayWasServed, KeepsTime;
    ExitRequestIsSent(c, m);
    var m1 := m.(rec := m.rec.(request := RequestExitHeaterOn));
    if m.leaf == HeaterOnEntry || m.leaf == HeaterOn {
      GoKeepsTime(c, m, m1, Dwell);
    } else {
      assert ClearRequest(m1) == m;
      SameTimeKeeps(c, m, m);
    }
  }

  lemma StateTestKeepsTime(c: Config, m: Machine, request: TestRequest)
    requires Timely(c, m) && IsStateTest(TestRequested(request))
    ensures KeepsTime(c, m, Test(c, m, request))
  {
    hide Test, Go, VisitIsTimed, DelayWasServed, KeepsTime;
    StateTestIsSent(c, m, request);
    var m1 := m.(rec := m.rec.(request := request));
    if m.leaf == Disabled {
      assert ClearRequest(m1) == m;
      SameTimeKeeps(c, m, m);
    } else {
      GoKeepsTime(c, m, if m.leaf == Idle || m.leaf == PostDwell then m1.(skipForTest := true) else m1, Idle);
    }
  }

  lemma TestKeepsTime(c: Config, m: Machine, request: TestRequest)
    requires Timely(c, m)
    ensures KeepsTime(c, m, Test(c, m, request))
  {
    if request == RequestNone {
      hide Send;
      SameTimeKeeps(c, m, Test(c, m, request));
    } else if request == RequestExitHeaterOn {
      ExitRequestKeepsTime(c, m);
    } else {
      StateTestKeepsTime(c, m, request);
    }
  }

  lemma ExpiryKeepsTime(c: Config, m: Machine)
    requires Timely(c, m) && m.timer == Some(0)
    ensures KeepsTime(c, m, Send(c, m.(timer := None), SigDefrostTimerExpired))
  {
    hide Go, ParentHandles, SlotEndsPostDwell, WaitedOk, KeepsTime;
    var m1 := m.(timer := None);
    if m.leaf == Dwell {
      GoKeepsTime(c, m, m1, Idle);
      GoKeepsTime(c, m, m1, PostDwell);
    } else {
      TimerMoves(c, m1);
      GoKeepsTime(c, m, m1, AfterTimer(m.leaf));
    }
  }

  lemma MinuteKeepsTime(c: Config, m: Machine, e: Evaporator)
    requires Timely(c, m)
    ensures KeepsTime(c, m, Minute(c, m, e))
  {
    hide Timely, WaitedOk, HeaterMaxOnTime, AbnormalMinutes;
    var m1 := Counted(m, e);
    SameTimeKeeps(c, m, m1);
    if m.leaf == HeaterOn {
      MinuteInHeaterOn(c, m, e);
      MaxOnTimeKeepsTime(c, m1, e);
      SameTimeKeeps(c, m, HeaterAbnormal(m1, e));
    } else {
      MinuteOutsideHeaterOn(c, m, e);
    }
  }

  /** Outside HeaterOn nobody handles what a counter brings about. */
  lemma MinuteOutsideHeaterOn(c: Config, m: Machine, e: Evaporator)
    requires m.leaf != HeaterOn
    ensures Minute(c, m, e) == Counted(m, e)
  {
    hide Go, AbnormalMinutes, CountMinute;
    match m.leaf case Idle => case PostDwell => case Disabled => case PrechillPrep => case Prechill => case _ =>
  }

  lemma ElapseKeepsTime(c: Config, m: Machine, ms: nat)
    requires Timely(c, m) && Enabled(m, Elapse(ms))
    ensures var r := Elapsed(m, ms);
            Timely(c, r) && (WaitedOk(c, m) ==> WaitedOk(c, r)) && r.leaf == m.leaf && r.rec == m.rec
  {
    SpentGrows(m.hist.visits, ms, false);
    hide Spent;
    var r := Elapsed(m, ms);
    var last := Last(m.hist.visits);
    assert r.hist.visits != [] && Last(r.hist.visits) == last.(stayed := last.stayed + ms);
    if m.leaf == HeaterOn {
      assert r.hist.visits[|r.hist.visits| - 2] == m.hist.visits[|m.hist.visits| - 2];
    }
  }

  /** Start-up is timely with any saved records. */
  lemma PowerUpIsTimely(c: Config, m: Machine, env: Environment)
    ensures InTime(c, m, PowerUp(c, m, env))
  {
    hide Arrive, PrimaryFor, SecondaryFor, TooWarmOnPowerUp, ChosenBeforeFull;
    var m1 := Prepare(c, m, env);
    assert m1.timer == None && m1.rec.request == RequestIdle && !m1.skipForDisable && m1.hist.visits == m.hist.visits;
    ArriveInTime(c, m1, InitialLeaf(m1));
  }

  /** A test asks for a SecondaryOnly defrost next. */
  predicate AsksForSecondaryOnly(ev: Event) { ev.Background? && ev.nextTypeOverride == SecondaryOnly }

  lemma BackgroundKeepsTime(c: Config, m: Machine, ev: Event)
    requires Timely(c, m) && ev.Background?
    ensures var r := Step(c, m, ev);
            Timely(c, r) && (WaitedOk(c, m) ==> WaitedOk(c, r)) && NewVisitsOnly(m, r) &&
            r.rec.defrostType == m.rec.defrostType && (!AsksForSecondaryOnly(ev) ==> KeepsTypes(c, m, r))
  {
    hide Merge;
  }

  lemma StepKeepsTime(c: Config, m: Machine, ev: Event)
    requires Timely(c, m) && Enabled(m, ev)
    ensures var r := Step(c, m, ev);
            Timely(c, r) && (WaitedOk(c, m) ==> WaitedOk(c, r)) && (!ev.Elapse? ==> NewVisitsOnly(m, r)) &&
            (m.rec.defrostType != DontCare ==> r.rec.defrostType != DontCare) &&
            (!AsksForSecondaryOnly(ev) ==> KeepsTypes(c, m, r))
  {
    hide EvapTemperature, Test, TakeRole, Elapsed, Send, Minute, PowerUp, Told, Spent, Allowance;
    match ev
    case EvapTemperatureChanged(e, t) => EvapTemperatureKeepsTime(c, m, e, t);
    case TestRequested(r) => TestKeepsTime(c, m, r);
    case RoleChanged(role) => RoleKeepsTime(c, m, role);
    case Background(_, _, _, _) => BackgroundKeepsTime(c, m, ev);
    case Elapse(ms) => ElapseKeepsTime(c, m, ms);
    case DefrostTimerExpires => ExpiryKeepsTime(c, m);
    case HeaterMinute(e) => MinuteKeepsTime(c, m, e);
    case PowerCycle(next) => PowerUpIsTimely(c, m, next);
    case _ => ToldKeepsTime(c, m, ev);
  }

  // ---------------------------------------------------------------- all runs

  predicate Occurs(c: Config, m: Machine, evs: seq<Event>)
    decreases |evs|
  {
    evs != [] ==> Enabled(m, evs[0]) && Occurs(c, Step(c, m, evs[0]), evs[1..])
  }

  lemma {:induction false} RunIsTimely(c: Config, m: Machine, evs: seq<Event>)
    requires Timely(c, m) && Occurs(c, m, evs)
    ensures Timely(c, Run(c, m, evs)) && (WaitedOk(c, m) ==> WaitedOk(c, Run(c, m, evs)))
    ensures m.rec.defrostType != DontCare ==> Run(c, m, evs).rec.defrostType != DontCare
    decreases |evs|
  {
    if evs != [] {
      StepKeepsTime(c, m, evs[0]);
      RunIsTimely(c, Step(c, m, evs[0]), evs[1..]);
    }
  }

  /** Everything that any possible run can reach from a start-up, whatever records it finds saved. */
  ghost predicate Attainable(c: Config, m: Machine) {
    exists saved: Machine, env: Environment, evs: seq<Event> ::
      Occurs(c, PowerUp(c, saved, env), evs) && m == Run(c, PowerUp(c, saved, env), evs)
  }

  lemma AttainableIsTimely(c: Config, m: Machine)
    requires Attainable(c, m)
    ensures Timely(c, m)
  {
    var saved: Machine, env: Environment, evs: seq<Event> :|
      Occurs(c, PowerUp(c, saved, env), evs) && m == Run(c, PowerUp(c, saved, env), evs);
    PowerUpIsTimely(c, saved, env);
    RunIsTimely(c, PowerUp(c, saved, env), evs);
  }

  /** The compressor and every fan are held off. */
  predicate AirIsStill(s: Option<Loads<int>>) {
    s.Some? && s.value.compressor == OFF && s.value.condenserFan == OFF && s.value.freezerFan == OFF &&
    s.value.freshFoodFan == OFF && s.value.iceCabinetFan == OFF && s.value.deliFan == OFF &&
    s.value.convertibleFan == OFF
  }

  /** Each HeaterOn visit follows a HeaterOnEntry visit that lasted the whole delay, air still in both. */
  lemma HeatersWaitTheFullDelay(c: Config, m: Machine)
    requires Attainable(c, m) && m.leaf == HeaterOn
    ensures |m.hist.visits| >= 2
    ensures m.hist.visits[|m.hist.visits| - 2] == Visit(HeaterOnEntry, c.data.heaterOnDelaySeconds * MSEC_PER_SEC)
    ensures AirIsStill(CaredLoads(c, HeaterOnEntry)) && AirIsStill(CaredLoads(c, HeaterOn))
  {
    hide Attainable, VisitIsTimed;
    AttainableIsTimely(c, m);
  }

  /** At every settled point the state alone says whether the defrost timer is armed. */
  lemma TimerTable(c: Config, m: Machine)
    requires Attainable(c, m)
    ensures m.timer.Some? <==>
            m.leaf == PrechillPrep || m.leaf == Prechill || m.leaf == HeaterOnEntry || m.leaf == Dwell ||
            m.leaf == PostDwell
    ensures m.recorded == Recorded(m.leaf) && m.rec.request == RequestNone
  {
    AttainableIsTimely(c, m);
  }

  /** No timed state outlasts its period, and all but Prechill last exactly that long if nothing but the timer ends
      them. */
  lemma TimedStatesLastTheirPeriod(c: Config, m: Machine)
    requires Attainable(c, m) && Timed(m.leaf)
    ensures m.hist.visits != [] && Stayed(m) <= Period(c, m)
    ensures Enabled(m, DefrostTimerExpires) && m.leaf != Prechill ==> Stayed(m) == Period(c, m)
  {
    AttainableIsTimely(c, m);
  }

  /** A defrost never waits longer, apart from heating, than the periods of the states it has come through add up to:
      preparation, prechill, delay, dwell and post-dwell. */
  lemma WaitingIsBounded(c: Config, saved: Machine, env: Environment, evs: seq<Event>)
    requires saved.hist.visits == [] && Occurs(c, PowerUp(c, saved, env), evs)
    ensures var m := Run(c, PowerUp(c, saved, env), evs);
            Stage(m.leaf) > 0 ==> Spent(m.hist.visits, false) + Left(m) <= Allowance(c, Stage(m.leaf))
  {
    PowerUpIsTimely(c, saved, env);
    RunIsTimely(c, PowerUp(c, saved, env), evs);
  }
}
