/**
 The Full / SecondaryOnly schedule: a type is decided each time Idle is left for a defrost, and
 undisturbed decisions give exactly N SecondaryOnly defrosts between two Full ones.
 */
module DefrostSchedule {
  import opened Options
  import opened DefrostTypes
  import opened DefrostModel
  import opened DefrostRuns
  import opened DefrostProperties

  // ---------------------------------------------------------------- one decision at a time

  /** No decision was made. */
  predicate Undecided(m: Machine, r: Machine) {
    r.hist.decisions == m.hist.decisions && r.rec.secondaryOnlyCount == m.rec.secondaryOnlyCount
  }

  /** One decision was made, with the number of SecondaryOnly defrosts that r records. */
  predicate Decided(m: Machine, r: Machine) {
    var t := DecidedType(m.rec.(secondaryOnlyBeforeFull := r.rec.secondaryOnlyBeforeFull));
    r.hist.decisions == m.hist.decisions + [t] && r.rec.defrostType == t &&
    r.rec.secondaryOnlyCount == if t == SecondaryOnly then (m.rec.secondaryOnlyCount + 1) % 0x100 else 0
  }

  /** A decision is due when Idle is left and neither skip flag is set. */
  predicate Due(m: Machine) { m.leaf == Idle && !m.skipForTest && !m.skipForDisable }

  predicate DecidedIfDue(m: Machine, r: Machine) { if Due(m) then Decided(m, r) else Undecided(m, r) }

  predicate SameChoice(m: Machine, r: Machine) {
    Undecided(m, r) && r.rec.secondaryOnlyBeforeFull == m.rec.secondaryOnlyBeforeFull &&
    r.rec.defrostType == m.rec.defrostType && r.skipForTest == m.skipForTest && r.skipForDisable == m.skipForDisable
  }

  lemma LeaveDecides(c: Config, m: Machine)
    ensures DecidedIfDue(m, Leave(c, m))
    ensures m.leaf != Idle && m.leaf != Disabled ==> SameChoice(m, Leave(c, m))
    ensures !m.skipForTest ==> !Leave(c, m).skipForTest
    ensures Leave(c, m).rec.request == m.rec.request
    ensures m.skipForDisable && m.leaf != Disabled ==> Leave(c, m).skipForDisable
  {
    hide VoteAll, VoteChosen, CountChosen, CoveredThermistorsAreValid, PrimaryFor, SecondaryFor, ChosenBeforeFull;
  }

  lemma ArriveChoosesNothing(c: Config, m: Machine, l: Leaf)
    requires l == Idle ==> m.rec.request != RequestPrechill && m.rec.request != RequestDefrost
    ensures SameChoice(m, Arrive(c, m, l))
    decreases Rank(l)
  {
    hide ReactAll, VoteAll, VoteChosen, PrechillMustEnd, AnyKnownThermistorIsInvalid, PrechillConditionsAreMet;
    hide LeaveIdle, LeaveHeaterOn;
    var m0 := Come(m, l);
    var m1 := Save(m0, l);
    if l == PrechillPrep {
      if AnyKnownThermistorIsInvalid(m0.env) {
        ArriveChoosesNothing(c, Leave(c, m0), HeaterOnEntry);
      } else {
        var m2 := m1.(rec := m1.rec.(dontSkipPrechill := false, request := RequestNone, useAhamTime := false));
        if PrechillConditionsAreMet(c, m2.env) {
          ArriveChoosesNothing(c, Leave(c, m2), Prechill);
        }
      }
    } else if l == Prechill && PrechillMustEnd(c, m1) {
      ArriveChoosesNothing(c, Leave(c, m1), HeaterOnEntry);
    }
  }

  lemma GoDecides(c: Config, m: Machine, l: Leaf)
    requires l == Idle ==> m.rec.request != RequestPrechill && m.rec.request != RequestDefrost
    ensures DecidedIfDue(m, Go(c, m, l))
    ensures !m.skipForTest ==> !Go(c, m, l).skipForTest
  {
    LeaveDecides(c, m);
    ArriveChoosesNothing(c, Leave(c, m), l);
  }

  /** A plain signal decides a type exactly when it takes the machine from Idle into a defrost. */
  lemma SendDecides(c: Config, m: Machine, s: Signal)
    requires Plain(s) && m.rec.request == RequestNone && (m.skipForDisable ==> m.leaf == Disabled)
    ensures Undecided(m, Send(c, m, s)) || (m.leaf == Idle && Decided(m, Send(c, m, s)))
    ensures !m.skipForTest ==> !Send(c, m, s).skipForTest
  {
    if m.leaf == HeaterOn {
      HeaterOnSendDecides(c, m, s);
    } else {
      SendIsPlain(c, m, s);
      var l := PlainTarget(c, m, s);
      if l.Some? {
        GoDecides(c, Marked(m, s), l.value);
      }
    }
  }

  lemma HeaterOnSendDecides(c: Config, m: Machine, s: Signal)
    requires Plain(s) && m.leaf == HeaterOn
    ensures Undecided(m, Send(c, m, s)) && (!m.skipForTest ==> !Send(c, m, s).skipForTest)
  {
    HeaterOnSend(c, m, s);
    match s
    case SigHeaterMaxOnTimeReached(e) => MaxOnTimeDecides(c, m, e);
    case SigEvaporatorTemperatureChanged(e) => TemperatureDecides(c, m, e);
    case SigDisableDefrost => GoDecides(c, m, Disabled);
    case _ =>
  }

  lemma MaxOnTimeDecides(c: Config, m: Machine, e: Evaporator)
    requires m.leaf == HeaterOn
    ensures Undecided(m, HeaterMaxOnTime(c, m, e)) && (!m.skipForTest ==> !HeaterMaxOnTime(c, m, e).skipForTest)
  {
    var m1 := VoteHeater(m, e, false, true);
    var m2 := if m1.env.evapValid.At(e) then m1.(rec := m1.rec.(maxTimeFault := m1.rec.maxTimeFault.With(e, true)))
              else m1.(rec := m1.rec.(invalidThermistorDuringDefrost := true));
    GoDecides(c, m2, Dwell);
  }

  lemma TemperatureDecides(c: Config, m: Machine, e: Evaporator)
    requires m.leaf == HeaterOn
    ensures Undecided(m, HeaterTemperature(c, m, e)) && (!m.skipForTest ==> !HeaterTemperature(c, m, e).skipForTest)
  {
    var m1 := VoteHeater(m, e, false, true);
    var m2 := if m1.heat.At(e).minutes < AbnormalMinutes(c, m1.env.role, e)
              then m1.(rec := m1.rec.(wasAbnormal := m1.rec.wasAbnormal.With(e, false))) else m1;
    GoDecides(c, m2.(rec := m2.rec.(maxTimeFault := m2.rec.maxTimeFault.With(e, false))), Dwell);
  }

  // ---------------------------------------------------------------- steps

  predicate StepDecides(m: Machine, r: Machine) {
    (Undecided(m, r) || (m.leaf == Idle && Decided(m, r))) && (!m.skipForTest ==> !r.skipForTest)
  }

  lemma EvapTemperatureDecides(c: Config, m: Machine, e: Evaporator, t: int, limit: nat)
    requires Inv(c, m, limit) && 0 < limit
    ensures StepDecides(m, EvapTemperature(c, m, e, t))
  {
    var ev := EvapTemperatureChanged(e, t);
    ToldKeeps(c, m, ev, limit);
    var m1 := m.(env := EnvironmentAfter(m.env, ev));
    var r := Told(c, m, ev);
    SendDecides(c, m1, SigEvaporatorTemperatureChanged(e));
    SendDecides(c, r, SigPrimaryEvaporatorTemperatureChanged(t));
    if m.leaf == Idle {
      assert r == m1;
      assert Send(c, r, SigPrimaryEvaporatorTemperatureChanged(t)) == r;
    } else {
      assert Undecided(m, r);
      if r.leaf == Idle {
        assert Send(c, r, SigPrimaryEvaporatorTemperatureChanged(t)) == r;
      }
    }
  }

  lemma ToldDecides(c: Config, m: Machine, ev: Event, limit: nat)
    requires Inv(c, m, limit)
    ensures StepDecides(m, Told(c, m, ev))
  {
    assert m.rec.request == RequestNone && (m.skipForDisable ==> m.leaf == Disabled);
    hide Inv, Send, EnvironmentAfter, SignalFor, DecidedType;
    var env := EnvironmentAfter(m.env, ev);
    var s := SignalFor(c, env, ev);
    ToldSignalIsPlain(c, env, ev);
    var m1 := m.(env := env);
    if s.Some? {
      SendDecides(c, m1, s.value);
      ReadingsDoNotDecide(m, m1, Send(c, m1, s.value));
    }
  }

  /** What the controller reads has no part in a decision once it is made. */
  lemma ReadingsDoNotDecide(m: Machine, m1: Machine, r: Machine)
    requires m1.rec == m.rec && m1.hist == m.hist && m1.leaf == m.leaf && m1.skipForTest == m.skipForTest
    requires StepDecides(m1, r)
    ensures StepDecides(m, r)
  {}

  lemma RoleDecides(c: Config, m: Machine, role: Role, limit: nat)
    requires Inv(c, m, limit)
    ensures StepDecides(m, TakeRole(c, m, role))
  {
    hide Send, PrimaryFor, SecondaryFor;
    var m1 := GiveRole(c, m, role);
    SendDecides(c, m1, SigPrimaryEvaporatorTemperatureChanged(m1.env.evapTemperature.convertible));
  }

  lemma ExitDecides(c: Config, m: Machine, limit: nat)
    requires Inv(c, m, limit)
    ensures StepDecides(m, Test(c, m, RequestExitHeaterOn))
  {
    ExitRequestIsSent(c, m);
    hide Test, Go, Steady, VisitIsTimed, DelayWasServed, Heating, CountOk;
    GoDecides(c, m.(rec := m.rec.(request := RequestExitHeaterOn)), Dwell);
  }

  lemma TimerDecides(c: Config, m: Machine, limit: nat)
    requires Inv(c, m, limit) && m.timer == Some(0)
    ensures StepDecides(m, Send(c, m.(timer := None), SigDefrostTimerExpired))
  {
    var m1 := m.(timer := None);
    if m.leaf == Dwell {
      GoDecides(c, m1, Idle);
      GoDecides(c, m1, PostDwell);
    } else {
      TimerMoves(c, m1);
      GoDecides(c, m1, AfterTimer(m.leaf));
    }
  }

  lemma MinuteDecides(c: Config, m: Machine, e: Evaporator, limit: nat)
    requires Inv(c, m, limit) && 0 < limit <= 255 && Enabled(m, HeaterMinute(e))
    ensures StepDecides(m, Minute(c, m, e))
  {
    MinuteCounts(c, m, e, limit);
    MinuteInHeaterOn(c, m, e);
    MaxOnTimeDecides(c, Counted(m, e), e);
  }

  lemma PowerUpDecides(c: Config, m: Machine, env: Environment)
    ensures Undecided(m, PowerUp(c, m, env)) && !PowerUp(c, m, env).skipForTest
  {
    var m1 := Prepare(c, m, env);
    assert Undecided(m, m1);
    ArriveChoosesNothing(c, m1, InitialLeaf(m1));
  }

  /** Apart from state test requests, a step makes at most one decision, and only on leaving Idle. */
  lemma EveryStepDecides(c: Config, m: Machine, ev: Event, limit: nat)
    requires Inv(c, m, limit) && 0 < limit <= 255 && Enabled(m, ev) && !IsStateTest(ev)
    ensures StepDecides(m, Step(c, m, ev))
  {
    hide Inv, EvapTemperature, TakeRole, Send, Minute, PowerUp, Told, Decided;
    match ev
    case EvapTemperatureChanged(e, t) => EvapTemperatureDecides(c, m, e, t, limit);
    case TestRequested(r) =>
      if r == RequestExitHeaterOn {
        ExitDecides(c, m, limit);
      }
    case RoleChanged(role) => RoleDecides(c, m, role, limit);
    case Background(_, _, _, _) =>
    case Elapse(ms) =>
    case DefrostTimerExpires => TimerDecides(c, m, limit);
    case HeaterMinute(e) => MinuteDecides(c, m, e, limit);
    case PowerCycle(next) => PowerUpDecides(c, m, next);
    case _ => ToldDecides(c, m, ev, limit);
  }

  // ---------------------------------------------------------------- the schedule

  /** At every settled point N is n and no override is pending; no state test request arrives. */
  predicate Undisturbed(c: Config, m: Machine, evs: seq<Event>, n: nat)
    decreases |evs|
  {
    m.rec.nextTypeOverride == DontCare && m.rec.secondaryOnlyBeforeFull == n &&
    (evs != [] ==> !IsStateTest(evs[0]) && Undisturbed(c, Step(c, m, evs[0]), evs[1..], n))
  }

  /** The type of the decision that finds x SecondaryOnly defrosts behind it, counting on past Full ones. */
  function Slot(x: nat, n: nat): DefrostType {
    if x % (n + 1) == n then Full else SecondaryOnly
  }

  /** The next k decisions when count SecondaryOnly defrosts have been made since the last Full one. */
  function Timetable(count: nat, n: nat, k: nat): seq<DefrostType> {
    seq(k, i requires 0 <= i => Slot(count + i, n))
  }

  lemma MulBounds(p: int, d: int)
    requires 0 < p
    ensures d >= 1 ==> p * d >= p
    ensures d <= -1 ==> p * d <= -p
  {}

  lemma ModUnique(x: nat, p: nat, q: nat, r: nat)
    requires 0 < p && r < p && x == p * q + r
    ensures x % p == r
  {
    var d := x / p - q;
    assert p * d == r - x % p;
    MulBounds(p, d);
  }

  lemma ModShift(x: nat, p: nat)
    requires 0 < p
    ensures (x + p) % p == x % p
  {
    var q, r := x / p, x % p;
    assert x + p == p * (q + 1) + r;
    ModUnique(x + p, p, q + 1, r);
  }

  lemma SmallMod(x: nat, p: nat)
    requires x < p
    ensures x % p == x
  {}

  function Next(count: nat, n: nat): nat { if count < n then count + 1 else 0 }

  lemma NextCount(count: nat, i: nat, n: nat)
    requires count <= n
    ensures (Next(count, n) + i) % (n + 1) == (count + (i + 1)) % (n + 1)
  {
    if count == n {
      ModShift(i, n + 1);
      assert count + (i + 1) == i + (n + 1);
    }
  }

  lemma TimetableAdvances(count: nat, n: nat, k: nat)
    requires count <= n
    ensures [if count < n then SecondaryOnly else Full] + Timetable(Next(count, n), n, k) == Timetable(count, n, k + 1)
  {
    SmallMod(count, n + 1);
    var l := [if count < n then SecondaryOnly else Full] + Timetable(Next(count, n), n, k);
    forall i | 0 <= i < k + 1 ensures l[i] == Timetable(count, n, k + 1)[i] {
      if i == 0 {
        assert Timetable(count, n, k + 1)[0] == Slot(count, n);
      } else {
        NextCount(count, i - 1, n);
        assert l[i] == Timetable(Next(count, n), n, k)[i - 1] == Slot(Next(count, n) + (i - 1), n);
        assert Timetable(count, n, k + 1)[i] == Slot(count + i, n);
      }
    }
  }

  /** Where the schedule stands: after prolongs before by the timetable of the count it started from. */
  predicate Scheduled(before: seq<DefrostType>, count: nat, after: seq<DefrostType>, countAfter: nat, n: nat) {
    |before| <= |after| &&
    after == before + Timetable(count, n, |after| - |before|) &&
    countAfter == (count + (|after| - |before|)) % (n + 1)
  }

  lemma ScheduleAdvances(before: seq<DefrostType>, count: nat, after: seq<DefrostType>, countAfter: nat, n: nat)
    requires count <= n
    requires Scheduled(before + [if count < n then SecondaryOnly else Full], Next(count, n), after, countAfter, n)
    ensures Scheduled(before, count, after, countAfter, n)
  {
    var k := |after| - |before| - 1;
    TimetableAdvances(count, n, k);
    NextCount(count, k, n);
  }

  lemma DecisionIsNext(m: Machine, r: Machine, n: nat)
    requires Decided(m, r) && m.rec.nextTypeOverride == DontCare && r.rec.secondaryOnlyBeforeFull == n
    requires m.rec.secondaryOnlyCount <= n
    ensures r.hist.decisions == m.hist.decisions + [if m.rec.secondaryOnlyCount < n then SecondaryOnly else Full]
    ensures r.rec.secondaryOnlyCount == Next(m.rec.secondaryOnlyCount, n)
  {}

  /** In an undisturbed run, whatever else happens and however often power is cycled, the decisions follow the
      timetable: Full exactly when N SecondaryOnly ones have come since the last Full. The count never exceeds N. */
  lemma {:induction false} Schedule(c: Config, m: Machine, evs: seq<Event>, n: nat, limit: nat)
    requires Inv(c, m, limit) && 0 < limit <= 255 && Possible(c, m, evs, limit)
    requires Undisturbed(c, m, evs, n) && m.rec.secondaryOnlyCount <= n
    ensures var r := Run(c, m, evs);
            Scheduled(m.hist.decisions, m.rec.secondaryOnlyCount, r.hist.decisions, r.rec.secondaryOnlyCount, n) &&
            r.rec.secondaryOnlyCount <= n
    decreases |evs|
  {
    if evs == [] {
      SmallMod(m.rec.secondaryOnlyCount, n + 1);
    } else {
      var m1 := Step(c, m, evs[0]);
      var r := Run(c, m1, evs[1..]);
      StepKeeps(c, m, evs[0], limit);
      EveryStepDecides(c, m, evs[0], limit);
      ScheduleStep(m, m1, n);
      Schedule(c, m1, evs[1..], n, limit);
      if !Undecided(m, m1) {
        DecisionIsNext(m, m1, n);
        ScheduleAdvances(m.hist.decisions, m.rec.secondaryOnlyCount, r.hist.decisions, r.rec.secondaryOnlyCount, n);
      }
    }
  }

  lemma ScheduleStep(m: Machine, r: Machine, n: nat)
    requires StepDecides(m, r) && m.rec.nextTypeOverride == DontCare && m.rec.secondaryOnlyCount <= n
    requires r.rec.secondaryOnlyBeforeFull == n
    ensures r.rec.secondaryOnlyCount <= n
  {
    if !Undecided(m, r) {
      DecisionIsNext(m, r, n);
    }
  }

  /** Between two Full decisions of a timetable there are exactly n SecondaryOnly ones. */
  lemma FullDefrostsAreNPlusOneApart(x: nat, n: nat)
    requires Slot(x, n) == Full
    ensures forall y :: x < y <= x + n ==> Slot(y, n) == SecondaryOnly
    ensures Slot(x + n + 1, n) == Full
  {
    var p := n + 1;
    var q := x / p;
    assert x == p * q + n;
    forall y | x < y <= x + n ensures Slot(y, n) == SecondaryOnly {
      assert y == p * (q + 1) + (y - x - 1);
      ModUnique(y, p, q + 1, y - x - 1);
    }
    ModShift(x, p);
  }

  // ---------------------------------------------------------------- disabling

  predicate StaysDisabled(evs: seq<Event>) {
    forall i :: 0 <= i < |evs| ==> evs[i] != DisableChanged(false) && !evs[i].PowerCycle?
  }

  predicate StillDisabled(m: Machine, r: Machine) {
    r.leaf == Disabled && Undecided(m, r) && r.rec.request == RequestNone
  }

  lemma DisabledSend(c: Config, m: Machine, s: Signal)
    requires m.leaf == Disabled && Plain(s) && s != SigEnableDefrost
    ensures Send(c, m, s) == m
  {
    SendIsPlain(c, m, s);
  }

  lemma DisabledTold(c: Config, m: Machine, ev: Event)
    requires m.leaf == Disabled && m.rec.request == RequestNone && ev != DisableChanged(false)
    ensures StillDisabled(m, Told(c, m, ev))
  {
    hide Send, PrechillConditionsAreMet;
    var env := EnvironmentAfter(m.env, ev);
    var s := SignalFor(c, env, ev);
    if s.Some? {
      DisabledSend(c, m.(env := env), s.value);
    }
  }

  lemma DisabledTemperature(c: Config, m: Machine, e: Evaporator, t: int)
    requires m.leaf == Disabled && m.rec.request == RequestNone
    ensures StillDisabled(m, EvapTemperature(c, m, e, t))
  {
    var r := Told(c, m, EvapTemperatureChanged(e, t));
    DisabledTold(c, m, EvapTemperatureChanged(e, t));
    DisabledSend(c, r, SigPrimaryEvaporatorTemperatureChanged(t));
  }

  lemma DisabledRole(c: Config, m: Machine, role: Role)
    requires m.leaf == Disabled && m.rec.request == RequestNone
    ensures StillDisabled(m, TakeRole(c, m, role))
  {
    var m1 := GiveRole(c, m, role);
    DisabledSend(c, m1, SigPrimaryEvaporatorTemperatureChanged(m1.env.evapTemperature.convertible));
  }

  lemma DisabledTest(c: Config, m: Machine, r: TestRequest)
    requires m.leaf == Disabled && m.rec.request == RequestNone
    ensures StillDisabled(m, Test(c, m, r))
  {}

  lemma DisabledStep(c: Config, m: Machine, ev: Event, limit: nat)
    requires Inv(c, m, limit) && 0 < limit <= 255 && m.leaf == Disabled && Enabled(m, ev)
    requires ev != DisableChanged(false) && !ev.PowerCycle?
    ensures StillDisabled(m, Step(c, m, ev))
  {
    match ev
    case TestRequested(r) => DisabledTest(c, m, r);
    case EvapTemperatureChanged(e, t) => DisabledTemperature(c, m, e, t);
    case RoleChanged(role) => DisabledRole(c, m, role);
    case Background(_, _, _, _) =>
    case Elapse(ms) =>
    case HeaterMinute(e) => MinuteCounts(c, m, e, limit);
    case DefrostTimerExpires =>
    case _ => DisabledTold(c, m, ev);
  }

  lemma {:induction false} DisabledRun(c: Config, m: Machine, evs: seq<Event>, limit: nat)
    requires Inv(c, m, limit) && 0 < limit <= 255 && Possible(c, m, evs, limit)
    requires m.leaf == Disabled && StaysDisabled(evs)
    ensures var r := Run(c, m, evs);
            r.leaf == Disabled && Undecided(m, r) && Inv(c, r, limit)
    decreases |evs|
  {
    if evs != [] {
      assert evs[0] != DisableChanged(false) && !evs[0].PowerCycle?;
      StepKeeps(c, m, evs[0], limit);
      DisabledStep(c, m, evs[0], limit);
      DisabledRun(c, Step(c, m, evs[0]), evs[1..], limit);
    }
  }

  /** Disabling from Idle or PostDwell, whatever happens meanwhile, and enabling again decides nothing. */
  lemma DisablingDoesNotAdvance(c: Config, m: Machine, evs: seq<Event>, limit: nat)
    requires Inv(c, m, limit) && 0 < limit <= 255 && (m.leaf == Idle || m.leaf == PostDwell)
    requires StaysDisabled(evs) && Possible(c, Step(c, m, DisableChanged(true)), evs, limit)
    ensures var r := Step(c, Run(c, Step(c, m, DisableChanged(true)), evs), DisableChanged(false));
            r.leaf == Idle && r.hist.decisions == m.hist.decisions &&
            r.rec.secondaryOnlyCount == m.rec.secondaryOnlyCount
  {
    DisablingSteps(c, m, limit);
    var m1 := Step(c, m, DisableChanged(true));
    DisabledRun(c, m1, evs, limit);
    EnablingSteps(c, Run(c, m1, evs), limit);
  }

  lemma DisableIsTold(c: Config, m: Machine)
    requires m.leaf == Idle || m.leaf == PostDwell
    ensures Step(c, m, DisableChanged(true)) == Go(c, m.(skipForDisable := true), Disabled)
  {
    assert m.(env := m.env) == m;
    SendIsPlain(c, m, SigDisableDefrost);
  }

  lemma EnableIsTold(c: Config, m: Machine)
    requires m.leaf == Disabled
    ensures Step(c, m, DisableChanged(false)) == Go(c, m, Idle)
  {
    assert m.(env := m.env) == m;
    SendIsPlain(c, m, SigEnableDefrost);
  }

  lemma DisablingSteps(c: Config, m: Machine, limit: nat)
    requires Inv(c, m, limit) && 0 < limit <= 255 && (m.leaf == Idle || m.leaf == PostDwell)
    ensures var r := Step(c, m, DisableChanged(true));
            r.leaf == Disabled && Undecided(m, r) && Inv(c, r, limit)
  {
    DisableIsTold(c, m);
    hide Step, Go;
    GoKeeps(c, m.(skipForDisable := true), Disabled, limit);
    GoDecides(c, m.(skipForDisable := true), Disabled);
  }

  lemma EnablingSteps(c: Config, m: Machine, limit: nat)
    requires Inv(c, m, limit) && m.leaf == Disabled
    ensures var r := Step(c, m, DisableChanged(false));
            r.leaf == Idle && Undecided(m, r)
  {
    EnableIsTold(c, m);
    GoDecides(c, m, Idle);
    LeaveDecides(c, m);
  }
}
