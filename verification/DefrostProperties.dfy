/**
 What the defrost machine guarantees in every run, stated for a reader. The invariant behind
 these statements is in DefrostRuns.
 */
module DefrostProperties {
  import opened Options
  import opened Units
  import opened DefrostTypes
  import opened DefrostModel
  import opened DefrostRuns
  import opened DefrostTiming

  /** A run whose events can happen, with the max-on-times in force within the limit. */
  predicate Possible(c: Config, m: Machine, evs: seq<Event>, limit: nat)
    decreases |evs|
  {
    evs != [] ==> Enabled(m, evs[0]) && Bounded(evs[0], limit) && Possible(c, Step(c, m, evs[0]), evs[1..], limit)
  }

  predicate AllTame(c: Config, m: Machine, evs: seq<Event>)
    decreases |evs|
  {
    evs != [] ==> Tame(m, evs[0]) && AllTame(c, Step(c, m, evs[0]), evs[1..])
  }

  lemma {:induction false} RunKeeps(c: Config, m: Machine, evs: seq<Event>, limit: nat)
    requires Inv(c, m, limit) && 0 < limit <= 255 && Possible(c, m, evs, limit) && AllTame(c, m, evs)
    ensures Inv(c, Run(c, m, evs), limit)
    decreases |evs|
  {
    if evs != [] {
      StepKeeps(c, m, evs[0], limit);
      RunKeeps(c, Step(c, m, evs[0]), evs[1..], limit);
    }
  }

  lemma {:induction false} PossibleOccurs(c: Config, m: Machine, evs: seq<Event>, limit: nat)
    requires Possible(c, m, evs, limit)
    ensures Occurs(c, m, evs)
    decreases |evs|
  {
    hide Step;
    if evs != [] { PossibleOccurs(c, Step(c, m, evs[0]), evs[1..], limit); }
  }

  lemma {:induction false} Appends(c: Config, m: Machine, evs: seq<Event>, more: seq<Event>, limit: nat)
    requires Possible(c, m, evs, limit) && AllTame(c, m, evs)
    requires Possible(c, Run(c, m, evs), more, limit) && AllTame(c, Run(c, m, evs), more)
    ensures Possible(c, m, evs + more, limit) && AllTame(c, m, evs + more)
    ensures Run(c, m, evs + more) == Run(c, Run(c, m, evs), more)
    decreases |evs|
  {
    hide Step;
    if evs == [] {
      assert evs + more == more;
    } else {
      assert (evs + more)[0] == evs[0] && (evs + more)[1..] == evs[1..] + more;
      Appends(c, Step(c, m, evs[0]), evs[1..], more, limit);
    }
  }

  /** Minutes of the convertible heater's counter passing with nothing else happening. */
  function Minutes(k: nat): seq<Event> {
    if k == 0 then [] else [Elapse(MSEC_PER_MIN), HeaterMinute(Convertible)] + Minutes(k - 1)
  }

  lemma NothingHappens(c: Config, m: Machine, limit: nat)
    ensures Possible(c, m, [], limit) && AllTame(c, m, []) && Run(c, m, []) == m
  {}

  /** One event more at the front of a run. */
  lemma Prepends(c: Config, m: Machine, ev: Event, evs: seq<Event>, limit: nat)
    requires Enabled(m, ev) && Bounded(ev, limit) && Tame(m, ev)
    requires Possible(c, Step(c, m, ev), evs, limit) && AllTame(c, Step(c, m, ev), evs)
    ensures Possible(c, m, [ev] + evs, limit) && AllTame(c, m, [ev] + evs)
    ensures Run(c, m, [ev] + evs) == Run(c, Step(c, m, ev), evs)
  {
    hide Step;
    assert ([ev] + evs)[0] == ev && ([ev] + evs)[1..] == evs;
  }

  // ---------------------------------------------------------------- the heater interlock

  /** No heater is voted on outside HeaterOn. */
  predicate Interlock(m: Machine) {
    forall e: Evaporator :: On(m, e) ==> m.leaf == HeaterOn
  }

  lemma InvInterlocks(c: Config, m: Machine, limit: nat)
    requires Inv(c, m, limit)
    ensures Interlock(m)
  {
    CellsHold(c, m);
    forall e: Evaporator | On(m, e) ensures m.leaf == HeaterOn {
      assert CellOk(m, e);
    }
  }

  lemma ArrivalKeepsVotes(c: Config, m: Machine, l: Leaf, e: Evaporator)
    requires l == Idle || l == PrechillPrep || l == Prechill || l == HeaterOnEntry
    ensures var r := Arrive(c, m, l);
            r.heat.At(e).vote == m.heat.At(e).vote &&
            (r.leaf == Idle || r.leaf == PrechillPrep || r.leaf == Prechill || r.leaf == HeaterOnEntry)
    decreases Rank(l)
  {
    var m0 := Come(m, l);
    var m1 := Save(m0, l);
    assert m1.heat.At(e).vote == m.heat.At(e).vote by {
      match e case FreshFood => case Freezer => case Convertible =>
    }
    match l
    case Idle =>
      LeaveIdleFacts(c, m1);
      if m1.rec.request == RequestPrechill {
        ArrivalKeepsVotes(c, Leave(c, m1), PrechillPrep, e);
      } else if m1.rec.request == RequestDefrost {
        ArrivalKeepsVotes(c, Leave(c, m1), HeaterOnEntry, e);
      }
    case PrechillPrep =>
      if AnyKnownThermistorIsInvalid(m0.env) {
        ArrivalKeepsVotes(c, Leave(c, m0), HeaterOnEntry, e);
      } else {
        var m2 := m1.(rec := m1.rec.(dontSkipPrechill := false, request := RequestNone, useAhamTime := false));
        if PrechillConditionsAreMet(c, m2.env) {
          ArrivalKeepsVotes(c, Leave(c, m2), Prechill, e);
        }
      }
    case Prechill =>
      if PrechillMustEnd(c, m1) {
        ArrivalKeepsVotes(c, Leave(c, m1), HeaterOnEntry, e);
      }
    case HeaterOnEntry =>
  }

  lemma StrandedByLeaving(c: Config, m: Machine, e: Evaporator)
    requires Steady(c, m) && m.leaf == HeaterOn && m.rec.defrostType == SecondaryOnly
    requires m.primary.Has(e) && On(m, e)
    ensures On(Go(c, m, Idle), e) && Go(c, m, Idle).leaf != HeaterOn
  {
    PartitionIsDisjointAndCovers(c, m);
    LeaveHeaterOnReleases(c, m);
    assert !Selects(m, e);
    ArrivalKeepsVotes(c, Leave(c, m), Idle, e);
  }

  lemma UntamedTestStrands(c: Config, m: Machine, r: TestRequest, e: Evaporator)
    requires Steady(c, m) && m.leaf == HeaterOn && m.rec.defrostType == SecondaryOnly
    requires IsStateTest(TestRequested(r)) && m.primary.Has(e) && On(m, e)
    ensures On(Test(c, m, r), e) && Test(c, m, r).leaf != HeaterOn
  {
    StateTestIsSent(c, m, r);
    StrandedByLeaving(c, m.(rec := m.rec.(request := r)), e);
  }

  /** A state test request that finds a primary heater on in a SecondaryOnly defrost strands that heater. */
  lemma UntamedStepStrandsHeater(c: Config, m: Machine, ev: Event, limit: nat)
    requires Inv(c, m, limit) && !Tame(m, ev)
    ensures !Interlock(Step(c, m, ev))
  {
    var e: Evaporator :| m.primary.Has(e) && On(m, e);
    UntamedTestStrands(c, m, ev.request, e);
    assert On(Step(c, m, ev), e);
  }

  /** Exactly which steps keep the interlock. */
  lemma InterlockExactly(c: Config, m: Machine, ev: Event, limit: nat)
    requires Inv(c, m, limit) && 0 < limit <= 255 && Enabled(m, ev) && Bounded(ev, limit)
    ensures Interlock(Step(c, m, ev)) <==> Tame(m, ev)
  {
    if Tame(m, ev) {
      StepKeeps(c, m, ev, limit);
      InvInterlocks(c, Step(c, m, ev), limit);
    } else {
      UntamedStepStrandsHeater(c, m, ev, limit);
    }
  }

  predicate InterlockedThroughout(c: Config, m: Machine, evs: seq<Event>)
    decreases |evs|
  {
    Interlock(m) && (evs != [] ==> InterlockedThroughout(c, Step(c, m, evs[0]), evs[1..]))
  }

  /** Exactly which runs keep the interlock from end to end. */
  lemma {:induction false} InterlockedExactlyByTameRuns(c: Config, m: Machine, evs: seq<Event>, limit: nat)
    requires Inv(c, m, limit) && 0 < limit <= 255 && Possible(c, m, evs, limit)
    ensures InterlockedThroughout(c, m, evs) <==> AllTame(c, m, evs)
    decreases |evs|
  {
    InvInterlocks(c, m, limit);
    if evs != [] {
      if Tame(m, evs[0]) {
        StepKeeps(c, m, evs[0], limit);
        InterlockedExactlyByTameRuns(c, Step(c, m, evs[0]), evs[1..], limit);
      } else {
        UntamedStepStrandsHeater(c, m, evs[0], limit);
      }
    }
  }

  lemma RoleChangeInHeaterOn(c: Config, m: Machine, role: Role)
    requires m.leaf == HeaterOn
    ensures Step(c, m, RoleChanged(role)) == GiveRole(c, m, role)
  {
    var m1 := GiveRole(c, m, role);
    HeaterOnSend(c, m1, SigPrimaryEvaporatorTemperatureChanged(m1.env.evapTemperature.convertible));
  }

  /** The failing family: in a SecondaryOnly defrost of a three-evaporator platform, the convertible compartment
      becomes a freezer while its heater is on, and a test request then leaves HeaterOn for Idle. */
  lemma RoleChangeThenTestStrandsHeater(c: Config, m: Machine, limit: nat)
    requires Inv(c, m, limit) && 0 < limit <= 255 && m.leaf == HeaterOn
    requires HasAllCompartments(c.platform) && m.rec.defrostType == SecondaryOnly && On(m, Convertible)
    ensures !Interlock(Step(c, Step(c, m, RoleChanged(AsFreezer)), TestRequested(RequestIdle)))
  {
    RoleKeeps(c, m, AsFreezer, limit);
    RoleChangeInHeaterOn(c, m, AsFreezer);
    UntamedStepStrandsHeater(c, GiveRole(c, m, AsFreezer), TestRequested(RequestIdle), limit);
  }

  /** What start-up finds when power failed during a SecondaryOnly defrost with the heaters on. */
  predicate ResumesSecondaryOnly(c: Config, saved: Machine, env: Environment) {
    HasAllCompartments(c.platform) && env.role == AsFreshFood &&
    saved.recorded == HeaterOn && saved.rec.defrostType == SecondaryOnly && !saved.rec.eepromCleared &&
    !Prepare(c, saved, env).rec.tooWarmOnPowerUp
  }

  lemma PowerUpResumes(c: Config, saved: Machine, env: Environment)
    requires ResumesSecondaryOnly(c, saved, env)
    ensures var m := PowerUp(c, saved, env);
            m.leaf == HeaterOnEntry && m.timer == Some(Delay(c)) && m.rec.defrostType == SecondaryOnly &&
            m.secondary == Slots(Some(FreshFood), Some(Convertible)) && m.env == env &&
            m.heat == Trio(IDLE_CELL, IDLE_CELL, IDLE_CELL)
  {}

  lemma DelayRunsOut(c: Config, m: Machine, limit: nat)
    requires Inv(c, m, limit) && 0 < limit && m.leaf == HeaterOnEntry && m.timer == Some(Delay(c))
    requires m.rec.defrostType == SecondaryOnly && m.secondary == Slots(Some(FreshFood), Some(Convertible))
    requires m.heat == Trio(IDLE_CELL, IDLE_CELL, IDLE_CELL)
    ensures var m1 := Step(c, m, Elapse(Delay(c)));
            var m2 := Step(c, m1, DefrostTimerExpires);
            Enabled(m, Elapse(Delay(c))) && Enabled(m1, DefrostTimerExpires) &&
            Inv(c, m2, limit) && m2.leaf == HeaterOn && m2.rec.defrostType == SecondaryOnly && On(m2, Convertible)
  {
    hide Steady, DelayWasServed, Heating, CountOk, MaxOnBounded, Go, LeafHandles, ParentHandles;
    assert forall e: Evaporator :: m.heat.At(e).ticks == None;
    var m1 := Elapsed(m, Delay(c));
    ElapseKeeps(c, m, Delay(c), limit);
    TimerKeeps(c, m1, limit);
    EntryTurnsOnConvertible(c, m1);
  }

  lemma EntryTurnsOnConvertible(c: Config, m: Machine)
    requires m.leaf == HeaterOnEntry && m.rec.defrostType == SecondaryOnly && m.secondary.Has(Convertible)
    ensures var r := Step(c, m, DefrostTimerExpires);
            r.leaf == HeaterOn && r.rec.defrostType == SecondaryOnly && On(r, Convertible)
  {
    var m1 := Save(Come(m.(timer := None), HeaterOn), HeaterOn);
    VoteChosenSets(m1.heat, m1.rec.defrostType, m1.primary, m1.secondary, Vote(true, true), HeaterOn);
    TimerMoves(c, m.(timer := None));
  }

  /** So the failure is reachable: every such resumed defrost meets it after these four events. */
  lemma StrandingIsReachable(c: Config, saved: Machine, env: Environment, limit: nat)
    requires ResumesSecondaryOnly(c, saved, env) && MaxOnBounded(env, limit) && 0 < limit <= 255
    ensures var m0 := PowerUp(c, saved, env);
            var m1 := Step(c, m0, Elapse(Delay(c)));
            var m2 := Step(c, m1, DefrostTimerExpires);
            var m3 := Step(c, m2, RoleChanged(AsFreezer));
            Enabled(m0, Elapse(Delay(c))) && Enabled(m1, DefrostTimerExpires) &&
            !Interlock(Step(c, m3, TestRequested(RequestIdle)))
  {
    PowerUpEstablishes(c, saved, env, limit);
    PowerUpResumes(c, saved, env);
    DelayRunsOut(c, PowerUp(c, saved, env), limit);
    var m2 := Step(c, Step(c, PowerUp(c, saved, env), Elapse(Delay(c))), DefrostTimerExpires);
    RoleChangeThenTestStrandsHeater(c, m2, limit);
  }

  lemma EntryReleasesLater(c: Config, m: Machine, limit: nat)
    requires Inv(c, m, limit) && 0 < limit && m.leaf == HeaterOnEntry && m.timer == Some(0)
    ensures ReleasesAll(Step(c, m, DefrostTimerExpires))
  {
    var m1 := Save(Come(m.(timer := None), HeaterOn), HeaterOn);
    var r := Step(c, m, DefrostTimerExpires);
    assert r == Arrive(c, m.(timer := None), HeaterOn);
    TurningOnStartsCounters(m1);
    PartitionIsDisjointAndCovers(c, m1);
    assert forall e: Evaporator :: m1.secondary.Has(e) ==> !m1.primary.Has(e);
  }

  /** While the evaporators keep their groups during HeaterOn, every later exit releases every heater. */
  lemma ReleaseIsKept(c: Config, m: Machine, ev: Event, limit: nat)
    requires Inv(c, m, limit) && 0 < limit <= 255 && Enabled(m, ev) && Bounded(ev, limit)
    requires ReleasesAll(m) && KeepsGroups(c, m, ev)
    ensures Tame(m, ev) && ReleasesAll(Step(c, m, ev))
  {
    hide Minute, Send, Test, TakeRole, PowerUp, EvapTemperature, Told, Elapsed;
    StepKeeps(c, m, ev, limit);
    var r := Step(c, m, ev);
    if ev.DefrostTimerExpires? && m.leaf == HeaterOnEntry {
      EntryReleasesLater(c, m, limit);
    } else if r.leaf == HeaterOn {
      assert forall e: Evaporator :: On(r, e) ==> On(m, e) by {
        forall e: Evaporator | On(r, e) ensures On(m, e) {
          match e case FreshFood => case Freezer => case Convertible =>
        }
      }
    }
  }

  /** No role change moves an evaporator between the groups while heaters are on. */
  predicate GroupsFixed(c: Config, m: Machine, evs: seq<Event>)
    decreases |evs|
  {
    evs != [] ==> KeepsGroups(c, m, evs[0]) && GroupsFixed(c, Step(c, m, evs[0]), evs[1..])
  }

  lemma {:induction false} FixedGroupsAreTame(c: Config, m: Machine, evs: seq<Event>, limit: nat)
    requires Inv(c, m, limit) && 0 < limit <= 255 && Possible(c, m, evs, limit)
    requires ReleasesAll(m) && GroupsFixed(c, m, evs)
    ensures AllTame(c, m, evs)
    decreases |evs|
  {
    if evs != [] {
      ReleaseIsKept(c, m, evs[0], limit);
      StepKeeps(c, m, evs[0], limit);
      FixedGroupsAreTame(c, Step(c, m, evs[0]), evs[1..], limit);
    }
  }

  /** Everything that a tame run can reach from a start-up, whatever records it finds saved. */
  ghost predicate Reachable(c: Config, m: Machine, limit: nat) {
    exists saved: Machine, env: Environment, evs: seq<Event> ::
      RunFromPowerUp(c, saved, env, evs, limit) && m == Run(c, PowerUp(c, saved, env), evs)
  }

  /** A possible run from start-up without the test requests that break the interlock. */
  predicate RunFromPowerUp(c: Config, saved: Machine, env: Environment, evs: seq<Event>, limit: nat) {
    MaxOnBounded(env, limit) && Possible(c, PowerUp(c, saved, env), evs, limit) &&
    AllTame(c, PowerUp(c, saved, env), evs)
  }

  lemma ReachableInv(c: Config, m: Machine, limit: nat)
    requires Reachable(c, m, limit) && 0 < limit <= 255
    ensures Inv(c, m, limit)
  {
    var saved: Machine, env: Environment, evs: seq<Event> :|
      RunFromPowerUp(c, saved, env, evs, limit) && m == Run(c, PowerUp(c, saved, env), evs);
    PowerUpEstablishes(c, saved, env, limit);
    RunKeeps(c, PowerUp(c, saved, env), evs, limit);
  }

  /** In particular, a run whose evaporators keep their groups while heaters are on needs no other assumption. */
  lemma FixedGroupsKeepInterlock(c: Config, saved: Machine, env: Environment, evs: seq<Event>, limit: nat)
    requires MaxOnBounded(env, limit) && 0 < limit <= 255
    requires Possible(c, PowerUp(c, saved, env), evs, limit) && GroupsFixed(c, PowerUp(c, saved, env), evs)
    ensures Reachable(c, Run(c, PowerUp(c, saved, env), evs), limit)
    ensures InterlockedThroughout(c, PowerUp(c, saved, env), evs)
  {
    PowerUpEstablishes(c, saved, env, limit);
    FixedGroupsAreTame(c, PowerUp(c, saved, env), evs, limit);
    InterlockedExactlyByTameRuns(c, PowerUp(c, saved, env), evs, limit);
  }

  /** A heater is only ever on in HeaterOn, on a fitted evaporator, with compressor and fans held off. */
  lemma HeatersNeedStillAir(c: Config, m: Machine, limit: nat, e: Evaporator)
    requires Reachable(c, m, limit) && 0 < limit <= 255 && On(m, e)
    ensures m.leaf == HeaterOn && e in Fitted(c.platform) && AirIsStill(CaredLoads(c, m.leaf))
  {
    ReachableInv(c, m, limit);
    CellsHold(c, m);
    PartitionIsDisjointAndCovers(c, m);
    assert CellOk(m, e);
  }

  lemma TimeOfAnOnHeater(c: Config, m: Machine, limit: nat)
    requires Inv(c, m, limit) && m.leaf == HeaterOn
    ensures forall e: Evaporator :: On(m, e) ==>
              m.heat.At(e).ticks.Some? && m.heat.At(e).ticks.value <= MSEC_PER_MIN &&
              Stayed(m) == m.heat.At(e).minutes * MSEC_PER_MIN + m.heat.At(e).ticks.value &&
              m.heat.At(e).minutes < limit
    ensures (exists e: Evaporator :: Selects(m, e)) ==> exists e: Evaporator :: On(m, e)
  {
    CountsHold(c, m, limit);
    assert forall e: Evaporator :: CountOk(c, m, limit, e);
    if exists e: Evaporator :: Selects(m, e) {
      var o: Evaporator :| Covers(m, o) && On(m, o);
    }
  }

  /** With the max-on-time never above limit minutes, no heater and no useful HeaterOn visit outlasts it. */
  lemma HeaterTimeIsBounded(c: Config, m: Machine, limit: nat)
    requires Reachable(c, m, limit) && 0 < limit <= 255 && m.leaf == HeaterOn
    ensures m.hist.visits != []
    ensures (exists e: Evaporator :: Selects(m, e)) ==> Stayed(m) <= limit * MSEC_PER_MIN
    ensures forall e: Evaporator :: On(m, e) ==>
              m.heat.At(e).ticks.Some? && m.heat.At(e).ticks.value <= MSEC_PER_MIN &&
              Stayed(m) == m.heat.At(e).minutes * MSEC_PER_MIN + m.heat.At(e).ticks.value &&
              m.heat.At(e).minutes < limit
  {
    ReachableInv(c, m, limit);
    TimeOfAnOnHeater(c, m, limit);
  }

  /** The eight-bit minute count never wraps: the count a counter publishes is the true one. */
  lemma CounterNeverWraps(c: Config, m: Machine, limit: nat, e: Evaporator)
    requires Reachable(c, m, limit) && 0 < limit <= 255 && Enabled(m, HeaterMinute(e))
    ensures m.leaf == HeaterOn && m.hist.visits != []
    ensures CountMinute(m.heat.At(e)).minutes == m.heat.At(e).minutes + 1
    ensures CountMinute(m.heat.At(e)).minutes * MSEC_PER_MIN == Stayed(m)
  {
    ReachableInv(c, m, limit);
    MinuteCounts(c, m, e, limit);
    CountedCell(m, e, e);
  }

  /** HeaterOn is never idle: if the type selects a heater then a fitted heater is on, so the step that
      turns the last one off is the step that leaves. */
  lemma HeaterOnIsNeverIdle(c: Config, m: Machine, limit: nat)
    requires Reachable(c, m, limit) && 0 < limit <= 255 && m.leaf == HeaterOn
    requires exists e: Evaporator :: Selects(m, e)
    ensures exists e: Evaporator :: e in Fitted(c.platform) && On(m, e)
  {
    ReachableInv(c, m, limit);
    PartitionIsDisjointAndCovers(c, m);
    var e: Evaporator :| Covers(m, e) && On(m, e);
  }

  /** A type that turns on a heater on this platform. */
  predicate TypeHeats(c: Config, t: DefrostType) {
    (t == Full && Fitted(c.platform) != {}) || (t == SecondaryOnly && |Fitted(c.platform)| >= 2)
  }

  /** The condition of the previous lemmas, read from the platform and the type. */
  lemma TypeSelectsAHeater(c: Config, m: Machine)
    requires Partitioned(c, m)
    ensures (exists e: Evaporator :: Selects(m, e)) <==> TypeHeats(c, m.rec.defrostType)
  {
    PartitionIsDisjointAndCovers(c, m);
    var fitted := Fitted(c.platform);
    if m.rec.defrostType == Full {
      if fitted != {} {
        var e :| e in fitted;
        assert Selects(m, e);
      }
    } else if m.rec.defrostType == SecondaryOnly {
      if |fitted| >= 2 {
        assert Selects(m, FreshFood);
      }
    }
  }
}
