/**
 The minute beyond the max-on-time is real: a run from start-up in which the count of a stranded heater is
 about to wrap when HeaterOn is entered again.
 */
module ExtraMinute {
  import opened Options
  import opened Units
  import opened DefrostTypes
  import opened DefrostModel
  import opened DefrostRuns
  import opened DefrostProperties
  import opened AbnormalDefrosts
  import opened EmptyVisits
  import opened StrandedHeater

  // ---------------------------------------------------------------- into HeaterOn again

  lemma OverrideInIdle(c: Config, m: Machine)
    requires CountsInIdle(m)
    ensures var r := Step(c, m, Background(m.env, SecondaryOnly, false, false));
            CountsInIdle(r) && r.env == m.env && r.heat == m.heat && r.rec.nextTypeOverride == SecondaryOnly
  {}

  /** A SecondaryOnly defrost is entered with the convertible heater, now a primary one, still on. */
  lemma StrandedInDefrost(c: Config, m: Machine)
    requires CountsInIdle(m) && m.rec.nextTypeOverride == SecondaryOnly
    requires HasAllCompartments(c.platform) && m.env.role == AsFreezer
    ensures var r := Step(c, m, TestRequested(RequestDefrost));
            r.leaf == HeaterOnEntry && r.timer == Some(Delay(c)) && r.recorded == HeaterOn && r.env == m.env &&
            r.rec.defrostType == SecondaryOnly && r.primary == Slots(Some(Freezer), Some(Convertible)) &&
            r.secondary == Slots(Some(FreshFood), None) && r.heat == ReactAll(m.heat, HeaterOn)
  {
    TestEntersDefrost(c, m);
    StateTestIsSent(c, m, RequestDefrost);
    hide Test, ChosenBeforeFull;
  }

  /** Only the convertible heater's counter runs. */
  predicate CountsOn(m: Machine, ticks: nat) {
    m.leaf == HeaterOn && m.timer.None? && On(m, Convertible) && m.heat.convertible.ticks == Some(ticks) &&
    m.heat.freshFood.ticks == m.heat.freezer.ticks == None && m.hist.visits != [] &&
    m.rec.defrostType == SecondaryOnly
  }

  lemma EnteredAgain(c: Config, m: Machine)
    requires m.leaf == HeaterOnEntry && m.recorded == HeaterOn && m.rec.defrostType == SecondaryOnly
    requires m.primary == Slots(Some(Freezer), Some(Convertible)) && m.secondary == Slots(Some(FreshFood), None)
    requires On(m, Convertible) && !On(m, FreshFood)
    ensures var r := Go(c, m, HeaterOn);
            r.leaf == HeaterOn && r.recorded == HeaterOn && r.timer == None && r.env == m.env &&
            r.rec.defrostType == SecondaryOnly && r.primary == m.primary && r.secondary == m.secondary &&
            On(r, FreshFood) && r.heat.freezer == m.heat.freezer && r.heat.convertible == m.heat.convertible &&
            r.hist.visits != [] && Stayed(r) == 0
  {
    var m1 := Come(m, HeaterOn);
    VoteChosenSets(m1.heat, SecondaryOnly, m1.primary, m1.secondary, Vote(true, true), HeaterOn);
    hide VoteChosen;
  }

  lemma OnAgain(c: Config, m: Machine)
    requires m.leaf == HeaterOnEntry && m.timer == Some(Delay(c)) && m.recorded == HeaterOn
    requires m.rec.defrostType == SecondaryOnly && m.primary == Slots(Some(Freezer), Some(Convertible))
    requires m.secondary == Slots(Some(FreshFood), None) && Delay(c) <= MSEC_PER_MIN
    requires On(m, Convertible) && m.heat.convertible.ticks == Some(0) && !On(m, FreshFood) && !On(m, Freezer)
    requires m.heat.freshFood.ticks == m.heat.freezer.ticks == None
    ensures var m1 := Step(c, m, Elapse(Delay(c)));
            var r := Step(c, m1, DefrostTimerExpires);
            Enabled(m, Elapse(Delay(c))) && Enabled(m1, DefrostTimerExpires) &&
            r.leaf == HeaterOn && r.recorded == HeaterOn && r.timer == None && r.env == m.env &&
            r.rec.defrostType == SecondaryOnly && Covers(r, Convertible) &&
            On(r, FreshFood) && r.heat.freezer.ticks == None &&
            r.heat.convertible == m.heat.convertible.(ticks := Some(Delay(c))) && r.hist.visits != [] && Stayed(r) == 0
  {
    hide Go, Send;
    assert forall e: Evaporator :: e != Convertible ==> m.heat.At(e).ticks == None;
    var m1 := Elapsed(m, Delay(c)).(timer := None);
    TimerMoves(c, m1);
    EnteredAgain(c, m1);
  }

  lemma OthersWarmUp(c: Config, m: Machine)
    requires m.leaf == HeaterOn && m.recorded == HeaterOn && m.timer == None && m.env.evapValid.freshFood
    requires m.rec.defrostType == SecondaryOnly
    requires Covers(m, Convertible) && On(m, Convertible) && On(m, FreshFood) && m.heat.freezer.ticks == None
    requires m.heat.convertible.ticks.Some? && m.hist.visits != []
    ensures var r := Step(c, m, EvapTemperatureChanged(FreshFood, c.data.termination.freshFood));
            CountsOn(r, m.heat.convertible.ticks.value) && r.heat.convertible == m.heat.convertible &&
            r.env.maxOnMinutes == m.env.maxOnMinutes && Stayed(r) == Stayed(m)
  {
    WarmsUp(c, m, FreshFood, Convertible);
    hide Step;
  }

  // ---------------------------------------------------------------- around once and up to the limit

  lemma Waits(c: Config, m: Machine, ticks: nat, ms: nat)
    requires CountsOn(m, ticks) && ticks + ms <= MSEC_PER_MIN
    ensures Enabled(m, Elapse(ms))
    ensures var r := Step(c, m, Elapse(ms));
            CountsOn(r, ticks + ms) && r.env == m.env && Stayed(r) == Stayed(m) + ms &&
            r.heat.convertible.minutes == m.heat.convertible.minutes
  {
    assert forall e: Evaporator :: e != Convertible ==> m.heat.At(e).ticks == None;
  }

  lemma CountsOnward(c: Config, m: Machine)
    requires CountsOn(m, MSEC_PER_MIN) && EightBits(m.heat.convertible.minutes + 1) < m.env.maxOnMinutes.convertible
    ensures Enabled(m, HeaterMinute(Convertible))
    ensures var r := Step(c, m, HeaterMinute(Convertible));
            CountsOn(r, 0) && r.env == m.env && Stayed(r) == Stayed(m) &&
            r.heat.convertible.minutes == EightBits(m.heat.convertible.minutes + 1)
  {
    MinuteInHeaterOn(c, m, Convertible);
    CountedCell(m, Convertible, Convertible);
    hide Minute, HeaterMaxOnTime, AbnormalMinutes;
  }

  lemma {:induction false} CountsBelowLimit(c: Config, m: Machine, k: nat, limit: nat)
    requires CountsOn(m, 0) && m.heat.convertible.minutes + k < m.env.maxOnMinutes.convertible
    ensures Possible(c, m, Minutes(k), limit)
    ensures var r := Run(c, m, Minutes(k));
            CountsOn(r, 0) && Stayed(r) == Stayed(m) + k * MSEC_PER_MIN
    decreases k
  {
    hide Step, CountsOn, Possible, Run;
    if k == 0 {
      NothingHappens(c, m, limit);
      assert Minutes(k) == [];
    } else {
      Waits(c, m, 0, MSEC_PER_MIN);
      var m1 := Step(c, m, Elapse(MSEC_PER_MIN));
      CountsOnward(c, m1);
      var m2 := Step(c, m1, HeaterMinute(Convertible));
      CountsBelowLimit(c, m2, k - 1, limit);
      PrependsPossible(c, m1, HeaterMinute(Convertible), Minutes(k - 1), limit);
      PrependsPossible(c, m, Elapse(MSEC_PER_MIN), [HeaterMinute(Convertible)] + Minutes(k - 1), limit);
      assert Minutes(k) == [Elapse(MSEC_PER_MIN)] + ([HeaterMinute(Convertible)] + Minutes(k - 1));
    }
  }

  lemma {:induction false} AppendsPossible(c: Config, m: Machine, evs: seq<Event>, more: seq<Event>, limit: nat)
    requires Possible(c, m, evs, limit) && Possible(c, Run(c, m, evs), more, limit)
    ensures Possible(c, m, evs + more, limit) && Run(c, m, evs + more) == Run(c, Run(c, m, evs), more)
    decreases |evs|
  {
    hide Step;
    if evs == [] {
      assert evs + more == more;
    } else {
      assert (evs + more)[0] == evs[0] && (evs + more)[1..] == evs[1..] + more;
      AppendsPossible(c, Step(c, m, evs[0]), evs[1..], more, limit);
    }
  }

  // ---------------------------------------------------------------- the run

  /** HeaterOn is entered again, the other heater warms up at once, and the count goes around and up to the limit. */
  function AroundOnce(c: Config, env: Environment, limit: nat): seq<Event>
    requires 0 < limit && Delay(c) <= MSEC_PER_MIN
  {
    [Background(env, SecondaryOnly, false, false)] + ([TestRequested(RequestDefrost)] + ([Elapse(Delay(c))] +
    ([DefrostTimerExpires] + ([EvapTemperatureChanged(FreshFood, c.data.termination.freshFood)] +
    ([Elapse(MSEC_PER_MIN - Delay(c))] + ([HeaterMinute(Convertible)] +
    (Minutes(limit - 1) + [Elapse(MSEC_PER_MIN)])))))))
  }

  lemma UpToLimit(c: Config, m: Machine, limit: nat)
    requires CountsOn(m, 0) && m.heat.convertible.minutes == 0 && 0 < limit == m.env.maxOnMinutes.convertible
    ensures var evs := Minutes(limit - 1) + [Elapse(MSEC_PER_MIN)];
            Possible(c, m, evs, limit) &&
            CountsOn(Run(c, m, evs), MSEC_PER_MIN) && Stayed(Run(c, m, evs)) == Stayed(m) + limit * MSEC_PER_MIN
  {
    hide Step, CountsOn, Possible, Run;
    CountsBelowLimit(c, m, limit - 1, limit);
    var r := Run(c, m, Minutes(limit - 1));
    Waits(c, r, 0, MSEC_PER_MIN);
    NothingHappens(c, Step(c, r, Elapse(MSEC_PER_MIN)), limit);
    PrependsPossible(c, r, Elapse(MSEC_PER_MIN), [], limit);
    assert [Elapse(MSEC_PER_MIN)] + [] == [Elapse(MSEC_PER_MIN)];
    AppendsPossible(c, m, Minutes(limit - 1), [Elapse(MSEC_PER_MIN)], limit);
  }

  lemma FromHeaterOn(c: Config, m: Machine, limit: nat)
    requires CountsOn(m, Delay(c)) && Delay(c) <= MSEC_PER_MIN && m.heat.convertible.minutes == 255
    requires 0 < limit == m.env.maxOnMinutes.convertible
    ensures var evs := [Elapse(MSEC_PER_MIN - Delay(c))] + ([HeaterMinute(Convertible)] +
                       (Minutes(limit - 1) + [Elapse(MSEC_PER_MIN)]));
            Possible(c, m, evs, limit) && CountsOn(Run(c, m, evs), MSEC_PER_MIN) &&
            Stayed(Run(c, m, evs)) == Stayed(m) + (limit + 1) * MSEC_PER_MIN - Delay(c)
  {
    hide Step, CountsOn, Possible, Run;
    Waits(c, m, Delay(c), MSEC_PER_MIN - Delay(c));
    var m1 := Step(c, m, Elapse(MSEC_PER_MIN - Delay(c)));
    assert EightBits(256) == 0;
    CountsOnward(c, m1);
    var m2 := Step(c, m1, HeaterMinute(Convertible));
    UpToLimit(c, m2, limit);
    var rest := Minutes(limit - 1) + [Elapse(MSEC_PER_MIN)];
    PrependsPossible(c, m1, HeaterMinute(Convertible), rest, limit);
    PrependsPossible(c, m, Elapse(MSEC_PER_MIN - Delay(c)), [HeaterMinute(Convertible)] + rest, limit);
  }

  lemma FromIdle(c: Config, m: Machine, limit: nat)
    requires CountsInIdle(m) && m.heat.convertible.minutes == 255 && HasAllCompartments(c.platform)
    requires m.env.role == AsFreezer && m.env.evapValid.freshFood && MaxOnBounded(m.env, limit)
    requires 0 < limit == m.env.maxOnMinutes.convertible && Delay(c) <= MSEC_PER_MIN
    ensures var evs := AroundOnce(c, m.env, limit);
            Possible(c, m, evs, limit) && CountsOn(Run(c, m, evs), MSEC_PER_MIN) &&
            Stayed(Run(c, m, evs)) == (limit + 1) * MSEC_PER_MIN - Delay(c)
  {
    hide Step, Possible, Run, CountsInIdle, CountsOn;
    var e1, e2, e3 := Background(m.env, SecondaryOnly, false, false), TestRequested(RequestDefrost), Elapse(Delay(c));
    var e5 := EvapTemperatureChanged(FreshFood, c.data.termination.freshFood);
    OverrideInIdle(c, m);
    var m1 := Step(c, m, e1);
    StrandedInDefrost(c, m1);
    var m2 := Step(c, m1, e2);
    ReactingInIdle(c, m1);
    OnAgain(c, m2);
    var m3 := Step(c, m2, e3);
    var m4 := Step(c, m3, DefrostTimerExpires);
    OthersWarmUp(c, m4);
    var m5 := Step(c, m4, e5);
    FromHeaterOn(c, m5, limit);
    var rest := [Elapse(MSEC_PER_MIN - Delay(c))] + ([HeaterMinute(Convertible)] +
                (Minutes(limit - 1) + [Elapse(MSEC_PER_MIN)]));
    PrependsPossible(c, m4, e5, rest, limit);
    PrependsPossible(c, m3, DefrostTimerExpires, [e5] + rest, limit);
    PrependsPossible(c, m2, e3, [DefrostTimerExpires] + ([e5] + rest), limit);
    PrependsPossible(c, m1, e2, [e3] + ([DefrostTimerExpires] + ([e5] + rest)), limit);
    PrependsPossible(c, m, e1, [e2] + ([e3] + ([DefrostTimerExpires] + ([e5] + rest))), limit);
  }

  lemma ReactingInIdle(c: Config, m: Machine)
    requires CountsInIdle(m)
    ensures var h := ReactAll(m.heat, HeaterOn);
            h.convertible == m.heat.convertible.(ticks := Some(0)) && h.convertible.vote.value &&
            h.freshFood.ticks == h.freezer.ticks == None && !h.freshFood.vote.value && !h.freezer.vote.value
  {}

  /** The limit alone does not bound a HeaterOn visit in every possible run, and the minute more is needed in full but
      for the delay: this run from start-up has a visit of that length whose type turns on a heater. */
  lemma ExtraMinuteIsNeeded(c: Config, saved: Machine, env: Environment, limit: nat)
    requires ResumesSecondaryOnly(c, saved, env) && MaxOnBounded(env, limit) && env.evapValid.freshFood
    requires 0 < limit == env.maxOnMinutes.convertible && Delay(c) <= MSEC_PER_MIN
    ensures var evs := (UntilStranded(c) + Minutes(255)) + AroundOnce(c, env.(role := AsFreezer), limit);
            Possible(c, PowerUp(c, saved, env), evs, limit) &&
            var m := Run(c, PowerUp(c, saved, env), evs);
            m.leaf == HeaterOn && TypeHeats(c, m.rec.defrostType) && m.hist.visits != [] &&
            Stayed(m) == (limit + 1) * MSEC_PER_MIN - Delay(c)
  {
    hide PowerUp, Possible, Run, Step;
    StrandedHeaterTimeIsUnbounded(c, saved, env, limit, 255);
    var m := Run(c, PowerUp(c, saved, env), UntilStranded(c) + Minutes(255));
    FromIdle(c, m, limit);
    AppendsPossible(c, PowerUp(c, saved, env), UntilStranded(c) + Minutes(255), AroundOnce(c, m.env, limit), limit);
    assert |Fitted(c.platform)| == 3;
  }
}
