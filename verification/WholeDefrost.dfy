/**
 A bound on a whole defrost, from leaving Idle to coming back: what it waits and what it heats.
 */
module WholeDefrost {
  import opened Units
  import opened DefrostTypes
  import opened DefrostModel
  import opened DefrostRuns
  import opened DefrostTiming
  import opened DefrostProperties
  import opened HeatInEveryRun

  // ---------------------------------------------------------------- the heat of one defrost

  /** Before its HeaterOn visit a defrost has not heated. */
  lemma {:induction false} ColdBeforeHeaterOn(v: seq<Visit>)
    requires v != [] && Stage(Last(v).leaf) < 4
    ensures Spent(v, true) == 0
    decreases |v|
  {
    if Continues(v) {
      assert Last(v[..|v| - 1]) == v[|v| - 2];
      ColdBeforeHeaterOn(v[..|v| - 1]);
    }
  }

  predicate HeatedAtMost(v: seq<Visit>, most: nat) {
    v != [] && Stage(Last(v).leaf) >= 4 ==> Spent(v, true) <= most
  }

  lemma {:induction false} NewVisitsDoNotHeat(v: seq<Visit>, w: seq<Visit>, most: nat)
    requires v <= w && HeatedAtMost(v, most) && forall i :: |v| <= i < |w| ==> w[i].stayed == 0
    ensures HeatedAtMost(w, most)
    decreases |w|
  {
    if |v| < |w| {
      var u := w[..|w| - 1];
      NewVisitsDoNotHeat(v, u, most);
      if Continues(w) {
        assert Last(u) == w[|w| - 2];
        if Stage(Last(u).leaf) < 4 { ColdBeforeHeaterOn(u); }
      }
    } else {
      assert v == w;
    }
  }

  /** What a defrost has heated in its HeaterOn visit is all it has heated. */
  lemma VisitIsAllTheHeat(v: seq<Visit>)
    requires v != [] && Last(v).leaf == HeaterOn
    ensures Spent(v, true) == Last(v).stayed
  {
    if Continues(v) {
      assert Last(v[..|v| - 1]) == v[|v| - 2];
      ColdBeforeHeaterOn(v[..|v| - 1]);
    }
  }

  predicate VisitLastsAtMost(m: Machine, most: nat) {
    m.leaf == HeaterOn ==> m.hist.visits != [] && Stayed(m) <= most
  }

  predicate VisitsLastAtMost(c: Config, m: Machine, evs: seq<Event>, most: nat)
    decreases |evs|
  {
    VisitLastsAtMost(m, most) && (evs != [] ==> VisitsLastAtMost(c, Step(c, m, evs[0]), evs[1..], most))
  }

  lemma StepHeats(c: Config, m: Machine, ev: Event, most: nat)
    requires Timely(c, m) && HeatedAtMost(m.hist.visits, most) && Enabled(m, ev)
    requires VisitLastsAtMost(Step(c, m, ev), most)
    ensures HeatedAtMost(Step(c, m, ev).hist.visits, most)
  {
    hide VisitIsTimed, DelayWasServed, Step, Spent, NewVisitsOnly;
    var r := Step(c, m, ev);
    StepKeepsTime(c, m, ev);
    if r.leaf == HeaterOn {
      VisitIsAllTheHeat(r.hist.visits);
    } else if ev.Elapse? {
      WaitingDoesNotHeat(c, m, ev.ms, most);
    } else {
      OnlyNewVisits(m, r, most);
    }
  }

  lemma WaitingDoesNotHeat(c: Config, m: Machine, ms: nat, most: nat)
    requires m.hist.visits != [] && Last(m.hist.visits).leaf == m.leaf && HeatedAtMost(m.hist.visits, most)
    ensures Step(c, m, Elapse(ms)).leaf == m.leaf
    ensures m.leaf != HeaterOn ==> HeatedAtMost(Step(c, m, Elapse(ms)).hist.visits, most)
  {
    SpentGrows(m.hist.visits, ms, true);
    hide Spent;
  }

  lemma OnlyNewVisits(m: Machine, r: Machine, most: nat)
    requires NewVisitsOnly(m, r) && HeatedAtMost(m.hist.visits, most)
    ensures HeatedAtMost(r.hist.visits, most)
  {
    hide HeatedAtMost;
    NewVisitsDoNotHeat(m.hist.visits, r.hist.visits, most);
  }

  lemma {:induction false} RunHeats(c: Config, m: Machine, evs: seq<Event>, most: nat)
    requires Timely(c, m) && HeatedAtMost(m.hist.visits, most) && Occurs(c, m, evs)
    requires VisitsLastAtMost(c, m, evs, most)
    ensures HeatedAtMost(Run(c, m, evs).hist.visits, most)
    decreases |evs|
  {
    if evs != [] {
      StepHeats(c, m, evs[0], most);
      StepKeepsTime(c, m, evs[0]);
      hide Step, Timely, HeatedAtMost;
      RunHeats(c, Step(c, m, evs[0]), evs[1..], most);
    }
  }

  /** What bounds the visits of a run from start-up bounds its whole defrosts. */
  lemma WholeDefrost(c: Config, saved: Machine, env: Environment, evs: seq<Event>, limit: nat, most: nat)
    requires saved.hist.visits == [] && Possible(c, PowerUp(c, saved, env), evs, limit)
    requires VisitsLastAtMost(c, PowerUp(c, saved, env), evs, most)
    ensures var m := Run(c, PowerUp(c, saved, env), evs);
            Stage(m.leaf) > 0 ==>
              Spent(m.hist.visits, false) + Spent(m.hist.visits, true) <=
                Allowance(c, Stage(m.leaf)) + if Stage(m.leaf) >= 4 then most else 0
  {
    var m0 := PowerUp(c, saved, env);
    PowerUpIsTimely(c, saved, env);
    NewVisitsDoNotHeat([], m0.hist.visits, most);
    hide PowerUp;
    PossibleOccurs(c, m0, evs, limit);
    RunIsTimely(c, m0, evs);
    RunHeats(c, m0, evs, most);
    var m := Run(c, m0, evs);
    if 0 < Stage(m.leaf) < 4 { ColdBeforeHeaterOn(m.hist.visits); }
  }

  // ---------------------------------------------------------------- runs that heat

  /** Every HeaterOn visit of the run has a type that turns on a heater. */
  predicate AlwaysHeats(c: Config, m: Machine, evs: seq<Event>)
    decreases |evs|
  {
    (m.leaf == HeaterOn ==> TypeHeats(c, m.rec.defrostType)) &&
    (evs != [] ==> AlwaysHeats(c, Step(c, m, evs[0]), evs[1..]))
  }

  lemma {:induction false} TameVisitsAreBounded(c: Config, m: Machine, evs: seq<Event>, limit: nat)
    requires Inv(c, m, limit) && 0 < limit <= 255 && Possible(c, m, evs, limit) && AllTame(c, m, evs)
    requires AlwaysHeats(c, m, evs)
    ensures VisitsLastAtMost(c, m, evs, limit * MSEC_PER_MIN)
    decreases |evs|
  {
    if m.leaf == HeaterOn {
      TypeSelectsAHeater(c, m);
      TimeOfAnOnHeater(c, m, limit);
    }
    if evs != [] {
      StepKeeps(c, m, evs[0], limit);
      hide Step, Inv;
      TameVisitsAreBounded(c, Step(c, m, evs[0]), evs[1..], limit);
    }
  }

  lemma {:induction false} VisitsAreBounded(c: Config, m: Machine, evs: seq<Event>, limit: nat)
    requires Bounds(c, m, limit) && 0 < limit <= 255 && Possible(c, m, evs, limit) && AlwaysHeats(c, m, evs)
    ensures VisitsLastAtMost(c, m, evs, (limit + 1) * MSEC_PER_MIN)
    decreases |evs|
  {
    if m.leaf == HeaterOn {
      TypeSelectsAHeater(c, m);
      OnHeaterBoundsVisit(c, m, limit);
    }
    if evs != [] {
      StepBounds(c, m, evs[0], limit);
      hide Step, Bounds;
      VisitsAreBounded(c, Step(c, m, evs[0]), evs[1..], limit);
    }
  }

  /** A whole defrost, from leaving Idle or resuming after a power cut to coming back, is over in time: preparation,
      prechill, delay, the max-on-time limit, dwell and post-dwell bound it, if the run's types turn on heaters. */
  lemma WholeDefrostIsBounded(c: Config, saved: Machine, env: Environment, evs: seq<Event>, limit: nat)
    requires RunFromPowerUp(c, saved, env, evs, limit) && 0 < limit <= 255
    requires saved.hist.visits == [] && AlwaysHeats(c, PowerUp(c, saved, env), evs)
    ensures var m := Run(c, PowerUp(c, saved, env), evs);
            Stage(m.leaf) > 0 ==>
              Spent(m.hist.visits, false) + Spent(m.hist.visits, true) <=
                Allowance(c, Stage(m.leaf)) + if Stage(m.leaf) >= 4 then limit * MSEC_PER_MIN else 0
  {
    PowerUpEstablishes(c, saved, env, limit);
    hide PowerUp, Inv;
    TameVisitsAreBounded(c, PowerUp(c, saved, env), evs, limit);
    WholeDefrost(c, saved, env, evs, limit, limit * MSEC_PER_MIN);
  }

  /** And with one minute more in every possible run, stranded heaters included. */
  lemma WholeDefrostIsBoundedInEveryRun(c: Config, saved: Machine, env: Environment, evs: seq<Event>, limit: nat)
    requires MaxOnBounded(env, limit) && 0 < limit <= 255 && Possible(c, PowerUp(c, saved, env), evs, limit)
    requires saved.hist.visits == [] && AlwaysHeats(c, PowerUp(c, saved, env), evs)
    ensures var m := Run(c, PowerUp(c, saved, env), evs);
            Stage(m.leaf) > 0 ==>
              Spent(m.hist.visits, false) + Spent(m.hist.visits, true) <=
                Allowance(c, Stage(m.leaf)) + if Stage(m.leaf) >= 4 then (limit + 1) * MSEC_PER_MIN else 0
  {
    PowerUpBounds(c, saved, env, limit);
    hide PowerUp, Bounds;
    VisitsAreBounded(c, PowerUp(c, saved, env), evs, limit);
    WholeDefrost(c, saved, env, evs, limit, (limit + 1) * MSEC_PER_MIN);
  }

  // ---------------------------------------------------------------- which runs heat

  lemma {:induction false} KnownTypesHeat(c: Config, m: Machine, evs: seq<Event>)
    requires Timely(c, m) && Occurs(c, m, evs) && |Fitted(c.platform)| >= 2 && m.rec.defrostType != DontCare
    ensures AlwaysHeats(c, m, evs)
    decreases |evs|
  {
    if evs != [] {
      StepKeepsTime(c, m, evs[0]);
      hide Step, Timely;
      KnownTypesHeat(c, Step(c, m, evs[0]), evs[1..]);
    }
  }

  lemma {:induction false} FullTypesHeat(c: Config, m: Machine, evs: seq<Event>)
    requires Timely(c, m) && Occurs(c, m, evs) && Fitted(c.platform) != {} && OnlyFull(c, m.rec)
    requires forall ev :: ev in evs ==> !AsksForSecondaryOnly(ev)
    ensures AlwaysHeats(c, m, evs)
    decreases |evs|
  {
    if evs != [] {
      StepKeepsTime(c, m, evs[0]);
      hide Step, Timely;
      FullTypesHeat(c, Step(c, m, evs[0]), evs[1..]);
    }
  }

  /** With two evaporators or more every run heats, unless the saved type is the one that is no type. */
  lemma TwoEvaporatorsAlwaysHeat(c: Config, saved: Machine, env: Environment, evs: seq<Event>)
    requires |Fitted(c.platform)| >= 2 && saved.rec.defrostType != DontCare && Occurs(c, PowerUp(c, saved, env), evs)
    ensures AlwaysHeats(c, PowerUp(c, saved, env), evs)
  {
    PowerUpIsTimely(c, saved, env);
    KnownTypesHeat(c, PowerUp(c, saved, env), evs);
  }

  /** With one evaporator every run heats whatever type is saved, if no number of SecondaryOnly defrosts is configured
      and no test asks for one. */
  lemma OneEvaporatorAlwaysHeats(c: Config, saved: Machine, env: Environment, evs: seq<Event>)
    requires c.platform.numberOfEvaporators == 1 && Fitted(c.platform) != {}
    requires OnlyFull(c, saved.rec.(defrostType := Full)) && Occurs(c, PowerUp(c, saved, env), evs)
    requires forall ev :: ev in evs ==> !AsksForSecondaryOnly(ev)
    ensures AlwaysHeats(c, PowerUp(c, saved, env), evs)
  {
    PowerUpIsTimely(c, saved, env);
    PowerUpIsTimely(c, saved.(rec := saved.rec.(defrostType := Full)), env);
    assert PowerUp(c, saved, env) == PowerUp(c, saved.(rec := saved.rec.(defrostType := Full)), env) by {
      TypeIsForcedWithOneEvaporator(c, saved, env);
    }
    hide PowerUp;
    FullTypesHeat(c, PowerUp(c, saved, env), evs);
  }

  lemma TypeIsForcedWithOneEvaporator(c: Config, saved: Machine, env: Environment)
    requires c.platform.numberOfEvaporators == 1
    ensures PowerUp(c, saved, env) == PowerUp(c, saved.(rec := saved.rec.(defrostType := Full)), env)
  {
    hide Arrive, PrimaryFor, SecondaryFor, TooWarmOnPowerUp, ChosenBeforeFull;
    var s1 := saved.(rec := saved.rec.(defrostType := Full));
    assert TypeWithOneEvaporator(c, Partition(c, Blank(saved, env))) ==
           TypeWithOneEvaporator(c, Partition(c, Blank(s1, env)));
  }
}
