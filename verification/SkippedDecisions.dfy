/**
 When a defrost begins without a decision of its type: exactly after a test that asks for Idle in PostDwell.
 */
module SkippedDecisions {
  import opened Options
  import opened DefrostTypes
  import opened DefrostModel
  import opened DefrostRuns
  import opened DefrostTiming
  import opened HeatInEveryRun
  import opened DefrostTable
  import opened DefrostExactly

  predicate IsDefrosting(l: Leaf) { l != Idle && l != Disabled }

  predicate SameType(m: Machine, r: Machine) {
    r.hist.decisions == m.hist.decisions && r.rec.defrostType == m.rec.defrostType &&
    r.rec.secondaryOnlyCount == m.rec.secondaryOnlyCount
  }

  lemma DecisionRecords(c: Config, m: Machine, ev: Event, env: Environment)
    ensures var r := RecordsAfter(c, m, ev, env);
            if Decides(m, ev, Aim(c, m, ev, env)) then r.defrostType == NextType(c, m.rec, env)
            else r.defrostType == m.rec.defrostType && r.secondaryOnlyCount == m.rec.secondaryOnlyCount
  {
    hide Aim, Decides, FaultAfter, AbnormalAfter, AbnormalDefrostsAfter, DefrostsAfter, InvalidAfter, LeavesIdle, NextN;
  }

  /** A defrost that begins from Idle without a test decides its type exactly when no decision is to be skipped. */
  lemma BeginningDecides(c: Config, m: Machine, ev: Event)
    requires Regular(c, m) && Enabled(m, ev) && !ev.PowerCycle? && !ev.TestRequested? && m.leaf == Idle
    requires IsDefrosting(Step(c, m, ev).leaf)
    ensures var r := Step(c, m, ev);
            if m.skipForTest then SameType(m, r)
            else r.hist.decisions == m.hist.decisions + [r.rec.defrostType] &&
                 r.rec.defrostType == NextType(c, m.rec, r.env)
  {
    hide Step, Regular, Enabled;
    StepIsARow(c, m, ev);
    var env := Step(c, m, ev).env;
    BeginningAims(c, m, ev, env);
    DecisionRecords(c, m, ev, env);
    hide IsRead, RecordsAfter, Aim, Settles, TypeAfter, NextType;
  }

  lemma BeginningAims(c: Config, m: Machine, ev: Event, env: Environment)
    requires m.leaf == Idle && !ev.TestRequested? && IsDefrosting(LeadsTo(c, m, ev, env))
    ensures var aim := Aim(c, m, ev, env); aim.Some? && aim != Some(Disabled) && aim != Some(Idle)
  {
    IdleAims(c, m, ev, env);
    hide Aim, KnownFault, CoolsForPrechill, PrechillIsOver;
  }

  /** A run in which no event asks for a state, so that the machine stays as it is. */
  predicate AsksForNothing(c: Config, m: Machine, evs: seq<Event>)
    decreases |evs|
  {
    evs != [] ==>
      var r := Step(c, m, evs[0]);
      Enabled(m, evs[0]) && !evs[0].PowerCycle? && evs[0] != TestRequested(RequestIdle) &&
      Aim(c, m, evs[0], r.env).None? && AsksForNothing(c, r, evs[1..])
  }

  lemma NothingAskedKeepsSkip(c: Config, m: Machine, ev: Event)
    requires Regular(c, m) && Enabled(m, ev) && !ev.PowerCycle? && ev != TestRequested(RequestIdle)
    requires Aim(c, m, ev, Step(c, m, ev).env).None?
    ensures var r := Step(c, m, ev); SameType(m, r) && r.leaf == m.leaf && r.skipForTest == m.skipForTest
  {
    hide Step, Regular, Enabled;
    StepIsARow(c, m, ev);
    DecisionRecords(c, m, ev, Step(c, m, ev).env);
    hide IsRead, RecordsAfter, Aim;
  }

  lemma {:induction false} WaitingKeepsSkip(c: Config, m: Machine, evs: seq<Event>)
    requires Regular(c, m) && Bounds(c, m, 255) && AsksForNothing(c, m, evs)
    ensures var r := Run(c, m, evs);
            Regular(c, r) && SameType(m, r) && r.leaf == m.leaf && r.skipForTest == m.skipForTest
    decreases |evs|
  {
    if evs != [] {
      NothingAskedKeepsSkip(c, m, evs[0]);
      StepIsRegular(c, m, evs[0]);
      hide Step, Regular, Bounds, Enabled;
      WaitingKeepsSkip(c, Step(c, m, evs[0]), evs[1..]);
    }
  }

  lemma IdleTestMarks(c: Config, m: Machine)
    requires Regular(c, m) && m.leaf == PostDwell
    ensures var r := Step(c, m, TestRequested(RequestIdle)); SameType(m, r) && r.leaf == Idle && r.skipForTest
  {
    hide Step, Regular;
    StepIsARow(c, m, TestRequested(RequestIdle));
    DecisionRecords(c, m, TestRequested(RequestIdle), Step(c, m, TestRequested(RequestIdle)).env);
    hide IsRead, RecordsAfter;
  }

  /** A test that asks for Idle in PostDwell makes the next defrost repeat the type of the last one: whatever is read
      while Idle lasts, the defrost that then begins, unless by a test, decides nothing, and the count stands still. */
  lemma IdleTestRepeatsType(c: Config, m: Machine, evs: seq<Event>, ev: Event)
    requires Attainable(c, m) && m.leaf == PostDwell
    requires AsksForNothing(c, Step(c, m, TestRequested(RequestIdle)), evs)
    requires var idle := Run(c, Step(c, m, TestRequested(RequestIdle)), evs);
             Enabled(idle, ev) && !ev.PowerCycle? && !ev.TestRequested? && IsDefrosting(Step(c, idle, ev).leaf)
    ensures SameType(m, Step(c, Run(c, Step(c, m, TestRequested(RequestIdle)), evs), ev))
  {
    AttainableIsRegular(c, m);
    IdleTestMarks(c, m);
    StepIsRegular(c, m, TestRequested(RequestIdle));
    hide Step, Regular, Bounds, Attainable, AsksForNothing, Run;
    var m1 := Step(c, m, TestRequested(RequestIdle));
    WaitingKeepsSkip(c, m1, evs);
    BeginningDecides(c, Run(c, m1, evs), ev);
  }

  /** And nothing else does: exactly what leaves the next decision to be skipped. */
  lemma DecisionIsSkippedExactly(c: Config, m: Machine, ev: Event)
    requires Attainable(c, m) && Enabled(m, ev) && !ev.PowerCycle?
    ensures var r := Step(c, m, ev);
            r.skipForTest <==>
            (m.leaf == PostDwell && ev == TestRequested(RequestIdle)) ||
            (m.skipForTest && ev != TestRequested(RequestIdle) && Aim(c, m, ev, r.env).None?)
  {
    hide Step, Regular, Bounds, Attainable, Enabled;
    AttainableIsRegular(c, m);
    StepIsARow(c, m, ev);
    SkipsInIdle(c, m);
    hide IsRead, RecordsAfter, Aim, LeadsTo;
  }

  lemma SkipsInIdle(c: Config, m: Machine)
    requires Regular(c, m)
    ensures m.skipForTest ==> m.leaf == Idle
  {}
}
