/**
 The invariant of the defrost machine behind the heater interlock and the bound on heater time, kept
 by every tame step.
 */
module DefrostRuns {
  import opened Options
  import opened Units
  import opened DefrostTypes
  import opened DefrostModel

  // ---------------------------------------------------------------- runs

  /** Time cannot pass an armed timer, and a timer fires when its time is up. */
  predicate Enabled(m: Machine, ev: Event) {
    match ev
    case Elapse(ms) =>
      (m.timer.Some? ==> ms <= m.timer.value) &&
      (forall e: Evaporator :: m.heat.At(e).ticks.Some? ==> m.heat.At(e).ticks.value + ms <= MSEC_PER_MIN)
    case DefrostTimerExpires => m.timer == Some(0)
    case HeaterMinute(e) => m.heat.At(e).ticks == Some(MSEC_PER_MIN)
    case _ => true
  }

  function Run(c: Config, m: Machine, evs: seq<Event>): Machine
    decreases |evs|
  {
    if evs == [] then m else Run(c, Step(c, m, evs[0]), evs[1..])
  }

  predicate On(m: Machine, e: Evaporator) { m.heat.At(e).vote.value }

  predicate Timed(l: Leaf) {
    l == PrechillPrep || l == Prechill || l == HeaterOnEntry || l == Dwell || l == PostDwell
  }

  // ---------------------------------------------------------------- the partition

  predicate Partitioned(c: Config, m: Machine) {
    m.primary == PrimaryFor(c.platform, m.env.role, NO_SLOTS) &&
    m.secondary == SecondaryFor(c.platform, m.env.role, NO_SLOTS)
  }

  /** The evaporators a platform is fitted with. */
  function Fitted(p: Platform): set<Evaporator> {
    if HasAllCompartments(p) then {FreshFood, Freezer, Convertible}
    else if p.numberOfEvaporators == 2 then {FreshFood, Freezer}
    else if p.numberOfEvaporators == 1 && p.hasFreezer then {Freezer}
    else if p.numberOfEvaporators == 1 && p.hasFreshFood then {FreshFood}
    else {}
  }

  lemma PartitionIsDisjointAndCovers(c: Config, m: Machine)
    requires Partitioned(c, m)
    ensures forall e: Evaporator :: !(m.primary.Has(e) && m.secondary.Has(e))
    ensures forall e: Evaporator :: Covers(m, e) <==> e in Fitted(c.platform)
  {
    forall e: Evaporator
      ensures !(m.primary.Has(e) && m.secondary.Has(e))
      ensures Covers(m, e) <==> e in Fitted(c.platform)
    {
      match e case FreshFood => case Freezer => case Convertible =>
    }
  }

  // ---------------------------------------------------------------- the invariant

  predicate Sane(h: HeaterCell) { !h.vote.value ==> h.ticks == None }
  predicate Resting(h: HeaterCell) { !h.vote.value && h.ticks == None && h.minutes == 0 }

  predicate CellOk(m: Machine, e: Evaporator) {
    if m.leaf != HeaterOn then Resting(m.heat.At(e))
    else Sane(m.heat.At(e)) && (On(m, e) ==> m.heat.At(e).ticks.Some? && Covers(m, e) && m.rec.defrostType != DontCare)
  }

  /** What holds of a machine that is about to leave its state. */
  predicate Steady(c: Config, m: Machine) {
    m.recorded == Recorded(m.leaf) &&
    Partitioned(c, m) &&
    CellOk(m, FreshFood) && CellOk(m, Freezer) && CellOk(m, Convertible) &&
    (m.timer.Some? ==> Timed(m.leaf)) &&
    m.hist.visits != [] && m.hist.visits[|m.hist.visits| - 1].leaf == m.leaf
  }

  function Stayed(m: Machine): nat
    requires m.hist.visits != []
  {
    m.hist.visits[|m.hist.visits| - 1].stayed
  }

  function Delay(c: Config): nat { c.data.heaterOnDelaySeconds * MSEC_PER_SEC }

  /** How long a timed state may last. */
  function Period(c: Config, m: Machine): nat {
    match m.leaf
    case PrechillPrep => c.data.maxPrechillPrepMinutes * MSEC_PER_MIN
    case Prechill =>
      MSEC_PER_MIN * if m.rec.defrostType == SecondaryOnly then c.data.maxPrechillSecondaryOnlyMinutes
                     else c.data.maxPrechillMinutes
    case HeaterOnEntry => Delay(c)
    case Dwell => c.data.dwellMinutes * MSEC_PER_MIN
    case PostDwell =>
      MSEC_PER_MIN * if m.rec.defrostType == SecondaryOnly then c.data.postDwellSecondaryOnlyMinutes
                     else c.data.postDwellMinutes
    case _ => 0
  }

  /** The timer holds what is left of the visit; Prechill is credited with time the conditions were met before it. */
  predicate VisitIsTimed(c: Config, m: Machine)
    requires m.hist.visits != []
  {
    Timed(m.leaf) ==>
      m.timer.Some? && m.timer.value + Stayed(m) <= Period(c, m) &&
      (m.leaf != Prechill ==> m.timer.value + Stayed(m) == Period(c, m))
  }

  /** The visit before a HeaterOn visit was HeaterOnEntry and lasted the whole delay. */
  predicate DelayWasServed(c: Config, m: Machine) {
    m.leaf == HeaterOn ==>
      |m.hist.visits| >= 2 && m.hist.visits[|m.hist.visits| - 2] == Visit(HeaterOnEntry, Delay(c))
  }

  /** HeaterOn is never idle when the defrost type selects a heater. */
  predicate Heating(m: Machine) {
    m.leaf == HeaterOn && (exists e: Evaporator :: Selects(m, e)) ==> exists e: Evaporator :: Covers(m, e) && On(m, e)
  }

  function OtherRole(role: Role): Role { if role == AsFreshFood then AsFreezer else AsFreshFood }

  /** A threshold is met by a published count, which is at least one, short of the max-on-time. */
  function Met(threshold: nat, limit: nat, minutes: nat): nat {
    if 0 < threshold <= minutes && threshold < limit then 1 else 0
  }

  /** How many thresholds of the roles in force in this visit a count has met. */
  function Passed(c: Config, m: Machine, limit: nat, e: Evaporator, minutes: nat): nat {
    var now := AbnormalMinutes(c, m.env.role, e);
    var other := AbnormalMinutes(c, OtherRole(m.env.role), e);
    Met(now, limit, minutes) + if m.hist.roleChanged && other != now then Met(other, limit, minutes) else 0
  }

  predicate CountOk(c: Config, m: Machine, limit: nat, e: Evaporator)
    requires m.hist.visits != []
  {
    m.leaf == HeaterOn ==>
      (On(m, e) ==> m.heat.At(e).ticks.Some? && m.heat.At(e).ticks.value <= MSEC_PER_MIN &&
                    m.heat.At(e).minutes * MSEC_PER_MIN + m.heat.At(e).ticks.value == Stayed(m) &&
                    m.heat.At(e).minutes < limit) &&
      m.hist.abnormalFired.At(e) <= Passed(c, m, limit, e, m.heat.At(e).minutes) && Remembered(m, m.rec, e) &&
      (m.heat.At(e).minutes > 0 ==> Covers(m, e))
  }

  /** A heater that was declared abnormal in this visit, and whose threshold has not changed, is on record. */
  predicate Remembered(m: Machine, r: Records, e: Evaporator) {
    (e != Convertible || !m.hist.roleChanged) && m.hist.abnormalFired.At(e) > 0 ==> r.wasAbnormal.At(e)
  }

  predicate MaxOnBounded(env: Environment, limit: nat) {
    env.maxOnMinutes.freshFood <= limit && env.maxOnMinutes.freezer <= limit && env.maxOnMinutes.convertible <= limit
  }

  /** The invariant of settled machines; limit bounds the max-on-time in force. */
  predicate Inv(c: Config, m: Machine, limit: nat) {
    Steady(c, m) &&
    (Timed(m.leaf) ==> m.timer.Some?) &&
    m.rec.request == RequestNone &&
    (m.skipForDisable ==> m.leaf == Disabled) &&
    VisitIsTimed(c, m) && DelayWasServed(c, m) && Heating(m) &&
    CountOk(c, m, limit, FreshFood) && CountOk(c, m, limit, Freezer) && CountOk(c, m, limit, Convertible) &&
    MaxOnBounded(m.env, limit)
  }

  // ---------------------------------------------------------------- leaving

  /** Cells between two states: nothing is on any more. */
  predicate Quiet(h: HeaterCell) { !h.vote.value && h.ticks == None }
  predicate Released(m: Machine) { Quiet(m.heat.freshFood) && Quiet(m.heat.freezer) && Quiet(m.heat.convertible) }
  predicate AllSane(m: Machine) { Sane(m.heat.freshFood) && Sane(m.heat.freezer) && Sane(m.heat.convertible) }

  /** A HeaterOn exit releases every heater unless a SecondaryOnly defrost has a primary heater on. */
  predicate ReleasesAll(m: Machine) {
    m.leaf == HeaterOn && m.rec.defrostType == SecondaryOnly ==>
      SlotIsOff(m.heat, m.primary.e0) && SlotIsOff(m.heat, m.primary.e1)
  }

  predicate Zero(m: Machine) {
    m.heat.freshFood.minutes == 0 && m.heat.freezer.minutes == 0 && m.heat.convertible.minutes == 0
  }

  /** Outside HeaterOn a counter whose heater is off has been reset. */
  predicate ZeroWhenOff(m: Machine) {
    (!m.heat.freshFood.vote.value ==> m.heat.freshFood.minutes == 0) &&
    (!m.heat.freezer.vote.value ==> m.heat.freezer.minutes == 0) &&
    (!m.heat.convertible.vote.value ==> m.heat.convertible.minutes == 0)
  }

  function VotedIf(h: Heaters, chosen: bool, e: Evaporator, v: Vote<bool>, recorded: Leaf): HeaterCell {
    if chosen then VoteCell(h.At(e), v, recorded) else h.At(e)
  }

  lemma VoteSlotsSets(h: Heaters, s: Slots, v: Vote<bool>, recorded: Leaf)
    ensures VoteSlots(h, s, v, recorded) ==
            Trio(VotedIf(h, s.Has(FreshFood), FreshFood, v, recorded),
                 VotedIf(h, s.Has(Freezer), Freezer, v, recorded),
                 VotedIf(h, s.Has(Convertible), Convertible, v, recorded))
  {}

  /** A vote for the heaters a type chooses sets exactly those cells, whatever slots they sit in. */
  lemma VoteChosenSets(h: Heaters, t: DefrostType, p: Slots, s: Slots, v: Vote<bool>, recorded: Leaf)
    ensures VoteChosen(h, t, p, s, v, recorded) ==
            Trio(VotedIf(h, Chosen(t, p, s, FreshFood), FreshFood, v, recorded),
                 VotedIf(h, Chosen(t, p, s, Freezer), Freezer, v, recorded),
                 VotedIf(h, Chosen(t, p, s, Convertible), Convertible, v, recorded))
  {
    if t == Full {
      VoteSlotsSets(h, p, v, recorded);
      VoteSlotsSets(VoteSlots(h, p, v, recorded), s, v, recorded);
    } else if t == SecondaryOnly {
      VoteSlotsSets(h, s, v, recorded);
    }
  }

  lemma LeaveHeaterOnReleases(c: Config, m: Machine)
    requires Steady(c, m) && m.leaf == HeaterOn
    ensures var r := Leave(c, m);
            AllSane(r) && (ReleasesAll(m) ==> Released(r)) &&
            r == m.(heat := r.heat, rec := r.rec) && r.rec.request == m.rec.request &&
            r.rec.defrostType == m.rec.defrostType &&
            (forall e: Evaporator :: !Selects(m, e) ==> r.heat.At(e) == m.heat.At(e))
  {
    VoteChosenSets(m.heat, m.rec.defrostType, m.primary, m.secondary, Vote(false, false), m.recorded);
  }

  lemma VoteAllOff(m: Machine, care: bool)
    requires AllSane(m)
    ensures var r := VoteAllHeatersOff(m, care);
            r == m.(heat := r.heat) && Released(r) &&
            (m.recorded != HeaterOn && ZeroWhenOff(m) ==> Zero(r)) &&
            (Zero(m) ==> Zero(r))
  {}

  lemma LeaveReleases(c: Config, m: Machine)
    requires Steady(c, m) && ReleasesAll(m)
    ensures var r := Leave(c, m);
            Released(r) && r.timer == None && r.recorded == m.recorded && r.env == m.env &&
            r.rec.request == m.rec.request && Partitioned(c, r) &&
            (m.leaf != HeaterOn ==> Zero(r)) && r.hist.visits == m.hist.visits &&
            r.skipForDisable == (m.skipForDisable && m.leaf != Disabled)
  {
    if m.leaf == HeaterOn {
      LeaveHeaterOnReleases(c, m);
    } else if m.leaf == Dwell || m.leaf == PostDwell {
      VoteAllOff(m.(timer := None), false);
    } else if m.leaf == Disabled {
      VoteAllOff(m, false);
    }
  }

  lemma LeaveIdleFacts(c: Config, m: Machine)
    ensures var r := LeaveIdle(c, m);
            r.leaf == m.leaf && r.heat == m.heat && r.recorded == m.recorded && r.timer == m.timer && r.env == m.env &&
            r.rec.request == m.rec.request && r.hist.visits == m.hist.visits && r.skipForDisable == m.skipForDisable &&
            (Partitioned(c, m) ==> Partitioned(c, r)) && !r.skipForTest
  {}

  // ---------------------------------------------------------------- arriving

  predicate EndsWithFullDelay(c: Config, m: Machine) {
    m.hist.visits != [] && m.hist.visits[|m.hist.visits| - 1] == Visit(HeaterOnEntry, Delay(c))
  }

  /** What a state needs of the machine that enters it. */
  predicate MayArrive(c: Config, m: Machine, l: Leaf, limit: nat) {
    Partitioned(c, m) && MaxOnBounded(m.env, limit) && m.timer == None &&
    (m.skipForDisable ==> l == Disabled) &&
    (match l
     case Idle => Released(m) && (m.recorded != HeaterOn ==> Zero(m)) && m.rec.request != RequestExitHeaterOn
     case PrechillPrep => Released(m) && Zero(m)
     case Prechill => Released(m) && Zero(m) && m.rec.request == RequestNone
     case HeaterOnEntry => Released(m) && Zero(m)
     case HeaterOn => Released(m) && Zero(m) && m.rec.request == RequestNone && EndsWithFullDelay(c, m) && 0 < limit
     case Dwell => AllSane(m) && (m.recorded != HeaterOn ==> Zero(m))
     case PostDwell => Released(m) && Zero(m) && m.rec.request == RequestNone
     case Disabled => AllSane(m) && (m.recorded != HeaterOn ==> Zero(m)) && m.rec.request == RequestNone)
  }

  lemma SaveReacts(m: Machine, l: Leaf)
    requires AllSane(m) && (m.recorded != HeaterOn ==> ZeroWhenOff(m))
    ensures var r := Save(m, l);
            r == m.(recorded := Recorded(l), heat := r.heat) && AllSane(r) && (Released(m) ==> Released(r)) &&
            (Zero(m) ==> Zero(r)) && (Recorded(l) != HeaterOn ==> ZeroWhenOff(r))
  {}

  /** Turning on the heaters of a defrost type starts a counter at zero for each of them. */
  lemma TurningOnStartsCounters(m: Machine)
    requires Released(m) && Zero(m) && m.recorded == HeaterOn
    ensures var h := VoteSelected(m, true, true).heat;
            forall e: Evaporator ::
              h.At(e) == if Selects(m, e) then HeaterCell(Vote(true, true), 0, Some(0)) else m.heat.At(e)
  {
    VoteChosenSets(m.heat, m.rec.defrostType, m.primary, m.secondary, Vote(true, true), HeaterOn);
    forall e: Evaporator
      ensures VoteSelected(m, true, true).heat.At(e) ==
              if Selects(m, e) then HeaterCell(Vote(true, true), 0, Some(0)) else m.heat.At(e)
    {
      match e case FreshFood => case Freezer => case Convertible =>
    }
  }

  lemma HeatersStart(c: Config, m: Machine, r: Machine, limit: nat, e: Evaporator)
    requires Released(m) && Zero(m) && 0 < limit && r.leaf == HeaterOn && r.hist.visits != [] && Stayed(r) == 0
    requires Selects(r, e) == Selects(m, e) && r.rec.defrostType == m.rec.defrostType && Covers(r, e) == Covers(m, e)
    requires r.heat.At(e) == if Selects(m, e) then HeaterCell(Vote(true, true), 0, Some(0)) else m.heat.At(e)
    requires r.hist.abnormalFired == Trio(0, 0, 0)
    ensures CellOk(r, e) && CountOk(c, r, limit, e) && (Selects(r, e) ==> Covers(r, e) && On(r, e))
  {
    match e case FreshFood => case Freezer => case Convertible =>
  }

  lemma ArriveHeaterOn(c: Config, m: Machine, limit: nat)
    requires MayArrive(c, m, HeaterOn, limit)
    ensures Inv(c, Arrive(c, m, HeaterOn), limit)
  {
    SaveReacts(Come(m, HeaterOn), HeaterOn);
    var m1 := Save(Come(m, HeaterOn), HeaterOn);
    var r := Arrive(c, m, HeaterOn);
    TurningOnStartsCounters(m1);
    assert r.hist.visits == m.hist.visits + [Visit(HeaterOn, 0)];
    HeatersStart(c, m1, r, limit, FreshFood);
    HeatersStart(c, m1, r, limit, Freezer);
    HeatersStart(c, m1, r, limit, Convertible);
    hide CellOk, CountOk, PrimaryFor, SecondaryFor;
    if e: Evaporator :| Selects(r, e) {
      HeatersStart(c, m1, r, limit, e);
    }
  }

  /** The invariant outside HeaterOn, where every heater rests. */
  predicate Outside(c: Config, m: Machine, limit: nat) {
    m.leaf != HeaterOn && m.recorded == Recorded(m.leaf) && Released(m) && Zero(m) &&
    Partitioned(c, m) && (m.timer.Some? <==> Timed(m.leaf)) && m.rec.request == RequestNone &&
    (m.skipForDisable ==> m.leaf == Disabled) &&
    m.hist.visits != [] && m.hist.visits[|m.hist.visits| - 1].leaf == m.leaf &&
    VisitIsTimed(c, m) && MaxOnBounded(m.env, limit)
  }

  lemma OutsideIsInv(c: Config, m: Machine, limit: nat)
    requires Outside(c, m, limit)
    ensures Inv(c, m, limit)
  {}

  lemma ArriveResting(c: Config, m: Machine, l: Leaf, limit: nat)
    requires MayArrive(c, m, l, limit) && (l == Dwell || l == PostDwell || l == Disabled)
    ensures Outside(c, Arrive(c, m, l), limit)
  {
    SaveReacts(Come(m, l), l);
    VoteAllOff(Save(Come(m, l), l), true);
  }

  lemma ArriveHeaterOnEntry(c: Config, m: Machine, limit: nat)
    requires MayArrive(c, m, HeaterOnEntry, limit)
    ensures Outside(c, Arrive(c, m, HeaterOnEntry), limit)
  {
    SaveReacts(Come(m, HeaterOnEntry), HeaterOnEntry);
  }

  lemma ArrivePrechill(c: Config, m: Machine, limit: nat)
    requires MayArrive(c, m, Prechill, limit)
    ensures Outside(c, Arrive(c, m, Prechill), limit)
  {
    SaveReacts(Come(m, Prechill), Prechill);
    var m1 := Save(Come(m, Prechill), Prechill);
    if PrechillMustEnd(c, m1) {
      assert Leave(c, m1) == m1;
      ArriveHeaterOnEntry(c, m1, limit);
    }
  }

  lemma ArrivePrechillPrep(c: Config, m: Machine, limit: nat)
    requires MayArrive(c, m, PrechillPrep, limit)
    ensures Outside(c, Arrive(c, m, PrechillPrep), limit)
  {
    var m0 := Come(m, PrechillPrep);
    if AnyKnownThermistorIsInvalid(m0.env) {
      assert Leave(c, m0) == m0;
      ArriveHeaterOnEntry(c, m0, limit);
    } else {
      SaveReacts(m0, PrechillPrep);
      var m1 := Save(m0, PrechillPrep);
      var m2 := m1.(rec := m1.rec.(dontSkipPrechill := false, request := RequestNone, useAhamTime := false));
      if PrechillConditionsAreMet(c, m2.env) {
        assert Leave(c, m2) == m2;
        ArrivePrechill(c, m2, limit);
      }
    }
  }

  lemma ArriveIdle(c: Config, m: Machine, limit: nat)
    requires MayArrive(c, m, Idle, limit)
    ensures Outside(c, Arrive(c, m, Idle), limit)
  {
    SaveReacts(Come(m, Idle), Idle);
    var m1 := Save(Come(m, Idle), Idle);
    LeaveIdleFacts(c, m1);
    if m1.rec.request == RequestPrechill {
      ArrivePrechillPrep(c, Leave(c, m1), limit);
    } else if m1.rec.request == RequestDefrost {
      ArriveHeaterOnEntry(c, Leave(c, m1), limit);
    }
  }

  lemma ArriveKeeps(c: Config, m: Machine, l: Leaf, limit: nat)
    requires MayArrive(c, m, l, limit)
    ensures Inv(c, Arrive(c, m, l), limit)
    ensures l != HeaterOn ==> Outside(c, Arrive(c, m, l), limit)
  {
    match l
    case Idle => ArriveIdle(c, m, limit); OutsideIsInv(c, Arrive(c, m, l), limit);
    case PrechillPrep => ArrivePrechillPrep(c, m, limit); OutsideIsInv(c, Arrive(c, m, l), limit);
    case Prechill => ArrivePrechill(c, m, limit); OutsideIsInv(c, Arrive(c, m, l), limit);
    case HeaterOnEntry => ArriveHeaterOnEntry(c, m, limit); OutsideIsInv(c, Arrive(c, m, l), limit);
    case HeaterOn => ArriveHeaterOn(c, m, limit);
    case _ => ArriveResting(c, m, l, limit); OutsideIsInv(c, Arrive(c, m, l), limit);
  }

  // ---------------------------------------------------------------- transitions and signals

  predicate RequestFits(r: TestRequest, l: Leaf) {
    match l
    case Idle => r != RequestExitHeaterOn
    case PrechillPrep => true
    case HeaterOnEntry => true
    case Dwell => true
    case _ => r == RequestNone
  }

  /** What a transition needs of the machine that starts it. */
  predicate MayGo(c: Config, m: Machine, l: Leaf, limit: nat) {
    Steady(c, m) && MaxOnBounded(m.env, limit) && RequestFits(m.rec.request, l) && 0 < limit &&
    (m.skipForDisable ==> l == Disabled || m.leaf == Disabled) &&
    (l == HeaterOn ==> m.leaf == HeaterOnEntry && EndsWithFullDelay(c, m)) &&
    (m.leaf == HeaterOn ==> l == Dwell || l == Disabled || (l == Idle && ReleasesAll(m)))
  }

  lemma GoKeeps(c: Config, m: Machine, l: Leaf, limit: nat)
    requires MayGo(c, m, l, limit)
    ensures Inv(c, Go(c, m, l), limit)
    ensures l != HeaterOn ==> Outside(c, Go(c, m, l), limit)
  {
    if ReleasesAll(m) {
      LeaveReleases(c, m);
    }
    if m.leaf == HeaterOn {
      LeaveHeaterOnReleases(c, m);
    }
    ArriveKeeps(c, Leave(c, m), l, limit);
  }

  /** HeaterOn is not newly entered, and a machine that stays in it turns on no further heater. */
  predicate Follows(m: Machine, r: Machine) {
    r.leaf == HeaterOn ==>
      m.leaf == HeaterOn && r.rec.defrostType == m.rec.defrostType && r.primary == m.primary &&
      (On(r, FreshFood) ==> On(m, FreshFood)) && (On(r, Freezer) ==> On(m, Freezer)) &&
      (On(r, Convertible) ==> On(m, Convertible))
  }

  /** Turning one heater off in HeaterOn: the machine stays while another is on, and leaves otherwise. */
  lemma HeaterOffKeeps(c: Config, m: Machine, e: Evaporator, r: Records, limit: nat)
    requires m.leaf == HeaterOn && Steady(c, m) && DelayWasServed(c, m) && !m.skipForDisable
    requires MaxOnBounded(m.env, limit) && 0 < limit
    requires r.request == RequestNone && r.defrostType == m.rec.defrostType && Remembered(m, r, e)
    requires forall o: Evaporator :: o != e ==>
               CountOk(c, m, limit, o) && r.wasAbnormal.At(o) == m.rec.wasAbnormal.At(o)
    requires m.hist.abnormalFired.At(e) <= Passed(c, m, limit, e, m.heat.At(e).minutes)
    requires m.heat.At(e).minutes > 0 ==> Covers(m, e)
    ensures Inv(c, DwellIfAllOff(c, VoteHeater(m, e, false, true).(rec := r)), limit)
    ensures Follows(m, DwellIfAllOff(c, VoteHeater(m, e, false, true).(rec := r)))
  {
    var m2 := VoteHeater(m, e, false, true).(rec := r);
    forall o: Evaporator
      ensures CellOk(m2, o) && CountOk(c, m2, limit, o) && (On(m2, o) ==> On(m, o) && Covers(m2, o))
    {
      HeaterOffCell(c, m, e, r, limit, o);
    }
    assert CellOk(m2, FreshFood) && CellOk(m2, Freezer) && CellOk(m2, Convertible);
    assert CountOk(c, m2, limit, FreshFood) && CountOk(c, m2, limit, Freezer) && CountOk(c, m2, limit, Convertible);
    hide Go, CellOk, CountOk, VoteAt;
    if AllHeatersAreOff(m2) {
      GoKeeps(c, m2, Dwell, limit);
    } else {
      assert exists o: Evaporator :: Covers(m2, o) && On(m2, o);
    }
  }

  lemma HeaterOffCell(c: Config, m: Machine, e: Evaporator, r: Records, limit: nat, o: Evaporator)
    requires m.leaf == HeaterOn && Steady(c, m) && Remembered(m, r, e)
    requires r.defrostType == m.rec.defrostType
    requires o != e ==> CountOk(c, m, limit, o) && r.wasAbnormal.At(o) == m.rec.wasAbnormal.At(o)
    requires m.hist.abnormalFired.At(e) <= Passed(c, m, limit, e, m.heat.At(e).minutes)
    requires m.heat.At(e).minutes > 0 ==> Covers(m, e)
    ensures var m2 := VoteHeater(m, e, false, true).(rec := r);
            CellOk(m2, o) && CountOk(c, m2, limit, o) && (On(m2, o) ==> On(m, o) && Covers(m2, o))
  {
    hide AbnormalMinutes, Met, Partitioned;
    var m2 := VoteHeater(m, e, false, true).(rec := r);
    CellsHold(c, m);
    assert CellOk(m, o);
    assert m2.heat.At(o) == if o == e then VoteCell(m.heat.At(e), Vote(false, true), m.recorded) else m.heat.At(o) by {
      match o case FreshFood => case Freezer => case Convertible =>
    }
  }

  predicate Plain(s: Signal) {
    !s.SigDefrostTimerExpired? && !s.SigStateTestRequest? && !s.SigExitHeaterOnTestRequest? &&
    !s.SigAbnormalHeaterOnTimeReached?
  }

  /** The counters' part of the invariant, for use one evaporator at a time. */
  lemma CountsHold(c: Config, m: Machine, limit: nat)
    requires Inv(c, m, limit)
    ensures forall e: Evaporator :: CountOk(c, m, limit, e)
  {
    forall e: Evaporator ensures CountOk(c, m, limit, e) {
      match e case FreshFood => case Freezer => case Convertible =>
    }
  }

  lemma MaxOnTimeKeeps(c: Config, m: Machine, e: Evaporator, limit: nat)
    requires Inv(c, m, limit) && 0 < limit && m.leaf == HeaterOn
    ensures Inv(c, HeaterMaxOnTime(c, m, e), limit)
    ensures Follows(m, HeaterMaxOnTime(c, m, e))
  {
    hide PrimaryFor, SecondaryFor, VisitIsTimed, Heating, DwellIfAllOff, Met;
    CountsHold(c, m, limit);
    var r := if m.env.evapValid.At(e) then m.rec.(maxTimeFault := m.rec.maxTimeFault.With(e, true))
             else m.rec.(invalidThermistorDuringDefrost := true);
    HeaterOffKeeps(c, m, e, r, limit);
  }

  lemma TemperatureKeeps(c: Config, m: Machine, e: Evaporator, limit: nat)
    requires Inv(c, m, limit) && 0 < limit && m.leaf == HeaterOn
    ensures Inv(c, HeaterTemperature(c, m, e), limit)
    ensures Follows(m, HeaterTemperature(c, m, e))
  {
    hide PrimaryFor, SecondaryFor, VisitIsTimed, Heating, DwellIfAllOff;
    if m.env.evapTemperature.At(e) >= c.data.termination.At(e) {
      CountsHold(c, m, limit);
      var m1 := VoteHeater(m, e, false, true);
      var r := if m1.heat.At(e).minutes < AbnormalMinutes(c, m1.env.role, e)
               then m1.rec.(wasAbnormal := m1.rec.wasAbnormal.With(e, false)) else m1.rec;
      HeaterOffKeeps(c, m, e, r.(maxTimeFault := r.maxTimeFault.With(e, false)), limit);
    }
  }

  /** A plain signal either leaves a machine outside HeaterOn as it is or moves it to one of these states. */
  function PlainTarget(c: Config, m: Machine, s: Signal): Option<Leaf> {
    match m.leaf
    case Idle =>
      if s.SigDisableDefrost? then Some(Disabled)
      else if s.SigReadyToDefrost? || s.SigSabbathDisabled? then IdleReadyTarget(m)
      else if s.SigSabbathIsReady? || s.SigSabbathEnabled? || s.SigEnhancedSabbathRequest? then IdleSabbathTarget(m)
      else None
    case PrechillPrep =>
      if s.SigPrechillConditionsAreMet? then Some(Prechill)
      else if s.SigThermistorIsInvalid? then Some(HeaterOnEntry)
      else if s.SigDisableDefrost? then Some(Disabled)
      else None
    case Prechill =>
      if s.SigThermistorIsInvalid? || s.SigPrechillExitConditionMet? ||
         (s.SigCabinetTemperatureChanged? && CabinetEndsPrechill(c, m.env, s.cabinet)) ||
         (s.SigPrimaryEvaporatorTemperatureChanged? && s.temperature <= c.data.prechillPrimaryExit) then
        Some(HeaterOnEntry)
      else if s.SigDisableDefrost? then Some(Disabled)
      else None
    case PostDwell =>
      if s.SigPrimaryEvaporatorTemperatureChanged? && TemperatureEndsPostDwell(c, m.rec, s.temperature) then Some(Idle)
      else if s.SigDisableDefrost? then Some(Disabled)
      else None
    case Disabled => if s.SigEnableDefrost? then Some(Idle) else None
    case _ => if s.SigDisableDefrost? then Some(Disabled) else None
  }

  /** A disable request in a waiting state also marks the next type decision to be skipped. */
  function Marked(m: Machine, s: Signal): Machine {
    if s.SigDisableDefrost? && (m.leaf == Idle || m.leaf == PostDwell) then m.(skipForDisable := true) else m
  }

  lemma IdleSendIsPlain(c: Config, m: Machine, s: Signal)
    requires Plain(s) && m.leaf == Idle
    ensures var l := PlainTarget(c, m, s);
            Send(c, m, s) == if l.Some? then Go(c, Marked(m, s), l.value) else m
  {}

  lemma PrechillSendIsPlain(c: Config, m: Machine, s: Signal)
    requires Plain(s) && (m.leaf == PrechillPrep || m.leaf == Prechill)
    ensures var l := PlainTarget(c, m, s);
            Send(c, m, s) == if l.Some? then Go(c, Marked(m, s), l.value) else m
  {}

  lemma SendIsPlain(c: Config, m: Machine, s: Signal)
    requires Plain(s) && m.leaf != HeaterOn
    ensures var l := PlainTarget(c, m, s);
            Send(c, m, s) == if l.Some? then Go(c, Marked(m, s), l.value) else m
  {
    match m.leaf
    case Idle => IdleSendIsPlain(c, m, s);
    case PrechillPrep => PrechillSendIsPlain(c, m, s);
    case Prechill => PrechillSendIsPlain(c, m, s);
    case _ =>
  }

  lemma HeaterOnSend(c: Config, m: Machine, s: Signal)
    requires Plain(s) && m.leaf == HeaterOn
    ensures Send(c, m, s) ==
            if s.SigHeaterMaxOnTimeReached? then HeaterMaxOnTime(c, m, s.evap)
            else if s.SigEvaporatorTemperatureChanged? then HeaterTemperature(c, m, s.evap)
            else if s.SigDisableDefrost? then Go(c, m, Disabled)
            else m
  {}

  lemma SendKeeps(c: Config, m: Machine, s: Signal, limit: nat)
    requires Inv(c, m, limit) && 0 < limit && Plain(s)
    ensures Inv(c, Send(c, m, s), limit)
    ensures Follows(m, Send(c, m, s))
  {
    if m.leaf == HeaterOn {
      HeaterOnSend(c, m, s);
      match s
      case SigHeaterMaxOnTimeReached(e) => MaxOnTimeKeeps(c, m, e, limit);
      case SigEvaporatorTemperatureChanged(e) => TemperatureKeeps(c, m, e, limit);
      case SigDisableDefrost => GoKeeps(c, m, Disabled, limit);
      case _ =>
    } else {
      QuietSendKeeps(c, m, s, limit);
    }
  }

  lemma QuietSendKeeps(c: Config, m: Machine, s: Signal, limit: nat)
    requires Inv(c, m, limit) && 0 < limit && Plain(s) && m.leaf != HeaterOn
    ensures Inv(c, Send(c, m, s), limit)
    ensures Follows(m, Send(c, m, s))
  {
    hide Send, Go, CountOk, Heating, VisitIsTimed, DelayWasServed, PrimaryFor, SecondaryFor;
    SendIsPlain(c, m, s);
    var l := PlainTarget(c, m, s);
    if l.Some? {
      GoKeeps(c, Marked(m, s), l.value, limit);
    }
  }

  /** The invariant of a machine in HeaterOn, from facts about one evaporator at a time. */
  lemma HeaterOnParts(c: Config, m: Machine, limit: nat)
    requires m.leaf == HeaterOn && m.recorded == HeaterOn && Partitioned(c, m) && m.timer == None
    requires m.hist.visits != [] && m.hist.visits[|m.hist.visits| - 1].leaf == HeaterOn
    requires m.rec.request == RequestNone && !m.skipForDisable && DelayWasServed(c, m) && MaxOnBounded(m.env, limit)
    requires Heating(m) && forall e: Evaporator :: CellOk(m, e) && CountOk(c, m, limit, e)
    ensures Inv(c, m, limit)
  {
    assert CellOk(m, FreshFood) && CellOk(m, Freezer) && CellOk(m, Convertible);
    assert CountOk(c, m, limit, FreshFood) && CountOk(c, m, limit, Freezer) && CountOk(c, m, limit, Convertible);
  }

  lemma CellsHold(c: Config, m: Machine)
    requires Steady(c, m)
    ensures forall e: Evaporator :: CellOk(m, e)
  {
    forall e: Evaporator ensures CellOk(m, e) {
      match e case FreshFood => case Freezer => case Convertible =>
    }
  }

  /** Heating depends only on which heaters are on, selected and covered. */
  lemma HeatingFrame(m: Machine, r: Machine)
    requires Heating(m) && m.leaf == r.leaf
    requires forall e: Evaporator ::
               Selects(r, e) == Selects(m, e) && Covers(r, e) == Covers(m, e) && On(r, e) == On(m, e)
    ensures Heating(r)
  {
    if r.leaf == HeaterOn && exists e: Evaporator :: Selects(r, e) {
      var e: Evaporator :| Selects(r, e);
      assert Selects(m, e);
      var o: Evaporator :| Covers(m, o) && On(m, o);
      assert Covers(r, o) && On(r, o);
    }
  }

  // ---------------------------------------------------------------- steps

  predicate IsStateTest(ev: Event) {
    ev.TestRequested? && (ev.request == RequestIdle || ev.request == RequestDefrost || ev.request == RequestPrechill)
  }

  /** The steps that keep the interlock: all but a state test request that finds a primary heater on in a
      SecondaryOnly defrost. */
  predicate Tame(m: Machine, ev: Event) {
    m.leaf == HeaterOn && IsStateTest(ev) ==> ReleasesAll(m)
  }

  /** Events keep the max-on-times in force within the limit. */
  predicate Bounded(ev: Event, limit: nat) {
    (ev.Background? || ev.PowerCycle?) ==> MaxOnBounded(ev.next, limit)
  }

  lemma ExitRequestIsSent(c: Config, m: Machine)
    ensures var m1 := m.(rec := m.rec.(request := RequestExitHeaterOn));
            Test(c, m, RequestExitHeaterOn) ==
            if m.leaf == HeaterOnEntry || m.leaf == HeaterOn then Go(c, m1, Dwell) else ClearRequest(m1)
  {
    match m.leaf case Idle => case PostDwell => case Disabled => case PrechillPrep => case Prechill => case _ =>
  }

  lemma ExitRequestKeeps(c: Config, m: Machine, limit: nat)
    requires Inv(c, m, limit) && 0 < limit
    ensures Inv(c, Test(c, m, RequestExitHeaterOn), limit)
    ensures Follows(m, Test(c, m, RequestExitHeaterOn))
  {
    hide Test, Go, CountOk, Heating, VisitIsTimed, DelayWasServed, PrimaryFor, SecondaryFor;
    ExitRequestIsSent(c, m);
    var m1 := m.(rec := m.rec.(request := RequestExitHeaterOn));
    if m.leaf == HeaterOnEntry || m.leaf == HeaterOn {
      GoKeeps(c, m1, Dwell, limit);
    } else {
      assert ClearRequest(m1) == m;
    }
  }

  /** Where a state test request goes: the request itself is read when Idle is entered. */
  function StateTested(c: Config, m: Machine): Machine {
    if m.leaf == Disabled then ClearRequest(m)
    else if m.leaf == Idle || m.leaf == PostDwell then Go(c, m.(skipForTest := true), Idle)
    else Go(c, m, Idle)
  }

  lemma StateTestIsSent(c: Config, m: Machine, r: TestRequest)
    requires IsStateTest(TestRequested(r))
    ensures Test(c, m, r) == StateTested(c, m.(rec := m.rec.(request := r)))
  {
    var m1 := m.(rec := m.rec.(request := r));
    match m.leaf case Idle => case PostDwell => case Disabled => case PrechillPrep => case Prechill => case _ =>
  }

  lemma StateTestKeeps(c: Config, m: Machine, r: TestRequest, limit: nat)
    requires Inv(c, m, limit) && 0 < limit && Tame(m, TestRequested(r)) && IsStateTest(TestRequested(r))
    ensures Inv(c, Test(c, m, r), limit)
    ensures Follows(m, Test(c, m, r))
  {
    hide Test, Go, CountOk, Heating, VisitIsTimed, DelayWasServed, PrimaryFor, SecondaryFor;
    StateTestIsSent(c, m, r);
    var m1 := m.(rec := m.rec.(request := r));
    if m.leaf == Disabled {
      assert ClearRequest(m1) == m;
    } else if m.leaf == Idle || m.leaf == PostDwell {
      GoKeeps(c, m1.(skipForTest := true), Idle, limit);
    } else {
      assert ReleasesAll(m1);
      GoKeeps(c, m1, Idle, limit);
    }
  }

  /** The step does not move an evaporator between the groups while heaters are on. */
  predicate KeepsGroups(c: Config, m: Machine, ev: Event) {
    ev.RoleChanged? && m.leaf == HeaterOn ==> !HasAllCompartments(c.platform)
  }

  lemma TimerKeeps(c: Config, m: Machine, limit: nat)
    requires Inv(c, m, limit) && 0 < limit && m.timer == Some(0)
    ensures Inv(c, Send(c, m.(timer := None), SigDefrostTimerExpired), limit)
    ensures m.leaf != HeaterOnEntry ==> Follows(m, Send(c, m.(timer := None), SigDefrostTimerExpired))
  {
    hide Go, ParentHandles, SlotEndsPostDwell;
    var m1 := m.(timer := None);
    if m.leaf == Dwell {
      GoKeeps(c, m1, Idle, limit);
      GoKeeps(c, m1, PostDwell, limit);
    } else {
      assert m.leaf == HeaterOnEntry ==> EndsWithFullDelay(c, m1);
      TimerMoves(c, m1);
      GoKeeps(c, m1, AfterTimer(m.leaf), limit);
    }
  }

  function AfterTimer(l: Leaf): Leaf {
    match l
    case PrechillPrep => Prechill
    case Prechill => HeaterOnEntry
    case HeaterOnEntry => HeaterOn
    case _ => Idle
  }

  lemma TimerMoves(c: Config, m: Machine)
    requires m.leaf == PrechillPrep || m.leaf == Prechill || m.leaf == HeaterOnEntry || m.leaf == PostDwell
    ensures Send(c, m, SigDefrostTimerExpired) == Go(c, m, AfterTimer(m.leaf))
  {}

  lemma ElapseInHeaterOn(c: Config, m: Machine, ms: nat, limit: nat, e: Evaporator)
    requires Inv(c, m, limit) && Enabled(m, Elapse(ms)) && m.leaf == HeaterOn
    ensures var r := Elapsed(m, ms);
            CellOk(r, e) && CountOk(c, r, limit, e) && On(r, e) == On(m, e) && Covers(r, e) == Covers(m, e) &&
            Selects(r, e) == Selects(m, e)
  {
    assert Stayed(Elapsed(m, ms)) == Stayed(m) + ms;
    assert m.heat.At(e).ticks.Some? ==> m.heat.At(e).ticks.value + ms <= MSEC_PER_MIN;
    CountsHold(c, m, limit);
    assert CountOk(c, m, limit, e);
    CellsHold(c, m);
    assert CellOk(m, e);
    assert Elapsed(m, ms).heat.At(e) == PassTime(m.heat.At(e), ms) by {
      match e case FreshFood => case Freezer => case Convertible =>
    }
  }

  lemma ElapseKeeps(c: Config, m: Machine, ms: nat, limit: nat)
    requires Inv(c, m, limit) && Enabled(m, Elapse(ms))
    ensures Inv(c, Elapsed(m, ms), limit)
    ensures Follows(m, Elapsed(m, ms))
  {
    var r := Elapsed(m, ms);
    if m.leaf == HeaterOn {
      forall e: Evaporator
        ensures CellOk(r, e) && CountOk(c, r, limit, e) && On(r, e) == On(m, e) && Covers(r, e) == Covers(m, e)
        ensures Selects(r, e) == Selects(m, e)
      {
        ElapseInHeaterOn(c, m, ms, limit, e);
      }
      HeatingFrame(m, r);
      HeaterOnParts(c, r, limit);
    } else {
      assert Outside(c, m, limit);
      assert Outside(c, r, limit);
      OutsideIsInv(c, r, limit);
    }
  }

  /** The machine just after a counter's minute, before the controller hears of it. */
  function Counted(m: Machine, e: Evaporator): Machine {
    m.(heat := m.heat.With(e, CountMinute(m.heat.At(e))))
  }

  lemma CountedCell(m: Machine, e: Evaporator, o: Evaporator)
    ensures Counted(m, e).heat.At(o) == if o == e then CountMinute(m.heat.At(e)) else m.heat.At(o)
    ensures On(Counted(m, e), o) == On(m, o) && Selects(Counted(m, e), o) == Selects(m, o)
    ensures Covers(Counted(m, e), o) == Covers(m, o)
  {
    match o case FreshFood => case Freezer => case Convertible =>
  }

  lemma MinuteInHeaterOn(c: Config, m: Machine, e: Evaporator)
    requires m.leaf == HeaterOn
    ensures var m1 := Counted(m, e);
            var minutes := m1.heat.At(e).minutes;
            Minute(c, m, e) ==
            if minutes >= m.env.maxOnMinutes.At(e) then HeaterMaxOnTime(c, m1, e)
            else if minutes == AbnormalMinutes(c, m.env.role, e) then HeaterAbnormal(m1, e)
            else m1
  {
    CountedCell(m, e, e);
  }

  lemma MinuteCounts(c: Config, m: Machine, e: Evaporator, limit: nat)
    requires Inv(c, m, limit) && 0 < limit <= 255 && Enabled(m, HeaterMinute(e))
    ensures var m1 := Counted(m, e);
            m.leaf == HeaterOn && On(m, e) && m1.heat.At(e).minutes == m.heat.At(e).minutes + 1 &&
            m1.heat.At(e).minutes * MSEC_PER_MIN == Stayed(m) && m1.heat.At(e).ticks == Some(0) &&
            m1.hist.abnormalFired.At(e) <= Passed(c, m, limit, e, m.heat.At(e).minutes)
  {
    CountsHold(c, m, limit);
    CellsHold(c, m);
    assert CellOk(m, e) && CountOk(c, m, limit, e);
    CountedCell(m, e, e);
  }

  lemma CountedKeepsCells(c: Config, m: Machine, e: Evaporator, limit: nat)
    requires Inv(c, m, limit) && m.leaf == HeaterOn && On(m, e)
    ensures forall o: Evaporator :: CellOk(Counted(m, e), o) && (o != e ==> CountOk(c, Counted(m, e), limit, o))
    ensures Steady(c, Counted(m, e)) && Heating(Counted(m, e))
  {
    var m1 := Counted(m, e);
    CountsHold(c, m, limit);
    CellsHold(c, m);
    forall o: Evaporator
      ensures CellOk(m1, o) && (o != e ==> CountOk(c, m1, limit, o))
      ensures On(m1, o) == On(m, o) && Selects(m1, o) == Selects(m, o) && Covers(m1, o) == Covers(m, o)
    {
      assert CellOk(m, o) && CountOk(c, m, limit, o);
      CountedCell(m, e, o);
    }
    assert CellOk(m1, FreshFood) && CellOk(m1, Freezer) && CellOk(m1, Convertible);
    HeatingFrame(m, m1);
  }

  lemma MinuteKeeps(c: Config, m: Machine, e: Evaporator, limit: nat)
    requires Inv(c, m, limit) && 0 < limit <= 255 && Enabled(m, HeaterMinute(e))
    ensures Inv(c, Minute(c, m, e), limit)
    ensures Follows(m, Minute(c, m, e))
  {
    MinuteCounts(c, m, e, limit);
    CountedKeepsCells(c, m, e, limit);
    if Counted(m, e).heat.At(e).minutes >= m.env.maxOnMinutes.At(e) {
      LastMinuteKeeps(c, m, e, limit);
    } else {
      EarlierMinuteKeeps(c, m, e, limit);
    }
  }

  lemma LastMinuteKeeps(c: Config, m: Machine, e: Evaporator, limit: nat)
    requires Inv(c, m, limit) && 0 < limit && m.leaf == HeaterOn && Steady(c, Counted(m, e))
    requires Counted(m, e).heat.At(e).minutes >= m.env.maxOnMinutes.At(e)
    requires m.hist.abnormalFired.At(e) <= Passed(c, m, limit, e, Counted(m, e).heat.At(e).minutes)
    requires On(m, e)
    requires forall o: Evaporator :: o != e ==> CountOk(c, Counted(m, e), limit, o)
    ensures Inv(c, Minute(c, m, e), limit)
    ensures Follows(m, Minute(c, m, e))
  {
    hide PrimaryFor, SecondaryFor, VisitIsTimed, Heating, AbnormalMinutes, Met, DwellIfAllOff;
    var m1 := Counted(m, e);
    var r := if m1.env.evapValid.At(e) then m1.rec.(maxTimeFault := m1.rec.maxTimeFault.With(e, true))
             else m1.rec.(invalidThermistorDuringDefrost := true);
    CountedCell(m, e, e);
    MinuteInHeaterOn(c, m, e);
    HeaterOffKeeps(c, m1, e, r, limit);
  }

  lemma CountedKeeps(c: Config, m: Machine, e: Evaporator, limit: nat)
    requires Inv(c, m, limit) && 0 < limit && m.leaf == HeaterOn && On(m, e)
    requires Steady(c, Counted(m, e)) && Heating(Counted(m, e))
    requires m.heat.At(e).minutes + 1 == Counted(m, e).heat.At(e).minutes < m.env.maxOnMinutes.At(e)
    requires Counted(m, e).heat.At(e).ticks == Some(0)
    requires Counted(m, e).heat.At(e).minutes * MSEC_PER_MIN == Stayed(m)
    requires m.hist.abnormalFired.At(e) <= Passed(c, m, limit, e, m.heat.At(e).minutes)
    requires forall o: Evaporator :: CellOk(Counted(m, e), o) && (o != e ==> CountOk(c, Counted(m, e), limit, o))
    ensures Inv(c, Counted(m, e), limit) && m.heat.At(e).minutes + 1 < limit
  {
    hide Heating, VisitIsTimed, PrimaryFor, SecondaryFor;
    var m1 := Counted(m, e);
    CountedCell(m, e, e);
    assert m.env.maxOnMinutes.At(e) <= limit by {
      match e case FreshFood => case Freezer => case Convertible =>
    }
    MoreIsPassed(c, m, limit, e);
    CountsHold(c, m, limit);
    assert CountOk(c, m, limit, e) && CellOk(m1, e);
    assert CountOk(c, m1, limit, e);
    hide CountOk, Passed, CellOk;
    HeaterOnParts(c, m1, limit);
  }

  lemma MoreIsPassed(c: Config, m: Machine, limit: nat, e: Evaporator)
    ensures Passed(c, m, limit, e, m.heat.At(e).minutes) <= Passed(c, Counted(m, e), limit, e, m.heat.At(e).minutes + 1)
  {}

  lemma EarlierMinuteKeeps(c: Config, m: Machine, e: Evaporator, limit: nat)
    requires Inv(c, m, limit) && 0 < limit && m.leaf == HeaterOn && On(m, e)
    requires Steady(c, Counted(m, e)) && Heating(Counted(m, e))
    requires m.heat.At(e).minutes + 1 == Counted(m, e).heat.At(e).minutes < m.env.maxOnMinutes.At(e)
    requires Counted(m, e).heat.At(e).ticks == Some(0)
    requires Counted(m, e).heat.At(e).minutes * MSEC_PER_MIN == Stayed(m)
    requires m.hist.abnormalFired.At(e) <= Passed(c, m, limit, e, m.heat.At(e).minutes)
    requires forall o: Evaporator :: CellOk(Counted(m, e), o) && (o != e ==> CountOk(c, Counted(m, e), limit, o))
    ensures Inv(c, Minute(c, m, e), limit)
    ensures Follows(m, Minute(c, m, e))
  {
    CountedKeeps(c, m, e, limit);
    CountedCell(m, e, e);
    hide Inv, CountOk, CellOk, Steady, Minute, Heating, Passed, CountMinute, HeaterAbnormal;
    MinuteInHeaterOn(c, m, e);
    var m1 := Counted(m, e);
    if m1.heat.At(e).minutes == AbnormalMinutes(c, m1.env.role, e) {
      AbnormalKeeps(c, m, m1, e, limit);
    }
    CountedFollows(m, e);
  }

  lemma CountedFollows(m: Machine, e: Evaporator)
    ensures forall r: Machine :: Follows(Counted(m, e), r) ==> Follows(m, r)
    ensures m.leaf == HeaterOn ==> Follows(m, Counted(m, e))
  {
    CountedCell(m, e, FreshFood);
    CountedCell(m, e, Freezer);
    CountedCell(m, e, Convertible);
  }

  lemma AbnormalCounts(c: Config, m1: Machine, e: Evaporator, limit: nat, o: Evaporator)
    requires m1.hist.visits != [] && CountOk(c, m1, limit, o) && CellOk(m1, o)
    requires o == e ==> m1.hist.abnormalFired.At(e) + 1 <= Passed(c, m1, limit, e, m1.heat.At(e).minutes)
    ensures var r := HeaterAbnormal(m1, e);
            CountOk(c, r, limit, o) && CellOk(r, o) &&
            Covers(r, o) == Covers(m1, o) && On(r, o) == On(m1, o) && Selects(r, o) == Selects(m1, o)
  {
    match o case FreshFood => case Freezer => case Convertible =>
  }

  /** The abnormal event is only counted when the minute count has just reached a threshold. */
  lemma AbnormalKeeps(c: Config, m: Machine, m1: Machine, e: Evaporator, limit: nat)
    requires Inv(c, m1, limit) && m1.leaf == HeaterOn && m.hist == m1.hist && m.env == m1.env
    requires m1.heat.At(e).minutes < limit
    requires m.hist.abnormalFired.At(e) <= Passed(c, m, limit, e, m.heat.At(e).minutes)
    requires m1.heat.At(e).minutes == m.heat.At(e).minutes + 1 == AbnormalMinutes(c, m1.env.role, e)
    ensures Inv(c, HeaterAbnormal(m1, e), limit)
    ensures Follows(m1, HeaterAbnormal(m1, e))
  {
    hide PrimaryFor, SecondaryFor, VisitIsTimed;
    var r := HeaterAbnormal(m1, e);
    CountsHold(c, m1, limit);
    CellsHold(c, m1);
    forall o: Evaporator
      ensures CountOk(c, r, limit, o) && CellOk(r, o)
      ensures Covers(r, o) == Covers(m1, o) && On(r, o) == On(m1, o) && Selects(r, o) == Selects(m1, o)
    {
      assert CountOk(c, m1, limit, o) && CellOk(m1, o);
      AbnormalCounts(c, m1, e, limit, o);
    }
    hide CountOk, CellOk, Passed, AbnormalMinutes;
    HeatingFrame(m1, r);
    HeaterOnParts(c, r, limit);
  }

  lemma RoleKeepsOutside(c: Config, m: Machine, role: Role, limit: nat)
    requires Inv(c, m, limit) && m.leaf != HeaterOn
    ensures Inv(c, GiveRole(c, m, role), limit)
  {
    assert Outside(c, m, limit);
    hide Inv;
    OutsideIsInv(c, GiveRole(c, m, role), limit);
  }

  /** A new role never takes back a threshold that was met. */
  lemma RolePasses(c: Config, m: Machine, role: Role, limit: nat, e: Evaporator, minutes: nat)
    requires m.leaf == HeaterOn
    ensures Passed(c, m, limit, e, minutes) <= Passed(c, GiveRole(c, m, role), limit, e, minutes)
  {
    hide PrimaryFor, SecondaryFor, Met;
  }

  lemma RoleCounts(c: Config, m: Machine, role: Role, limit: nat, e: Evaporator)
    requires Steady(c, m) && m.leaf == HeaterOn && CellOk(m, e) && CountOk(c, m, limit, e)
    requires Covers(GiveRole(c, m, role), e) == Covers(m, e)
    ensures var r := GiveRole(c, m, role); CellOk(r, e) && CountOk(c, r, limit, e)
  {
    RolePasses(c, m, role, limit, e, m.heat.At(e).minutes);
    hide PrimaryFor, SecondaryFor, Partitioned, Passed;
  }

  lemma RoleKeeps(c: Config, m: Machine, role: Role, limit: nat)
    requires Inv(c, m, limit)
    ensures Inv(c, GiveRole(c, m, role), limit)
  {
    if m.leaf != HeaterOn {
      RoleKeepsOutside(c, m, role, limit);
    } else {
      var r := GiveRole(c, m, role);
      assert Partitioned(c, m) && Partitioned(c, r);
      RoleKeepsEach(c, m, role, limit);
      hide CountOk, CellOk, PrimaryFor, SecondaryFor, VisitIsTimed, Partitioned;
      RoleKeepsHeating(c, m, r);
      HeaterOnParts(c, r, limit);
    }
  }

  lemma RoleKeepsEach(c: Config, m: Machine, role: Role, limit: nat)
    requires Inv(c, m, limit) && m.leaf == HeaterOn
    ensures var r := GiveRole(c, m, role);
            forall e: Evaporator :: CellOk(r, e) && CountOk(c, r, limit, e) && Covers(r, e) == Covers(m, e)
  {
    var r := GiveRole(c, m, role);
    CountsHold(c, m, limit);
    CellsHold(c, m);
    PartitionIsDisjointAndCovers(c, m);
    PartitionIsDisjointAndCovers(c, r);
    hide CountOk, CellOk, VisitIsTimed, DelayWasServed, Heating;
    forall e: Evaporator ensures CellOk(r, e) && CountOk(c, r, limit, e) && Covers(r, e) == Covers(m, e) {
      RoleCounts(c, m, role, limit, e);
    }
  }

  /** A new role moves evaporators between the two groups, but never empties what a type selects. */
  lemma RoleKeepsHeating(c: Config, m: Machine, r: Machine)
    requires Partitioned(c, m) && Partitioned(c, r) && Heating(m) && r.leaf == m.leaf
    requires r.rec == m.rec && r.heat == m.heat && forall e: Evaporator :: Covers(r, e) == Covers(m, e)
    ensures Heating(r)
  {
    if r.leaf == HeaterOn && exists e: Evaporator :: Selects(r, e) {
      assert Selects(m, FreshFood) || Selects(m, Freezer);
      var o: Evaporator :| Covers(m, o) && On(m, o);
      assert Covers(r, o) && On(r, o);
    }
  }

  /** Start-up establishes the invariant from any saved records whatever. */
  lemma PowerUpEstablishes(c: Config, m: Machine, env: Environment, limit: nat)
    requires MaxOnBounded(env, limit)
    ensures Inv(c, PowerUp(c, m, env), limit)
    ensures PowerUp(c, m, env).leaf != HeaterOn
  {
    var m1 := Prepare(c, m, env);
    ArriveKeeps(c, m1, InitialLeaf(m1), limit);
  }

  lemma CountFrame(c: Config, m: Machine, r: Machine, limit: nat, e: Evaporator)
    requires m.hist.visits != [] && CountOk(c, m, limit, e)
    requires r.leaf == m.leaf && r.heat == m.heat && r.hist == m.hist && r.env.role == m.env.role
    requires r.primary == m.primary && r.secondary == m.secondary && r.rec.wasAbnormal == m.rec.wasAbnormal
    ensures CountOk(c, r, limit, e)
  {
    hide AbnormalMinutes, Met;
  }

  /** The invariant depends on little of what the controller reads and of its records. */
  lemma InvFrame(c: Config, m: Machine, r: Machine, limit: nat)
    requires Inv(c, m, limit) && r == m.(env := r.env, rec := r.rec)
    requires r.env.role == m.env.role && MaxOnBounded(r.env, limit)
    requires r.rec.request == RequestNone && r.rec.defrostType == m.rec.defrostType
    requires r.rec.wasAbnormal == m.rec.wasAbnormal
    ensures Inv(c, r, limit)
  {
    CountFrame(c, m, r, limit, FreshFood);
    CountFrame(c, m, r, limit, Freezer);
    CountFrame(c, m, r, limit, Convertible);
    HeatingFrame(m, r);
    hide CountOk, Heating, PrimaryFor, SecondaryFor;
  }

  /** Any change of what the controller reads, other than the role, keeps the invariant. */
  lemma EnvironmentKeeps(c: Config, m: Machine, env: Environment, limit: nat)
    requires Inv(c, m, limit) && env.role == m.env.role && MaxOnBounded(env, limit)
    ensures Inv(c, m.(env := env), limit)
  {
    hide Steady, VisitIsTimed, DelayWasServed, Heating, CountOk;
    InvFrame(c, m, m.(env := env), limit);
  }

  lemma ToldSignalIsPlain(c: Config, env: Environment, ev: Event)
    ensures SignalFor(c, env, ev).Some? ==> Plain(SignalFor(c, env, ev).value)
  {
    hide PrechillConditionsAreMet;
  }

  lemma ToldKeeps(c: Config, m: Machine, ev: Event, limit: nat)
    requires Inv(c, m, limit) && 0 < limit
    ensures Inv(c, Told(c, m, ev), limit) && Follows(m, Told(c, m, ev))
  {
    hide Steady, VisitIsTimed, DelayWasServed, Heating, CountOk, Send, PrechillConditionsAreMet;
    var env := EnvironmentAfter(m.env, ev);
    assert env.role == m.env.role && env.maxOnMinutes == m.env.maxOnMinutes;
    EnvironmentKeeps(c, m, env, limit);
    var s := SignalFor(c, env, ev);
    ToldSignalIsPlain(c, env, ev);
    hide EnvironmentAfter, SignalFor;
    if s.Some? {
      SendKeeps(c, m.(env := env), s.value, limit);
    }
  }

  lemma EvapTemperatureKeeps(c: Config, m: Machine, e: Evaporator, t: int, limit: nat)
    requires Inv(c, m, limit) && 0 < limit
    ensures Inv(c, EvapTemperature(c, m, e, t), limit) && Follows(m, EvapTemperature(c, m, e, t))
  {
    ToldKeeps(c, m, EvapTemperatureChanged(e, t), limit);
    SendKeeps(c, Told(c, m, EvapTemperatureChanged(e, t)), SigPrimaryEvaporatorTemperatureChanged(t), limit);
  }

  lemma BackgroundKeeps(c: Config, m: Machine, ev: Event, limit: nat)
    requires Inv(c, m, limit) && ev.Background? && Bounded(ev, limit)
    ensures Inv(c, Step(c, m, ev), limit)
    ensures Follows(m, Step(c, m, ev))
  {
    var m1 := m.(env := Merge(m.env, ev.next));
    EnvironmentKeeps(c, m, Merge(m.env, ev.next), limit);
    RecordsKeep(c, m1, m1.rec.(nextTypeOverride := ev.nextTypeOverride, dontSkipPrechill := ev.dontSkipPrechill,
                               useAhamTime := ev.useAhamTime), limit);
  }

  lemma RecordsKeep(c: Config, m: Machine, r: Records, limit: nat)
    requires Inv(c, m, limit) && r.request == RequestNone && r.defrostType == m.rec.defrostType
    requires r.wasAbnormal == m.rec.wasAbnormal
    ensures Inv(c, m.(rec := r), limit)
  {
    hide Steady, VisitIsTimed, DelayWasServed, Heating, CountOk;
    InvFrame(c, m, m.(rec := r), limit);
  }

  lemma TakeRoleKeeps(c: Config, m: Machine, role: Role, limit: nat)
    requires Inv(c, m, limit) && 0 < limit
    ensures Inv(c, TakeRole(c, m, role), limit)
    ensures KeepsGroups(c, m, RoleChanged(role)) ==> Follows(m, TakeRole(c, m, role))
  {
    RoleKeeps(c, m, role, limit);
    var m1 := GiveRole(c, m, role);
    SendKeeps(c, m1, SigPrimaryEvaporatorTemperatureChanged(m1.env.evapTemperature.convertible), limit);
  }

  lemma TestKeeps(c: Config, m: Machine, r: TestRequest, limit: nat)
    requires Inv(c, m, limit) && 0 < limit && Tame(m, TestRequested(r))
    ensures Inv(c, Test(c, m, r), limit) && Follows(m, Test(c, m, r))
  {
    if r == RequestNone {
      RecordsKeep(c, m, m.rec.(request := RequestNone), limit);
    } else if r == RequestExitHeaterOn {
      ExitRequestKeeps(c, m, limit);
    } else {
      StateTestKeeps(c, m, r, limit);
    }
  }

  /** Every enabled step but the untamed test request keeps the whole invariant. */
  lemma StepKeeps(c: Config, m: Machine, ev: Event, limit: nat)
    requires Inv(c, m, limit) && 0 < limit <= 255 && Enabled(m, ev) && Bounded(ev, limit) && Tame(m, ev)
    ensures Inv(c, Step(c, m, ev), limit)
    ensures KeepsGroups(c, m, ev) && !(ev.DefrostTimerExpires? && m.leaf == HeaterOnEntry) ==>
              Follows(m, Step(c, m, ev))
  {
    hide Inv, EvapTemperature, Test, TakeRole, Elapsed, Send, Minute, PowerUp, Told;
    match ev
    case EvapTemperatureChanged(e, t) => EvapTemperatureKeeps(c, m, e, t, limit);
    case TestRequested(r) => TestKeeps(c, m, r, limit);
    case RoleChanged(role) => TakeRoleKeeps(c, m, role, limit);
    case Background(_, _, _, _) => BackgroundKeeps(c, m, ev, limit);
    case Elapse(ms) => ElapseKeeps(c, m, ms, limit);
    case DefrostTimerExpires => TimerKeeps(c, m, limit);
    case HeaterMinute(e) => MinuteKeeps(c, m, e, limit);
    case PowerCycle(next) => PowerUpEstablishes(c, m, next, limit);
    case _ => ToldKeeps(c, m, ev, limit);
  }
}
