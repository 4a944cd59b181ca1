/**
 The defrost controller in the form of the original: an object whose state handlers write votes,
 flags and records one by one, inside a hierarchical state machine that exits up to the common
 ancestor and enters down. Every signal leaves it exactly where the flat machine goes, with the
 load votes, the waiting and defrosting flags and the timer given by the state alone.
 */
module DefrostController {
  import opened Options
  import opened Units
  import opened DefrostTypes
  import opened DefrostModel
  import opened DefrostRuns
  import P = DefrostProperties

  // ---------------------------------------------------------------- the hierarchy of states

  datatype Node = Top | WaitingToDefrost | Defrosting | PrechillParent | At(leaf: Leaf)

  function ParentOf(n: Node): Node {
    match n
    case At(Idle) => WaitingToDefrost
    case At(PostDwell) => WaitingToDefrost
    case At(PrechillPrep) => PrechillParent
    case At(Prechill) => PrechillParent
    case At(HeaterOnEntry) => Defrosting
    case At(HeaterOn) => Defrosting
    case At(Dwell) => Defrosting
    case PrechillParent => Defrosting
    case _ => Top
  }

  function Height(n: Node): nat {
    match n
    case At(_) => 3
    case PrechillParent => 2
    case WaitingToDefrost => 1
    case Defrosting => 1
    case Top => 0
  }

  /** n is a proper ancestor of the leaf l. */
  predicate IsAbove(n: Node, l: Leaf) {
    n == Top || n == ParentOf(At(l)) || n == ParentOf(ParentOf(At(l)))
  }

  /** The child of n on the way down to l. */
  function Toward(n: Node, l: Leaf): Node
    requires IsAbove(n, l) && n != ParentOf(At(l))
  {
    if ParentOf(ParentOf(At(l))) == n then ParentOf(At(l)) else ParentOf(ParentOf(At(l)))
  }

  // ---------------------------------------------------------------- what a state implies

  function Votes(s: Loads<int>, care: bool): Loads<Vote<int>> {
    Loads(Vote(s.valve, care), Vote(s.freshFoodDamper, care), Vote(s.compressor, care), Vote(s.condenserFan, care),
          Vote(s.freezerFan, care), Vote(s.freshFoodFan, care), Vote(s.iceCabinetFan, care), Vote(s.deliFan, care),
          Vote(s.deliDamper, care), Vote(s.convertibleDamper, care), Vote(s.convertibleFan, care))
  }

  predicate NobodyCares(v: Loads<Vote<int>>) {
    !v.valve.care && !v.freshFoodDamper.care && !v.compressor.care && !v.condenserFan.care && !v.freezerFan.care &&
    !v.freshFoodFan.care && !v.iceCabinetFan.care && !v.deliFan.care && !v.deliDamper.care &&
    !v.convertibleDamper.care && !v.convertibleFan.care
  }

  /** The table of load votes: cared for and set to the state's values, or all withdrawn. */
  predicate LoadsFit(c: Config, l: Leaf, v: Loads<Vote<int>>) {
    match CaredLoads(c, l)
    case Some(s) => v == Votes(s, true)
    case None => NobodyCares(v)
  }

  predicate EverybodyCares(v: Loads<Vote<int>>) {
    v.valve.care && v.freshFoodDamper.care && v.compressor.care && v.condenserFan.care && v.freezerFan.care &&
    v.freshFoodFan.care && v.iceCabinetFan.care && v.deliFan.care && v.deliDamper.care &&
    v.convertibleDamper.care && v.convertibleFan.care
  }

  predicate CaresForLoads(l: Leaf) {
    l == Prechill || l == HeaterOnEntry || l == HeaterOn || l == Dwell || l == PostDwell
  }

  predicate FlagsFit(n: Node, waiting: bool, defrosting: bool) {
    match n
    case Top => true
    case WaitingToDefrost => waiting && !defrosting
    case Defrosting => !waiting && defrosting
    case PrechillParent => !waiting && defrosting
    case At(Disabled) => !waiting && !defrosting
    case At(l) => if l == Idle || l == PostDwell then waiting && !defrosting else !waiting && defrosting
  }

  predicate TimerFits(l: Leaf, timer: Option<nat>) {
    timer.Some? <==> Timed(l)
  }

  // ---------------------------------------------------------------- signals in the hierarchy

  /** What one state, leaf or parent, does with a signal; None when it defers it. */
  ghost function NodeHandles(c: Config, m: Machine, n: Node, s: Signal): Option<Machine> {
    match (n, s)
    case (At(_), _) => LeafHandles(c, m, s)
    case (PrechillParent, SigThermistorIsInvalid) => Some(Go(c, m, HeaterOnEntry))
    case (WaitingToDefrost, SigDisableDefrost) => Some(Go(c, m.(skipForDisable := true), Disabled))
    case (WaitingToDefrost, SigStateTestRequest) => Some(Go(c, m.(skipForTest := true), Idle))
    case (WaitingToDefrost, SigExitHeaterOnTestRequest) => Some(ClearRequest(m))
    case (Defrosting, SigDisableDefrost) => Some(Go(c, m, Disabled))
    case (Defrosting, SigStateTestRequest) => Some(Go(c, m, Idle))
    case (Defrosting, SigExitHeaterOnTestRequest) => Some(ClearRequest(m))
    case _ => None
  }

  /** The hierarchical reading: a deferred signal goes to the parent, and from the top nowhere. */
  ghost function Bubble(c: Config, m: Machine, n: Node, s: Signal): Machine
    decreases Height(n)
  {
    if n == Top then m
    else if NodeHandles(c, m, n, s).Some? then NodeHandles(c, m, n, s).value
    else Bubble(c, m, ParentOf(n), s)
  }

  /** The flat machine resolves the hierarchy correctly. */
  lemma BubbleIsSend(c: Config, m: Machine, s: Signal)
    ensures Bubble(c, m, At(m.leaf), s) == Send(c, m, s)
  {
    hide LeafHandles, Go;
    var h := LeafHandles(c, m, s);
    if h.None? {
      var p := ParentOf(At(m.leaf));
      assert Bubble(c, m, At(m.leaf), s) == Bubble(c, m, p, s);
      if p == PrechillParent && !s.SigThermistorIsInvalid? {
        assert Bubble(c, m, p, s) == Bubble(c, m, Defrosting, s);
      }
    }
  }

  lemma TimedStatesHandleTheirTimer(c: Config, m: Machine)
    ensures Timed(m.leaf) ==> NodeHandles(c, m, At(m.leaf), SigDefrostTimerExpired).Some?
  {}

  class Defrost {
    const c: Config
    // Inputs, records and heater cells (each heater's vote with its counter)
    var env: Environment
    var rec: Records
    var heat: Heaters
    // Outputs
    var loads: Loads<Vote<int>>
    var waiting: bool
    var defrosting: bool
    var hsmState: Leaf         // defrostHsmStateErd
    var recorded: Leaf         // defrostStateErd, written on every change of hsmState
    // Private fields
    var current: Leaf
    var timer: Option<nat>
    var primary: Slots
    var secondary: Slots
    var skipForTest: bool
    var skipForDisable: bool
    ghost var hist: History

    ghost function State(): Machine
      reads this
    {
      Machine(current, recorded, timer, env, rec, heat, primary, secondary, skipForTest, skipForDisable, hist)
    }

    /** A settled controller: everything the state implies holds. */
    ghost predicate Settled()
      reads this
    {
      LoadsFit(c, current, loads) && FlagsFit(At(current), waiting, defrosting) && TimerFits(current, timer) &&
      hsmState == current && recorded == Recorded(hsmState)
    }

    /** What a settled controller shows: all eleven load votes are cared for in the five states from Prechill to
        PostDwell and withdrawn elsewhere, and the two flags and the timer tell the same states apart. */
    lemma SettledShows()
      requires Settled()
      ensures EverybodyCares(loads) <==> CaresForLoads(current)
      ensures NobodyCares(loads) <==> !CaresForLoads(current)
      ensures waiting <==> current == Idle || current == PostDwell
      ensures defrosting <==> current != Disabled && !waiting
      ensures timer.Some? <==> current != HeaterOn && (defrosting || current == PostDwell)
      ensures recorded == HeaterOn <==> current == HeaterOn || current == HeaterOnEntry
    {}

    /** The heater interlock in votes: when a heater is voted on, compressor and every fan are voted (Off, Care). */
    lemma HeaterVoteNeedsStillAirVotes(limit: nat, e: Evaporator)
      requires Settled() && P.Reachable(c, State(), limit) && 0 < limit <= 255 && heat.At(e).vote.value
      ensures current == HeaterOn
      ensures loads.compressor == loads.condenserFan == loads.freezerFan == loads.freshFoodFan ==
              loads.iceCabinetFan == loads.deliFan == loads.convertibleFan == Vote(OFF, true)
    {
      assert On(State(), e);
      P.HeatersNeedStillAir(c, State(), limit, e);
    }

    /** What a transition needs: the state's own votes and timer, and nobody else's. */
    ghost predicate MayLeave()
      reads this
    {
      (CaredLoads(c, current) == None ==> NobodyCares(loads)) && FlagsFit(At(current), waiting, defrosting) &&
      (timer.Some? ==> TimerFits(current, timer)) && recorded == Recorded(hsmState)
    }

    // -------------------------------------------------------------- writes

    method SetHsmStateTo(l: Leaf)
      requires hsmState == l ==> recorded == Recorded(l)
      modifies this`hsmState, this`recorded, this`heat
      ensures hsmState == l && recorded == Recorded(l)
      ensures heat == if old(recorded) == Recorded(l) then old(heat) else ReactAll(old(heat), Recorded(l))
    {
      if hsmState != l {
        hsmState := l;
        if recorded != Recorded(l) {
          recorded := Recorded(l);
          heat := ReactAll(heat, recorded);
        }
      }
    }

    method VoteForDefrostHeater(e: Evaporator, on: bool, care: bool)
      modifies this`heat
      ensures heat == VoteAt(old(heat), e, Vote(on, care), recorded)
    {
      heat := heat.With(e, VoteCell(heat.At(e), Vote(on, care), recorded));
    }

    method VoteForEvaporatorHeaters(s: Slots, on: bool, care: bool)
      modifies this`heat
      ensures heat == VoteSlots(old(heat), s, Vote(on, care), recorded)
    {
      var slots := [s.e0, s.e1];
      for i := 0 to 2
        invariant i == 0 ==> heat == old(heat)
        invariant i == 1 ==> heat == VoteSlot(old(heat), s.e0, Vote(on, care), recorded)
        invariant i == 2 ==> heat == VoteSlots(old(heat), s, Vote(on, care), recorded)
      {
        if slots[i].Some? {
          VoteForDefrostHeater(slots[i].value, on, care);
        }
      }
    }

    method VoteForSelectedHeaters(on: bool, care: bool)
      modifies this`heat
      ensures heat == VoteChosen(old(heat), rec.defrostType, primary, secondary, Vote(on, care), recorded)
    {
      match rec.defrostType
      case Full =>
        VoteForEvaporatorHeaters(primary, on, care);
        VoteForEvaporatorHeaters(secondary, on, care);
      case SecondaryOnly =>
        VoteForEvaporatorHeaters(secondary, on, care);
      case DontCare =>
    }

    method VoteForAllHeatersOff(care: bool)
      modifies this`heat
      ensures heat == VoteAll(old(heat), Vote(false, care), recorded)
    {
      VoteForDefrostHeater(Freezer, false, care);
      VoteForDefrostHeater(FreshFood, false, care);
      VoteForDefrostHeater(Convertible, false, care);
    }

    /** The group votes of the original write the eleven loads one after the other. */
    method VoteForLoads(s: Loads<int>, care: bool)
      modifies this`loads
      ensures loads == Votes(s, care)
    {
      loads := loads.(valve := Vote(s.valve, care));
      loads := loads.(freshFoodDamper := Vote(s.freshFoodDamper, care));
      loads := loads.(compressor := Vote(s.compressor, care));
      loads := loads.(condenserFan := Vote(s.condenserFan, care));
      loads := loads.(freezerFan := Vote(s.freezerFan, care));
      loads := loads.(freshFoodFan := Vote(s.freshFoodFan, care));
      loads := loads.(iceCabinetFan := Vote(s.iceCabinetFan, care));
      loads := loads.(deliFan := Vote(s.deliFan, care));
      loads := loads.(deliDamper := Vote(s.deliDamper, care));
      loads := loads.(convertibleDamper := Vote(s.convertibleDamper, care));
      loads := loads.(convertibleFan := Vote(s.convertibleFan, care));
    }

    method VoteForPrechillLoads(care: bool)
      modifies this`loads
      ensures loads == Votes(CaredLoads(c, Prechill).value, care)
      ensures care ==> LoadsFit(c, Prechill, loads)
    {
      VoteForLoads(c.data.prechillLoads, care);
    }

    method VoteForHeaterOnEntryLoads(care: bool)
      modifies this`loads
      ensures loads == Votes(CaredLoads(c, HeaterOnEntry).value, care)
      ensures care ==> LoadsFit(c, HeaterOnEntry, loads)
    {
      VoteForLoads(Loads(c.data.heaterOnEntryValve, c.data.heaterOnEntryFreshFoodDamper, OFF, OFF, OFF, OFF, OFF, OFF,
                         CLOSED, CLOSED, OFF), care);
    }

    method VoteForDwellLoads(care: bool)
      modifies this`loads, this`heat
      ensures loads == Votes(CaredLoads(c, Dwell).value, care)
      ensures care ==> LoadsFit(c, Dwell, loads)
      ensures heat == VoteAll(old(heat), Vote(false, care), recorded)
    {
      VoteForAllHeatersOff(care);
      VoteForLoads(Loads(c.data.dwellValve, c.data.dwellFreshFoodDamper, OFF, OFF, OFF, OFF, OFF, OFF,
                         CLOSED, CLOSED, OFF), care);
    }

    method VoteForPostDwellLoads(care: bool)
      modifies this`loads, this`heat
      ensures loads == Votes(CaredLoads(c, PostDwell).value, care)
      ensures care ==> LoadsFit(c, PostDwell, loads)
      ensures heat == VoteAll(old(heat), Vote(false, care), recorded)
    {
      var d := c.data.postDwellLoads;
      VoteForAllHeatersOff(care);
      VoteForLoads(Loads(d.valve, d.freshFoodDamper, d.compressor, d.condenserFan, OFF, OFF, OFF, OFF,
                         d.deliDamper, d.convertibleDamper, OFF), care);
    }

    method StartDefrostTimer(ms: nat)
      modifies this`timer
      ensures timer == Some(ms)
    {
      timer := Some(ms);
    }

    method StopTimer()
      modifies this`timer
      ensures timer == None
    {
      timer := None;
    }

    method ClearDefrostTestStateRequest()
      modifies this`rec
      ensures rec == old(rec).(request := RequestNone)
    {
      rec := rec.(request := RequestNone);
    }

    // -------------------------------------------------------------- evaporators

    method SetPrimaryEvaporators()
      modifies this`primary
      ensures primary == PrimaryFor(c.platform, env.role, old(primary))
    {
      var p := c.platform;
      if p.numberOfEvaporators == 3 && p.hasFreshFood && p.hasFreezer && p.hasConvertible {
        if env.role == AsFreshFood {
          primary := Slots(Some(Freezer), None);
        } else if env.role == AsFreezer {
          primary := Slots(Some(Freezer), Some(Convertible));
        }
      } else if (p.numberOfEvaporators == 1 && p.hasFreezer) || p.numberOfEvaporators == 2 {
        primary := Slots(Some(Freezer), None);
      } else if p.numberOfEvaporators == 1 && p.hasFreshFood {
        primary := Slots(Some(FreshFood), None);
      }
    }

    method SetSecondaryEvaporators()
      modifies this`secondary
      ensures secondary == SecondaryFor(c.platform, env.role, old(secondary))
    {
      var p := c.platform;
      if p.numberOfEvaporators == 3 && p.hasFreshFood && p.hasFreezer && p.hasConvertible {
        if env.role == AsFreshFood {
          secondary := Slots(Some(FreshFood), Some(Convertible));
        } else if env.role == AsFreezer {
          secondary := Slots(Some(FreshFood), None);
        }
      } else if p.numberOfEvaporators == 1 {
        secondary := Slots(None, None);
      } else if p.numberOfEvaporators == 2 {
        secondary := Slots(Some(FreshFood), None);
      }
    }

    method DivideEvaporators()
      modifies this`primary, this`secondary
      ensures State() == Partition(c, old(State()))
    {
      SetPrimaryEvaporators();
      SetSecondaryEvaporators();
    }

    method AllHeatersVotedOff() returns (off: bool)
      ensures off == AllHeatersAreOff(State())
    {
      var slots := [primary.e0, primary.e1, secondary.e0, secondary.e1];
      for i := 0 to 4
        invariant forall j :: 0 <= j < i ==> SlotIsOff(heat, slots[j])
      {
        if slots[i].Some? && heat.At(slots[i].value).vote.value {
          assert !SlotIsOff(heat, slots[i]);
          return false;
        }
      }
      assert SlotIsOff(heat, slots[0]) && SlotIsOff(heat, slots[1]) && SlotIsOff(heat, slots[2]) &&
             SlotIsOff(heat, slots[3]);
      return true;
    }

    method PrimaryAndSecondaryEvaporatorsAreAllValid() returns (valid: bool)
      ensures valid == CoveredThermistorsAreValid(State())
    {
      var slots := [primary.e0, primary.e1, secondary.e0, secondary.e1];
      for i := 0 to 4
        invariant forall j :: 0 <= j < i ==> SlotIsValid(env, slots[j])
      {
        if slots[i].Some? && !env.evapValid.At(slots[i].value) {
          assert !SlotIsValid(env, slots[i]);
          return false;
        }
      }
      assert SlotIsValid(env, slots[0]) && SlotIsValid(env, slots[1]) && SlotIsValid(env, slots[2]) &&
             SlotIsValid(env, slots[3]);
      return true;
    }

    method AnyPrimaryEvaporatorDefrostWasAbnormal() returns (abnormal: bool)
      ensures abnormal == (SlotWas(rec.wasAbnormal, primary.e0) || SlotWas(rec.wasAbnormal, primary.e1))
    {
      var slots := [primary.e0, primary.e1];
      abnormal := false;
      for i := 0 to 2
        invariant abnormal == exists j :: 0 <= j < i && SlotWas(rec.wasAbnormal, slots[j])
      {
        if slots[i].Some? {
          abnormal := abnormal || rec.wasAbnormal.At(slots[i].value);
        }
      }
      assert SlotWas(rec.wasAbnormal, slots[0]) == SlotWas(rec.wasAbnormal, primary.e0);
      assert SlotWas(rec.wasAbnormal, slots[1]) == SlotWas(rec.wasAbnormal, primary.e1);
    }

    method PrechillExitConditionMetForAnyPrimaryEvaporators() returns (met: bool)
      ensures met == (SlotEndsPrechill(c, env, primary.e0) || SlotEndsPrechill(c, env, primary.e1))
    {
      var slots := [primary.e0, primary.e1];
      for i := 0 to 2
        invariant forall j :: 0 <= j < i ==> !SlotEndsPrechill(c, env, slots[j])
      {
        if slots[i].Some? {
          var e := slots[i].value;
          if env.evapValid.At(e) && env.evapTemperature.At(e) <= c.data.prechillPrimaryExit {
            assert SlotEndsPrechill(c, env, slots[i]);
            return true;
          }
        }
      }
      assert !SlotEndsPrechill(c, env, slots[0]) && !SlotEndsPrechill(c, env, slots[1]);
      return false;
    }

    method PrechillIsOver() returns (over: bool)
      ensures over == PrechillMustEnd(c, State())
    {
      hide PrechillMinutesLeft, CabinetEndsPrechill, SlotEndsPrechill;
      var left := PrechillTimeLeft();
      var coldEnough := PrechillExitConditionMetForAnyPrimaryEvaporators();
      return left == 0 ||
        (env.cabinetValid.freezer && CabinetEndsPrechill(c, env, Freezer)) || coldEnough ||
        (env.cabinetValid.freshFood && CabinetEndsPrechill(c, env, FreshFood)) ||
        (env.cabinetValid.convertible && CabinetEndsPrechill(c, env, Convertible));
    }

    method PostDwellPrimaryEvapExitConditionIsMet() returns (met: bool)
      ensures met == (SlotEndsPostDwell(c, State(), primary.e0) || SlotEndsPostDwell(c, State(), primary.e1))
    {
      var slots := [primary.e0, primary.e1];
      for i := 0 to 2
        invariant forall j :: 0 <= j < i ==> !SlotEndsPostDwell(c, State(), slots[j])
      {
        if slots[i].Some? && TemperatureEndsPostDwell(c, rec, env.evapTemperature.At(slots[i].value)) {
          assert SlotEndsPostDwell(c, State(), slots[i]);
          return true;
        }
      }
      assert !SlotEndsPostDwell(c, State(), slots[0]) && !SlotEndsPostDwell(c, State(), slots[1]);
      return false;
    }

    method AnyPreviousDefrostHasBeenAbnormal() returns (abnormal: bool)
      ensures abnormal == AnyPreviousDefrostWasAbnormal(State())
    {
      return rec.wasAbnormal.freshFood || rec.wasAbnormal.freezer || (env.hasConvertible &&
          rec.wasAbnormal.convertible);
    }

    method PrechillTimeLeft() returns (minutes: nat)
      ensures minutes == PrechillMinutesLeft(c, State())
    {
      var most := c.data.maxPrechillMinutes;
      if rec.defrostType == SecondaryOnly {
        most := c.data.maxPrechillSecondaryOnlyMinutes;
      }
      if env.prechillMinutesMet < most {
        return most - env.prechillMinutesMet;
      }
      return 0;
    }

    method IncrementNumberOfDefrosts(s: Slots)
      modifies this`rec
      ensures rec == old(rec).(defrosts := CountSlots(old(rec.defrosts), s))
    {
      var slots := [s.e0, s.e1];
      for i := 0 to 2
        invariant i == 0 ==> rec == old(rec)
        invariant i == 1 ==> rec == old(rec).(defrosts := CountSlot(old(rec.defrosts), s.e0))
        invariant i == 2 ==> rec == old(rec).(defrosts := CountSlots(old(rec.defrosts), s))
      {
        if slots[i].Some? {
          var e := slots[i].value;
          rec := rec.(defrosts := rec.defrosts.With(e, (rec.defrosts.At(e) + 1) % 0x1_0000));
        }
      }
    }

    // -------------------------------------------------------------- defrost type

    method DetermineNumberOfSecondaryOnlyDefrostsBeforeAFullDefrost()
      modifies this`rec
      ensures State() == ChooseBeforeFull(c, old(State()))
    {
      var n := c.data.secondaryOnlyBeforeFull;
      if env.sabbathMode || env.enhancedSabbathMode {
        n := c.data.secondaryOnlyBeforeFullInSabbath;
      } else {
        var abnormal := AnyPrimaryEvaporatorDefrostWasAbnormal();
        if abnormal {
          n := c.data.secondaryOnlyBeforeFullWhenAbnormal;
        }
      }
      rec := rec.(secondaryOnlyBeforeFull := n);
    }

    method SetDefrostType()
      modifies this`rec, this`hist
      ensures State() == Decide(old(State()))
    {
      var next := rec.nextTypeOverride;
      if next == DontCare {
        if rec.secondaryOnlyCount < rec.secondaryOnlyBeforeFull {
          next := SecondaryOnly;
        } else {
          next := Full;
        }
      }
      var count := 0;
      if next == SecondaryOnly {
        count := (rec.secondaryOnlyCount + 1) % 0x100;
      }
      rec := rec.(defrostType := next, nextTypeOverride := DontCare, secondaryOnlyCount := count);
      hist := hist.(decisions := hist.decisions + [next]);
    }

    // -------------------------------------------------------------- exits

    method ExitIdle()
      modifies this`rec, this`primary, this`secondary, this`skipForTest, this`hist
      ensures State() == LeaveIdle(c, old(State()))
    {
      hide Partition, ChooseBeforeFull, Decide;
      rec := rec.(tooWarmOnPowerUp := false, eepromCleared := false);
      DivideEvaporators();
      if !skipForTest && !skipForDisable {
        DetermineNumberOfSecondaryOnlyDefrostsBeforeAFullDefrost();
        SetDefrostType();
      }
      skipForTest := false;
    }

    method CountDefrosts()
      modifies this`rec
      ensures rec == old(rec).(defrosts := CountChosen(old(rec.defrosts), old(rec.defrostType), primary, secondary))
    {
      match rec.defrostType {
        case Full =>
          IncrementNumberOfDefrosts(primary);
          IncrementNumberOfDefrosts(secondary);
        case SecondaryOnly =>
          IncrementNumberOfDefrosts(secondary);
        case DontCare =>
      }
    }

    method ExitHeaterOn()
      modifies this`rec, this`heat, this`loads
      ensures State() == LeaveHeaterOn(old(State())) && NobodyCares(loads)
    {
      hide VoteChosen, CountChosen;
      var valid := PrimaryAndSecondaryEvaporatorsAreAllValid();
      if valid {
        rec := rec.(invalidThermistorDuringDefrost := false);
      }
      VoteForHeaterOnEntryLoads(false);
      VoteForSelectedHeaters(false, false);
      CountDefrosts();
    }

    /** Hsm_Exit of the current leaf. */
    method ExitLeaf()
      requires MayLeave()
      modifies this`rec, this`heat, this`loads, this`timer, this`primary, this`secondary, this`skipForTest,
               this`skipForDisable, this`hist
      ensures State() == Leave(c, old(State()))
      ensures NobodyCares(loads) && timer == None
    {
      hide VoteAll, LeaveIdle, LeaveHeaterOn;
      match current
      case Idle => ExitIdle();
      case PrechillPrep => StopTimer();
      case Prechill =>
        VoteForPrechillLoads(false);
        StopTimer();
      case HeaterOnEntry =>
        StopTimer();
        VoteForHeaterOnEntryLoads(false);
      case HeaterOn => ExitHeaterOn();
      case Dwell =>
        StopTimer();
        VoteForDwellLoads(false);
      case PostDwell =>
        VoteForPostDwellLoads(false);
        StopTimer();
      case Disabled =>
        VoteForAllHeatersOff(false);
        skipForDisable := false;
    }

    // -------------------------------------------------------------- entries

    /** What an entry needs: nothing is held over from another state. */
    ghost predicate MayEnter(l: Leaf)
      reads this
    {
      NobodyCares(loads) && timer == None && FlagsFit(ParentOf(At(l)), waiting, defrosting) &&
      (l == PrechillPrep || l == hsmState ==> recorded == Recorded(hsmState))
    }

    /** Hsm_Entry of a parent. */
    method EnterParent(n: Node)
      modifies this`waiting, this`defrosting
      ensures n == WaitingToDefrost || n == Defrosting ==> FlagsFit(n, waiting, defrosting)
      ensures n != WaitingToDefrost && n != Defrosting ==> waiting == old(waiting) && defrosting == old(defrosting)
    {
      match n
      case WaitingToDefrost =>
        waiting := true;
        defrosting := false;
      case Defrosting =>
        waiting := false;
        defrosting := true;
      case _ =>
    }

    method ClearFlags()
      modifies this`waiting, this`defrosting
      ensures !waiting && !defrosting
    {
      waiting := false;
      defrosting := false;
    }

    method Become(l: Leaf)
      modifies this`current, this`hist
      ensures current == l && hist == old(hist).(visits := old(hist.visits) + [Visit(l, 0)])
    {
      current := l;
      hist := hist.(visits := hist.visits + [Visit(l, 0)]);
    }

    /** The first thing most entries do: the leaf becomes current and is recorded. */
    method Begin(l: Leaf)
      requires hsmState == l ==> recorded == Recorded(l)
      modifies this`current, this`hist, this`hsmState, this`recorded, this`heat
      ensures current == l && hist == old(hist).(visits := old(hist.visits) + [Visit(l, 0)])
      ensures hsmState == l && recorded == Recorded(l)
      ensures State() == Save(Come(old(State()), l), l)
    {
      Become(l);
      SetHsmStateTo(l);
    }

    method EnterIdle()
      requires MayEnter(Idle)
      modifies this
      ensures State() == Arrive(c, old(State()), Idle) && Settled()
      decreases Rank(Idle), 0
    {
      hide ReactAll, VoteAll, VoteChosen, Go, Leave, Votes, NobodyCares, Save;
      Begin(Idle);
      match rec.request
      case RequestPrechill => Transition(PrechillPrep);
      case RequestDefrost => Transition(HeaterOnEntry);
      case RequestIdle => ClearDefrostTestStateRequest();
      case _ =>
    }

    method RecordPrechillPrep()
      requires hsmState == PrechillPrep ==> recorded == PrechillPrep
      modifies this`hsmState, this`recorded, this`heat, this`rec
      ensures hsmState == PrechillPrep && recorded == PrechillPrep
      ensures var m := Save(old(State()), PrechillPrep);
              State() == m.(rec := m.rec.(dontSkipPrechill := false, request := RequestNone, useAhamTime := false))
    {
      SetHsmStateTo(PrechillPrep);
      rec := rec.(dontSkipPrechill := false, request := RequestNone, useAhamTime := false);
    }

    method EnterPrechillPrep()
      requires MayEnter(PrechillPrep)
      modifies this
      ensures State() == Arrive(c, old(State()), PrechillPrep) && Settled()
      decreases Rank(PrechillPrep), 0
    {
      hide ReactAll, VoteAll, VoteChosen, Go, Leave, Votes, NobodyCares, Save;
      hide AnyKnownThermistorIsInvalid, PrechillConditionsAreMet;
      Become(PrechillPrep);
      if AnyKnownThermistorIsInvalid(env) {
        Transition(HeaterOnEntry);
      } else {
        RecordPrechillPrep();
        if PrechillConditionsAreMet(c, env) {
          Transition(Prechill);
        } else {
          StartDefrostTimer(c.data.maxPrechillPrepMinutes * MSEC_PER_MIN);
        }
      }
    }

    method EnterPrechill()
      requires MayEnter(Prechill)
      modifies this
      ensures State() == Arrive(c, old(State()), Prechill) && Settled()
      decreases Rank(Prechill), 0
    {
      hide ReactAll, VoteAll, VoteChosen, Go, Leave, Votes, LoadsFit, Save, PrechillMinutesLeft, PrechillMustEnd;
      Begin(Prechill);
      VoteForPrechillLoads(true);
      var left := PrechillTimeLeft();
      var over := PrechillIsOver();
      if over {
        // the exit signal sent to itself
        Transition(HeaterOnEntry);
      } else {
        StartDefrostTimer(left * MSEC_PER_MIN);
      }
    }

    method EnterHeaterOnEntry()
      requires MayEnter(HeaterOnEntry)
      modifies this
      ensures State() == Arrive(c, old(State()), HeaterOnEntry) && Settled()
      decreases Rank(HeaterOnEntry), 0
    {
      hide ReactAll, VoteAll, VoteChosen, Go, Leave, Votes, LoadsFit, Save;
      Begin(HeaterOnEntry);
      ClearDefrostTestStateRequest();
      VoteForHeaterOnEntryLoads(true);
      StartDefrostTimer(c.data.heaterOnDelaySeconds * MSEC_PER_SEC);
    }

    method EnterHeaterOn()
      requires MayEnter(HeaterOn)
      modifies this
      ensures State() == Arrive(c, old(State()), HeaterOn) && Settled()
      decreases Rank(HeaterOn), 0
    {
      hide ReactAll, VoteAll, VoteChosen, Go, Leave, Votes, NobodyCares, Save;
      Begin(HeaterOn);
      VoteForHeaterOnEntryLoads(true);
      VoteForSelectedHeaters(true, true);
      hist := hist.(abnormalFired := Trio(0, 0, 0), roleChanged := false);
    }

    /** The last two writes of the Dwell entry. */
    method StartDwellTime()
      modifies this`timer, this`rec
      ensures State() == ClearRequest(old(State()).(timer := Some(c.data.dwellMinutes * MSEC_PER_MIN)))
    {
      StartDefrostTimer(c.data.dwellMinutes * MSEC_PER_MIN);
      ClearDefrostTestStateRequest();
    }

    method EnterDwell()
      requires MayEnter(Dwell)
      modifies this
      ensures State() == Arrive(c, old(State()), Dwell) && Settled()
      decreases Rank(Dwell), 0
    {
      hide ReactAll, VoteAll, VoteChosen, Go, Leave, Votes, LoadsFit, Save;
      Begin(Dwell);
      rec := rec.(valveHomingRequested := true);
      VoteForDwellLoads(true);
      StartDwellTime();
    }

    method EnterPostDwell()
      requires MayEnter(PostDwell)
      modifies this
      ensures State() == Arrive(c, old(State()), PostDwell) && Settled()
      decreases Rank(PostDwell), 0
    {
      hide ReactAll, VoteAll, VoteChosen, Go, Leave, Votes, LoadsFit, Save;
      Begin(PostDwell);
      VoteForPostDwellLoads(true);
      var minutes := if rec.defrostType == SecondaryOnly then c.data.postDwellSecondaryOnlyMinutes
                     else c.data.postDwellMinutes;
      StartDefrostTimer(MSEC_PER_MIN * minutes);
    }

    /** What the Disabled entry writes after it has become current. */
    method RestDisabled()
      modifies this`heat, this`waiting, this`defrosting
      ensures State() == VoteAllHeatersOff(old(State()), true) && !waiting && !defrosting
    {
      VoteForAllHeatersOff(true);
      ClearFlags();
    }

    method EnterDisabled()
      requires MayEnter(Disabled)
      modifies this
      ensures State() == Arrive(c, old(State()), Disabled) && Settled()
      decreases Rank(Disabled), 0
    {
      hide ReactAll, VoteAll, VoteChosen, Go, Leave, Votes, NobodyCares, Save;
      assert LoadsFit(c, Disabled, loads);
      hide LoadsFit;
      Begin(Disabled);
      RestDisabled();
    }

    method EnterLeaf(l: Leaf)
      requires MayEnter(l)
      modifies this
      ensures State() == Arrive(c, old(State()), l) && Settled()
      decreases Rank(l), 1
    {
      match l
      case Idle => EnterIdle();
      case PrechillPrep => EnterPrechillPrep();
      case Prechill => EnterPrechill();
      case HeaterOnEntry => EnterHeaterOnEntry();
      case HeaterOn => EnterHeaterOn();
      case Dwell => EnterDwell();
      case PostDwell => EnterPostDwell();
      case Disabled => EnterDisabled();
    }

    /** From below the leaf exited, up to the lowest common ancestor and down to the parent of the target. The exits
        of the parents do nothing. */
    method PassThroughParents(target: Leaf)
      requires FlagsFit(At(current), waiting, defrosting)
      modifies this`waiting, this`defrosting
      ensures FlagsFit(ParentOf(At(target)), waiting, defrosting)
    {
      var node := ParentOf(At(current));
      while !IsAbove(node, target)
        invariant FlagsFit(node, waiting, defrosting)
        decreases Height(node)
      {
        node := ParentOf(node);
      }
      while node != ParentOf(At(target))
        invariant IsAbove(node, target) && FlagsFit(node, waiting, defrosting)
        decreases 3 - Height(node)
      {
        node := Toward(node, target);
        EnterParent(node);
      }
    }

    /** Hsm_Transition. */
    method Transition(target: Leaf)
      requires MayLeave()
      modifies this
      ensures State() == Go(c, old(State()), target) && Settled()
      decreases Rank(target), 2
    {
      hide Leave, Arrive, LoadsFit, CaredLoads, NobodyCares, FlagsFit, TimerFits;
      ExitLeaf();
      PassThroughParents(target);
      EnterLeaf(target);
    }

    // -------------------------------------------------------------- signals

    /** A settled controller that is about to handle a signal; the defrost timer's own signal finds it stopped. */
    ghost predicate MayHandle(s: Signal)
      reads this
    {
      LoadsFit(c, current, loads) && FlagsFit(At(current), waiting, defrosting) &&
      TimerFits(current, if s == SigDefrostTimerExpired && timer == None &&
          TimerFits(current, Some(0)) then Some(0) else timer) &&
      hsmState == current && recorded == Recorded(hsmState)
    }

    method ReadyInIdle()
      requires current == Idle && Settled()
      modifies this
      ensures State() == GoIf(c, old(State()), IdleReadyTarget(old(State()))) && Settled()
    {
      hide Go, AnyPreviousDefrostWasAbnormal, NobodyCares;
      if !AtLeastOneSabbathMode(env) && env.readyToDefrost {
        if rec.dontSkipPrechill {
          Transition(PrechillPrep);
        } else {
          var abnormal := AnyPreviousDefrostHasBeenAbnormal();
          if abnormal || rec.tooWarmOnPowerUp || rec.invalidThermistorDuringDefrost || rec.eepromCleared {
            Transition(HeaterOnEntry);
          } else {
            Transition(PrechillPrep);
          }
        }
      }
    }

    method SabbathInIdle()
      requires current == Idle && Settled()
      modifies this
      ensures State() == GoIf(c, old(State()), IdleSabbathTarget(old(State()))) && Settled()
    {
      hide Go, NobodyCares;
      if AtLeastOneSabbathMode(env) && env.sabbathIsReady {
        if env.enhancedSabbathIsRequesting && env.enhancedSabbathMode {
          Transition(HeaterOnEntry);
        } else if !env.enhancedSabbathMode {
          Transition(PrechillPrep);
        }
      }
    }

    method StateIdle(s: Signal) returns (consumed: bool)
      requires current == Idle && MayHandle(s)
      modifies this
      ensures consumed <==> LeafHandles(c, old(State()), s).Some?
      ensures State() == if consumed then LeafHandles(c, old(State()), s).value else old(State())
      ensures if consumed then Settled() else MayHandle(s)
    {
      hide GoIf, IdleReadyTarget, IdleSabbathTarget, NobodyCares;
      consumed := true;
      match s
      case SigReadyToDefrost => ReadyInIdle();
      case SigSabbathDisabled => ReadyInIdle();
      case SigEnhancedSabbathRequest => SabbathInIdle();
      case SigSabbathIsReady => SabbathInIdle();
      case SigSabbathEnabled => SabbathInIdle();
      case _ => consumed := false;
    }

    method StatePrechillPrep(s: Signal) returns (consumed: bool)
      requires current == PrechillPrep && MayHandle(s)
      modifies this
      ensures consumed <==> LeafHandles(c, old(State()), s).Some?
      ensures State() == if consumed then LeafHandles(c, old(State()), s).value else old(State())
      ensures if consumed then Settled() else MayHandle(s)
    {
      hide Go, NobodyCares;
      consumed := true;
      match s
      case SigPrechillConditionsAreMet => Transition(Prechill);
      case SigDefrostTimerExpired => Transition(Prechill);
      case _ => consumed := false;
    }

    method StatePrechill(s: Signal) returns (consumed: bool)
      requires current == Prechill && MayHandle(s)
      modifies this
      ensures consumed <==> LeafHandles(c, old(State()), s).Some?
      ensures State() == if consumed then LeafHandles(c, old(State()), s).value else old(State())
      ensures if consumed then Settled() else MayHandle(s)
    {
      hide Go, NobodyCares, Votes, CabinetEndsPrechill;
      consumed := true;
      match s
      case SigCabinetTemperatureChanged(cabinet) =>
        if CabinetEndsPrechill(c, env, cabinet) {
          Transition(HeaterOnEntry);
        }
      case SigPrimaryEvaporatorTemperatureChanged(temperature) =>
        if temperature <= c.data.prechillPrimaryExit {
          Transition(HeaterOnEntry);
        }
      case SigPrechillExitConditionMet => Transition(HeaterOnEntry);
      case SigDefrostTimerExpired => Transition(HeaterOnEntry);
      case _ => consumed := false;
    }

    method StateHeaterOnEntry(s: Signal) returns (consumed: bool)
      requires current == HeaterOnEntry && MayHandle(s)
      modifies this
      ensures consumed <==> LeafHandles(c, old(State()), s).Some?
      ensures State() == if consumed then LeafHandles(c, old(State()), s).value else old(State())
      ensures if consumed then Settled() else MayHandle(s)
    {
      hide Go, NobodyCares, Votes;
      consumed := true;
      match s
      case SigDefrostTimerExpired => Transition(HeaterOn);
      case SigExitHeaterOnTestRequest => Transition(Dwell);
      case _ => consumed := false;
    }

    method DwellOnceAllHeatersAreOff()
      requires current == HeaterOn && Settled()
      modifies this
      ensures State() == DwellIfAllOff(c, old(State())) && Settled()
    {
      hide Go, NobodyCares, Votes, AllHeatersAreOff;
      var off := AllHeatersVotedOff();
      if off {
        Transition(Dwell);
      }
    }

    method HeaterHasReachedMaxOnTime(e: Evaporator)
      requires current == HeaterOn && Settled()
      modifies this
      ensures State() == HeaterMaxOnTime(c, old(State()), e) && Settled()
    {
      hide VoteAt, DwellIfAllOff, LoadsFit, FlagsFit, TimerFits;
      VoteForDefrostHeater(e, false, true);
      if env.evapValid.At(e) {
        rec := rec.(maxTimeFault := rec.maxTimeFault.With(e, true));
      } else {
        rec := rec.(invalidThermistorDuringDefrost := true);
      }
      DwellOnceAllHeatersAreOff();
    }

    method HeaterTemperatureHasChanged(e: Evaporator)
      requires current == HeaterOn && Settled()
      modifies this
      ensures State() == HeaterTemperature(c, old(State()), e) && Settled()
    {
      hide VoteAt, DwellIfAllOff, LoadsFit, FlagsFit, TimerFits, AbnormalMinutes;
      if env.evapTemperature.At(e) >= c.data.termination.At(e) {
        VoteForDefrostHeater(e, false, true);
        var wasAbnormal := rec.wasAbnormal;
        if heat.At(e).minutes < AbnormalMinutes(c, env.role, e) {
          wasAbnormal := wasAbnormal.With(e, false);
        }
        rec := rec.(wasAbnormal := wasAbnormal, maxTimeFault := rec.maxTimeFault.With(e, false));
        DwellOnceAllHeatersAreOff();
      }
    }

    method HeaterHasReachedAbnormalTime(e: Evaporator)
      requires current == HeaterOn && Settled()
      modifies this`rec, this`hist
      ensures State() == HeaterAbnormal(old(State()), e)
    {
      rec := rec.(abnormalDefrosts := rec.abnormalDefrosts.With(e, (rec.abnormalDefrosts.At(e) + 1) % 0x1_0000),
                  wasAbnormal := rec.wasAbnormal.With(e, true));
      hist := hist.(abnormalFired := hist.abnormalFired.With(e, hist.abnormalFired.At(e) + 1));
    }

    method StateHeaterOn(s: Signal) returns (consumed: bool)
      requires current == HeaterOn && MayHandle(s)
      modifies this
      ensures consumed <==> LeafHandles(c, old(State()), s).Some?
      ensures State() == if consumed then LeafHandles(c, old(State()), s).value else old(State())
      ensures if consumed then Settled() else MayHandle(s)
    {
      hide Go, NobodyCares, Votes, HeaterMaxOnTime, HeaterAbnormal, HeaterTemperature;
      consumed := true;
      match s
      case SigHeaterMaxOnTimeReached(e) => HeaterHasReachedMaxOnTime(e);
      case SigAbnormalHeaterOnTimeReached(e) => HeaterHasReachedAbnormalTime(e);
      case SigEvaporatorTemperatureChanged(e) => HeaterTemperatureHasChanged(e);
      case SigExitHeaterOnTestRequest => Transition(Dwell);
      case _ => consumed := false;
    }

    method StateDwell(s: Signal) returns (consumed: bool)
      requires current == Dwell && MayHandle(s)
      modifies this
      ensures consumed <==> LeafHandles(c, old(State()), s).Some?
      ensures State() == if consumed then LeafHandles(c, old(State()), s).value else old(State())
      ensures if consumed then Settled() else MayHandle(s)
    {
      hide Go, NobodyCares, Votes, SlotEndsPostDwell;
      consumed := true;
      match s
      case SigDefrostTimerExpired =>
        var cold := PostDwellPrimaryEvapExitConditionIsMet();
        if cold {
          Transition(Idle);
        } else {
          Transition(PostDwell);
        }
      case _ => consumed := false;
    }

    method StatePostDwell(s: Signal) returns (consumed: bool)
      requires current == PostDwell && MayHandle(s)
      modifies this
      ensures consumed <==> LeafHandles(c, old(State()), s).Some?
      ensures State() == if consumed then LeafHandles(c, old(State()), s).value else old(State())
      ensures if consumed then Settled() else MayHandle(s)
    {
      hide Go, NobodyCares, Votes, TemperatureEndsPostDwell;
      consumed := true;
      match s
      case SigDefrostTimerExpired => Transition(Idle);
      case SigPrimaryEvaporatorTemperatureChanged(temperature) =>
        if TemperatureEndsPostDwell(c, rec, temperature) {
          Transition(Idle);
        }
      case _ => consumed := false;
    }

    method StateDisabled(s: Signal) returns (consumed: bool)
      requires current == Disabled && MayHandle(s)
      modifies this
      ensures consumed <==> LeafHandles(c, old(State()), s).Some?
      ensures State() == if consumed then LeafHandles(c, old(State()), s).value else old(State())
      ensures if consumed then Settled() else MayHandle(s)
    {
      hide Go, NobodyCares;
      consumed := true;
      match s
      case SigEnableDefrost => Transition(Idle);
      case SigStateTestRequest => ClearDefrostTestStateRequest();
      case SigExitHeaterOnTestRequest => ClearDefrostTestStateRequest();
      case _ => consumed := false;
    }

    method StatePrechillParent(s: Signal) returns (consumed: bool)
      requires IsAbove(PrechillParent, current) && MayHandle(s)
      modifies this
      ensures consumed <==> NodeHandles(c, old(State()), PrechillParent, s).Some?
      ensures State() == if consumed then NodeHandles(c, old(State()), PrechillParent, s).value else old(State())
      ensures if consumed then Settled() else MayHandle(s)
    {
      hide Go, NobodyCares, Votes;
      consumed := true;
      match s
      case SigThermistorIsInvalid => Transition(HeaterOnEntry);
      case _ => consumed := false;
    }

    method StateWaitingToDefrost(s: Signal) returns (consumed: bool)
      requires IsAbove(WaitingToDefrost, current) && MayHandle(s)
      modifies this
      ensures consumed <==> NodeHandles(c, old(State()), WaitingToDefrost, s).Some?
      ensures State() == if consumed then NodeHandles(c, old(State()), WaitingToDefrost, s).value else old(State())
      ensures if consumed then Settled() else MayHandle(s)
    {
      hide Go, NobodyCares, Votes;
      consumed := true;
      match s
      case SigDisableDefrost =>
        skipForDisable := true;
        Transition(Disabled);
      case SigStateTestRequest =>
        skipForTest := true;
        Transition(Idle);
      case SigExitHeaterOnTestRequest => ClearDefrostTestStateRequest();
      case _ => consumed := false;
    }

    method StateDefrosting(s: Signal) returns (consumed: bool)
      requires IsAbove(Defrosting, current) && MayHandle(s)
      modifies this
      ensures consumed <==> NodeHandles(c, old(State()), Defrosting, s).Some?
      ensures State() == if consumed then NodeHandles(c, old(State()), Defrosting, s).value else old(State())
      ensures if consumed then Settled() else MayHandle(s)
    {
      hide Go, NobodyCares, Votes;
      consumed := true;
      match s
      case SigDisableDefrost => Transition(Disabled);
      case SigStateTestRequest => Transition(Idle);
      case SigExitHeaterOnTestRequest => ClearDefrostTestStateRequest();
      case _ => consumed := false;
    }

    method StateHandler(n: Node, s: Signal) returns (consumed: bool)
      requires (n == At(current) || IsAbove(n, current)) && MayHandle(s)
      modifies this
      ensures consumed <==> NodeHandles(c, old(State()), n, s).Some?
      ensures State() == if consumed then NodeHandles(c, old(State()), n, s).value else old(State())
      ensures if consumed then Settled() else MayHandle(s)
    {
      hide LeafHandles, Go, NobodyCares, Votes;
      match n
      case Top => return false;
      case WaitingToDefrost => consumed := StateWaitingToDefrost(s);
      case Defrosting => consumed := StateDefrosting(s);
      case PrechillParent => consumed := StatePrechillParent(s);
      case At(Idle) => consumed := StateIdle(s);
      case At(PrechillPrep) => consumed := StatePrechillPrep(s);
      case At(Prechill) => consumed := StatePrechill(s);
      case At(HeaterOnEntry) => consumed := StateHeaterOnEntry(s);
      case At(HeaterOn) => consumed := StateHeaterOn(s);
      case At(Dwell) => consumed := StateDwell(s);
      case At(PostDwell) => consumed := StatePostDwell(s);
      case At(Disabled) => consumed := StateDisabled(s);
    }

    /** Hsm_SendSignal: a signal that a state defers goes to its parent. */
    method SendSignal(s: Signal)
      requires MayHandle(s)
      modifies this
      ensures State() == Send(c, old(State()), s) && Settled()
    {
      hide LeafHandles, NodeHandles, Send, LoadsFit, FlagsFit;
      BubbleIsSend(c, State(), s);
      TimedStatesHandleTheirTimer(c, State());
      var node := At(current);
      var consumed := false;
      while node != Top && !consumed
        invariant consumed ==> Settled() && State() == Bubble(c, old(State()), At(old(current)), s)
        invariant !consumed ==>
                    State() == old(State()) && MayHandle(s) && (node == At(current) || IsAbove(node, current))
        invariant !consumed ==> Bubble(c, State(), node, s) == Bubble(c, old(State()), At(old(current)), s)
        invariant !consumed && s == SigDefrostTimerExpired && node != At(current) ==> Settled()
        decreases Height(node), !consumed
      {
        consumed := StateHandler(node, s);
        if !consumed {
          node := ParentOf(node);
        }
      }
    }

    // -------------------------------------------------------------- events

    /** The data model reports a change; the changes that need more than one signal have their own methods. */
    method DataModelChanged(ev: Event)
      requires Settled()
      modifies this
      ensures State() == Notify(c, old(State()), SignalFor(c, old(env), ev)) && Settled()
    {
      hide Send, PrechillConditionsAreMet, LoadsFit, FlagsFit, TimerFits;
      match ev
      case ReadyChanged(on) =>
        if on { SendSignal(SigReadyToDefrost); }
      case CompressorChanged(_) =>
        if PrechillConditionsAreMet(c, env) { SendSignal(SigPrechillConditionsAreMet); }
      case CoolingModeChanged(_) =>
        if PrechillConditionsAreMet(c, env) { SendSignal(SigPrechillConditionsAreMet); }
      case FreezerThermistorChanged(valid) =>
        if !valid && env.freezerDiscovered { SendSignal(SigThermistorIsInvalid); }
      case EvapThermistorChanged(e, valid) =>
        if !valid && env.evapDiscovered.At(e) { SendSignal(SigThermistorIsInvalid); }
      case EvapTemperatureChanged(e, _) =>
        if env.evapValid.At(e) { SendSignal(SigEvaporatorTemperatureChanged(e)); }
      case CabinetTemperatureChanged(cabinet, _) =>
        if env.cabinetValid.At(cabinet) { SendSignal(SigCabinetTemperatureChanged(cabinet)); }
      case DisableChanged(disabled) =>
        if disabled { SendSignal(SigDisableDefrost); } else { SendSignal(SigEnableDefrost); }
      case SabbathReadyChanged(on) =>
        if on { SendSignal(SigSabbathIsReady); }
      case SabbathModeChanged(on) =>
        if on { SendSignal(SigSabbathEnabled); } else { SendSignal(SigSabbathDisabled); }
      case EnhancedSabbathModeChanged(on) =>
        if on { SendSignal(SigSabbathEnabled); } else { SendSignal(SigSabbathDisabled); }
      case EnhancedSabbathRequestChanged(on) =>
        if on { SendSignal(SigEnhancedSabbathRequest); }
      case _ =>
    }

    method EvaporatorTemperatureChanges(e: Evaporator, temperature: int)
      requires Settled()
      modifies this
      ensures State() == EvapTemperature(c, old(State()), e, temperature) && Settled()
    {
      hide Send, NobodyCares, Votes, CaredLoads;
      env := EnvironmentAfter(env, EvapTemperatureChanged(e, temperature));
      if env.evapValid.At(e) {
        SendSignal(SigEvaporatorTemperatureChanged(e));
        if primary.e0 == Some(e) || primary.e1 == Some(e) {
          SendSignal(SigPrimaryEvaporatorTemperatureChanged(temperature));
        }
      }
    }

    method TestStateIsRequested(request: TestRequest)
      requires Settled()
      modifies this
      ensures State() == Test(c, old(State()), request) && Settled()
    {
      hide Send, NobodyCares, Votes, CaredLoads;
      rec := rec.(request := request);
      match request
      case RequestIdle => SendSignal(SigStateTestRequest);
      case RequestPrechill => SendSignal(SigStateTestRequest);
      case RequestDefrost => SendSignal(SigStateTestRequest);
      case RequestExitHeaterOn => SendSignal(SigExitHeaterOnTestRequest);
      case RequestNone =>
    }

    method Give(role: Role)
      modifies this`env, this`hist, this`primary, this`secondary
      ensures State() == GiveRole(c, old(State()), role)
    {
      hide PrimaryFor, SecondaryFor;
      hist := hist.(roleChanged := hist.roleChanged || (current == HeaterOn && role != env.role));
      env := env.(role := role);
      DivideEvaporators();
    }

    method ConvertibleCompartmentStateChanges(role: Role)
      requires Settled()
      modifies this
      ensures State() == TakeRole(c, old(State()), role) && Settled()
    {
      hide Send, LoadsFit, FlagsFit, TimerFits, PrimaryFor, SecondaryFor;
      Give(role);
      if primary.e0 == Some(Convertible) || primary.e1 == Some(Convertible) {
        SendSignal(SigPrimaryEvaporatorTemperatureChanged(env.evapTemperature.convertible));
      }
    }

    method DefrostTimerExpired()
      requires Settled() && timer == Some(0)
      modifies this
      ensures State() == Send(c, old(State()).(timer := None), SigDefrostTimerExpired) && Settled()
    {
      hide Send, NobodyCares, Votes, CaredLoads;
      StopTimer();
      SendSignal(SigDefrostTimerExpired);
    }

    /** A counter's minute is over: it publishes its new count. */
    method HeaterOnTimeChanges(e: Evaporator)
      requires Settled()
      modifies this
      ensures State() == Minute(c, old(State()), e) && Settled()
    {
      hide Send, NobodyCares, Votes, CaredLoads, CountMinute, AbnormalMinutes;
      var cell := CountMinute(heat.At(e));
      heat := heat.With(e, cell);
      if cell.minutes >= env.maxOnMinutes.At(e) {
        SendSignal(SigHeaterMaxOnTimeReached(e));
      } else if cell.minutes == AbnormalMinutes(c, env.role, e) {
        SendSignal(SigAbnormalHeaterOnTimeReached(e));
      }
    }

    method TimePasses(ms: nat)
      requires Settled() && Enabled(State(), Elapse(ms))
      modifies this`timer, this`heat, this`hist
      ensures State() == Elapsed(old(State()), ms) && Settled()
    {
      hide NobodyCares, Votes, CaredLoads;
      if timer.Some? {
        timer := Some(timer.value - ms);
      }
      heat := PassTimeAll(heat, ms);
      ghost var v := hist.visits;
      hist := hist.(visits := if v == [] then v else v[|v| - 1 := v[|v| - 1].(stayed := v[|v| - 1].stayed + ms)]);
    }

    // -------------------------------------------------------------- start-up

    /** RAM as it is found at power-up; records kept in EEPROM are not touched. */
    /** The records that do not outlive a power cut. */
    method ResetRam()
      modifies this`rec
      ensures rec == old(rec).(request := RequestIdle, dontSkipPrechill := false, useAhamTime := false,
                               tooWarmOnPowerUp := false, invalidThermistorDuringDefrost := false,
                               valveHomingRequested := false, secondaryOnlyBeforeFull := 0,
                               maxTimeFault := Trio(false, false, false))
    {
      rec := rec.(request := RequestIdle, dontSkipPrechill := false, useAhamTime := false,
                  tooWarmOnPowerUp := false, invalidThermistorDuringDefrost := false,
                  valveHomingRequested := false, secondaryOnlyBeforeFull := 0,
                  maxTimeFault := Trio(false, false, false));
    }

    method ResetVotes()
      modifies this`heat, this`loads
      ensures State() == old(State()).(heat := Trio(IDLE_CELL, IDLE_CELL, IDLE_CELL)) && NobodyCares(loads)
    {
      heat := Trio(IDLE_CELL, IDLE_CELL, IDLE_CELL);
      loads := Votes(Loads(0, 0, 0, 0, 0, 0, 0, 0, 0, 0, 0), false);
    }

    method ResetFields()
      modifies this`hsmState, this`current, this`timer, this`primary, this`secondary, this`skipForTest,
               this`skipForDisable
      ensures State() == old(State()).(leaf := Idle, timer := None, primary := NO_SLOTS, secondary := NO_SLOTS,
                                       skipForTest := false, skipForDisable := false)
      ensures hsmState == Idle
    {
      hsmState, current, timer := Idle, Idle, None;
      primary, secondary, skipForTest, skipForDisable := NO_SLOTS, NO_SLOTS, false, false;
    }

    method Reset(next: Environment)
      modifies this
      ensures State() == Blank(old(State()), next)
      ensures NobodyCares(loads) && hsmState == Idle
    {
      env := next;
      ResetRam();
      ResetVotes();
      ResetFields();
    }

    method SetErdIfCabinetFilteredTemperatureIsTooWarm()
      modifies this`rec
      ensures State() == NoteTooWarm(c, old(State()))
    {
      var tooWarm := false;
      if env.cabinetValid.freezer {
        tooWarm := env.cabinetTemperature.freezer > env.freezerExtremeHigh ||
                   env.cabinetTemperature.freezer >= c.data.termination.freezer;
      }
      var slots := [primary.e0, primary.e1];
      for i := 0 to 2
        invariant tooWarm == ((env.cabinetValid.freezer &&
                               (env.cabinetTemperature.freezer > env.freezerExtremeHigh ||
                                env.cabinetTemperature.freezer >= c.data.termination.freezer)) ||
                              (exists j :: 0 <= j < i && SlotIsTooWarm(c, env, slots[j])))
      {
        if slots[i].Some? {
          var e := slots[i].value;
          if env.evapValid.At(e) && env.evapTemperature.At(e) >= c.data.termination.At(e) {
            tooWarm := true;
            assert SlotIsTooWarm(c, env, slots[i]);
            break;
          }
        }
        assert !SlotIsTooWarm(c, env, slots[i]);
      }
      assert SlotIsTooWarm(c, env, slots[0]) == SlotIsTooWarm(c, env, primary.e0);
      assert SlotIsTooWarm(c, env, slots[1]) == SlotIsTooWarm(c, env, primary.e1);
      rec := rec.(tooWarmOnPowerUp := tooWarm);
    }

    method OverrideNextDefrostTypeAtStart()
      modifies this`rec
      ensures State() == OverrideAtStart(old(State()))
    {
      if rec.eepromCleared || rec.tooWarmOnPowerUp || recorded == Disabled {
        rec := rec.(nextTypeOverride := Full);
      }
    }

    method SetTypeWithOneEvaporator()
      modifies this`rec
      ensures State() == TypeWithOneEvaporator(c, old(State()))
    {
      if c.platform.numberOfEvaporators == 1 {
        rec := rec.(defrostType := Full);
      }
    }

    /** Everything before the state machine starts. */
    method PrepareToStart(next: Environment)
      modifies this
      ensures State() == Prepare(c, old(State()), next)
      ensures NobodyCares(loads) && hsmState == Idle
    {
      hide Blank, Partition, ChooseBeforeFull, TypeWithOneEvaporator, NoteTooWarm, OverrideAtStart, NobodyCares;
      Reset(next);
      DivideEvaporators();
      SetTypeWithOneEvaporator();
      DetermineNumberOfSecondaryOnlyDefrostsBeforeAFullDefrost();
      SetErdIfCabinetFilteredTemperatureIsTooWarm();
      OverrideNextDefrostTypeAtStart();
    }

    method InitialState() returns (l: Leaf)
      ensures l == InitialLeaf(State()) && l != HeaterOn
    {
      if rec.eepromCleared {
        return Idle;
      }
      if rec.tooWarmOnPowerUp {
        return if recorded == HeaterOn then Dwell else Idle;
      }
      match recorded
      case Dwell => return Dwell;
      case PrechillPrep => return HeaterOnEntry;
      case Prechill => return HeaterOnEntry;
      case HeaterOn => return HeaterOnEntry;
      case _ => return Idle;
    }

    method UpdateDefrostState()
      modifies this`recorded, this`heat
      ensures recorded == Idle && heat == if old(recorded) == Idle then old(heat) else ReactAll(old(heat), Idle)
    {
      if recorded != Idle {
        recorded := Idle;
        heat := ReactAll(heat, Idle);
      }
    }

    /** Idle as the initial state: its write of the state does not change it, so nothing is published, and the saved
        state is only updated at the very end. */
    method StartInIdle()
      requires NobodyCares(loads) && hsmState == Idle && timer == None && rec.request == RequestIdle
      modifies this
      ensures State() == Arrive(c, old(State()), Idle) && Settled()
    {
      hide ReactAll, Go, NobodyCares, Votes;
      EnterParent(WaitingToDefrost);
      Become(Idle);
      ClearDefrostTestStateRequest();
      UpdateDefrostState();
    }

    /** Defrost_Init after a power cycle. */
    method PowerUpWith(next: Environment)
      modifies this
      ensures State() == PowerUp(c, old(State()), next) && Settled()
    {
      hide Arrive, NobodyCares, Votes, CaredLoads;
      PrepareToStart(next);
      var initial := InitialState();
      if initial == Idle {
        StartInIdle();
      } else {
        EnterParent(Defrosting);
        EnterLeaf(initial);
      }
    }

    // -------------------------------------------------------------- refinement

    method DataChange(next: Environment, override: DefrostType, dontSkip: bool, aham: bool)
      requires Settled()
      modifies this`env, this`rec
      ensures State() == Step(c, old(State()), Background(next, override, dontSkip, aham)) && Settled()
    {
      hide LoadsFit, FlagsFit, TimerFits, Merge;
      env := Merge(env, next);
      rec := rec.(nextTypeOverride := override, dontSkipPrechill := dontSkip, useAhamTime := aham);
    }

    method DataChangesAndTells(ev: Event)
      requires Settled()
      modifies this
      ensures State() == Told(c, old(State()), ev) && Settled()
    {
      hide NobodyCares, Votes, CaredLoads, Notify, SignalFor, EnvironmentAfter;
      env := EnvironmentAfter(env, ev);
      DataModelChanged(ev);
    }

    /** Whatever happens, the controller goes where the flat machine goes and settles. */
    method Happen(ev: Event)
      requires Settled() && Enabled(State(), ev)
      modifies this
      ensures State() == Step(c, old(State()), ev) && Settled()
    {
      hide Settled, EvapTemperature, Test, TakeRole, Elapsed, Minute, PowerUp, Told, Send;
      match ev
      case EvapTemperatureChanged(e, t) => EvaporatorTemperatureChanges(e, t);
      case TestRequested(request) => TestStateIsRequested(request);
      case RoleChanged(role) => ConvertibleCompartmentStateChanges(role);
      case Background(next, override, dontSkip, aham) => DataChange(next, override, dontSkip, aham);
      case Elapse(ms) => TimePasses(ms);
      case DefrostTimerExpires => DefrostTimerExpired();
      case HeaterMinute(e) => HeaterOnTimeChanges(e);
      case PowerCycle(next) => PowerUpWith(next);
      case _ => DataChangesAndTells(ev);
    }
  }
}
