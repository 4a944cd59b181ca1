/**
 The defrost controller as a flat machine: one function per signal, with the hierarchy of
 states already resolved. The imperative controller is proved against it, and the properties
 of whole runs are proved about it.
 */
module DefrostModel {
  import opened Options
  import opened Units
  import opened DefrostTypes

  // ---------------------------------------------------------------- evaporator partition

  predicate HasAllCompartments(p: Platform) {
    p.numberOfEvaporators == 3 && p.hasFreshFood && p.hasFreezer && p.hasConvertible
  }

  function PrimaryFor(p: Platform, role: Role, was: Slots): Slots {
    if HasAllCompartments(p) then
      if role == AsFreshFood then Slots(Some(Freezer), None) else Slots(Some(Freezer), Some(Convertible))
    else if (p.numberOfEvaporators == 1 && p.hasFreezer) || p.numberOfEvaporators == 2 then
      Slots(Some(Freezer), None)
    else if p.numberOfEvaporators == 1 && p.hasFreshFood then
      Slots(Some(FreshFood), None)
    else
      was
  }

  function SecondaryFor(p: Platform, role: Role, was: Slots): Slots {
    if HasAllCompartments(p) then
      if role == AsFreshFood then Slots(Some(FreshFood), Some(Convertible)) else Slots(Some(FreshFood), None)
    else if p.numberOfEvaporators == 1 then NO_SLOTS
    else if p.numberOfEvaporators == 2 then Slots(Some(FreshFood), None)
    else was
  }

  function Partition(c: Config, m: Machine): Machine {
    m.(primary := PrimaryFor(c.platform, m.env.role, m.primary),
       secondary := SecondaryFor(c.platform, m.env.role, m.secondary))
  }

  predicate Covers(m: Machine, e: Evaporator) { m.primary.Has(e) || m.secondary.Has(e) }

  /** The evaporators whose heaters a defrost type turns on. */
  predicate Chosen(t: DefrostType, primary: Slots, secondary: Slots, e: Evaporator) {
    match t
    case Full => primary.Has(e) || secondary.Has(e)
    case SecondaryOnly => secondary.Has(e)
    case DontCare => false
  }

  predicate Selects(m: Machine, e: Evaporator) { Chosen(m.rec.defrostType, m.primary, m.secondary, e) }

  // ---------------------------------------------------------------- heaters and their counters

  /** What an on-time counter does when its heater or the saved defrost state changes. */
  function React(h: HeaterCell, recorded: Leaf): HeaterCell {
    if h.vote.value then
      if recorded == HeaterOn then h.(ticks := Some(0)) else h
    else if recorded == HeaterOn then h.(ticks := None)
    else h.(ticks := None, minutes := 0)
  }

  function VoteCell(h: HeaterCell, v: Vote<bool>, recorded: Leaf): HeaterCell {
    if h.vote == v then h else React(h.(vote := v), recorded)
  }

  function VoteAt(h: Heaters, e: Evaporator, v: Vote<bool>, recorded: Leaf): Heaters {
    h.With(e, VoteCell(h.At(e), v, recorded))
  }

  function VoteSlot(h: Heaters, s: Option<Evaporator>, v: Vote<bool>, recorded: Leaf): Heaters {
    if s.Some? then VoteAt(h, s.value, v, recorded) else h
  }

  function VoteSlots(h: Heaters, s: Slots, v: Vote<bool>, recorded: Leaf): Heaters {
    VoteSlot(VoteSlot(h, s.e0, v, recorded), s.e1, v, recorded)
  }

  function VoteAll(h: Heaters, v: Vote<bool>, recorded: Leaf): Heaters {
    VoteAt(VoteAt(VoteAt(h, Freezer, v, recorded), FreshFood, v, recorded), Convertible, v, recorded)
  }

  function VoteChosen(h: Heaters, t: DefrostType, primary: Slots, secondary: Slots, v: Vote<bool>,
      recorded: Leaf): Heaters {
    match t
    case Full => VoteSlots(VoteSlots(h, primary, v, recorded), secondary, v, recorded)
    case SecondaryOnly => VoteSlots(h, secondary, v, recorded)
    case DontCare => h
  }

  function VoteHeater(m: Machine, e: Evaporator, on: bool, care: bool): Machine {
    m.(heat := VoteAt(m.heat, e, Vote(on, care), m.recorded))
  }

  function VoteAllHeatersOff(m: Machine, care: bool): Machine {
    m.(heat := VoteAll(m.heat, Vote(false, care), m.recorded))
  }

  function VoteSelected(m: Machine, on: bool, care: bool): Machine {
    m.(heat := VoteChosen(m.heat, m.rec.defrostType, m.primary, m.secondary, Vote(on, care), m.recorded))
  }

  predicate SlotIsOff(h: Heaters, s: Option<Evaporator>) {
    s.Some? ==> !h.At(s.value).vote.value
  }

  predicate AllHeatersAreOff(m: Machine) {
    SlotIsOff(m.heat, m.primary.e0) && SlotIsOff(m.heat, m.primary.e1) &&
    SlotIsOff(m.heat, m.secondary.e0) && SlotIsOff(m.heat, m.secondary.e1)
  }

  function ReactAll(h: Heaters, recorded: Leaf): Heaters {
    Trio(React(h.freshFood, recorded), React(h.freezer, recorded), React(h.convertible, recorded))
  }

  /** Saving the defrost state: every counter reacts when the saved value changes. */
  function Save(m: Machine, l: Leaf): Machine {
    if m.recorded == Recorded(l) then m
    else m.(recorded := Recorded(l), heat := ReactAll(m.heat, Recorded(l)))
  }

  // ---------------------------------------------------------------- defrost type

  predicate AtLeastOneSabbathMode(env: Environment) { env.sabbathMode || env.enhancedSabbathMode }

  predicate SlotWas(t: Trio<bool>, s: Option<Evaporator>) { s.Some? && t.At(s.value) }

  /** How many SecondaryOnly defrosts the present conditions ask for between two Full ones. */
  function ChosenBeforeFull(c: Config, m: Machine): uint8 {
    if AtLeastOneSabbathMode(m.env) then c.data.secondaryOnlyBeforeFullInSabbath
    else if SlotWas(m.rec.wasAbnormal, m.primary.e0) || SlotWas(m.rec.wasAbnormal, m.primary.e1) then
      c.data.secondaryOnlyBeforeFullWhenAbnormal
    else c.data.secondaryOnlyBeforeFull
  }

  function ChooseBeforeFull(c: Config, m: Machine): Machine {
    m.(rec := m.rec.(secondaryOnlyBeforeFull := ChosenBeforeFull(c, m)))
  }

  function DecidedType(r: Records): DefrostType {
    if r.nextTypeOverride != DontCare then r.nextTypeOverride
    else if r.secondaryOnlyCount < r.secondaryOnlyBeforeFull then SecondaryOnly
    else Full
  }

  function Decide(m: Machine): Machine {
    var t := DecidedType(m.rec);
    var count := if t == SecondaryOnly then (m.rec.secondaryOnlyCount + 1) % 0x100 else 0;
    m.(rec := m.rec.(defrostType := t, nextTypeOverride := DontCare, secondaryOnlyCount := count),
       hist := m.hist.(decisions := m.hist.decisions + [t]))
  }

  // ---------------------------------------------------------------- conditions

  predicate PrechillConditionsAreMet(c: Config, env: Environment) {
    var p := c.platform;
    env.compressorIsOn &&
    (if (p.numberOfEvaporators == 1 || p.numberOfEvaporators == 2) && p.hasFreezer && p.hasFreshFood then
       env.coolingMode == CoolFreezer
     else if p.numberOfEvaporators == 3 then
       env.coolingMode == if env.role == AsFreezer then CoolConvertible else CoolFreezer
     else true)
  }

  predicate AnyPreviousDefrostWasAbnormal(m: Machine) {
    m.rec.wasAbnormal.freshFood || m.rec.wasAbnormal.freezer ||
    (m.env.hasConvertible && m.rec.wasAbnormal.convertible)
  }

  function PrechillMinutesLeft(c: Config, m: Machine): nat {
    var most := if m.rec.defrostType == SecondaryOnly then c.data.maxPrechillSecondaryOnlyMinutes
                else c.data.maxPrechillMinutes;
    if most > m.env.prechillMinutesMet then most - m.env.prechillMinutesMet else 0
  }

  predicate CabinetEndsPrechill(c: Config, env: Environment, cabinet: Evaporator) {
    match cabinet
    case Freezer => env.cabinetTemperature.freezer <= c.data.prechillFreezerMin
    case FreshFood =>
      !(c.data.prechillFreshFoodMin <= env.cabinetTemperature.freshFood <= c.data.prechillFreshFoodMax)
    case Convertible =>
      if env.role == AsFreezer then env.cabinetTemperature.convertible <= c.data.prechillConvertibleAsFreezerMin
      else !(c.data.prechillConvertibleAsFreshFoodMin <= env.cabinetTemperature.convertible
             <= c.data.prechillConvertibleAsFreshFoodMax)
  }

  predicate SlotEndsPrechill(c: Config, env: Environment, s: Option<Evaporator>) {
    s.Some? && env.evapValid.At(s.value) && env.evapTemperature.At(s.value) <= c.data.prechillPrimaryExit
  }

  predicate PrechillMustEnd(c: Config, m: Machine) {
    PrechillMinutesLeft(c, m) == 0 ||
    (m.env.cabinetValid.freezer && CabinetEndsPrechill(c, m.env, Freezer)) ||
    SlotEndsPrechill(c, m.env, m.primary.e0) || SlotEndsPrechill(c, m.env, m.primary.e1) ||
    (m.env.cabinetValid.freshFood && CabinetEndsPrechill(c, m.env, FreshFood)) ||
    (m.env.cabinetValid.convertible && CabinetEndsPrechill(c, m.env, Convertible))
  }

  predicate AnyKnownThermistorIsInvalid(env: Environment) {
    (!env.cabinetValid.freezer && env.freezerDiscovered) ||
    (!env.evapValid.freezer && env.evapDiscovered.freezer) ||
    (!env.evapValid.freshFood && env.evapDiscovered.freshFood) ||
    (!env.evapValid.convertible && env.evapDiscovered.convertible)
  }

  predicate TemperatureEndsPostDwell(c: Config, r: Records, temperature: int) {
    (r.defrostType == Full && temperature <= c.data.postDwellExit) ||
    (r.defrostType == SecondaryOnly && temperature <= c.data.postDwellSecondaryOnlyExit)
  }

  predicate SlotEndsPostDwell(c: Config, m: Machine, s: Option<Evaporator>) {
    s.Some? && TemperatureEndsPostDwell(c, m.rec, m.env.evapTemperature.At(s.value))
  }

  predicate SlotIsValid(env: Environment, s: Option<Evaporator>) { s.Some? ==> env.evapValid.At(s.value) }

  predicate CoveredThermistorsAreValid(m: Machine) {
    SlotIsValid(m.env, m.primary.e0) && SlotIsValid(m.env, m.primary.e1) &&
    SlotIsValid(m.env, m.secondary.e0) && SlotIsValid(m.env, m.secondary.e1)
  }

  /** The counter value at which a heater's defrost becomes abnormal. */
  function AbnormalMinutes(c: Config, role: Role, e: Evaporator): uint8 {
    match e
    case FreshFood => c.data.abnormalMinutesFreshFood
    case Freezer => c.data.abnormalMinutesFreezer
    case Convertible =>
      if role == AsFreezer then c.data.abnormalMinutesConvertibleAsFreezer
      else c.data.abnormalMinutesConvertibleAsFreshFood
  }

  // ---------------------------------------------------------------- loads

  /** The eleven settings a state cares about; None where the votes are withdrawn. */
  function CaredLoads(c: Config, l: Leaf): Option<Loads<int>> {
    var d := c.data;
    match l
    case Prechill => Some(d.prechillLoads)
    case HeaterOnEntry =>
      Some(Loads(d.heaterOnEntryValve, d.heaterOnEntryFreshFoodDamper, OFF, OFF, OFF, OFF, OFF, OFF, CLOSED, CLOSED,
          OFF))
    case HeaterOn =>
      Some(Loads(d.heaterOnEntryValve, d.heaterOnEntryFreshFoodDamper, OFF, OFF, OFF, OFF, OFF, OFF, CLOSED, CLOSED,
          OFF))
    case Dwell =>
      Some(Loads(d.dwellValve, d.dwellFreshFoodDamper, OFF, OFF, OFF, OFF, OFF, OFF, CLOSED, CLOSED, OFF))
    case PostDwell =>
      Some(d.postDwellLoads.(freezerFan := OFF, freshFoodFan := OFF, iceCabinetFan := OFF, deliFan := OFF,
                             convertibleFan := OFF))
    case _ => None
  }

  // ---------------------------------------------------------------- leaving a state

  function CountSlot(t: Trio<uint16>, s: Option<Evaporator>): Trio<uint16> {
    if s.Some? then t.With(s.value, (t.At(s.value) + 1) % 0x1_0000) else t
  }

  function CountSlots(t: Trio<uint16>, s: Slots): Trio<uint16> { CountSlot(CountSlot(t, s.e0), s.e1) }

  function CountChosen(n: Trio<uint16>, t: DefrostType, primary: Slots, secondary: Slots): Trio<uint16> {
    match t
    case Full => CountSlots(CountSlots(n, primary), secondary)
    case SecondaryOnly => CountSlots(n, secondary)
    case DontCare => n
  }

  function LeaveIdle(c: Config, m: Machine): Machine {
    var m1 := Partition(c, m.(rec := m.rec.(tooWarmOnPowerUp := false, eepromCleared := false)));
    var m2 := if m1.skipForTest || m1.skipForDisable then m1 else Decide(ChooseBeforeFull(c, m1));
    m2.(skipForTest := false)
  }

  function LeaveHeaterOn(m: Machine): Machine {
    var r := m.rec.(
      invalidThermistorDuringDefrost := m.rec.invalidThermistorDuringDefrost && !CoveredThermistorsAreValid(m),
      defrosts := CountChosen(m.rec.defrosts, m.rec.defrostType, m.primary, m.secondary));
    VoteSelected(m, false, false).(rec := r)
  }

  function Leave(c: Config, m: Machine): Machine {
    match m.leaf
    case Idle => LeaveIdle(c, m)
    case HeaterOn => LeaveHeaterOn(m)
    case PrechillPrep => m.(timer := None)
    case Prechill => m.(timer := None)
    case HeaterOnEntry => m.(timer := None)
    case Dwell => VoteAllHeatersOff(m.(timer := None), false)
    case PostDwell => VoteAllHeatersOff(m.(timer := None), false)
    case Disabled => VoteAllHeatersOff(m, false).(skipForDisable := false)
  }

  // ---------------------------------------------------------------- arriving in a state

  function Rank(l: Leaf): nat {
    match l
    case Idle => 4
    case PrechillPrep => 3
    case Prechill => 2
    case HeaterOnEntry => 1
    case _ => 0
  }

  function Come(m: Machine, l: Leaf): Machine {
    m.(leaf := l, hist := m.hist.(visits := m.hist.visits + [Visit(l, 0)]))
  }

  function ClearRequest(m: Machine): Machine { m.(rec := m.rec.(request := RequestNone)) }

  function Arrive(c: Config, m: Machine, l: Leaf): Machine
    decreases Rank(l), 0
  {
    var m0 := Come(m, l);
    match l
    case Idle =>
      var m1 := Save(m0, Idle);
      (match m1.rec.request
       case RequestPrechill => Go(c, m1, PrechillPrep)
       case RequestDefrost => Go(c, m1, HeaterOnEntry)
       case RequestIdle => ClearRequest(m1)
       case _ => m1)
    case PrechillPrep =>
      if AnyKnownThermistorIsInvalid(m0.env) then Go(c, m0, HeaterOnEntry)
      else
        var m1 := Save(m0, PrechillPrep);
        var m2 := m1.(rec := m1.rec.(dontSkipPrechill := false, request := RequestNone, useAhamTime := false));
        if PrechillConditionsAreMet(c, m2.env) then Go(c, m2, Prechill)
        else m2.(timer := Some(c.data.maxPrechillPrepMinutes * MSEC_PER_MIN))
    case Prechill =>
      var m1 := Save(m0, Prechill);
      if PrechillMustEnd(c, m1) then Go(c, m1, HeaterOnEntry)
      else m1.(timer := Some(PrechillMinutesLeft(c, m1) * MSEC_PER_MIN))
    case HeaterOnEntry =>
      ClearRequest(Save(m0, HeaterOnEntry)).(timer := Some(c.data.heaterOnDelaySeconds * MSEC_PER_SEC))
    case HeaterOn =>
      var m1 := VoteSelected(Save(m0, HeaterOn), true, true);
      m1.(hist := m1.hist.(abnormalFired := Trio(0, 0, 0), roleChanged := false))
    case Dwell =>
      var m1 := Save(m0, Dwell);
      var m2 := VoteAllHeatersOff(m1.(rec := m1.rec.(valveHomingRequested := true)), true);
      ClearRequest(m2.(timer := Some(c.data.dwellMinutes * MSEC_PER_MIN)))
    case PostDwell =>
      var m1 := VoteAllHeatersOff(Save(m0, PostDwell), true);
      m1.(timer := Some(MSEC_PER_MIN * if m1.rec.defrostType == SecondaryOnly
                                       then c.data.postDwellSecondaryOnlyMinutes else c.data.postDwellMinutes))
    case Disabled =>
      VoteAllHeatersOff(Save(m0, Disabled), true)
  }

  function Go(c: Config, m: Machine, l: Leaf): Machine
    decreases Rank(l), 1
  {
    Arrive(c, Leave(c, m), l)
  }

  // ---------------------------------------------------------------- signals

  /** Where readiness takes Idle, if anywhere. */
  function IdleReadyTarget(m: Machine): Option<Leaf> {
    if AtLeastOneSabbathMode(m.env) || !m.env.readyToDefrost then None
    else if !m.rec.dontSkipPrechill &&
            (AnyPreviousDefrostWasAbnormal(m) || m.rec.tooWarmOnPowerUp ||
             m.rec.invalidThermistorDuringDefrost || m.rec.eepromCleared) then Some(HeaterOnEntry)
    else Some(PrechillPrep)
  }

  function IdleSabbathTarget(m: Machine): Option<Leaf> {
    if !AtLeastOneSabbathMode(m.env) || !m.env.sabbathIsReady then None
    else if !m.env.enhancedSabbathMode then Some(PrechillPrep)
    else if m.env.enhancedSabbathIsRequesting then Some(HeaterOnEntry)
    else None
  }

  function GoIf(c: Config, m: Machine, l: Option<Leaf>): Machine { if l.Some? then Go(c, m, l.value) else m }

  function DwellIfAllOff(c: Config, m: Machine): Machine {
    if AllHeatersAreOff(m) then Go(c, m, Dwell) else m
  }

  function HeaterMaxOnTime(c: Config, m: Machine, e: Evaporator): Machine {
    var m1 := VoteHeater(m, e, false, true);
    var m2 := if m1.env.evapValid.At(e) then m1.(rec := m1.rec.(maxTimeFault := m1.rec.maxTimeFault.With(e, true)))
              else m1.(rec := m1.rec.(invalidThermistorDuringDefrost := true));
    DwellIfAllOff(c, m2)
  }

  function HeaterTemperature(c: Config, m: Machine, e: Evaporator): Machine {
    if m.env.evapTemperature.At(e) < c.data.termination.At(e) then m
    else
      var m1 := VoteHeater(m, e, false, true);
      var m2 := if m1.heat.At(e).minutes < AbnormalMinutes(c, m1.env.role, e)
                then m1.(rec := m1.rec.(wasAbnormal := m1.rec.wasAbnormal.With(e, false))) else m1;
      DwellIfAllOff(c, m2.(rec := m2.rec.(maxTimeFault := m2.rec.maxTimeFault.With(e, false))))
  }

  function HeaterAbnormal(m: Machine, e: Evaporator): Machine {
    m.(rec := m.rec.(abnormalDefrosts := m.rec.abnormalDefrosts.With(e, (m.rec.abnormalDefrosts.At(e) + 1) % 0x1_0000),
                     wasAbnormal := m.rec.wasAbnormal.With(e, true)),
       hist := m.hist.(abnormalFired := m.hist.abnormalFired.With(e, m.hist.abnormalFired.At(e) + 1)))
  }

  /** What a leaf does itself with a signal; None when it defers the signal to its parent. */
  function LeafHandles(c: Config, m: Machine, s: Signal): Option<Machine> {
    match (m.leaf, s)
    case (Idle, SigReadyToDefrost) => Some(GoIf(c, m, IdleReadyTarget(m)))
    case (Idle, SigSabbathDisabled) => Some(GoIf(c, m, IdleReadyTarget(m)))
    case (Idle, SigEnhancedSabbathRequest) => Some(GoIf(c, m, IdleSabbathTarget(m)))
    case (Idle, SigSabbathIsReady) => Some(GoIf(c, m, IdleSabbathTarget(m)))
    case (Idle, SigSabbathEnabled) => Some(GoIf(c, m, IdleSabbathTarget(m)))
    case (PrechillPrep, SigPrechillConditionsAreMet) => Some(Go(c, m, Prechill))
    case (PrechillPrep, SigDefrostTimerExpired) => Some(Go(c, m, Prechill))
    case (Prechill, SigCabinetTemperatureChanged(cab)) =>
      Some(if CabinetEndsPrechill(c, m.env, cab) then Go(c, m, HeaterOnEntry) else m)
    case (Prechill, SigPrimaryEvaporatorTemperatureChanged(t)) =>
      Some(if t <= c.data.prechillPrimaryExit then Go(c, m, HeaterOnEntry) else m)
    case (Prechill, SigPrechillExitConditionMet) => Some(Go(c, m, HeaterOnEntry))
    case (Prechill, SigDefrostTimerExpired) => Some(Go(c, m, HeaterOnEntry))
    case (HeaterOnEntry, SigDefrostTimerExpired) => Some(Go(c, m, HeaterOn))
    case (HeaterOnEntry, SigExitHeaterOnTestRequest) => Some(Go(c, m, Dwell))
    case (HeaterOn, SigHeaterMaxOnTimeReached(e)) => Some(HeaterMaxOnTime(c, m, e))
    case (HeaterOn, SigAbnormalHeaterOnTimeReached(e)) => Some(HeaterAbnormal(m, e))
    case (HeaterOn, SigEvaporatorTemperatureChanged(e)) => Some(HeaterTemperature(c, m, e))
    case (HeaterOn, SigExitHeaterOnTestRequest) => Some(Go(c, m, Dwell))
    case (Dwell, SigDefrostTimerExpired) =>
      Some(if SlotEndsPostDwell(c, m, m.primary.e0) || SlotEndsPostDwell(c, m, m.primary.e1)
           then Go(c, m, Idle) else Go(c, m, PostDwell))
    case (PostDwell, SigDefrostTimerExpired) => Some(Go(c, m, Idle))
    case (PostDwell, SigPrimaryEvaporatorTemperatureChanged(t)) =>
      Some(if TemperatureEndsPostDwell(c, m.rec, t) then Go(c, m, Idle) else m)
    case (Disabled, SigEnableDefrost) => Some(Go(c, m, Idle))
    case (Disabled, SigStateTestRequest) => Some(ClearRequest(m))
    case (Disabled, SigExitHeaterOnTestRequest) => Some(ClearRequest(m))
    case _ => None
  }

  /** What the parents of a leaf do with a signal that the leaf defers. */
  function ParentHandles(c: Config, m: Machine, s: Signal): Machine {
    match m.leaf
    case Disabled => m
    case Idle => WaitingHandles(c, m, s)
    case PostDwell => WaitingHandles(c, m, s)
    case PrechillPrep => if s.SigThermistorIsInvalid? then Go(c, m, HeaterOnEntry) else DefrostingHandles(c, m, s)
    case Prechill => if s.SigThermistorIsInvalid? then Go(c, m, HeaterOnEntry) else DefrostingHandles(c, m, s)
    case _ => DefrostingHandles(c, m, s)
  }

  function WaitingHandles(c: Config, m: Machine, s: Signal): Machine {
    match s
    case SigDisableDefrost => Go(c, m.(skipForDisable := true), Disabled)
    case SigStateTestRequest => Go(c, m.(skipForTest := true), Idle)
    case SigExitHeaterOnTestRequest => ClearRequest(m)
    case _ => m
  }

  function DefrostingHandles(c: Config, m: Machine, s: Signal): Machine {
    match s
    case SigDisableDefrost => Go(c, m, Disabled)
    case SigStateTestRequest => Go(c, m, Idle)
    case SigExitHeaterOnTestRequest => ClearRequest(m)
    case _ => m
  }

  function Send(c: Config, m: Machine, s: Signal): Machine {
    var h := LeafHandles(c, m, s);
    if h.Some? then h.value else ParentHandles(c, m, s)
  }

  // ---------------------------------------------------------------- events

  /** Changes of the data the controller reads without being told. */
  function Merge(env: Environment, next: Environment): Environment {
    env.(hasConvertible := next.hasConvertible,
         evapDiscovered := next.evapDiscovered,
         freezerDiscovered := next.freezerDiscovered,
         cabinetValid := next.cabinetValid.(freezer := env.cabinetValid.freezer),
         freezerExtremeHigh := next.freezerExtremeHigh,
         prechillMinutesMet := next.prechillMinutesMet,
         maxOnMinutes := next.maxOnMinutes)
  }

  function PassTime(cell: HeaterCell, ms: nat): HeaterCell {
    if cell.ticks.Some? then cell.(ticks := Some(cell.ticks.value + ms)) else cell
  }

  function PassTimeAll(h: Heaters, ms: nat): Heaters {
    Trio(PassTime(h.freshFood, ms), PassTime(h.freezer, ms), PassTime(h.convertible, ms))
  }

  function Elapsed(m: Machine, ms: nat): Machine {
    var v := m.hist.visits;
    m.(timer := if m.timer.Some? then Some(if m.timer.value > ms then m.timer.value - ms else 0) else None,
       heat := PassTimeAll(m.heat, ms),
       hist := m.hist.(visits := if v == [] then v else v[|v| - 1 := v[|v| - 1].(stayed := v[|v| - 1].stayed + ms)]))
  }

  /** What the controller does when a counter publishes a new minute count. */
  function OnTimeChanged(c: Config, m: Machine, e: Evaporator, minutes: uint8): Machine {
    if minutes >= m.env.maxOnMinutes.At(e) then Send(c, m, SigHeaterMaxOnTimeReached(e))
    else if minutes == AbnormalMinutes(c, m.env.role, e) then Send(c, m, SigAbnormalHeaterOnTimeReached(e))
    else m
  }

  /** A counter's periodic timer: the count is eight bits wide. */
  function CountMinute(h: HeaterCell): HeaterCell {
    h.(ticks := Some(0), minutes := (h.minutes + 1) % 0x100)
  }

  function Minute(c: Config, m: Machine, e: Evaporator): Machine {
    var h := CountMinute(m.heat.At(e));
    OnTimeChanged(c, m.(heat := m.heat.With(e, h)), e, h.minutes)
  }

  predicate SlotIsTooWarm(c: Config, env: Environment, s: Option<Evaporator>) {
    s.Some? && env.evapValid.At(s.value) && env.evapTemperature.At(s.value) >= c.data.termination.At(s.value)
  }

  predicate TooWarmOnPowerUp(c: Config, m: Machine) {
    (m.env.cabinetValid.freezer &&
     (m.env.cabinetTemperature.freezer > m.env.freezerExtremeHigh ||
      m.env.cabinetTemperature.freezer >= c.data.termination.freezer)) ||
    SlotIsTooWarm(c, m.env, m.primary.e0) || SlotIsTooWarm(c, m.env, m.primary.e1)
  }

  function InitialLeaf(m: Machine): Leaf {
    if m.rec.eepromCleared then Idle
    else if m.rec.tooWarmOnPowerUp then (if m.recorded == HeaterOn then Dwell else Idle)
    else if m.recorded == Dwell then Dwell
    else if m.recorded == PrechillPrep || m.recorded == Prechill || m.recorded == HeaterOn then HeaterOnEntry
    else Idle
  }

  /** Start-up: only the saved records and the saved state outlive a power cycle. */
  function Blank(m: Machine, env: Environment): Machine {
    m.(leaf := Idle, timer := None, env := env,
       rec := m.rec.(request := RequestIdle, dontSkipPrechill := false, useAhamTime := false,
                     tooWarmOnPowerUp := false, invalidThermistorDuringDefrost := false,
                     valveHomingRequested := false, secondaryOnlyBeforeFull := 0,
                     maxTimeFault := Trio(false, false, false)),
       heat := Trio(IDLE_CELL, IDLE_CELL, IDLE_CELL),
       primary := NO_SLOTS, secondary := NO_SLOTS, skipForTest := false, skipForDisable := false)
  }

  function TypeWithOneEvaporator(c: Config, m: Machine): Machine {
    if c.platform.numberOfEvaporators == 1 then m.(rec := m.rec.(defrostType := Full)) else m
  }

  function NoteTooWarm(c: Config, m: Machine): Machine { m.(rec := m.rec.(tooWarmOnPowerUp := TooWarmOnPowerUp(c, m))) }

  function OverrideAtStart(m: Machine): Machine {
    if m.rec.eepromCleared || m.rec.tooWarmOnPowerUp || m.recorded == Disabled
    then m.(rec := m.rec.(nextTypeOverride := Full)) else m
  }

  function Prepare(c: Config, m: Machine, env: Environment): Machine {
    OverrideAtStart(NoteTooWarm(c, ChooseBeforeFull(c, TypeWithOneEvaporator(c, Partition(c, Blank(m, env))))))
  }

  function PowerUp(c: Config, m: Machine, env: Environment): Machine {
    var m1 := Prepare(c, m, env);
    Arrive(c, m1, InitialLeaf(m1))
  }

  /** What an event changes of the data the controller reads. */
  function EnvironmentAfter(env: Environment, ev: Event): Environment {
    match ev
    case ReadyChanged(on) => env.(readyToDefrost := on)
    case CompressorChanged(on) => env.(compressorIsOn := on)
    case CoolingModeChanged(mode) => env.(coolingMode := mode)
    case FreezerThermistorChanged(valid) => env.(cabinetValid := env.cabinetValid.(freezer := valid))
    case EvapThermistorChanged(e, valid) => env.(evapValid := env.evapValid.With(e, valid))
    case EvapTemperatureChanged(e, t) => env.(evapTemperature := env.evapTemperature.With(e, t))
    case CabinetTemperatureChanged(cab, t) => env.(cabinetTemperature := env.cabinetTemperature.With(cab, t))
    case SabbathReadyChanged(on) => env.(sabbathIsReady := on)
    case SabbathModeChanged(on) => env.(sabbathMode := on)
    case EnhancedSabbathModeChanged(on) => env.(enhancedSabbathMode := on)
    case EnhancedSabbathRequestChanged(on) => env.(enhancedSabbathIsRequesting := on)
    case _ => env
  }

  /** The signal such an event is turned into, if any; env is the data after the event. */
  function SignalFor(c: Config, env: Environment, ev: Event): Option<Signal> {
    match ev
    case ReadyChanged(on) => if on then Some(SigReadyToDefrost) else None
    case CompressorChanged(_) => if PrechillConditionsAreMet(c, env) then Some(SigPrechillConditionsAreMet) else None
    case CoolingModeChanged(_) => if PrechillConditionsAreMet(c, env) then Some(SigPrechillConditionsAreMet) else None
    case FreezerThermistorChanged(valid) =>
      if !valid && env.freezerDiscovered then Some(SigThermistorIsInvalid) else None
    case EvapThermistorChanged(e, valid) =>
      if !valid && env.evapDiscovered.At(e) then Some(SigThermistorIsInvalid) else None
    case EvapTemperatureChanged(e, _) => if env.evapValid.At(e) then Some(SigEvaporatorTemperatureChanged(e)) else None
    case CabinetTemperatureChanged(cab, _) =>
      if env.cabinetValid.At(cab) then Some(SigCabinetTemperatureChanged(cab)) else None
    case DisableChanged(disabled) => Some(if disabled then SigDisableDefrost else SigEnableDefrost)
    case SabbathReadyChanged(on) => if on then Some(SigSabbathIsReady) else None
    case SabbathModeChanged(on) => Some(if on then SigSabbathEnabled else SigSabbathDisabled)
    case EnhancedSabbathModeChanged(on) => Some(if on then SigSabbathEnabled else SigSabbathDisabled)
    case EnhancedSabbathRequestChanged(on) => if on then Some(SigEnhancedSabbathRequest) else None
    case _ => None
  }

  function Notify(c: Config, m: Machine, s: Option<Signal>): Machine {
    if s.Some? then Send(c, m, s.value) else m
  }

  function Told(c: Config, m: Machine, ev: Event): Machine {
    var env := EnvironmentAfter(m.env, ev);
    Notify(c, m.(env := env), SignalFor(c, env, ev))
  }

  /** A valid evaporator temperature is signalled twice when the evaporator is a primary one. */
  function EvapTemperature(c: Config, m: Machine, e: Evaporator, t: int): Machine {
    var r := Told(c, m, EvapTemperatureChanged(e, t));
    if m.env.evapValid.At(e) && r.primary.Has(e) then Send(c, r, SigPrimaryEvaporatorTemperatureChanged(t)) else r
  }

  function Test(c: Config, m: Machine, request: TestRequest): Machine {
    var m1 := m.(rec := m.rec.(request := request));
    match request
    case RequestNone => m1
    case RequestExitHeaterOn => Send(c, m1, SigExitHeaterOnTestRequest)
    case _ => Send(c, m1, SigStateTestRequest)
  }

  /** The evaporators are divided anew for a role. */
  function GiveRole(c: Config, m: Machine, role: Role): Machine {
    var changed := m.hist.roleChanged || (m.leaf == HeaterOn && role != m.env.role);
    Partition(c, m.(env := m.env.(role := role), hist := m.hist.(roleChanged := changed)))
  }

  function TakeRole(c: Config, m: Machine, role: Role): Machine {
    var m1 := GiveRole(c, m, role);
    if m1.primary.Has(Convertible)
    then Send(c, m1, SigPrimaryEvaporatorTemperatureChanged(m1.env.evapTemperature.convertible)) else m1
  }

  function Step(c: Config, m: Machine, ev: Event): Machine {
    match ev
    case EvapTemperatureChanged(e, t) => EvapTemperature(c, m, e, t)
    case TestRequested(request) => Test(c, m, request)
    case RoleChanged(role) => TakeRole(c, m, role)
    case Background(next, override, dontSkip, aham) =>
      m.(env := Merge(m.env, next),
         rec := m.rec.(nextTypeOverride := override, dontSkipPrechill := dontSkip, useAhamTime := aham))
    case Elapse(ms) => Elapsed(m, ms)
    case DefrostTimerExpires => Send(c, m.(timer := None), SigDefrostTimerExpired)
    case HeaterMinute(e) => Minute(c, m, e)
    case PowerCycle(next) => PowerUp(c, m, next)
    case _ => Told(c, m, ev)
  }
}
