/**
 The defrost machine as one table over events: what every event leads to, spelled out from the readings, the
 records and the fitted evaporators, without signals, parent states, nested transitions or evaporator slots.
 */
module DefrostTable {
  import opened Options
  import opened Units
  import opened DefrostTypes
  import opened DefrostModel
  import opened DefrostRuns
  import opened DefrostTiming

  // ---------------------------------------------------------------- the groups

  /** Freezers are primary, and so is a fresh food evaporator that is the only one. */
  predicate IsPrimary(p: Platform, role: Role, e: Evaporator) {
    e in Fitted(p) &&
    match e
    case Freezer => true
    case FreshFood => Freezer !in Fitted(p)
    case Convertible => role == AsFreezer
  }

  /** The evaporators that a defrost of a type heats. */
  predicate IsHeated(p: Platform, role: Role, t: DefrostType, e: Evaporator) {
    e in Fitted(p) && (t == Full || (t == SecondaryOnly && !IsPrimary(p, role, e)))
  }

  lemma GroupsByRole(c: Config, m: Machine)
    requires Partitioned(c, m)
    ensures forall e: Evaporator :: m.primary.Has(e) <==> IsPrimary(c.platform, m.env.role, e)
    ensures forall e: Evaporator :: Covers(m, e) <==> e in Fitted(c.platform)
    ensures forall e: Evaporator :: Selects(m, e) <==> IsHeated(c.platform, m.env.role, m.rec.defrostType, e)
  {
    forall e: Evaporator
      ensures m.primary.Has(e) <==> IsPrimary(c.platform, m.env.role, e)
      ensures Covers(m, e) <==> e in Fitted(c.platform)
      ensures Selects(m, e) <==> IsHeated(c.platform, m.env.role, m.rec.defrostType, e)
    {
      match e case FreshFood => case Freezer => case Convertible =>
    }
  }

  // ---------------------------------------------------------------- readings

  predicate CoolingIsRead(env: Environment, ev: Event, after: Environment) {
    after.readyToDefrost == (if ev.ReadyChanged? then ev.on else env.readyToDefrost) &&
    after.compressorIsOn == (if ev.CompressorChanged? then ev.on else env.compressorIsOn) &&
    after.coolingMode == (if ev.CoolingModeChanged? then ev.mode else env.coolingMode) &&
    after.role == if ev.RoleChanged? then ev.role else env.role
  }

  predicate SabbathIsRead(env: Environment, ev: Event, after: Environment) {
    after.sabbathMode == (if ev.SabbathModeChanged? then ev.on else env.sabbathMode) &&
    after.enhancedSabbathMode == (if ev.EnhancedSabbathModeChanged? then ev.on else env.enhancedSabbathMode) &&
    after.sabbathIsReady == (if ev.SabbathReadyChanged? then ev.on else env.sabbathIsReady) &&
    after.enhancedSabbathIsRequesting ==
      if ev.EnhancedSabbathRequestChanged? then ev.on else env.enhancedSabbathIsRequesting
  }

  predicate ThermistorsAreRead(env: Environment, ev: Event, after: Environment) {
    forall e: Evaporator ::
      after.evapValid.At(e) == (if ev.EvapThermistorChanged? && ev.evap == e then ev.valid else env.evapValid.At(e)) &&
      after.evapTemperature.At(e) ==
        (if ev.EvapTemperatureChanged? && ev.evap == e then ev.temperature else env.evapTemperature.At(e)) &&
      after.cabinetTemperature.At(e) ==
        (if ev.CabinetTemperatureChanged? && ev.cabinet == e then ev.temperature else env.cabinetTemperature.At(e)) &&
      after.cabinetValid.At(e) ==
        if ev.FreezerThermistorChanged? && e == Freezer then ev.valid
        else if ev.Background? && e != Freezer then ev.next.cabinetValid.At(e)
        else env.cabinetValid.At(e)
  }

  /** What changes without the controller being told of it. */
  predicate SilentIsRead(env: Environment, ev: Event, after: Environment) {
    var now := if ev.Background? then ev.next else env;
    after.hasConvertible == now.hasConvertible && after.evapDiscovered == now.evapDiscovered &&
    after.freezerDiscovered == now.freezerDiscovered && after.freezerExtremeHigh == now.freezerExtremeHigh &&
    after.prechillMinutesMet == now.prechillMinutesMet && after.maxOnMinutes == now.maxOnMinutes
  }

  /** What the controller reads after an event, field by field. */
  predicate IsRead(env: Environment, ev: Event, after: Environment) {
    CoolingIsRead(env, ev, after) && SabbathIsRead(env, ev, after) && ThermistorsAreRead(env, ev, after) &&
    SilentIsRead(env, ev, after)
  }

  predicate Sabbath(env: Environment) { env.sabbathMode || env.enhancedSabbathMode }

  /** A thermistor that has been discovered has failed. */
  predicate KnownFault(env: Environment) {
    (env.freezerDiscovered && !env.cabinetValid.freezer) ||
    exists e: Evaporator :: env.evapDiscovered.At(e) && !env.evapValid.At(e)
  }

  /** The cooling mode that prechilling waits for, if any. */
  function PrechillMode(p: Platform, role: Role): Option<CoolingMode> {
    if p.numberOfEvaporators == 3 && role == AsFreezer then Some(CoolConvertible)
    else if p.numberOfEvaporators == 3 then Some(CoolFreezer)
    else if 1 <= p.numberOfEvaporators <= 2 && p.hasFreezer && p.hasFreshFood then Some(CoolFreezer)
    else None
  }

  predicate CoolsForPrechill(p: Platform, env: Environment) {
    env.compressorIsOn && (PrechillMode(p, env.role).Some? ==> env.coolingMode == PrechillMode(p, env.role).value)
  }

  /** A cabinet may be chilled further: one that freezes above its lowest temperature, another within its band. */
  predicate MayChill(d: DefrostData, env: Environment, cabinet: Evaporator) {
    var t := env.cabinetTemperature.At(cabinet);
    if cabinet == Freezer then t > d.prechillFreezerMin
    else if cabinet == Convertible && env.role == AsFreezer then t > d.prechillConvertibleAsFreezerMin
    else if cabinet == Convertible then
      d.prechillConvertibleAsFreshFoodMin <= t && t <= d.prechillConvertibleAsFreshFoodMax
    else d.prechillFreshFoodMin <= t && t <= d.prechillFreshFoodMax
  }

  function PrechillMinutes(d: DefrostData, t: DefrostType): uint8 {
    if t == SecondaryOnly then d.maxPrechillSecondaryOnlyMinutes else d.maxPrechillMinutes
  }

  /** Prechill has nothing to do: its time was met before it, or a valid thermistor is out of range. */
  predicate PrechillIsOver(c: Config, env: Environment, t: DefrostType) {
    env.prechillMinutesMet >= PrechillMinutes(c.data, t) ||
    (exists e: Evaporator :: IsPrimary(c.platform, env.role, e) && env.evapValid.At(e) &&
                             env.evapTemperature.At(e) <= c.data.prechillPrimaryExit) ||
    exists cabinet: Evaporator :: env.cabinetValid.At(cabinet) && !MayChill(c.data, env, cabinet)
  }

  /** A primary evaporator this cold ends PostDwell. */
  predicate IsColdAgain(d: DefrostData, t: DefrostType, temperature: int) {
    match t
    case Full => temperature <= d.postDwellExit
    case SecondaryOnly => temperature <= d.postDwellSecondaryOnlyExit
    case DontCare => false
  }

  // ---------------------------------------------------------------- the decision

  /** How many SecondaryOnly defrosts come between two Full ones under the present conditions. */
  function NextN(c: Config, r: Records, env: Environment): uint8 {
    if Sabbath(env) then c.data.secondaryOnlyBeforeFullInSabbath
    else if exists e: Evaporator :: IsPrimary(c.platform, env.role, e) && r.wasAbnormal.At(e) then
      c.data.secondaryOnlyBeforeFullWhenAbnormal
    else c.data.secondaryOnlyBeforeFull
  }

  function NextType(c: Config, r: Records, env: Environment): DefrostType {
    match r.nextTypeOverride
    case Full => Full
    case SecondaryOnly => SecondaryOnly
    case DontCare => if r.secondaryOnlyCount >= NextN(c, r, env) then Full else SecondaryOnly
  }

  // ---------------------------------------------------------------- where an event leads

  /** A waiting defrost begins with the heaters at once. */
  predicate SkipsPrechill(r: Records, env: Environment) {
    !r.dontSkipPrechill &&
    (r.tooWarmOnPowerUp || r.eepromCleared || r.invalidThermistorDuringDefrost ||
     exists e: Evaporator :: r.wasAbnormal.At(e) && (e == Convertible ==> env.hasConvertible))
  }

  function IdleAim(r: Records, ev: Event, env: Environment): Option<Leaf> {
    if ev == ReadyChanged(true) || ev == SabbathModeChanged(false) || ev == EnhancedSabbathModeChanged(false) then
      if Sabbath(env) || !env.readyToDefrost then None
      else if SkipsPrechill(r, env) then Some(HeaterOnEntry)
      else Some(PrechillPrep)
    else if ev == SabbathReadyChanged(true) || ev == EnhancedSabbathRequestChanged(true) ||
            ev == SabbathModeChanged(true) || ev == EnhancedSabbathModeChanged(true) then
      if !Sabbath(env) || !env.sabbathIsReady then None
      else if !env.enhancedSabbathMode then Some(PrechillPrep)
      else if env.enhancedSabbathIsRequesting then Some(HeaterOnEntry)
      else None
    else None
  }

  /** A discovered thermistor fails now. */
  predicate ThermistorFails(ev: Event, env: Environment) {
    (ev == FreezerThermistorChanged(false) && env.freezerDiscovered) ||
    (ev.EvapThermistorChanged? && !ev.valid && env.evapDiscovered.At(ev.evap))
  }

  /** The temperature of a primary evaporator that an event brings; a new role brings the convertible one's, valid or
      not. */
  function PrimaryTemperature(c: Config, ev: Event, env: Environment): Option<int> {
    if ev.EvapTemperatureChanged? && env.evapValid.At(ev.evap) && IsPrimary(c.platform, env.role, ev.evap) then
      Some(ev.temperature)
    else if ev.RoleChanged? && IsPrimary(c.platform, env.role, Convertible) then Some(env.evapTemperature.convertible)
    else None
  }

  function PrechillPrepAim(c: Config, ev: Event, env: Environment): Option<Leaf> {
    if ThermistorFails(ev, env) then Some(HeaterOnEntry)
    else if ev.DefrostTimerExpires? then Some(Prechill)
    else if (ev.CompressorChanged? || ev.CoolingModeChanged?) && CoolsForPrechill(c.platform, env) then Some(Prechill)
    else None
  }

  function PrechillAim(c: Config, ev: Event, env: Environment): Option<Leaf> {
    var t := PrimaryTemperature(c, ev, env);
    if ThermistorFails(ev, env) || ev.DefrostTimerExpires? || (t.Some? && t.value <= c.data.prechillPrimaryExit) ||
       (ev.CabinetTemperatureChanged? && env.cabinetValid.At(ev.cabinet) && !MayChill(c.data, env, ev.cabinet)) then
      Some(HeaterOnEntry)
    else None
  }

  /** An event that turns off the heater of its evaporator in HeaterOn. */
  predicate EndsHeater(c: Config, m: Machine, ev: Event) {
    (ev.EvapTemperatureChanged? && m.env.evapValid.At(ev.evap) && ev.temperature >= c.data.termination.At(ev.evap)) ||
    (ev.HeaterMinute? && PublishedMinute(m, ev.evap) >= m.env.maxOnMinutes.At(ev.evap))
  }

  /** The minute count that a counter publishes next. */
  function PublishedMinute(m: Machine, e: Evaporator): uint8 { (m.heat.At(e).minutes + 1) % 0x100 }

  predicate AnotherIsOn(c: Config, m: Machine, e: Evaporator) {
    exists o: Evaporator :: o != e && o in Fitted(c.platform) && On(m, o)
  }

  function DwellAim(c: Config, m: Machine, ev: Event): Option<Leaf> {
    if !ev.DefrostTimerExpires? then None
    else if exists e: Evaporator :: IsPrimary(c.platform, m.env.role, e) &&
              IsColdAgain(c.data, m.rec.defrostType, m.env.evapTemperature.At(e)) then Some(Idle)
    else Some(PostDwell)
  }

  function PostDwellAim(c: Config, m: Machine, ev: Event, env: Environment): Option<Leaf> {
    var t := PrimaryTemperature(c, ev, env);
    if ev.DefrostTimerExpires? || (t.Some? && IsColdAgain(c.data, m.rec.defrostType, t.value)) then Some(Idle) else None
  }

  function TestAim(l: Leaf, request: TestRequest): Option<Leaf> {
    if l == Disabled then None
    else
      match request
      case RequestIdle => Some(Idle)
      case RequestPrechill => Some(PrechillPrep)
      case RequestDefrost => Some(HeaterOnEntry)
      case RequestExitHeaterOn => if l == HeaterOnEntry || l == HeaterOn then Some(Dwell) else None
      case RequestNone => None
  }

  /** The state that an event asks for, if any; env is what is read after it. */
  function Aim(c: Config, m: Machine, ev: Event, env: Environment): Option<Leaf> {
    if ev == DisableChanged(true) then if m.leaf == Disabled then None else Some(Disabled)
    else if ev.TestRequested? then TestAim(m.leaf, ev.request)
    else
      match m.leaf
      case Idle => IdleAim(m.rec, ev, env)
      case PrechillPrep => PrechillPrepAim(c, ev, env)
      case Prechill => PrechillAim(c, ev, env)
      case HeaterOnEntry => if ev.DefrostTimerExpires? then Some(HeaterOn) else None
      case HeaterOn => if EndsHeater(c, m, ev) && !AnotherIsOn(c, m, ev.evap) then Some(Dwell) else None
      case Dwell => DwellAim(c, m, ev)
      case PostDwell => PostDwellAim(c, m, ev, env)
      case Disabled => if ev == DisableChanged(false) then Some(Idle) else None
  }

  /** Where a machine that asks for a state comes to rest: preparation and prechill may have nothing to do. */
  function Settles(c: Config, env: Environment, t: DefrostType, l: Leaf): Leaf {
    if l == PrechillPrep && KnownFault(env) then HeaterOnEntry
    else if l == PrechillPrep && !CoolsForPrechill(c.platform, env) then PrechillPrep
    else if (l == PrechillPrep || l == Prechill) && PrechillIsOver(c, env, t) then HeaterOnEntry
    else if l == PrechillPrep then Prechill
    else l
  }

  /** A type is decided on the way from Idle into a defrost. A test asked for in PostDwell keeps the type, and one for
      Idle asked for there keeps the type of the next defrost as well. */
  predicate Decides(m: Machine, ev: Event, aim: Option<Leaf>) {
    aim.Some? && aim != Some(Disabled) && aim != Some(Idle) &&
    if ev.TestRequested? then ev.request != RequestExitHeaterOn && m.leaf != PostDwell
    else m.leaf == Idle && !m.skipForTest
  }

  function TypeAfter(c: Config, m: Machine, ev: Event, env: Environment): DefrostType {
    if Decides(m, ev, Aim(c, m, ev, env)) then NextType(c, m.rec, env) else m.rec.defrostType
  }

  function LeadsTo(c: Config, m: Machine, ev: Event, env: Environment): Leaf {
    var aim := Aim(c, m, ev, env);
    if aim.Some? then Settles(c, env, TypeAfter(c, m, ev, env), aim.value) else m.leaf
  }

  /** The next type is not to be decided. */
  predicate SkipsDecision(m: Machine, ev: Event, aim: Option<Leaf>) {
    if ev == TestRequested(RequestIdle) then m.leaf == PostDwell
    else m.skipForTest && aim.None?
  }

  // ---------------------------------------------------------------- the records

  function AbnormalThreshold(d: DefrostData, role: Role, e: Evaporator): uint8 {
    if e == Freezer then d.abnormalMinutesFreezer
    else if e == FreshFood then d.abnormalMinutesFreshFood
    else if role == AsFreshFood then d.abnormalMinutesConvertibleAsFreshFood
    else d.abnormalMinutesConvertibleAsFreezer
  }

  /** A published minute ends the heater of e. */
  predicate EndsByTime(c: Config, m: Machine, ev: Event, e: Evaporator) {
    m.leaf == HeaterOn && ev == HeaterMinute(e) && EndsHeater(c, m, ev)
  }

  predicate EndsByTemperature(c: Config, m: Machine, ev: Event, e: Evaporator) {
    m.leaf == HeaterOn && ev.EvapTemperatureChanged? && ev.evap == e && EndsHeater(c, m, ev)
  }

  /** A published minute declares the defrost of e abnormal. */
  predicate BecomesAbnormal(c: Config, m: Machine, ev: Event, e: Evaporator) {
    m.leaf == HeaterOn && ev == HeaterMinute(e) && !EndsHeater(c, m, ev) &&
    PublishedMinute(m, e) == AbnormalThreshold(c.data, m.env.role, e)
  }

  predicate FaultAfter(c: Config, m: Machine, ev: Event, e: Evaporator) {
    (m.rec.maxTimeFault.At(e) && !EndsByTemperature(c, m, ev, e)) ||
    (EndsByTime(c, m, ev, e) && m.env.evapValid.At(e))
  }

  predicate AbnormalAfter(c: Config, m: Machine, ev: Event, e: Evaporator) {
    BecomesAbnormal(c, m, ev, e) ||
    (m.rec.wasAbnormal.At(e) &&
     (EndsByTemperature(c, m, ev, e) ==> m.heat.At(e).minutes >= AbnormalThreshold(c.data, m.env.role, e)))
  }

  function AbnormalDefrostsAfter(c: Config, m: Machine, ev: Event, e: Evaporator): uint16 {
    (m.rec.abnormalDefrosts.At(e) + if BecomesAbnormal(c, m, ev, e) then 1 else 0) % 0x1_0000
  }

  /** Leaving HeaterOn counts a defrost for each evaporator that the type heats. */
  predicate CountsDefrost(c: Config, m: Machine, aim: Option<Leaf>, e: Evaporator) {
    m.leaf == HeaterOn && aim.Some? && IsHeated(c.platform, m.env.role, m.rec.defrostType, e)
  }

  function DefrostsAfter(c: Config, m: Machine, ev: Event, env: Environment, e: Evaporator): uint16 {
    (m.rec.defrosts.At(e) + if CountsDefrost(c, m, Aim(c, m, ev, env), e) then 1 else 0) % 0x1_0000
  }

  /** Idle is left, if only in passing: a state test goes by way of Idle. */
  predicate LeavesIdle(m: Machine, ev: Event, aim: Option<Leaf>) {
    aim.Some? && (m.leaf == Idle || (ev.TestRequested? && (aim == Some(PrechillPrep) || aim == Some(HeaterOnEntry))))
  }

  /** A heater ran to its max-on-time on an evaporator whose thermistor is invalid; forgotten on leaving HeaterOn with
      every fitted one valid. */
  predicate InvalidAfter(c: Config, m: Machine, ev: Event, aim: Option<Leaf>) {
    (m.rec.invalidThermistorDuringDefrost ||
     exists e: Evaporator :: EndsByTime(c, m, ev, e) && !m.env.evapValid.At(e)) &&
    (m.leaf == HeaterOn && aim.Some? ==> exists e: Evaporator :: e in Fitted(c.platform) && !m.env.evapValid.At(e))
  }

  function CountAfter(c: Config, m: Machine, ev: Event, env: Environment): uint8 {
    if !Decides(m, ev, Aim(c, m, ev, env)) then m.rec.secondaryOnlyCount
    else if NextType(c, m.rec, env) == SecondaryOnly then (m.rec.secondaryOnlyCount + 1) % 0x100
    else 0
  }

  /** Every record after an event. */
  function RecordsAfter(c: Config, m: Machine, ev: Event, env: Environment): Records {
    var aim := Aim(c, m, ev, env);
    var decides := Decides(m, ev, aim);
    var prepares := aim == Some(PrechillPrep) && !KnownFault(env);
    Records(
      RequestNone,
      !prepares && if ev.Background? then ev.dontSkipPrechill else m.rec.dontSkipPrechill,
      !prepares && if ev.Background? then ev.useAhamTime else m.rec.useAhamTime,
      m.rec.tooWarmOnPowerUp && !LeavesIdle(m, ev, aim),
      InvalidAfter(c, m, ev, aim),
      m.rec.valveHomingRequested || aim == Some(Dwell),
      if decides then NextN(c, m.rec, env) else m.rec.secondaryOnlyBeforeFull,
      Trio(FaultAfter(c, m, ev, FreshFood), FaultAfter(c, m, ev, Freezer), FaultAfter(c, m, ev, Convertible)),
      m.rec.eepromCleared && !LeavesIdle(m, ev, aim),
      TypeAfter(c, m, ev, env),
      if decides then DontCare else if ev.Background? then ev.nextTypeOverride else m.rec.nextTypeOverride,
      CountAfter(c, m, ev, env),
      Trio(AbnormalAfter(c, m, ev, FreshFood), AbnormalAfter(c, m, ev, Freezer), AbnormalAfter(c, m, ev, Convertible)),
      Trio(AbnormalDefrostsAfter(c, m, ev, FreshFood), AbnormalDefrostsAfter(c, m, ev, Freezer),
           AbnormalDefrostsAfter(c, m, ev, Convertible)),
      Trio(DefrostsAfter(c, m, ev, env, FreshFood), DefrostsAfter(c, m, ev, env, Freezer),
           DefrostsAfter(c, m, ev, env, Convertible)))
  }

  // ---------------------------------------------------------------- the heater votes

  predicate HoldsHeatersOff(l: Leaf) { l == Dwell || l == PostDwell || l == Disabled }

  /** The vote for the heater of e after an event. */
  function VoteAfter(c: Config, m: Machine, ev: Event, env: Environment, e: Evaporator): Vote<bool> {
    var l := LeadsTo(c, m, ev, env);
    if Aim(c, m, ev, env).None? then
      if EndsByTime(c, m, ev, e) || EndsByTemperature(c, m, ev, e) then Vote(false, true) else m.heat.At(e).vote
    else if HoldsHeatersOff(l) then Vote(false, true)
    else if l == HeaterOn && IsHeated(c.platform, env.role, m.rec.defrostType, e) then Vote(true, true)
    else if HoldsHeatersOff(m.leaf) ||
            (m.leaf == HeaterOn && IsHeated(c.platform, m.env.role, m.rec.defrostType, e)) then Vote(false, false)
    else m.heat.At(e).vote
  }

  // ---------------------------------------------------------------- the whole row

  /** The time of prechilling that is left when it starts. */
  function PrechillTime(c: Config, env: Environment, t: DefrostType): int {
    (PrechillMinutes(c.data, t) - env.prechillMinutesMet) * MSEC_PER_MIN
  }

  /** An event takes m to r as the table says. */
  predicate IsRow(c: Config, m: Machine, ev: Event, r: Machine) {
    var aim := Aim(c, m, ev, r.env);
    IsRead(m.env, ev, r.env) &&
    r.leaf == LeadsTo(c, m, ev, r.env) &&
    r.rec == RecordsAfter(c, m, ev, r.env) &&
    r.hist.decisions == m.hist.decisions + (if Decides(m, ev, aim) then [NextType(c, m.rec, r.env)] else []) &&
    (r.skipForTest <==> SkipsDecision(m, ev, aim)) &&
    (aim.Some? && r.leaf == Prechill ==> r.timer == Some(PrechillTime(c, r.env, r.rec.defrostType)))
  }

  /** What is true of every settled machine: the next decision is only ever skipped in Idle. */
  predicate Regular(c: Config, m: Machine) {
    Timely(c, m) && Partitioned(c, m) && (m.skipForTest ==> m.leaf == Idle)
  }
}
