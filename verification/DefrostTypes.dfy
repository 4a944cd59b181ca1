/**
 The entities of the defrost subsystem: what the controller reads, what it writes, and the
 parametric data that configures it. All of them are plain values.
 */
module DefrostTypes {
  import opened Options
  import opened Units

  datatype Evaporator = FreshFood | Freezer | Convertible

  /** One value per evaporator (or per cabinet compartment). */
  datatype Trio<T> = Trio(freshFood: T, freezer: T, convertible: T) {
    function At(e: Evaporator): T {
      match e
      case FreshFood => freshFood
      case Freezer => freezer
      case Convertible => convertible
    }

    function With(e: Evaporator, v: T): Trio<T> {
      match e
      case FreshFood => this.(freshFood := v)
      case Freezer => this.(freezer := v)
      case Convertible => this.(convertible := v)
    }
  }

  /** The leaves of the hierarchical state machine. */
  datatype Leaf = Idle | PrechillPrep | Prechill | HeaterOnEntry | HeaterOn | Dwell | PostDwell | Disabled

  /** The state saved in EEPROM for a leaf: both heater states are saved as HeaterOn. */
  function Recorded(l: Leaf): Leaf {
    if l == HeaterOnEntry then HeaterOn else l
  }

  datatype DefrostType = SecondaryOnly | Full | DontCare
  datatype Role = AsFreshFood | AsFreezer
  datatype CoolingMode = CoolOff | CoolFreshFood | CoolFreezer | CoolConvertible
  datatype TestRequest = RequestIdle | RequestDefrost | RequestPrechill | RequestExitHeaterOn | RequestNone

  datatype Vote<T> = Vote(value: T, care: bool)

  /** The eleven loads other than heaters that the controller votes on. */
  datatype Loads<T> = Loads(
    valve: T, freshFoodDamper: T, compressor: T, condenserFan: T, freezerFan: T, freshFoodFan: T,
    iceCabinetFan: T, deliFan: T, deliDamper: T, convertibleDamper: T, convertibleFan: T)

  const OFF := 0      // CompressorSpeed_Off and FanSpeed_Off
  const CLOSED := 0   // DamperPosition_Closed

  datatype Platform = Platform(numberOfEvaporators: uint8, hasFreshFood: bool, hasFreezer: bool, hasConvertible: bool)

  datatype DefrostData = DefrostData(
    secondaryOnlyBeforeFull: uint8,
    secondaryOnlyBeforeFullWhenAbnormal: uint8,
    secondaryOnlyBeforeFullInSabbath: uint8,
    maxPrechillPrepMinutes: uint8,
    maxPrechillMinutes: uint8,
    maxPrechillSecondaryOnlyMinutes: uint8,
    prechillLoads: Loads<int>,
    prechillFreezerMin: int,
    prechillFreshFoodMin: int,
    prechillFreshFoodMax: int,
    prechillConvertibleAsFreezerMin: int,
    prechillConvertibleAsFreshFoodMin: int,
    prechillConvertibleAsFreshFoodMax: int,
    prechillPrimaryExit: int,
    heaterOnDelaySeconds: uint8,
    heaterOnEntryFreshFoodDamper: int,
    heaterOnEntryValve: int,
    termination: Trio<int>,
    abnormalMinutesFreshFood: uint8,
    abnormalMinutesFreezer: uint8,
    abnormalMinutesConvertibleAsFreshFood: uint8,
    abnormalMinutesConvertibleAsFreezer: uint8,
    dwellMinutes: uint8,
    dwellFreshFoodDamper: int,
    dwellValve: int,
    postDwellMinutes: uint8,
    postDwellSecondaryOnlyMinutes: uint8,
    postDwellExit: int,
    postDwellSecondaryOnlyExit: int,
    postDwellLoads: Loads<int>)   // its four evaporator-side fans are not parametric: they are voted Off

  datatype Config = Config(data: DefrostData, platform: Platform)

  /** What the controller reads and never writes. */
  datatype Environment = Environment(
    compressorIsOn: bool,
    coolingMode: CoolingMode,
    role: Role,
    hasConvertible: bool,
    evapValid: Trio<bool>,
    evapDiscovered: Trio<bool>,
    evapTemperature: Trio<int>,
    cabinetValid: Trio<bool>,
    freezerDiscovered: bool,
    cabinetTemperature: Trio<int>,
    freezerExtremeHigh: int,
    readyToDefrost: bool,
    sabbathMode: bool,
    enhancedSabbathMode: bool,
    sabbathIsReady: bool,
    enhancedSabbathIsRequesting: bool,
    prechillMinutesMet: uint16,
    maxOnMinutes: Trio<uint8>)

  /** What the controller writes besides votes: the first group is lost in a power cycle, the second survives. */
  datatype Records = Records(
    request: TestRequest,
    dontSkipPrechill: bool,
    useAhamTime: bool,
    tooWarmOnPowerUp: bool,
    invalidThermistorDuringDefrost: bool,
    valveHomingRequested: bool,
    secondaryOnlyBeforeFull: uint8,
    maxTimeFault: Trio<bool>,

    eepromCleared: bool,
    defrostType: DefrostType,
    nextTypeOverride: DefrostType,
    secondaryOnlyCount: uint8,
    wasAbnormal: Trio<bool>,
    abnormalDefrosts: Trio<uint16>,
    defrosts: Trio<uint16>)

  /** The two evaporators kept for the primaries, and likewise for the secondaries; either may be absent. */
  datatype Slots = Slots(e0: Option<Evaporator>, e1: Option<Evaporator>) {
    predicate Has(e: Evaporator) { e0 == Some(e) || e1 == Some(e) }
  }

  const NO_SLOTS := Slots(None, None)

  /** A heater's defrost vote with the on-time counter that watches it. */
  datatype HeaterCell = HeaterCell(vote: Vote<bool>, minutes: uint8, ticks: Option<nat>)

  type Heaters = Trio<HeaterCell>

  const IDLE_CELL := HeaterCell(Vote(false, false), 0, None)

  /** History, kept to state properties of whole runs. */
  datatype Visit = Visit(leaf: Leaf, stayed: nat)
  datatype History = History(
    visits: seq<Visit>,
    decisions: seq<DefrostType>,
    abnormalFired: Trio<nat>,    // in the present or last HeaterOn visit
    roleChanged: bool)           // in that visit

  datatype Machine = Machine(
    leaf: Leaf,
    recorded: Leaf,
    timer: Option<nat>,
    env: Environment,
    rec: Records,
    heat: Heaters,
    primary: Slots,
    secondary: Slots,
    skipForTest: bool,
    skipForDisable: bool,
    hist: History)

  datatype Signal =
    | SigReadyToDefrost
    | SigPrechillConditionsAreMet
    | SigDefrostTimerExpired
    | SigPrechillExitConditionMet
    | SigThermistorIsInvalid
    | SigDisableDefrost
    | SigEnableDefrost
    | SigStateTestRequest
    | SigExitHeaterOnTestRequest
    | SigEvaporatorTemperatureChanged(evap: Evaporator)
    | SigPrimaryEvaporatorTemperatureChanged(temperature: int)
    | SigCabinetTemperatureChanged(cabinet: Evaporator)
    | SigSabbathIsReady
    | SigSabbathEnabled
    | SigSabbathDisabled
    | SigEnhancedSabbathRequest
    | SigHeaterMaxOnTimeReached(evap: Evaporator)
    | SigAbnormalHeaterOnTimeReached(evap: Evaporator)

  /** Everything that can happen to the subsystem. */
  datatype Event =
    | ReadyChanged(on: bool)
    | CompressorChanged(on: bool)
    | CoolingModeChanged(mode: CoolingMode)
    | FreezerThermistorChanged(valid: bool)
    | EvapThermistorChanged(evap: Evaporator, valid: bool)
    | EvapTemperatureChanged(evap: Evaporator, temperature: int)
    | CabinetTemperatureChanged(cabinet: Evaporator, temperature: int)
    | DisableChanged(disabled: bool)
    | TestRequested(request: TestRequest)
    | SabbathReadyChanged(on: bool)
    | SabbathModeChanged(on: bool)
    | EnhancedSabbathModeChanged(on: bool)
    | EnhancedSabbathRequestChanged(on: bool)
    | RoleChanged(role: Role)
    | Background(next: Environment, nextTypeOverride: DefrostType, dontSkipPrechill: bool, useAhamTime: bool)
    | Elapse(ms: nat)
    | DefrostTimerExpires
    | HeaterMinute(evap: Evaporator)
    | PowerCycle(next: Environment)
}
