/**
 CabinetTemperatureExceededMonitor: two timed machines, for doors and for defrost, and a fault with
 hysteresis. A history of true times beside the machines says what each raise of the fault means.
 */
module TemperatureMonitorModel {
  import opened Options
  import opened Units

  datatype Settings = Settings(
    minutesSincePowerOn: uint16, minutesDoorsClosed: uint8, minutesSinceDefrost: uint8,
    upperLimit: int, lowerLimit: int)

  datatype DoorState = ADoorIsOpen | AllDoorsClosed | AllDoorsClosedForMinimumTime
  datatype DefrostState = NotInIdle | InIdle | InIdleForMinimumTime

  datatype Readings = Readings(temperature: int, setpoint: int, valid: bool)

  /** A write of the fault with the true times and the readings it was made with. */
  datatype FaultWrite = FaultWrite(fault: bool, upMs: nat, closedMs: nat, idleMs: nat, readings: Readings)

  datatype Monitor = Monitor(
    running: bool,                // the power-up time is over and changes are listened to
    doors: DoorState,
    defrost: DefrostState,
    allDoorsClosedForMinimumTime: bool,
    defrostIsInIdleForMinimumTime: bool,
    doorTimer: Option<nat>,       // powerUpAndDoorTimer: milliseconds left
    defrostTimer: Option<nat>,
    fault: bool,
    open: seq<bool>,
    idle: bool,                   // the defrost state is Idle
    readings: Readings,
    upMs: nat,                    // history: time since power-up,
    runMs: nat,                   //   time listened to,
    closedMs: nat,                //   time all doors have been closed without a break,
    idleMs: nat,                  //   time defrost has been Idle without a break
    writes: seq<FaultWrite>)

  datatype Event =
    | DoorChanged(door: nat, isOpen: bool)
    | DefrostChanged(isIdle: bool)
    | ReadingsChanged(readings: Readings)
    | Elapse(ms: nat)
    | DoorTimerExpires
    | DefrostTimerExpires

  predicate Enabled(m: Monitor, ev: Event) {
    match ev
    case DoorChanged(i, isOpen) => i < |m.open| && m.open[i] != isOpen
    case Elapse(ms) =>
      (m.doorTimer.Some? ==> ms <= m.doorTimer.value) && (m.defrostTimer.Some? ==> ms <= m.defrostTimer.value)
    case DoorTimerExpires => m.doorTimer == Some(0)
    case DefrostTimerExpires => m.defrostTimer == Some(0)
    case _ => true
  }

  function PowerOnMs(c: Settings): nat { c.minutesSincePowerOn * MSEC_PER_MIN }
  function DoorsMs(c: Settings): nat { c.minutesDoorsClosed * MSEC_PER_MIN }
  function DefrostMs(c: Settings): nat { c.minutesSinceDefrost * MSEC_PER_MIN }

  predicate AnyOpen(open: seq<bool>) { exists i :: 0 <= i < |open| && open[i] }

  predicate Exceeds(c: Settings, r: Readings) { r.temperature > r.setpoint * 100 + c.upperLimit }
  predicate IsBelow(c: Settings, r: Readings) { r.temperature < r.setpoint * 100 + c.lowerLimit }

  predicate Conditions(c: Settings, m: Monitor) {
    Exceeds(c, m.readings) && m.allDoorsClosedForMinimumTime && m.defrostIsInIdleForMinimumTime && m.readings.valid
  }

  function SetFault(m: Monitor, fault: bool): Monitor {
    m.(fault := fault, writes := m.writes + [FaultWrite(fault, m.upMs, m.closedMs, m.idleMs, m.readings)])
  }

  function RaiseIfConditions(c: Settings, m: Monitor): Monitor { if Conditions(c, m) then SetFault(m, true) else m }

  // ---------------------------------------------------------------- the door machine

  function EnterAllDoorsClosed(c: Settings, m: Monitor): Monitor {
    m.(doors := AllDoorsClosed, doorTimer := Some(DoorsMs(c)))
  }

  function DoorsClose(c: Settings, m: Monitor): Monitor {
    if m.doors == ADoorIsOpen then EnterAllDoorsClosed(c, m) else m
  }

  function DoorOpens(m: Monitor): Monitor {
    match m.doors
    case ADoorIsOpen => m
    case AllDoorsClosed => m.(doors := ADoorIsOpen, doorTimer := None)
    case AllDoorsClosedForMinimumTime => m.(doors := ADoorIsOpen, allDoorsClosedForMinimumTime := false)
  }

  function DoorsClosedLongEnough(c: Settings, m: Monitor): Monitor {
    if m.doors == AllDoorsClosed then
      RaiseIfConditions(c, m.(doors := AllDoorsClosedForMinimumTime, allDoorsClosedForMinimumTime := true))
    else m
  }

  // ---------------------------------------------------------------- the defrost machine

  function EnterInIdle(c: Settings, m: Monitor): Monitor { m.(defrost := InIdle, defrostTimer := Some(DefrostMs(c))) }

  function DefrostComesIdle(c: Settings, m: Monitor): Monitor {
    if m.defrost == NotInIdle then EnterInIdle(c, m) else m
  }

  function DefrostLeavesIdle(m: Monitor): Monitor {
    match m.defrost
    case NotInIdle => m
    case InIdle => m.(defrost := NotInIdle, defrostTimer := None)
    case InIdleForMinimumTime => m.(defrost := NotInIdle, defrostIsInIdleForMinimumTime := false)
  }

  function IdleLongEnough(c: Settings, m: Monitor): Monitor {
    if m.defrost == InIdle then
      RaiseIfConditions(c, m.(defrost := InIdleForMinimumTime, defrostIsInIdleForMinimumTime := true))
    else m
  }

  // ---------------------------------------------------------------- events

  function OnReadings(c: Settings, m: Monitor): Monitor {
    if Conditions(c, m) then SetFault(m, true)
    else if IsBelow(c, m.readings) && m.readings.valid then SetFault(m, false)
    else m
  }

  /** The power-up time is over: both machines start in the state the inputs are in. */
  function BeginRunning(c: Settings, m: Monitor): Monitor {
    var m1 := m.(running := true);
    var m2 := if AnyOpen(m.open) then m1.(doors := ADoorIsOpen) else EnterAllDoorsClosed(c, m1);
    if m.idle then EnterInIdle(c, m2) else m2.(defrost := NotInIdle)
  }

  function Less(t: Option<nat>, ms: nat): Option<nat> {
    if t.Some? then Some(if t.value > ms then t.value - ms else 0) else None
  }

  function PassTime(m: Monitor, ms: nat): Monitor {
    m.(doorTimer := Less(m.doorTimer, ms), defrostTimer := Less(m.defrostTimer, ms), upMs := m.upMs + ms,
       runMs := if m.running then m.runMs + ms else m.runMs,
       closedMs := if AnyOpen(m.open) then 0 else m.closedMs + ms,
       idleMs := if m.idle then m.idleMs + ms else 0)
  }

  function OnDoor(c: Settings, m: Monitor): Monitor {
    if !m.running then m else if AnyOpen(m.open) then DoorOpens(m) else DoorsClose(c, m)
  }

  function OnDefrost(c: Settings, m: Monitor): Monitor {
    if !m.running then m else if m.idle then DefrostComesIdle(c, m) else DefrostLeavesIdle(m)
  }

  function Step(c: Settings, m: Monitor, ev: Event): Monitor
    requires Enabled(m, ev)
  {
    match ev
    case DoorChanged(i, isOpen) =>
      var open := m.open[i := isOpen];
      OnDoor(c, m.(open := open, closedMs := if AnyOpen(open) then 0 else m.closedMs))
    case DefrostChanged(isIdle) => OnDefrost(c, m.(idle := isIdle, idleMs := if isIdle then m.idleMs else 0))
    case ReadingsChanged(readings) =>
      if m.running then OnReadings(c, m.(readings := readings)) else m.(readings := readings)
    case Elapse(ms) => PassTime(m, ms)
    case DoorTimerExpires =>
      var m1 := m.(doorTimer := None);
      if m.running then DoorsClosedLongEnough(c, m1) else BeginRunning(c, m1)
    case DefrostTimerExpires => IdleLongEnough(c, m.(defrostTimer := None))
  }

  function PowerUp(c: Settings, open: seq<bool>, idle: bool, readings: Readings): Monitor {
    Monitor(false, ADoorIsOpen, NotInIdle, false, false, Some(PowerOnMs(c)), None, false, open, idle, readings, 0,
        0, 0, 0, [])
  }

  // ---------------------------------------------------------------- the invariant

  function Min(a: nat, b: nat): nat { if a < b then a else b }

  /** The door machine knows exactly how long the doors have been closed since the monitor has listened. */
  predicate DoorsOk(c: Settings, m: Monitor) {
    (m.allDoorsClosedForMinimumTime <==> m.doors == AllDoorsClosedForMinimumTime) &&
    (m.doors == ADoorIsOpen <==> AnyOpen(m.open)) &&
    match m.doors
    case ADoorIsOpen => m.doorTimer.None?
    case AllDoorsClosed => m.doorTimer.Some? && m.doorTimer.value + Min(m.closedMs, m.runMs) == DoorsMs(c)
    case AllDoorsClosedForMinimumTime => m.doorTimer.None? && Min(m.closedMs, m.runMs) >= DoorsMs(c)
  }

  predicate DefrostOk(c: Settings, m: Monitor) {
    (m.defrostIsInIdleForMinimumTime <==> m.defrost == InIdleForMinimumTime) &&
    (m.defrost == NotInIdle <==> !m.idle) &&
    match m.defrost
    case NotInIdle => m.defrostTimer.None?
    case InIdle => m.defrostTimer.Some? && m.defrostTimer.value + Min(m.idleMs, m.runMs) == DefrostMs(c)
    case InIdleForMinimumTime => m.defrostTimer.None? && Min(m.idleMs, m.runMs) >= DefrostMs(c)
  }

  predicate StartingOk(c: Settings, m: Monitor) {
    m.doorTimer.Some? && m.doorTimer.value + m.upMs == PowerOnMs(c) && m.defrostTimer.None? && m.runMs == 0 &&
    !m.allDoorsClosedForMinimumTime && !m.defrostIsInIdleForMinimumTime
  }

  /** What a write of the fault stands for. */
  predicate WriteOk(c: Settings, w: FaultWrite) {
    w.readings.valid &&
    if w.fault then
      w.upMs >= PowerOnMs(c) && w.closedMs >= DoorsMs(c) && w.idleMs >= DefrostMs(c) && Exceeds(c, w.readings)
    else IsBelow(c, w.readings)
  }

  predicate WritesOk(c: Settings, m: Monitor) {
    (forall i :: 0 <= i < |m.writes| ==> WriteOk(c, m.writes[i])) &&
    m.fault == (m.writes != [] && m.writes[|m.writes| - 1].fault)
  }

  predicate Inv(c: Settings, m: Monitor) {
    (AnyOpen(m.open) ==> m.closedMs == 0) && (!m.idle ==> m.idleMs == 0) && WritesOk(c, m) &&
    (if m.running then DoorsOk(c, m) && DefrostOk(c, m) && m.upMs == PowerOnMs(c) + m.runMs else StartingOk(c, m)) &&
    (Conditions(c, m) ==> m.fault)
  }

  lemma SetFaultKeeps(c: Settings, m: Monitor, fault: bool)
    requires WritesOk(c, m) && WriteOk(c, FaultWrite(fault, m.upMs, m.closedMs, m.idleMs, m.readings))
    ensures WritesOk(c, SetFault(m, fault))
  {}

  lemma DoorKeeps(c: Settings, m: Monitor, i: nat, isOpen: bool)
    requires Inv(c, m) && Enabled(m, DoorChanged(i, isOpen))
    ensures Inv(c, Step(c, m, DoorChanged(i, isOpen)))
  {
    var open := m.open[i := isOpen];
    if isOpen {
      assert open[i];
    } else {
      assert AnyOpen(m.open) by { assert m.open[i]; }
    }
  }

  lemma DefrostKeeps(c: Settings, m: Monitor, isIdle: bool)
    requires Inv(c, m)
    ensures Inv(c, Step(c, m, DefrostChanged(isIdle)))
  {}

  lemma RaiseKeeps(c: Settings, m: Monitor)
    requires WritesOk(c, m) && m.upMs >= PowerOnMs(c)
    requires m.allDoorsClosedForMinimumTime ==> m.closedMs >= DoorsMs(c)
    requires m.defrostIsInIdleForMinimumTime ==> m.idleMs >= DefrostMs(c)
    ensures var r := RaiseIfConditions(c, m); WritesOk(c, r) && (Conditions(c, r) ==> r.fault)
  {
    if Conditions(c, m) { SetFaultKeeps(c, m, true); }
  }

  lemma ReadingsKeep(c: Settings, m: Monitor, readings: Readings)
    requires Inv(c, m)
    ensures Inv(c, Step(c, m, ReadingsChanged(readings)))
  {
    var m1 := m.(readings := readings);
    if m.running {
      RaiseKeeps(c, m1);
      if !Conditions(c, m1) && IsBelow(c, readings) && readings.valid { SetFaultKeeps(c, m1, false); }
    }
  }

  lemma DoorTimerKeeps(c: Settings, m: Monitor)
    requires Inv(c, m) && Enabled(m, DoorTimerExpires)
    ensures Inv(c, Step(c, m, DoorTimerExpires))
  {
    if m.running {
      RaiseKeeps(c, m.(doorTimer := None, doors := AllDoorsClosedForMinimumTime, allDoorsClosedForMinimumTime := true));
    }
  }

  lemma DefrostTimerKeeps(c: Settings, m: Monitor)
    requires Inv(c, m) && Enabled(m, DefrostTimerExpires)
    ensures Inv(c, Step(c, m, DefrostTimerExpires))
  {
    RaiseKeeps(c, m.(defrostTimer := None, defrost := InIdleForMinimumTime, defrostIsInIdleForMinimumTime := true));
  }

  lemma StepKeeps(c: Settings, m: Monitor, ev: Event)
    requires Inv(c, m) && Enabled(m, ev)
    ensures Inv(c, Step(c, m, ev))
  {
    match ev
    case DoorChanged(i, isOpen) => DoorKeeps(c, m, i, isOpen);
    case DefrostChanged(isIdle) => DefrostKeeps(c, m, isIdle);
    case ReadingsChanged(readings) => ReadingsKeep(c, m, readings);
    case Elapse(ms) =>
    case DoorTimerExpires => DoorTimerKeeps(c, m);
    case DefrostTimerExpires => DefrostTimerKeeps(c, m);
  }

  // ---------------------------------------------------------------- runs

  predicate Possible(c: Settings, m: Monitor, evs: seq<Event>)
    decreases |evs|
  {
    evs != [] ==> Enabled(m, evs[0]) && Possible(c, Step(c, m, evs[0]), evs[1..])
  }

  function Run(c: Settings, m: Monitor, evs: seq<Event>): Monitor
    requires Possible(c, m, evs)
    decreases |evs|
  {
    if evs == [] then m else Run(c, Step(c, m, evs[0]), evs[1..])
  }

  lemma {:induction false} RunKeeps(c: Settings, m: Monitor, evs: seq<Event>)
    requires Inv(c, m) && Possible(c, m, evs)
    ensures Inv(c, Run(c, m, evs))
    decreases |evs|
  {
    if evs != [] {
      StepKeeps(c, m, evs[0]);
      RunKeeps(c, Step(c, m, evs[0]), evs[1..]);
    }
  }

  ghost predicate Reachable(c: Settings, m: Monitor) {
    exists open: seq<bool>, idle: bool, readings: Readings, evs: seq<Event> ::
      Possible(c, PowerUp(c, open, idle, readings), evs) && m == Run(c, PowerUp(c, open, idle, readings), evs)
  }

  lemma ReachableInv(c: Settings, m: Monitor)
    requires Reachable(c, m)
    ensures Inv(c, m)
  {
    var open: seq<bool>, idle: bool, readings: Readings, evs: seq<Event> :|
      Possible(c, PowerUp(c, open, idle, readings), evs) && m == Run(c, PowerUp(c, open, idle, readings), evs);
    RunKeeps(c, PowerUp(c, open, idle, readings), evs);
  }

  /** Each time the fault was raised, power had been on, all doors closed and defrost Idle for their minimum times
      without a break, and a valid reading exceeded the upper limit; each time it was cleared, a valid reading was below
      the lower limit. The fault is the last value written. */
  lemma EveryFaultWriteIsJustified(c: Settings, m: Monitor, i: nat)
    requires Reachable(c, m) && i < |m.writes|
    ensures m.writes[i].readings.valid
    ensures m.writes[i].fault ==>
              m.writes[i].upMs >= c.minutesSincePowerOn * MSEC_PER_MIN &&
              m.writes[i].closedMs >= c.minutesDoorsClosed * MSEC_PER_MIN &&
              m.writes[i].idleMs >= c.minutesSinceDefrost * MSEC_PER_MIN && Exceeds(c, m.writes[i].readings)
    ensures !m.writes[i].fault ==> IsBelow(c, m.writes[i].readings)
    ensures m.fault == m.writes[|m.writes| - 1].fault
  {
    ReachableInv(c, m);
  }

  /** Nothing is missed: once the monitor listens and every timer that was due has been served, doors closed and defrost
      Idle for their minimum times with a valid reading above the upper limit mean that the fault is set. */
  lemma FaultIsSetWhenItShouldBe(c: Settings, m: Monitor)
    requires Reachable(c, m) && m.running && m.doorTimer != Some(0) && m.defrostTimer != Some(0)
    requires !AnyOpen(m.open) && Min(m.closedMs, m.runMs) >= DoorsMs(c)
    requires m.idle && Min(m.idleMs, m.runMs) >= DefrostMs(c)
    requires m.readings.valid && Exceeds(c, m.readings)
    ensures m.fault
  {
    ReachableInv(c, m);
  }

  /** The fault is only ever cleared by new readings, valid and below the lower limit. */
  lemma ClearedOnlyBelowLowerLimit(c: Settings, m: Monitor, ev: Event)
    requires Reachable(c, m) && Enabled(m, ev) && m.fault && !Step(c, m, ev).fault
    ensures m.running && ev.ReadingsChanged? && ev.readings.valid && IsBelow(c, ev.readings)
  {
    ReachableInv(c, m);
  }

  /** A valid reading exceeds the upper limit, and by true times doors and defrost have done so long enough; a timer
      that is due has yet to say so. */
  predicate FaultIsDue(c: Settings, m: Monitor) {
    m.running && m.readings.valid && m.readings.temperature > m.readings.setpoint * 100 + c.upperLimit &&
    !AnyOpen(m.open) && Min(m.closedMs, m.runMs) >= DoorsMs(c) && m.doorTimer != Some(0) &&
    m.idle && Min(m.idleMs, m.runMs) >= DefrostMs(c) && m.defrostTimer != Some(0)
  }

  /** New readings, listened to, are valid and below the lower limit. */
  predicate IsCooled(c: Settings, m: Monitor, ev: Event) {
    ev.ReadingsChanged? && m.running && ev.readings.valid &&
    ev.readings.temperature < ev.readings.setpoint * 100 + c.lowerLimit
  }

  /** Exactly when the fault is set, after any event in any run: it is due, or it was set and the event did not clear
      it. */
  lemma FaultIsExactly(c: Settings, m: Monitor, ev: Event)
    requires Reachable(c, m) && Enabled(m, ev)
    ensures var r := Step(c, m, ev); r.fault <==> FaultIsDue(c, r) || (m.fault && !IsCooled(c, m, ev))
  {
    ReachableInv(c, m);
    StepKeeps(c, m, ev);
    DueMeansConditions(c, Step(c, m, ev));
    hide *;
    FaultAfter(c, m, ev);
  }

  lemma FaultAfter(c: Settings, m: Monitor, ev: Event)
    requires Enabled(m, ev) && (Conditions(c, Step(c, m, ev)) ==> Step(c, m, ev).fault)
    ensures Step(c, m, ev).fault <==> Conditions(c, Step(c, m, ev)) || (m.fault && !IsCooled(c, m, ev))
  {
    hide AnyOpen, Conditions, RaiseIfConditions, OnReadings;
    match ev
    case ReadingsChanged(readings) => FaultAfterReadings(c, m.(readings := readings));
    case DoorTimerExpires =>
      FaultAfterRaising(c, m.(doorTimer := None, doors := AllDoorsClosedForMinimumTime,
                              allDoorsClosedForMinimumTime := true));
    case DefrostTimerExpires =>
      FaultAfterRaising(c, m.(defrostTimer := None, defrost := InIdleForMinimumTime,
                              defrostIsInIdleForMinimumTime := true));
    case _ =>
  }

  lemma FaultAfterRaising(c: Settings, m: Monitor)
    ensures RaiseIfConditions(c, m).fault <==> Conditions(c, RaiseIfConditions(c, m)) || m.fault
  {}

  lemma FaultAfterReadings(c: Settings, m: Monitor)
    ensures OnReadings(c, m).fault <==>
            Conditions(c, OnReadings(c, m)) || (m.fault && !(IsBelow(c, m.readings) && m.readings.valid))
  {}

  lemma DueMeansConditions(c: Settings, m: Monitor)
    requires Inv(c, m)
    ensures FaultIsDue(c, m) <==> Conditions(c, m)
    ensures Conditions(c, m) ==> m.fault
  {}

  /** When the monitor begins to listen: after the power-up time, and not before. */
  lemma ListensExactlyAfterPowerUpTime(c: Settings, m: Monitor)
    requires Reachable(c, m)
    ensures m.running ==> m.upMs == c.minutesSincePowerOn * MSEC_PER_MIN + m.runMs
    ensures !m.running ==> m.doorTimer.Some? && m.upMs + m.doorTimer.value == c.minutesSincePowerOn * MSEC_PER_MIN
  {
    ReachableInv(c, m);
  }
}
