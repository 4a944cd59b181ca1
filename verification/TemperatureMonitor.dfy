/**
 CabinetTemperatureExceededMonitor in the form of the original: two state machines that set and clear
 the minimum-time flags, and loops over the doors. Each event leaves it exactly where the model goes.
 */
module TemperatureMonitoring {
  import opened Options
  import opened Units
  import opened TemperatureMonitorModel

  class CabinetTemperatureExceededMonitor {
    const c: Settings
    var running: bool
    var doors: DoorState
    var defrost: DefrostState
    var allDoorsClosedForMinimumTime: bool
    var defrostIsInIdleForMinimumTime: bool
    var powerUpAndDoorTimer: Option<nat>
    var defrostTimer: Option<nat>
    var fault: bool                     // faultErd
    const open: array<bool>             // the doors of doorErdList
    var idle: bool                      // defrostHsmStateErd is Idle
    var readings: Readings
    ghost var upMs: nat
    ghost var runMs: nat
    ghost var closedMs: nat
    ghost var idleMs: nat
    ghost var writes: seq<FaultWrite>

    ghost function State(): Monitor
      reads this, open
    {
      Monitor(running, doors, defrost, allDoorsClosedForMinimumTime, defrostIsInIdleForMinimumTime, powerUpAndDoorTimer,
              defrostTimer, fault, open[..], idle, readings, upMs, runMs, closedMs, idleMs, writes)
    }

    constructor (c: Settings, open: seq<bool>, idle: bool, readings: Readings)
      ensures this.c == c && fresh(this.open) && State() == PowerUp(c, open, idle, readings)
    {
      this.c := c;
      running, doors, defrost := false, ADoorIsOpen, NotInIdle;
      allDoorsClosedForMinimumTime, defrostIsInIdleForMinimumTime := false, false;
      powerUpAndDoorTimer, defrostTimer, fault := Some(c.minutesSincePowerOn * MSEC_PER_MIN), None, false;
      this.open := new bool[|open|](i requires 0 <= i < |open| => open[i]);
      this.idle, this.readings := idle, readings;
      upMs, runMs, closedMs, idleMs, writes := 0, 0, 0, 0, [];
      new;
      assert this.open[..] == open;
    }

    method AllDoorsAreClosed() returns (closed: bool)
      ensures closed == !AnyOpen(open[..])
    {
      for i := 0 to open.Length
        invariant forall j :: 0 <= j < i ==> !open[j]
      {
        if open[i] {
          assert open[..][i];
          return false;
        }
      }
      return true;
    }

    method SetCabinetTemperatureExceededFaultTo(state: bool)
      modifies this`fault, this`writes
      ensures State() == SetFault(old(State()), state)
    {
      fault := state;
      writes := writes + [FaultWrite(state, upMs, closedMs, idleMs, readings)];
    }

    method ConditionsForExceededTemperatureAreMet() returns (met: bool)
      ensures met == Conditions(c, State())
    {
      return readings.temperature > readings.setpoint * 100 + c.upperLimit && allDoorsClosedForMinimumTime &&
        defrostIsInIdleForMinimumTime && readings.valid;
    }

    method RaiseFaultIfConditionsAreMet()
      modifies this`fault, this`writes
      ensures State() == RaiseIfConditions(c, old(State()))
    {
      var met := ConditionsForExceededTemperatureAreMet();
      if met {
        SetCabinetTemperatureExceededFaultTo(true);
      }
    }

    // -------------------------------------------------------------- the door machine

    method GoToAllDoorsClosed()
      modifies this`doors, this`powerUpAndDoorTimer
      ensures State() == EnterAllDoorsClosed(c, old(State()))
    {
      doors := AllDoorsClosed;
      powerUpAndDoorTimer := Some(c.minutesDoorsClosed * MSEC_PER_MIN);
    }

    method SignalAllDoorsAreClosed()
      modifies this`doors, this`powerUpAndDoorTimer
      ensures State() == DoorsClose(c, old(State()))
    {
      if doors == ADoorIsOpen {
        GoToAllDoorsClosed();
      }
    }

    method SignalADoorIsOpened()
      modifies this`doors, this`powerUpAndDoorTimer, this`allDoorsClosedForMinimumTime
      ensures State() == DoorOpens(old(State()))
    {
      match doors
      case ADoorIsOpen =>
      case AllDoorsClosed =>
        powerUpAndDoorTimer := None;
        doors := ADoorIsOpen;
      case AllDoorsClosedForMinimumTime =>
        allDoorsClosedForMinimumTime := false;
        doors := ADoorIsOpen;
    }

    method MinimumTimeDoorsMustBeClosedComplete()
      modifies this`doors, this`allDoorsClosedForMinimumTime, this`fault, this`writes
      ensures State() == DoorsClosedLongEnough(c, old(State()))
    {
      hide Conditions;
      if doors == AllDoorsClosed {
        doors := AllDoorsClosedForMinimumTime;
        allDoorsClosedForMinimumTime := true;
        RaiseFaultIfConditionsAreMet();
      }
    }

    // -------------------------------------------------------------- the defrost machine

    method GoToDefrostIsInIdle()
      modifies this`defrost, this`defrostTimer
      ensures State() == EnterInIdle(c, old(State()))
    {
      defrost := InIdle;
      defrostTimer := Some(c.minutesSinceDefrost * MSEC_PER_MIN);
    }

    method SignalDefrostIsInIdle()
      modifies this`defrost, this`defrostTimer
      ensures State() == DefrostComesIdle(c, old(State()))
    {
      if defrost == NotInIdle {
        GoToDefrostIsInIdle();
      }
    }

    method SignalDefrostIsNotInIdle()
      modifies this`defrost, this`defrostTimer, this`defrostIsInIdleForMinimumTime
      ensures State() == DefrostLeavesIdle(old(State()))
    {
      match defrost
      case NotInIdle =>
      case InIdle =>
        defrostTimer := None;
        defrost := NotInIdle;
      case InIdleForMinimumTime =>
        defrostIsInIdleForMinimumTime := false;
        defrost := NotInIdle;
    }

    method MinimumDefrostTimeComplete()
      modifies this`defrost, this`defrostIsInIdleForMinimumTime, this`fault, this`writes
      ensures State() == IdleLongEnough(c, old(State()))
    {
      hide Conditions;
      if defrost == InIdle {
        defrost := InIdleForMinimumTime;
        defrostIsInIdleForMinimumTime := true;
        RaiseFaultIfConditionsAreMet();
      }
    }

    // -------------------------------------------------------------- events

    /** The shared timer's first expiry: both machines start, and changes are listened to from now on. */
    method MinimumTimeSincePowerOnComplete()
      modifies this`running, this`doors, this`defrost, this`powerUpAndDoorTimer, this`defrostTimer
      ensures State() == BeginRunning(c, old(State()))
    {
      hide AnyOpen;
      running := true;
      var closed := AllDoorsAreClosed();
      if closed {
        GoToAllDoorsClosed();
      } else {
        doors := ADoorIsOpen;
      }
      if idle {
        GoToDefrostIsInIdle();
      } else {
        defrost := NotInIdle;
      }
    }

    /** The data model reports a door. */
    method DoorChanges(i: nat, isOpen: bool)
      requires Enabled(State(), DoorChanged(i, isOpen))
      modifies this, open
      ensures State() == Step(c, old(State()), DoorChanged(i, isOpen))
    {
      hide AnyOpen, DoorOpens, DoorsClose;
      open[i] := isOpen;
      var closed := AllDoorsAreClosed();
      closedMs := if closed then closedMs else 0;
      if running {
        if closed {
          SignalAllDoorsAreClosed();
        } else {
          SignalADoorIsOpened();
        }
      }
    }

    method DefrostStateChanges(isIdle: bool)
      modifies this
      ensures State() == Step(c, old(State()), DefrostChanged(isIdle))
    {
      hide DefrostComesIdle, DefrostLeavesIdle;
      idle := isIdle;
      idleMs := if isIdle then idleMs else 0;
      if running {
        if isIdle {
          SignalDefrostIsInIdle();
        } else {
          SignalDefrostIsNotInIdle();
        }
      }
    }

    method ReadingsChange(r: Readings)
      modifies this
      ensures State() == Step(c, old(State()), ReadingsChanged(r))
    {
      hide Conditions;
      readings := r;
      if running {
        var met := ConditionsForExceededTemperatureAreMet();
        if met {
          SetCabinetTemperatureExceededFaultTo(true);
        } else if readings.temperature < readings.setpoint * 100 + c.lowerLimit && readings.valid {
          SetCabinetTemperatureExceededFaultTo(false);
        }
      }
    }

    method DoorTimerExpired()
      requires Enabled(State(), DoorTimerExpires)
      modifies this
      ensures State() == Step(c, old(State()), DoorTimerExpires)
    {
      hide DoorsClosedLongEnough, BeginRunning;
      powerUpAndDoorTimer := None;
      if running {
        MinimumTimeDoorsMustBeClosedComplete();
      } else {
        MinimumTimeSincePowerOnComplete();
      }
    }

    method DefrostTimerExpired()
      requires Enabled(State(), DefrostTimerExpires)
      modifies this
      ensures State() == Step(c, old(State()), DefrostTimerExpires)
    {
      hide IdleLongEnough;
      defrostTimer := None;
      MinimumDefrostTimeComplete();
    }

    method TimePasses(ms: nat)
      requires Enabled(State(), Elapse(ms))
      modifies this
      ensures State() == Step(c, old(State()), Elapse(ms))
    {
      powerUpAndDoorTimer := Less(powerUpAndDoorTimer, ms);
      defrostTimer := Less(defrostTimer, ms);
      ghost var m := PassTime(old(State()), ms);
      upMs, runMs, closedMs, idleMs := m.upMs, m.runMs, m.closedMs, m.idleMs;
    }
  }
}
