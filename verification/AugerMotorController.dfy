/**
 AugerMotorController in the form of the original: state handlers that write the two relays and share
 one one-shot timer. Each event leaves it exactly where the model goes.
 */
module AugerMotorControl {
  import opened Options
  import opened AugerMotorModel

  class AugerMotorController {
    const c: Settings
    var phase: Phase               // augerMotorControllerFsmStateErd
    var vote: IceType              // augerMotorIceTypeVoteErd
    var stored: IceType            // storedAugerMotorIceType
    var power: bool                // augerMotorPowerErd
    var direction: bool            // augerMotorDirectionErd
    var timer: Option<Timer>
    ghost var now: nat
    ghost var log: seq<Sample>

    ghost function State(): Auger
      reads this
    {
      Auger(phase, vote, stored, power, direction, timer, now, log)
    }

    constructor (c: Settings)
      ensures this.c == c && State() == START
    {
      this.c := c;
      phase, vote, stored, power, direction, timer := Idle, Off, Off, false, false, None;
      now, log := 0, START.log;
    }

    method SetAugerMotorPowerTo(on: bool)
      modifies this`power, this`log
      ensures State() == SetPower(old(State()), on)
    {
      power := on;
      log := log + [Sample(now, power, direction)];
    }

    method SetAugerMotorDirectionRelayTo(on: bool)
      modifies this`direction, this`log
      ensures State() == SetDirection(old(State()), on)
    {
      direction := on;
      log := log + [Sample(now, power, direction)];
    }

    method StartDelayBetweenRelayOperations()
      modifies this`timer
      ensures State() == StartDelay(c, old(State()))
    {
      timer := Some(Timer(RelayDelay, c.reverseDelay));
    }

    method StartPressureReliefTimer()
      modifies this`timer
      ensures State() == StartTimer(old(State()), PressureRelief, c.dispenseComplete)
    {
      timer := Some(Timer(PressureRelief, c.dispenseComplete));
    }

    method ReverseAugerDirectionRelay()
      modifies this`direction, this`log
      ensures State() == if stored == Off then old(State()) else SetDirection(old(State()), stored == Cubed)
    {
      if stored == Cubed {
        SetAugerMotorDirectionRelayTo(true);
      } else if stored == Crushed {
        SetAugerMotorDirectionRelayTo(false);
      }
    }

    /** Fsm_Transition: no state has an exit action. */
    method Transition(p: Phase)
      modifies this
      ensures State() == Enter(c, old(State()), p)
    {
      phase := p;
      match p
      case Idle =>
      case DispensingCubed =>
        stored := Cubed;
        SetAugerMotorPowerTo(true);
      case DispensingCrushed =>
        stored := Crushed;
        SetAugerMotorDirectionRelayTo(true);
        StartDelayBetweenRelayOperations();
      case DispensingComplete =>
        SetAugerMotorPowerTo(false);
        StartDelayBetweenRelayOperations();
      case MoveInReverseDirection =>
        ReverseAugerDirectionRelay();
        StartDelayBetweenRelayOperations();
      case EnsureRelaysAreOff =>
        SetAugerMotorPowerTo(false);
        StartDelayBetweenRelayOperations();
      case PreIdleDelay =>
        StartDelayBetweenRelayOperations();
    }

    method OnAugerMotorIceTypeVoteChange(ice: IceType)
      modifies this
      ensures State() == Step(c, old(State()), VoteChanged(ice))
    {
      hide Enter;
      vote := ice;
      match phase
      case Idle =>
        if ice == Crushed {
          Transition(DispensingCrushed);
        } else if ice == Cubed {
          Transition(DispensingCubed);
        }
      case DispensingCubed =>
        if ice == Off || ice == Crushed {
          Transition(DispensingComplete);
        }
      case DispensingCrushed =>
        if ice == Off || ice == Cubed {
          Transition(DispensingComplete);
        }
      case _ =>
    }

    method RelayOperationDelayTimerExpired()
      requires timer == None
      modifies this
      ensures State() == OnAlarm(c, old(State()), RelayDelay)
    {
      hide Enter;
      match phase
      case DispensingCrushed => SetAugerMotorPowerTo(true);
      case DispensingComplete => Transition(MoveInReverseDirection);
      case MoveInReverseDirection =>
        SetAugerMotorPowerTo(true);
        StartPressureReliefTimer();
      case EnsureRelaysAreOff =>
        SetAugerMotorDirectionRelayTo(false);
        Transition(PreIdleDelay);
      case PreIdleDelay =>
        if vote == Off {
          Transition(Idle);
        } else if vote == Crushed {
          Transition(DispensingCrushed);
        } else if vote == Cubed {
          Transition(DispensingCubed);
        }
      case _ =>
    }

    method PressureReliefTimerExpired()
      requires timer == None
      modifies this
      ensures State() == OnAlarm(c, old(State()), PressureRelief)
    {
      hide Enter;
      if phase == MoveInReverseDirection {
        Transition(EnsureRelaysAreOff);
      }
    }

    method TimerExpired()
      requires Enabled(State(), TimerExpires)
      modifies this
      ensures State() == Step(c, old(State()), TimerExpires)
    {
      hide OnAlarm;
      var alarm := timer.value.alarm;
      timer := None;
      match alarm
      case RelayDelay => RelayOperationDelayTimerExpired();
      case PressureRelief => PressureReliefTimerExpired();
    }

    method TimePasses(ms: nat)
      requires Enabled(State(), Elapse(ms))
      modifies this`timer, this`now
      ensures State() == Step(c, old(State()), Elapse(ms))
    {
      now := now + ms;
      if timer.Some? {
        timer := Some(timer.value.(left := timer.value.left - ms));
      }
    }
  }
}
