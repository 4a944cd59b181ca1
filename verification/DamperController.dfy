/**
 DamperRequestManager in the form of the original: state handlers that set the three latches, the
 position and the step request. Each event leaves it exactly where the model goes.
 */
module DamperControl {
  import opened Options
  import opened Units
  import opened DamperModel

  class DamperRequestManager {
    const c: Settings
    var phase: Phase
    var requested: Position             // damperPositionRequestResolvedVoteErd
    var believed: Position              // damperCurrentPositionErd
    var homingErd: bool                 // damperHomingRequestErd
    var fullCycleErd: bool              // damperFullCycleRequestErd
    var homingRequired: bool
    var fullCycleRequired: bool
    var closeBeforeCycling: bool
    var steps: Steps                    // currentDamperStepData
    var motor: Option<StepRequest>      // damperStepperMotorPositionRequestErd; None once its steps are zero
    ghost var left: Option<Position>
    ghost var homings: nat
    ghost var cycles: nat

    ghost function State(): Damper
      reads this
    {
      Damper(phase, requested, believed, homingErd, fullCycleErd, homingRequired, fullCycleRequired, closeBeforeCycling,
             steps, motor, left, homings, cycles)
    }

    constructor (c: Settings, requested: Position, homingErd: bool, fullCycleErd: bool, asFreezer: bool)
      ensures this.c == c && State() == PowerUp(c, requested, homingErd, fullCycleErd, asFreezer)
    {
      this.c := c;
      this.requested, this.homingErd, this.fullCycleErd := requested, homingErd, fullCycleErd;
      homingRequired, fullCycleRequired, closeBeforeCycling := false, false, false;
      steps := if !c.isConvertible then c.normal else if asFreezer then c.asFreezer else c.asFreshFood;
      left, homings, cycles := None, 0, 0;
      phase, motor := Homing, Some(StepRequest(Closed, c.toHome, true));
      believed := requested;
    }

    method OpenDamper(stepCount: uint16, resetSubstep: bool)
      modifies this`motor
      ensures State() == Move(old(State()), Open, stepCount, resetSubstep)
    {
      motor := Some(StepRequest(Open, stepCount, resetSubstep));
    }

    method CloseDamper(stepCount: uint16, resetSubstep: bool)
      modifies this`motor
      ensures State() == Move(old(State()), Closed, stepCount, resetSubstep)
    {
      motor := Some(StepRequest(Closed, stepCount, resetSubstep));
    }

    // -------------------------------------------------------------- entries

    method GoToHoming()
      modifies this`phase, this`motor
      ensures State() == EnterHoming(c, old(State()))
    {
      phase := Homing;
      CloseDamper(c.toHome, true);
    }

    method GoToMoving()
      modifies this`phase, this`motor
      ensures State() == EnterMoving(old(State()))
    {
      phase := Moving;
      if requested == Open {
        OpenDamper(steps.toOpen, false);
      } else if requested == Closed {
        CloseDamper(steps.toClose, false);
      }
    }

    method GoToFullCycle()
      modifies this`phase, this`motor, this`closeBeforeCycling, this`cycles
      ensures State() == EnterFullCycle(c, old(State()))
    {
      phase := FullCycle;
      cycles := cycles + 1;
      if believed == Open {
        CloseDamper(steps.toClose, false);
        closeBeforeCycling := true;
      } else {
        OpenDamper(c.toHome, false);
      }
    }

    /** Entering Idle may lead on at once. */
    method GoToIdle()
      modifies this
      ensures State() == EnterIdle(c, old(State()))
    {
      hide EnterFullCycle, EnterHoming, EnterMoving;
      if fullCycleRequired {
        GoToFullCycle();
      } else if homingRequired {
        GoToHoming();
      } else if believed != requested {
        GoToMoving();
      } else {
        phase := Idle;
      }
    }

    // -------------------------------------------------------------- state handlers

    method LeaveHoming()
      modifies this`homingRequired, this`homingErd, this`fullCycleErd
      ensures State() == ExitHoming(old(State()))
    {
      homingRequired := false;
      homingErd := false;
      fullCycleErd := false;
    }

    method StepRequestCompleted()
      requires motor == None
      modifies this
      ensures State() == Complete(c, old(State()))
    {
      hide EnterIdle;
      match phase
      case Idle =>
      case Homing =>
        homings := homings + 1;
        believed := Closed;
        LeaveHoming();
        GoToIdle();
      case Moving =>
        believed := if believed == Open then Closed else Open;
        GoToIdle();
      case FullCycle =>
        if closeBeforeCycling {
          closeBeforeCycling := false;
          believed := Closed;
          OpenDamper(c.toHome, false);
        } else {
          believed := Open;
          fullCycleRequired := false;
          GoToHoming();
        }
    }

    method HomeIsRequested()
      modifies this
      ensures State() == HomeRequested(c, old(State()))
    {
      match phase
      case Idle => GoToHoming();
      case Moving => homingRequired := true;
      case _ =>
    }

    method FullCycleIsRequested()
      modifies this
      ensures State() == FullCycleRequested(c, old(State()))
    {
      match phase
      case Idle => GoToFullCycle();
      case Homing => fullCycleRequired := true;
      case Moving => fullCycleRequired := true;
      case FullCycle =>
    }

    // -------------------------------------------------------------- events

    method ConvertibleStateChanges(asFreezer: bool)
      modifies this
      ensures State() == Step(c, old(State()), ConvertibleStateChanged(asFreezer))
    {
      hide HomeRequested;
      if c.isConvertible {
        steps := if asFreezer then c.asFreezer else c.asFreshFood;
        if believed == Open {
          HomeIsRequested();
        }
      }
    }

    /** The motor has made its last step. */
    method MotorStops()
      requires motor.Some?
      modifies this
      ensures State() == Step(c, old(State()), MoveCompletes)
    {
      hide Complete;
      left := Some(motor.value.toward);
      motor := None;
      StepRequestCompleted();
    }

    method OnDataModelChange(ev: Event)
      requires Enabled(State(), ev)
      modifies this
      ensures State() == Step(c, old(State()), ev)
    {
      hide HomeRequested, FullCycleRequested, Complete, EnterMoving;
      match ev
      case VoteChanged(position) =>
        requested := position;
        if phase == Idle {
          GoToMoving();
        }
      case HomingRequestChanged(on) =>
        homingErd := on;
        if on {
          HomeIsRequested();
        }
      case FullCycleRequestChanged(on) =>
        fullCycleErd := on;
        if on {
          FullCycleIsRequested();
        }
      case ConvertibleStateChanged(asFreezer) => ConvertibleStateChanges(asFreezer);
      case MoveCompletes => MotorStops();
    }
  }
}
