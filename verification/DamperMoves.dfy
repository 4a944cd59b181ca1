/**
 What the moves of the damper are: their step counts, the way a full cycle travels, and when requests are
 acknowledged.
 */
module DamperMoves {
  import opened Options
  import opened DamperModel

  /** The event has the motor start a move. */
  predicate Starts(c: Settings, d: Damper, ev: Event)
    requires Enabled(d, ev)
  {
    var r := Step(c, d, ev);
    r.motor.Some? && (ev.MoveCompletes? || d.motor.None? || r.motor != d.motor)
  }

  /** Every move that is started opens by the opening count in force or closes by the closing one, but for homing and
      the opening half of a full cycle, which go the whole way home; it is a move to the request in Moving, and
      homing alone resets the substep. */
  lemma MovesTakeTheirSteps(c: Settings, d: Damper, ev: Event)
    requires Inv(c, d) && Enabled(d, ev) && Starts(c, d, ev)
    ensures var r := Step(c, d, ev);
            var move := r.motor.value;
            move.steps == (if r.phase == Homing || (r.phase == FullCycle && move.toward == Open) then c.toHome
                           else if move.toward == Open then r.steps.toOpen
                           else r.steps.toClose) &&
            (r.phase == Homing ==> move.toward == Closed) && (r.phase == Moving ==> move.toward == r.requested) &&
            (move.resetSubstep <==> r.phase == Homing)
  {
    if ev.MoveCompletes? {
      match d.phase case Homing => case Moving => case FullCycle =>
    } else {
      hide Complete;
    }
  }

  /** The role last published. */
  function LastRole(evs: seq<Event>, asFreezer: bool): bool
    decreases |evs|
  {
    if evs == [] then asFreezer
    else LastRole(evs[1..], if evs[0].ConvertibleStateChanged? then evs[0].asFreezer else asFreezer)
  }

  function StepsFor(c: Settings, asFreezer: bool): Steps {
    if !c.isConvertible then c.normal else if asFreezer then c.asFreezer else c.asFreshFood
  }

  lemma StepKeepsSteps(c: Settings, d: Damper, ev: Event, asFreezer: bool)
    requires Enabled(d, ev) && d.steps == StepsFor(c, asFreezer)
    ensures Step(c, d, ev).steps ==
            StepsFor(c, if ev.ConvertibleStateChanged? then ev.asFreezer else asFreezer)
  {
    if ev.MoveCompletes? {
      match d.phase case Idle => case Homing => case Moving => case FullCycle =>
    } else {
      hide Complete;
    }
  }

  lemma {:induction false} RunKeepsSteps(c: Settings, d: Damper, evs: seq<Event>, asFreezer: bool)
    requires Possible(c, d, evs) && d.steps == StepsFor(c, asFreezer)
    ensures Run(c, d, evs).steps == StepsFor(c, LastRole(evs, asFreezer))
    decreases |evs|
  {
    if evs != [] {
      StepKeepsSteps(c, d, evs[0], asFreezer);
      hide Step;
      RunKeepsSteps(c, Step(c, d, evs[0]), evs[1..],
                    if evs[0].ConvertibleStateChanged? then evs[0].asFreezer else asFreezer);
    }
  }

  /** In every run the counts in force are those of the role last published, or the only ones of another damper. */
  lemma CountsFollowTheRole(c: Settings, requested: Position, homingErd: bool, fullCycleErd: bool, asFreezer: bool,
      evs: seq<Event>)
    requires Possible(c, PowerUp(c, requested, homingErd, fullCycleErd, asFreezer), evs)
    ensures Run(c, PowerUp(c, requested, homingErd, fullCycleErd, asFreezer), evs).steps ==
            if !c.isConvertible then c.normal else if LastRole(evs, asFreezer) then c.asFreezer else c.asFreshFood
  {
    RunKeepsSteps(c, PowerUp(c, requested, homingErd, fullCycleErd, asFreezer), evs, asFreezer);
  }

  /** Both requests are acknowledged by the end of a homing move and by nothing else. */
  lemma RequestsAreAcknowledgedExactly(c: Settings, d: Damper, ev: Event)
    requires Inv(c, d) && Enabled(d, ev)
    ensures var r := Step(c, d, ev);
            (d.homingErd && !r.homingErd <==>
               d.homingErd && ((ev.MoveCompletes? && d.phase == Homing) || ev == HomingRequestChanged(false))) &&
            (d.fullCycleErd && !r.fullCycleErd <==>
               d.fullCycleErd && ((ev.MoveCompletes? && d.phase == Homing) || ev == FullCycleRequestChanged(false))) &&
            (ev.MoveCompletes? && d.phase == Homing ==> r.homings == d.homings + 1)
  {
    if ev.MoveCompletes? {
      match d.phase case Homing => case Moving => case FullCycle =>
    } else {
      hide Complete;
    }
  }

  /** A full cycle from rest closes an open damper, opens it all the way and homes it. */
  lemma FullCycleTravels(c: Settings, d: Damper)
    requires Inv(c, d) && d.phase == Idle && Enabled(d, FullCycleRequestChanged(true))
    ensures var r := Step(c, d, FullCycleRequestChanged(true));
            r.motor.Some? && r.phase == FullCycle && (d.believed == Open ==> r.motor.value.toward == Closed) &&
            var opening := if d.believed == Open then Step(c, r, MoveCompletes) else r;
            opening.phase == FullCycle && opening.motor.Some? && opening.motor.value.toward == Open &&
            var homing := Step(c, opening, MoveCompletes);
            homing.phase == Homing && homing.believed == Open && homing.motor.Some? &&
            Step(c, homing, MoveCompletes).left == Some(Closed)
  {}

  /** A new role of the convertible damper homes it again when it is believed open, and otherwise only changes
      counts. */
  lemma NewRoleHomesAnOpenDamper(c: Settings, d: Damper, asFreezer: bool)
    requires Inv(c, d)
    ensures var r := Step(c, d, ConvertibleStateChanged(asFreezer));
            (c.isConvertible && d.believed == Open ==> HomingIsPending(r)) &&
            (!(c.isConvertible && d.believed == Open) ==> r == d.(steps := r.steps))
  {}
}
