/**
 DamperRequestManager: position, homing and full-cycle requests are latched while the stepper motor
 moves, and the position believed is compared with the one the motor has left the damper in.
 */
module DamperModel {
  import opened Options
  import opened Units

  datatype Position = Closed | Open
  datatype Phase = Idle | Homing | Moving | FullCycle
  datatype Steps = Steps(toOpen: uint16, toClose: uint16)

  datatype Settings = Settings(isConvertible: bool, normal: Steps, asFreshFood: Steps, asFreezer: Steps, toHome: uint16)

  /** No move asks for zero steps: a zero would be taken for the completion of the move. */
  predicate Sound(c: Settings) {
    c.toHome > 0 && Positive(c.normal) && Positive(c.asFreshFood) && Positive(c.asFreezer)
  }

  predicate Positive(s: Steps) { s.toOpen > 0 && s.toClose > 0 }

  datatype StepRequest = StepRequest(toward: Position, steps: uint16, resetSubstep: bool)

  datatype Damper = Damper(
    phase: Phase,
    requested: Position,
    believed: Position,            // damperCurrentPositionErd
    homingErd: bool,
    fullCycleErd: bool,
    homingRequired: bool,
    fullCycleRequired: bool,
    closeBeforeCycling: bool,
    steps: Steps,
    motor: Option<StepRequest>,    // the move that is being made
    left: Option<Position>,        // where the last completed move left the damper
    homings: nat,                  // homing moves completed
    cycles: nat)                   // FullCycle visits

  datatype Event =
    | VoteChanged(position: Position)
    | HomingRequestChanged(on: bool)
    | FullCycleRequestChanged(on: bool)
    | ConvertibleStateChanged(asFreezer: bool)
    | MoveCompletes

  /** Requests are published on change, and only a move that is being made completes. */
  predicate Enabled(d: Damper, ev: Event) {
    match ev
    case HomingRequestChanged(on) => on != d.homingErd
    case FullCycleRequestChanged(on) => on != d.fullCycleErd
    case MoveCompletes => d.motor.Some?
    case _ => true
  }

  function Move(d: Damper, toward: Position, steps: uint16, resetSubstep: bool): Damper {
    d.(motor := Some(StepRequest(toward, steps, resetSubstep)))
  }

  function EnterHoming(c: Settings, d: Damper): Damper { Move(d.(phase := Homing), Closed, c.toHome, true) }

  function EnterMoving(d: Damper): Damper {
    Move(d.(phase := Moving), d.requested, if d.requested == Open then d.steps.toOpen else d.steps.toClose, false)
  }

  function EnterFullCycle(c: Settings, d: Damper): Damper {
    var e := d.(phase := FullCycle, cycles := d.cycles + 1);
    if d.believed == Open then Move(e, Closed, d.steps.toClose, false).(closeBeforeCycling := true)
    else Move(e, Open, c.toHome, false)
  }

  function EnterIdle(c: Settings, d: Damper): Damper {
    if d.fullCycleRequired then EnterFullCycle(c, d)
    else if d.homingRequired then EnterHoming(c, d)
    else if d.believed != d.requested then EnterMoving(d)
    else d.(phase := Idle)
  }

  function ExitHoming(d: Damper): Damper { d.(homingRequired := false, homingErd := false, fullCycleErd := false) }

  function Opposite(p: Position): Position { if p == Open then Closed else Open }

  function Complete(c: Settings, d: Damper): Damper {
    match d.phase
    case Idle => d
    case Homing => EnterIdle(c, ExitHoming(d.(believed := Closed, homings := d.homings + 1)))
    case Moving => EnterIdle(c, d.(believed := Opposite(d.believed)))
    case FullCycle =>
      if d.closeBeforeCycling then Move(d.(closeBeforeCycling := false, believed := Closed), Open, c.toHome, false)
      else EnterHoming(c, d.(believed := Open, fullCycleRequired := false))
  }

  function PositionRequested(d: Damper): Damper { if d.phase == Idle then EnterMoving(d) else d }

  function HomeRequested(c: Settings, d: Damper): Damper {
    match d.phase
    case Idle => EnterHoming(c, d)
    case Moving => d.(homingRequired := true)
    case _ => d
  }

  function FullCycleRequested(c: Settings, d: Damper): Damper {
    match d.phase
    case Idle => EnterFullCycle(c, d)
    case FullCycle => d
    case _ => d.(fullCycleRequired := true)
  }

  function Step(c: Settings, d: Damper, ev: Event): Damper
    requires Enabled(d, ev)
  {
    match ev
    case VoteChanged(position) => PositionRequested(d.(requested := position))
    case HomingRequestChanged(on) => if on then HomeRequested(c, d.(homingErd := true)) else d.(homingErd := false)
    case FullCycleRequestChanged(on) =>
      if on then FullCycleRequested(c, d.(fullCycleErd := true)) else d.(fullCycleErd := false)
    case ConvertibleStateChanged(asFreezer) =>
      if !c.isConvertible then d
      else
        var e := d.(steps := if asFreezer then c.asFreezer else c.asFreshFood);
        if e.believed == Open then HomeRequested(c, e) else e
    case MoveCompletes => Complete(c, d.(motor := None, left := Some(d.motor.value.toward)))
  }

  /** Start-up: a homing move, while the requested position is already believed. */
  function PowerUp(c: Settings, requested: Position, homingErd: bool, fullCycleErd: bool, asFreezer: bool): Damper {
    var steps := if !c.isConvertible then c.normal else if asFreezer then c.asFreezer else c.asFreshFood;
    EnterHoming(c, Damper(Homing, requested, requested, homingErd, fullCycleErd, false, false, false, steps, None,
        None, 0, 0))
  }

  // ---------------------------------------------------------------- the invariant

  predicate PhaseOk(d: Damper) {
    match d.phase
    case Idle =>
      d.motor.None? && d.believed == d.requested && !d.homingRequired && !d.fullCycleRequired && !d.closeBeforeCycling
    case Homing => d.motor.Some? && d.motor.value.toward == Closed && !d.closeBeforeCycling
    case Moving => d.motor.Some? && !d.closeBeforeCycling
    case FullCycle => d.motor.Some? && d.motor.value.toward == if d.closeBeforeCycling then Closed else Open
  }

  predicate Inv(c: Settings, d: Damper) {
    PhaseOk(d) && Positive(d.steps) && (d.motor.Some? ==> d.motor.value.steps > 0) &&
    (d.phase == Idle ==> d.left.Some?)
  }

  lemma EnterIdleKeeps(c: Settings, d: Damper)
    requires Sound(c) && Positive(d.steps) && !d.closeBeforeCycling && d.motor.None? && d.left.Some?
    ensures Inv(c, EnterIdle(c, d))
  {}

  lemma CompleteKeeps(c: Settings, d: Damper)
    requires Sound(c) && Inv(c, d) && d.motor.Some?
    ensures Inv(c, Step(c, d, MoveCompletes))
  {
    hide EnterIdle;
    var e := d.(motor := None, left := Some(d.motor.value.toward));
    match d.phase
    case Homing => EnterIdleKeeps(c, ExitHoming(e.(believed := Closed, homings := e.homings + 1)));
    case Moving => EnterIdleKeeps(c, e.(believed := Opposite(e.believed)));
    case _ =>
  }

  lemma StepKeeps(c: Settings, d: Damper, ev: Event)
    requires Sound(c) && Inv(c, d) && Enabled(d, ev)
    ensures Inv(c, Step(c, d, ev))
  {
    if ev.MoveCompletes? {
      CompleteKeeps(c, d);
    } else {
      hide Complete;
    }
  }

  predicate Possible(c: Settings, d: Damper, evs: seq<Event>)
    decreases |evs|
  {
    evs != [] ==> Enabled(d, evs[0]) && Possible(c, Step(c, d, evs[0]), evs[1..])
  }

  function Run(c: Settings, d: Damper, evs: seq<Event>): Damper
    requires Possible(c, d, evs)
    decreases |evs|
  {
    if evs == [] then d else Run(c, Step(c, d, evs[0]), evs[1..])
  }

  lemma {:induction false} RunKeeps(c: Settings, d: Damper, evs: seq<Event>)
    requires Sound(c) && Inv(c, d) && Possible(c, d, evs)
    ensures Inv(c, Run(c, d, evs))
    decreases |evs|
  {
    if evs != [] {
      StepKeeps(c, d, evs[0]);
      RunKeeps(c, Step(c, d, evs[0]), evs[1..]);
    }
  }

  // ---------------------------------------------------------------- the position

  /** At rest the damper is where it is believed to be, and a move is made only away from where it is believed to be. */
  predicate Faithful(d: Damper) {
    match d.phase
    case Idle => d.left == Some(d.believed)
    case Moving => d.motor.Some? && d.motor.value.toward != d.believed
    case _ => true
  }

  /** A vote that, in Idle, asks for the position the damper already has. */
  predicate IsIdleRepeat(d: Damper, ev: Event) { ev.VoteChanged? && d.phase == Idle && ev.position == d.requested }

  /** Exactly which steps keep the damper faithful. */
  lemma FaithfulExactly(c: Settings, d: Damper, ev: Event)
    requires Inv(c, d) && Faithful(d) && Enabled(d, ev)
    ensures Faithful(Step(c, d, ev)) <==> !IsIdleRepeat(d, ev)
  {
    match ev
    case MoveCompletes => CompletionIsFaithfulExactly(c, d);
    case _ =>
  }

  /** Entering Idle keeps what is believed and what was left; it rests only where that is requested. */
  lemma IdleEntryIsFaithful(c: Settings, d: Damper)
    ensures var r := EnterIdle(c, d);
            r.left == d.left && r.believed == d.believed &&
            (Faithful(r) <==> !(d.left != Some(d.believed) && d.believed == d.requested && !d.fullCycleRequired &&
                                !d.homingRequired))
  {}

  /** After a completed move the believed position is where that move left the damper, except after a move in Moving
      toward the position already believed; and that damper rests unfaithful just when the request has been reversed
      meanwhile and nothing is latched. */
  lemma CompletionIsFaithfulExactly(c: Settings, d: Damper)
    requires Inv(c, d) && Enabled(d, MoveCompletes)
    ensures var r := Step(c, d, MoveCompletes);
            r.left == Some(d.motor.value.toward) &&
            (r.left == Some(r.believed) <==> !(d.phase == Moving && d.motor.value.toward == d.believed)) &&
            (Faithful(r) <==> !(d.phase == Moving && d.motor.value.toward == d.believed && d.requested != d.believed &&
                                !d.fullCycleRequired && !d.homingRequired))
  {
    hide EnterIdle;
    var e := d.(motor := None, left := Some(d.motor.value.toward));
    match d.phase
    case Homing => IdleEntryIsFaithful(c, ExitHoming(e.(believed := Closed, homings := e.homings + 1)));
    case Moving => IdleEntryIsFaithful(c, e.(believed := Opposite(e.believed)));
    case _ =>
  }

  predicate NoIdleRepeat(c: Settings, d: Damper, evs: seq<Event>)
    requires Possible(c, d, evs)
    decreases |evs|
  {
    evs != [] ==> !IsIdleRepeat(d, evs[0]) && NoIdleRepeat(c, Step(c, d, evs[0]), evs[1..])
  }

  lemma {:induction false} RunIsFaithful(c: Settings, d: Damper, evs: seq<Event>)
    requires Sound(c) && Inv(c, d) && Faithful(d) && Possible(c, d, evs) && NoIdleRepeat(c, d, evs)
    ensures Faithful(Run(c, d, evs))
    decreases |evs|
  {
    if evs != [] {
      FaithfulExactly(c, d, evs[0]);
      StepKeeps(c, d, evs[0]);
      RunIsFaithful(c, Step(c, d, evs[0]), evs[1..]);
    }
  }

  /** When every vote delivered in Idle changes the position, the damper at rest is believed to be where it is requested
      and where its last move left it. */
  lemma RestIsFaithful(c: Settings, requested: Position, homingErd: bool, fullCycleErd: bool, asFreezer: bool,
      evs: seq<Event>)
    requires Sound(c)
    requires var d := PowerUp(c, requested, homingErd, fullCycleErd, asFreezer);
             Possible(c, d, evs) && NoIdleRepeat(c, d, evs) && Run(c, d, evs).phase == Idle
    ensures var r := Run(c, PowerUp(c, requested, homingErd, fullCycleErd, asFreezer), evs);
            r.believed == r.requested && r.left == Some(r.believed)
  {
    var d := PowerUp(c, requested, homingErd, fullCycleErd, asFreezer);
    RunKeeps(c, d, evs);
    RunIsFaithful(c, d, evs);
  }

  /** The failing family: a vote repeated in Idle starts a move to where the damper is, and the request is reversed
      before that move completes. The damper then rests where nobody asked for it. */
  lemma RepeatedVoteThenReversalStrands(c: Settings, d: Damper)
    requires Inv(c, d) && d.phase == Idle && d.left == Some(d.believed)
    ensures var d1 := Step(c, d, VoteChanged(d.requested));
            var d2 := Step(c, d1, VoteChanged(Opposite(d.requested)));
            Enabled(d2, MoveCompletes) &&
            var r := Step(c, d2, MoveCompletes);
            r.phase == Idle && r.believed == r.requested == Opposite(d.requested) && r.left == Some(d.requested)
  {}

  /** Without a reversal the repeated vote only costs two moves. */
  lemma RepeatedVoteAloneIsHarmless(c: Settings, d: Damper)
    requires Inv(c, d) && d.phase == Idle && d.left == Some(d.believed)
    ensures var d1 := Step(c, d, VoteChanged(d.requested));
            Enabled(d1, MoveCompletes) && Enabled(Step(c, d1, MoveCompletes), MoveCompletes) &&
            Step(c, Step(c, d1, MoveCompletes), MoveCompletes) == d
  {}

  // ---------------------------------------------------------------- coming to rest

  /** How many moves are left once Idle is entered with the given latches and positions. */
  function MovesFromIdle(fullCycle: bool, homing: bool, believed: Position, requested: Position): nat {
    var afterHoming := if requested == Open then 1 else 0;
    if fullCycle then (if believed == Open then 2 else 1) + 1 + afterHoming
    else if homing then 1 + afterHoming
    else if believed != requested then 1
    else 0
  }

  /** How many moves are left when nothing more is requested. */
  function MovesLeft(d: Damper): nat {
    match d.phase
    case Idle => 0
    case Homing => 1 + MovesFromIdle(d.fullCycleRequired, false, Closed, d.requested)
    case Moving => 1 + MovesFromIdle(d.fullCycleRequired, d.homingRequired, Opposite(d.believed), d.requested)
    case FullCycle => (if d.closeBeforeCycling then 2 else 1) + 1 + MovesFromIdle(false, false, Closed, d.requested)
  }

  lemma IdleEntryCounts(c: Settings, d: Damper)
    requires !d.closeBeforeCycling
    ensures MovesLeft(EnterIdle(c, d)) == MovesFromIdle(d.fullCycleRequired, d.homingRequired, d.believed, d.requested)
  {}

  lemma EachMoveCounts(c: Settings, d: Damper)
    requires Inv(c, d)
    ensures MovesLeft(d) <= 5
    ensures d.phase == Idle <==> d.motor.None?
    ensures d.phase == Idle <==> MovesLeft(d) == 0
    ensures d.motor.Some? ==> MovesLeft(Step(c, d, MoveCompletes)) == MovesLeft(d) - 1
  {
    hide EnterIdle;
    if d.motor.Some? {
      var e := d.(motor := None, left := Some(d.motor.value.toward));
      match d.phase
      case Homing => IdleEntryCounts(c, ExitHoming(e.(believed := Closed, homings := e.homings + 1)));
      case Moving => IdleEntryCounts(c, e.(believed := Opposite(e.believed)));
      case _ =>
    }
  }

  function Completions(n: nat): seq<Event> { seq(n, i => MoveCompletes) }

  lemma {:induction false} ComesToRest(c: Settings, d: Damper, n: nat)
    requires Sound(c) && Inv(c, d) && n == MovesLeft(d)
    ensures n <= 5 && Possible(c, d, Completions(n))
    ensures var r := Run(c, d, Completions(n));
            r.phase == Idle && r.motor.None? && r.believed == r.requested == d.requested &&
            !r.homingRequired && !r.fullCycleRequired && !r.closeBeforeCycling
    decreases n
  {
    EachMoveCounts(c, d);
    if n > 0 {
      StepKeeps(c, d, MoveCompletes);
      assert Completions(n)[1..] == Completions(n - 1);
      assert Step(c, d, MoveCompletes).requested == d.requested;
      ComesToRest(c, Step(c, d, MoveCompletes), n - 1);
    }
  }

  // ---------------------------------------------------------------- no request is lost

  function CountCompletions(evs: seq<Event>): nat
    decreases |evs|
  {
    if evs == [] then 0 else (if evs[0].MoveCompletes? then 1 else 0) + CountCompletions(evs[1..])
  }

  predicate CycleIsPending(d: Damper) { (d.phase == Homing || d.phase == Moving) && d.fullCycleRequired }

  lemma CyclesNeverDecrease(c: Settings, d: Damper, ev: Event)
    requires Inv(c, d) && Enabled(d, ev)
    ensures Step(c, d, ev).cycles >= d.cycles && Step(c, d, ev).homings >= d.homings
  {
    hide PhaseOk;
    if ev.MoveCompletes? { CompletionCounts(c, d); } else { hide Complete; }
  }

  lemma CompletionCounts(c: Settings, d: Damper)
    requires d.motor.Some?
    ensures var r := Step(c, d, MoveCompletes);
            r.cycles >= d.cycles && r.homings == d.homings + if d.phase == Homing then 1 else 0
  {
    match d.phase case Idle => case Homing => case Moving => case FullCycle =>
  }

  lemma {:induction false} RunNeverDecreases(c: Settings, d: Damper, evs: seq<Event>)
    requires Sound(c) && Inv(c, d) && Possible(c, d, evs)
    ensures Run(c, d, evs).cycles >= d.cycles && Run(c, d, evs).homings >= d.homings
    decreases |evs|
  {
    if evs != [] {
      CyclesNeverDecrease(c, d, evs[0]);
      StepKeeps(c, d, evs[0]);
      RunNeverDecreases(c, Step(c, d, evs[0]), evs[1..]);
    }
  }

  /** A full-cycle request received in Idle starts a full cycle; received in Homing or Moving it becomes pending. */
  lemma FullCycleRequestIsTaken(c: Settings, d: Damper)
    requires Inv(c, d) && Enabled(d, FullCycleRequestChanged(true))
    ensures var r := Step(c, d, FullCycleRequestChanged(true));
            if d.phase == Idle then r.phase == FullCycle && r.cycles == d.cycles + 1
            else d.phase != FullCycle ==> CycleIsPending(r)
  {}

  /** A pending full cycle starts with the next completed move, whatever happens until then. */
  lemma {:induction false} PendingCycleIsMade(c: Settings, d: Damper, evs: seq<Event>)
    requires Sound(c) && Inv(c, d) && CycleIsPending(d) && Possible(c, d, evs) && CountCompletions(evs) >= 1
    ensures Run(c, d, evs).cycles > d.cycles
    decreases |evs|
  {
    var d1 := Step(c, d, evs[0]);
    StepKeeps(c, d, evs[0]);
    if evs[0].MoveCompletes? {
      RunNeverDecreases(c, d1, evs[1..]);
    } else {
      PendingCycleIsMade(c, d1, evs[1..]);
    }
  }

  predicate HomingIsPending(d: Damper) {
    match d.phase
    case Idle => false
    case Homing => true
    case FullCycle => true
    case Moving => d.homingRequired || d.fullCycleRequired
  }

  /** Within how many completed moves a pending homing move is complete. */
  function HomingWithin(d: Damper): nat {
    match d.phase
    case Idle => 0
    case Homing => 1
    case FullCycle => if d.closeBeforeCycling then 3 else 2
    case Moving => 4
  }

  /** A home request is never lost, whatever state receives it. */
  lemma HomeRequestIsTaken(c: Settings, d: Damper, ev: Event)
    requires Inv(c, d) && Enabled(d, ev)
    requires ev == HomingRequestChanged(true) || (ev.ConvertibleStateChanged? && c.isConvertible && d.believed == Open)
    ensures HomingIsPending(Step(c, d, ev))
  {}

  lemma PendingHomingStep(c: Settings, d: Damper, ev: Event)
    requires Inv(c, d) && HomingIsPending(d) && Enabled(d, ev)
    ensures var r := Step(c, d, ev);
            r.homings > d.homings ||
            (r.homings == d.homings && HomingIsPending(r) &&
             HomingWithin(r) <= HomingWithin(d) - if ev.MoveCompletes? then 1 else 0)
  {
    if ev.MoveCompletes? {
      CompletionCounts(c, d);
      match d.phase case Idle => case Homing => case Moving => case FullCycle =>
    } else {
      hide Complete;
      match ev case VoteChanged(_) => case HomingRequestChanged(_) => case FullCycleRequestChanged(_) =>
        case ConvertibleStateChanged(_) =>
    }
  }

  /** A pending homing move is complete within four completed moves, whatever happens meanwhile. */
  lemma {:induction false} PendingHomingCompletes(c: Settings, d: Damper, evs: seq<Event>)
    requires Sound(c) && Inv(c, d) && HomingIsPending(d) && Possible(c, d, evs)
    requires CountCompletions(evs) >= HomingWithin(d)
    ensures Run(c, d, evs).homings > d.homings && HomingWithin(d) <= 4
    decreases |evs|
  {
    var d1 := Step(c, d, evs[0]);
    StepKeeps(c, d, evs[0]);
    PendingHomingStep(c, d, evs[0]);
    hide Step, Inv;
    if d1.homings > d.homings {
      RunNeverDecreases(c, d1, evs[1..]);
    } else {
      PendingHomingCompletes(c, d1, evs[1..]);
    }
  }

  /** After a home request in any state, four more completed moves include a whole homing move. */
  lemma HomeRequestIsHonoured(c: Settings, d: Damper, ev: Event, rest: seq<Event>)
    requires Sound(c) && Inv(c, d) && Enabled(d, ev)
    requires ev == HomingRequestChanged(true) || (ev.ConvertibleStateChanged? && c.isConvertible && d.believed == Open)
    requires Possible(c, Step(c, d, ev), rest) && CountCompletions(rest) >= 4
    ensures Run(c, Step(c, d, ev), rest).homings > d.homings
  {
    HomeRequestIsTaken(c, d, ev);
    StepKeeps(c, d, ev);
    CyclesNeverDecrease(c, d, ev);
    PendingHomingCompletes(c, Step(c, d, ev), rest);
  }

  /** After a full-cycle request in any state but FullCycle, the next completed move is followed by a FullCycle visit,
      unless that visit has begun at once. */
  lemma FullCycleRequestIsHonoured(c: Settings, d: Damper, rest: seq<Event>)
    requires Sound(c) && Inv(c, d) && Enabled(d, FullCycleRequestChanged(true)) && d.phase != FullCycle
    requires Possible(c, Step(c, d, FullCycleRequestChanged(true)), rest) && CountCompletions(rest) >= 1
    ensures Run(c, Step(c, d, FullCycleRequestChanged(true)), rest).cycles > d.cycles
  {
    var d1 := Step(c, d, FullCycleRequestChanged(true));
    FullCycleRequestIsTaken(c, d);
    StepKeeps(c, d, FullCycleRequestChanged(true));
    CyclesNeverDecrease(c, d, FullCycleRequestChanged(true));
    RunNeverDecreases(c, d1, rest);
    if d.phase != Idle { PendingCycleIsMade(c, d1, rest); }
  }
}
