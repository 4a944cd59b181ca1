/**
 AugerMotorController as a machine over votes and time, with a log of every relay write, and what
 holds of it in every run: the relay interlock with its delays, and how long winding down takes.
 */
module AugerMotorModel {
  import opened Options

  datatype IceType = Off | Crushed | Cubed
  datatype Phase =
    | Idle | DispensingCubed | DispensingCrushed | DispensingComplete
    | MoveInReverseDirection | EnsureRelaysAreOff | PreIdleDelay
  datatype Alarm = RelayDelay | PressureRelief
  datatype Timer = Timer(alarm: Alarm, left: nat)

  datatype Settings = Settings(reverseDelay: nat, dispenseComplete: nat)

  /** The two relays after a write to one of them. */
  datatype Sample = Sample(at: nat, power: bool, direction: bool)

  datatype Auger = Auger(
    phase: Phase, vote: IceType, stored: IceType, power: bool, direction: bool, timer: Option<Timer>,
    now: nat, log: seq<Sample>)

  datatype Event = VoteChanged(ice: IceType) | Elapse(ms: nat) | TimerExpires

  predicate Enabled(a: Auger, ev: Event) {
    match ev
    case VoteChanged(_) => true
    case Elapse(ms) => a.timer.Some? ==> ms <= a.timer.value.left
    case TimerExpires => a.timer.Some? && a.timer.value.left == 0
  }

  function SetPower(a: Auger, on: bool): Auger { a.(power := on, log := a.log + [Sample(a.now, on, a.direction)]) }
  function SetDirection(a: Auger, on: bool): Auger { a.(direction := on, log := a.log + [Sample(a.now, a.power, on)]) }

  function StartTimer(a: Auger, alarm: Alarm, ms: nat): Auger { a.(timer := Some(Timer(alarm, ms))) }
  function StartDelay(c: Settings, a: Auger): Auger { StartTimer(a, RelayDelay, c.reverseDelay) }

  function Enter(c: Settings, a: Auger, p: Phase): Auger {
    var b := a.(phase := p);
    match p
    case Idle => b
    case DispensingCubed => SetPower(b.(stored := Cubed), true)
    case DispensingCrushed => StartDelay(c, SetDirection(b.(stored := Crushed), true))
    case DispensingComplete => StartDelay(c, SetPower(b, false))
    case MoveInReverseDirection => StartDelay(c, if b.stored == Off then b else SetDirection(b, b.stored == Cubed))
    case EnsureRelaysAreOff => StartDelay(c, SetPower(b, false))
    case PreIdleDelay => StartDelay(c, b)
  }

  function PhaseFor(ice: IceType): Phase {
    match ice
    case Off => Idle
    case Crushed => DispensingCrushed
    case Cubed => DispensingCubed
  }

  function OnVote(c: Settings, a: Auger, ice: IceType): Auger {
    match a.phase
    case Idle => if ice == Off then a else Enter(c, a, PhaseFor(ice))
    case DispensingCubed => if ice == Cubed then a else Enter(c, a, DispensingComplete)
    case DispensingCrushed => if ice == Crushed then a else Enter(c, a, DispensingComplete)
    case _ => a
  }

  function OnAlarm(c: Settings, a: Auger, alarm: Alarm): Auger {
    match (a.phase, alarm)
    case (DispensingCrushed, RelayDelay) => SetPower(a, true)
    case (DispensingComplete, RelayDelay) => Enter(c, a, MoveInReverseDirection)
    case (MoveInReverseDirection, RelayDelay) => StartTimer(SetPower(a, true), PressureRelief, c.dispenseComplete)
    case (MoveInReverseDirection, PressureRelief) => Enter(c, a, EnsureRelaysAreOff)
    case (EnsureRelaysAreOff, RelayDelay) => Enter(c, SetDirection(a, false), PreIdleDelay)
    case (PreIdleDelay, RelayDelay) => Enter(c, a, PhaseFor(a.vote))
    case _ => a
  }

  function PassTime(a: Auger, ms: nat): Auger
    requires Enabled(a, Elapse(ms))
  {
    a.(now := a.now + ms,
       timer := if a.timer.Some? then Some(a.timer.value.(left := a.timer.value.left - ms)) else None)
  }

  function Step(c: Settings, a: Auger, ev: Event): Auger
    requires Enabled(a, ev)
  {
    match ev
    case VoteChanged(ice) => OnVote(c, a.(vote := ice), ice)
    case Elapse(ms) => PassTime(a, ms)
    case TimerExpires => OnAlarm(c, a.(timer := None), a.timer.value.alarm)
  }

  /** Start-up: both relays off and no vote yet. */
  const START := Auger(Idle, Off, Off, false, false, None, 0, [Sample(0, false, false)])

  // ---------------------------------------------------------------- the interlock

  predicate PowerWentOff(log: seq<Sample>, j: int) { 0 < j < |log| && log[j - 1].power && !log[j].power }
  predicate PowerWentOn(log: seq<Sample>, j: int) { 0 < j < |log| && !log[j - 1].power && log[j].power }
  predicate DirectionChanged(log: seq<Sample>, j: int) { 0 < j < |log| && log[j - 1].direction != log[j].direction }

  ghost predicate MovesWithoutPower(log: seq<Sample>) {
    forall i :: DirectionChanged(log, i) ==> !log[i - 1].power && !log[i].power
  }

  ghost predicate MovesAfterPowerOff(log: seq<Sample>, delay: nat) {
    forall i, j :: DirectionChanged(log, i) && PowerWentOff(log, j) && j < i ==> log[j].at + delay <= log[i].at
  }

  ghost predicate PowersAfterMove(log: seq<Sample>, delay: nat) {
    forall i, j :: PowerWentOn(log, i) && DirectionChanged(log, j) && j < i ==> log[j].at + delay <= log[i].at
  }

  /** The direction relay moves only without power and a delay after power last went off; power comes on only a delay
      after the direction relay last moved. */
  ghost predicate Interlocked(log: seq<Sample>, delay: nat) {
    MovesWithoutPower(log) && MovesAfterPowerOff(log, delay) && PowersAfterMove(log, delay)
  }

  /** Every power-off, or direction change, is at least d before now. */
  ghost predicate PowerQuiet(log: seq<Sample>, now: nat, d: int) {
    forall j :: PowerWentOff(log, j) ==> log[j].at + d <= now
  }

  ghost predicate DirectionQuiet(log: seq<Sample>, now: nat, d: int) {
    forall j :: DirectionChanged(log, j) ==> log[j].at + d <= now
  }

  predicate Recorded(a: Auger) {
    a.log != [] && a.log[|a.log| - 1].power == a.power && a.log[|a.log| - 1].direction == a.direction &&
    forall j :: 0 <= j < |a.log| ==> a.log[j].at <= a.now
  }

  function Served(c: Settings, a: Auger): int
    requires a.timer.Some?
  {
    c.reverseDelay - a.timer.value.left
  }

  predicate Delaying(c: Settings, a: Auger) {
    a.timer.Some? && a.timer.value.alarm == RelayDelay && a.timer.value.left <= c.reverseDelay
  }

  ghost predicate PhaseOk(c: Settings, a: Auger) {
    match a.phase
    case Idle =>
      a.timer.None? && !a.power && !a.direction && PowerQuiet(a.log, a.now, c.reverseDelay) &&
      DirectionQuiet(a.log, a.now, c.reverseDelay)
    case DispensingCubed => a.timer.None? && a.power && !a.direction && a.stored == Cubed
    case DispensingCrushed =>
      a.direction && a.stored == Crushed &&
      if a.power then a.timer.None? else Delaying(c, a) && DirectionQuiet(a.log, a.now, Served(c, a))
    case DispensingComplete =>
      !a.power && a.stored != Off && (a.direction <==> a.stored == Crushed) && Delaying(c, a) &&
      PowerQuiet(a.log, a.now, Served(c, a))
    case MoveInReverseDirection =>
      a.stored != Off && (a.direction <==> a.stored == Cubed) &&
      if a.power then a.timer.Some? && a.timer.value.alarm == PressureRelief && a.timer.value.left <= c.dispenseComplete
      else Delaying(c, a) && DirectionQuiet(a.log, a.now, Served(c, a))
    case EnsureRelaysAreOff => !a.power && Delaying(c, a) && PowerQuiet(a.log, a.now, Served(c, a))
    case PreIdleDelay =>
      !a.power && !a.direction && Delaying(c, a) && PowerQuiet(a.log, a.now, c.reverseDelay) &&
      DirectionQuiet(a.log, a.now, Served(c, a))
  }

  ghost predicate Inv(c: Settings, a: Auger) {
    Recorded(a) && Interlocked(a.log, c.reverseDelay) && PhaseOk(c, a) &&
    (a.phase == Idle || a.phase == DispensingCubed || a.phase == DispensingCrushed ==> PhaseFor(a.vote) == a.phase)
  }

  // ---------------------------------------------------------------- what a relay write does to the log

  /** An edge of a log with one more sample is an edge of the log before, or the new sample's own. */
  lemma EdgesOf(log: seq<Sample>, s: Sample, j: int)
    requires 0 < j <= |log|
    ensures j < |log| ==> (PowerWentOff(log + [s], j) <==> PowerWentOff(log, j)) &&
                          (PowerWentOn(log + [s], j) <==> PowerWentOn(log, j)) &&
                          (DirectionChanged(log + [s], j) <==> DirectionChanged(log, j))
    ensures DirectionChanged(log + [s], |log|) <==> s.direction != log[|log| - 1].direction
    ensures PowerWentOn(log + [s], |log|) <==> s.power && !log[|log| - 1].power
    ensures PowerWentOff(log + [s], |log|) <==> !s.power && log[|log| - 1].power
  {}

  lemma AppendKeepsPowersAfterMove(log: seq<Sample>, s: Sample, delay: nat)
    requires log != [] && PowersAfterMove(log, delay)
    requires s.power && !log[|log| - 1].power ==> DirectionQuiet(log, s.at, delay)
    ensures PowersAfterMove(log + [s], delay)
  {
    var l := log + [s];
    forall i, j | PowerWentOn(l, i) && DirectionChanged(l, j) && j < i ensures l[j].at + delay <= l[i].at {
      EdgesOf(log, s, i);
      EdgesOf(log, s, j);
    }
  }

  lemma AppendKeepsMoves(log: seq<Sample>, s: Sample, delay: nat)
    requires log != [] && MovesWithoutPower(log) && MovesAfterPowerOff(log, delay)
    requires s.direction != log[|log| - 1].direction ==>
               !s.power && !log[|log| - 1].power && PowerQuiet(log, s.at, delay)
    ensures MovesWithoutPower(log + [s]) && MovesAfterPowerOff(log + [s], delay)
  {
    var l := log + [s];
    forall i | DirectionChanged(l, i) ensures !l[i - 1].power && !l[i].power {
      EdgesOf(log, s, i);
    }
    forall i, j | DirectionChanged(l, i) && PowerWentOff(l, j) && j < i ensures l[j].at + delay <= l[i].at {
      EdgesOf(log, s, i);
      EdgesOf(log, s, j);
    }
  }

  lemma AppendKeepsQuiet(log: seq<Sample>, s: Sample, now: nat, d: int)
    requires log != [] && s.at <= now
    ensures PowerQuiet(log, now, d) && (PowerWentOff(log + [s], |log|) ==> s.at + d <= now) ==>
              PowerQuiet(log + [s], now, d)
    ensures DirectionQuiet(log, now, d) && (DirectionChanged(log + [s], |log|) ==> s.at + d <= now) ==>
              DirectionQuiet(log + [s], now, d)
  {
    var l := log + [s];
    if PowerQuiet(log, now, d) && (PowerWentOff(l, |log|) ==> s.at + d <= now) {
      forall j | PowerWentOff(l, j) ensures l[j].at + d <= now { EdgesOf(log, s, j); }
    }
    if DirectionQuiet(log, now, d) && (DirectionChanged(l, |log|) ==> s.at + d <= now) {
      forall j | DirectionChanged(l, j) ensures l[j].at + d <= now { EdgesOf(log, s, j); }
    }
  }

  /** A write to the power relay is safe when it turns it off, or a delay after the last direction change. */
  lemma PowerWrite(c: Settings, a: Auger, on: bool)
    requires Recorded(a) && Interlocked(a.log, c.reverseDelay)
    requires on && !a.power ==> DirectionQuiet(a.log, a.now, c.reverseDelay)
    ensures var b := SetPower(a, on); Recorded(b) && Interlocked(b.log, c.reverseDelay) && PowerQuiet(b.log, b.now, 0)
  {
    var s := Sample(a.now, on, a.direction);
    assert PowerQuiet(a.log, a.now, 0);
    hide PowerQuiet, DirectionQuiet, PowersAfterMove, MovesWithoutPower, MovesAfterPowerOff, PowerWentOff;
    AppendKeepsPowersAfterMove(a.log, s, c.reverseDelay);
    AppendKeepsMoves(a.log, s, c.reverseDelay);
    AppendKeepsQuiet(a.log, s, a.now, 0);
  }

  /** A write to the direction relay is safe without power, a delay after power went off. */
  lemma DirectionWrite(c: Settings, a: Auger, on: bool)
    requires Recorded(a) && Interlocked(a.log, c.reverseDelay) && !a.power && PowerQuiet(a.log, a.now, c.reverseDelay)
    ensures var b := SetDirection(a, on);
            Recorded(b) && Interlocked(b.log, c.reverseDelay) && DirectionQuiet(b.log, b.now, 0) &&
            PowerQuiet(b.log, b.now, c.reverseDelay)
  {
    var s := Sample(a.now, a.power, on);
    assert DirectionQuiet(a.log, a.now, 0);
    assert !PowerWentOff(a.log + [s], |a.log|);
    hide PowerQuiet, DirectionQuiet, PowersAfterMove, MovesWithoutPower, MovesAfterPowerOff;
    hide PowerWentOff, DirectionChanged;
    AppendKeepsPowersAfterMove(a.log, s, c.reverseDelay);
    AppendKeepsMoves(a.log, s, c.reverseDelay);
    AppendKeepsQuiet(a.log, s, a.now, 0);
    AppendKeepsQuiet(a.log, s, a.now, c.reverseDelay);
  }

  lemma QuietLater(log: seq<Sample>, now: nat, ms: nat, d: int)
    ensures PowerQuiet(log, now, d) ==> PowerQuiet(log, now + ms, d + ms) && PowerQuiet(log, now + ms, d)
    ensures DirectionQuiet(log, now, d) ==> DirectionQuiet(log, now + ms, d + ms) && DirectionQuiet(log, now + ms, d)
  {}

  lemma TimeKeeps(c: Settings, a: Auger, ms: nat)
    requires Inv(c, a) && Enabled(a, Elapse(ms))
    ensures Inv(c, PassTime(a, ms))
  {
    hide PowerQuiet, DirectionQuiet, Interlocked;
    var b := PassTime(a, ms);
    QuietLater(a.log, a.now, ms, c.reverseDelay);
    if a.timer.Some? {
      assert Served(c, b) == Served(c, a) + ms;
      QuietLater(a.log, a.now, ms, Served(c, a));
    }
  }

  // ---------------------------------------------------------------- every step

  lemma EnterKeeps(c: Settings, a: Auger, p: Phase)
    requires Recorded(a) && Interlocked(a.log, c.reverseDelay) && a.timer.None?
    requires match p
             case Idle =>
               !a.power && !a.direction && PowerQuiet(a.log, a.now, c.reverseDelay) &&
               DirectionQuiet(a.log, a.now, c.reverseDelay)
             case DispensingCubed => !a.power && !a.direction && DirectionQuiet(a.log, a.now, c.reverseDelay)
             case DispensingCrushed => !a.power && PowerQuiet(a.log, a.now, c.reverseDelay)
             case DispensingComplete => a.stored != Off && (a.direction <==> a.stored == Crushed)
             case MoveInReverseDirection => a.stored != Off && !a.power && PowerQuiet(a.log, a.now, c.reverseDelay)
             case EnsureRelaysAreOff => true
             case PreIdleDelay =>
               !a.power && !a.direction && PowerQuiet(a.log, a.now, c.reverseDelay) &&
               DirectionQuiet(a.log, a.now, 0)
    ensures var b := Enter(c, a, p); Recorded(b) && Interlocked(b.log, c.reverseDelay) && PhaseOk(c, b) && b.phase == p
  {
    hide PowerQuiet, DirectionQuiet, Interlocked;
    var b := a.(phase := p);
    match p
    case DispensingCubed => PowerWrite(c, b.(stored := Cubed), true);
    case DispensingCrushed => DirectionWrite(c, b.(stored := Crushed), true);
    case DispensingComplete => PowerWrite(c, b, false);
    case MoveInReverseDirection => DirectionWrite(c, b, b.stored == Cubed);
    case EnsureRelaysAreOff => PowerWrite(c, b, false);
    case _ =>
  }

  lemma VoteKeeps(c: Settings, a: Auger, ice: IceType)
    requires Inv(c, a)
    ensures Inv(c, OnVote(c, a.(vote := ice), ice))
  {
    hide PowerQuiet, DirectionQuiet, Interlocked;
    var b := a.(vote := ice);
    match a.phase
    case Idle => if ice != Off { EnterKeeps(c, b, PhaseFor(ice)); }
    case DispensingCubed => if ice != Cubed { EnterKeeps(c, b, DispensingComplete); }
    case DispensingCrushed => if ice != Crushed { EnterKeeps(c, b.(timer := None), DispensingComplete); }
    case _ =>
  }

  lemma AlarmKeeps(c: Settings, a: Auger)
    requires Inv(c, a) && Enabled(a, TimerExpires)
    ensures Inv(c, Step(c, a, TimerExpires))
  {
    hide PowerQuiet, DirectionQuiet, Interlocked;
    var b := a.(timer := None);
    match (a.phase, a.timer.value.alarm)
    case (DispensingCrushed, RelayDelay) => PowerWrite(c, b, true);
    case (DispensingComplete, RelayDelay) => EnterKeeps(c, b, MoveInReverseDirection);
    case (MoveInReverseDirection, RelayDelay) => PowerWrite(c, b, true);
    case (MoveInReverseDirection, PressureRelief) => EnterKeeps(c, b, EnsureRelaysAreOff);
    case (EnsureRelaysAreOff, RelayDelay) =>
      DirectionWrite(c, b, false);
      EnterKeeps(c, SetDirection(b, false), PreIdleDelay);
    case (PreIdleDelay, RelayDelay) => EnterKeeps(c, b, PhaseFor(a.vote));
  }

  lemma StepKeeps(c: Settings, a: Auger, ev: Event)
    requires Inv(c, a) && Enabled(a, ev)
    ensures Inv(c, Step(c, a, ev))
  {
    match ev
    case VoteChanged(ice) => VoteKeeps(c, a, ice);
    case Elapse(ms) => TimeKeeps(c, a, ms);
    case TimerExpires => AlarmKeeps(c, a);
  }

  // ---------------------------------------------------------------- runs

  predicate Possible(c: Settings, a: Auger, evs: seq<Event>)
    decreases |evs|
  {
    evs != [] ==> Enabled(a, evs[0]) && Possible(c, Step(c, a, evs[0]), evs[1..])
  }

  function Run(c: Settings, a: Auger, evs: seq<Event>): Auger
    requires Possible(c, a, evs)
    decreases |evs|
  {
    if evs == [] then a else Run(c, Step(c, a, evs[0]), evs[1..])
  }

  lemma {:induction false} RunKeeps(c: Settings, a: Auger, evs: seq<Event>)
    requires Inv(c, a) && Possible(c, a, evs)
    ensures Inv(c, Run(c, a, evs))
    decreases |evs|
  {
    if evs != [] {
      StepKeeps(c, a, evs[0]);
      RunKeeps(c, Step(c, a, evs[0]), evs[1..]);
    }
  }

  /** Whatever votes arrive in whatever state, the two relays keep the interlock with its delays. */
  lemma RelaysAreInterlocked(c: Settings, evs: seq<Event>)
    requires Possible(c, START, evs)
    ensures Interlocked(Run(c, START, evs).log, c.reverseDelay)
  {
    RunKeeps(c, START, evs);
  }

  /** The last write in the log is the state of the relays, and the motor is powered only to dispense the voted ice in
      that ice's direction, or to turn back against the direction of the ice last dispensed. */
  lemma MotorRunsOnlyToDispenseOrTurnBack(c: Settings, evs: seq<Event>)
    requires Possible(c, START, evs)
    ensures var a := Run(c, START, evs);
            a.log != [] && a.log[|a.log| - 1].power == a.power && a.log[|a.log| - 1].direction == a.direction &&
            (a.power ==>
               (a.phase == DispensingCubed && a.vote == Cubed && !a.direction) ||
               (a.phase == DispensingCrushed && a.vote == Crushed && a.direction) ||
               (a.phase == MoveInReverseDirection && a.stored != Off && (a.direction <==> a.stored == Cubed)))
  {
    RunKeeps(c, START, evs);
  }

  /** At rest the vote is off and both relays are off. */
  lemma RestsOnlyWhenVotedOff(c: Settings, evs: seq<Event>)
    requires Possible(c, START, evs) && Run(c, START, evs).phase == Idle
    ensures var a := Run(c, START, evs); a.vote == Off && !a.power && !a.direction && a.timer == None
  {
    RunKeeps(c, START, evs);
  }

  // ---------------------------------------------------------------- winding down

  predicate WindingDown(a: Auger) {
    a.phase == DispensingComplete || a.phase == MoveInReverseDirection || a.phase == EnsureRelaysAreOff ||
    a.phase == PreIdleDelay
  }

  /** Time until winding down is over. */
  function TimeLeft(c: Settings, a: Auger): nat
    requires a.timer.Some?
  {
    var left := a.timer.value.left;
    match a.phase
    case DispensingComplete => left + c.reverseDelay + c.dispenseComplete + 2 * c.reverseDelay
    case MoveInReverseDirection =>
      if a.timer.value.alarm == PressureRelief then left + 2 * c.reverseDelay
      else left + c.dispenseComplete + 2 * c.reverseDelay
    case EnsureRelaysAreOff => left + c.reverseDelay
    case _ => left
  }

  function WindDownTime(c: Settings): nat { 4 * c.reverseDelay + c.dispenseComplete }

  function Passed(ev: Event): nat { if ev.Elapse? then ev.ms else 0 }

  /** One step of winding down: votes change nothing but the vote, time is never lost or gained, and the end comes
      exactly when the time is up, in the phase voted for. */
  lemma WindingDownStep(c: Settings, a: Auger, ev: Event)
    requires Inv(c, a) && WindingDown(a) && Enabled(a, ev)
    ensures a.timer.Some?
    ensures var b := Step(c, a, ev);
            if WindingDown(b) then b.timer.Some? && TimeLeft(c, b) + Passed(ev) == TimeLeft(c, a)
            else ev.TimerExpires? && TimeLeft(c, a) == 0 && b.phase == PhaseFor(a.vote)
    ensures ev.VoteChanged? ==> Step(c, a, ev) == a.(vote := ev.ice)
  {}

  /** Stopping to dispense, for whatever reason, begins winding down with all its time left. */
  lemma DispensingEndsInWindingDown(c: Settings, a: Auger, ev: Event)
    requires Inv(c, a) && Enabled(a, ev) && (a.phase == DispensingCubed || a.phase == DispensingCrushed)
    ensures var b := Step(c, a, ev);
            b.phase == a.phase ||
            (ev.VoteChanged? && WindingDown(b) && b.timer.Some? && TimeLeft(c, b) == WindDownTime(c))
  {}

  function TotalPassed(evs: seq<Event>): nat
    decreases |evs|
  {
    if evs == [] then 0 else Passed(evs[0]) + TotalPassed(evs[1..])
  }

  predicate StaysWindingDown(c: Settings, a: Auger, evs: seq<Event>)
    requires Possible(c, a, evs)
    decreases |evs|
  {
    WindingDown(a) && (evs != [] ==> StaysWindingDown(c, Step(c, a, evs[0]), evs[1..]))
  }

  /** Winding down takes exactly four relay delays and the pressure relief, whatever is voted meanwhile. */
  lemma {:induction false} WindingDownTakesItsTime(c: Settings, a: Auger, evs: seq<Event>)
    requires Inv(c, a) && Possible(c, a, evs) && StaysWindingDown(c, a, evs)
    ensures a.timer.Some? && Run(c, a, evs).timer.Some?
    ensures TimeLeft(c, Run(c, a, evs)) + TotalPassed(evs) == TimeLeft(c, a)
    decreases |evs|
  {
    if evs != [] {
      WindingDownStep(c, a, evs[0]);
      StepKeeps(c, a, evs[0]);
      WindingDownTakesItsTime(c, Step(c, a, evs[0]), evs[1..]);
    }
  }
}
