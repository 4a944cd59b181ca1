/**
 That the auger motor does run: every delay is served exactly once, and ice that stays voted for is dispensed
 within winding down and one more delay.
 */
module AugerMotorDispensing {
  import opened AugerMotorModel

  // ---------------------------------------------------------------- every delay is served

  function WholeTime(c: Settings, alarm: Alarm): nat {
    match alarm
    case RelayDelay => c.reverseDelay
    case PressureRelief => c.dispenseComplete
  }

  /** An armed timer counts from the last write to a relay. */
  predicate CountsFromLastWrite(c: Settings, a: Auger) {
    a.log != [] &&
    (a.timer.Some? ==> a.log[|a.log| - 1].at + WholeTime(c, a.timer.value.alarm) == a.now + a.timer.value.left)
  }

  lemma StepCountsFromLastWrite(c: Settings, a: Auger, ev: Event)
    requires Inv(c, a) && CountsFromLastWrite(c, a) && Enabled(a, ev)
    ensures CountsFromLastWrite(c, Step(c, a, ev))
  {
    hide PowerQuiet, DirectionQuiet, Interlocked;
  }

  lemma {:induction false} RunCountsFromLastWrite(c: Settings, a: Auger, evs: seq<Event>)
    requires Inv(c, a) && CountsFromLastWrite(c, a) && Possible(c, a, evs)
    ensures Inv(c, Run(c, a, evs)) && CountsFromLastWrite(c, Run(c, a, evs))
    decreases |evs|
  {
    if evs != [] {
      StepKeeps(c, a, evs[0]);
      StepCountsFromLastWrite(c, a, evs[0]);
      hide Inv, CountsFromLastWrite, Step;
      RunCountsFromLastWrite(c, Step(c, a, evs[0]), evs[1..]);
    }
  }

  /** In every run, whether a delay runs is given by phase and power, and it runs exactly from the last write to a
      relay: no delay is cut short, and none is begun again. */
  lemma DelaysAreServedOnce(c: Settings, evs: seq<Event>)
    requires Possible(c, START, evs)
    ensures var a := Run(c, START, evs);
            a.log != [] &&
            (a.timer.None? <==>
               a.phase == Idle || a.phase == DispensingCubed || (a.phase == DispensingCrushed && a.power)) &&
            (a.timer.Some? ==>
               a.log[|a.log| - 1].at + (if a.phase == MoveInReverseDirection && a.power then c.dispenseComplete
                                        else c.reverseDelay) == a.now + a.timer.value.left) &&
            (a.phase == DispensingCubed ==> a.power)
  {
    RunCountsFromLastWrite(c, START, evs);
  }

  // ---------------------------------------------------------------- ice that stays voted for

  /** The motor is powered to dispense this ice. */
  predicate Dispenses(a: Auger, ice: IceType) {
    a.power && a.phase == PhaseFor(ice) && (a.direction <==> ice == Crushed)
  }

  /** Time until the ice voted for is dispensed, if the vote stays. */
  function TimeToDispense(c: Settings, a: Auger): nat {
    if a.timer.None? then 0
    else if WindingDown(a) then TimeLeft(c, a) + if a.vote == Crushed then c.reverseDelay else 0
    else a.timer.value.left
  }

  lemma DispensingComesCloser(c: Settings, a: Auger, ev: Event)
    requires Inv(c, a) && Enabled(a, ev) && a.vote != Off && (ev.VoteChanged? ==> ev.ice == a.vote)
    ensures var b := Step(c, a, ev);
            b.vote == a.vote && (Dispenses(a, a.vote) ==> Dispenses(b, a.vote)) &&
            (!Dispenses(a, a.vote) ==> TimeToDispense(c, b) + Passed(ev) == TimeToDispense(c, a))
  {
    hide PowerQuiet, DirectionQuiet, Interlocked;
  }

  lemma NotYetDispensing(c: Settings, a: Auger)
    requires Inv(c, a) && a.vote != Off
    ensures Dispenses(a, a.vote) || a.timer.Some?
    ensures TimeToDispense(c, a) <= WindDownTime(c) + c.reverseDelay
  {
    hide PowerQuiet, DirectionQuiet, Interlocked;
  }

  lemma {:induction false} KeptVoteIsServed(c: Settings, a: Auger, evs: seq<Event>)
    requires Inv(c, a) && Possible(c, a, evs) && a.vote != Off
    requires forall ev :: ev in evs && ev.VoteChanged? ==> ev.ice == a.vote
    ensures var b := Run(c, a, evs);
            b.vote == a.vote && (TotalPassed(evs) > TimeToDispense(c, a) ==> Dispenses(b, a.vote)) &&
            (Dispenses(a, a.vote) ==> Dispenses(b, a.vote))
    decreases |evs|
  {
    if evs != [] {
      DispensingComesCloser(c, a, evs[0]);
      StepKeeps(c, a, evs[0]);
      hide Inv, Dispenses, Step;
      KeptVoteIsServed(c, Step(c, a, evs[0]), evs[1..]);
    }
  }

  /** From anything a run reaches, ice that stays voted for longer than winding down and one delay is dispensed, and
      goes on being dispensed. */
  lemma VotedIceIsDispensed(c: Settings, before: seq<Event>, ice: IceType, evs: seq<Event>)
    requires Possible(c, START, before) && ice != Off
    requires Possible(c, Step(c, Run(c, START, before), VoteChanged(ice)), evs)
    requires forall ev :: ev in evs && ev.VoteChanged? ==> ev.ice == ice
    requires TotalPassed(evs) > WindDownTime(c) + c.reverseDelay
    ensures Dispenses(Run(c, Step(c, Run(c, START, before), VoteChanged(ice)), evs), ice)
  {
    RunKeeps(c, START, before);
    var a := Step(c, Run(c, START, before), VoteChanged(ice));
    StepKeeps(c, Run(c, START, before), VoteChanged(ice));
    NotYetDispensing(c, a);
    KeptVoteIsServed(c, a, evs);
  }

  /** From rest cubed ice is dispensed at once, and crushed ice after exactly one delay. */
  lemma DispensingFromRest(c: Settings, before: seq<Event>)
    requires Possible(c, START, before) && Run(c, START, before).phase == Idle
    ensures var a := Run(c, START, before);
            var b := Step(c, a, VoteChanged(Crushed));
            Dispenses(Step(c, a, VoteChanged(Cubed)), Cubed) && !b.power && Enabled(b, Elapse(c.reverseDelay)) &&
            Enabled(Step(c, b, Elapse(c.reverseDelay)), TimerExpires) &&
            Dispenses(Step(c, Step(c, b, Elapse(c.reverseDelay)), TimerExpires), Crushed)
  {
    RunKeeps(c, START, before);
  }
}
