/**
 That readiness comes, and exactly when: the timer is always armed for what is left, and while the inputs stay
 as they are no time is lost on the way.
 */
module ReadinessComes {
  import opened Options
  import opened Units
  import opened ReadyToDefrostModel
  import opened ReadyToDefrostRuns

  // ---------------------------------------------------------------- the timer is always armed for what is left

  /** The arming that the present records and inputs ask for. */
  function ArmFor(c: Settings, s: Readiness): Arm
    requires Fits(c, s)
  {
    if UntilReady(c, s) < UPDATE_PERIOD then Arm(RemainingTime, UntilReady(c, s)) else Arm(Update, UPDATE_PERIOD)
  }

  predicate Armed(c: Settings, s: Readiness)
    requires Fits(c, s)
  {
    Accumulating(s) && s.mode == Remaining && AnythingOn(s) ==> s.armed == Some(ArmFor(c, s))
  }

  lemma ArmRemainingArms(c: Settings, s: Readiness)
    requires Fits(c, s)
    ensures var r := ArmRemaining(c, s);
            Armed(c, r) && r == s.(armed := r.armed, elapsed := r.elapsed) && (AnythingOn(s) ==> r.elapsed == 0)
  {
    var r := ArmRemaining(c, s);
    assert UntilReady(c, r) == UntilReady(c, s);
    hide UntilReady;
  }

  lemma EnterRemainingArms(c: Settings, s: Readiness)
    requires Fits(c, s)
    ensures Armed(c, EnterRemaining(c, s)) && EnterRemaining(c, s).mode == Remaining
  {
    var s1 := ShowTotal(s.(mode := Remaining, timeBetween := TimeBetween(c, s.conditions)));
    ArmRemainingArms(c, s1);
    if IsReady(c, s1) {
      assert RemainingMs(EnterRemaining(c, s)) == 0;
    }
    hide ArmRemaining, Weight, Total;
  }

  lemma InputArms(c: Settings, s: Readiness, ev: Event)
    requires Inv(c, s) && Armed(c, s) && Enabled(s, ev) && (ev.CompressorChanged? || ev.DoorChanged?)
    ensures Armed(c, Step(c, s, ev))
  {
    hide ArmMinimum, ArmRemaining, Balances, PeriodIsCurrent, UntilReady;
    var s2 := if ev.CompressorChanged?
              then var s0 := s.(compressorOn := ev.on);
                   var s1 := if ev.on then s0 else AddCompressor(s0);
                   AddOpenDoors(c, if ev.on || s.mode == Remaining then s1 else ShowCompressor(s1))
              else var s0 := s.(open := s.open[ev.door := ev.isOpen]);
                   var s1 := AddCompressorIfOn(AddDoors(c, s0, s0.open[ev.door := !s0.open[ev.door]]));
                   if s.mode == Minimum then ShowCompressorIfOn(s1) else s1;
    if s.mode == Minimum {
      ArmMinimumStays(c, s2);
    } else if s.mode == Remaining {
      ArmRemainingArms(c, ShowTotal(s2));
    }
  }

  lemma ArmMinimumStays(c: Settings, s: Readiness)
    ensures ArmMinimum(c, s).mode == s.mode && ArmMinimum(c, s).ready == s.ready
  {}

  lemma ExpiryArms(c: Settings, s: Readiness)
    requires Inv(c, s) && Armed(c, s) && Enabled(s, TimerExpires)
    ensures Armed(c, Step(c, s, TimerExpires))
  {
    hide ArmMinimum, ArmRemaining, EnterRemaining, Balances, PeriodIsCurrent, UntilReady;
    var s1 := AddOpenDoors(c, AddCompressorIfOn(s.(armed := None)));
    if s.mode == Minimum {
      ArmMinimumStays(c, ShowCompressorIfOn(s1));
      EnterRemainingArms(c, Stop(ShowCompressorIfOn(s1)));
    } else {
      ArmRemainingArms(c, ShowTotal(s1));
    }
  }

  lemma StepArms(c: Settings, s: Readiness, ev: Event)
    requires Inv(c, s) && Armed(c, s) && Enabled(s, ev)
    ensures Armed(c, Step(c, s, ev))
  {
    hide CompressorEvent, DoorEvent, ExpiryEvent, Balances, PeriodIsCurrent, ArmMinimum;
    if ev.CompressorChanged? || ev.DoorChanged? {
      InputArms(c, s, ev);
    } else if ev.TimerExpires? {
      ExpiryArms(c, s);
    } else {
      var s1 := if ev == AhamChanged(true) && s.mode == Remaining
                then Stop(Reset(s.(aham := true)).(waitingTime := 0)) else Reset(s);
      EnterMinimumStays(c, s1);
    }
  }

  lemma EnterMinimumStays(c: Settings, s: Readiness)
    requires Fits(c, s)
    ensures EnterMinimum(c, s).mode == Minimum
  {}

  lemma {:induction false} RunArms(c: Settings, s: Readiness, evs: seq<Event>)
    requires Sound(c) && Inv(c, s) && Armed(c, s) && Possible(c, s, evs)
    ensures Inv(c, Run(c, s, evs)) && Armed(c, Run(c, s, evs))
    decreases |evs|
  {
    if evs != [] {
      StepKeeps(c, s, evs[0]);
      StepArms(c, s, evs[0]);
      hide Armed, Step;
      RunArms(c, Step(c, s, evs[0]), evs[1..]);
    }
  }

  lemma ReachableIsArmed(c: Settings, s: Readiness)
    requires Sound(c) && Reachable(c, s)
    ensures Inv(c, s) && Armed(c, s)
  {
    var f: Found, evs: seq<Event> :|
      Startable(c, f) && Possible(c, PowerUp(c, f), evs) && s == Run(c, PowerUp(c, f), evs);
    PowerUpEstablishes(c, f);
    PowerUpArms(c, f);
    hide PowerUp;
    RunArms(c, PowerUp(c, f), evs);
  }

  lemma PowerUpArms(c: Settings, f: Found)
    requires Startable(c, f)
    ensures Armed(c, PowerUp(c, f))
  {
    var s := if f.conditions.tooWarm then Reset(Restored(f)) else Restored(f);
    EnterMinimumStays(c, s);
    EnterRemainingArms(c, s);
    hide EnterMinimum, EnterRemaining;
  }

  lemma {:induction false} OpenDoorsWeigh(c: Settings, open: seq<bool>, n: nat, i: nat)
    requires Sound(c) && i < n <= |open| == |c.factors| && open[i]
    ensures OpenFactorsTo(c, open, n) > 0
    decreases n
  {
    if i < n - 1 { OpenDoorsWeigh(c, open, n - 1, i); }
  }

  lemma WhatIsOnWeighs(c: Settings, s: Readiness)
    requires Sound(c) && Fits(c, s)
    ensures Weight(c, s) > 0 <==> AnythingOn(s)
  {
    if AnyOpen(s.open) {
      var i :| 0 <= i < |s.open| && s.open[i];
      OpenDoorsWeigh(c, s.open, |s.open|, i);
    } else {
      ShutDoorsDoNotWeigh(c, s.open, |s.open|);
    }
  }

  lemma {:induction false} ShutDoorsDoNotWeigh(c: Settings, open: seq<bool>, n: nat)
    requires n <= |open| == |c.factors| && !AnyOpen(open)
    ensures OpenFactorsTo(c, open, n) == 0
    decreases n
  {
    if n > 0 {
      assert !open[n - 1];
      ShutDoorsDoNotWeigh(c, open, n - 1);
    }
  }

  /** In every reachable state that waits for the remaining time with anything on, the timer is armed and never past
      what remains at the present weight: for the whole minute of an update while more than that remains, and
      otherwise for all of what remains but a part of a millisecond. */
  lemma TimerIsArmedForWhatRemains(c: Settings, s: Readiness)
    requires Sound(c) && Reachable(c, s) && Accumulating(s) && s.mode == Remaining && AnythingOn(s)
    ensures Fits(c, s) && Weight(c, s) > 0 && s.armed.Some?
    ensures s.armed.value.period * Weight(c, s) <= RemainingMs(s)
    ensures s.armed.value.kind == RemainingTime ==> RemainingMs(s) < (s.armed.value.period + 1) * Weight(c, s)
    ensures s.armed.value.kind != RemainingTime ==> s.armed.value == Arm(Update, UPDATE_PERIOD)
  {
    ReachableIsArmed(c, s);
    WhatIsOnWeighs(c, s);
    Quotient(RemainingMs(s), Weight(c, s));
    hide Weight, RemainingMs, AnythingOn, Balances, PeriodIsCurrent;
    if UntilReady(c, s) >= UPDATE_PERIOD { AtMost(UPDATE_PERIOD, UntilReady(c, s), Weight(c, s)); }
  }

  lemma Quotient(r: nat, w: nat)
    requires w > 0
    ensures r / w * w <= r < (r / w + 1) * w
  {
    assert r == r / w * w + r % w;
    assert (r / w + 1) * w == r / w * w + w;
  }

  lemma AtMost(a: nat, b: nat, w: nat)
    requires a <= b
    ensures a * w <= b * w
  {
    assert (b - a) * w >= 0;
  }

  // ---------------------------------------------------------------- a whole minute is recorded whole

  lemma {:induction false} DoorsGainAMinute(c: Settings, accel: seq<nat>, gained: seq<nat>, open: seq<bool>, n: nat)
    requires n <= |open| == |accel| == |gained| == |c.factors|
    requires forall i :: 0 <= i < |open| ==> gained[i] == accel[i] + if open[i] then Gain(c, UPDATE_PERIOD, i) else 0
    ensures SumTo(gained, n) == SumTo(accel, n) + SECONDS_PER_MINUTE * OpenFactorsTo(c, open, n)
    decreases n
  {
    if n > 0 {
      DoorsGainAMinute(c, accel, gained, open, n - 1);
      assert Gain(c, UPDATE_PERIOD, n - 1) == SECONDS_PER_MINUTE * c.factors[n - 1];
    }
  }

  lemma MinuteIsRecordedWhole(c: Settings, s: Readiness)
    requires Fits(c, s) && s.elapsed == UPDATE_PERIOD
    ensures Total(AddOpenDoors(c, AddCompressorIfOn(s))) == Total(s) + SECONDS_PER_MINUTE * Weight(c, s)
  {
    var r := AddOpenDoors(c, AddCompressorIfOn(s));
    DoorsGainAMinute(c, s.accel, r.accel, s.open, |s.open|);
  }

  // ---------------------------------------------------------------- readiness comes exactly then

  /** The time until readiness if the inputs stay as they are. */
  function TimeToReady(c: Settings, s: Readiness): int
    requires Fits(c, s)
  {
    UntilReady(c, s) - s.elapsed
  }

  /** Nothing happens to the inputs. */
  predicate InputsStay(ev: Event) { ev.Elapse? || ev.TimerExpires? || ev.ConditionsChanged? }

  lemma UpdateLosesNothing(c: Settings, s: Readiness)
    requires Sound(c) && Inv(c, s) && Armed(c, s) && Accumulating(s) && s.mode == Remaining && AnythingOn(s)
    requires Enabled(s, TimerExpires) && s.armed.value.kind != RemainingTime
    ensures var r := Step(c, s, TimerExpires);
            Accumulating(r) && r.mode == Remaining && AnythingOn(r) && r.elapsed == 0 &&
            UntilReady(c, r) == UntilReady(c, s) - UPDATE_PERIOD
  {
    var s0 := s.(armed := None);
    var s1 := ShowTotal(AddOpenDoors(c, AddCompressorIfOn(s0)));
    MinuteIsRecordedWhole(c, s0);
    ArmRemainingArms(c, s1);
    WhatIsOnWeighs(c, s);
    assert Weight(c, s1) == Weight(c, s) && Total(s0) == Total(s) && Weight(c, s0) == Weight(c, s);
    Quotient(RemainingMs(s), Weight(c, s));
    hide Weight, Total, ArmRemaining, Balances, PeriodIsCurrent, AddOpenDoors;
    AtMost(UPDATE_PERIOD, UntilReady(c, s), Weight(c, s));
    LessDivides(RemainingMs(s), Weight(c, s));
  }

  lemma LessDivides(r: nat, w: nat)
    requires w > 0 && UPDATE_PERIOD * w <= r
    ensures (r - UPDATE_PERIOD * w) / w == r / w - UPDATE_PERIOD
  {
    Quotient(r, w);
    Quotient(r - UPDATE_PERIOD * w, w);
    var p, q := (r - UPDATE_PERIOD * w) / w, r / w - UPDATE_PERIOD;
    assert q * w == r / w * w - UPDATE_PERIOD * w;
    OneQuotient(p, q, r - UPDATE_PERIOD * w, w);
  }

  lemma OneQuotient(p: int, q: int, r: int, w: nat)
    requires w > 0 && p * w <= r < p * w + w && q * w <= r < q * w + w
    ensures p == q
  {
    if p < q {
      NextMultiple(p, q, w);
    } else if q < p {
      NextMultiple(q, p, w);
    }
  }

  lemma NextMultiple(p: int, q: int, w: nat)
    requires p < q
    ensures p * w + w <= q * w
  {
    var d := q - p - 1;
    assert q * w == (p + 1 + d) * w == p * w + w + d * w;
    assert d * w >= 0;
  }

  function Passed(ev: Event): nat { if ev.Elapse? then ev.ms else 0 }

  function TotalPassed(evs: seq<Event>): nat
    decreases |evs|
  {
    if evs == [] then 0 else Passed(evs[0]) + TotalPassed(evs[1..])
  }

  function Expiries(evs: seq<Event>): nat
    decreases |evs|
  {
    if evs == [] then 0 else (if evs[0].TimerExpires? then 1 else 0) + Expiries(evs[1..])
  }

  predicate WaitsForRemaining(c: Settings, s: Readiness) {
    Inv(c, s) && Armed(c, s) && Accumulating(s) && s.mode == Remaining && AnythingOn(s)
  }

  lemma ReadinessComesCloser(c: Settings, s: Readiness, ev: Event)
    requires Sound(c) && WaitsForRemaining(c, s) && Enabled(s, ev) && InputsStay(ev)
    ensures TimeToReady(c, s) >= 0
    ensures var r := Step(c, s, ev);
            if r.ready then
              ev.TimerExpires? && TimeToReady(c, s) == 0
            else
              WaitsForRemaining(c, r) && TimeToReady(c, r) + Passed(ev) == TimeToReady(c, s) &&
              UntilReady(c, r) == UntilReady(c, s) - if ev.TimerExpires? then UPDATE_PERIOD else 0
  {
    StepKeeps(c, s, ev);
    StepArms(c, s, ev);
    if ev.TimerExpires? && s.armed.value.kind != RemainingTime { UpdateLosesNothing(c, s); }
    hide Balances, PeriodIsCurrent, ArmMinimum, ArmRemaining, EnterRemaining, AddOpenDoors;
    if ev.Elapse? {
      assert UntilReady(c, PassTime(c, s, ev.ms)) == UntilReady(c, s);
    } else if ev.ConditionsChanged? {
      assert UntilReady(c, s.(conditions := ev.conditions)) == UntilReady(c, s);
    }
  }

  lemma {:induction false} StaysReadyThroughout(c: Settings, s: Readiness, evs: seq<Event>)
    requires Fits(c, s) && Possible(c, s, evs) && s.ready && s.mode == Remaining
    requires forall ev :: ev in evs ==> InputsStay(ev)
    ensures Run(c, s, evs).ready
    decreases |evs|
  {
    if evs != [] {
      ReadyStaysReady(c, s, evs[0]);
      hide Step;
      StaysReadyThroughout(c, Step(c, s, evs[0]), evs[1..]);
    }
  }

  lemma ReadyStaysReady(c: Settings, s: Readiness, ev: Event)
    requires Fits(c, s) && Enabled(s, ev) && s.ready && s.mode == Remaining && InputsStay(ev)
    ensures Step(c, s, ev).ready && Step(c, s, ev).mode == Remaining
  {
    hide Weight, Sum, UntilReady;
  }

  lemma {:induction false} WaitIsExact(c: Settings, s: Readiness, evs: seq<Event>)
    requires Sound(c) && WaitsForRemaining(c, s) && Possible(c, s, evs)
    requires forall ev :: ev in evs ==> InputsStay(ev)
    ensures var r := Run(c, s, evs);
            if r.ready then
              TotalPassed(evs) >= TimeToReady(c, s)
            else
              WaitsForRemaining(c, r) && TimeToReady(c, r) >= 0 &&
              TotalPassed(evs) + TimeToReady(c, r) == TimeToReady(c, s) &&
              Expiries(evs) * UPDATE_PERIOD + UntilReady(c, r) == UntilReady(c, s)
    decreases |evs|
  {
    if evs == [] {
      ReadinessComesCloser(c, s, Elapse(0));
    } else {
      ReadinessComesCloser(c, s, evs[0]);
      var next := Step(c, s, evs[0]);
      if next.ready {
        StepKeeps(c, s, evs[0]);
        RemainingReadies(c, s, evs[0]);
        StaysReadyThroughout(c, next, evs[1..]);
      } else {
        hide Step, WaitsForRemaining, TimeToReady, UntilReady;
        WaitIsExact(c, next, evs[1..]);
      }
    }
  }

  lemma RemainingReadies(c: Settings, s: Readiness, ev: Event)
    requires Fits(c, s) && Enabled(s, ev) && s.mode == Remaining && InputsStay(ev)
    ensures Step(c, s, ev).mode == Remaining
  {
    hide Weight, Sum, UntilReady;
  }

  /** The timer is up, and readiness comes with its expiry, or, after a last update, with one more at once. */
  predicate IsDue(c: Settings, s: Readiness)
    requires Fits(c, s)
  {
    Enabled(s, TimerExpires) &&
    var r := Step(c, s, TimerExpires);
    r.ready || (Enabled(r, TimerExpires) && Step(c, r, TimerExpires).ready)
  }

  /** While the inputs stay as they are, readiness is asserted exactly when what remained at the start, at the weight of
      what is on, has passed: never earlier, and with the expiry that is then due. So many expiries are enough. */
  lemma ReadinessComesExactly(c: Settings, s: Readiness, evs: seq<Event>)
    requires Sound(c) && Reachable(c, s) && Accumulating(s) && s.mode == Remaining && AnythingOn(s)
    requires Fits(c, s) && Possible(c, s, evs) && forall ev :: ev in evs ==> InputsStay(ev)
    ensures Weight(c, s) > 0
    ensures var r := Run(c, s, evs);
            var due := RemainingMs(s) / Weight(c, s) - s.elapsed;
            (r.ready ==> TotalPassed(evs) >= due) && (TotalPassed(evs) > due ==> r.ready) &&
            (TotalPassed(evs) == due && !r.ready ==> Fits(c, r) && IsDue(c, r)) &&
            (Expiries(evs) > RemainingMs(s) / Weight(c, s) / UPDATE_PERIOD ==> r.ready)
  {
    ReachableIsArmed(c, s);
    WhatIsOnWeighs(c, s);
    WaitIsExact(c, s, evs);
    var r := Run(c, s, evs);
    if !r.ready {
      hide Run, Possible;
      ExpiresReady(c, r);
      TooManyExpiries(Expiries(evs), UntilReady(c, s));
    }
  }

  lemma ExpiresReady(c: Settings, s: Readiness)
    requires Sound(c) && WaitsForRemaining(c, s)
    ensures TimeToReady(c, s) == 0 ==> IsDue(c, s)
  {
    if TimeToReady(c, s) == 0 {
      ReadinessComesCloser(c, s, TimerExpires);
      var r := Step(c, s, TimerExpires);
      hide Step, UntilReady, Inv;
      if !r.ready { ReadinessComesCloser(c, r, TimerExpires); }
    }
  }

  lemma TooManyExpiries(n: nat, until: nat)
    requires n * UPDATE_PERIOD <= until
    ensures n <= until / UPDATE_PERIOD
  {}

  // ---------------------------------------------------------------- from the start of a wait

  /** The arming of the minimum state while the compressor runs. */
  predicate MinimumArmed(c: Settings, s: Readiness) {
    (s.aham ==> s.timeBetween == c.ahamMinutes) && Accumulating(s) && s.mode == Minimum && s.compressorOn &&
    !AnyOpen(s.open) && s.elapsed <= UPDATE_PERIOD &&
    s.armed == Some(if UntilMinimum(c, s) < UPDATE_PERIOD then Arm(MinimumTime, UntilMinimum(c, s))
                    else Arm(Update, UPDATE_PERIOD))
  }

  predicate WaitsForMinimum(c: Settings, s: Readiness) {
    Inv(c, s) && Armed(c, s) && MinimumArmed(c, s)
  }

  function Most(a: nat, b: nat): nat { if a < b then b else a }

  /** The time until readiness in either state, with the compressor running and all doors shut. */
  function TimeLeft(c: Settings, s: Readiness): int
    requires Fits(c, s)
  {
    if s.mode == Minimum then
      UntilMinimum(c, s) - s.elapsed +
      if EndsWithMinimum(c, s) then 0
      else MSEC_PER_SEC * Less(TimeBetween(c, s.conditions) * SECONDS_PER_MINUTE,
                               Most(s.comp, MinimumSeconds(c)) + Sum(s.accel))
    else TimeToReady(c, s)
  }

  lemma MinimumUpdate(c: Settings, s: Readiness)
    requires WaitsForMinimum(c, s) && Enabled(s, TimerExpires) && UntilMinimum(c, s) >= UPDATE_PERIOD
    ensures var r := Step(c, s, TimerExpires);
            Fits(c, r) && MinimumArmed(c, r) && TimeLeft(c, r) == TimeLeft(c, s)
  {
    var s0 := s.(armed := None);
    ShutDoorsRecordNothing(c, AddCompressor(s0));
    hide Balances, PeriodIsCurrent, AddOpenDoors, Sum, TimeBetween, Armed;
  }

  lemma ShutDoorsRecordNothing(c: Settings, s: Readiness)
    requires Fits(c, s) && !AnyOpen(s.open)
    ensures AddOpenDoors(c, s) == s
  {
    var r := AddOpenDoors(c, s);
    assert r.accel == s.accel && r.ledger.openUpdates == s.ledger.openUpdates;
  }

  lemma MinimumEnds(c: Settings, s: Readiness)
    requires Sound(c) && WaitsForMinimum(c, s) && Enabled(s, TimerExpires) && UntilMinimum(c, s) < UPDATE_PERIOD
    ensures var r := Step(c, s, TimerExpires);
            if EndsWithMinimum(c, s) then r.ready && TimeLeft(c, s) == 0
            else WaitsForRemaining(c, r) && TimeLeft(c, r) == TimeLeft(c, s)
  {
    StepKeeps(c, s, TimerExpires);
    StepArms(c, s, TimerExpires);
    var s0 := s.(armed := None);
    ShutDoorsRecordNothing(c, AddCompressor(s0));
    var s2 := ShowCompressor(AddCompressor(s0));
    assert !s.aham ==> s2.comp == Most(s.comp, MinimumSeconds(c));
    ShutDoorsDoNotWeigh(c, s.open, |s.open|);
    if !EndsWithMinimum(c, s) { RemainingAfterMinimum(c, Stop(s2)); }
    hide Balances, PeriodIsCurrent, AddOpenDoors, Armed, ArmRemaining, EnterRemaining;
  }

  lemma RemainingAfterMinimum(c: Settings, s: Readiness)
    requires Fits(c, s) && s.compressorOn && OpenFactorsTo(c, s.open, |s.open|) == 0
    ensures var r := EnterRemaining(c, s);
            r.mode == Remaining && r.ready == s.ready && r.elapsed == 0 && r.compressorOn &&
            UntilReady(c, r) ==
            MSEC_PER_SEC * Less(TimeBetween(c, s.conditions) * SECONDS_PER_MINUTE, s.comp + Sum(s.accel))
  {
    hide Sum;
  }

  lemma LeftComesCloser(c: Settings, s: Readiness, ev: Event)
    requires Sound(c) && WaitsForMinimum(c, s) && Enabled(s, ev) && (ev.Elapse? || ev.TimerExpires?)
    ensures TimeLeft(c, s) >= 0
    ensures var r := Step(c, s, ev);
            if r.ready then ev.TimerExpires? && TimeLeft(c, s) == 0
            else (WaitsForMinimum(c, r) || WaitsForRemaining(c, r)) &&
                 TimeLeft(c, r) + Passed(ev) == TimeLeft(c, s)
  {
    StepKeeps(c, s, ev);
    StepArms(c, s, ev);
    if ev.TimerExpires? {
      if UntilMinimum(c, s) >= UPDATE_PERIOD { MinimumUpdate(c, s); } else { MinimumEnds(c, s); }
      hide Step;
    }
    hide Balances, PeriodIsCurrent, Armed, Sum, TimeBetween;
  }

  lemma {:induction false} WholeWaitIsExact(c: Settings, s: Readiness, evs: seq<Event>)
    requires Sound(c) && WaitsForMinimum(c, s) && Possible(c, s, evs)
    requires forall ev :: ev in evs ==> ev.Elapse? || ev.TimerExpires?
    ensures TimeLeft(c, s) >= 0
    ensures var r := Run(c, s, evs);
            (r.ready ==> TotalPassed(evs) >= TimeLeft(c, s)) && (TotalPassed(evs) > TimeLeft(c, s) ==> r.ready)
    decreases |evs|
  {
    if evs == [] {
      LeftComesCloser(c, s, Elapse(0));
    } else {
      LeftComesCloser(c, s, evs[0]);
      var next := Step(c, s, evs[0]);
      if next.ready {
        ReadyStays(c, s, next, evs[0], evs[1..]);
      } else if WaitsForMinimum(c, next) {
        hide Step, WaitsForMinimum, WaitsForRemaining, TimeLeft;
        WholeWaitIsExact(c, next, evs[1..]);
      } else {
        WaitIsExact(c, next, evs[1..]);
      }
    }
  }

  lemma ReadyStays(c: Settings, s: Readiness, next: Readiness, ev: Event, evs: seq<Event>)
    requires WaitsForMinimum(c, s) && Enabled(s, ev) && next == Step(c, s, ev) && next.ready && ev.TimerExpires?
    requires Possible(c, next, evs) && forall ev :: ev in evs ==> ev.Elapse? || ev.TimerExpires?
    ensures Run(c, next, evs).ready
  {
    MinimumReadies(c, s);
    WaitsReady(c, next, evs);
  }

  lemma MinimumReadies(c: Settings, s: Readiness)
    requires WaitsForMinimum(c, s) && Enabled(s, TimerExpires)
    ensures var r := Step(c, s, TimerExpires); r.ready ==> r.mode == Minimum && r.armed.None?
  {
    ShutDoorsRecordNothing(c, AddCompressor(s.(armed := None)));
    hide Balances, PeriodIsCurrent, Armed, AddOpenDoors, Sum, TimeBetween;
  }

  lemma {:induction false} WaitsReady(c: Settings, s: Readiness, evs: seq<Event>)
    requires Fits(c, s) && s.ready && s.armed.None? && Possible(c, s, evs)
    requires forall ev :: ev in evs ==> ev.Elapse? || ev.TimerExpires?
    ensures Run(c, s, evs).ready
    decreases |evs|
  {
    if evs != [] {
      assert evs[0] in evs && evs[0].Elapse?;
      WaitsReady(c, Step(c, s, evs[0]), evs[1..]);
    }
  }

  /** No defrost was abnormal on a compartment there is, and nothing else is out of order. */
  predicate AllIsNormal(d: Conditions) {
    !d.freshFoodWasAbnormal && !d.freezerWasAbnormal && (d.hasConvertible ==> !d.convertibleWasAbnormal) &&
    !d.invalidThermistor && !d.tooWarm && !d.eepromCleared
  }

  /** The minutes a wait takes while the compressor runs with all doors shut. */
  function DueMinutes(c: Settings, s: Readiness): nat {
    var between := if AllIsNormal(s.conditions) then c.maxMinutes else c.minMinutes;
    if s.aham then c.ahamMinutes
    else if between == c.ahamMinutes then c.minMinutes
    else Most(c.minMinutes, between)
  }

  /** When the compressor runs through a whole wait with all doors shut, readiness is asserted exactly when the
      minimum time has passed, and the time between defrosts for the present conditions if that is longer; but with
      the minimum alone if that time is configured to be the minimum or the AHAM time, and after the AHAM time under
      the override. */
  lemma DefrostIsDueExactly(c: Settings, s: Readiness, evs: seq<Event>)
    requires Sound(c) && Reachable(c, s) && s.mode == ReadyAndDefrosting && s.compressorOn && !AnyOpen(s.open)
    requires Fits(c, s) && Possible(c, Step(c, s, WaitingChanged(true)), evs)
    requires forall ev :: ev in evs ==> ev.Elapse? || ev.TimerExpires?
    ensures var r := Run(c, Step(c, s, WaitingChanged(true)), evs);
            var due := MSEC_PER_MIN * DueMinutes(c, s);
            (r.ready ==> TotalPassed(evs) >= due) && (TotalPassed(evs) > due ==> r.ready)
  {
    ReachableIsArmed(c, s);
    StepKeeps(c, s, WaitingChanged(true));
    StepArms(c, s, WaitingChanged(true));
    StartOfWait(c, s);
    hide Step;
    WholeWaitIsExact(c, Step(c, s, WaitingChanged(true)), evs);
  }

  lemma StartOfWait(c: Settings, s: Readiness)
    requires Inv(c, s) && s.mode == ReadyAndDefrosting && s.compressorOn && !AnyOpen(s.open)
    ensures var r := Step(c, s, WaitingChanged(true));
            Fits(c, r) && MinimumArmed(c, r) && TimeLeft(c, r) == MSEC_PER_MIN * DueMinutes(c, s)
  {
    ZerosSum(|s.accel|, |s.accel|);
    assert ShouldBeMinimum(s.conditions) <==> !AllIsNormal(s.conditions);
    hide Balances, PeriodIsCurrent, ShouldBeMinimum, AllIsNormal;
  }

  /** Asking for the AHAM time starts a wait anew: from any state of waiting, whatever is on record, readiness is
      then asserted exactly when that time has passed. From the minimum state a time of zero takes one update all the
      same. */
  lemma AhamDefrostIsDueExactly(c: Settings, s: Readiness, evs: seq<Event>)
    requires Sound(c) && Reachable(c, s) && Accumulating(s) && !s.aham && s.compressorOn && !AnyOpen(s.open)
    requires Fits(c, s) && Possible(c, Step(c, s, AhamChanged(true)), evs)
    requires forall ev :: ev in evs ==> ev.Elapse? || ev.TimerExpires?
    requires s.mode == Remaining || c.ahamMinutes > 0
    ensures var r := Run(c, Step(c, s, AhamChanged(true)), evs);
            var due := MSEC_PER_MIN * c.ahamMinutes;
            (r.ready ==> TotalPassed(evs) >= due) && (TotalPassed(evs) > due ==> r.ready)
  {
    ReachableIsArmed(c, s);
    StepKeeps(c, s, AhamChanged(true));
    StepArms(c, s, AhamChanged(true));
    StartOfAham(c, s);
    hide Step;
    WholeWaitIsExact(c, Step(c, s, AhamChanged(true)), evs);
  }

  lemma StartOfAham(c: Settings, s: Readiness)
    requires Inv(c, s) && Accumulating(s) && !s.aham && s.compressorOn && !AnyOpen(s.open)
    requires s.mode == Remaining || c.ahamMinutes > 0
    ensures var r := Step(c, s, AhamChanged(true));
            Fits(c, r) && MinimumArmed(c, r) && TimeLeft(c, r) == MSEC_PER_MIN * c.ahamMinutes
  {
    hide Balances, PeriodIsCurrent, ShouldBeMinimum;
  }

  lemma {:induction false} ZerosSum(k: nat, n: nat)
    requires n <= k
    ensures SumTo(Zeros(k), n) == 0
    decreases n
  {
    if n > 0 { ZerosSum(k, n - 1); }
  }
}
