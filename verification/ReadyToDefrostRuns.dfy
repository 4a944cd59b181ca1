/**
 What holds of the readiness decision in every run: recorded time is conserved up to truncation,
 the remaining-time timer has an error bound, and the minimum compressor time is nearly kept.
 */
module ReadyToDefrostRuns {
  import opened Options
  import opened Units
  import opened ReadyToDefrostModel

  // ---------------------------------------------------------------- conservation

  predicate AnythingOn(s: Readiness) { s.compressorOn || AnyOpen(s.open) }

  /** True time minus recorded time, in milliseconds; the ticks of the running period are not recorded yet. */
  function CompressorLag(s: Readiness): int {
    s.ledger.onMs - (if s.compressorOn then s.elapsed else 0) - s.comp * MSEC_PER_SEC
  }

  function DoorLag(c: Settings, s: Readiness, i: nat): int
    requires Fits(c, s) && i < |s.open|
  {
    s.ledger.openMs[i] - (if s.open[i] then s.elapsed * c.factors[i] else 0) - s.accel[i] * MSEC_PER_SEC
  }

  predicate DoorBalances(c: Settings, s: Readiness, i: nat)
    requires Fits(c, s) && i < |s.open|
  {
    0 <= DoorLag(c, s, i) <= 999 * s.ledger.openUpdates[i]
  }

  predicate Balances(c: Settings, s: Readiness)
    requires Fits(c, s)
  {
    0 <= CompressorLag(s) <= 999 * s.ledger.onUpdates &&
    forall i :: 0 <= i < |s.open| ==> DoorBalances(c, s, i)
  }

  predicate Accumulating(s: Readiness) { s.mode != ReadyAndDefrosting && !s.ready }

  predicate TimerRuns(s: Readiness) {
    (AnythingOn(s) ==> s.armed.Some?) &&
    (s.armed.Some? ==> s.elapsed <= s.armed.value.period <= UPDATE_PERIOD && KindFits(s.mode, s.armed.value.kind))
  }

  predicate KindFits(m: Mode, k: Kind) {
    match m
    case ReadyAndDefrosting => false
    case Minimum => k != RemainingTime
    case Remaining => k != MinimumTime
  }

  /** The period of an armed remaining-time timer is the one the present records and inputs ask for. */
  predicate PeriodIsCurrent(c: Settings, s: Readiness)
    requires Fits(c, s)
  {
    s.mode == Remaining && s.armed.Some? && s.armed.value.kind == RemainingTime ==>
      s.armed.value.period == UntilReady(c, s) && (Weight(c, s) == 0 ==> RemainingMs(s) == 0)
  }

  predicate Inv(c: Settings, s: Readiness) {
    Fits(c, s) && (s.mode == ReadyAndDefrosting ==> s.armed.None?) &&
    (Accumulating(s) ==> TimerRuns(s) && Balances(c, s) && PeriodIsCurrent(c, s))
  }

  lemma BalanceFrame(c: Settings, s: Readiness, t: Readiness)
    requires Fits(c, s) && Fits(c, t) && Balances(c, s)
    requires t.compressorOn == s.compressorOn && t.open == s.open && t.elapsed == s.elapsed
    requires t.comp == s.comp && t.accel == s.accel && t.ledger == s.ledger
    ensures Balances(c, t)
  {
    forall i | 0 <= i < |t.open| ensures DoorBalances(c, t, i) {
      assert DoorBalances(c, s, i);
    }
  }

  /** Everything recorded up to now: nothing is in flight. */
  predicate Level(c: Settings, s: Readiness) {
    Fits(c, s) && Balances(c, s.(compressorOn := false, open := seq(|s.open|, i => false)))
  }

  lemma LevelDoor(c: Settings, s: Readiness, i: nat)
    requires Level(c, s) && i < |s.open|
    ensures 0 <= s.ledger.openMs[i] - s.accel[i] * MSEC_PER_SEC <= 999 * s.ledger.openUpdates[i]
  {
    assert DoorBalances(c, s.(compressorOn := false, open := seq(|s.open|, i => false)), i);
  }

  lemma MakeLevel(c: Settings, s: Readiness)
    requires Fits(c, s) && 0 <= s.ledger.onMs - s.comp * MSEC_PER_SEC <= 999 * s.ledger.onUpdates
    requires forall i :: 0 <= i < |s.open| ==>
               0 <= s.ledger.openMs[i] - s.accel[i] * MSEC_PER_SEC <= 999 * s.ledger.openUpdates[i]
    ensures Level(c, s)
  {
    var t := s.(compressorOn := false, open := seq(|s.open|, i => false));
    forall i | 0 <= i < |t.open| ensures DoorBalances(c, t, i) {
      assert s.accel[i] * MSEC_PER_SEC == t.accel[i] * MSEC_PER_SEC;
      assert 0 <= s.ledger.openMs[i] - s.accel[i] * MSEC_PER_SEC;
    }
  }

  /** Adding the running period to every record that was on during it leaves nothing in flight. */
  lemma RecordingLevels(c: Settings, s: Readiness, wasOn: bool, wasOpen: seq<bool>)
    requires Fits(c, s) && |wasOpen| == |s.open| && Balances(c, s.(compressorOn := wasOn, open := wasOpen))
    ensures Level(c, AddDoors(c, if wasOn then AddCompressor(s) else s, wasOpen))
  {
    var was := s.(compressorOn := wasOn, open := wasOpen);
    var r := AddDoors(c, if wasOn then AddCompressor(s) else s, wasOpen);
    forall i | 0 <= i < |r.open|
      ensures 0 <= r.ledger.openMs[i] - r.accel[i] * MSEC_PER_SEC <= 999 * r.ledger.openUpdates[i]
    {
      assert DoorBalances(c, was, i);
      var ms := s.elapsed * c.factors[i];
      assert 0 <= ms - Gain(c, s.elapsed, i) * MSEC_PER_SEC <= 999;
    }
    MakeLevel(c, r);
  }

  /** A levelled state whose timer has just been started, or with nothing on, is balanced. */
  lemma LevelBalances(c: Settings, s: Readiness)
    requires Level(c, s) && (s.elapsed == 0 || !AnythingOn(s))
    ensures Balances(c, s)
  {
    forall i | 0 <= i < |s.open| ensures DoorBalances(c, s, i) {
      LevelDoor(c, s, i);
      assert s.open[i] ==> AnyOpen(s.open);
    }
  }

  lemma LevelFrame(c: Settings, s: Readiness, t: Readiness)
    requires Level(c, s) && |t.open| == |s.open| && t.comp == s.comp && t.accel == s.accel && t.ledger == s.ledger
    ensures Level(c, t)
  {
    forall i | 0 <= i < |t.open|
      ensures 0 <= t.ledger.openMs[i] - t.accel[i] * MSEC_PER_SEC <= 999 * t.ledger.openUpdates[i]
    {
      LevelDoor(c, s, i);
    }
    MakeLevel(c, t);
  }

  lemma ResetLevels(c: Settings, s: Readiness)
    requires Fits(c, s)
    ensures Level(c, Reset(s))
  {
    MakeLevel(c, Reset(s));
  }

  // ---------------------------------------------------------------- arming

  lemma ArmMinimumKeeps(c: Settings, s: Readiness)
    requires Level(c, s) && s.mode == Minimum && (s.armed.Some? && !AnythingOn(s) ==> TimerRuns(s))
    ensures Inv(c, ArmMinimum(c, s))
  {
    var r := ArmMinimum(c, s);
    LevelFrame(c, s, r);
    LevelBalances(c, r);
  }

  lemma ArmRemainingKeeps(c: Settings, s: Readiness)
    requires Sound(c) && Level(c, s) && s.mode == Remaining
    ensures Inv(c, ArmRemaining(c, s))
  {
    var r := ArmRemaining(c, s);
    LevelFrame(c, s, r);
    LevelBalances(c, r);
    if AnythingOn(s) { SomethingWeighs(c, s); }
    assert Total(r) == Total(s) && Weight(c, r) == Weight(c, s);
  }

  lemma OpenDoorWeighs(c: Settings, open: seq<bool>, i: nat, n: nat)
    requires Sound(c) && i < n <= |open| == |c.factors| && open[i]
    ensures OpenFactorsTo(c, open, n) > 0
  {
    if i < n - 1 { OpenDoorWeighs(c, open, i, n - 1); }
  }

  lemma SomethingWeighs(c: Settings, s: Readiness)
    requires Sound(c) && Fits(c, s) && AnythingOn(s)
    ensures Weight(c, s) > 0
  {
    if AnyOpen(s.open) {
      var i :| 0 <= i < |s.open| && s.open[i];
      OpenDoorWeighs(c, s.open, i, |s.open|);
    }
  }

  lemma EnterRemainingKeeps(c: Settings, s: Readiness)
    requires Sound(c) && Level(c, s) && !s.ready
    ensures Inv(c, EnterRemaining(c, s))
  {
    var s1 := ShowTotal(s.(mode := Remaining, timeBetween := TimeBetween(c, s.conditions)));
    LevelFrame(c, s, s1);
    if IsReady(c, s1) {
      var r := Start(s1, RemainingTime, 0);
      LevelFrame(c, s, r);
      LevelBalances(c, r);
      assert Total(r) == Total(s1);
      assert RemainingMs(r) == 0;
      assert UntilReady(c, r) == 0;
    } else {
      ArmRemainingKeeps(c, s1);
    }
  }

  lemma EnterMinimumKeeps(c: Settings, s: Readiness)
    requires Level(c, s) && s.armed.None?
    ensures Inv(c, EnterMinimum(c, s))
  {
    var s1 := ShowCompressor(s.(mode := Minimum, ready := false)).(
                timeBetween := if s.aham then c.ahamMinutes else TimeBetween(c, s.conditions));
    LevelFrame(c, s, s1);
    ArmMinimumKeeps(c, s1);
  }

  // ---------------------------------------------------------------- every event

  lemma CompressorKeeps(c: Settings, s: Readiness, on: bool)
    requires Sound(c) && Inv(c, s) && on != s.compressorOn
    ensures Inv(c, CompressorEvent(c, s.(compressorOn := on)))
  {
    var s0 := s.(compressorOn := on);
    if Accumulating(s) {
      RecordingLevels(c, s0, s.compressorOn, s.open);
      var s1 := AddOpenDoors(c, if on then s0 else AddCompressor(s0));
      if s.mode == Minimum {
        var s2 := AddOpenDoors(c, if on then s0 else ShowCompressor(AddCompressor(s0)));
        LevelFrame(c, s1, s2);
        ArmMinimumKeeps(c, s2);
      } else {
        LevelFrame(c, s1, ShowTotal(s1));
        ArmRemainingKeeps(c, ShowTotal(s1));
      }
    }
  }

  lemma DoorKeeps(c: Settings, s: Readiness, i: nat)
    requires Sound(c) && Inv(c, s) && i < |s.open|
    ensures Inv(c, DoorEvent(c, s.(open := s.open[i := !s.open[i]]), i))
  {
    var s0 := s.(open := s.open[i := !s.open[i]]);
    assert s0.open[i := !s0.open[i]] == s.open;
    hide ArmMinimum, ArmRemaining, Balances, PeriodIsCurrent, UntilMinimum;
    if Accumulating(s) {
      BalanceFrame(c, s, s0.(compressorOn := s.compressorOn, open := s.open));
      RecordingLevels(c, s0, s.compressorOn, s.open);
      var s1 := AddCompressorIfOn(AddDoors(c, s0, s.open));
      assert s1 == AddDoors(c, if s.compressorOn then AddCompressor(s0) else s0, s.open);
      if s.mode == Minimum {
        LevelFrame(c, s1, ShowCompressorIfOn(s1));
        ArmMinimumKeeps(c, ShowCompressorIfOn(s1));
      } else {
        LevelFrame(c, s1, ShowTotal(s1));
        ArmRemainingKeeps(c, ShowTotal(s1));
      }
    }
  }

  lemma AhamKeeps(c: Settings, s: Readiness)
    requires Inv(c, s) && !s.aham
    ensures Inv(c, AhamEvent(c, s.(aham := true)))
  {
    var s0 := s.(aham := true);
    ResetLevels(c, s0);
    if s.mode == Minimum {
      var s1 := Reset(s0).(waitingTime := 0, timeBetween := c.ahamMinutes);
      var r := AhamEvent(c, s0);
      LevelFrame(c, Reset(s0), r);
      LevelBalances(c, r);
    } else if s.mode == Remaining {
      var s1 := Stop(Reset(s0).(waitingTime := 0));
      LevelFrame(c, Reset(s0), s1);
      EnterMinimumKeeps(c, s1);
    }
  }

  lemma WaitingKeeps(c: Settings, s: Readiness, waiting: bool)
    requires Inv(c, s)
    ensures Inv(c, WaitingEvent(c, s, waiting))
  {
    if waiting && s.mode == ReadyAndDefrosting {
      ResetLevels(c, s);
      EnterMinimumKeeps(c, Reset(s));
    }
  }

  lemma ExpiryKeeps(c: Settings, s: Readiness)
    requires Sound(c) && Inv(c, s) && Enabled(s, TimerExpires)
    ensures Inv(c, Step(c, s, TimerExpires))
  {
    hide ArmMinimum, ArmRemaining, EnterRemaining, Balances, PeriodIsCurrent, UntilMinimum;
    var s0 := s.(armed := None);
    if Accumulating(s) {
      BalanceFrame(c, s, s0.(compressorOn := s.compressorOn, open := s.open));
      RecordingLevels(c, s0, s.compressorOn, s.open);
      var s1 := AddOpenDoors(c, AddCompressorIfOn(s0));
      match (s.mode, s.armed.value.kind)
      case (Minimum, Update) =>
        LevelFrame(c, s1, ShowCompressorIfOn(s1));
        ArmMinimumKeeps(c, ShowCompressorIfOn(s1));
      case (Minimum, MinimumTime) =>
        var s2 := ShowCompressorIfOn(s1);
        LevelFrame(c, s1, s2);
        if !EndsWithMinimum(c, s2) {
          LevelFrame(c, s2, Stop(s2));
          EnterRemainingKeeps(c, Stop(s2));
        }
      case (Remaining, Update) =>
        LevelFrame(c, s1, ShowTotal(s1));
        ArmRemainingKeeps(c, ShowTotal(s1));
      case _ =>
    } else {
      StaysReady(c, s0, s.armed.value.kind);
    }
  }

  lemma StaysReady(c: Settings, s: Readiness, k: Kind)
    requires Fits(c, s) && s.ready && s.mode != ReadyAndDefrosting
    ensures ExpiryEvent(c, s, k).ready && ExpiryEvent(c, s, k).mode != ReadyAndDefrosting
  {}

  lemma ElapseKeeps(c: Settings, s: Readiness, ms: nat)
    requires Inv(c, s) && Enabled(s, Elapse(ms))
    ensures Inv(c, PassTime(c, s, ms))
  {
    var r := PassTime(c, s, ms);
    if Accumulating(s) {
      forall i | 0 <= i < |r.open| ensures DoorBalances(c, r, i) {
        assert DoorBalances(c, s, i);
        assert (s.elapsed + ms) * c.factors[i] == s.elapsed * c.factors[i] + ms * c.factors[i];
      }
      assert Total(r) == Total(s) && Weight(c, r) == Weight(c, s);
    }
  }

  lemma StepKeeps(c: Settings, s: Readiness, ev: Event)
    requires Sound(c) && Inv(c, s) && Enabled(s, ev)
    ensures Inv(c, Step(c, s, ev))
  {
    hide CompressorEvent, DoorEvent, AhamEvent, ExpiryEvent, WaitingEvent, PassTime, TimerRuns, Balances,
        PeriodIsCurrent;
    match ev
    case CompressorChanged(on) => CompressorKeeps(c, s, on);
    case DoorChanged(i, isOpen) => DoorKeeps(c, s, i);
    case AhamChanged(use) => if use { AhamKeeps(c, s); } else { InvFrame(c, s, s.(aham := false)); }
    case WaitingChanged(waiting) => WaitingKeeps(c, s, waiting);
    case ConditionsChanged(conditions) => InvFrame(c, s, s.(conditions := conditions));
    case Elapse(ms) => ElapseKeeps(c, s, ms);
    case TimerExpires => ExpiryKeeps(c, s);
  }

  lemma InvFrame(c: Settings, s: Readiness, t: Readiness)
    requires Inv(c, s) && t == s.(aham := t.aham, conditions := t.conditions)
    ensures Inv(c, t)
  {
    if Accumulating(s) { BalanceFrame(c, s, t); }
    assert Total(t) == Total(s) && Weight(c, t) == Weight(c, s);
  }

  lemma PowerUpEstablishes(c: Settings, f: Found)
    requires Sound(c) && Startable(c, f)
    ensures Inv(c, PowerUp(c, f))
  {
    MakeLevel(c, Restored(f));
    ResetLevels(c, Restored(f));
    var s := if f.conditions.tooWarm then Reset(Restored(f)) else Restored(f);
    if f.waiting {
      if s.comp < c.minMinutes * SECONDS_PER_MINUTE { EnterMinimumKeeps(c, s); } else { EnterRemainingKeeps(c, s); }
    }
  }

  // ---------------------------------------------------------------- runs

  function Run(c: Settings, s: Readiness, evs: seq<Event>): Readiness
    requires Fits(c, s) && Possible(c, s, evs)
    decreases |evs|
  {
    if evs == [] then s
    else Run(c, Step(c, s, evs[0]), evs[1..])
  }

  predicate Possible(c: Settings, s: Readiness, evs: seq<Event>)
    requires Fits(c, s)
    decreases |evs|
  {
    evs != [] ==> Enabled(s, evs[0]) && Possible(c, Step(c, s, evs[0]), evs[1..])
  }

  lemma {:induction false} RunKeeps(c: Settings, s: Readiness, evs: seq<Event>)
    requires Sound(c) && Inv(c, s) && Possible(c, s, evs)
    ensures Inv(c, Run(c, s, evs))
    decreases |evs|
  {
    if evs != [] {
      StepKeeps(c, s, evs[0]);
      RunKeeps(c, Step(c, s, evs[0]), evs[1..]);
    }
  }

  /** What a run can reach from start-up, whatever records start-up finds. */
  ghost predicate Reachable(c: Settings, s: Readiness) {
    exists f: Found, evs: seq<Event> ::
      Startable(c, f) && Possible(c, PowerUp(c, f), evs) && s == Run(c, PowerUp(c, f), evs)
  }

  lemma ReachableInv(c: Settings, s: Readiness)
    requires Sound(c) && Reachable(c, s)
    ensures Inv(c, s)
  {
    var f: Found, evs: seq<Event> :|
      Startable(c, f) && Possible(c, PowerUp(c, f), evs) && s == Run(c, PowerUp(c, f), evs);
    PowerUpEstablishes(c, f);
    RunKeeps(c, PowerUp(c, f), evs);
  }

  // ---------------------------------------------------------------- conserved time

  /** Until readiness is asserted, what is recorded never exceeds the true time since the last reset, and lags it
      by less than a second for every addition made to that record, plus the running period. */
  lemma TimeIsConserved(c: Settings, s: Readiness)
    requires Sound(c) && Reachable(c, s) && Accumulating(s)
    ensures 0 <= s.ledger.onMs - s.comp * MSEC_PER_SEC - (if s.compressorOn then s.elapsed else 0)
              <= 999 * s.ledger.onUpdates
    ensures Fits(c, s)
    ensures forall i :: 0 <= i < |c.factors| ==>
              0 <= s.ledger.openMs[i] - s.accel[i] * MSEC_PER_SEC - (if s.open[i] then s.elapsed * c.factors[i] else 0)
                <= 999 * s.ledger.openUpdates[i]
    ensures AnythingOn(s) ==> s.elapsed <= UPDATE_PERIOD
  {
    ReachableInv(c, s);
    forall i | 0 <= i < |c.factors|
      ensures 0 <= s.ledger.openMs[i] - s.accel[i] * MSEC_PER_SEC - (if s.open[i] then s.elapsed * c.factors[i] else 0)
                <= 999 * s.ledger.openUpdates[i]
    {
      assert DoorBalances(c, s, i);
    }
  }

  /** The product that an addition to an open door computes in 32 bits is always the true product. */
  lemma ProductFits32Bits(c: Settings, s: Readiness, i: nat)
    requires Sound(c) && Reachable(c, s) && Accumulating(s)
    requires i < |s.open| && s.open[i]
    ensures i < |c.factors| && s.elapsed * c.factors[i] < 0x1_0000_0000
  {
    ReachableInv(c, s);
    assert AnyOpen(s.open);
    assert s.elapsed <= 60_000 && c.factors[i] <= 65_535;
    ProductBound(s.elapsed, 60_000, c.factors[i], 65_535);
  }

  const MOST_SECONDS := 65_535 * SECONDS_PER_MINUTE

  /** In the minimum state the recorded time, and what it grows by until the timer expires, stay below the greatest
      minimum that can be configured. */
  predicate LeavesRoom(s: Readiness) {
    Accumulating(s) && s.mode == Minimum ==>
      s.comp <= MOST_SECONDS &&
      (s.compressorOn && s.armed.Some? ==>
         s.comp * MSEC_PER_SEC + s.armed.value.period <= MOST_SECONDS * MSEC_PER_SEC)
  }

  lemma ArmMinimumLeavesRoom(c: Settings, s: Readiness)
    requires s.comp <= MOST_SECONDS
    ensures LeavesRoom(ArmMinimum(c, s))
  {}

  lemma ArmRemainingIsRemaining(c: Settings, s: Readiness)
    requires Fits(c, s)
    ensures ArmRemaining(c, s).mode == s.mode && EnterRemaining(c, s).mode == Remaining
  {
    hide Sum, UntilReady, IsReady;
  }

  lemma InputLeavesRoom(c: Settings, s: Readiness, ev: Event)
    requires Inv(c, s) && LeavesRoom(s) && Enabled(s, ev) && (ev.CompressorChanged? || ev.DoorChanged?)
    ensures LeavesRoom(Step(c, s, ev))
  {
    hide ArmMinimum, ArmRemaining, Balances, PeriodIsCurrent;
    var s2 := if ev.CompressorChanged?
              then var s0 := s.(compressorOn := ev.on);
                   var s1 := if ev.on then s0 else AddCompressor(s0);
                   AddOpenDoors(c, if ev.on || s.mode == Remaining then s1 else ShowCompressor(s1))
              else var s0 := s.(open := s.open[ev.door := ev.isOpen]);
                   var s1 := AddCompressorIfOn(AddDoors(c, s0, s0.open[ev.door := !s0.open[ev.door]]));
                   if s.mode == Minimum then ShowCompressorIfOn(s1) else s1;
    if s.mode == Minimum {
      ArmMinimumReadies(c, s2);
      if Accumulating(s) { ArmMinimumLeavesRoom(c, s2); }
    } else if s.mode == Remaining {
      ArmRemainingIsRemaining(c, ShowTotal(s2));
    }
  }

  lemma ArmMinimumReadies(c: Settings, s: Readiness)
    ensures ArmMinimum(c, s).ready == s.ready
  {}

  lemma ExpiryLeavesRoom(c: Settings, s: Readiness)
    requires Inv(c, s) && LeavesRoom(s) && Enabled(s, TimerExpires)
    ensures LeavesRoom(Step(c, s, TimerExpires))
  {
    hide ArmMinimum, ArmRemaining, EnterRemaining, Balances, PeriodIsCurrent;
    var s1 := AddOpenDoors(c, AddCompressorIfOn(s.(armed := None)));
    if s.mode == Minimum {
      ArmMinimumReadies(c, ShowCompressorIfOn(s1));
      if Accumulating(s) { ArmMinimumLeavesRoom(c, ShowCompressorIfOn(s1)); }
      ArmRemainingIsRemaining(c, Stop(ShowCompressorIfOn(s1)));
    } else {
      ArmRemainingIsRemaining(c, ShowTotal(s1));
    }
  }

  lemma StepLeavesRoom(c: Settings, s: Readiness, ev: Event)
    requires Inv(c, s) && LeavesRoom(s) && Enabled(s, ev)
    ensures LeavesRoom(Step(c, s, ev))
  {
    hide CompressorEvent, DoorEvent, ExpiryEvent, ArmRemaining, Balances, PeriodIsCurrent;
    if ev.CompressorChanged? || ev.DoorChanged? {
      InputLeavesRoom(c, s, ev);
    } else if ev.TimerExpires? {
      ExpiryLeavesRoom(c, s);
    }
  }

  lemma {:induction false} RunLeavesRoom(c: Settings, s: Readiness, evs: seq<Event>)
    requires Sound(c) && Inv(c, s) && LeavesRoom(s) && Possible(c, s, evs)
    ensures LeavesRoom(Run(c, s, evs))
    decreases |evs|
  {
    if evs != [] {
      StepKeeps(c, s, evs[0]);
      StepLeavesRoom(c, s, evs[0]);
      RunLeavesRoom(c, Step(c, s, evs[0]), evs[1..]);
    }
  }

  lemma PowerUpLeavesRoom(c: Settings, f: Found)
    requires Startable(c, f)
    ensures LeavesRoom(PowerUp(c, f))
  {
    var s := if f.conditions.tooWarm then Reset(Restored(f)) else Restored(f);
    ArmRemainingIsRemaining(c, s);
    hide ArmMinimum, EnterRemaining;
    if s.comp < c.minMinutes * SECONDS_PER_MINUTE {
      ArmMinimumLeavesRoom(c, ShowCompressor(s.(mode := Minimum, ready := false)).(
                              timeBetween := if s.aham then c.ahamMinutes else TimeBetween(c, s.conditions)));
    }
  }

  /** So do the other products: the recorded compressor time and the minimum in milliseconds, as the minimum state
      subtracts them, and the remaining time in milliseconds. */
  lemma MillisecondsFit32Bits(c: Settings, s: Readiness)
    requires Sound(c) && Reachable(c, s) && Accumulating(s)
    ensures s.mode == Minimum ==>
              (s.comp + if s.compressorOn then s.elapsed / MSEC_PER_SEC else 0) * MSEC_PER_SEC < 0x1_0000_0000
    ensures MinimumMinutes(c, s) * MSEC_PER_MIN < 0x1_0000_0000 && RemainingMs(s) < 0x1_0000_0000
  {
    var f: Found, evs: seq<Event> :|
      Startable(c, f) && Possible(c, PowerUp(c, f), evs) && s == Run(c, PowerUp(c, f), evs);
    PowerUpEstablishes(c, f);
    PowerUpLeavesRoom(c, f);
    RunKeeps(c, PowerUp(c, f), evs);
    RunLeavesRoom(c, PowerUp(c, f), evs);
    hide Balances, PeriodIsCurrent, Run, Possible, PowerUp;
  }

  lemma ProductBound(a: nat, a1: nat, b: nat, b1: nat)
    requires a <= a1 && b <= b1
    ensures a * b <= a1 * b1
  {
    assert a * b <= a1 * b by { assert (a1 - a) * b >= 0; }
    assert a1 * b <= a1 * b1 by { assert a1 * (b1 - b) >= 0; }
  }

  // ---------------------------------------------------------------- the remaining time

  function CountOn(s: Readiness): nat { (if s.compressorOn then 1 else 0) + OpenCountTo(s.open, |s.open|) }

  lemma Distributes(t: nat, f: nat, g: nat)
    ensures t * (f + g) == t * f + t * g
  {}

  /** One more record, of q thousandths, loses less than one more second. */
  lemma OneMoreRecord(p: int, q: nat, recorded: int, k: nat)
    requires 0 <= p - MSEC_PER_SEC * recorded <= 999 * k
    ensures 0 <= (p + q) - MSEC_PER_SEC * (recorded + q / MSEC_PER_SEC) <= 999 * (k + 1)
  {}

  /** Adding some ticks to the first n doors, where open, records the ticks times their weight, less a part of a second
      for each door. */
  lemma {:induction false} DoorsGain(c: Settings, accel: seq<nat>, gained: seq<nat>, open: seq<bool>, ticks: nat,
      n: nat)
    requires n <= |open| == |accel| == |gained| == |c.factors|
    requires forall i :: 0 <= i < |open| ==> gained[i] == accel[i] + if open[i] then Gain(c, ticks, i) else 0
    ensures SumTo(gained, n) >= SumTo(accel, n)
    ensures 0 <= ticks * OpenFactorsTo(c, open, n) - MSEC_PER_SEC * (SumTo(gained, n) - SumTo(accel, n))
            <= 999 * OpenCountTo(open, n)
    decreases n
  {
    if n == 0 {
      assert ticks * 0 == 0;
    } else {
      DoorsGain(c, accel, gained, open, ticks, n - 1);
      if open[n - 1] {
        var f, g := OpenFactorsTo(c, open, n - 1), c.factors[n - 1];
        Distributes(ticks, f, g);
        OneMoreRecord(ticks * f, ticks * g, SumTo(gained, n - 1) - SumTo(accel, n - 1), OpenCountTo(open, n - 1));
      }
    }
  }

  lemma DivisionBounds(r: nat, w: nat)
    requires w > 0
    ensures r - w < r / w * w <= r
  {
    assert r == r / w * w + r % w;
  }

  /** At expiry the total has not passed the threshold from below, and falls short by less than one second for each
      thing that is on and one more, plus a millisecond for each unit of weight. */
  lemma RemainingTimeErrorBound(c: Settings, s: Readiness)
    requires Sound(c) && Reachable(c, s) && Accumulating(s) && Enabled(s, TimerExpires)
    requires s.mode == Remaining && s.armed.value.kind == RemainingTime
    ensures Fits(c, s)
    ensures var r := Step(c, s, TimerExpires);
            r.ready && r.timeBetween == s.timeBetween &&
            (Total(s) < Threshold(s) ==>
               Total(r) <= Threshold(r) &&
               MSEC_PER_SEC * (Threshold(r) - Total(r)) < Weight(c, s) + 999 * CountOn(s)) &&
            (Total(s) >= Threshold(s) ==> Total(r) == Total(s))
  {
    ReachableInv(c, s);
    var r := Step(c, s, TimerExpires);
    RecordedAtExpiry(c, s);
    hide Step, Total;
    if Total(s) < Threshold(s) {
      DivisionBounds(RemainingMs(s), Weight(c, s));
    } else {
      assert s.elapsed == 0;
    }
  }

  /** What is recorded when everything that is on is added to, against the weighted time that passed. */
  lemma RecordingLoses(c: Settings, s: Readiness)
    requires Fits(c, s)
    ensures var r := AddOpenDoors(c, AddCompressorIfOn(s));
            Total(r) >= Total(s) &&
            0 <= s.elapsed * Weight(c, s) - MSEC_PER_SEC * (Total(r) - Total(s)) <= 999 * CountOn(s)
  {
    var r := AddOpenDoors(c, AddCompressorIfOn(s));
    assert r.comp == s.comp + if s.compressorOn then s.elapsed / MSEC_PER_SEC else 0;
    var n := |s.open|;
    DoorsGain(c, s.accel, r.accel, s.open, s.elapsed, n);
    hide SumTo, OpenFactorsTo, OpenCountTo, AddDoors, AddOpenDoors, AddCompressorIfOn, AddCompressor;
    var f, k, recorded := OpenFactorsTo(c, s.open, n), OpenCountTo(s.open, n), SumTo(r.accel, n) - SumTo(s.accel, n);
    if s.compressorOn {
      Distributes(s.elapsed, 1, f);
      assert s.elapsed * 1 == s.elapsed;
      OneMoreRecord(s.elapsed * f, s.elapsed, recorded, k);
    }
  }

  /** What the remaining-time timer records when it expires. */
  lemma RecordedAtExpiry(c: Settings, s: Readiness)
    requires Fits(c, s) && s.mode == Remaining && s.armed.Some? && s.armed.value.kind == RemainingTime
    requires Enabled(s, TimerExpires)
    ensures var r := Step(c, s, TimerExpires);
            r.ready && r.timeBetween == s.timeBetween && Total(r) >= Total(s) &&
            0 <= s.elapsed * Weight(c, s) - MSEC_PER_SEC * (Total(r) - Total(s)) <= 999 * CountOn(s)
  {
    var s0 := s.(armed := None);
    var s2 := AddOpenDoors(c, AddCompressorIfOn(s0));
    assert Step(c, s, TimerExpires) == ShowTotal(s2).(ready := true);
    RecordingLoses(c, s0);
    assert Total(s0) == Total(s) && Weight(c, s0) == Weight(c, s) && CountOn(s0) == CountOn(s);
    hide Step, AddOpenDoors, AddCompressorIfOn, Weight, CountOn;
  }

  // ---------------------------------------------------------------- what the conditions decide

  predicate UsesAham(ev: Event) { ev.AhamChanged? && ev.use }

  /** In the minimum state the time between defrosts stays what it was on entry, and alone decides where the wait
      goes. */
  lemma WaitingForMinimumStep(c: Settings, s: Readiness, ev: Event)
    requires Fits(c, s) && Enabled(s, ev) && s.mode == Minimum && !UsesAham(ev) && !ev.WaitingChanged?
    ensures var r := Step(c, s, ev);
            if r.mode == Minimum then
              r.timeBetween == s.timeBetween && (r.ready && !s.ready ==> EndsWithMinimum(c, s))
            else
              r.mode == Remaining && !EndsWithMinimum(c, s)
  {
    hide ExpiryEvent, AhamEvent, Sum, UntilMinimum, UntilReady, Total;
    if ev.TimerExpires? { MinimumExpiry(c, s.(armed := None), s.armed.value.kind); }
  }

  lemma MinimumExpiry(c: Settings, s: Readiness, k: Kind)
    requires Fits(c, s) && s.mode == Minimum
    ensures var r := ExpiryEvent(c, s, k);
            if r.mode == Minimum then
              r.timeBetween == s.timeBetween && (r.ready && !s.ready ==> EndsWithMinimum(c, s))
            else
              r.mode == Remaining && !EndsWithMinimum(c, s)
  {
    hide Sum, UntilMinimum, UntilReady, IsReady, Total;
  }

  /** As long as nothing but the inputs, the conditions and time change. */
  predicate Undisturbed(evs: seq<Event>) { forall e :: e in evs ==> !UsesAham(e) && !e.WaitingChanged? }

  lemma {:induction false} WaitingForMinimumRun(c: Settings, s: Readiness, evs: seq<Event>)
    requires Fits(c, s) && Possible(c, s, evs) && Undisturbed(evs) && s.mode == Minimum
    ensures var r := Run(c, s, evs);
            (EndsWithMinimum(c, s) ==> r.mode == Minimum && r.timeBetween == s.timeBetween) &&
            (!EndsWithMinimum(c, s) && !s.ready ==> r.mode != Minimum || !r.ready)
    decreases |evs|
  {
    if evs != [] {
      WaitingForMinimumStep(c, s, evs[0]);
      var s1 := Step(c, s, evs[0]);
      if s1.mode == Minimum {
        WaitingForMinimumRun(c, s1, evs[1..]);
      } else {
        NeverBack(c, s1, evs[1..]);
      }
    }
  }

  lemma RemainingStays(c: Settings, s: Readiness, ev: Event)
    requires Fits(c, s) && Enabled(s, ev) && s.mode == Remaining && !UsesAham(ev) && !ev.WaitingChanged?
    ensures Step(c, s, ev).mode == Remaining
  {
    hide Sum, OpenFactorsTo, UntilReady, Total;
  }

  lemma {:induction false} NeverBack(c: Settings, s: Readiness, evs: seq<Event>)
    requires Fits(c, s) && Possible(c, s, evs) && Undisturbed(evs) && s.mode == Remaining
    ensures Run(c, s, evs).mode == Remaining
    decreases |evs|
  {
    if evs != [] {
      RemainingStays(c, s, evs[0]);
      NeverBack(c, Step(c, s, evs[0]), evs[1..]);
    }
  }

  /** A wait that begins under an abnormal condition is over with the minimum compressor time: it never gets to the
      remaining-time state. One that begins under none is never over with it, unless the times are configured alike. */
  lemma AbnormalWaitEndsWithMinimum(c: Settings, s: Readiness, evs: seq<Event>)
    requires Fits(c, s) && s.mode == ReadyAndDefrosting && !s.aham
    requires Possible(c, Step(c, s, WaitingChanged(true)), evs) && Undisturbed(evs)
    ensures var r := Run(c, Step(c, s, WaitingChanged(true)), evs);
            (ShouldBeMinimum(s.conditions) ==> r.mode == Minimum && r.timeBetween == c.minMinutes) &&
            (!ShouldBeMinimum(s.conditions) && c.maxMinutes != c.minMinutes && c.maxMinutes != c.ahamMinutes ==>
               r.mode != Minimum || !r.ready)
  {
    WaitingForMinimumRun(c, Step(c, s, WaitingChanged(true)), evs);
  }

  // ---------------------------------------------------------------- the minimum compressor time

  ghost predicate ReachableWithoutAham(c: Settings, s: Readiness) {
    exists f: Found, evs: seq<Event> ::
      Startable(c, f) && !f.aham && (forall e :: e in evs ==> !UsesAham(e)) &&
      Possible(c, PowerUp(c, f), evs) && s == Run(c, PowerUp(c, f), evs)
  }

  function MinimumSeconds(c: Settings): nat { c.minMinutes * SECONDS_PER_MINUTE }

  /** The minimum timer is armed within a minute of the goal, and for all that is missing while the compressor runs. */
  predicate MinimumInv(c: Settings, s: Readiness) {
    !s.aham &&
    (Accumulating(s) ==>
       (s.mode == Minimum && s.armed.Some? && s.armed.value.kind == MinimumTime ==>
          s.comp + SECONDS_PER_MINUTE > MinimumSeconds(c) &&
          (s.compressorOn ==> s.armed.value.period == UntilMinimum(c, s))) &&
       (s.mode == Remaining ==> s.comp + SECONDS_PER_MINUTE > MinimumSeconds(c)))
  }

  /** s2 is what an event has made of s before the timer is armed again. */
  predicate Grown(c: Settings, s: Readiness, s2: Readiness) {
    Fits(c, s2) && s2.mode == s.mode && s2.ready == s.ready && s2.aham == s.aham && s2.comp >= s.comp &&
    (s2.armed == s.armed || s2.armed == None)
  }

  lemma ArmMinimumTimes(c: Settings, s: Readiness, s2: Readiness)
    requires Fits(c, s) && MinimumInv(c, s) && Grown(c, s, s2) && s.mode == Minimum
    ensures MinimumInv(c, ArmMinimum(c, s2)) && ArmMinimum(c, s2).mode == Minimum && ArmMinimum(c, s2).ready == s.ready
  {}

  lemma ArmRemainingTimes(c: Settings, s: Readiness)
    requires Fits(c, s) && !s.aham && s.mode == Remaining
    requires !s.ready ==> s.comp + SECONDS_PER_MINUTE > MinimumSeconds(c)
    ensures var r := ArmRemaining(c, s);
            MinimumInv(c, r) && r.mode == Remaining && r.ready == s.ready && r.comp == s.comp
  {}

  lemma EnteringTimes(c: Settings, s: Readiness)
    requires Fits(c, s) && !s.aham && s.armed.None?
    ensures MinimumInv(c, EnterMinimum(c, s))
    ensures s.comp + SECONDS_PER_MINUTE > MinimumSeconds(c) ==> MinimumInv(c, EnterRemaining(c, s))
    ensures s.ready ==> MinimumInv(c, EnterRemaining(c, s))
    ensures var r := EnterRemaining(c, s); r.mode == Remaining && r.ready == s.ready && r.comp == s.comp
  {
    var s1 := ShowTotal(s.(mode := Remaining, timeBetween := TimeBetween(c, s.conditions)));
    if !s.ready ==> s.comp + SECONDS_PER_MINUTE > MinimumSeconds(c) { ArmRemainingTimes(c, s1); }
  }

  lemma InputStepKeepsMinimum(c: Settings, s: Readiness, ev: Event)
    requires Fits(c, s) && MinimumInv(c, s) && Enabled(s, ev) && (ev.CompressorChanged? || ev.DoorChanged?)
    ensures var r := Step(c, s, ev); MinimumInv(c, r) && r.mode == s.mode && r.ready == s.ready
  {
    hide ArmMinimum, ArmRemaining;
    var s2 := if ev.CompressorChanged?
              then var s0 := s.(compressorOn := ev.on);
                   var s1 := if ev.on then s0 else AddCompressor(s0);
                   AddOpenDoors(c, if ev.on || s.mode == Remaining then s1 else ShowCompressor(s1))
              else var s0 := s.(open := s.open[ev.door := ev.isOpen]);
                   var s1 := AddCompressorIfOn(AddDoors(c, s0, s0.open[ev.door := !s0.open[ev.door]]));
                   if s.mode == Minimum then ShowCompressorIfOn(s1) else s1;
    assert Grown(c, s, s2);
    if s.mode == Minimum {
      ArmMinimumTimes(c, s, s2);
    } else if s.mode == Remaining {
      ArmRemainingTimes(c, ShowTotal(s2));
    }
  }

  /** The timer's expiry, and the one way a state short of readiness gets to the remaining time or to readiness. */
  lemma ExpiryKeepsMinimum(c: Settings, s: Readiness)
    requires Inv(c, s) && MinimumInv(c, s) && Enabled(s, TimerExpires)
    ensures var r := Step(c, s, TimerExpires);
            MinimumInv(c, r) &&
            (Accumulating(s) && (r.ready || r.mode == Remaining) ==> r.comp + SECONDS_PER_MINUTE > MinimumSeconds(c)) &&
            (Accumulating(s) && s.mode == Minimum && (r.ready || r.mode == Remaining) ==>
               s.armed.value.kind == MinimumTime && !s.aham &&
               (s.compressorOn ==> s.armed.value.period == UntilMinimum(c, s)) &&
               r.comp == if s.compressorOn then s.comp + s.elapsed / MSEC_PER_SEC else s.comp)
  {
    hide ArmMinimum, ArmRemaining, EnterRemaining, Balances, PeriodIsCurrent, UntilMinimum, TimeBetween;
    var s0 := s.(armed := None);
    var s1 := AddOpenDoors(c, AddCompressorIfOn(s0));
    match (s.mode, s.armed.value.kind)
    case (Minimum, Update) => ArmMinimumTimes(c, s, ShowCompressorIfOn(s1));
    case (Minimum, MinimumTime) =>
      var s2 := ShowCompressorIfOn(s1);
      if !EndsWithMinimum(c, s2) { EnteringTimes(c, Stop(s2)); }
    case (Remaining, Update) => ArmRemainingTimes(c, ShowTotal(s1));
    case _ =>
  }

  lemma MinimumStepKeeps(c: Settings, s: Readiness, ev: Event)
    requires Inv(c, s) && MinimumInv(c, s) && Enabled(s, ev) && !UsesAham(ev)
    ensures MinimumInv(c, Step(c, s, ev))
  {
    if ev.CompressorChanged? || ev.DoorChanged? {
      InputStepKeepsMinimum(c, s, ev);
    } else if ev.TimerExpires? {
      ExpiryKeepsMinimum(c, s);
    } else if ev == WaitingChanged(true) {
      hide EnterMinimum;
      EnteringTimes(c, Reset(s));
    }
  }

  lemma {:induction false} RunKeepsMinimum(c: Settings, s: Readiness, evs: seq<Event>)
    requires Sound(c) && Inv(c, s) && MinimumInv(c, s) && Possible(c, s, evs) && forall e :: e in evs ==> !UsesAham(e)
    ensures Inv(c, Run(c, s, evs)) && MinimumInv(c, Run(c, s, evs))
    decreases |evs|
  {
    if evs != [] {
      StepKeeps(c, s, evs[0]);
      MinimumStepKeeps(c, s, evs[0]);
      RunKeepsMinimum(c, Step(c, s, evs[0]), evs[1..]);
    }
  }

  lemma ReachableMinimumInv(c: Settings, s: Readiness)
    requires Sound(c) && ReachableWithoutAham(c, s)
    ensures Inv(c, s) && MinimumInv(c, s)
  {
    var f: Found, evs: seq<Event> :|
      Startable(c, f) && !f.aham && (forall e :: e in evs ==> !UsesAham(e)) &&
      Possible(c, PowerUp(c, f), evs) && s == Run(c, PowerUp(c, f), evs);
    PowerUpEstablishes(c, f);
    var s0 := if f.conditions.tooWarm then Reset(Restored(f)) else Restored(f);
    EnteringTimes(c, s0);
    RunKeepsMinimum(c, PowerUp(c, f), evs);
  }

  /** Without the AHAM override, the remaining-time state and readiness are reached only with more than the minimum
      less one minute on record. */
  lemma CompressorTimeBeforeReadiness(c: Settings, s: Readiness, ev: Event)
    requires Sound(c) && ReachableWithoutAham(c, s) && Accumulating(s) && Enabled(s, ev) && !UsesAham(ev)
    ensures Fits(c, s)
    ensures var r := Step(c, s, ev);
            r.mode != ReadyAndDefrosting && (r.ready || r.mode == Remaining) ==>
              r.comp + SECONDS_PER_MINUTE > MinimumSeconds(c)
  {
    ReachableMinimumInv(c, s);
    MinimumStepKeeps(c, s, ev);
    if ev.TimerExpires? {
      ExpiryKeepsMinimum(c, s);
    } else if ev.CompressorChanged? || ev.DoorChanged? {
      InputStepKeepsMinimum(c, s, ev);
    }
  }

  /** The minimum itself is kept exactly when the compressor still runs as the minimum timer expires, or the minimum
      was on record before. */
  lemma MinimumIsKeptExactlyWhenRunning(c: Settings, s: Readiness, ev: Event)
    requires Sound(c) && ReachableWithoutAham(c, s) && Accumulating(s) && s.mode == Minimum
    requires Enabled(s, ev) && !UsesAham(ev)
    ensures Fits(c, s)
    ensures var r := Step(c, s, ev);
            r.mode != ReadyAndDefrosting && (r.ready || r.mode == Remaining) ==>
              (r.comp >= MinimumSeconds(c) <==> s.compressorOn || s.comp >= MinimumSeconds(c))
  {
    ReachableMinimumInv(c, s);
    if ev.TimerExpires? {
      ExpiryKeepsMinimum(c, s);
    } else if ev.CompressorChanged? || ev.DoorChanged? {
      InputStepKeepsMinimum(c, s, ev);
    }
  }

  /** The failing family: the compressor stops, with the doors shut, before the minimum timer has run out. */
  lemma StoppedCompressorCutsMinimumShort(c: Settings, s: Readiness)
    requires Sound(c) && Inv(c, s) && Accumulating(s) && s.mode == Minimum && s.compressorOn && !AnyOpen(s.open)
    requires s.armed.Some? && s.armed.value.kind == MinimumTime && !s.aham
    requires s.comp + s.elapsed / MSEC_PER_SEC < MinimumSeconds(c)
    ensures var s1 := Step(c, s, CompressorChanged(false));
            var rest := Elapse(s.armed.value.period - s.elapsed);
            Enabled(s, CompressorChanged(false)) && Enabled(s1, rest) && Enabled(Step(c, s1, rest), TimerExpires) &&
            var r := Step(c, Step(c, s1, rest), TimerExpires);
            (r.ready || r.mode == Remaining) && r.comp < MinimumSeconds(c)
  {
    hide Balances, PeriodIsCurrent, EnterRemaining;
    var s1 := Step(c, s, CompressorChanged(false));
    assert s1.armed == s.armed && s1.elapsed == s.elapsed && s1.comp == s.comp + s.elapsed / MSEC_PER_SEC;
    var s2 := Step(c, s1, Elapse(s.armed.value.period - s.elapsed));
    var s3 := Stop(ShowCompressorIfOn(AddOpenDoors(c, AddCompressorIfOn(s2.(armed := None)))));
    assert s3.comp == s1.comp;
    EnteringTimes(c, s3);
  }

  /** It is reached at once when the compressor stops half a minute before the minimum. */
  lemma MinimumIsCutShort(c: Settings, f: Found)
    requires Sound(c) && Startable(c, f) && c.minMinutes > 0 && !f.aham && !f.conditions.tooWarm && f.waiting
    requires f.compressorOn && !AnyOpen(f.open) && f.comp == MinimumSeconds(c) - 30
    ensures var evs := [CompressorChanged(false), Elapse(30 * MSEC_PER_SEC), TimerExpires];
            Possible(c, PowerUp(c, f), evs) &&
            var r := Run(c, PowerUp(c, f), evs);
            (r.ready || r.mode == Remaining) && r.comp < MinimumSeconds(c)
  {
    var s := PowerUp(c, f);
    PowerUpEstablishes(c, f);
    StoppedCompressorCutsMinimumShort(c, s);
    hide Step, Inv, PowerUp;
    var e1, e2, e3 := CompressorChanged(false), Elapse(30 * MSEC_PER_SEC), TimerExpires;
    assert [e1, e2, e3][1..] == [e2, e3] && [e2, e3][1..] == [e3] && [e3][1..] == [];
    var s2 := Step(c, Step(c, s, e1), e2);
    assert [e3][0] == e3;
    assert Possible(c, s2, [e3]);
    assert Run(c, Step(c, s2, e3), []) == Step(c, s2, e3);
    assert Run(c, s2, [e3]) == Step(c, s2, e3);
    assert Possible(c, Step(c, s, e1), [e2, e3]);
  }
}
