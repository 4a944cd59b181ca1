/**
 The records of a wait: what resets them, what is shown of them, and with which a start resumes.
 */
module ReadinessRecords {
  import opened Options
  import opened ReadyToDefrostModel
  import opened ReadyToDefrostRuns
  import opened ReadinessComes

  /** What asking for the AHAM time does in any state: nothing is on record any more, and a wait starts anew. */
  lemma AhamRestartsTheWait(c: Settings, s: Readiness)
    requires Fits(c, s) && !s.aham
    ensures var r := Step(c, s, AhamChanged(true));
            r.comp == 0 && (forall i :: 0 <= i < |r.accel| ==> r.accel[i] == 0) &&
            (s.mode == ReadyAndDefrosting ==> r.mode == ReadyAndDefrosting) &&
            (s.mode != ReadyAndDefrosting ==>
               r.mode == Minimum && r.waitingTime == 0 && r.timeBetween == c.ahamMinutes &&
               (AnythingOn(r) ==> r.armed.Some? && r.elapsed == 0))
  {
    hide Sum, TimeBetween, UntilMinimum, EnterMinimum;
    var s1 := Stop(Reset(s.(aham := true)).(waitingTime := 0));
    EnteringKeepsRecords(c, s1);
    EnteringForAham(c, s1);
  }

  lemma EnteringForAham(c: Settings, s: Readiness)
    requires Fits(c, s) && s.aham
    ensures var r := EnterMinimum(c, s);
            r.waitingTime == s.comp && r.timeBetween == c.ahamMinutes && AnythingOn(r) == AnythingOn(s) &&
            (AnythingOn(s) ==> r.armed.Some? && r.elapsed == 0)
  {
    hide Sum, TimeBetween, UntilMinimum;
  }

  /** The time shown while waiting is always the recorded one: the compressor's while it is short of the minimum,
      then the total with the doors' acceleration. */
  predicate ShowsRecorded(s: Readiness) {
    (s.mode == Minimum ==> s.waitingTime == s.comp) && (s.mode == Remaining ==> s.waitingTime == Total(s))
  }

  lemma ArmingShows(c: Settings, s: Readiness)
    requires Fits(c, s) && ShowsRecorded(s)
    ensures ShowsRecorded(ArmMinimum(c, s)) && ShowsRecorded(ArmRemaining(c, s))
  {
    hide Weight, UntilReady, UntilMinimum, Sum;
  }

  lemma InputShows(c: Settings, s: Readiness, ev: Event)
    requires Fits(c, s) && ShowsRecorded(s) && Enabled(s, ev) && (ev.CompressorChanged? || ev.DoorChanged?)
    ensures ShowsRecorded(Step(c, s, ev))
  {
    hide ArmMinimum, ArmRemaining, Sum, AddDoors;
    if ev.CompressorChanged? {
      var s0 := s.(compressorOn := ev.on);
      var s1 := AddOpenDoors(c, if ev.on then s0 else if s.mode == Minimum then ShowCompressor(AddCompressor(s0))
                                                 else AddCompressor(s0));
      DoorsKeepCompressor(c, if ev.on then s0 else if s.mode == Minimum then ShowCompressor(AddCompressor(s0))
                                                else AddCompressor(s0), s.open);
      ArmingShows(c, if s.mode == Minimum then s1 else ShowTotal(s1));
    } else {
      var s0 := s.(open := s.open[ev.door := ev.isOpen]);
      var counted := s0.open[ev.door := !s0.open[ev.door]];
      DoorsKeepCompressor(c, s0, counted);
      var s1 := AddCompressorIfOn(AddDoors(c, s0, counted));
      ArmingShows(c, if s.mode == Minimum then ShowCompressorIfOn(s1) else ShowTotal(s1));
    }
  }

  lemma DoorsKeepCompressor(c: Settings, s: Readiness, counted: seq<bool>)
    requires Fits(c, s) && |counted| == |s.open|
    ensures var r := AddDoors(c, s, counted);
            r.comp == s.comp && r.waitingTime == s.waitingTime && r.mode == s.mode && r.compressorOn == s.compressorOn
  {}

  lemma ExpiryShows(c: Settings, s: Readiness)
    requires Fits(c, s) && ShowsRecorded(s) && Enabled(s, TimerExpires)
    ensures ShowsRecorded(Step(c, s, TimerExpires))
  {
    hide ArmMinimum, ArmRemaining, Sum, AddDoors, TimeBetween;
    var s0 := AddCompressorIfOn(s.(armed := None));
    DoorsKeepCompressor(c, s0, s.open);
    var s1 := AddOpenDoors(c, s0);
    ArmingShows(c, if s.mode == Minimum then ShowCompressorIfOn(s1) else ShowTotal(s1));
    EnteringShows(c, Stop(ShowCompressorIfOn(s1)));
  }

  lemma EnteringShows(c: Settings, s: Readiness)
    requires Fits(c, s)
    ensures ShowsRecorded(EnterMinimum(c, s)) && ShowsRecorded(EnterRemaining(c, s))
  {
    hide Weight, UntilReady, UntilMinimum, Sum, ShouldBeMinimum;
  }

  lemma StepShows(c: Settings, s: Readiness, ev: Event)
    requires Fits(c, s) && ShowsRecorded(s) && Enabled(s, ev)
    ensures ShowsRecorded(Step(c, s, ev))
  {
    if ev.CompressorChanged? || ev.DoorChanged? {
      InputShows(c, s, ev);
    } else if ev.TimerExpires? {
      ExpiryShows(c, s);
    } else {
      hide CompressorEvent, DoorEvent, ExpiryEvent, EnterMinimum, Sum;
      var s1 := if ev == AhamChanged(true) then Stop(Reset(s.(aham := true)).(waitingTime := 0)) else Reset(s);
      EnteringShows(c, s1);
    }
  }

  lemma {:induction false} RunShows(c: Settings, s: Readiness, evs: seq<Event>)
    requires Fits(c, s) && ShowsRecorded(s) && Possible(c, s, evs)
    ensures ShowsRecorded(Run(c, s, evs))
    decreases |evs|
  {
    if evs != [] {
      StepShows(c, s, evs[0]);
      hide Step, ShowsRecorded;
      RunShows(c, Step(c, s, evs[0]), evs[1..]);
    }
  }

  lemma ShownTimeIsRecorded(c: Settings, s: Readiness)
    requires Reachable(c, s)
    ensures ShowsRecorded(s)
  {
    var f: Found, evs: seq<Event> :|
      Startable(c, f) && Possible(c, PowerUp(c, f), evs) && s == Run(c, PowerUp(c, f), evs);
    PowerUpShows(c, f);
    hide PowerUp, ShowsRecorded;
    RunShows(c, PowerUp(c, f), evs);
  }

  lemma PowerUpShows(c: Settings, f: Found)
    requires Startable(c, f)
    ensures ShowsRecorded(PowerUp(c, f))
  {
    var s := if f.conditions.tooWarm then Reset(Restored(f)) else Restored(f);
    EnteringShows(c, s);
    hide EnterMinimum, EnterRemaining;
  }

  /** Whether the remaining time is due at once is decided on entering its state even with nothing on: then readiness is
      armed exactly if the compressor has its minimum and the total its threshold, and otherwise nothing is. */
  lemma RemainingIsDueAtOnceExactly(c: Settings, s: Readiness)
    requires Fits(c, s) && s.mode == Minimum && !AnythingOn(s) && !EndsWithMinimum(c, s)
    requires Enabled(s, TimerExpires) && s.armed.value.kind == MinimumTime
    ensures var r := Step(c, s, TimerExpires);
            var threshold := SECONDS_PER_MINUTE * if ShouldBeMinimum(s.conditions) then c.minMinutes else c.maxMinutes;
            r.mode == Remaining && !AnythingOn(r) &&
            r.armed == if s.comp >= c.minMinutes * SECONDS_PER_MINUTE && s.comp + Sum(s.accel) >= threshold
                       then Some(Arm(RemainingTime, 0)) else None
  {
    ShutDoorsRecordNothing(c, s.(armed := None));
    hide ShouldBeMinimum, Sum, Weight, UntilReady;
  }

  lemma EnteringKeepsRecords(c: Settings, s: Readiness)
    requires Fits(c, s)
    ensures var r := EnterMinimum(c, s); r.mode == Minimum && !r.ready && r.comp == s.comp && r.accel == s.accel
    ensures var r := EnterRemaining(c, s);
            r.mode == Remaining && r.ready == s.ready && r.comp == s.comp && r.accel == s.accel &&
            r.compressorOn == s.compressorOn && r.open == s.open &&
            (!AnythingOn(s) && s.comp >= c.minMinutes * SECONDS_PER_MINUTE ==>
               r.armed == if Total(s) >= r.timeBetween * SECONDS_PER_MINUTE then Some(Arm(RemainingTime, 0)) else None)
  {
    hide Weight, UntilReady, UntilMinimum, ShouldBeMinimum, Sum;
  }

  /** Where a start resumes a wait: with the restored records, or with none when the cabinet is too warm. */
  lemma PowerUpResumesExactly(c: Settings, f: Found)
    requires Startable(c, f)
    ensures var r := PowerUp(c, f);
            var minimum := c.minMinutes * SECONDS_PER_MINUTE;
            r.comp == (if f.conditions.tooWarm then 0 else f.comp) && |r.accel| == |f.accel| &&
            (forall i :: 0 <= i < |f.accel| ==> r.accel[i] == if f.conditions.tooWarm then 0 else f.accel[i]) &&
            !r.ready &&
            r.mode == (if !f.waiting then ReadyAndDefrosting else if r.comp < minimum then Minimum else Remaining) &&
            (r.mode == Remaining && !AnythingOn(r) ==>
               r.armed == if Total(r) >= r.timeBetween * SECONDS_PER_MINUTE then Some(Arm(RemainingTime, 0)) else None)
  {
    hide EnterMinimum, EnterRemaining, Sum;
    EnteringKeepsRecords(c, if f.conditions.tooWarm then Reset(Restored(f)) else Restored(f));
  }
}
