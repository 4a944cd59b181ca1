/**
 ReadyToDefrost in the form of the original: state handlers that add elapsed ticks to the records door
 by door and re-arm one timer. Each event leaves it exactly where the model goes.
 */
module ReadyToDefrostController {
  import opened Options
  import opened Units
  import opened ReadyToDefrostModel
  import opened ReadyToDefrostRuns

  datatype Signal =
    | CompressorIsOff
    | CompressorIsOn
    | ADoorOpened(door: nat)
    | ADoorClosed(door: nat)
    | UseAhamPrechillTime
    | NotWaitingToDefrost
    | WaitingToDefrost
    | UpdatePeriodExpired
    | MinimumTimeExpired
    | RemainingTimeExpired

  /** A signal says what has just changed. */
  predicate Truthful(s: Readiness, sig: Signal) {
    match sig
    case CompressorIsOff => !s.compressorOn
    case CompressorIsOn => s.compressorOn
    case ADoorOpened(i) => i < |s.open| && s.open[i]
    case ADoorClosed(i) => i < |s.open| && !s.open[i]
    case _ => true
  }

  /** What the model does with a signal. */
  ghost function Respond(c: Settings, s: Readiness, sig: Signal): (r: Readiness)
    requires Fits(c, s) && Truthful(s, sig)
    ensures Fits(c, r)
  {
    match sig
    case CompressorIsOff => CompressorEvent(c, s)
    case CompressorIsOn => CompressorEvent(c, s)
    case ADoorOpened(i) => DoorEvent(c, s, i)
    case ADoorClosed(i) => DoorEvent(c, s, i)
    case UseAhamPrechillTime => AhamEvent(c, s)
    case NotWaitingToDefrost => WaitingEvent(c, s, false)
    case WaitingToDefrost => WaitingEvent(c, s, true)
    case UpdatePeriodExpired => ExpiryEvent(c, s, Update)
    case MinimumTimeExpired => ExpiryEvent(c, s, MinimumTime)
    case RemainingTimeExpired => ExpiryEvent(c, s, RemainingTime)
  }

  class ReadyToDefrost {
    const c: Settings
    var mode: Mode                 // readyToDefrostHsmStateErd
    var ready: bool                // readyToDefrostErd
    var comp: nat                  // defrostCompressorOnTimeInSecondsErd
    const accel: array<nat>        // doorAccelerationErd of each door
    var waitingTime: nat           // waitingForDefrostTimeInSecondsErd
    var timeBetween: uint16        // timeBetweenDefrostsInMinutesErd
    var armed: Option<Arm>
    var elapsed: nat               // ticks since the timer was last started
    var compressorOn: bool
    const open: array<bool>        // doorIsOpenErd of each door
    var aham: bool
    var conditions: Conditions
    ghost var ledger: Ledger

    ghost function State(): Readiness
      reads this, accel, open
    {
      Readiness(mode, ready, comp, accel[..], waitingTime, timeBetween, armed, elapsed, compressorOn, open[..], aham,
                conditions, ledger)
    }

    ghost predicate Valid()
      reads this, accel, open
    {
      Fits(c, State())
    }

    // -------------------------------------------------------------- records

    method DoorAccelerationsInSeconds() returns (total: nat)
      ensures total == Sum(accel[..])
    {
      total := 0;
      for i := 0 to accel.Length
        invariant total == SumTo(accel[..], i)
      {
        total := total + accel[i];
      }
    }

    method AtLeastOneDoorIsOpen() returns (any: bool)
      ensures any == AnyOpen(open[..])
    {
      for i := 0 to open.Length
        invariant forall j :: 0 <= j < i ==> !open[j]
      {
        if open[i] {
          assert open[..][i];
          return true;
        }
      }
      return false;
    }

    method SumOfOpenDoorFactors() returns (sum: nat)
      requires Valid()
      ensures sum == OpenFactorsTo(c, open[..], open.Length)
    {
      sum := 0;
      for i := 0 to open.Length
        invariant sum == OpenFactorsTo(c, open[..], i)
      {
        if open[i] {
          sum := sum + c.factors[i];
        }
      }
    }

    method ResetDoorAccelerations()
      modifies accel
      ensures accel[..] == Zeros(accel.Length)
    {
      for i := 0 to accel.Length
        invariant forall j :: 0 <= j < i ==> accel[j] == 0
      {
        accel[i] := 0;
      }
    }

    method ResetRecords()
      requires Valid()
      modifies this`comp, this`ledger, accel
      ensures State() == Reset(old(State()))
    {
      comp := 0;
      ResetDoorAccelerations();
      ledger := Ledger(0, Zeros(accel.Length), 0, Zeros(accel.Length));
    }

    method AddElapsedTicksToCompressorOnTime()
      modifies this`comp, this`ledger
      ensures State() == AddCompressor(old(State()))
    {
      comp := comp + elapsed / MSEC_PER_SEC;
      ledger := ledger.(onUpdates := ledger.onUpdates + 1);
    }

    method AddElapsedTicksToCompressorOnTimeIfCompressorIsOn()
      modifies this`comp, this`ledger
      ensures State() == AddCompressorIfOn(old(State()))
    {
      if compressorOn {
        AddElapsedTicksToCompressorOnTime();
      }
    }

    method IncrementDoorAcceleration(i: nat)
      requires Valid() && i < accel.Length
      modifies accel, this`ledger
      ensures accel[..] == old(accel[..])[i := old(accel[i]) + Gain(c, elapsed, i)]
      ensures ledger == old(ledger).(openUpdates := old(ledger.openUpdates)[i := old(ledger.openUpdates[i]) + 1])
    {
      accel[i] := accel[i] + elapsed * c.factors[i] / MSEC_PER_SEC;
      ledger := ledger.(openUpdates := ledger.openUpdates[i := ledger.openUpdates[i] + 1]);
    }

    /** To every open door but one; no door has the number of doors as its index. */
    method AddElapsedTicksToOpenDoorsExcept(except: nat)
      requires Valid() && except <= open.Length
      modifies accel, this`ledger
      ensures var s := old(State());
              State() == AddDoors(c, s, if except < |s.open| then s.open[except := false] else s.open)
    {
      ghost var s := State();
      ghost var counted := if except < |s.open| then s.open[except := false] else s.open;
      ghost var r := AddDoors(c, s, counted);
      for i := 0 to open.Length
        invariant Valid() && ledger == s.ledger.(openUpdates := ledger.openUpdates)
        invariant forall j :: 0 <= j < accel.Length ==> accel[j] == if j < i then r.accel[j] else s.accel[j]
        invariant forall j :: 0 <= j < accel.Length ==>
                    ledger.openUpdates[j] == if j < i then r.ledger.openUpdates[j] else s.ledger.openUpdates[j]
      {
        if i != except && open[i] {
          IncrementDoorAcceleration(i);
        }
      }
      assert accel[..] == r.accel && ledger.openUpdates == r.ledger.openUpdates;
    }

    method AddElapsedTicksToDoorAccelerationForOpenDoors()
      requires Valid()
      modifies accel, this`ledger
      ensures State() == AddOpenDoors(c, old(State()))
    {
      AddElapsedTicksToOpenDoorsExcept(open.Length);
    }

    method AddElapsedTicksForDoorThatOpened(i: nat)
      requires Valid() && i < open.Length && open[i]
      modifies accel, this`ledger
      ensures State() == AddDoors(c, old(State()), old(State()).open[i := false])
    {
      AddElapsedTicksToOpenDoorsExcept(i);
    }

    method AddElapsedTicksForDoorThatClosed(i: nat)
      requires Valid() && i < open.Length && !open[i]
      modifies accel, this`ledger
      ensures State() == AddDoors(c, old(State()), old(State()).open[i := true])
    {
      ghost var s := State();
      IncrementDoorAcceleration(i);
      ghost var s1 := State();
      AddElapsedTicksToDoorAccelerationForOpenDoors();
      ghost var r := AddDoors(c, s, s.open[i := true]);
      assert s1.open == s.open && s1.elapsed == s.elapsed;
      assert accel[..] == r.accel && ledger.openUpdates == r.ledger.openUpdates;
    }

    method ShowCompressorOnTimeIfCompressorIsOn()
      modifies this`waitingTime
      ensures State() == ShowCompressorIfOn(old(State()))
    {
      if compressorOn {
        waitingTime := comp;
      }
    }

    method ShowCompressorOnTimePlusDoorAccelerations()
      modifies this`waitingTime
      ensures State() == ShowTotal(old(State()))
    {
      var doors := DoorAccelerationsInSeconds();
      waitingTime := comp + doors;
    }

    // -------------------------------------------------------------- the timer

    method StartTimer(k: Kind, period: nat)
      modifies this`armed, this`elapsed
      ensures State() == Start(old(State()), k, period)
    {
      armed := Some(Arm(k, period));
      elapsed := 0;
    }

    method StopTimer()
      modifies this`armed
      ensures State() == Stop(old(State()))
    {
      armed := None;
    }

    method RemainingTimeUntilMinimumTime() returns (ms: nat)
      ensures ms == UntilMinimum(c, State())
    {
      var minutes := c.minMinutes;
      if aham {
        minutes := c.ahamMinutes;
      }
      return Less(minutes * MSEC_PER_MIN, comp * MSEC_PER_SEC);
    }

    method StartMinimumTimerOrPeriodicUpdate()
      requires Valid()
      modifies this`armed, this`elapsed
      ensures State() == ArmMinimum(c, old(State()))
    {
      var left := RemainingTimeUntilMinimumTime();
      var doorOpen := AtLeastOneDoorIsOpen();
      if compressorOn && left < UPDATE_PERIOD {
        StartTimer(MinimumTime, left);
      } else if compressorOn || doorOpen {
        StartTimer(Update, UPDATE_PERIOD);
      }
    }

    method RemainingTimeBetweenDefrosts() returns (ms: nat)
      ensures ms == RemainingMs(State())
    {
      var doors := DoorAccelerationsInSeconds();
      return Less(timeBetween * SECONDS_PER_MINUTE, comp + doors) * MSEC_PER_SEC;
    }

    method RemainingTimeUntilReady() returns (ms: nat)
      requires Valid() && Weight(c, State()) > 0
      ensures ms == UntilReady(c, State())
    {
      var left := RemainingTimeBetweenDefrosts();
      var doorOpen := AtLeastOneDoorIsOpen();
      if !doorOpen {
        ShutDoorsWeighNothing(c, open[..], open.Length);
        assert left / 1 == left;
        return left;
      }
      var factors := SumOfOpenDoorFactors();
      if compressorOn {
        return left / (1 + factors);
      } else {
        return left / factors;
      }
    }

    method StartRemainingTimerOrPeriodicUpdate()
      requires Valid() && Sound(c)
      modifies this`armed, this`elapsed
      ensures State() == ArmRemaining(c, old(State()))
    {
      var doorOpen := AtLeastOneDoorIsOpen();
      if compressorOn || doorOpen {
        SomethingWeighs(c, State());
        var left := RemainingTimeUntilReady();
        if left < UPDATE_PERIOD {
          StartTimer(RemainingTime, left);
        } else {
          StartTimer(Update, UPDATE_PERIOD);
        }
      } else {
        StopTimer();
      }
    }

    // -------------------------------------------------------------- entries and exits

    method TimeBetweenDefrostsForPresentConditions() returns (minutes: uint16)
      ensures minutes == TimeBetween(c, conditions)
      ensures conditions.freshFoodWasAbnormal || conditions.freezerWasAbnormal ==> minutes == c.minMinutes
      ensures conditions.invalidThermistor || conditions.tooWarm || conditions.eepromCleared ==> minutes == c.minMinutes
      ensures conditions.hasConvertible && conditions.convertibleWasAbnormal ==> minutes == c.minMinutes
      ensures !ShouldBeMinimum(conditions) ==> minutes == c.maxMinutes
    {
      minutes := c.maxMinutes;
      if conditions.freshFoodWasAbnormal || conditions.freezerWasAbnormal ||
         (conditions.hasConvertible && conditions.convertibleWasAbnormal) || conditions.invalidThermistor ||
         conditions.tooWarm || conditions.eepromCleared {
        minutes := c.minMinutes;
      }
    }

    method EnterWaitingForMinimum()
      requires Valid()
      modifies this`mode, this`ready, this`waitingTime, this`timeBetween, this`armed, this`elapsed
      ensures State() == EnterMinimum(c, old(State()))
    {
      mode := Minimum;
      ready := false;
      waitingTime := comp;
      if aham {
        timeBetween := c.ahamMinutes;
      } else {
        timeBetween := TimeBetweenDefrostsForPresentConditions();
      }
      StartMinimumTimerOrPeriodicUpdate();
    }

    method EnterWaitingForRemaining()
      requires Valid() && Sound(c)
      modifies this`mode, this`waitingTime, this`timeBetween, this`armed, this`elapsed
      ensures State() == EnterRemaining(c, old(State()))
    {
      mode := Remaining;
      timeBetween := TimeBetweenDefrostsForPresentConditions();
      ShowCompressorOnTimePlusDoorAccelerations();
      var doors := DoorAccelerationsInSeconds();
      if comp >= c.minMinutes * SECONDS_PER_MINUTE && comp + doors >= timeBetween * SECONDS_PER_MINUTE {
        StartTimer(RemainingTime, 0);
      } else {
        StartRemainingTimerOrPeriodicUpdate();
      }
    }

    // -------------------------------------------------------------- state handlers

    method RecordForMinimum()
      requires Valid()
      modifies this`comp, this`waitingTime, this`ledger, accel
      ensures State() == ShowCompressorIfOn(AddOpenDoors(c, AddCompressorIfOn(old(State()))))
    {
      AddElapsedTicksToCompressorOnTimeIfCompressorIsOn();
      ShowCompressorOnTimeIfCompressorIsOn();
      AddElapsedTicksToDoorAccelerationForOpenDoors();
    }

    /** The two timers that end a wait record the doors first. */
    method RecordAtExpiry()
      requires Valid()
      modifies this`comp, this`ledger, accel
      ensures State() == AddOpenDoors(c, AddCompressorIfOn(old(State())))
    {
      RecordsCommute(c, State());
      AddElapsedTicksToDoorAccelerationForOpenDoors();
      AddElapsedTicksToCompressorOnTimeIfCompressorIsOn();
    }

    method MinimumTimeIsOver()
      requires Valid() && Sound(c) && mode == Minimum
      modifies this, accel
      ensures State() == ExpiryEvent(c, old(State()), MinimumTime)
    {
      hide ArmRemaining, AddDoors, Sum, TimeBetween;
      RecordAtExpiry();
      ShowCompressorOnTimeIfCompressorIsOn();
      if timeBetween == c.ahamMinutes || timeBetween == c.minMinutes {
        ready := true;
      } else {
        StopTimer();
        EnterWaitingForRemaining();
      }
    }

    method StartOverWithAhamTime()
      requires Valid() && mode == Minimum
      modifies this, accel
      ensures State() == AhamEvent(c, old(State()))
    {
      waitingTime := 0;
      ResetRecords();
      timeBetween := c.ahamMinutes;
      var doorOpen := AtLeastOneDoorIsOpen();
      if compressorOn || doorOpen {
        StartTimer(Update, UPDATE_PERIOD);
      }
    }

    method StateWaitingForMinimum(sig: Signal) returns (consumed: bool)
      requires Valid() && Sound(c) && mode == Minimum && Truthful(State(), sig)
      modifies this, accel
      ensures consumed ==> State() == Respond(c, old(State()), sig)
      ensures !consumed ==> State() == old(State())
      ensures !consumed ==> sig == NotWaitingToDefrost || sig == WaitingToDefrost || sig == RemainingTimeExpired
    {
      hide ArmMinimum, ArmRemaining, AddDoors, EnterMinimum, EnterRemaining, Sum;
      consumed := true;
      match sig
      case UpdatePeriodExpired =>
        RecordForMinimum();
        StartMinimumTimerOrPeriodicUpdate();
      case CompressorIsOff =>
        AddElapsedTicksToCompressorOnTime();
        waitingTime := comp;
        AddElapsedTicksToDoorAccelerationForOpenDoors();
        StartMinimumTimerOrPeriodicUpdate();
      case CompressorIsOn =>
        AddElapsedTicksToDoorAccelerationForOpenDoors();
        StartMinimumTimerOrPeriodicUpdate();
      case MinimumTimeExpired => MinimumTimeIsOver();
      case ADoorOpened(i) =>
        AddElapsedTicksForDoorThatOpened(i);
        AddElapsedTicksToCompressorOnTimeIfCompressorIsOn();
        ShowCompressorOnTimeIfCompressorIsOn();
        StartMinimumTimerOrPeriodicUpdate();
      case ADoorClosed(i) =>
        AddElapsedTicksForDoorThatClosed(i);
        AddElapsedTicksToCompressorOnTimeIfCompressorIsOn();
        ShowCompressorOnTimeIfCompressorIsOn();
        StartMinimumTimerOrPeriodicUpdate();
      case UseAhamPrechillTime => StartOverWithAhamTime();
      case _ => consumed := false;
    }

    method StateWaitingForRemaining(sig: Signal) returns (consumed: bool)
      requires Valid() && Sound(c) && mode == Remaining && Truthful(State(), sig)
      modifies this, accel
      ensures consumed ==> State() == Respond(c, old(State()), sig)
      ensures !consumed ==> State() == old(State())
      ensures !consumed ==> sig == NotWaitingToDefrost || sig == WaitingToDefrost || sig == MinimumTimeExpired
    {
      hide ArmMinimum, ArmRemaining, AddDoors, EnterMinimum, EnterRemaining, Sum;
      consumed := true;
      match sig
      case UpdatePeriodExpired =>
        AddElapsedTicksToCompressorOnTimeIfCompressorIsOn();
        AddElapsedTicksToDoorAccelerationForOpenDoors();
        ShowCompressorOnTimePlusDoorAccelerations();
        StartRemainingTimerOrPeriodicUpdate();
      case CompressorIsOn =>
        AddElapsedTicksToDoorAccelerationForOpenDoors();
        ShowCompressorOnTimePlusDoorAccelerations();
        StartRemainingTimerOrPeriodicUpdate();
      case CompressorIsOff =>
        AddElapsedTicksToCompressorOnTime();
        AddElapsedTicksToDoorAccelerationForOpenDoors();
        ShowCompressorOnTimePlusDoorAccelerations();
        StartRemainingTimerOrPeriodicUpdate();
      case ADoorOpened(i) =>
        AddElapsedTicksForDoorThatOpened(i);
        AddElapsedTicksToCompressorOnTimeIfCompressorIsOn();
        ShowCompressorOnTimePlusDoorAccelerations();
        StartRemainingTimerOrPeriodicUpdate();
      case ADoorClosed(i) =>
        AddElapsedTicksForDoorThatClosed(i);
        AddElapsedTicksToCompressorOnTimeIfCompressorIsOn();
        ShowCompressorOnTimePlusDoorAccelerations();
        StartRemainingTimerOrPeriodicUpdate();
      case RemainingTimeExpired =>
        RecordAtExpiry();
        ShowCompressorOnTimePlusDoorAccelerations();
        ready := true;
      case UseAhamPrechillTime =>
        waitingTime := 0;
        ResetRecords();
        StopTimer();
        EnterWaitingForMinimum();
      case _ => consumed := false;
    }

    /** The parent of both waiting states. */
    method StateWaitingToGetReady(sig: Signal) returns (consumed: bool)
      requires Valid() && mode != ReadyAndDefrosting
      modifies this
      ensures consumed <==> sig == NotWaitingToDefrost
      ensures State() == if consumed then WaitingEvent(c, old(State()), false) else old(State())
    {
      if sig == NotWaitingToDefrost {
        StopTimer();
        mode := ReadyAndDefrosting;
        return true;
      }
      return false;
    }

    method StateReadyAndDefrosting(sig: Signal)
      requires Valid() && mode == ReadyAndDefrosting && Truthful(State(), sig)
      modifies this, accel
      ensures State() == Respond(c, old(State()), sig)
    {
      hide ArmMinimum;
      match sig
      case WaitingToDefrost =>
        ResetRecords();
        EnterWaitingForMinimum();
      case UseAhamPrechillTime => ResetRecords();
      case _ =>
    }

    method SendSignal(sig: Signal)
      requires Valid() && Sound(c) && Truthful(State(), sig)
      modifies this, accel
      ensures State() == Respond(c, old(State()), sig)
    {
      hide ArmMinimum, ArmRemaining, AddDoors, EnterMinimum, EnterRemaining, Sum;
      if mode == ReadyAndDefrosting {
        StateReadyAndDefrosting(sig);
        return;
      }
      var consumed: bool;
      if mode == Minimum {
        consumed := StateWaitingForMinimum(sig);
      } else {
        consumed := StateWaitingForRemaining(sig);
      }
      if !consumed {
        consumed := StateWaitingToGetReady(sig);
      }
    }

    // -------------------------------------------------------------- events

    /** The data model reports a change of the compressor or of the two flags. */
    method DataModelChanged(ev: Event)
      requires Valid() && Sound(c) && Enabled(State(), ev)
      requires ev.CompressorChanged? || ev.AhamChanged? || ev.WaitingChanged?
      modifies this, accel
      ensures State() == Step(c, old(State()), ev)
    {
      hide CompressorEvent, AhamEvent, WaitingEvent;
      match ev
      case CompressorChanged(on) =>
        compressorOn := on;
        if on { SendSignal(CompressorIsOn); } else { SendSignal(CompressorIsOff); }
      case AhamChanged(use) =>
        aham := use;
        if use { SendSignal(UseAhamPrechillTime); }
      case WaitingChanged(waiting) =>
        if waiting { SendSignal(WaitingToDefrost); } else { SendSignal(NotWaitingToDefrost); }
    }

    method DoorChanges(i: nat, isOpen: bool)
      requires Valid() && Sound(c) && Enabled(State(), DoorChanged(i, isOpen))
      modifies this, accel, open
      ensures State() == Step(c, old(State()), DoorChanged(i, isOpen))
    {
      hide DoorEvent;
      open[i] := isOpen;
      if isOpen { SendSignal(ADoorOpened(i)); } else { SendSignal(ADoorClosed(i)); }
    }

    method TimerExpired()
      requires Valid() && Sound(c) && Enabled(State(), TimerExpires)
      modifies this, accel
      ensures State() == Step(c, old(State()), TimerExpires)
    {
      hide ExpiryEvent;
      var kind := armed.value.kind;
      armed := None;
      match kind
      case Update => SendSignal(UpdatePeriodExpired);
      case MinimumTime => SendSignal(MinimumTimeExpired);
      case RemainingTime => SendSignal(RemainingTimeExpired);
    }

    method TimePasses(ms: nat)
      requires Valid() && Enabled(State(), Elapse(ms))
      modifies this`elapsed, this`ledger
      ensures State() == PassTime(c, old(State()), ms)
    {
      elapsed := elapsed + ms;
      ledger := PassTime(c, old(State()), ms).ledger;
    }

    /** Whatever happens, the object goes where the model goes. */
    method Happen(ev: Event)
      requires Valid() && Sound(c) && Enabled(State(), ev)
      modifies this, accel, open
      ensures State() == Step(c, old(State()), ev)
    {
      hide CompressorEvent, DoorEvent, AhamEvent, WaitingEvent, ExpiryEvent, PassTime;
      match ev
      case DoorChanged(i, isOpen) => DoorChanges(i, isOpen);
      case ConditionsChanged(d) => conditions := d;
      case Elapse(ms) => TimePasses(ms);
      case TimerExpires => TimerExpired();
      case _ => DataModelChanged(ev);
    }

    // -------------------------------------------------------------- start-up

    constructor (c: Settings, f: Found)
      requires Startable(c, f) && Sound(c)
      ensures this.c == c && State() == PowerUp(c, f)
      ensures fresh(accel) && fresh(open)
    {
      this.c := c;
      mode, ready, comp, waitingTime, timeBetween, armed, elapsed := ReadyAndDefrosting, false, f.comp, 0, 0, None, 0;
      compressorOn, aham, conditions := f.compressorOn, f.aham, f.conditions;
      accel := new nat[|f.accel|](i requires 0 <= i < |f.accel| => f.accel[i]);
      open := new bool[|f.open|](i requires 0 <= i < |f.open| => f.open[i]);
      ledger := Restored(f).ledger;
      new;
      assert State() == Restored(f);
      hide Restored, EnterMinimum, EnterRemaining, Reset;
      if conditions.tooWarm {
        ResetRecords();
      }
      if f.waiting {
        if comp < c.minMinutes * SECONDS_PER_MINUTE {
          EnterWaitingForMinimum();
        } else {
          EnterWaitingForRemaining();
        }
      }
    }
  }

  lemma RecordsCommute(c: Settings, s: Readiness)
    requires Fits(c, s)
    ensures AddCompressorIfOn(AddOpenDoors(c, s)) == AddOpenDoors(c, AddCompressorIfOn(s))
  {
    var r, t := AddCompressorIfOn(AddOpenDoors(c, s)), AddOpenDoors(c, AddCompressorIfOn(s));
    assert r.accel == t.accel && r.ledger.openUpdates == t.ledger.openUpdates;
  }

  lemma {:induction false} ShutDoorsWeighNothing(c: Settings, open: seq<bool>, n: nat)
    requires !AnyOpen(open) && n <= |open| == |c.factors|
    ensures OpenFactorsTo(c, open, n) == 0
  {
    if n > 0 { ShutDoorsWeighNothing(c, open, n - 1); }
  }
}
