/**
 ReadyToDefrost: compressor run time and weighted door-open time become a readiness decision, with
 one re-armed timer. The model keeps a ledger of the true times beside the recorded ones.
 */
module ReadyToDefrostModel {
  import opened Options
  import opened Units

  const SECONDS_PER_MINUTE := 60
  const UPDATE_PERIOD := SECONDS_PER_MINUTE * MSEC_PER_SEC

  datatype Settings = Settings(minMinutes: uint16, maxMinutes: uint16, ahamMinutes: uint16, factors: seq<uint16>)

  /** Door factors are seconds per second and positive; without that the remaining time divides by zero. */
  predicate Sound(c: Settings) { forall i :: 0 <= i < |c.factors| ==> c.factors[i] > 0 }

  datatype Mode = Minimum | Remaining | ReadyAndDefrosting
  datatype Kind = Update | MinimumTime | RemainingTime
  datatype Arm = Arm(kind: Kind, period: nat)

  datatype Conditions = Conditions(
    freshFoodWasAbnormal: bool, freezerWasAbnormal: bool, hasConvertible: bool, convertibleWasAbnormal: bool,
    invalidThermistor: bool, tooWarm: bool, eepromCleared: bool)

  /** True times since the records were last reset, doors weighted by their factor, and how often each record was
      added to. */
  datatype Ledger = Ledger(onMs: nat, openMs: seq<nat>, onUpdates: nat, openUpdates: seq<nat>)

  datatype Readiness = Readiness(
    mode: Mode,
    ready: bool,
    comp: nat,                // seconds the compressor was on
    accel: seq<nat>,          // weighted seconds each door was open
    waitingTime: nat,
    timeBetween: uint16,      // minutes
    armed: Option<Arm>,
    elapsed: nat,             // milliseconds since the timer was last started
    compressorOn: bool,
    open: seq<bool>,
    aham: bool,
    conditions: Conditions,
    ledger: Ledger)

  predicate Fits(c: Settings, s: Readiness) {
    |s.accel| == |s.open| == |s.ledger.openMs| == |s.ledger.openUpdates| == |c.factors|
  }

  // ---------------------------------------------------------------- sums over doors

  function SumTo(s: seq<nat>, n: nat): nat
    requires n <= |s|
  {
    if n == 0 then 0 else SumTo(s, n - 1) + s[n - 1]
  }

  function Sum(s: seq<nat>): nat { SumTo(s, |s|) }

  /** The factors of the first n doors that are open. */
  function OpenFactorsTo(c: Settings, open: seq<bool>, n: nat): nat
    requires n <= |open| == |c.factors|
  {
    if n == 0 then 0 else OpenFactorsTo(c, open, n - 1) + if open[n - 1] then c.factors[n - 1] else 0
  }

  function OpenCountTo(open: seq<bool>, n: nat): nat
    requires n <= |open|
  {
    if n == 0 then 0 else OpenCountTo(open, n - 1) + if open[n - 1] then 1 else 0
  }

  predicate AnyOpen(open: seq<bool>) { exists i :: 0 <= i < |open| && open[i] }

  function Weight(c: Settings, s: Readiness): nat
    requires Fits(c, s)
  {
    (if s.compressorOn then 1 else 0) + OpenFactorsTo(c, s.open, |s.open|)
  }

  // ---------------------------------------------------------------- accumulating

  function Total(s: Readiness): nat { s.comp + Sum(s.accel) }

  function AddCompressor(s: Readiness): Readiness {
    s.(comp := s.comp + s.elapsed / MSEC_PER_SEC, ledger := s.ledger.(onUpdates := s.ledger.onUpdates + 1))
  }

  function AddCompressorIfOn(s: Readiness): Readiness { if s.compressorOn then AddCompressor(s) else s }

  function Gain(c: Settings, elapsed: nat, i: nat): nat
    requires i < |c.factors|
  {
    elapsed * c.factors[i] / MSEC_PER_SEC
  }

  /** Adds the elapsed ticks to every counted door. */
  function AddDoors(c: Settings, s: Readiness, counted: seq<bool>): (r: Readiness)
    requires Fits(c, s) && |counted| == |s.open|
    ensures Fits(c, r)
  {
    s.(accel := seq(|s.accel|, i requires 0 <= i < |s.accel| =>
                    s.accel[i] + if counted[i] then Gain(c, s.elapsed, i) else 0),
       ledger := s.ledger.(openUpdates := seq(|s.accel|, i requires 0 <= i < |s.accel| =>
                    s.ledger.openUpdates[i] + if counted[i] then 1 else 0)))
  }

  function AddOpenDoors(c: Settings, s: Readiness): (r: Readiness)
    requires Fits(c, s)
    ensures Fits(c, r)
  {
    AddDoors(c, s, s.open)
  }

  function ShowCompressor(s: Readiness): Readiness { s.(waitingTime := s.comp) }
  function ShowCompressorIfOn(s: Readiness): Readiness { if s.compressorOn then ShowCompressor(s) else s }
  function ShowTotal(s: Readiness): Readiness { s.(waitingTime := Total(s)) }

  function Zeros(n: nat): seq<nat> { seq(n, i => 0) }

  function Reset(s: Readiness): Readiness {
    s.(comp := 0, accel := Zeros(|s.accel|), ledger := Ledger(0, Zeros(|s.accel|), 0, Zeros(|s.accel|)))
  }

  // ---------------------------------------------------------------- the timer

  function Start(s: Readiness, k: Kind, period: nat): Readiness { s.(armed := Some(Arm(k, period)), elapsed := 0) }
  function Stop(s: Readiness): Readiness { s.(armed := None) }

  function Less(a: nat, b: nat): nat { if a > b then a - b else 0 }

  function MinimumMinutes(c: Settings, s: Readiness): uint16 { if s.aham then c.ahamMinutes else c.minMinutes }

  function UntilMinimum(c: Settings, s: Readiness): nat {
    Less(MinimumMinutes(c, s) * MSEC_PER_MIN, s.comp * MSEC_PER_SEC)
  }

  /** The helper of the minimum state: it leaves the timer as it is when nothing is on. */
  function ArmMinimum(c: Settings, s: Readiness): Readiness {
    if s.compressorOn && UntilMinimum(c, s) < UPDATE_PERIOD then Start(s, MinimumTime, UntilMinimum(c, s))
    else if s.compressorOn || AnyOpen(s.open) then Start(s, Update, UPDATE_PERIOD)
    else s
  }

  function Threshold(s: Readiness): nat { s.timeBetween * SECONDS_PER_MINUTE }

  function RemainingMs(s: Readiness): nat { Less(Threshold(s), Total(s)) * MSEC_PER_SEC }

  /** How long until the threshold at the present weight; never asked for when nothing is on. */
  function UntilReady(c: Settings, s: Readiness): nat
    requires Fits(c, s)
  {
    if Weight(c, s) == 0 then 0 else RemainingMs(s) / Weight(c, s)
  }

  function ArmRemaining(c: Settings, s: Readiness): (r: Readiness)
    requires Fits(c, s)
    ensures Fits(c, r)
  {
    if s.compressorOn || AnyOpen(s.open) then
      if UntilReady(c, s) < UPDATE_PERIOD then Start(s, RemainingTime, UntilReady(c, s))
      else Start(s, Update, UPDATE_PERIOD)
    else Stop(s)
  }

  // ---------------------------------------------------------------- states

  predicate ShouldBeMinimum(d: Conditions) {
    d.freshFoodWasAbnormal || d.freezerWasAbnormal || (d.hasConvertible && d.convertibleWasAbnormal) ||
    d.invalidThermistor || d.tooWarm || d.eepromCleared
  }

  function TimeBetween(c: Settings, d: Conditions): uint16 {
    if ShouldBeMinimum(d) then c.minMinutes else c.maxMinutes
  }

  predicate IsReady(c: Settings, s: Readiness) {
    s.comp >= c.minMinutes * SECONDS_PER_MINUTE && Total(s) >= Threshold(s)
  }

  function EnterMinimum(c: Settings, s: Readiness): (r: Readiness)
    requires Fits(c, s)
    ensures Fits(c, r)
  {
    ArmMinimum(c, ShowCompressor(s.(mode := Minimum, ready := false)).(
                  timeBetween := if s.aham then c.ahamMinutes else TimeBetween(c, s.conditions)))
  }

  function EnterRemaining(c: Settings, s: Readiness): (r: Readiness)
    requires Fits(c, s)
    ensures Fits(c, r)
  {
    var s1 := ShowTotal(s.(mode := Remaining, timeBetween := TimeBetween(c, s.conditions)));
    if IsReady(c, s1) then Start(s1, RemainingTime, 0) else ArmRemaining(c, s1)
  }

  // ---------------------------------------------------------------- events

  datatype Event =
    | CompressorChanged(on: bool)
    | DoorChanged(door: nat, isOpen: bool)
    | AhamChanged(use: bool)
    | WaitingChanged(waiting: bool)
    | ConditionsChanged(conditions: Conditions)
    | Elapse(ms: nat)
    | TimerExpires

  /** Changes are published only on change, and time cannot pass an armed timer. */
  predicate Enabled(s: Readiness, ev: Event) {
    match ev
    case CompressorChanged(on) => on != s.compressorOn
    case DoorChanged(i, isOpen) => i < |s.open| && isOpen != s.open[i]
    case AhamChanged(use) => use != s.aham
    case WaitingChanged(waiting) => waiting <==> s.mode == ReadyAndDefrosting
    case ConditionsChanged(_) => true
    case Elapse(ms) => s.armed.Some? ==> s.elapsed + ms <= s.armed.value.period
    case TimerExpires => s.armed.Some? && s.elapsed == s.armed.value.period
  }

  function CompressorEvent(c: Settings, s: Readiness): (r: Readiness)
    requires Fits(c, s)
    ensures Fits(c, r)
  {
    var s1 := if s.compressorOn then s else AddCompressor(s);
    match s.mode
    case ReadyAndDefrosting => s
    case Minimum => ArmMinimum(c, AddOpenDoors(c, if s.compressorOn then s1 else ShowCompressor(s1)))
    case Remaining => ArmRemaining(c, ShowTotal(AddOpenDoors(c, s1)))
  }

  /** Door i has just been opened or closed: the elapsed ticks belong to the doors that were open before. */
  function DoorEvent(c: Settings, s: Readiness, i: nat): (r: Readiness)
    requires Fits(c, s) && i < |s.open|
    ensures Fits(c, r)
  {
    var s1 := AddCompressorIfOn(AddDoors(c, s, s.open[i := !s.open[i]]));
    match s.mode
    case ReadyAndDefrosting => s
    case Minimum => ArmMinimum(c, ShowCompressorIfOn(s1))
    case Remaining => ArmRemaining(c, ShowTotal(s1))
  }

  function AhamEvent(c: Settings, s: Readiness): (r: Readiness)
    requires Fits(c, s)
    ensures Fits(c, r)
  {
    match s.mode
    case ReadyAndDefrosting => Reset(s)
    case Minimum =>
      var s1 := Reset(s).(waitingTime := 0, timeBetween := c.ahamMinutes);
      if s1.compressorOn || AnyOpen(s1.open) then Start(s1, Update, UPDATE_PERIOD) else s1
    case Remaining => EnterMinimum(c, Stop(Reset(s).(waitingTime := 0)))
  }

  predicate EndsWithMinimum(c: Settings, s: Readiness) {
    s.timeBetween == c.ahamMinutes || s.timeBetween == c.minMinutes
  }

  function ExpiryEvent(c: Settings, s: Readiness, k: Kind): (r: Readiness)
    requires Fits(c, s)
    ensures Fits(c, r)
  {
    var s1 := AddOpenDoors(c, AddCompressorIfOn(s));
    match (s.mode, k)
    case (Minimum, Update) => ArmMinimum(c, ShowCompressorIfOn(s1))
    case (Minimum, MinimumTime) =>
      var s2 := ShowCompressorIfOn(s1);
      if EndsWithMinimum(c, s2) then s2.(ready := true) else EnterRemaining(c, Stop(s2))
    case (Remaining, Update) => ArmRemaining(c, ShowTotal(s1))
    case (Remaining, RemainingTime) => ShowTotal(s1).(ready := true)
    case _ => s
  }

  function WaitingEvent(c: Settings, s: Readiness, waiting: bool): (r: Readiness)
    requires Fits(c, s)
    ensures Fits(c, r)
  {
    if waiting then (if s.mode == ReadyAndDefrosting then EnterMinimum(c, Reset(s)) else s)
    else if s.mode == ReadyAndDefrosting then s
    else Stop(s).(mode := ReadyAndDefrosting)
  }

  function PassTime(c: Settings, s: Readiness, ms: nat): (r: Readiness)
    requires Fits(c, s)
    ensures Fits(c, r)
  {
    s.(elapsed := s.elapsed + ms,
       ledger := s.ledger.(
         onMs := s.ledger.onMs + if s.compressorOn then ms else 0,
         openMs := seq(|s.open|, i requires 0 <= i < |s.open| =>
                     s.ledger.openMs[i] + if s.open[i] then ms * c.factors[i] else 0)))
  }

  function Step(c: Settings, s: Readiness, ev: Event): (r: Readiness)
    requires Fits(c, s) && Enabled(s, ev)
    ensures Fits(c, r)
  {
    match ev
    case CompressorChanged(on) => CompressorEvent(c, s.(compressorOn := on))
    case DoorChanged(i, isOpen) => DoorEvent(c, s.(open := s.open[i := isOpen]), i)
    case AhamChanged(use) => if use then AhamEvent(c, s.(aham := true)) else s.(aham := false)
    case WaitingChanged(waiting) => WaitingEvent(c, s, waiting)
    case ConditionsChanged(conditions) => s.(conditions := conditions)
    case Elapse(ms) => PassTime(c, s, ms)
    case TimerExpires => ExpiryEvent(c, s.(armed := None), s.armed.value.kind)
  }

  // ---------------------------------------------------------------- start-up

  /** What start-up finds: the records restored from EEPROM and the present inputs. */
  datatype Found = Found(comp: nat, accel: seq<nat>, compressorOn: bool, open: seq<bool>, aham: bool,
                         conditions: Conditions, waiting: bool)

  predicate Startable(c: Settings, f: Found) { |f.accel| == |f.open| == |c.factors| }

  /** The time that restored records stand for is taken at face value. */
  function Restored(f: Found): Readiness {
    Readiness(ReadyAndDefrosting, false, f.comp, f.accel, 0, 0, None, 0, f.compressorOn, f.open, f.aham, f.conditions,
              Ledger(f.comp * MSEC_PER_SEC,
                     seq(|f.accel|, i requires 0 <= i < |f.accel| => f.accel[i] * MSEC_PER_SEC), 0, Zeros(|f.accel|)))
  }

  function PowerUp(c: Settings, f: Found): (r: Readiness)
    requires Startable(c, f)
    ensures Fits(c, r)
  {
    var s := if f.conditions.tooWarm then Reset(Restored(f)) else Restored(f);
    if !f.waiting then s
    else if s.comp < c.minMinutes * SECONDS_PER_MINUTE then EnterMinimum(c, s)
    else EnterRemaining(c, s)
  }
}
