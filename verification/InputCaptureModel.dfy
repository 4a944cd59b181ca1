/**
 Input capture: the arithmetic that turns two captured 16-bit counts into an interval, and one
 channel's mailbox between the capture interrupt and the poll, which the interrupt may interrupt
 between any two of its accesses.
 */
module InputCaptureModel {
  import opened Units

  const WRAP := 0x1_0000
  const POLLS_TO_OFF := 30

  // ---------------------------------------------------------------- the interval arithmetic

  function CalculateFeedbackCounts(previousCounts: uint16, currentCounts: uint16, overflows: uint8): (counts: nat)
    ensures counts < 0x1_0000_0000
    ensures counts % WRAP == (currentCounts - previousCounts) % WRAP
  {
    var effective := if currentCounts < previousCounts && overflows > 0 then overflows - 1 else overflows;
    WRAP * effective + (currentCounts - previousCounts) % WRAP
  }

  /** How often a 16-bit counter wraps between two ticks of an unbounded clock. */
  function Wraps(from: nat, to: nat): int { to / WRAP - from / WRAP }

  lemma Residue(x: int, k: int, r: int)
    requires x == WRAP * k + r && 0 <= r < WRAP
    ensures x % WRAP == r
  {}

  /** The interval is exact when the wraps given are the true ones, and for one wrap that was not counted; otherwise it
      is wrong. */
  lemma FeedbackCountsAreExactly(from: nat, to: nat, overflows: uint8)
    requires from <= to
    ensures var previous, current := from % WRAP, to % WRAP;
            CalculateFeedbackCounts(previous, current, overflows) == to - from <==>
              overflows == Wraps(from, to) || (overflows == 0 && Wraps(from, to) == 1 && current < previous)
  {
    var previous, current, wraps := from % WRAP, to % WRAP, Wraps(from, to);
    assert to - from == WRAP * wraps + (current - previous);
    if current < previous {
      Residue(current - previous, -1, current - previous + WRAP);
    } else {
      Residue(current - previous, 0, current - previous);
    }
  }

  // ---------------------------------------------------------------- one channel

  /** Where the poll of a channel stands: each phase ends with one access to shared or private data. */
  datatype PollPhase = Resting | SawReady | Took(counts: nat) | HasFed | Cleared

  /** What the filter was given; from and to are the captures a fed value comes from. */
  datatype Entry = Fed(counts: nat, index: nat) | SeededOff

  datatype Channel = Channel(
    previousCaptureCounts: uint16, overflows: uint8, firstCaptureCompleted: bool, pendingOverflow: bool,
    dataReady: bool, feedbackCounts: nat,
    pollCountWithoutCaptures: uint8, phase: PollPhase,
    filter: seq<Entry>,        // history of the filter
    captures: seq<nat>,        // history: the true tick of every capture
    boxed: nat,                // history: which capture the mailbox holds
    emptyPolls: nat,           // history: empty polls since the last one that found data
    polls: nat)                // history: polls begun

  const START := Channel(0, 0, false, false, false, 0, 0, Resting, [SeededOff], [], 0, 0, 0)

  datatype Event = Capture(tick: nat) | PollAccess

  predicate Enabled(ch: Channel, ev: Event) {
    ev.Capture? && ch.captures != [] ==> ch.captures[|ch.captures| - 1] <= ev.tick
  }

  /** The interrupt at a true tick. */
  function CompareMatch(ch: Channel, tick: nat): Channel {
    var current := tick % WRAP;
    var counts := CalculateFeedbackCounts(ch.previousCaptureCounts, current, ch.overflows);
    var c1 := ch.(previousCaptureCounts := current, overflows := if ch.pendingOverflow then 1 else 0,
                  pendingOverflow := false, captures := ch.captures + [tick]);
    if !ch.firstCaptureCompleted then c1.(firstCaptureCompleted := true)
    else if ch.dataReady then c1
    else c1.(feedbackCounts := counts, dataReady := true, boxed := |ch.captures|)
  }

  function PollEmpty(ch: Channel): Channel {
    var polls := if ch.pollCountWithoutCaptures < 255 then ch.pollCountWithoutCaptures + 1 else 255;
    ch.(pollCountWithoutCaptures := polls, emptyPolls := ch.emptyPolls + 1, polls := ch.polls + 1,
        filter := if polls > POLLS_TO_OFF then ch.filter + [SeededOff] else ch.filter)
  }

  function Access(ch: Channel): Channel {
    match ch.phase
    case Resting => if ch.dataReady then ch.(phase := SawReady, polls := ch.polls + 1) else PollEmpty(ch)
    case SawReady => ch.(phase := Took(ch.feedbackCounts))
    case Took(counts) => ch.(phase := HasFed, filter := ch.filter + [Fed(counts, ch.boxed)])
    case HasFed => ch.(phase := Cleared, dataReady := false)
    case Cleared => ch.(phase := Resting, pollCountWithoutCaptures := 0, emptyPolls := 0)
  }

  function Step(ch: Channel, ev: Event): Channel {
    match ev
    case Capture(tick) => CompareMatch(ch, tick)
    case PollAccess => Access(ch)
  }

  /** The poll of a channel that no interrupt comes between. */
  function Poll(ch: Channel): Channel
    requires ch.phase == Resting
  {
    if ch.dataReady then
      ch.(filter := ch.filter + [Fed(ch.feedbackCounts, ch.boxed)], dataReady := false, pollCountWithoutCaptures := 0,
          emptyPolls := 0, polls := ch.polls + 1)
    else PollEmpty(ch)
  }

  lemma PollIsItsAccesses(ch: Channel)
    requires ch.phase == Resting
    ensures Poll(ch) == if ch.dataReady then Access(Access(Access(Access(Access(ch))))) else Access(ch)
  {}

  // ---------------------------------------------------------------- the invariant

  predicate Ordered(captures: seq<nat>) { forall i, j :: 0 <= i < j < |captures| ==> captures[i] <= captures[j] }

  /** The value is the interval between two consecutive captures, modulo the counter's range. */
  predicate IsInterval(captures: seq<nat>, counts: nat, k: nat) {
    1 <= k < |captures| && captures[k - 1] <= captures[k] && counts == (captures[k] - captures[k - 1]) % WRAP
  }

  predicate MailboxOk(ch: Channel) { ch.dataReady ==> IsInterval(ch.captures, ch.feedbackCounts, ch.boxed) }

  predicate PhaseOk(ch: Channel) {
    match ch.phase
    case Resting => true
    case SawReady => ch.dataReady
    case Took(counts) => ch.dataReady && counts == ch.feedbackCounts
    case HasFed => ch.dataReady
    case Cleared => true
  }

  predicate FilterOk(ch: Channel) {
    forall i :: 0 <= i < |ch.filter| && ch.filter[i].Fed? ==>
      IsInterval(ch.captures, ch.filter[i].counts, ch.filter[i].index)
  }

  /** Fed indices only grow, and stay below the mailbox's unless the poll has just fed it. */
  predicate FilterOrdered(ch: Channel) {
    (forall i, j :: 0 <= i < j < |ch.filter| && ch.filter[i].Fed? && ch.filter[j].Fed? ==>
       ch.filter[i].index < ch.filter[j].index) &&
    (ch.dataReady && ch.phase != HasFed ==>
       forall i :: 0 <= i < |ch.filter| && ch.filter[i].Fed? ==> ch.filter[i].index < ch.boxed)
  }

  predicate IsrOk(ch: Channel) {
    Ordered(ch.captures) && ch.overflows == 0 && !ch.pendingOverflow &&
    (ch.firstCaptureCompleted <==> ch.captures != []) &&
    (ch.captures != [] ==> ch.previousCaptureCounts == ch.captures[|ch.captures| - 1] % WRAP)
  }

  predicate Inv(ch: Channel) {
    IsrOk(ch) && MailboxOk(ch) && PhaseOk(ch) && FilterOk(ch) && FilterOrdered(ch) &&
    ch.pollCountWithoutCaptures == (if ch.emptyPolls < 255 then ch.emptyPolls else 255)
  }

  lemma IntervalOf(from: nat, to: nat)
    requires from <= to
    ensures CalculateFeedbackCounts(from % WRAP, to % WRAP, 0) == (to - from) % WRAP
  {
    var d := to % WRAP - from % WRAP;
    assert to - from == WRAP * Wraps(from, to) + d;
    if d < 0 {
      Residue(d, -1, d + WRAP);
      Residue(to - from, Wraps(from, to) - 1, d + WRAP);
    } else {
      Residue(d, 0, d);
      Residue(to - from, Wraps(from, to), d);
    }
  }

  lemma CaptureKeeps(ch: Channel, tick: nat)
    requires Inv(ch) && Enabled(ch, Capture(tick))
    ensures Inv(CompareMatch(ch, tick))
  {
    var r := CompareMatch(ch, tick);
    var n := |ch.captures|;
    assert forall k :: 0 <= k < n ==> r.captures[k] == ch.captures[k];
    assert Ordered(r.captures) by {
      forall i, j | 0 <= i < j < |r.captures| ensures r.captures[i] <= r.captures[j] {
        if j == n { assert ch.captures[i] <= ch.captures[n - 1]; }
      }
    }
    assert forall counts: nat, k: nat :: IsInterval(ch.captures, counts, k) ==> IsInterval(r.captures, counts, k);
    if n > 0 {
      IntervalOf(ch.captures[n - 1], tick);
    }
  }

  lemma AccessKeeps(ch: Channel)
    requires Inv(ch)
    ensures Inv(Access(ch))
  {
    var r := Access(ch);
    if ch.phase.Took? || ch.phase == Resting {
      forall i | 0 <= i < |r.filter| && r.filter[i].Fed?
        ensures IsInterval(r.captures, r.filter[i].counts, r.filter[i].index)
      {
        assert i < |ch.filter| ==> r.filter[i] == ch.filter[i];
      }
      forall i, j | 0 <= i < j < |r.filter| && r.filter[i].Fed? && r.filter[j].Fed?
        ensures r.filter[i].index < r.filter[j].index
      {
        assert r.filter[i] == ch.filter[i];
        assert j < |ch.filter| ==> r.filter[j] == ch.filter[j];
      }
    }
  }

  lemma StepKeeps(ch: Channel, ev: Event)
    requires Inv(ch) && Enabled(ch, ev)
    ensures Inv(Step(ch, ev))
  {
    match ev
    case Capture(tick) => CaptureKeeps(ch, tick);
    case PollAccess => AccessKeeps(ch);
  }

  // ---------------------------------------------------------------- runs

  predicate Possible(ch: Channel, evs: seq<Event>)
    decreases |evs|
  {
    evs != [] ==> Enabled(ch, evs[0]) && Possible(Step(ch, evs[0]), evs[1..])
  }

  function Run(ch: Channel, evs: seq<Event>): Channel
    decreases |evs|
  {
    if evs == [] then ch else Run(Step(ch, evs[0]), evs[1..])
  }

  lemma {:induction false} RunKeeps(ch: Channel, evs: seq<Event>)
    requires Inv(ch) && Possible(ch, evs)
    ensures Inv(Run(ch, evs))
    decreases |evs|
  {
    if evs != [] {
      StepKeeps(ch, evs[0]);
      RunKeeps(Step(ch, evs[0]), evs[1..]);
    }
  }

  lemma {:induction false} RunGoesOn(ch: Channel, evs: seq<Event>, ev: Event)
    requires Possible(ch, evs) && Enabled(Run(ch, evs), ev)
    ensures Possible(ch, evs + [ev]) && Run(ch, evs + [ev]) == Step(Run(ch, evs), ev)
    decreases |evs|
  {
    if evs == [] {
      assert [ev][1..] == [] && Possible(Step(ch, ev), []) && Run(Step(ch, ev), []) == Step(ch, ev);
      assert evs + [ev] == [ev] && Possible(ch, [ev]);
    } else {
      assert (evs + [ev])[1..] == evs[1..] + [ev];
      RunGoesOn(Step(ch, evs[0]), evs[1..], ev);
    }
  }

  /** What captures leave alone: all that the poll owns, and a full mailbox. */
  predicate Meanwhile(ch: Channel, r: Channel) {
    r.phase == ch.phase && r.polls == ch.polls && r.filter == ch.filter && r.emptyPolls == ch.emptyPolls &&
    r.pollCountWithoutCaptures == ch.pollCountWithoutCaptures && |r.captures| >= |ch.captures| &&
    (ch.dataReady ==> r.dataReady && r.feedbackCounts == ch.feedbackCounts && r.boxed == ch.boxed)
  }

  /** A channel has been polled exactly once, amid captures: a mailbox that was full is fed, and nothing else is. */
  predicate PolledOnce(ch: Channel, r: Channel) {
    ch.phase == r.phase == Resting && r.polls == ch.polls + 1 &&
    (ch.dataReady ==> r.filter == ch.filter + [Fed(ch.feedbackCounts, ch.boxed)] && r.emptyPolls == 0)
  }

  /** However interrupts and polls interleave, every value fed to the filter is the interval between a capture and the
      one just before it, exact when shorter than the counter's range; no capture is fed twice, and none out of
      order. */
  lemma FedValuesAreIntervals(evs: seq<Event>, i: nat)
    requires Possible(START, evs)
    requires i < |Run(START, evs).filter| && Run(START, evs).filter[i].Fed?
    ensures var ch := Run(START, evs);
            var e := ch.filter[i];
            1 <= e.index < |ch.captures| && ch.captures[e.index - 1] <= ch.captures[e.index] &&
            e.counts == (ch.captures[e.index] - ch.captures[e.index - 1]) % WRAP &&
            (ch.captures[e.index] - ch.captures[e.index - 1] < WRAP ==>
               e.counts == ch.captures[e.index] - ch.captures[e.index - 1]) &&
            forall j :: i < j < |ch.filter| && ch.filter[j].Fed? ==> e.index < ch.filter[j].index
  {
    RunKeeps(START, evs);
    var ch := Run(START, evs);
    assert IsInterval(ch.captures, ch.filter[i].counts, ch.filter[i].index);
  }

  /** An empty poll seeds the filter with the off value exactly when thirty or more empty polls came before it since
      data was last found; the saturating counter never loses count of that. */
  lemma SeedsExactlyWhenOff(evs: seq<Event>)
    requires Possible(START, evs) && Run(START, evs).phase == Resting && !Run(START, evs).dataReady
    ensures var ch := Run(START, evs);
            Access(ch).filter == if ch.emptyPolls >= POLLS_TO_OFF then ch.filter + [SeededOff] else ch.filter
  {
    RunKeeps(START, evs);
  }

  // ---------------------------------------------------------------- intervals arrive

  /** Exactly when the mailbox is full: every capture but a channel's first fills it, and only the end of a feed
      empties it. */
  lemma MailboxIsFullExactly(ch: Channel, ev: Event)
    requires Inv(ch)
    ensures Step(ch, ev).dataReady <==>
            if ev.Capture? then ch.dataReady || ch.captures != [] else ch.dataReady && ch.phase != HasFed
  {}

  lemma CaptureFillsMailbox(evs: seq<Event>, tick: nat)
    requires Possible(START, evs)
    ensures var ch := Run(START, evs);
            CompareMatch(ch, tick).dataReady <==> ch.dataReady || ch.captures != []
  {
    RunKeeps(START, evs);
  }

  lemma AccessTakesNoCapture(ch: Channel)
    ensures Access(ch).captures == ch.captures
  {}

  /** How many accesses of the poll a full mailbox is away from being fed. */
  function AccessesToFeed(ch: Channel): nat {
    match ch.phase
    case Resting => 3
    case SawReady => 2
    case Took(_) => 1
    case _ => 0
  }

  function CountAccesses(evs: seq<Event>): nat
    decreases |evs|
  {
    if evs == [] then 0 else (if evs[0].PollAccess? then 1 else 0) + CountAccesses(evs[1..])
  }

  /** The next entry of the filter is the value waiting in the mailbox. */
  lemma {:induction false} WaitingValueIsFed(ch: Channel, evs: seq<Event>)
    requires Inv(ch) && Possible(ch, evs) && ch.dataReady && AccessesToFeed(ch) > 0
    requires CountAccesses(evs) >= AccessesToFeed(ch)
    ensures ch.filter + [Fed(ch.feedbackCounts, ch.boxed)] <= Run(ch, evs).filter
    decreases |evs|
  {
    var next := Step(ch, evs[0]);
    StepKeeps(ch, evs[0]);
    if AccessesToFeed(next) == 0 {
      FilterOnlyGrows(next, evs[1..]);
    } else {
      assert next.filter == ch.filter;
      WaitingValueIsFed(next, evs[1..]);
    }
  }

  lemma {:induction false} FilterOnlyGrows(ch: Channel, evs: seq<Event>)
    requires Possible(ch, evs)
    ensures ch.filter <= Run(ch, evs).filter
    decreases |evs|
  {
    if evs != [] {
      assert ch.filter <= Step(ch, evs[0]).filter;
      FilterOnlyGrows(Step(ch, evs[0]), evs[1..]);
    }
  }

  /** Two captures on a channel that is not being polled, and a poll that captures may interrupt anywhere, feed the
      filter with the oldest interval that no earlier poll has taken. */
  lemma CapturedIntervalIsFed(before: seq<Event>, t1: nat, t2: nat, evs: seq<Event>)
    requires Possible(START, before) && Run(START, before).phase == Resting && t1 <= t2
    requires Enabled(Run(START, before), Capture(t1))
    requires var ch := CompareMatch(CompareMatch(Run(START, before), t1), t2);
             Possible(ch, evs) && CountAccesses(evs) >= 3
    ensures var was := Run(START, before);
            var r := Run(CompareMatch(CompareMatch(was, t1), t2), evs);
            |r.filter| > |was.filter| && was.filter <= r.filter && r.filter[|was.filter|].Fed? &&
            (!was.dataReady ==>
               r.filter[|was.filter|].counts ==
               (if was.captures == [] then t2 - t1 else t1 - was.captures[|was.captures| - 1]) % WRAP)
  {
    RunKeeps(START, before);
    var was := Run(START, before);
    CaptureKeeps(was, t1);
    var one := CompareMatch(was, t1);
    CaptureKeeps(one, t2);
    var two := CompareMatch(one, t2);
    WaitingValueIsFed(two, evs);
    if was.captures == [] { IntervalOf(t1, t2); } else { IntervalOf(was.captures[|was.captures| - 1], t1); }
    hide Possible, Run;
    assert two.filter == was.filter;
  }

  /** In particular without interruption: two captures and a poll feed the filter once. */
  lemma TwoCapturesAndAPollFeed(before: seq<Event>, t1: nat, t2: nat)
    requires Possible(START, before) && Run(START, before).phase == Resting && t1 <= t2
    requires Enabled(Run(START, before), Capture(t1))
    ensures var was := Run(START, before);
            var r := Poll(CompareMatch(CompareMatch(was, t1), t2));
            |r.filter| == |was.filter| + 1 && r.filter[|was.filter|].Fed? && !r.dataReady && r.emptyPolls == 0
  {
    RunKeeps(START, before);
  }
}
