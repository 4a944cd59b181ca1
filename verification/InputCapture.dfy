/**
 DataSource_InputCapture in the form of the original: an array of channel records written by the
 capture interrupts and by a poll that loops over the channels. The interrupts are the environment: a
 burst of them may come before every single access of the poll.
 */
module InputCapture {
  import opened InputCaptureModel

  /** A capture on a channel, some ticks after the previous interrupt. */
  datatype Interrupt = Interrupt(channel: nat, delay: nat)

  class DataSourceInputCapture {
    const feedbackData: array<Channel>
    var now: nat                          // the free-running clock, of which a capture reads the low sixteen bits
    var coming: seq<seq<Interrupt>>       // one burst for each access of the poll to come
    ghost var history: seq<seq<Event>>    // per channel

    /** Every channel is where a possible run of its own has brought it. */
    ghost predicate Valid()
      reads this, feedbackData
    {
      |history| == feedbackData.Length &&
      (forall burst, x :: burst in coming && x in burst ==> x.channel < feedbackData.Length) &&
      forall i :: 0 <= i < feedbackData.Length ==>
        Possible(START, history[i]) && feedbackData[i] == Run(START, history[i]) &&
        (feedbackData[i].captures != [] ==> feedbackData[i].captures[|feedbackData[i].captures| - 1] <= now)
    }

    constructor (channels: nat)
      ensures Valid() && fresh(feedbackData) && feedbackData.Length == channels && coming == []
      ensures forall i :: 0 <= i < channels ==> feedbackData[i] == InputCaptureModel.START
    {
      feedbackData := new Channel[channels](i => InputCaptureModel.START);
      now, coming := 0, [];
      history := seq(channels, i => []);
    }

    method InputCaptureCompareMatch(channel: nat, tick: nat)
      requires Valid() && channel < feedbackData.Length && now <= tick
      modifies feedbackData, this`now, this`history
      ensures Valid() && now == tick
      ensures feedbackData[..] == old(feedbackData[..])[channel := CompareMatch(old(feedbackData[channel]), tick)]
      ensures feedbackData[channel].dataReady <==>
              old(feedbackData[channel]).dataReady || old(feedbackData[channel]).captures != []
      ensures history == old(history)[channel := old(history[channel]) + [Capture(tick)]]
    {
      RunGoesOn(START, history[channel], Capture(tick));
      CaptureFillsMailbox(history[channel], tick);
      hide Run, Possible;
      var d := feedbackData[channel];
      var currentCounts := tick % WRAP;
      var feedbackCounts := CalculateFeedbackCounts(d.previousCaptureCounts, currentCounts, d.overflows);
      d := d.(previousCaptureCounts := currentCounts);
      d := d.(overflows := if d.pendingOverflow then 1 else 0);
      d := d.(pendingOverflow := false, captures := d.captures + [tick]);
      if d.firstCaptureCompleted {
        if !d.dataReady {
          d := d.(feedbackCounts := feedbackCounts, dataReady := true, boxed := |d.captures| - 1);
        }
      } else {
        d := d.(firstCaptureCompleted := true);
      }
      feedbackData[channel] := d;
      now := tick;
      history := history[channel := history[channel] + [Capture(tick)]];
    }

    /** The burst of interrupts before an access. */
    method Interrupts()
      requires Valid()
      modifies feedbackData, this`now, this`coming, this`history
      ensures Valid() && coming == if old(coming) == [] then [] else old(coming)[1..]
      ensures forall i :: 0 <= i < feedbackData.Length ==> Meanwhile(old(feedbackData[i]), feedbackData[i])
      ensures old(coming) == [] ==> feedbackData[..] == old(feedbackData[..])
    {
      if coming != [] {
        var burst := coming[0];
        coming := coming[1..];
        for k := 0 to |burst|
          invariant Valid() && coming == old(coming)[1..]
          invariant forall i :: 0 <= i < feedbackData.Length ==> Meanwhile(old(feedbackData[i]), feedbackData[i])
        {
          assert burst in old(coming) && burst[k] in burst;
          InputCaptureCompareMatch(burst[k].channel, now + burst[k].delay);
        }
      }
    }

    /** One access of the poll, after the interrupts that come before it. */
    method Store(channel: nat, d: Channel)
      requires Valid() && channel < feedbackData.Length && d == Access(feedbackData[channel])
      modifies feedbackData, this`history
      ensures Valid() && feedbackData[..] == old(feedbackData[..])[channel := d]
      ensures history == old(history)[channel := old(history[channel]) + [PollAccess]]
    {
      RunGoesOn(START, history[channel], PollAccess);
      AccessTakesNoCapture(feedbackData[channel]);
      hide Run, Possible, Access;
      feedbackData[channel] := d;
      history := history[channel := history[channel] + [PollAccess]];
    }

    /** The loop body for a mailbox found full: first the value is read and fed to the filter. */
    method FeedFeedback(channel: nat)
      requires Valid() && channel < feedbackData.Length
      requires feedbackData[channel].phase == Resting && feedbackData[channel].dataReady
      modifies feedbackData, this`now, this`coming, this`history
      ensures Valid() && feedbackData[channel].phase == HasFed
      ensures var was, ch := old(feedbackData[channel]), feedbackData[channel];
              ch.polls == was.polls + 1 && ch.filter == was.filter + [Fed(was.feedbackCounts, was.boxed)]
      ensures forall i :: 0 <= i < feedbackData.Length && i != channel ==>
                Meanwhile(old(feedbackData[i]), feedbackData[i])
      ensures old(coming) == [] ==>
                coming == [] &&
                feedbackData[..] == old(feedbackData[..])[channel := Access(Access(Access(old(feedbackData[channel]))))]
    {
      hide Valid;
      Store(channel, feedbackData[channel].(phase := SawReady, polls := feedbackData[channel].polls + 1));
      Interrupts();
      var feedbackCounts := feedbackData[channel].feedbackCounts;
      Store(channel, feedbackData[channel].(phase := Took(feedbackCounts)));
      Interrupts();
      var d := feedbackData[channel];
      Store(channel, d.(phase := HasFed, filter := d.filter + [Fed(feedbackCounts, d.boxed)]));
    }

    /** Then the mailbox and the count of empty polls are cleared. */
    method TakeFeedback(channel: nat)
      requires Valid() && channel < feedbackData.Length
      requires feedbackData[channel].phase == Resting && feedbackData[channel].dataReady
      modifies feedbackData, this`now, this`coming, this`history
      ensures Valid() && PolledOnce(old(feedbackData[channel]), feedbackData[channel])
      ensures forall i :: 0 <= i < feedbackData.Length && i != channel ==>
                Meanwhile(old(feedbackData[i]), feedbackData[i])
      ensures old(coming) == [] ==>
                coming == [] && feedbackData[..] == old(feedbackData[..])[channel := Poll(old(feedbackData[channel]))]
    {
      hide Valid;
      FeedFeedback(channel);
      Interrupts();
      Store(channel, feedbackData[channel].(phase := Cleared, dataReady := false));
      Interrupts();
      Store(channel, feedbackData[channel].(phase := Resting, pollCountWithoutCaptures := 0, emptyPolls := 0));
    }

    /** The loop body for a mailbox found empty. */
    method CountEmptyPoll(channel: nat)
      requires Valid() && channel < feedbackData.Length
      requires feedbackData[channel].phase == Resting && !feedbackData[channel].dataReady
      modifies feedbackData, this`history
      ensures Valid()
      ensures feedbackData[..] == old(feedbackData[..])[channel := Poll(old(feedbackData[channel]))]
    {
      var d := feedbackData[channel];
      var polls: int := d.pollCountWithoutCaptures;
      polls := if polls + 1 > 255 then 255 else polls + 1;
      d := d.(pollCountWithoutCaptures := polls, emptyPolls := d.emptyPolls + 1, polls := d.polls + 1);
      if polls > POLLS_TO_OFF {
        d := d.(filter := d.filter + [SeededOff]);
      }
      Store(channel, d);
    }

    method PollInputCapture()
      requires Valid() && forall i :: 0 <= i < feedbackData.Length ==> feedbackData[i].phase == Resting
      modifies feedbackData, this`now, this`coming, this`history
      ensures Valid()
      ensures forall i :: 0 <= i < feedbackData.Length ==> PolledOnce(old(feedbackData[i]), feedbackData[i])
      ensures old(coming) == [] ==>
                forall i :: 0 <= i < feedbackData.Length ==>
                  old(feedbackData[i]).phase == Resting && feedbackData[i] == Poll(old(feedbackData[i]))
    {
      hide Valid;
      for channel := 0 to feedbackData.Length
        invariant Valid() && (old(coming) == [] ==> coming == [])
        invariant forall i :: 0 <= i < channel ==> PolledOnce(old(feedbackData[i]), feedbackData[i])
        invariant forall i :: channel <= i < feedbackData.Length ==> Meanwhile(old(feedbackData[i]), feedbackData[i])
        invariant old(coming) == [] ==>
                    (forall i :: 0 <= i < channel ==> feedbackData[i] == Poll(old(feedbackData[i]))) &&
                    forall i :: channel <= i < feedbackData.Length ==> feedbackData[i] == old(feedbackData[i])
      {
        Interrupts();
        if feedbackData[channel].dataReady {
          TakeFeedback(channel);
        } else {
          CountEmptyPoll(channel);
        }
      }
    }

    /** So at any time, whatever interrupted whatever, a value fed to a channel's filter is the interval between two
        consecutive captures of that channel, modulo the counter's range. */
    lemma FedValueIsAnInterval(channel: nat, k: nat)
      requires Valid() && channel < feedbackData.Length
      requires k < |feedbackData[channel].filter| && feedbackData[channel].filter[k].Fed?
      ensures var ch := feedbackData[channel];
              var e := ch.filter[k];
              1 <= e.index < |ch.captures| && ch.captures[e.index - 1] <= ch.captures[e.index] &&
              e.counts == (ch.captures[e.index] - ch.captures[e.index - 1]) % WRAP
    {
      FedValuesAreIntervals(history[channel], k);
    }
  }
}
