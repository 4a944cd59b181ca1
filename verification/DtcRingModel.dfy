/**
 The receive side of a buffered UART: the DTC hardware writes bytes into a ring at any time, and Run
 copies what it counts. Proved: while fewer bytes than the ring holds are unread, the chunks delivered
 are the byte stream itself, up to the last count.
 */
module DtcRingModel {
  import opened Units

  const SIZE := 50

  datatype Ring = Ring(
    buffer: seq<uint8>,       // dtcReceiveBuffer
    tail: nat,                // dtcRingBufferTail
    cral: nat,                // the DTC's transfer counter, reloaded with SIZE when it runs out
    running: bool,            // inside Run, between its count and its publication
    left: nat,                // queueCount
    chunk: seq<uint8>,        // localData up to index
    delivered: seq<uint8>,    // history: the chunks published so far, concatenated
    stream: seq<uint8>,       // history: every byte the DTC has written
    read: nat,                // history: how many bytes were copied
    snapshot: nat)            // history: how many bytes had been written when Run last counted

  const EMPTY_BUFFER: seq<uint8> := seq(SIZE, i => 0)

  const START := Ring(EMPTY_BUFFER, 0, SIZE, false, 0, [], [], [], 0, 0)

  datatype Event = ByteArrives(b: uint8) | RunCounts | RunCopies | RunPublishes

  function Head(r: Ring): int { SIZE - r.cral }

  function Count(r: Ring): int {
    if Head(r) >= r.tail then Head(r) - r.tail else SIZE - (r.tail - Head(r))
  }

  function Unread(r: Ring): int { |r.stream| - r.read }

  /** What is always true of the ring, full or not. */
  predicate RingOk(r: Ring) {
    |r.buffer| == SIZE && 1 <= r.cral <= SIZE && Head(r) == |r.stream| % SIZE && r.tail == r.read % SIZE &&
    r.read + r.left <= |r.stream| && |r.chunk| + r.left < SIZE && (!r.running ==> r.left == 0 && r.chunk == []) &&
    forall i :: 0 <= i < |r.stream| && |r.stream| - SIZE <= i ==> r.buffer[i % SIZE] == r.stream[i]
  }

  predicate Enabled(r: Ring, ev: Event) {
    match ev
    case ByteArrives(_) => true
    case RunCounts => !r.running
    case RunCopies => r.running && r.left > 0
    case RunPublishes => r.running && r.left == 0
  }

  function Receive(r: Ring, b: uint8): Ring
    requires RingOk(r)
  {
    r.(buffer := r.buffer[Head(r) := b], cral := if r.cral == 1 then SIZE else r.cral - 1, stream := r.stream + [b])
  }

  function Copy(r: Ring): Ring
    requires RingOk(r) && r.left > 0
  {
    r.(chunk := r.chunk + [r.buffer[r.tail]], tail := (r.tail + 1) % SIZE, left := r.left - 1, read := r.read + 1)
  }

  function Publish(r: Ring): Ring { r.(running := false, delivered := r.delivered + r.chunk, chunk := []) }

  function Step(r: Ring, ev: Event): Ring
    requires RingOk(r) && Enabled(r, ev)
  {
    match ev
    case ByteArrives(b) => Receive(r, b)
    case RunCounts => CountIsModular(r); r.(running := true, left := Count(r), snapshot := |r.stream|)
    case RunCopies => Copy(r)
    case RunPublishes => Publish(r)
  }

  // ---------------------------------------------------------------- arithmetic of the ring

  lemma ModStep(x: nat)
    ensures (x + 1) % SIZE == if x % SIZE == SIZE - 1 then 0 else x % SIZE + 1
  {}

  lemma SameSlot(i: nat, j: nat)
    requires i < j < i + SIZE
    ensures i % SIZE != j % SIZE
  {
    var laps := j / SIZE - i / SIZE;
    assert j - i == SIZE * laps + (j % SIZE - i % SIZE);
  }

  /** The count is the number of unread bytes modulo the size of the ring, so it is right exactly while fewer bytes than
      the ring holds are unread. */
  lemma CountIsModular(r: Ring)
    requires RingOk(r)
    ensures Unread(r) >= 0 && Count(r) == Unread(r) % SIZE && 0 <= Count(r) < SIZE
    ensures Count(r) == Unread(r) <==> Unread(r) < SIZE
  {
    var w, t := |r.stream|, r.read;
    assert w == SIZE * (w / SIZE) + w % SIZE && t == SIZE * (t / SIZE) + t % SIZE;
    var d := w / SIZE - t / SIZE;
    assert w - t == SIZE * d + (w % SIZE - t % SIZE);
  }

  // ---------------------------------------------------------------- every step

  lemma ReceiveKeeps(r: Ring, b: uint8)
    requires RingOk(r)
    ensures RingOk(Receive(r, b))
  {
    var s := Receive(r, b);
    ModStep(|r.stream|);
    forall i | 0 <= i < |s.stream| && |s.stream| - SIZE <= i ensures s.buffer[i % SIZE] == s.stream[i] {
      if i < |r.stream| {
        SameSlot(i, |r.stream|);
      }
    }
  }

  lemma StepKeeps(r: Ring, ev: Event)
    requires RingOk(r) && Enabled(r, ev)
    ensures RingOk(Step(r, ev))
  {
    match ev
    case ByteArrives(b) => ReceiveKeeps(r, b);
    case RunCounts =>
      CountIsModular(r);
      assert Unread(r) % SIZE <= Unread(r);
    case RunCopies => ModStep(r.read);
    case RunPublishes =>
  }

  /** Everything copied so far is the stream, and Run copies up to its own count. */
  predicate InOrder(r: Ring) {
    r.read + r.left == r.snapshot <= |r.stream| && r.delivered + r.chunk == r.stream[..r.read]
  }

  lemma CopyKeepsOrder(r: Ring)
    requires RingOk(r) && InOrder(r) && r.left > 0 && Unread(r) < SIZE
    ensures InOrder(Copy(r))
  {
    var s := Copy(r);
    assert r.buffer[r.tail] == r.stream[r.read];
    assert s.delivered + s.chunk == (r.delivered + r.chunk) + [r.stream[r.read]];
    assert r.stream[..r.read + 1] == r.stream[..r.read] + [r.stream[r.read]];
  }

  lemma StepKeepsOrder(r: Ring, ev: Event)
    requires RingOk(r) && InOrder(r) && Enabled(r, ev) && Unread(r) < SIZE
    ensures InOrder(Step(r, ev))
  {
    match ev
    case ByteArrives(b) =>
      assert (r.stream + [b])[..r.read] == r.stream[..r.read];
    case RunCounts => CountIsModular(r);
    case RunCopies => CopyKeepsOrder(r);
    case RunPublishes =>
      assert r.delivered + r.chunk + [] == r.delivered + r.chunk;
  }

  // ---------------------------------------------------------------- runs

  /** A run whose steps can happen, with bytes arriving at arbitrary points of it. */
  predicate Possible(r: Ring, evs: seq<Event>)
    requires RingOk(r)
    decreases |evs|
  {
    evs != [] ==> Enabled(r, evs[0]) && (StepKeeps(r, evs[0]); Possible(Step(r, evs[0]), evs[1..]))
  }

  function Run(r: Ring, evs: seq<Event>): Ring
    requires RingOk(r) && Possible(r, evs)
    decreases |evs|
  {
    if evs == [] then r
    else
      StepKeeps(r, evs[0]);
      Run(Step(r, evs[0]), evs[1..])
  }

  /** Fewer bytes than the ring holds are unread all along. */
  predicate NeverFull(r: Ring, evs: seq<Event>)
    requires RingOk(r) && Possible(r, evs)
    decreases |evs|
  {
    Unread(r) < SIZE && (evs != [] ==> (StepKeeps(r, evs[0]); NeverFull(Step(r, evs[0]), evs[1..])))
  }

  lemma {:induction false} RunKeepsOrder(r: Ring, evs: seq<Event>)
    requires RingOk(r) && InOrder(r) && Possible(r, evs) && NeverFull(r, evs)
    ensures RingOk(Run(r, evs)) && InOrder(Run(r, evs))
    decreases |evs|
  {
    if evs != [] {
      StepKeeps(r, evs[0]);
      StepKeepsOrder(r, evs[0]);
      RunKeepsOrder(Step(r, evs[0]), evs[1..]);
    }
  }

  /** If the ring is never full, then whenever Run is not under way the concatenation of all chunks is exactly the
      stream up to Run's last count: nothing is lost, repeated or reordered. */
  lemma DeliversTheStream(evs: seq<Event>)
    requires Possible(START, evs) && NeverFull(START, evs)
    ensures var r := Run(START, evs);
            r.snapshot <= |r.stream| &&
                (if r.running then r.delivered <= r.stream else r.delivered == r.stream[..r.snapshot])
  {
    RunKeepsOrder(START, evs);
    var r := Run(START, evs);
    if r.running {
      assert r.stream[..r.read][..|r.delivered|] == r.delivered;
    } else {
      assert r.delivered + r.chunk == r.delivered;
    }
  }

  /** And the condition is needed: a Run that counts a full ring leaves whole laps of the stream behind. */
  lemma FullRingLosesALap(r: Ring)
    requires RingOk(r) && !r.running && Unread(r) >= SIZE
    ensures var s := Step(r, RunCounts); s.snapshot - (s.read + s.left) >= SIZE
  {
    CountIsModular(r);
    assert Unread(r) == SIZE * (Unread(r) / SIZE) + Unread(r) % SIZE;
  }

  // ---------------------------------------------------------------- one call of Run

  function Arrive(r: Ring, bytes: seq<uint8>): (s: Ring)
    requires RingOk(r)
    ensures RingOk(s) && s == r.(buffer := s.buffer, cral := s.cral, stream := s.stream) && s.stream == r.stream + bytes
    decreases |bytes|
  {
    if bytes == [] then r
    else
      ReceiveKeeps(r, bytes[0]);
      var s := Arrive(Receive(r, bytes[0]), bytes[1..]);
      assert r.stream + bytes == (r.stream + [bytes[0]]) + bytes[1..];
      s
  }

  /** What arrives before the next copy; a burst for each copy, and nothing once the list is used up. */
  function Burst(arrivals: seq<seq<uint8>>): seq<uint8> { if arrivals == [] then [] else arrivals[0] }
  function LaterBursts(arrivals: seq<seq<uint8>>): seq<seq<uint8>> { if arrivals == [] then [] else arrivals[1..] }

  /** The copying loop with bursts of bytes arriving between its iterations, and one before publication. */
  function CopyAmid(r: Ring, arrivals: seq<seq<uint8>>): (s: Ring)
    requires RingOk(r) && r.running
    ensures RingOk(s) && s.running && s.left == 0
    decreases r.left
  {
    var r1 := Arrive(r, Burst(arrivals));
    if r1.left == 0 then r1
    else
      StepKeeps(r1, RunCopies);
      CopyAmid(Copy(r1), LaterBursts(arrivals))
  }

  function RunAmid(r: Ring, arrivals: seq<seq<uint8>>): (s: Ring)
    requires RingOk(r) && !r.running
    ensures RingOk(s) && !s.running
  {
    StepKeeps(r, RunCounts);
    var s := CopyAmid(Step(r, RunCounts), arrivals);
    StepKeeps(s, RunPublishes);
    Publish(s)
  }

  function Bytes(bytes: seq<uint8>): seq<Event> { seq(|bytes|, i requires 0 <= i < |bytes| => ByteArrives(bytes[i])) }

  lemma {:induction false} RunAppends(r: Ring, evs: seq<Event>, more: seq<Event>)
    requires RingOk(r) && Possible(r, evs)
    ensures RingOk(Run(r, evs))
    ensures Possible(Run(r, evs), more) ==> Possible(r, evs + more) && Run(r, evs + more) == Run(Run(r, evs), more)
    decreases |evs|
  {
    if evs == [] {
      assert evs + more == more;
    } else {
      StepKeeps(r, evs[0]);
      RunAppends(Step(r, evs[0]), evs[1..], more);
      assert (evs + more)[0] == evs[0] && (evs + more)[1..] == evs[1..] + more;
    }
  }

  lemma {:induction false} ArrivalIsARun(r: Ring, bytes: seq<uint8>)
    requires RingOk(r)
    ensures Possible(r, Bytes(bytes)) && Run(r, Bytes(bytes)) == Arrive(r, bytes)
    decreases |bytes|
  {
    if bytes != [] {
      ReceiveKeeps(r, bytes[0]);
      ArrivalIsARun(Receive(r, bytes[0]), bytes[1..]);
      assert Bytes(bytes)[0] == ByteArrives(bytes[0]) && Bytes(bytes)[1..] == Bytes(bytes[1..]);
    }
  }

  function CopyEvents(left: nat, arrivals: seq<seq<uint8>>): seq<Event>
    decreases left
  {
    Bytes(Burst(arrivals)) + if left == 0 then [] else [RunCopies] + CopyEvents(left - 1, LaterBursts(arrivals))
  }

  lemma {:induction false} CopyingIsARun(r: Ring, arrivals: seq<seq<uint8>>)
    requires RingOk(r) && r.running
    ensures Possible(r, CopyEvents(r.left, arrivals)) && Run(r, CopyEvents(r.left, arrivals)) == CopyAmid(r, arrivals)
    decreases r.left
  {
    hide Receive, Arrive, Bytes, Burst, LaterBursts, Publish;
    var r1 := Arrive(r, Burst(arrivals));
    ArrivalIsARun(r, Burst(arrivals));
    if r1.left > 0 {
      StepKeeps(r1, RunCopies);
      var r2 := Copy(r1);
      assert Step(r1, RunCopies) == r2 && r2.left == r.left - 1 && r2.running;
      var rest := CopyEvents(r.left - 1, LaterBursts(arrivals));
      CopyingIsARun(r2, LaterBursts(arrivals));
      hide RingOk, Copy;
      assert ([RunCopies] + rest)[0] == RunCopies && ([RunCopies] + rest)[1..] == rest;
      assert Possible(r1, [RunCopies] + rest) && Run(r1, [RunCopies] + rest) == Run(r2, rest);
      RunAppends(r, Bytes(Burst(arrivals)), [RunCopies] + rest);
    } else {
      assert Bytes(Burst(arrivals)) + [] == Bytes(Burst(arrivals));
    }
  }

  /** A call of Run amid arriving bytes is a run of the machine, so what holds of all runs holds of it. */
  lemma RunAmidIsARun(r: Ring, arrivals: seq<seq<uint8>>)
    requires RingOk(r) && !r.running
    ensures var evs := [RunCounts] + (CopyEvents(Count(r), arrivals) + [RunPublishes]);
            Possible(r, evs) && Run(r, evs) == RunAmid(r, arrivals)
  {
    CountIsModular(r);
    StepKeeps(r, RunCounts);
    var r1 := Step(r, RunCounts);
    var evs := CopyEvents(Count(r), arrivals);
    CopyingIsARun(r1, arrivals);
    var r2 := CopyAmid(r1, arrivals);
    StepKeeps(r2, RunPublishes);
    assert [RunPublishes][1..] == [];
    assert Possible(r2, [RunPublishes]) && Run(r2, [RunPublishes]) == Publish(r2);
    RunAppends(r1, evs, [RunPublishes]);
    assert ([RunCounts] + (evs + [RunPublishes]))[1..] == evs + [RunPublishes];
  }
}
