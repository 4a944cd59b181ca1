/**
 The receive side of BufferedUart_Channel1 in the form of the original: an array filled by the DTC,
 a tail index, and the copying loop of Run. The DTC is the environment: it may write a burst of bytes
 before every iteration of the loop.
 */
module BufferedUart {
  import opened Units
  import opened DtcRingModel

  class BufferedUartChannel1 {
    const dtcReceiveBuffer: array<uint8>
    var dtcRingBufferTail: uint8
    var cral: uint8                     // low byte of the DTC's CRA, 50 down to 1
    ghost var inRun: bool
    ghost var left: nat
    ghost var chunk: seq<uint8>
    ghost var delivered: seq<uint8>
    ghost var stream: seq<uint8>
    ghost var read: nat
    ghost var snapshot: nat

    ghost function State(): Ring
      reads this, dtcReceiveBuffer
    {
      Ring(dtcReceiveBuffer[..], dtcRingBufferTail, cral, inRun, left, chunk, delivered, stream, read, snapshot)
    }

    ghost predicate Valid()
      reads this, dtcReceiveBuffer
    {
      dtcReceiveBuffer.Length == SIZE && RingOk(State())
    }

    constructor ()
      ensures Valid() && State() == START && fresh(dtcReceiveBuffer)
    {
      dtcReceiveBuffer := new uint8[SIZE](i => 0);
      dtcRingBufferTail := 0;
      cral := SIZE;
      inRun, left, chunk, delivered, stream, read, snapshot := false, 0, [], [], [], 0, 0;
      new;
      assert dtcReceiveBuffer[..] == EMPTY_BUFFER;
    }

    /** The DTC in repeat mode: it stores a byte, counts down, and starts over when its counter runs out. */
    method DtcReceives(b: uint8)
      requires Valid()
      modifies dtcReceiveBuffer, this`cral, this`stream
      ensures Valid() && State() == Receive(old(State()), b)
    {
      ReceiveKeeps(State(), b);
      dtcReceiveBuffer[SIZE - cral] := b;
      cral := if cral == 1 then SIZE else cral - 1;
      stream := stream + [b];
    }

    /** The environment's burst before an iteration. */
    method DtcReceivesBurst(bytes: seq<uint8>)
      requires Valid()
      modifies dtcReceiveBuffer, this`cral, this`stream
      ensures Valid() && State() == Arrive(old(State()), bytes)
    {
      ghost var r := State();
      assert bytes[0..] == bytes;
      for i := 0 to |bytes|
        invariant Valid() && Arrive(State(), bytes[i..]) == Arrive(r, bytes)
      {
        assert bytes[i..][0] == bytes[i] && bytes[i..][1..] == bytes[i + 1..];
        DtcReceives(bytes[i]);
      }
    }

    method DtcRingBufferGetCount() returns (count: nat)
      requires Valid()
      ensures count == Count(State()) == Unread(State()) % SIZE
      ensures count == Unread(State()) <==> Unread(State()) < SIZE
    {
      CountIsModular(State());
      var head := SIZE - cral;
      if head >= dtcRingBufferTail {
        return head - dtcRingBufferTail;
      } else {
        return SIZE - (dtcRingBufferTail - head);
      }
    }

    /** The body of the copying loop. */
    method CopyByte() returns (b: uint8)
      requires Valid() && inRun && left > 0
      modifies this`dtcRingBufferTail, this`left, this`chunk, this`read
      ensures Valid() && State() == Copy(old(State())) && chunk == old(chunk) + [b]
    {
      StepKeeps(State(), RunCopies);
      b := dtcReceiveBuffer[dtcRingBufferTail];
      dtcRingBufferTail := (dtcRingBufferTail + 1) % SIZE;
      left, chunk, read := left - 1, chunk + [b], read + 1;
    }

    ghost method BeginRun(count: nat)
      requires Valid() && !inRun && count == Count(State())
      modifies this`inRun, this`left, this`snapshot
      ensures Valid() && inRun && State() == Step(old(State()), RunCounts)
    {
      StepKeeps(State(), RunCounts);
      inRun, left, snapshot := true, count, |stream|;
    }

    ghost method EndRun()
      requires Valid() && inRun && left == 0
      modifies this`inRun, this`chunk, this`delivered
      ensures Valid() && State() == Publish(old(State()))
    {
      StepKeeps(State(), RunPublishes);
      inRun, delivered, chunk := false, delivered + chunk, [];
    }

    /** Returns the chunk that is published, empty when nothing is. */
    method Run(arrivals: seq<seq<uint8>>) returns (published: seq<uint8>)
      requires Valid() && !inRun
      modifies this, dtcReceiveBuffer
      ensures Valid() && !inRun && State() == RunAmid(old(State()), arrivals)
      ensures delivered == old(delivered) + published
    {
      hide RingOk, Arrive, Count, Unread, CopyAmid, Burst, LaterBursts;
      ghost var r := State();
      ChunkFits(r);
      var localData := new uint8[SIZE];
      var queueCount := DtcRingBufferGetCount();
      var index := 0;
      BeginRun(queueCount);
      ChunkFits(State());
      var bursts := arrivals;
      ghost var before := State();
      DtcReceivesBurst(Burst(bursts));
      while queueCount > 0 && index < SIZE
        invariant Valid() && inRun && queueCount == left && index == |chunk| && delivered == old(delivered)
        invariant index + left < SIZE && localData[..index] == chunk
        invariant RingOk(before) && before.running && State() == Arrive(before, Burst(bursts))
        invariant Publish(CopyAmid(before, bursts)) == RunAmid(r, arrivals)
        decreases queueCount
      {
        CopyingGoesOn(before, bursts);
        var b := CopyByte();
        queueCount := queueCount - 1;
        localData[index] := b;
        index := index + 1;
        before := State();
        bursts := LaterBursts(bursts);
        ChunkFits(State());
        DtcReceivesBurst(Burst(bursts));
      }
      CopyingEnds(before, bursts);
      published := localData[..index];
      EndRun();
    }
  }

  lemma CopyingGoesOn(r: Ring, arrivals: seq<seq<uint8>>)
    requires RingOk(r) && r.running && r.left > 0
    ensures var r1 := Arrive(r, Burst(arrivals));
            RingOk(Copy(r1)) && Copy(r1).running &&
            CopyAmid(r, arrivals) == CopyAmid(Copy(r1), LaterBursts(arrivals))
  {
    StepKeeps(Arrive(r, Burst(arrivals)), RunCopies);
    hide RingOk;
  }

  lemma CopyingEnds(r: Ring, arrivals: seq<seq<uint8>>)
    requires RingOk(r) && r.running && r.left == 0
    ensures CopyAmid(r, arrivals) == Arrive(r, Burst(arrivals))
  {
    hide RingOk;
  }

  lemma ChunkFits(r: Ring)
    requires RingOk(r)
    ensures |r.chunk| + r.left < SIZE && (!r.running ==> r.left == 0 && r.chunk == [])
  {}
}
