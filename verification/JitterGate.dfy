/** What the I-frame gate keeps out, after any reset (src/transport/jitter_buffer/jitter.rs). */
module JitterGate {
  import opened Common
  import opened Rtp
  import opened ModArith
  import opened Jitter
  import opened JitterSafety
  import opened JitterResync

  /** No slot holds a packet of an I-frame. */
  predicate NoIFrame(slots: Slots) {
    forall i :: 0 <= i < |slots| && slots[i].Some? ==> !slots[i].value.isIFrame
  }

  /** A shut gate has no write number. */
  predicate GateUnset(b: Buffer) {
    b.iFrameNeeded ==> b.writeSeq.None?
  }

  lemma ResyncGate(b: Buffer)
    requires b.Shaped()
    ensures var r := Resync(b);
      && (r.readSeq.Some? ==> !r.iFrameNeeded) && (r.readSeq.None? ==> r.iFrameNeeded && r.writeSeq.None?)
      && (NoIFrame(b.slots) ==> r.iFrameNeeded)
  {
    if b.slots[b.readIdx].Some? {
      ResyncExact(b);
    }
  }

  lemma {:induction false} PrepareGate(b: Buffer, clock: Clock, k: nat)
    requires b.Shaped() && GateUnset(b)
    ensures var r := Prepare(b, clock, k).buffer;
      GateUnset(r) && (b.iFrameNeeded && NoIFrame(b.slots) ==> r.iFrameNeeded)
    decreases Occupied(b.slots)
  {
    if b.slots[b.readIdx].Some? && !ValidPlayoutTime(b, b.slots[b.readIdx].value.timestamp, clock(k)) {
      hide Resync;
      ResyncShrinks(b);
      ResyncGate(b);
      ResyncOnlyClears(b);
      if Resync(b).writeSeq.Some? && Resync(b).readSeq.Some? {
        PrepareGate(Resync(b), clock, k + 1);
      }
    }
  }

  lemma PopGate(b: Buffer, clock: Clock)
    requires b.Shaped() && GateUnset(b)
    ensures var r := Pop(b, clock).buffer;
      GateUnset(r) && (b.iFrameNeeded && NoIFrame(b.slots) ==> r.iFrameNeeded && OnlyClears(b.slots, r.slots))
  {
    hide Resync, Prepare, Collect, ClearTo, FindNext;
    PrepareGate(b, clock, 0);
    PrepareOnlyClears(b, clock, 0);
    PopOnlyClears(b, clock);
    var prep := Prepare(b, clock, 0);
    if prep.ts.Some? {
      LastCollected(prep.buffer.slots, prep.buffer.readIdx, prep.ts.value, [], 0, |prep.buffer.slots|);
    }
  }

  /** The packet that completes a frame is one of those held. */
  lemma {:induction false} LastCollected(slots: Slots, idx: nat, ts: u128, data: seq<u8>, count: nat, n: nat)
    requires idx < |slots|
    ensures var r := Collect(slots, idx, ts, data, count, n);
      r.Some? ==> exists i :: 0 <= i < |slots| && slots[i] == Some(r.value.last)
    decreases n
  {
    if n > 0 && slots[idx].Some? && slots[idx].value.timestamp == ts && slots[idx].value.marker != 1 {
      LastCollected(slots, Next(idx, |slots|), ts, data + slots[idx].value.payload, count + 1, n - 1);
    }
  }

  lemma AddGate(b: Buffer, p: RtpPacket)
    requires b.Shaped() && GateUnset(b)
    ensures GateUnset(Add(b, p))
  {
    hide Resync;
    ResyncGate(b.(writeIdx := p.sequenceNumber % |b.slots|, writeSeq := Some(p.sequenceNumber)));
  }

  lemma {:induction false} GateAlwaysUnset(b: Buffer, es: seq<Event>)
    requires b.Shaped() && GateUnset(b)
    ensures GateUnset(Run(b, es))
    decreases es
  {
    if es != [] {
      hide Add, Pop;
      match es[0] {
        case Arrive(p) => AddGate(b, p);
        case Ask(clock) => PopGate(b, clock);
      }
      GateAlwaysUnset(Step(b, es[0]).buffer, es[1..]);
    }
  }

  /** While the gate of a reachable buffer is shut, an arrival opens it exactly when it is an I-frame that is no
    * older than the last delivered frame and inside the window, and then playback starts at it. */
  lemma ShutGateArrival(n: nat, es: seq<Event>, p: RtpPacket)
    requires n > 0 && Run(Empty(n), es).iFrameNeeded
    ensures var (b, s) := (Run(Empty(n), es), p.sequenceNumber);
      if p.isIFrame && p.timestamp >= b.lastCompleted && ValidPacketSeqNum(b, s)
      then Add(b, p) == b.(slots := b.slots[s % n := Some(p)], readIdx := s % n, writeIdx := s % n,
                           readSeq := Some(s), writeSeq := Some(s), iFrameNeeded := false)
      else Add(b, p) == b
  {
    GateAlwaysUnset(Empty(n), es);
  }

  /** From any reset on, until an I-frame arrives: nothing is stored, and without a held I-frame the gate stays shut. */
  lemma {:induction false} GateStaysShut(b: Buffer, es: seq<Event>)
    requires b.Shaped() && GateUnset(b) && b.iFrameNeeded && NoIFrame(b.slots)
    requires forall i :: 0 <= i < |es| && es[i].Arrive? ==> !es[i].packet.isIFrame
    ensures Run(b, es).iFrameNeeded && OnlyClears(b.slots, Run(b, es).slots)
    decreases es
  {
    if es != [] {
      hide Pop;
      if es[0].Ask? {
        PopGate(b, es[0].clock);
      }
      GateStaysShut(Step(b, es[0]).buffer, es[1..]);
    }
  }

  /** A delivered I-frame opens the gate; the delivery of any other frame leaves it as the deadline loop did. */
  lemma DeliveryGate(b: Buffer, clock: Clock)
    requires b.Shaped()
    ensures var (r, ps) := (Pop(b, clock), Taken(b, clock));
      r.frame.Some? ==> ps != [] && (r.buffer.iFrameNeeded <==>
                                     !ps[|ps| - 1].isIFrame && Prepare(b, clock, 0).buffer.iFrameNeeded)
  {
    hide Prepare, Collect, Walked, Advance, Synchronize;
    var prep := Prepare(b, clock, 0);
    if prep.ts.Some? {
      var ready := prep.buffer;
      var c := Collect(ready.slots, ready.readIdx, prep.ts.value, [], 0, |ready.slots|);
      if c.Some? {
        WalkEndsAtLast(ready.slots, ready.readIdx, prep.ts.value, [], 0, |ready.slots|);
        DeliverGate(ready, c.value, clock(prep.readings));
      }
    }
  }

  lemma DeliverGate(b: Buffer, c: Collected, now: u128)
    requires b.Shaped() && c.endIdx < |b.slots|
    ensures Deliver(b, c, now).iFrameNeeded == (!c.last.isIFrame && b.iFrameNeeded)
  {
    hide ClearTo, FindNext;
  }

  lemma {:induction false} WalkEndsAtLast(slots: Slots, idx: nat, ts: u128, data: seq<u8>, count: nat, n: nat)
    requires idx < |slots| && Collect(slots, idx, ts, data, count, n).Some?
    ensures var last := Collect(slots, idx, ts, data, count, n).value.last;
      && last.totalChunks > count
      && var ps := Walked(slots, idx, last.totalChunks - count); ps != [] && ps[|ps| - 1] == last
    decreases n
  {
    CollectSpan(slots, idx, ts, data, count, n);
    if slots[idx].value.marker != 1 {
      WalkEndsAtLast(slots, Next(idx, |slots|), ts, data + slots[idx].value.payload, count + 1, n - 1);
    }
  }
}
