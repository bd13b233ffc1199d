/** The playout schedule: local delivery time against media time. */
module JitterPlayout {
  import opened Common
  import opened Rtp
  import opened ModArith
  import opened Jitter
  import opened JitterSafety

  /** Local schedule minus media timestamp of the last frame delivered. */
  function Offset(b: Buffer): int {
    b.lastDeliver - b.lastCompleted
  }

  predicate SameTimes(a: Buffer, b: Buffer) {
    a.lastDeliver == b.lastDeliver && a.lastCompleted == b.lastCompleted
  }

  lemma AddKeepsTimes(b: Buffer, p: RtpPacket)
    requires b.Shaped()
    ensures SameTimes(b, Add(b, p))
  {
  }

  /** A frame that survives the deadline loop passed its check at the last reading. */
  lemma {:induction false} PrepareKeepsTimes(b: Buffer, clock: Clock, k: nat)
    requires b.Shaped()
    ensures var r := Prepare(b, clock, k);
      && SameTimes(b, r.buffer)
      && (r.ts.Some? ==> r.readings > 0 && ValidPlayoutTime(b, r.ts.value, clock(r.readings - 1)))
    decreases Occupied(b.slots)
  {
    hide Resync, ValidPlayoutTime;
    if b.slots[b.readIdx].Some? && !ValidPlayoutTime(b, b.slots[b.readIdx].value.timestamp, clock(k)) {
      ResyncShrinks(b);
      ResyncKeepsTimes(b);
      var next := Resync(b);
      if next.writeSeq.Some? && next.readSeq.Some? {
        PrepareKeepsTimes(next, clock, k + 1);
        SameDeadline(b, next, clock, k + 1);
      }
    }
  }

  lemma ResyncKeepsTimes(b: Buffer)
    requires b.Shaped()
    ensures SameTimes(b, Resync(b))
  {
  }

  /** The playout check depends on the two times alone. */
  lemma SameDeadline(b: Buffer, c: Buffer, clock: Clock, k: nat)
    requires SameTimes(b, c) && c.Shaped()
    ensures var r := Prepare(c, clock, k);
      r.ts.Some? && r.readings > 0 ==>
        var now := clock(r.readings - 1);
        ValidPlayoutTime(c, r.ts.value, now) <==> ValidPlayoutTime(b, r.ts.value, now)
  {
    hide Prepare;
  }

  /** A collected frame ends in a packet of the timestamp it was collected for. */
  lemma {:induction false} CollectedStamp(slots: Slots, idx: nat, ts: u128, data: seq<u8>, count: nat, n: nat)
    requires idx < |slots|
    ensures var r := Collect(slots, idx, ts, data, count, n); r.Some? ==> r.value.last.timestamp == ts
    decreases n
  {
    if Collect(slots, idx, ts, data, count, n).Some? && slots[idx].value.marker != 1 {
      CollectedStamp(slots, Next(idx, |slots|), ts, data + slots[idx].value.payload, count + 1, n - 1);
    }
  }

  /**
   * A delivery is of the frame at the prepared read slot. The first one sets the schedule to the reading
   * after the deadline loop; a later one moves it by the stamp's advance, and the last reading of the
   * deadline loop was within the deadline.
   */
  lemma DeliveryTimes(b: Buffer, clock: Clock)
    requires b.Shaped()
    ensures var (r, prep) := (Pop(b, clock), Prepare(b, clock, 0));
      if r.frame.None? then SameTimes(b, r.buffer)
      else
        && prep.ts == Some(r.buffer.lastCompleted) && prep.readings > 0
        && r.buffer.lastDeliver == Schedule(b.lastDeliver, b.lastCompleted, prep.ts.value, clock(prep.readings))
        && (b.lastDeliver != 0 ==> clock(prep.readings - 1) <= Deadline(b, prep.ts.value))
  {
    hide Prepare, Collect, Advance, Synchronize, Schedule, ValidPlayoutTime, Deadline;
    PrepareKeepsTimes(b, clock, 0);
    var prep := Prepare(b, clock, 0);
    var ready := prep.buffer;
    if prep.ts.Some? {
      CollectedStamp(ready.slots, ready.readIdx, prep.ts.value, [], 0, |ready.slots|);
      var found := Collect(ready.slots, ready.readIdx, prep.ts.value, [], 0, |ready.slots|);
      if found.Some? {
        AdvanceKeepsTimes(ready, found.value.endIdx);
        Synchronized(b, Advance(ready, found.value.endIdx), prep.ts.value, clock(prep.readings));
      }
      CheckPassed(b, prep.ts.value, clock(prep.readings - 1));
    }
  }

  lemma Synchronized(b: Buffer, c: Buffer, ts: u128, now: u128)
    requires SameTimes(b, c)
    ensures var r := Synchronize(c, ts, now);
      && r.lastDeliver == Schedule(b.lastDeliver, b.lastCompleted, ts, now)
      && r.lastCompleted == b.lastCompleted && r.slots == c.slots
  {
  }

  lemma CheckPassed(b: Buffer, ts: u128, now: u128)
    requires ValidPlayoutTime(b, ts, now)
    ensures b.lastDeliver != 0 ==> now <= Deadline(b, ts)
  {
  }

  lemma AdvanceKeepsTimes(b: Buffer, target: nat)
    requires b.Shaped() && target < |b.slots|
    ensures SameTimes(b, Advance(b, target))
  {
  }

  /** Whether the schedule of a frame stamped `ts`, with its tolerance, fits in 128 bits. */
  predicate Representable(b: Buffer, ts: u128) {
    b.lastDeliver + SaturatingSub(ts, b.lastCompleted) + TOLERANCE_MILLIS < TWO_128
  }

  /** A delivery keeps the offset exactly when the stamp at the prepared read slot does not go back. */
  lemma DriftExact(b: Buffer, clock: Clock)
    requires b.Shaped() && b.lastDeliver != 0 && Pop(b, clock).frame.Some?
    requires Prepare(b, clock, 0).ts.Some? ==> Representable(b, Prepare(b, clock, 0).ts.value)
    ensures var ts := Prepare(b, clock, 0).ts;
      ts.Some? && (Offset(Pop(b, clock).buffer) == Offset(b) <==> ts.value >= b.lastCompleted)
  {
    hide Pop, Prepare;
    DeliveryTimes(b, clock);
  }

  /** The frame about to be played, by its stamp, if a pop finds one. */
  function Due(b: Buffer, clock: Clock): Option<u128>
    requires b.Shaped()
  {
    Prepare(b, clock, 0).ts
  }

  /** The schedules of all deliveries of a run fit in 128 bits. */
  predicate AllRepresentable(b: Buffer, es: seq<Event>)
    requires b.Shaped()
    decreases es
  {
    es == [] ||
    var r := Step(b, es[0]);
    && (r.frame.Some? && es[0].Ask? && Due(b, es[0].clock).Some? ==> Representable(b, Due(b, es[0].clock).value))
    && AllRepresentable(r.buffer, es[1..])
  }

  /** Along the run, the stamps of delivered frames never go back. */
  predicate Forward(b: Buffer, es: seq<Event>)
    requires b.Shaped()
    decreases es
  {
    es == [] ||
    var r := Step(b, es[0]);
    && (r.frame.Some? && es[0].Ask? ==>
          Due(b, es[0].clock).Some? && Due(b, es[0].clock).value >= b.lastCompleted)
    && Forward(r.buffer, es[1..])
  }

  /** The frame's place is its stamp plus `offset`, and its own check read the clock no later than 120 ms after. */
  predicate InPlace(b: Buffer, clock: Clock, offset: int)
    requires b.Shaped()
  {
    var (r, prep) := (Pop(b, clock).buffer, Prepare(b, clock, 0));
    && r.lastDeliver == r.lastCompleted + offset
    && prep.readings > 0 && clock(prep.readings - 1) <= r.lastDeliver + TOLERANCE_MILLIS
  }

  /** Every frame delivered along the run is in its place. */
  predicate OnSchedule(b: Buffer, es: seq<Event>, offset: int)
    requires b.Shaped()
    decreases es
  {
    es == [] ||
    var r := Step(b, es[0]);
    && (r.frame.Some? && es[0].Ask? ==> InPlace(b, es[0].clock, offset))
    && OnSchedule(r.buffer, es[1..], offset)
  }

  /** One delivery is in place exactly when its stamp does not go back. */
  lemma InPlaceExact(b: Buffer, clock: Clock)
    requires b.Shaped() && b.lastDeliver != 0 && Pop(b, clock).frame.Some?
    requires Due(b, clock).Some? ==> Representable(b, Due(b, clock).value)
    ensures Due(b, clock).Some? && Pop(b, clock).buffer.lastDeliver != 0
    ensures InPlace(b, clock, Offset(b)) <==> Due(b, clock).value >= b.lastCompleted
    ensures InPlace(b, clock, Offset(b)) ==> Offset(Pop(b, clock).buffer) == Offset(b)
  {
    hide Pop, Prepare;
    DeliveryTimes(b, clock);
    DriftExact(b, clock);
  }

  /**
   * Playout does not drift: over a whole run every delivered frame is in its place, by the offset the
   * first delivery set, exactly when the stamps of delivered frames never go back.
   */
  lemma {:induction false} PlayoutDoesNotDrift(b: Buffer, es: seq<Event>)
    requires b.Shaped() && b.lastDeliver != 0 && AllRepresentable(b, es)
    ensures OnSchedule(b, es, Offset(b)) <==> Forward(b, es)
    ensures Forward(b, es) ==> Offset(Run(b, es)) == Offset(b)
    decreases es
  {
    hide Pop, Add, InPlace, Due, Representable;
    if es != [] {
      var next := Step(b, es[0]).buffer;
      match es[0] {
        case Arrive(p) =>
          AddKeepsTimes(b, p);
          PlayoutDoesNotDrift(next, es[1..]);
        case Ask(clock) =>
          DeliveryTimes(b, clock);
          if Pop(b, clock).frame.Some? {
            InPlaceExact(b, clock);
          }
          PlayoutDoesNotDrift(next, es[1..]);
      }
    }
  }
}
