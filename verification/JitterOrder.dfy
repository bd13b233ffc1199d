/** When delivered timestamps never go back: arrivals that stay within one turn of the ring. */
module JitterOrder {
  import opened Common
  import opened Rtp
  import opened ModArith
  import opened Jitter
  import opened Sender
  import opened JitterSafety
  import opened JitterDelivery
  import opened JitterResync
  import opened JitterPlayout

  // ----- senders whose timestamps do not decrease

  predicate Rising(s: Stream) {
    && s.first + ChunkCount(s.frames) <= TWO_64
    && forall i, j :: 0 <= i <= j < |s.frames| ==> s.frames[i].timestamp <= s.frames[j].timestamp
  }

  lemma {:induction false} ChunkCountGrows(frames: seq<Frame>, i: nat, j: nat)
    requires i < j <= |frames|
    ensures ChunkCount(frames[..i]) + |frames[i].chunks| <= ChunkCount(frames[..j])
  {
    ChunkCountSplit(frames[..j], i);
    assert frames[..j][..i] == frames[..i] && frames[..j][i..][0] == frames[i];
  }

  /** Packets with greater numbers have no smaller timestamps. */
  lemma SentInOrder(s: Stream, p: RtpPacket, q: RtpPacket)
    requires Rising(s) && Sent(s, p) && Sent(s, q) && p.sequenceNumber <= q.sequenceNumber
    ensures p.timestamp <= q.timestamp
  {
    var i: nat, k: nat :| Carries(s, p, i, k);
    var j: nat, m: nat :| Carries(s, q, j, m);
    SeqOfChunk(s, i, k);
    SeqOfChunk(s, j, m);
    if j < i {
      ChunkCountGrows(s.frames, j, i);
    }
  }

  // ----- a tidy ring

  /** Each held packet is of the stream, in its slot, between the two numbers, and not older than the last delivery. */
  ghost predicate InSpan(s: Stream, b: Buffer, lo: nat, hi: nat) {
    forall i :: 0 <= i < |b.slots| && b.slots[i].Some? ==>
      var p := b.slots[i].value;
      && Sent(s, p) && p.sequenceNumber % |b.slots| == i && lo <= p.sequenceNumber <= hi
      && p.timestamp >= b.lastCompleted
  }

  ghost predicate Tidy(s: Stream, b: Buffer) {
    && b.Shaped() && |b.slots| >= TWO_8
    && if b.readSeq.None? then AllEmpty(b.slots)
       else
         && b.writeSeq.Some?
         && var (r, w) := (b.readSeq.value, b.writeSeq.value);
            && r <= w < r + |b.slots| && b.readIdx == r % |b.slots| && b.writeIdx == w % |b.slots|
            && b.slots[b.readIdx].Some? && b.slots[b.readIdx].value.sequenceNumber == r
            && InSpan(s, b, r, w)
  }

  /** The arrival keeps everything between the lowest and the highest number within a span of `d` numbers. */
  predicate Within(b: Buffer, p: RtpPacket, d: nat)
    requires b.Shaped()
  {
    !Discards(b, p) && b.readSeq.Some? && b.writeSeq.Some? ==>
      p.sequenceNumber < b.readSeq.value + d && b.writeSeq.value < p.sequenceNumber + d
  }

  lemma GapIsDistance(r: nat, q: nat, n: nat)
    requires r <= q < r + n
    ensures Distance(r % n, q % n, n) == q - r
  {
    PlaceOf(r, q - r, n);
  }

  /** In a tidy ring a slot is as far from the read slot as its number is from the read number. */
  lemma HeldAtDistance(s: Stream, b: Buffer, i: nat)
    requires Tidy(s, b) && i < |b.slots| && b.slots[i].Some?
    ensures b.readSeq.Some? && Distance(b.readIdx, i, |b.slots|) == b.slots[i].value.sequenceNumber - b.readSeq.value
    ensures Distance(b.readIdx, i, |b.slots|) <= Distance(b.readIdx, b.writeIdx, |b.slots|)
  {
    GapIsDistance(b.readSeq.value, b.slots[i].value.sequenceNumber, |b.slots|);
    GapIsDistance(b.readSeq.value, b.writeSeq.value, |b.slots|);
  }

  // ----- arrivals

  lemma StoreInSpan(s: Stream, b: Buffer, p: RtpPacket, lo: nat, hi: nat)
    requires b.slots != [] && Sent(s, p) && lo <= p.sequenceNumber <= hi && p.timestamp >= b.lastCompleted
    requires InSpan(s, b, lo, hi)
    ensures InSpan(s, Store(b, p.sequenceNumber % |b.slots|, p), lo, hi)
  {
    hide Sent;
  }

  lemma WiderSpan(s: Stream, b: Buffer, lo: nat, hi: nat, lo': nat, hi': nat)
    requires InSpan(s, b, lo, hi) && lo' <= lo && hi <= hi'
    ensures InSpan(s, b, lo', hi')
  {
    hide Sent;
  }

  lemma OtherSlot(r: nat, q: nat, n: nat)
    requires r < q < r + n
    ensures q % n != r % n
  {
    GapIsDistance(r, q, n);
  }

  lemma NoCollision(r: nat, w: nat, q: nat, n: nat)
    requires r <= w < q < r + n
    ensures !Collides(r % n, w % n, q % n)
  {
    GapIsDistance(r, w, n);
    GapIsDistance(r, q, n);
    CollidesIsOnArc(r % n, w % n, q % n, n);
  }

  lemma AddKeepsTidy(s: Stream, b: Buffer, p: RtpPacket)
    requires Tidy(s, b) && Sent(s, p) && Within(b, p, |b.slots|)
    ensures Tidy(s, Add(b, p))
  {
    hide Sent, Discards;
    if !Discards(b, p) {
      NotOld(b, p);
      var (q, n) := (p.sequenceNumber, |b.slots|);
      if b.readSeq.None? {
        StoreInSpan(s, b, p, q, q);
      } else {
        var (r, w) := (b.readSeq.value, b.writeSeq.value);
        WiderSpan(s, b, r, w, Min(r, q), Max(w, q));
        StoreInSpan(s, b, p, Min(r, q), Max(w, q));
        if q > w {
          NoCollision(r, w, q, n);
          OtherSlot(r, q, n);
        } else if q > r {
          OtherSlot(r, q, n);
        }
      }
    }
  }

  lemma NotOld(b: Buffer, p: RtpPacket)
    requires b.Shaped() && !Discards(b, p)
    ensures p.timestamp >= b.lastCompleted
  {
  }

  // ----- deadlines

  /** `c` is `b` read from the held slot `i` on, with the slots before it empty. */
  predicate ReadsFrom(b: Buffer, c: Buffer, i: nat)
    requires b.Shaped() && i < |b.slots|
  {
    && |c.slots| == |b.slots| && c.readIdx == i && c.writeIdx == b.writeIdx && c.writeSeq == b.writeSeq
    && b.slots[i].Some? && c.readSeq == Some(b.slots[i].value.sequenceNumber)
    && forall j :: 0 <= j < |b.slots| ==>
         && (c.slots[j] == b.slots[j] || c.slots[j] == None)
         && (Before(b.readIdx, j, i, |b.slots|) ==> c.slots[j] == None)
         && (j == i ==> c.slots[j] == b.slots[j])
  }

  lemma ReadingOnIsTidy(s: Stream, b: Buffer, c: Buffer, i: nat)
    requires Tidy(s, b) && i < |b.slots| && ReadsFrom(b, c, i)
    requires forall j :: 0 <= j < |c.slots| && c.slots[j].Some? ==> c.slots[j].value.timestamp >= c.lastCompleted
    ensures Tidy(s, c)
  {
    hide Sent, Distance;
    HeldAtDistance(s, b, i);
    var r' := c.readSeq.value;
    assert b.slots[i].value.sequenceNumber % |b.slots| == i;
    forall j | 0 <= j < |c.slots| && c.slots[j].Some?
      ensures b.slots[j] == c.slots[j] && r' <= c.slots[j].value.sequenceNumber
    {
      HeldAtDistance(s, b, j);
    }
    assert InSpan(s, c, r', b.writeSeq.value);
  }

  lemma ResyncKeepsTidy(s: Stream, b: Buffer)
    requires Tidy(s, b) && b.readSeq.Some?
    ensures Tidy(s, Resync(b)) && Resync(b).lastCompleted == b.lastCompleted
  {
    var (c, n) := (Resync(b), |b.slots|);
    ResyncExact(b);
    hide Resync, Sent, Resumes, Distance;
    ResyncKeepsTimes(b);
    if c.readSeq.Some? {
      assert b.slots[c.readIdx].Some? by {
        ResumesIsHeld(b.slots[c.readIdx], b.slots[b.readIdx].value.timestamp);
      }
      ReadingOnIsTidy(s, b, c, c.readIdx);
    } else {
      forall j | 0 <= j < n
        ensures c.slots[j] == None
      {
        if b.slots[j].Some? && j != b.writeIdx {
          HeldAtDistance(s, b, j);
          WriteSlotLast(b.readIdx, j, b.writeIdx, n);
        }
      }
    }
  }

  lemma ResumesIsHeld(c: Option<RtpPacket>, ts: u128)
    requires Resumes(c, ts)
    ensures c.Some?
  {
  }

  /** On the arc up to the write slot, every other slot comes before it. */
  lemma WriteSlotLast(read: nat, j: nat, write: nat, n: nat)
    requires read < n && j < n && write < n && j != write && Distance(read, j, n) <= Distance(read, write, n)
    ensures Before(read, j, write, n)
  {
  }

  lemma {:induction false} PrepareKeepsTidy(s: Stream, b: Buffer, clock: Clock, k: nat)
    requires Tidy(s, b)
    ensures var prep := Prepare(b, clock, k);
      && Tidy(s, prep.buffer) && prep.buffer.lastCompleted == b.lastCompleted
      && (prep.ts.Some? ==>
            && prep.buffer.readSeq.Some?
            && prep.ts.value == prep.buffer.slots[prep.buffer.readIdx].value.timestamp)
    decreases Occupied(b.slots)
  {
    hide Resync, Tidy, ValidPlayoutTime;
    TidyRead(s, b);
    if b.slots[b.readIdx].Some? && !ValidPlayoutTime(b, b.slots[b.readIdx].value.timestamp, clock(k)) {
      ResyncKeepsTidy(s, b);
      ResyncShrinks(b);
      var next := Resync(b);
      if next.writeSeq.Some? && next.readSeq.Some? {
        PrepareKeepsTidy(s, next, clock, k + 1);
      }
    }
  }

  lemma TidyRead(s: Stream, b: Buffer)
    requires Tidy(s, b)
    ensures b.Shaped() && (b.slots[b.readIdx].Some? <==> b.readSeq.Some?)
  {
  }

  // ----- deliveries

  /** The first occupied slot from `read` on: those before it are empty. */
  lemma {:induction false} FindNextIsFirst(slots: Slots, read: nat, n: nat)
    requires read < |slots| && n <= |slots|
    ensures var (idx, found) := FindNext(slots, read, n);
      var limit := if found then Distance(read, idx, |slots|) else n;
      forall j :: 0 <= j < |slots| && Distance(read, j, |slots|) < limit ==> slots[j] == None
    decreases n
  {
    if n > 0 && slots[read].None? {
      var next := Next(read, |slots|);
      FindNextIsFirst(slots, next, n - 1);
      assert forall j :: 0 <= j < |slots| && j != read ==>
          Distance(read, j, |slots|) == Distance(next, j, |slots|) + 1;
    }
  }

  lemma DistanceThrough(read: nat, target: nat, j: nat, n: nat)
    requires read < n && target < n && j < n && Distance(read, target, n) <= Distance(read, j, n)
    ensures Distance(target, j, n) == Distance(read, j, n) - Distance(read, target, n)
  {
  }

  lemma InRing(from: nat, to: nat, n: nat)
    requires from < n && to < n
    ensures Distance(from, to, n) < n && (Distance(from, to, n) == 0 <==> from == to)
  {
  }

  /** Advancing past `m > 0` slots reads on from the next held packet, or leaves the ring empty. */
  lemma AdvanceReadsOn(b: Buffer, target: nat)
    requires b.Shaped() && target < |b.slots| && target != b.readIdx
    ensures var c := Advance(b, target);
      && SameTimes(b, c) && c.slots[b.readIdx] == None
      && if c.readSeq.Some? then ReadsFrom(b, c, c.readIdx) else AllEmpty(c.slots)
  {
    hide ClearTo, FindNext, Distance;
    var (n, cleared) := (|b.slots|, ClearTo(b.slots, b.readIdx, target));
    var (idx, found) := FindNext(cleared, target, n);
    ClearToEmpties(b.slots, b.readIdx, target);
    FindNextIsFirst(cleared, target, n);
    InRing(b.readIdx, target, n);
    InRing(b.readIdx, b.readIdx, n);
    forall j | 0 <= j < n && (found ==> Before(b.readIdx, j, idx, n))
      ensures cleared[j] == None
    {
      if Distance(b.readIdx, target, n) <= Distance(b.readIdx, j, n) {
        DistanceThrough(b.readIdx, target, j, n);
        InRing(target, j, n);
        if found {
          DistanceThrough(b.readIdx, target, idx, n);
        }
      }
    }
  }

  /** A delivery from a tidy ring goes forward and leaves the ring tidy. */
  lemma PopKeepsTidy(s: Stream, b: Buffer, clock: Clock)
    requires Rising(s) && Tidy(s, b)
    ensures var r := Pop(b, clock);
      && Tidy(s, r.buffer)
      && (r.frame.Some? ==> Due(b, clock).Some? && Due(b, clock).value >= b.lastCompleted)
  {
    hide Prepare, Collect, Advance, Tidy;
    TidyRead(s, b);
    PrepareKeepsTidy(s, b, clock, 0);
    var prep := Prepare(b, clock, 0);
    if prep.ts.Some? {
      HeadNotOld(s, prep.buffer);
      var ready := prep.buffer;
      var found := Collect(ready.slots, ready.readIdx, prep.ts.value, [], 0, |ready.slots|);
      if found.Some? {
        CollectSpan(ready.slots, ready.readIdx, prep.ts.value, [], 0, |ready.slots|);
        CollectedStamp(ready.slots, ready.readIdx, prep.ts.value, [], 0, |ready.slots|);
        DeliverKeepsTidy(s, ready, found.value, clock(prep.readings));
      }
    }
  }

  lemma HeadNotOld(s: Stream, b: Buffer)
    requires Tidy(s, b) && b.readSeq.Some?
    ensures b.slots[b.readIdx].Some? && b.slots[b.readIdx].value.timestamp >= b.lastCompleted && |b.slots| >= TWO_8
  {
  }

  lemma DeliverKeepsTidy(s: Stream, b: Buffer, c: Collected, now: u128)
    requires Rising(s) && Tidy(s, b) && b.readSeq.Some? && c.endIdx < |b.slots|
    requires c.last.timestamp == b.slots[b.readIdx].value.timestamp
    requires 1 <= c.last.totalChunks && Distance(b.readIdx, c.endIdx, |b.slots|) == c.last.totalChunks
    ensures Tidy(s, Deliver(b, c, now))
  {
    hide Advance, Sent, Distance, Rising;
    InRing(b.readIdx, c.endIdx, |b.slots|);
    AdvanceReadsOn(b, c.endIdx);
    var head := b.slots[b.readIdx].value;
    var after := Deliver(b, c, now);
    forall j | 0 <= j < |b.slots| && b.slots[j].Some?
      ensures b.slots[j].value.timestamp >= c.last.timestamp
    {
      SentInOrder(s, head, b.slots[j].value);
    }
    if after.readSeq.Some? {
      ReadingOnIsTidy(s, b, after, after.readIdx);
    }
  }

  // ----- whole runs

  /** Every arrival of the run is of the stream and keeps what is between the ends within `d` numbers. */
  ghost predicate SpanRun(s: Stream, b: Buffer, es: seq<Event>, d: nat)
    requires b.Shaped()
    decreases es
  {
    es != [] ==>
      && (es[0].Arrive? ==> Sent(s, es[0].packet) && Within(b, es[0].packet, d))
      && SpanRun(s, Step(b, es[0]).buffer, es[1..], d)
  }

  lemma {:induction false} OneTurnGoesForward(s: Stream, b: Buffer, es: seq<Event>)
    requires Rising(s) && Tidy(s, b) && SpanRun(s, b, es, |b.slots|)
    ensures Forward(b, es)
    decreases es
  {
    hide Pop, Add, Tidy, Rising, Within, Sent, Due;
    TidyRead(s, b);
    if es != [] {
      match es[0] {
        case Arrive(p) => AddKeepsTidy(s, b, p);
        case Ask(clock) => PopKeepsTidy(s, b, clock);
      }
      OneTurnGoesForward(s, Step(b, es[0]).buffer, es[1..]);
    }
  }

  /** From an empty buffer, arrivals within one turn of the ring are delivered with timestamps that never go back. */
  lemma DeliveriesGoForward(s: Stream, n: nat, es: seq<Event>)
    requires Rising(s) && n >= TWO_8 && SpanRun(s, Empty(n), es, n)
    ensures Forward(Empty(n), es)
  {
    hide Forward, SpanRun, Rising;
    OneTurnGoesForward(s, Empty(n), es);
  }

  /** Once a first frame has been delivered, such a run plays every frame in its place. */
  lemma OneTurnOnSchedule(s: Stream, b: Buffer, es: seq<Event>)
    requires Rising(s) && Tidy(s, b) && SpanRun(s, b, es, |b.slots|)
    requires b.lastDeliver != 0 && AllRepresentable(b, es)
    ensures OnSchedule(b, es, Offset(b)) && Offset(Run(b, es)) == Offset(b)
  {
    hide Forward, SpanRun, Rising, OnSchedule, Tidy;
    TidyRead(s, b);
    OneTurnGoesForward(s, b, es);
    PlayoutDoesNotDrift(b, es);
  }
}
