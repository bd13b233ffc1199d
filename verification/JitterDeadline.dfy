/** What a pop does about frames past their deadline: it plays the first one of the arc that is not. */
module JitterDeadline {
  import opened Common
  import opened Rtp
  import opened ModArith
  import opened Jitter
  import opened Sender
  import opened JitterSafety
  import opened JitterResync
  import opened JitterPlayout
  import opened JitterOrder

  // ----- where the deadline loop stops

  /** Slot `j` lies on the way from the read to the write slot. */
  predicate OnArc(b: Buffer, j: nat)
    requires b.Shaped() && j < |b.slots|
  {
    Distance(b.readIdx, j, |b.slots|) <= Distance(b.readIdx, b.writeIdx, |b.slots|)
  }

  /** A frame may start at slot `j`: it is the one being read, or an I-frame. */
  predicate Starts(b: Buffer, j: nat)
    requires b.Shaped() && j < |b.slots|
  {
    b.slots[j].Some? && (j == b.readIdx || b.slots[j].value.isIFrame)
  }

  /** At `now` a frame stamped `ts` is more than 120 ms behind its place in the schedule. */
  predicate Late(b: Buffer, ts: u128, now: u128) {
    b.lastDeliver != 0 && now > (b.lastDeliver + (ts - b.lastCompleted) + 120) % TWO_128
  }

  /** What may start at slot `j` was late at one of the readings from `k` up to `end`. */
  predicate FoundLate(b: Buffer, j: nat, clock: Clock, k: nat, end: nat)
    requires b.Shaped() && j < |b.slots|
  {
    Starts(b, j) ==> exists m :: k <= m < end && Late(b, b.slots[j].value.timestamp, clock(m))
  }

  /** Nothing that may start on the arc before slot `i` was in time. */
  predicate AllLateBefore(b: Buffer, i: nat, clock: Clock, k: nat, end: nat)
    requires b.Shaped() && i < |b.slots|
  {
    forall j :: 0 <= j < |b.slots| && Before(b.readIdx, j, i, |b.slots|) ==> FoundLate(b, j, clock, k, end)
  }

  /** The buffer that plays on from slot `i`: what came before it is gone, the rest is as it was. */
  predicate PlaysFrom(b: Buffer, c: Buffer, i: nat)
    requires b.Shaped() && i < |b.slots|
  {
    && |c.slots| == |b.slots| && c.readIdx == i && SameTimes(b, c)
    && c.writeIdx == b.writeIdx && c.writeSeq == b.writeSeq
    && (if i == b.readIdx then c == b
        else b.slots[i].Some? && c.readSeq == Some(b.slots[i].value.sequenceNumber) && !c.iFrameNeeded)
    && forall j :: 0 <= j < |b.slots| ==>
         c.slots[j] == if Before(b.readIdx, j, i, |b.slots|) then None else b.slots[j]
  }

  /** Without a write number, nothing lies beyond the read slot. */
  predicate EndsMeet(b: Buffer)
    requires b.Shaped()
  {
    b.writeSeq.None? ==> b.slots[b.readIdx].None? || b.readIdx == b.writeIdx
  }

  lemma LateExact(b: Buffer, ts: u128, now: u128)
    ensures Late(b, ts, now) <==> !ValidPlayoutTime(b, ts, now)
  {
  }

  /** The distance from a slot further on. */
  lemma FromFurtherOn(read: nat, i: nat, j: nat, n: nat)
    requires read < n && i < n && j < n
    ensures var (di, dj) := (Distance(read, i, n), Distance(read, j, n));
      Distance(i, j, n) == if di <= dj then dj - di else n + dj - di
    ensures Distance(read, j, n) < n && (Distance(read, j, n) == 0 <==> j == read)
  {
  }

  lemma SameSlot(read: nat, i: nat, j: nat, n: nat)
    requires read < n && i < n && j < n && Distance(read, i, n) == Distance(read, j, n)
    ensures i == j
  {
  }

  /** What the deadline loop has dealt with once it gives up: the whole arc, found late and emptied. */
  ghost predicate GaveUp(b: Buffer, c: Buffer, clock: Clock, k: nat, end: nat)
    requires b.Shaped()
  {
    && (forall j :: 0 <= j < |b.slots| && OnArc(b, j) ==> FoundLate(b, j, clock, k, end))
    && |c.slots| == |b.slots| && c.readSeq.None? && c.writeSeq.None? && c.iFrameNeeded && SameTimes(b, c)
    && forall j :: 0 <= j < |b.slots| ==> c.slots[j] == if OnArc(b, j) then None else b.slots[j]
  }

  /** The loop stops at slot `i` of the arc: it is in time at the last reading, and nothing before it was. */
  ghost predicate StopsAt(b: Buffer, r: Prepared, clock: Clock, k: nat)
    requires b.Shaped() && r.buffer.Shaped() && |r.buffer.slots| == |b.slots|
  {
    var i := r.buffer.readIdx;
    && OnArc(b, i) && Starts(b, i) && r.ts == Some(b.slots[i].value.timestamp) && r.readings > k
    && !Late(b, b.slots[i].value.timestamp, clock(r.readings - 1))
    && AllLateBefore(b, i, clock, k, r.readings - 1)
    && PlaysFrom(b, r.buffer, i)
  }

  /** A late frame is skipped up to the next I-frame of another timestamp. */
  lemma SkippedToIFrame(b: Buffer, clock: Clock, k: nat, end: nat, j: nat)
    requires b.Shaped() && b.slots[b.readIdx].Some? && k < end && j < |b.slots|
    requires Late(b, b.slots[b.readIdx].value.timestamp, clock(k))
    requires !Resumes(b.slots[j], b.slots[b.readIdx].value.timestamp)
    ensures FoundLate(b, j, clock, k, end)
  {
    hide Late;
  }

  /** What was found late from the resumed slot on was late for the whole loop. */
  lemma LateFromLaterOn(b: Buffer, c: Buffer, clock: Clock, k: nat, end: nat, j: nat)
    requires b.Shaped() && c.Shaped() && |c.slots| == |b.slots| && j < |b.slots| && j != b.readIdx
    requires c.slots[j] == b.slots[j] && SameTimes(b, c) && FoundLate(c, j, clock, k + 1, end)
    ensures FoundLate(b, j, clock, k, end)
  {
    LateAlike(b, c);
    hide Late;
  }

  lemma LateAlike(b: Buffer, c: Buffer)
    requires SameTimes(b, c)
    ensures forall ts: u128, now: u128 :: Late(b, ts, now) <==> Late(c, ts, now)
  {
  }

  /** `c` is `b` resumed at a further slot of the arc, with nothing to resume from in between. */
  ghost predicate Resumed(b: Buffer, c: Buffer)
    requires b.Shaped() && b.slots[b.readIdx].Some?
  {
    var ts := b.slots[b.readIdx].value.timestamp;
    && c.Shaped() && |c.slots| == |b.slots| && SameTimes(b, c)
    && c.writeIdx == b.writeIdx && c.writeSeq == b.writeSeq && !c.iFrameNeeded
    && OnArc(b, c.readIdx) && Resumes(b.slots[c.readIdx], ts)
    && c.readSeq == Some(b.slots[c.readIdx].value.sequenceNumber)
    && ClearedUpTo(b.slots, c.slots, b.readIdx, c.readIdx, ts)
  }

  /** The loop stops where it stops from the resumed slot on. */
  lemma StopsLaterOn(b: Buffer, c: Buffer, r: Prepared, clock: Clock, k: nat)
    requires b.Shaped() && b.slots[b.readIdx].Some? && Resumed(b, c)
    requires Late(b, b.slots[b.readIdx].value.timestamp, clock(k))
    requires r.buffer.Shaped() && |r.buffer.slots| == |b.slots| && StopsAt(c, r, clock, k + 1)
    ensures StopsAt(b, r, clock, k)
  {
    hide Late, Distance;
    LateAlike(b, c);
    var (n, i, from) := (|b.slots|, r.buffer.readIdx, c.readIdx);
    ResumesIsHeld(b.slots[from], b.slots[b.readIdx].value.timestamp);
    FromFurtherOn(b.readIdx, from, i, n);
    FromFurtherOn(b.readIdx, from, b.writeIdx, n);
    FromFurtherOn(b.readIdx, from, from, n);
    assert from != b.readIdx && i != b.readIdx;
    assert OnArc(b, i) && Starts(b, i);
    forall j | 0 <= j < n && Before(b.readIdx, j, i, n)
      ensures FoundLate(b, j, clock, k, r.readings - 1)
    {
      FromFurtherOn(b.readIdx, from, j, n);
      if Before(b.readIdx, j, from, n) {
        SkippedToIFrame(b, clock, k, r.readings - 1, j);
      } else {
        LateFromLaterOn(b, c, clock, k, r.readings - 1, j);
      }
    }
    forall j | 0 <= j < n
      ensures r.buffer.slots[j] == if Before(b.readIdx, j, i, n) then None else b.slots[j]
    {
      FromFurtherOn(b.readIdx, from, j, n);
    }
  }

  /** And gives up where it gives up from there. */
  lemma GivesUpLaterOn(b: Buffer, c: Buffer, end: Buffer, clock: Clock, k: nat, readings: nat)
    requires b.Shaped() && b.slots[b.readIdx].Some? && Resumed(b, c) && k < readings
    requires Late(b, b.slots[b.readIdx].value.timestamp, clock(k))
    requires GaveUp(c, end, clock, k + 1, readings)
    ensures GaveUp(b, end, clock, k, readings)
  {
    hide Late, Distance;
    var (n, from) := (|b.slots|, c.readIdx);
    FromFurtherOn(b.readIdx, from, b.writeIdx, n);
    FromFurtherOn(b.readIdx, from, from, n);
    assert from != b.readIdx;
    forall j | 0 <= j < n
      ensures OnArc(b, j) ==> FoundLate(b, j, clock, k, readings)
      ensures end.slots[j] == if OnArc(b, j) then None else b.slots[j]
    {
      FromFurtherOn(b.readIdx, from, j, n);
      if Before(b.readIdx, j, from, n) {
        SkippedToIFrame(b, clock, k, readings, j);
      } else if OnArc(b, j) {
        LateFromLaterOn(b, c, clock, k, readings, j);
      }
    }
  }

  /** A resync goes on from the next I-frame of another timestamp, or empties the arc. */
  lemma ResyncResumes(b: Buffer, clock: Clock, k: nat)
    requires b.Shaped() && b.slots[b.readIdx].Some? && EndsMeet(b)
    requires Late(b, b.slots[b.readIdx].value.timestamp, clock(k))
    ensures var next := Resync(b);
      if next.readSeq.Some? then next.writeSeq.Some? && Resumed(b, next) else GaveUp(b, next, clock, k, k + 1)
  {
    var (n, next, ts) := (|b.slots|, Resync(b), b.slots[b.readIdx].value.timestamp);
    ResyncExact(b);
    ResyncKeepsTimes(b);
    hide Resync, Late, Distance;
    if next.readSeq.Some? {
      FromFurtherOn(b.readIdx, b.readIdx, next.readIdx, n);
      FromFurtherOn(b.readIdx, b.readIdx, b.writeIdx, n);
    } else {
      forall j | 0 <= j < n
        ensures OnArc(b, j) ==> FoundLate(b, j, clock, k, k + 1)
        ensures next.slots[j] == if OnArc(b, j) then None else b.slots[j]
      {
        FromFurtherOn(b.readIdx, j, b.writeIdx, n);
        FromFurtherOn(b.readIdx, b.writeIdx, j, n);
        FromFurtherOn(j, j, b.writeIdx, n);
        if OnArc(b, j) {
          SkippedToIFrame(b, clock, k, k + 1, j);
        }
      }
    }
  }

  /**
   * The deadline loop of a pop, for any clock: it stops at a slot of the arc that is in time when read, all that
   * could have been played before it was late, or it has found the whole arc late and emptied it.
   */
  lemma {:induction false} DeadlineLoopExact(b: Buffer, clock: Clock, k: nat)
    requires b.Shaped() && b.slots[b.readIdx].Some? && EndsMeet(b)
    ensures var r := Prepare(b, clock, k);
      if r.ts.Some? then StopsAt(b, r, clock, k) else r.readings > k && GaveUp(b, r.buffer, clock, k, r.readings)
    decreases Occupied(b.slots)
  {
    var ts := b.slots[b.readIdx].value.timestamp;
    LateExact(b, ts, clock(k));
    hide Resync, Late, ValidPlayoutTime, Distance, Resumed, StopsAt, GaveUp;
    if ValidPlayoutTime(b, ts, clock(k)) {
      StopsHere(b, clock, k);
    } else {
      ResyncResumes(b, clock, k);
      ResyncShrinks(b);
      var next := Resync(b);
      if next.readSeq.Some? {
        ResumedIsHeld(b, next);
        DeadlineLoopExact(next, clock, k + 1);
        var r := Prepare(next, clock, k + 1);
        if r.ts.Some? {
          StopsLaterOn(b, next, r, clock, k);
        } else {
          GivesUpLaterOn(b, next, r.buffer, clock, k, r.readings);
        }
      } else {
        GaveUpNumbers(b, next, clock, k);
      }
    }
  }

  lemma GaveUpNumbers(b: Buffer, c: Buffer, clock: Clock, k: nat)
    requires b.Shaped() && GaveUp(b, c, clock, k, k + 1)
    ensures c.writeSeq.None?
  {
  }

  lemma ResumedIsHeld(b: Buffer, c: Buffer)
    requires b.Shaped() && b.slots[b.readIdx].Some? && Resumed(b, c) && c.writeSeq.Some?
    ensures c.Shaped() && c.slots[c.readIdx].Some? && EndsMeet(c)
  {
    hide Distance;
    FromFurtherOn(b.readIdx, c.readIdx, c.readIdx, |b.slots|);
  }

  /** A frame in time is played where it is. */
  lemma StopsHere(b: Buffer, clock: Clock, k: nat)
    requires b.Shaped() && b.slots[b.readIdx].Some? && !Late(b, b.slots[b.readIdx].value.timestamp, clock(k))
    ensures StopsAt(b, Prepared(b, Some(b.slots[b.readIdx].value.timestamp), k + 1), clock, k)
  {
    hide Late;
  }

  // ----- a clock that stands still during the pop

  ghost predicate StandsAt(clock: Clock, now: u128) {
    forall m :: clock(m) == now
  }

  /** A frame that may start at slot `j` is not late at `now`. */
  predicate InTime(b: Buffer, j: nat, now: u128)
    requires b.Shaped() && j < |b.slots|
  {
    Starts(b, j) && !Late(b, b.slots[j].value.timestamp, now)
  }

  /** Slot `i` is the first of the arc that is in time at `now`. */
  predicate FirstInTime(b: Buffer, i: nat, now: u128)
    requires b.Shaped() && i < |b.slots|
  {
    && OnArc(b, i) && InTime(b, i, now)
    && forall j :: 0 <= j < |b.slots| && Before(b.readIdx, j, i, |b.slots|) ==> !InTime(b, j, now)
  }

  /** The deadline loop plays the first slot of the arc that is in time. */
  lemma LoopPlaysFirstInTime(b: Buffer, clock: Clock, now: u128, i: nat)
    requires b.Shaped() && b.slots[b.readIdx].Some? && EndsMeet(b) && StandsAt(clock, now)
    requires i < |b.slots| && FirstInTime(b, i, now)
    ensures var r := Prepare(b, clock, 0);
      r.ts == Some(b.slots[i].value.timestamp) && PlaysFrom(b, r.buffer, i)
  {
    DeadlineLoopExact(b, clock, 0);
    hide Prepare, Late, Distance;
    var r := Prepare(b, clock, 0);
    if r.ts.Some? {
      var i' := r.buffer.readIdx;
      assert InTime(b, i', now);
      assert !Before(b.readIdx, i', i, |b.slots|);
      assert !FoundLate(b, i, clock, 0, r.readings - 1);
      SameSlot(b.readIdx, i, i', |b.slots|);
    }
  }

  /**
   * For every buffer with something at the read slot: a pop finds nothing to play exactly when nothing on the arc
   * is in time, or the frame being read is late and the write number was lost with more of the ring to come.
   */
  lemma GivesUpExact(b: Buffer, clock: Clock, now: u128)
    requires b.Shaped() && b.slots[b.readIdx].Some? && StandsAt(clock, now)
    ensures Prepare(b, clock, 0).ts.None? <==>
            || (forall j :: 0 <= j < |b.slots| && OnArc(b, j) ==> !InTime(b, j, now))
            || (!EndsMeet(b) && !InTime(b, b.readIdx, now))
  {
    LateExact(b, b.slots[b.readIdx].value.timestamp, clock(0));
    FromFurtherOn(b.readIdx, b.readIdx, b.writeIdx, |b.slots|);
    hide Late, Distance, ValidPlayoutTime;
    if EndsMeet(b) {
      DeadlineLoopExact(b, clock, 0);
    } else if InTime(b, b.readIdx, now) {
      assert OnArc(b, b.readIdx);
    } else {
      NumberStaysLost(b);
    }
  }

  lemma NumberStaysLost(b: Buffer)
    requires b.Shaped() && b.writeSeq.None?
    ensures Resync(b).writeSeq.None?
  {
  }

  /** A sender with rising timestamps whose arrivals keep within one turn never loses the write number. */
  lemma TidyMeets(s: Stream, b: Buffer)
    requires Tidy(s, b)
    ensures b.Shaped() && EndsMeet(b) && (b.readSeq.Some? ==> b.slots[b.readIdx].Some?)
  {
  }

  // ----- the frame behind late ones

  /** Whole at slot `i`: the packets `ps` of one timestamp, the last with the marker. */
  predicate FrameAt(slots: Slots, i: nat, ts: u128, ps: seq<RtpPacket>)
    requires i < |slots|
    decreases ps
  {
    && ps != [] && slots[i] == Some(ps[0]) && ps[0].timestamp == ts
    && if |ps| == 1 then ps[0].marker == 1
       else ps[0].marker != 1 && FrameAt(slots, Next(i, |slots|), ts, ps[1..])
  }

  /** A whole frame is collected, if its last packet announces as many. */
  lemma {:induction false} CollectsFrame(
    slots: Slots, i: nat, ts: u128, ps: seq<RtpPacket>, data: seq<u8>, count: nat, n: nat)
    requires i < |slots| && FrameAt(slots, i, ts, ps) && |ps| <= n && ps[|ps| - 1].totalChunks == count + |ps|
    ensures var r := Collect(slots, i, ts, data, count, n);
      r.Some? && r.value.data == data + Payloads(ps) && r.value.last == ps[|ps| - 1]
    decreases ps
  {
    assert ps == [ps[0]] + ps[1..];
    PayloadsCons(ps[0], ps[1..]);
    if |ps| > 1 {
      CollectsFrame(slots, Next(i, |slots|), ts, ps[1..], data + ps[0].payload, count + 1, n - 1);
    } else {
      assert Payloads(ps[1..]) == [];
    }
  }

  /** Emptying the slots before `i` leaves a frame that starts at `j`, no nearer, and ends before the read slot. */
  lemma {:induction false} FrameKept(b: Buffer, c: Buffer, i: nat, j: nat, ts: u128, ps: seq<RtpPacket>)
    requires b.Shaped() && i < |b.slots| && j < |b.slots| && PlaysFrom(b, c, i) && FrameAt(b.slots, j, ts, ps)
    requires !Before(b.readIdx, j, i, |b.slots|) && Distance(b.readIdx, j, |b.slots|) + |ps| <= |b.slots|
    ensures FrameAt(c.slots, j, ts, ps)
    decreases ps
  {
    if |ps| > 1 {
      FrameKept(b, c, i, Next(j, |b.slots|), ts, ps[1..]);
    }
  }

  lemma PlaysAt(b: Buffer, c: Buffer, i: nat)
    requires b.Shaped() && i < |b.slots| && PlaysFrom(b, c, i)
    ensures c.readIdx == i && |c.slots| == |b.slots|
  {
    hide Distance;
  }

  /**
   * A pop skips what is late and delivers the first frame of the arc that is in time, if it is whole: its payloads
   * in order, and its timestamp as the last one delivered.
   */
  lemma PopSkipsLate(b: Buffer, clock: Clock, now: u128, i: nat, ps: seq<RtpPacket>)
    requires b.Shaped() && b.slots[b.readIdx].Some? && EndsMeet(b) && StandsAt(clock, now)
    requires i < |b.slots| && FirstInTime(b, i, now)
    requires FrameAt(b.slots, i, b.slots[i].value.timestamp, ps) && ps[|ps| - 1].totalChunks == |ps|
    requires Distance(b.readIdx, i, |b.slots|) + |ps| <= |b.slots|
    ensures var r := Pop(b, clock);
      r.frame == Some(Payloads(ps)) && r.buffer.lastCompleted == b.slots[i].value.timestamp
  {
    LoopPlaysFirstInTime(b, clock, now, i);
    hide Prepare, Collect, Advance, Late, FirstInTime, Payloads, Distance, PlaysFrom, FrameAt;
    var (ready, ts, n) := (Prepare(b, clock, 0).buffer, b.slots[i].value.timestamp, |b.slots|);
    assert ready.readIdx == i && |ready.slots| == n by {
      PlaysAt(b, ready, i);
    }
    FrameKept(b, ready, i, i, ts, ps);
    CollectsFrame(ready.slots, i, ts, ps, [], 0, n);
    CollectedStamp(ready.slots, i, ts, [], 0, n);
    assert [] + Payloads(ps) == Payloads(ps);
  }

  // ----- how the write number is lost

  /** An I-frame of one chunk. */
  function Single(number: u64, ts: u128): RtpPacket {
    RtpPacket(2, 1, 1, true, 96, number, ts, 1, [0])
  }

  function Standing(now: u128): Clock {
    (m: nat) => now
  }

  /** Three frames in slots n - 1, 0 and 1. */
  function Trio(n: nat): Buffer
    requires TWO_8 <= n < TWO_64 / 4
  {
    var slots := Empty(n).slots[n - 1 := Some(Single(2 * n - 1, 1))];
    Buffer(slots[0 := Some(Single(2 * n, 2))][1 := Some(Single(2 * n + 1, 3))], n - 1, 1,
           Some(2 * n - 1), Some(2 * n + 1), false, 0, 0)
  }

  lemma TrioArrives(n: nat)
    requires TWO_8 <= n < TWO_64 / 4
    ensures Add(Add(Add(Empty(n), Single(2 * n - 1, 1)), Single(2 * n, 2)), Single(2 * n + 1, 3)) == Trio(n)
  {
    hide Resync;
    ModUnique(2 * n - 1, 1, n - 1, n);
    ModUnique(2 * n, 2, 0, n);
    ModUnique(2 * n + 1, 2, 1, n);
    var one := Add(Empty(n), Single(2 * n - 1, 1));
    assert !Discards(one, Single(2 * n, 2));
    var two := Add(one, Single(2 * n, 2));
    assert two == Buffer(one.slots[0 := Some(Single(2 * n, 2))], n - 1, 0, Some(2 * n - 1), Some(2 * n), false, 0, 0);
    assert !Discards(two, Single(2 * n + 1, 3));
  }

  /** A packet one turn ahead has reset the ring around the frames in slots 0 and 1. */
  function Left(n: nat): Buffer
    requires TWO_8 <= n < TWO_64 / 4
  {
    Buffer(Trio(n).slots[n - 1 := Some(Single(3 * n - 1, 1000))], 0, 0, None, None, true, 0, 0)
  }

  lemma RingReset(n: nat)
    requires TWO_8 <= n < TWO_64 / 4
    ensures Add(Trio(n), Single(3 * n - 1, 1000)) == Left(n)
  {
    ModUnique(3 * n - 1, 2, n - 1, n);
    var (trio, p) := (Trio(n), Single(3 * n - 1, 1000));
    assert !Discards(trio, p);
    var moved := trio.(writeIdx := n - 1, writeSeq := Some(3 * n - 1));
    var cleared := trio.slots[n - 1 := None];
    assert Scan(trio.slots, n - 1, n - 1, 1, n) == ScanResult(cleared, None);
    assert Resync(moved) == Reset(moved, cleared);
    assert cleared[n - 1 := Some(p)] == Left(n).slots;
  }

  /** Playing the frame in slot 0 sets the read number again, and not the write number. */
  function Halved(n: nat): Buffer
    requires TWO_8 <= n < TWO_64 / 4
  {
    Buffer(Left(n).slots[0 := None], 1, 0, Some(2 * n + 1), None, false, 2, 1)
  }

  lemma StalePlayed(n: nat)
    requires TWO_8 <= n < TWO_64 / 4
    ensures Pop(Left(n), Standing(1)).buffer == Halved(n)
  {
    var left := Left(n);
    assert Prepare(left, Standing(1), 0) == Prepared(left, Some(2), 1);
    assert Collect(left.slots, 0, 2, [], 0, n) == Some(Collected([] + [0], 1, Single(2 * n, 2)));
    var cleared := left.slots[0 := None];
    assert ClearTo(left.slots, 0, 1) == ClearTo(cleared, 1, 1) == cleared;
    assert FindNext(cleared, 1, n) == (1, true);
  }

  /** The frame in slot 1 is late; the pop gives up, although the I-frame in slot n - 1 is whole and in time. */
  lemma GivesUpOnWhole(n: nat)
    requires TWO_8 <= n < TWO_64 / 4
    ensures var b := Halved(n);
      && b.Shaped() && b.slots[b.readIdx].Some? && !EndsMeet(b)
      && FirstInTime(b, n - 1, 200) && FrameAt(b.slots, n - 1, 1000, [Single(3 * n - 1, 1000)])
      && Pop(b, Standing(200)).frame.None?
  {
    var b := Halved(n);
    GivesUpExact(b, Standing(200), 200);
    hide Prepare;
    forall j | 0 <= j < n && Before(1, j, n - 1, n)
      ensures !InTime(b, j, 200)
    {
      assert b.slots[j] == if j == 1 then Some(Single(2 * n + 1, 3)) else None;
    }
  }

  /** A run from the empty buffer after which a pop gives up on a frame that is whole and in time. */
  lemma WriteNumberLost(n: nat) returns (es: seq<Event>)
    requires TWO_8 <= n < TWO_64 / 4
    ensures var b := Run(Empty(n), es);
      && b.slots[b.readIdx].Some? && FirstInTime(b, n - 1, 200)
      && FrameAt(b.slots, n - 1, 1000, [Single(3 * n - 1, 1000)]) && Pop(b, Standing(200)).frame.None?
  {
    TrioArrives(n);
    RingReset(n);
    StalePlayed(n);
    GivesUpOnWhole(n);
    hide Pop, Add, FirstInTime, FrameAt;
    var (a, b, c, d) := (Single(2 * n - 1, 1), Single(2 * n, 2), Single(2 * n + 1, 3), Single(3 * n - 1, 1000));
    es := [Arrive(a)] + ([Arrive(b)] + ([Arrive(c)] + ([Arrive(d)] + [Ask(Standing(1))])));
    var (e0, n1) := (Empty(n), Add(Empty(n), a));
    RunFirst(e0, Arrive(a), [Arrive(b)] + ([Arrive(c)] + ([Arrive(d)] + [Ask(Standing(1))])));
    RunFirst(n1, Arrive(b), [Arrive(c)] + ([Arrive(d)] + [Ask(Standing(1))]));
    RunFirst(Add(n1, b), Arrive(c), [Arrive(d)] + [Ask(Standing(1))]);
    RunFirst(Trio(n), Arrive(d), [Ask(Standing(1))]);
    RunFirst(Left(n), Ask(Standing(1)), []);
    assert [Ask(Standing(1))] + [] == [Ask(Standing(1))];
  }

  lemma RunFirst(b: Buffer, e: Event, es: seq<Event>)
    requires b.Shaped()
    ensures Run(b, [e] + es) == Run(Step(b, e).buffer, es)
  {
    hide Step;
    assert ([e] + es)[1..] == es;
  }
}
