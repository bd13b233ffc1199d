/** What the gate, the window and the resync are for, stated without their code. */
module JitterResync {
  import opened Common
  import opened Rtp
  import opened ModArith
  import opened Jitter
  import opened JitterSafety

  /** A new write head collides exactly when its slot lies on the arc from the read to the write slot. */
  lemma CollidesIsOnArc(read: nat, write: nat, pos: nat, n: nat)
    requires read < n && write < n && pos < n
    ensures Collides(read, write, pos) <==> Distance(read, pos, n) <= Distance(read, write, n)
  {
  }

  /** An I-frame of another timestamp: where playback may resume. */
  predicate Resumes(c: Option<RtpPacket>, ts: u128) {
    c.Some? && c.value.isIFrame && c.value.timestamp != ts
  }

  /** Slot `i` comes before slot `j` on the way forward from `read`. */
  predicate Before(read: nat, i: nat, j: nat, n: nat)
    requires read < n && i < n && j < n
  {
    Distance(read, i, n) < Distance(read, j, n)
  }

  /** `r` emptied the slots before `end` and no other, and none of them could have been resumed from. */
  predicate ClearedUpTo(slots: Slots, r: Slots, read: nat, end: nat, ts: u128)
    requires read < |slots| && end < |slots|
  {
    && |r| == |slots|
    && forall j :: 0 <= j < |slots| ==>
         if Before(read, j, end, |slots|) then r[j] == None && !Resumes(slots[j], ts) else r[j] == slots[j]
  }

  /** The scan finds the first slot of the arc to resume from; without one it empties the whole arc. */
  lemma {:induction false} ScanExact(slots: Slots, read: nat, write: nat, ts: u128, n: nat)
    requires read < |slots| && write < |slots| && Distance(read, write, |slots|) < n
    ensures var r := Scan(slots, read, write, ts, n);
      match r.found
      case Some(i) =>
        && i < |slots| && !Before(read, write, i, |slots|)
        && Resumes(slots[i], ts) && ClearedUpTo(slots, r.slots, read, i, ts)
      case None =>
        && !Resumes(slots[write], ts) && |r.slots| == |slots| && r.slots[write] == None
        && ClearedUpTo(slots, r.slots[write := slots[write]], read, write, ts)
    decreases n
  {
    hide Distance, Resumes;
    StartsAtZero(read, |slots|);
    if Resumes(slots[read], ts) {
      ResumesMeans(slots[read], ts);
    } else {
      ResumesMeans(slots[read], ts);
      if read != write {
        var next := Next(read, |slots|);
        forall j | 0 <= j < |slots| && j != read
          ensures Distance(read, j, |slots|) == Distance(next, j, |slots|) + 1
        {
          StepCloser(read, j, |slots|);
        }
        ScanExact(slots[read := None], next, write, ts, n - 1);
        ResumesMeans(None, ts);
      }
    }
  }

  lemma StartsAtZero(read: nat, n: nat)
    requires read < n
    ensures forall j :: 0 <= j < n ==> (Distance(read, j, n) == 0 <==> j == read)
  {
  }

  lemma StepCloser(read: nat, j: nat, n: nat)
    requires read < n && j < n && j != read
    ensures Distance(read, j, n) == Distance(Next(read, n), j, n) + 1
  {
  }

  lemma ResumesMeans(c: Option<RtpPacket>, ts: u128)
    ensures Resumes(c, ts) <==> c.Some? && c.value.isIFrame && c.value.timestamp != ts
  {
  }

  /** After a resync the buffer plays on from the first I-frame of the arc, or waits for a new one. */
  lemma ResyncExact(b: Buffer)
    requires b.Shaped() && b.slots[b.readIdx].Some?
    ensures var (r, ts) := (Resync(b), b.slots[b.readIdx].value.timestamp);
      if r.readSeq.Some? then
        && Resumes(b.slots[r.readIdx], ts) && r.readSeq.value == b.slots[r.readIdx].value.sequenceNumber
        && !Before(b.readIdx, b.writeIdx, r.readIdx, |b.slots|)
        && ClearedUpTo(b.slots, r.slots, b.readIdx, r.readIdx, ts)
        && !r.iFrameNeeded && r.writeIdx == b.writeIdx && r.writeSeq == b.writeSeq
      else
        && r.iFrameNeeded && r.writeSeq.None? && r.slots[b.writeIdx] == None
        && !Resumes(b.slots[b.writeIdx], ts)
        && ClearedUpTo(b.slots, r.slots[b.writeIdx := b.slots[b.writeIdx]], b.readIdx, b.writeIdx, ts)
  {
    hide Scan, ClearedUpTo;
    ScanExact(b.slots, b.readIdx, b.writeIdx, b.slots[b.readIdx].value.timestamp, |b.slots|);
    ScanShape(b.slots, b.readIdx, b.writeIdx, b.slots[b.readIdx].value.timestamp, |b.slots|);
  }

  /** Until an I-frame arrives, a new buffer stays empty and delivers nothing. */
  lemma {:induction false} NothingBeforeIFrame(n: nat, es: seq<Event>)
    requires n > 0 && forall i :: 0 <= i < |es| && es[i].Arrive? ==> !es[i].packet.isIFrame
    ensures Run(Empty(n), es) == Empty(n) && Delivered(Empty(n), es) == []
  {
    if es != [] {
      assert Step(Empty(n), es[0]) == Popped(Empty(n), None);
      NothingBeforeIFrame(n, es[1..]);
    }
  }

  lemma {:induction false} RunSplit(b: Buffer, xs: seq<Event>, ys: seq<Event>)
    requires b.Shaped()
    ensures Run(b, xs + ys) == Run(Run(b, xs), ys)
    ensures Delivered(b, xs + ys) == Delivered(b, xs) + Delivered(Run(b, xs), ys)
    decreases xs
  {
    hide Step;
    if xs == [] {
      assert xs + ys == ys;
    } else {
      assert (xs + ys)[0] == xs[0] && (xs + ys)[1..] == xs[1..] + ys;
      RunSplit(Step(b, xs[0]).buffer, xs[1..], ys);
    }
  }

  /** A packet older than the last delivered frame changes nothing that is delivered afterwards. */
  lemma LatecomersIgnored(b: Buffer, xs: seq<Event>, p: RtpPacket, ys: seq<Event>)
    requires b.Shaped() && p.timestamp < Run(b, xs).lastCompleted
    ensures Delivered(b, xs + ([Arrive(p)] + ys)) == Delivered(b, xs + ys)
    ensures Run(b, xs + ([Arrive(p)] + ys)) == Run(b, xs + ys)
  {
    hide Step, Run, Delivered;
    RunSplit(b, xs, [Arrive(p)] + ys);
    RunSplit(b, xs, ys);
    IgnoredAtOnce(Run(b, xs), p, ys);
  }

  lemma IgnoredAtOnce(b: Buffer, p: RtpPacket, ys: seq<Event>)
    requires b.Shaped() && p.timestamp < b.lastCompleted
    ensures Delivered(b, [Arrive(p)] + ys) == Delivered(b, ys) && Run(b, [Arrive(p)] + ys) == Run(b, ys)
  {
    assert Step(b, Arrive(p)) == Popped(b, None);
    hide Step;
    assert ([Arrive(p)] + ys)[1..] == ys;
    assert [] + Delivered(b, ys) == Delivered(b, ys);
  }
}
