/** The jitter buffer as the source runs it: an array of slots updated in place. */
module JitterClass {
  import opened Common
  import opened Rtp
  import opened Jitter
  import opened JitterStats

  class JitterBuffer {
    var packets: array<Option<RtpPacket>>
    var readIdx: nat
    var writeIdx: nat
    var readSeq: Option<u64>
    var writeSeq: Option<u64>
    var iFrameNeeded: bool
    var lastCompleted: u128
    var lastDeliver: u128
    var stats: Stats

    ghost predicate Valid()
      reads this
    {
      readIdx < packets.Length && writeIdx < packets.Length
    }

    ghost function View(): (b: Buffer)
      requires Valid()
      reads this, packets
      ensures b.Shaped() && |b.slots| == packets.Length
    {
      Buffer(packets[..], readIdx, writeIdx, readSeq, writeSeq, iFrameNeeded, lastCompleted, lastDeliver)
    }

    constructor (capacity: nat)
      requires capacity > 0
      ensures Valid() && fresh(packets) && packets.Length == capacity
      ensures View() == Empty(capacity) && stats == NO_STATS
    {
      packets := new Option<RtpPacket>[capacity](_ => None);
      readIdx, writeIdx := 0, 0;
      readSeq, writeSeq := None, None;
      iFrameNeeded := true;
      lastCompleted, lastDeliver := 0, 0;
      stats := NO_STATS;
    }

    method AddPacket(p: RtpPacket)
      requires Valid()
      modifies this, packets
      ensures Valid() && packets == old(packets)
      ensures View() == Add(old(View()), p)
      ensures stats == UpdateStats(old(stats), p.sequenceNumber)
    {
      var discard := ShouldDiscardPacket(p);
      if discard {
        return;
      }
      var s := p.sequenceNumber;
      var pos := s % packets.Length;
      if readSeq.Some? && writeSeq.Some? {
        if s < readSeq.value {
          readIdx, readSeq := pos, Some(s);
        } else if s > writeSeq.value {
          HandleNewWriteHead(s, pos);
        }
      } else {
        readSeq, writeSeq := Some(s), Some(s);
        readIdx, writeIdx := pos, pos;
        iFrameNeeded := false;
      }
      ghost var before := packets[..];
      packets[pos] := Some(p);
      assert packets[..] == before[pos := Some(p)];
    }

    method ShouldDiscardPacket(p: RtpPacket) returns (discard: bool)
      requires Valid()
      modifies this`stats
      ensures stats == UpdateStats(old(stats), p.sequenceNumber)
      ensures discard == Discards(View(), p)
    {
      stats := UpdateStats(stats, p.sequenceNumber);
      if iFrameNeeded && !p.isIFrame {
        return true;
      }
      if p.timestamp < lastCompleted {
        return true;
      }
      if packets[readIdx].None? {
        return false;
      }
      var window := readIdx + packets.Length - writeIdx;
      if window > p.sequenceNumber {
        return false;
      }
      return p.sequenceNumber <= WrappingSub64(packets[readIdx].value.sequenceNumber, window);
    }

    method HandleNewWriteHead(s: u64, pos: nat)
      requires Valid() && pos < packets.Length
      modifies this, packets
      ensures Valid() && packets == old(packets) && stats == old(stats)
      ensures View() == NewWriteHead(old(View()), s, pos)
    {
      var oldWriteIdx := writeIdx;
      writeIdx, writeSeq := pos, Some(s);
      if Collides(readIdx, oldWriteIdx, pos) {
        ResyncOrClear();
      }
    }

    method ResyncOrClear()
      requires Valid()
      modifies this, packets
      ensures Valid() && packets == old(packets) && stats == old(stats)
      ensures View() == Resync(old(View()))
    {
      ghost var goal := Resync(View());
      if packets[readIdx].None? {
        ResetPointers();
        return;
      }
      var ts := packets[readIdx].value.timestamp;
      ghost var whole := Scan(packets[..], readIdx, writeIdx, ts, packets.Length);
      var i := 0;
      while i < packets.Length
        invariant i <= packets.Length && Valid()
        invariant packets == old(packets) && stats == old(stats)
        invariant writeIdx == old(writeIdx) && readSeq == old(readSeq) && writeSeq == old(writeSeq)
        invariant iFrameNeeded == old(iFrameNeeded)
        invariant lastCompleted == old(lastCompleted) && lastDeliver == old(lastDeliver)
        invariant Scan(packets[..], readIdx, writeIdx, ts, packets.Length - i) == whole
      {
        if packets[readIdx].Some? && packets[readIdx].value.isIFrame && packets[readIdx].value.timestamp != ts {
          readSeq := Some(packets[readIdx].value.sequenceNumber);
          iFrameNeeded := false;
          return;
        }
        ghost var before := packets[..];
        packets[readIdx] := None;
        assert packets[..] == before[readIdx := None];
        if readIdx == writeIdx {
          break;
        }
        readIdx := (readIdx + 1) % packets.Length;
        i := i + 1;
      }
      ResetPointers();
    }

    method ResetPointers()
      requires Valid()
      modifies this
      ensures Valid() && packets == old(packets) && stats == old(stats)
      ensures View() == Reset(old(View()), old(View()).slots)
    {
      readIdx, writeIdx := 0, 0;
      readSeq, writeSeq := None, None;
      iFrameNeeded := true;
    }

    method PrepareNextFrameTs(clock: Clock) returns (ts: Option<u128>, k: nat)
      requires Valid()
      modifies this, packets
      ensures Valid() && packets == old(packets) && stats == old(stats)
      ensures Prepare(old(View()), clock, 0) == Prepared(View(), ts, k)
    {
      k := 0;
      while true
        invariant Valid() && packets == old(packets) && stats == old(stats)
        invariant Prepare(View(), clock, k) == Prepare(old(View()), clock, 0)
        decreases Occupied(packets[..])
      {
        if packets[readIdx].None? {
          return None, k;
        }
        var stamp := packets[readIdx].value.timestamp;
        var now := clock(k);
        k := k + 1;
        if lastDeliver == 0
          || (lastDeliver + (stamp - lastCompleted) + TOLERANCE_MILLIS) % TWO_128 >= now {
          return Some(stamp), k;
        }
        ResyncShrinks(View());
        ResyncOrClear();
        if writeSeq.None? || readSeq.None? {
          return None, k;
        }
      }
    }

    method AdvanceReadPointers(target: nat)
      requires Valid() && target < packets.Length
      modifies this, packets
      ensures Valid() && packets == old(packets) && stats == old(stats)
      ensures View() == Advance(old(View()), target)
    {
      ghost var cleared := ClearTo(packets[..], readIdx, target);
      while readIdx != target
        invariant Valid() && packets == old(packets)
        invariant unchanged(`writeIdx, `readSeq, `writeSeq, `iFrameNeeded, `lastCompleted, `lastDeliver, `stats)
        invariant ClearTo(packets[..], readIdx, target) == cleared
        decreases Distance(readIdx, target, packets.Length)
      {
        ghost var before := packets[..];
        packets[readIdx] := None;
        assert packets[..] == before[readIdx := None];
        readIdx := (readIdx + 1) % packets.Length;
      }
      var i := 0;
      ghost var next := FindNext(cleared, target, packets.Length);
      while i < packets.Length
        invariant i <= packets.Length && Valid() && packets == old(packets)
        invariant unchanged(`writeIdx, `readSeq, `writeSeq, `iFrameNeeded, `lastCompleted, `lastDeliver, `stats)
        invariant packets[..] == cleared
        invariant FindNext(cleared, readIdx, packets.Length - i) == next
      {
        if packets[readIdx].Some? {
          readSeq := Some(packets[readIdx].value.sequenceNumber);
          return;
        }
        readIdx := (readIdx + 1) % packets.Length;
        i := i + 1;
      }
      readSeq, writeSeq := None, None;
    }

    method RecordDelivery(p: RtpPacket, now: u128)
      requires Valid()
      modifies this
      ensures Valid() && packets == old(packets) && stats == old(stats)
      ensures View() == Synchronize(old(View()), p.timestamp, now).(
                          lastCompleted := p.timestamp, iFrameNeeded := old(iFrameNeeded) && !p.isIFrame)
    {
      if lastDeliver != 0 {
        lastDeliver := (lastDeliver + SaturatingSub(p.timestamp, lastCompleted)) % TWO_128;
      } else {
        lastDeliver := now;
      }
      lastCompleted := p.timestamp;
      if p.isIFrame {
        iFrameNeeded := false;
      }
    }

    method PopFrame(clock: Clock) returns (frame: Option<seq<u8>>)
      requires Valid()
      modifies this, packets
      ensures Valid() && packets == old(packets) && stats == old(stats)
      ensures Pop(old(View()), clock) == Popped(View(), frame)
    {
      var ts, k := PrepareNextFrameTs(clock);
      if ts.None? {
        return None;
      }
      var idx: nat := readIdx;
      var data, count, n := [], 0, packets.Length;
      ghost var ready := View();
      ghost var whole := Collect(ready.slots, readIdx, ts.value, [], 0, n);
      while n > 0
        invariant 0 <= n <= packets.Length && idx < packets.Length && 0 <= count
        invariant Valid() && packets == old(packets) && stats == old(stats) && View() == ready
        invariant Collect(ready.slots, idx, ts.value, data, count, n) == whole
      {
        if packets[idx].None? {
          return None;
        }
        var p := packets[idx].value;
        if p.timestamp != ts.value {
          return None;
        }
        data := data + p.payload;
        count := count + 1;
        idx := (idx + 1) % packets.Length;
        n := n - 1;
        if p.marker == 1 {
          if count == p.totalChunks {
            AdvanceReadPointers(idx);
            RecordDelivery(p, clock(k));
            return Some(data);
          }
          return None;
        }
      }
      return None;
    }
  }
}
