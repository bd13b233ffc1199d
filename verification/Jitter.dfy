/** The jitter buffer (src/transport/jitter_buffer/jitter.rs).
  *
  * `Buffer` is the abstract value of the ring. Each private operation of the source is a
  * function on it; the class `JitterBuffer` runs the loops in place and is proved to compute
  * these functions. The properties of the buffer are proved about the functions, in the
  * other Jitter* modules.
  */
module Jitter {
  import opened Common
  import opened Rtp
  import opened ModArith

  const TOLERANCE_MILLIS: nat := 120

  type Slots = seq<Option<RtpPacket>>

  /** The readings `clock.now()` gives during one call, in order. */
  type Clock = nat -> u128

  datatype Buffer = Buffer(
    slots: Slots,
    readIdx: nat,
    writeIdx: nat,
    readSeq: Option<u64>,
    writeSeq: Option<u64>,
    iFrameNeeded: bool,
    lastCompleted: u128,
    lastDeliver: u128)
  {
    predicate Shaped() {
      readIdx < |slots| && writeIdx < |slots|
    }
  }

  function Empty(n: nat): Buffer {
    Buffer(seq(n, _ => None), 0, 0, None, None, true, 0, 0)
  }

  /** How many slots hold a packet. */
  function Occupied(slots: Slots): nat {
    if slots == [] then 0
    else (if slots[0].Some? then 1 else 0) + Occupied(slots[1..])
  }

  // ----- resync_or_clear

  datatype ScanResult = ScanResult(slots: Slots, found: Option<nat>)

  /** Walks forward from `read`, emptying slots, until an I-frame of another timestamp. */
  function Scan(slots: Slots, read: nat, write: nat, ts: u128, n: nat): ScanResult
    requires read < |slots|
    decreases n
  {
    if n == 0 then ScanResult(slots, None)
    else if slots[read].Some? && slots[read].value.isIFrame && slots[read].value.timestamp != ts then
      ScanResult(slots, Some(read))
    else
      var cleared := slots[read := None];
      if read == write then ScanResult(cleared, None)
      else Scan(cleared, Next(read, |slots|), write, ts, n - 1)
  }

  lemma {:induction false} ScanShape(slots: Slots, read: nat, write: nat, ts: u128, n: nat)
    requires read < |slots|
    ensures var r := Scan(slots, read, write, ts, n);
      && |r.slots| == |slots|
      && (r.found.Some? ==> r.found.value < |slots| && r.slots[r.found.value].Some?)
      && forall i :: 0 <= i < |slots| ==> r.slots[i] == slots[i] || r.slots[i] == None
    decreases n
  {
    if n > 0 && read != write {
      ScanShape(slots[read := None], Next(read, |slots|), write, ts, n - 1);
    }
  }

  function Reset(b: Buffer, slots: Slots): Buffer {
    b.(slots := slots, readIdx := 0, writeIdx := 0, readSeq := None, writeSeq := None, iFrameNeeded := true)
  }

  function Resync(b: Buffer): (r: Buffer)
    requires b.Shaped()
    ensures r.Shaped() && |r.slots| == |b.slots|
  {
    if b.slots[b.readIdx].None? then Reset(b, b.slots)
    else
      var ts := b.slots[b.readIdx].value.timestamp;
      var r := Scan(b.slots, b.readIdx, b.writeIdx, ts, |b.slots|);
      ScanShape(b.slots, b.readIdx, b.writeIdx, ts, |b.slots|);
      match r.found
      case Some(i) =>
        b.(slots := r.slots, readIdx := i, iFrameNeeded := false,
           readSeq := Some(r.slots[i].value.sequenceNumber))
      case None => Reset(b, r.slots)
  }

  // ----- add

  function WrappingSub64(a: u64, b: nat): u64 {
    (a - b) % TWO_64
  }

  predicate ValidPacketSeqNum(b: Buffer, s: u64)
    requires b.Shaped()
  {
    match b.slots[b.readIdx]
    case Some(head) =>
      var window := b.readIdx + |b.slots| - b.writeIdx;
      window > s || s > WrappingSub64(head.sequenceNumber, window)
    case None => true
  }

  predicate Discards(b: Buffer, p: RtpPacket)
    requires b.Shaped()
  {
    || (b.iFrameNeeded && !p.isIFrame)
    || p.timestamp < b.lastCompleted
    || !ValidPacketSeqNum(b, p.sequenceNumber)
  }

  /** Whether the slot `pos` lies between the read and the write position of the ring. */
  predicate Collides(read: nat, write: nat, pos: nat) {
    if read <= write then read <= pos <= write else pos >= read || pos <= write
  }

  function NewWriteHead(b: Buffer, s: u64, pos: nat): (r: Buffer)
    requires b.Shaped() && pos < |b.slots|
    ensures r.Shaped() && |r.slots| == |b.slots|
  {
    var moved := b.(writeIdx := pos, writeSeq := Some(s));
    if Collides(b.readIdx, b.writeIdx, pos) then Resync(moved) else moved
  }

  function Store(b: Buffer, pos: nat, p: RtpPacket): Buffer
    requires pos < |b.slots|
  {
    b.(slots := b.slots[pos := Some(p)])
  }

  /** The buffer after the packet `p` arrives. */
  function Add(b: Buffer, p: RtpPacket): (r: Buffer)
    requires b.Shaped()
    ensures r.Shaped() && |r.slots| == |b.slots|
  {
    if Discards(b, p) then b
    else
      var s := p.sequenceNumber;
      var pos := s % |b.slots|;
      if b.readSeq.Some? && b.writeSeq.Some? then
        if s < b.readSeq.value then Store(b.(readIdx := pos, readSeq := Some(s)), pos, p)
        else if s > b.writeSeq.value then Store(NewWriteHead(b, s, pos), pos, p)
        else Store(b, pos, p)
      else
        Store(b.(readSeq := Some(s), writeSeq := Some(s), readIdx := pos, writeIdx := pos, iFrameNeeded := false),
              pos, p)
  }

  // ----- pop

  /** The last local instant at which a frame stamped `ts` may still be played, in wrapping u128. */
  function Deadline(b: Buffer, ts: u128): u128 {
    (b.lastDeliver + (ts - b.lastCompleted) + TOLERANCE_MILLIS) % TWO_128
  }

  predicate ValidPlayoutTime(b: Buffer, ts: u128, now: u128) {
    b.lastDeliver == 0 || Deadline(b, ts) >= now
  }

  lemma {:induction false} ClearingShrinks(slots: Slots, i: nat)
    requires i < |slots|
    ensures Occupied(slots[i := None]) == Occupied(slots) - (if slots[i].Some? then 1 else 0)
  {
    if i == 0 {
      assert slots[0 := None][1..] == slots[1..];
    } else {
      assert slots[i := None][1..] == slots[1..][i - 1 := None];
      ClearingShrinks(slots[1..], i - 1);
    }
  }

  lemma {:induction false} ScanShrinks(slots: Slots, read: nat, write: nat, ts: u128, n: nat)
    requires read < |slots|
    ensures Occupied(Scan(slots, read, write, ts, n).slots) <= Occupied(slots)
    decreases n
  {
    if n > 0 {
      ClearingShrinks(slots, read);
      if read != write {
        ScanShrinks(slots[read := None], Next(read, |slots|), write, ts, n - 1);
      }
    }
  }

  /** A resync from an occupied read slot empties at least that slot: this bounds the deadline loop. */
  lemma ResyncShrinks(b: Buffer)
    requires b.Shaped() && b.slots[b.readIdx].Some?
    ensures Occupied(Resync(b).slots) < Occupied(b.slots)
  {
    var ts := b.slots[b.readIdx].value.timestamp;
    var cleared := b.slots[b.readIdx := None];
    ClearingShrinks(b.slots, b.readIdx);
    if b.readIdx != b.writeIdx {
      ScanShrinks(cleared, Next(b.readIdx, |b.slots|), b.writeIdx, ts, |b.slots| - 1);
    }
  }

  datatype Prepared = Prepared(buffer: Buffer, ts: Option<u128>, readings: nat)

  /** Drops frames past their deadline; `k` counts the clock readings taken so far. */
  function Prepare(b: Buffer, clock: Clock, k: nat): (r: Prepared)
    requires b.Shaped()
    ensures r.buffer.Shaped() && |r.buffer.slots| == |b.slots|
    decreases Occupied(b.slots)
  {
    if b.slots[b.readIdx].None? then Prepared(b, None, k)
    else
      var ts := b.slots[b.readIdx].value.timestamp;
      if ValidPlayoutTime(b, ts, clock(k)) then Prepared(b, Some(ts), k + 1)
      else
        var next := Resync(b);
        ResyncShrinks(b);
        if next.writeSeq.None? || next.readSeq.None? then Prepared(next, None, k + 1)
        else Prepare(next, clock, k + 1)
  }

  datatype Collected = Collected(data: seq<u8>, endIdx: nat, last: RtpPacket)

  /** Walks the chunks of one timestamp up to the marker; `data` and `count` are what was walked. */
  function Collect(slots: Slots, idx: nat, ts: u128, data: seq<u8>, count: nat, n: nat): (r: Option<Collected>)
    requires idx < |slots|
    ensures r.Some? ==> r.value.endIdx < |slots|
    decreases n
  {
    if n == 0 || slots[idx].None? || slots[idx].value.timestamp != ts then None
    else
      var p := slots[idx].value;
      if p.marker == 1 then
        if count + 1 == p.totalChunks then Some(Collected(data + p.payload, Next(idx, |slots|), p)) else None
      else Collect(slots, Next(idx, |slots|), ts, data + p.payload, count + 1, n - 1)
  }

  function Distance(from: nat, to: nat, n: nat): nat
    requires from < n && to < n
  {
    if from <= to then to - from else n - from + to
  }

  function ClearTo(slots: Slots, read: nat, target: nat): (r: Slots)
    requires read < |slots| && target < |slots|
    ensures |r| == |slots|
    decreases Distance(read, target, |slots|)
  {
    if read == target then slots else ClearTo(slots[read := None], Next(read, |slots|), target)
  }

  /** The first occupied slot at or after `read`, looking at `n` slots. */
  function FindNext(slots: Slots, read: nat, n: nat): (r: (nat, bool))
    requires read < |slots|
    ensures r.0 < |slots| && (r.1 ==> slots[r.0].Some?)
    decreases n
  {
    if n == 0 then (read, false)
    else if slots[read].Some? then (read, true)
    else FindNext(slots, Next(read, |slots|), n - 1)
  }

  function Advance(b: Buffer, target: nat): (r: Buffer)
    requires b.Shaped() && target < |b.slots|
    ensures r.Shaped() && |r.slots| == |b.slots|
  {
    var slots := ClearTo(b.slots, b.readIdx, target);
    var (idx, found) := FindNext(slots, target, |slots|);
    if found then b.(slots := slots, readIdx := idx, readSeq := Some(slots[idx].value.sequenceNumber))
    else b.(slots := slots, readIdx := idx, readSeq := None, writeSeq := None)
  }

  function SaturatingSub(a: nat, b: nat): nat {
    if a >= b then a - b else 0
  }

  /** Where the playout schedule stands after a frame stamped `ts`. */
  function Schedule(lastDeliver: u128, lastCompleted: u128, ts: u128, now: u128): nat {
    if lastDeliver == 0 then now else (lastDeliver + SaturatingSub(ts, lastCompleted)) % TWO_128
  }

  function Synchronize(b: Buffer, ts: u128, now: u128): Buffer {
    if b.lastDeliver != 0 then
      b.(lastDeliver := (b.lastDeliver + SaturatingSub(ts, b.lastCompleted)) % TWO_128)
    else b.(lastDeliver := now)
  }

  datatype Popped = Popped(buffer: Buffer, frame: Option<seq<u8>>)

  /** Delivers the frame found by `Collect`: advance, synchronise, record. */
  function Deliver(b: Buffer, c: Collected, now: u128): (r: Buffer)
    requires b.Shaped() && c.endIdx < |b.slots|
    ensures r.Shaped() && |r.slots| == |b.slots|
  {
    var synced := Synchronize(Advance(b, c.endIdx), c.last.timestamp, now);
    synced.(lastCompleted := c.last.timestamp,
            iFrameNeeded := if c.last.isIFrame then false else synced.iFrameNeeded)
  }

  function Pop(b: Buffer, clock: Clock): (r: Popped)
    requires b.Shaped()
    ensures r.buffer.Shaped() && |r.buffer.slots| == |b.slots|
  {
    var prep := Prepare(b, clock, 0);
    var ready := prep.buffer;
    if prep.ts.None? then Popped(ready, None)
    else
      match Collect(ready.slots, ready.readIdx, prep.ts.value, [], 0, |ready.slots|)
      case None => Popped(ready, None)
      case Some(c) => Popped(Deliver(ready, c, clock(prep.readings)), Some(c.data))
  }
}
