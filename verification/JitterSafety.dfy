/** What no arrival order can break: occupied read slot, intact frames, single use of packets. */
module JitterSafety {
  import opened Common
  import opened Rtp
  import opened Jitter
  import opened Sender
  import opened ModArith

  // ----- runs

  /** One call on the buffer: a packet arrives, or the playout loop asks for a frame. */
  datatype Event = Arrive(packet: RtpPacket) | Ask(clock: Clock)

  function Step(b: Buffer, e: Event): (r: Popped)
    requires b.Shaped()
    ensures r.buffer.Shaped() && |r.buffer.slots| == |b.slots|
  {
    match e
    case Arrive(p) => Popped(Add(b, p), None)
    case Ask(clock) => Pop(b, clock)
  }

  function Run(b: Buffer, es: seq<Event>): (r: Buffer)
    requires b.Shaped()
    ensures r.Shaped() && |r.slots| == |b.slots|
    decreases es
  {
    if es == [] then b else Run(Step(b, es[0]).buffer, es[1..])
  }

  /** The frames delivered along a run, in order. */
  function Delivered(b: Buffer, es: seq<Event>): seq<seq<u8>>
    requires b.Shaped()
    decreases es
  {
    if es == [] then []
    else
      var r := Step(b, es[0]);
      (if r.frame.Some? then [r.frame.value] else []) + Delivered(r.buffer, es[1..])
  }

  // ----- how each operation changes the slots

  predicate OnlyClears(from: Slots, to: Slots) {
    |from| == |to| && forall i :: 0 <= i < |to| ==> to[i] == from[i] || to[i] == None
  }

  lemma ResyncOnlyClears(b: Buffer)
    requires b.Shaped()
    ensures OnlyClears(b.slots, Resync(b).slots)
  {
    if b.slots[b.readIdx].Some? {
      ScanShape(b.slots, b.readIdx, b.writeIdx, b.slots[b.readIdx].value.timestamp, |b.slots|);
    }
  }

  lemma {:induction false} PrepareOnlyClears(b: Buffer, clock: Clock, k: nat)
    requires b.Shaped()
    ensures var r := Prepare(b, clock, k);
      && OnlyClears(b.slots, r.buffer.slots)
      && (r.ts.Some? ==>
            && r.buffer.slots[r.buffer.readIdx].Some?
            && r.buffer.slots[r.buffer.readIdx].value.timestamp == r.ts.value)
    decreases Occupied(b.slots)
  {
    if b.slots[b.readIdx].Some? && !ValidPlayoutTime(b, b.slots[b.readIdx].value.timestamp, clock(k)) {
      ResyncOnlyClears(b);
      ResyncShrinks(b);
      var next := Resync(b);
      if next.writeSeq.Some? && next.readSeq.Some? {
        PrepareOnlyClears(next, clock, k + 1);
      }
    }
  }

  lemma {:induction false} ClearToOnlyClears(slots: Slots, read: nat, target: nat)
    requires read < |slots| && target < |slots|
    ensures OnlyClears(slots, ClearTo(slots, read, target))
    decreases Distance(read, target, |slots|)
  {
    if read != target {
      ClearToOnlyClears(slots[read := None], Next(read, |slots|), target);
    }
  }

  lemma PopOnlyClears(b: Buffer, clock: Clock)
    requires b.Shaped()
    ensures OnlyClears(b.slots, Pop(b, clock).buffer.slots)
  {
    PrepareOnlyClears(b, clock, 0);
    var prep := Prepare(b, clock, 0);
    var ready := prep.buffer;
    if prep.ts.Some? {
      var found := Collect(ready.slots, ready.readIdx, prep.ts.value, [], 0, |ready.slots|);
      if found.Some? {
        ClearToOnlyClears(ready.slots, ready.readIdx, found.value.endIdx);
      }
    }
  }

  /** An arrival changes nothing but its own slot, apart from clearing. */
  lemma AddStoresInPlace(b: Buffer, p: RtpPacket)
    requires b.Shaped()
    ensures var r := Add(b, p);
      forall i :: 0 <= i < |r.slots| ==>
        || r.slots[i] == b.slots[i]
        || r.slots[i] == None
        || (i == p.sequenceNumber % |b.slots| && r.slots[i] == Some(p))
  {
    var pos := p.sequenceNumber % |b.slots|;
    ResyncOnlyClears(b.(writeIdx := pos, writeSeq := Some(p.sequenceNumber)));
  }

  // ----- the read slot is occupied whenever a read sequence number is set

  predicate ReadSlotHeld(b: Buffer)
    requires b.Shaped()
  {
    b.readSeq.Some? ==> b.slots[b.readIdx].Some?
  }

  lemma ResyncHoldsReadSlot(b: Buffer)
    requires b.Shaped()
    ensures ReadSlotHeld(Resync(b))
  {
    if b.slots[b.readIdx].Some? {
      ScanShape(b.slots, b.readIdx, b.writeIdx, b.slots[b.readIdx].value.timestamp, |b.slots|);
    }
  }

  lemma AddHoldsReadSlot(b: Buffer, p: RtpPacket)
    requires b.Shaped() && ReadSlotHeld(b)
    ensures ReadSlotHeld(Add(b, p))
  {
    ResyncHoldsReadSlot(b.(writeIdx := p.sequenceNumber % |b.slots|, writeSeq := Some(p.sequenceNumber)));
  }

  lemma {:induction false} PrepareHoldsReadSlot(b: Buffer, clock: Clock, k: nat)
    requires b.Shaped() && ReadSlotHeld(b)
    ensures ReadSlotHeld(Prepare(b, clock, k).buffer)
    decreases Occupied(b.slots)
  {
    if b.slots[b.readIdx].Some? && !ValidPlayoutTime(b, b.slots[b.readIdx].value.timestamp, clock(k)) {
      ResyncHoldsReadSlot(b);
      ResyncShrinks(b);
      var next := Resync(b);
      if next.writeSeq.Some? && next.readSeq.Some? {
        PrepareHoldsReadSlot(next, clock, k + 1);
      }
    }
  }

  /** In every reachable buffer a set read sequence number means an occupied read slot. */
  lemma {:induction false} ReadSlotAlwaysHeld(b: Buffer, es: seq<Event>)
    requires b.Shaped() && ReadSlotHeld(b)
    ensures ReadSlotHeld(Run(b, es))
    decreases es
  {
    if es != [] {
      match es[0] {
        case Arrive(p) => AddHoldsReadSlot(b, p);
        case Ask(clock) => PrepareHoldsReadSlot(b, clock, 0);
      }
      ReadSlotAlwaysHeld(Step(b, es[0]).buffer, es[1..]);
    }
  }

  /** `Resync` without its "no packet at read index" branch. */
  function ResyncOccupied(b: Buffer): Buffer
    requires b.Shaped() && b.slots[b.readIdx].Some?
  {
    var ts := b.slots[b.readIdx].value.timestamp;
    var r := Scan(b.slots, b.readIdx, b.writeIdx, ts, |b.slots|);
    ScanShape(b.slots, b.readIdx, b.writeIdx, ts, |b.slots|);
    match r.found
    case Some(i) =>
      b.(slots := r.slots, readIdx := i, iFrameNeeded := false,
         readSeq := Some(r.slots[i].value.sequenceNumber))
    case None => Reset(b, r.slots)
  }

  /** After any run from the empty buffer, an arrival that collides resyncs from an occupied slot. */
  lemma EmptyReadBranchUnreachable(n: nat, es: seq<Event>, p: RtpPacket)
    requires n > 0
    ensures var b := Run(Empty(n), es);
      var pos := p.sequenceNumber % n;
      !Discards(b, p) && b.readSeq.Some? && b.writeSeq.Some? && p.sequenceNumber > b.writeSeq.value
        && p.sequenceNumber >= b.readSeq.value && Collides(b.readIdx, b.writeIdx, pos)
      ==> && b.slots[b.readIdx].Some?
          && Add(b, p) == Store(ResyncOccupied(b.(writeIdx := pos, writeSeq := Some(p.sequenceNumber))), pos, p)
  {
    ReadSlotAlwaysHeld(Empty(n), es);
  }

  // ----- no corrupted frame is ever delivered

  /** Every slot holds a packet of the stream, at its number modulo the capacity. */
  ghost predicate Stocked(s: Stream, slots: Slots) {
    forall i :: 0 <= i < |slots| && slots[i].Some? ==>
      Sent(s, slots[i].value) && slots[i].value.sequenceNumber % |slots| == i
  }

  predicate DistinctStamps(s: Stream) {
    forall i, j :: 0 <= i < j < |s.frames| ==> s.frames[i].timestamp != s.frames[j].timestamp
  }

  /** Whether the chunk count survives its cast to a byte, or is cast to a count no frame can meet. */
  predicate Countable(f: Frame) {
    |f.chunks| < TWO_8 || |f.chunks| % TWO_8 == 0
  }

  predicate SoundStream(s: Stream) {
    && DistinctStamps(s)
    && s.first + ChunkCount(s.frames) <= TWO_64
    && forall j :: 0 <= j < |s.frames| ==> Countable(s.frames[j])
  }

  lemma SeqOfChunk(s: Stream, j: nat, k: nat)
    requires s.first + ChunkCount(s.frames) <= TWO_64
    requires j < |s.frames| && k < |s.frames[j].chunks|
    ensures PacketOf(s.frames[j], FirstSeq(s, j), k, s.cfg).sequenceNumber == FirstSeq(s, j) + k
  {
    ChunkCountSplit(s.frames, j);
  }

  /** The chunk found in the slot where chunk `k` of frame `j` belongs is chunk `k` of frame `j`. */
  lemma SlotHoldsChunk(s: Stream, slots: Slots, idx: nat, j: nat, k: nat)
    requires SoundStream(s) && Stocked(s, slots) && |slots| >= TWO_8
    requires j < |s.frames| && k < |s.frames[j].chunks| < TWO_8
    requires idx < |slots| && idx == (FirstSeq(s, j) + k) % |slots|
    requires slots[idx].Some? && slots[idx].value.timestamp == s.frames[j].timestamp
    ensures Carries(s, slots[idx].value, j, k)
  {
    var p := slots[idx].value;
    var j': nat, k': nat :| Carries(s, p, j', k');
    assert j' == j;
    SeqOfChunk(s, j, k');
    SameResidue(FirstSeq(s, j), k', k, |slots|);
  }

  /** The chunks walked so far, extended by one chunk. */
  lemma ChunkRun(chunks: seq<seq<u8>>, k0: nat, k: nat)
    requires k0 <= k < |chunks|
    ensures Flatten(chunks[k0..k]) + chunks[k] == Flatten(chunks[k0..k + 1])
  {
    FlattenAppend(chunks[k0..k], chunks[k]);
    assert chunks[k0..k] + [chunks[k]] == chunks[k0..k + 1];
  }

  lemma {:induction false} CollectIsWholeFrame(
    s: Stream, slots: Slots, idx: nat, j: nat, k0: nat, k: nat, n: nat, data: seq<u8>)
    requires SoundStream(s) && Stocked(s, slots) && |slots| >= TWO_8
    requires j < |s.frames| && k0 <= k < |s.frames[j].chunks| < TWO_8
    requires idx < |slots| && idx == (FirstSeq(s, j) + k) % |slots|
    requires data == Flatten(s.frames[j].chunks[k0..k])
    ensures var r := Collect(slots, idx, s.frames[j].timestamp, data, k - k0, n);
      r.Some? ==> r.value.data == Flatten(s.frames[j].chunks)
    decreases n
  {
    hide Flatten, SoundStream, Stocked, FirstSeq;
    var chunks := s.frames[j].chunks;
    if n > 0 && slots[idx].Some? && slots[idx].value.timestamp == s.frames[j].timestamp {
      SlotHoldsChunk(s, slots, idx, j, k);
      ChunkRun(chunks, k0, k);
      if k + 1 < |chunks| {
        ModPlusOne(FirstSeq(s, j) + k, |slots|);
        CollectIsWholeFrame(s, slots, Next(idx, |slots|), j, k0, k + 1, n - 1, data + chunks[k]);
      } else if k0 == 0 {
        assert chunks[k0..k + 1] == chunks;
      }
    }
  }

  lemma {:induction false} UncountableNeverCollects(
    s: Stream, slots: Slots, idx: nat, j: nat, data: seq<u8>, count: nat, n: nat)
    requires SoundStream(s) && Stocked(s, slots)
    requires j < |s.frames| && |s.frames[j].chunks| % TWO_8 == 0 && idx < |slots|
    ensures Collect(slots, idx, s.frames[j].timestamp, data, count, n).None?
    decreases n
  {
    if n > 0 && slots[idx].Some? && slots[idx].value.timestamp == s.frames[j].timestamp {
      var p := slots[idx].value;
      var j': nat, k': nat :| Carries(s, p, j', k');
      assert j' == j && p.totalChunks == 0;
      UncountableNeverCollects(s, slots, Next(idx, |slots|), j, data + p.payload, count + 1, n - 1);
    }
  }

  ghost predicate IsFrameOf(s: Stream, data: seq<u8>) {
    exists j :: 0 <= j < |s.frames| && data == Flatten(s.frames[j].chunks)
  }

  lemma CollectFromHead(s: Stream, slots: Slots, idx: nat)
    requires SoundStream(s) && Stocked(s, slots) && |slots| >= TWO_8
    requires idx < |slots| && slots[idx].Some?
    ensures var r := Collect(slots, idx, slots[idx].value.timestamp, [], 0, |slots|);
      r.Some? ==> IsFrameOf(s, r.value.data)
  {
    var j: nat, k: nat :| Carries(s, slots[idx].value, j, k);
    SeqOfChunk(s, j, k);
    if |s.frames[j].chunks| < TWO_8 {
      assert s.frames[j].chunks[k..k] == [];
      CollectIsWholeFrame(s, slots, idx, j, k, k, |slots|, []);
    } else {
      UncountableNeverCollects(s, slots, idx, j, [], 0, |slots|);
    }
  }

  lemma PopIsWholeFrame(s: Stream, b: Buffer, clock: Clock)
    requires SoundStream(s) && b.Shaped() && Stocked(s, b.slots) && |b.slots| >= TWO_8
    ensures var r := Pop(b, clock); r.frame.Some? ==> IsFrameOf(s, r.frame.value)
  {
    PrepareOnlyClears(b, clock, 0);
    var prep := Prepare(b, clock, 0);
    if prep.ts.Some? {
      assert Stocked(s, prep.buffer.slots);
      CollectFromHead(s, prep.buffer.slots, prep.buffer.readIdx);
    }
  }

  lemma StepKeepsStocked(s: Stream, b: Buffer, e: Event)
    requires b.Shaped() && Stocked(s, b.slots) && (e.Arrive? ==> Sent(s, e.packet))
    ensures Stocked(s, Step(b, e).buffer.slots)
  {
    match e
    case Arrive(p) => AddStoresInPlace(b, p);
    case Ask(clock) => PopOnlyClears(b, clock);
  }

  /** Whatever the network loses, reorders or repeats, every frame delivered is a frame sent. */
  lemma {:induction false} NoCorruptedFrame(s: Stream, b: Buffer, es: seq<Event>)
    requires SoundStream(s) && b.Shaped() && Stocked(s, b.slots) && |b.slots| >= TWO_8
    requires forall e :: e in es && e.Arrive? ==> Sent(s, e.packet)
    ensures forall data :: data in Delivered(b, es) ==> IsFrameOf(s, data)
    decreases es
  {
    if es != [] {
      StepKeepsStocked(s, b, es[0]);
      if es[0].Ask? {
        PopIsWholeFrame(s, b, es[0].clock);
      }
      NoCorruptedFrame(s, Step(b, es[0]).buffer, es[1..]);
    }
  }

  // ----- each arrival is used at most once

  function Is(c: Option<RtpPacket>, q: RtpPacket): nat {
    if c == Some(q) then 1 else 0
  }

  /** How many slots hold the packet `q`. */
  function Held(slots: Slots, q: RtpPacket): nat {
    if slots == [] then 0 else Is(slots[0], q) + Held(slots[1..], q)
  }

  lemma {:induction false} HeldUpdate(slots: Slots, i: nat, c: Option<RtpPacket>, q: RtpPacket)
    requires i < |slots|
    ensures Held(slots[i := c], q) == Held(slots, q) - Is(slots[i], q) + Is(c, q)
  {
    if i == 0 {
      assert slots[0 := c][1..] == slots[1..];
    } else {
      assert slots[i := c][1..] == slots[1..][i - 1 := c];
      HeldUpdate(slots[1..], i - 1, c, q);
    }
  }

  lemma {:induction false} ScanHolds(slots: Slots, read: nat, write: nat, ts: u128, n: nat, q: RtpPacket)
    requires read < |slots|
    ensures Held(Scan(slots, read, write, ts, n).slots, q) <= Held(slots, q)
    decreases n
  {
    if n > 0 {
      HeldUpdate(slots, read, None, q);
      if read != write {
        ScanHolds(slots[read := None], Next(read, |slots|), write, ts, n - 1, q);
      }
    }
  }

  lemma ResyncHolds(b: Buffer, q: RtpPacket)
    requires b.Shaped()
    ensures Held(Resync(b).slots, q) <= Held(b.slots, q)
  {
    if b.slots[b.readIdx].Some? {
      ScanHolds(b.slots, b.readIdx, b.writeIdx, b.slots[b.readIdx].value.timestamp, |b.slots|, q);
    }
  }

  lemma {:induction false} PrepareHolds(b: Buffer, clock: Clock, k: nat, q: RtpPacket)
    requires b.Shaped()
    ensures Held(Prepare(b, clock, k).buffer.slots, q) <= Held(b.slots, q)
    decreases Occupied(b.slots)
  {
    if b.slots[b.readIdx].Some? && !ValidPlayoutTime(b, b.slots[b.readIdx].value.timestamp, clock(k)) {
      ResyncHolds(b, q);
      ResyncShrinks(b);
      var next := Resync(b);
      if next.writeSeq.Some? && next.readSeq.Some? {
        PrepareHolds(next, clock, k + 1, q);
      }
    }
  }

  lemma AddHolds(b: Buffer, p: RtpPacket, q: RtpPacket)
    requires b.Shaped()
    ensures Held(Add(b, p).slots, q) <= Held(b.slots, q) + (if !Discards(b, p) && p == q then 1 else 0)
  {
    if !Discards(b, p) {
      var pos := p.sequenceNumber % |b.slots|;
      var moved := b.(writeIdx := pos, writeSeq := Some(p.sequenceNumber));
      ResyncHolds(moved, q);
      HeldUpdate(b.slots, pos, Some(p), q);
      HeldUpdate(Resync(moved).slots, pos, Some(p), q);
    }
  }

  /** The first `m` packets from slot `idx` on. */
  function Walked(slots: Slots, idx: nat, m: nat): seq<RtpPacket>
    requires idx < |slots|
    decreases m
  {
    if m == 0 || slots[idx].None? then [] else [slots[idx].value] + Walked(slots, Next(idx, |slots|), m - 1)
  }

  function Count(ps: seq<RtpPacket>, q: RtpPacket): nat {
    if ps == [] then 0 else (if ps[0] == q then 1 else 0) + Count(ps[1..], q)
  }

  function Payloads(ps: seq<RtpPacket>): seq<u8> {
    if ps == [] then [] else ps[0].payload + Payloads(ps[1..])
  }

  /** The packets whose payloads make up the frame a `pop` delivers. */
  function Taken(b: Buffer, clock: Clock): seq<RtpPacket>
    requires b.Shaped()
  {
    var prep := Prepare(b, clock, 0);
    var ready := prep.buffer;
    if prep.ts.None? then []
    else
      match Collect(ready.slots, ready.readIdx, prep.ts.value, [], 0, |ready.slots|)
      case None => []
      case Some(c) => Walked(ready.slots, ready.readIdx, c.last.totalChunks)
  }

  /** Walking `m` slots never looks at a slot `m` or more places ahead. */
  lemma {:induction false} WalkLooksAhead(slots: Slots, far: nat, idx: nat, m: nat)
    requires far < |slots| && idx < |slots| && m <= Distance(idx, far, |slots|)
    ensures Walked(slots[far := None], idx, m) == Walked(slots, idx, m)
    decreases m
  {
    if m > 0 && slots[idx].Some? {
      WalkLooksAhead(slots, far, Next(idx, |slots|), m - 1);
    }
  }

  /** A collected frame spans as many slots as its last packet announces. */
  lemma {:induction false} CollectSpan(slots: Slots, idx: nat, ts: u128, data: seq<u8>, count: nat, n: nat)
    requires idx < |slots|
    ensures var r := Collect(slots, idx, ts, data, count, n);
      r.Some? ==>
        var m := r.value.last.totalChunks - count;
        && 1 <= m <= n
        && (m < |slots| ==> Distance(idx, r.value.endIdx, |slots|) == m)
    decreases n
  {
    if Collect(slots, idx, ts, data, count, n).Some? && slots[idx].value.marker != 1 {
      CollectSpan(slots, Next(idx, |slots|), ts, data + slots[idx].value.payload, count + 1, n - 1);
    }
  }

  /** A collected frame is the payloads of the packets in its span. */
  lemma {:induction false} CollectPayloads(slots: Slots, idx: nat, ts: u128, data: seq<u8>, count: nat, n: nat)
    requires idx < |slots|
    ensures var r := Collect(slots, idx, ts, data, count, n);
      r.Some? ==>
        var m := r.value.last.totalChunks - count;
        && m >= 0 && |Walked(slots, idx, m)| == m
        && r.value.data == data + Payloads(Walked(slots, idx, m))
    decreases n
  {
    var r := Collect(slots, idx, ts, data, count, n);
    if r.Some? {
      var p, next := slots[idx].value, Next(idx, |slots|);
      CollectSpan(slots, idx, ts, data, count, n);
      if p.marker != 1 {
        CollectPayloads(slots, next, ts, data + p.payload, count + 1, n - 1);
      }
      WalkPayloads(slots, idx, r.value.last.totalChunks - count, data);
    }
  }

  /** The payloads of a walk, one packet at a time. */
  lemma WalkPayloads(slots: Slots, idx: nat, m: nat, data: seq<u8>)
    requires idx < |slots| && m > 0 && slots[idx].Some?
    ensures var rest := Walked(slots, Next(idx, |slots|), m - 1);
      && |Walked(slots, idx, m)| == 1 + |rest|
      && data + Payloads(Walked(slots, idx, m)) == data + slots[idx].value.payload + Payloads(rest)
      && (m == 1 ==> Payloads(rest) == [] && rest == [])
  {
    var rest := Walked(slots, Next(idx, |slots|), m - 1);
    PayloadsCons(slots[idx].value, rest);
    assert Walked(slots, idx, m) == [slots[idx].value] + rest;
  }

  lemma PayloadsCons(p: RtpPacket, ps: seq<RtpPacket>)
    ensures Payloads([p] + ps) == p.payload + Payloads(ps)
  {
    assert ([p] + ps)[1..] == ps;
  }

  lemma CountCons(p: RtpPacket, ps: seq<RtpPacket>, q: RtpPacket)
    ensures Count([p] + ps, q) == (if p == q then 1 else 0) + Count(ps, q)
  {
    assert ([p] + ps)[1..] == ps;
  }

  /** Delivering a frame removes exactly the packets it was built from. */
  lemma {:induction false} ClearingRemovesWalk(slots: Slots, idx: nat, target: nat, m: nat, q: RtpPacket)
    requires idx < |slots| && target < |slots| && Distance(idx, target, |slots|) == m
    requires |Walked(slots, idx, m)| == m
    ensures Held(ClearTo(slots, idx, target), q) + Count(Walked(slots, idx, m), q) == Held(slots, q)
    decreases m
  {
    if m > 0 {
      var next := Next(idx, |slots|);
      HeldUpdate(slots, idx, None, q);
      WalkLooksAhead(slots, idx, next, m - 1);
      ClearingRemovesWalk(slots[idx := None], next, target, m - 1, q);
      CountCons(slots[idx].value, Walked(slots, next, m - 1), q);
    }
  }

  lemma DeliveryHolds(b: Buffer, ts: u128, q: RtpPacket)
    requires b.Shaped() && |b.slots| >= TWO_8
    ensures var found := Collect(b.slots, b.readIdx, ts, [], 0, |b.slots|);
      found.Some? ==>
        Held(ClearTo(b.slots, b.readIdx, found.value.endIdx), q)
        + Count(Walked(b.slots, b.readIdx, found.value.last.totalChunks), q) == Held(b.slots, q)
  {
    var found := Collect(b.slots, b.readIdx, ts, [], 0, |b.slots|);
    if found.Some? {
      CollectSpan(b.slots, b.readIdx, ts, [], 0, |b.slots|);
      CollectPayloads(b.slots, b.readIdx, ts, [], 0, |b.slots|);
      ClearingRemovesWalk(b.slots, b.readIdx, found.value.endIdx, found.value.last.totalChunks, q);
    }
  }

  /** A delivery consumes its packets: what is left and what was taken were all held before. */
  lemma PopHolds(b: Buffer, clock: Clock, q: RtpPacket)
    requires b.Shaped() && |b.slots| >= TWO_8
    ensures Held(Pop(b, clock).buffer.slots, q) + Count(Taken(b, clock), q) <= Held(b.slots, q)
  {
    PrepareHolds(b, clock, 0, q);
    var prep := Prepare(b, clock, 0);
    if prep.ts.Some? {
      DeliveryHolds(prep.buffer, prep.ts.value, q);
    }
  }

  /** The frame delivered is the payloads of the packets taken, in ring order. */
  lemma FrameIsTakenPayloads(b: Buffer, clock: Clock)
    requires b.Shaped()
    ensures var r := Pop(b, clock); r.frame.Some? ==> r.frame.value == Payloads(Taken(b, clock))
  {
    var prep := Prepare(b, clock, 0);
    if prep.ts.Some? {
      CollectPayloads(prep.buffer.slots, prep.buffer.readIdx, prep.ts.value, [], 0, |prep.buffer.slots|);
    }
  }

  /** How often a run accepts the arrival `q`. */
  ghost function Accepted(b: Buffer, es: seq<Event>, q: RtpPacket): nat
    requires b.Shaped()
    decreases es
  {
    if es == [] then 0
    else
      (if es[0] == Arrive(q) && !Discards(b, q) then 1 else 0)
      + Accepted(Step(b, es[0]).buffer, es[1..], q)
  }

  /** How often the packet `q` is part of a frame delivered along a run. */
  function Used(b: Buffer, es: seq<Event>, q: RtpPacket): nat
    requires b.Shaped()
    decreases es
  {
    if es == [] then 0
    else
      (if es[0].Ask? then Count(Taken(b, es[0].clock), q) else 0)
      + Used(Step(b, es[0]).buffer, es[1..], q)
  }

  /** Over any run a packet is delivered no more often than it was accepted. */
  lemma {:induction false} PacketsUsedOnce(b: Buffer, es: seq<Event>, q: RtpPacket)
    requires b.Shaped() && |b.slots| >= TWO_8
    ensures Used(b, es, q) + Held(Run(b, es).slots, q) <= Held(b.slots, q) + Accepted(b, es, q)
    decreases es
  {
    if es != [] {
      match es[0] {
        case Arrive(p) => AddHolds(b, p, q);
        case Ask(clock) => PopHolds(b, clock, q);
      }
      PacketsUsedOnce(Step(b, es[0]).buffer, es[1..], q);
    }
  }

  /** From the empty buffer: only genuine frames come out, and no arrival counts twice. */
  lemma OnlyGenuineFrames(s: Stream, n: nat, es: seq<Event>, q: RtpPacket)
    requires SoundStream(s) && n >= TWO_8
    requires forall e :: e in es && e.Arrive? ==> Sent(s, e.packet)
    ensures forall data :: data in Delivered(Empty(n), es) ==> IsFrameOf(s, data)
    ensures Used(Empty(n), es, q) <= Accepted(Empty(n), es, q)
  {
    NoCorruptedFrame(s, Empty(n), es);
    PacketsUsedOnce(Empty(n), es, q);
    NothingHeld(Empty(n).slots, q);
  }

  lemma {:induction false} NothingHeld(slots: Slots, q: RtpPacket)
    requires forall i :: 0 <= i < |slots| ==> slots[i] == None
    ensures Held(slots, q) == 0
  {
    if slots != [] {
      NothingHeld(slots[1..], q);
    }
  }
}
