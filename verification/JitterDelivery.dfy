/** In-order, lossless arrival: which streams come out complete, one frame at each marker. */
module JitterDelivery {
  import opened Common
  import opened Rtp
  import opened ModArith
  import opened Jitter
  import opened Sender

  // ----- the receiving loop: add one packet, then ask for a frame

  function Play(b: Buffer, ps: seq<RtpPacket>, cs: seq<Clock>): seq<Option<seq<u8>>>
    requires b.Shaped() && |cs| == |ps|
    decreases ps
  {
    if ps == [] then []
    else
      var r := Pop(Add(b, ps[0]), cs[0]);
      [r.frame] + Play(r.buffer, ps[1..], cs[1..])
  }

  function PlayOut(b: Buffer, ps: seq<RtpPacket>, cs: seq<Clock>): (r: Buffer)
    requires b.Shaped() && |cs| == |ps|
    ensures r.Shaped() && |r.slots| == |b.slots|
    decreases ps
  {
    if ps == [] then b else PlayOut(Pop(Add(b, ps[0]), cs[0]).buffer, ps[1..], cs[1..])
  }

  lemma {:induction false} PlaySplit(b: Buffer, ps: seq<RtpPacket>, qs: seq<RtpPacket>, cs: seq<Clock>, ds: seq<Clock>)
    requires b.Shaped() && |cs| == |ps| && |ds| == |qs|
    ensures Play(b, ps + qs, cs + ds) == Play(b, ps, cs) + Play(PlayOut(b, ps, cs), qs, ds)
    ensures PlayOut(b, ps + qs, cs + ds) == PlayOut(PlayOut(b, ps, cs), qs, ds)
    decreases ps
  {
    hide Pop, Add;
    if ps == [] {
      assert ps + qs == qs && cs + ds == ds;
    } else {
      assert (ps + qs)[1..] == ps[1..] + qs && (cs + ds)[1..] == cs[1..] + ds;
      PlaySplit(Pop(Add(b, ps[0]), cs[0]).buffer, ps[1..], qs, cs[1..], ds);
    }
  }

  /** Nothing until the marker, then the whole frame. */
  function Expected(f: Frame): seq<Option<seq<u8>>>
    requires f.chunks != []
  {
    seq(|f.chunks| - 1, _ => None) + [Some(Flatten(f.chunks))]
  }

  // ----- a buffer holding the first `k` chunks of a frame and nothing else

  predicate AllEmpty(slots: Slots) {
    forall i :: 0 <= i < |slots| ==> slots[i] == None
  }

  predicate Clear(b: Buffer) {
    b.Shaped() && AllEmpty(b.slots) && b.readSeq.None?
  }

  datatype Burst = Burst(frame: Frame, first: nat, cfg: MediaConfig)
  {
    ghost predicate Fits(n: nat) {
      && TWO_8 <= n < TWO_64 / 2
      && 1 <= |frame.chunks| < TWO_8
      && first + |frame.chunks| <= TWO_64
    }

    function Chunk(k: nat): RtpPacket
      requires k < |frame.chunks|
    {
      PacketOf(frame, first, k, cfg)
    }

    /** The slot of chunk `k` in a ring of `n` slots. */
    function Slot(k: nat, n: nat): nat
      requires n > 0
    {
      (first + k) % n
    }
  }

  predicate HoldsExactly(slots: Slots, u: Burst, k: nat)
    requires 0 < |slots| && k <= |u.frame.chunks|
  {
    && (forall m :: 0 <= m < k ==> slots[u.Slot(m, |slots|)] == Some(u.Chunk(m)))
    && (forall i :: 0 <= i < |slots| ==>
          slots[i] == None || (Distance(u.first % |slots|, i, |slots|) < k))
  }

  ghost predicate Partial(b: Buffer, u: Burst, k: nat) {
    && b.Shaped() && u.Fits(|b.slots|) && 1 <= k <= |u.frame.chunks|
    && b.readIdx == u.first % |b.slots|
    && b.writeIdx == (u.first + k - 1) % |b.slots|
    && b.readSeq == Some(u.first) && b.writeSeq == Some(u.first + k - 1)
    && !b.iFrameNeeded
    && b.lastCompleted <= u.frame.timestamp
    && HoldsExactly(b.slots, u, k)
  }

  lemma PlaceOf(first: nat, m: nat, n: nat)
    requires m < n
    ensures Distance(first % n, (first + m) % n, n) == m
  {
    ModPlus(first, m, n);
  }

  lemma StoringNext(slots: Slots, u: Burst, k: nat)
    requires u.Fits(|slots|) && k < |u.frame.chunks| && HoldsExactly(slots, u, k)
    ensures HoldsExactly(slots[(u.first + k) % |slots| := Some(u.Chunk(k))], u, k + 1)
  {
    var n := |slots|;
    var pos := (u.first + k) % n;
    forall m | 0 <= m < k
      ensures u.Slot(m, n) != pos
    {
      PlaceOf(u.first, m, n);
      PlaceOf(u.first, k, n);
    }
    PlaceOf(u.first, k, n);
  }

  lemma NextIsEmpty(slots: Slots, u: Burst, k: nat)
    requires u.Fits(|slots|) && k <= |u.frame.chunks| && HoldsExactly(slots, u, k)
    ensures slots[(u.first + k) % |slots|] == None
  {
    PlaceOf(u.first, k, |slots|);
  }

  // ----- arrivals

  lemma FirstChunkArrives(b: Buffer, u: Burst)
    requires Clear(b) && u.Fits(|b.slots|)
    requires b.iFrameNeeded ==> u.frame.isIFrame
    requires b.lastCompleted <= u.frame.timestamp
    ensures Partial(Add(b, u.Chunk(0)), u, 1)
    ensures Add(b, u.Chunk(0)).lastCompleted == b.lastCompleted && Add(b, u.Chunk(0)).lastDeliver == b.lastDeliver
  {
    assert HoldsExactly(b.slots, u, 0);
    StoringNext(b.slots, u, 0);
  }

  /** When `k` chunks of a frame that began at `first` are held, the next one is refused. */
  predicate Refuses(first: nat, k: nat, n: nat) {
    first < n && first + 2 * k - 1 >= n
  }

  lemma WindowOf(b: Buffer, u: Burst, k: nat)
    requires Partial(b, u, k) && k < |b.slots|
    ensures var n := |b.slots|;
      var w := b.readIdx + n - b.writeIdx;
      w == if u.first % n + k - 1 < n then n - (k - 1) else 2 * n - (k - 1)
  {
    ModPlus(u.first, k - 1, |b.slots|);
  }

  /** The acceptance test of an in-order chunk, in closed form. */
  lemma AcceptanceExact(b: Buffer, u: Burst, k: nat, m: nat)
    requires Partial(b, u, k) && k <= m < |u.frame.chunks|
    requires u.first < |b.slots| ==> u.first + k - 1 < |b.slots|
    ensures m == k ==> (Discards(b, u.Chunk(m)) <==> Refuses(u.first, k, |b.slots|))
    ensures Refuses(u.first, k, |b.slots|) ==> Discards(b, u.Chunk(m))
  {
    var n := |b.slots|;
    var w := b.readIdx + n - b.writeIdx;
    WindowOf(b, u, k);
    HeadIsFirst(b, u, k);
    if u.first < n {
      ModOfSmall(u.first, n);
    } else if u.first < 2 * n {
      ModUnique(u.first, 1, u.first - n, n);
    }
    WrapCases(u.first, w);
  }

  lemma HeadIsFirst(b: Buffer, u: Burst, k: nat)
    requires Partial(b, u, k)
    ensures b.slots[b.readIdx] == Some(u.Chunk(0)) && u.Chunk(0).sequenceNumber == u.first
  {
    assert u.Slot(0, |b.slots|) == b.readIdx;
  }

  lemma WrapCases(a: u64, w: nat)
    requires w < TWO_64
    ensures WrappingSub64(a, w) == if w <= a then a - w else a - w + TWO_64
  {
  }

  lemma NextChunkArrives(b: Buffer, u: Burst, k: nat)
    requires Partial(b, u, k) && k < |u.frame.chunks|
    requires u.first < |b.slots| ==> u.first + k - 1 < |b.slots|
    requires !Refuses(u.first, k, |b.slots|)
    ensures Partial(Add(b, u.Chunk(k)), u, k + 1)
    ensures Add(b, u.Chunk(k)).lastCompleted == b.lastCompleted && Add(b, u.Chunk(k)).lastDeliver == b.lastDeliver
  {
    var n := |b.slots|;
    AcceptanceExact(b, u, k, k);
    ModPlus(u.first, k, n);
    ModPlus(u.first, k - 1, n);
    assert !Collides(b.readIdx, b.writeIdx, (u.first + k) % n);
    StoringNext(b.slots, u, k);
  }

  // ----- asking for a frame

  lemma PrefixStep(chunks: seq<seq<u8>>, m: nat)
    requires m < |chunks|
    ensures Flatten(chunks[..m]) + chunks[m] == Flatten(chunks[..m + 1])
  {
    FlattenAppend(chunks[..m], chunks[m]);
    assert chunks[..m] + [chunks[m]] == chunks[..m + 1];
  }

  /** Walking the held chunks from chunk `m` on, when the frame is incomplete. */
  lemma {:induction false} CollectIncomplete(slots: Slots, u: Burst, k: nat, m: nat, data: seq<u8>, n: nat)
    requires u.Fits(|slots|) && m <= k < |u.frame.chunks| && HoldsExactly(slots, u, k)
    ensures Collect(slots, u.Slot(m, |slots|), u.frame.timestamp, data, m, n).None?
    decreases n
  {
    if m == k {
      NextIsEmpty(slots, u, k);
    } else if n > 0 {
      assert slots[u.Slot(m, |slots|)] == Some(u.Chunk(m));
      ModPlusOne(u.first + m, |slots|);
      CollectIncomplete(slots, u, k, m + 1, data + u.Chunk(m).payload, n - 1);
    }
  }

  /** Walking the held chunks from chunk `m` on, when they all are there. */
  lemma {:induction false} CollectComplete(slots: Slots, u: Burst, m: nat, data: seq<u8>, n: nat)
    requires u.Fits(|slots|) && m < |u.frame.chunks| && HoldsExactly(slots, u, |u.frame.chunks|)
    requires |u.frame.chunks| - m <= n && data == Flatten(u.frame.chunks[..m])
    ensures var c := |u.frame.chunks|;
      Collect(slots, u.Slot(m, |slots|), u.frame.timestamp, data, m, n)
      == Some(Collected(Flatten(u.frame.chunks), u.Slot(c, |slots|), u.Chunk(c - 1)))
    decreases n
  {
    assert slots[u.Slot(m, |slots|)] == Some(u.Chunk(m));
    PrefixStep(u.frame.chunks, m);
    ModPlusOne(u.first + m, |slots|);
    hide Flatten;
    if m + 1 < |u.frame.chunks| {
      CollectComplete(slots, u, m + 1, data + u.Chunk(m).payload, n - 1);
    } else {
      assert u.frame.chunks[..m + 1] == u.frame.chunks;
    }
  }

  predicate Punctual(b: Buffer, u: Burst, clock: Clock) {
    ValidPlayoutTime(b, u.frame.timestamp, clock(0))
  }

  lemma PopOfPartial(b: Buffer, u: Burst, k: nat, clock: Clock)
    requires Partial(b, u, k) && k < |u.frame.chunks| && Punctual(b, u, clock)
    ensures Pop(b, clock) == Popped(b, None)
  {
    HeadIsFirst(b, u, k);
    CollectIncomplete(b.slots, u, k, 0, [], |b.slots|);
  }

  /** Clearing forward empties every slot on the way. */
  lemma {:induction false} ClearToEmpties(slots: Slots, read: nat, target: nat)
    requires read < |slots| && target < |slots|
    ensures var r := ClearTo(slots, read, target);
      forall i :: 0 <= i < |slots| ==>
        r[i] == if Distance(read, i, |slots|) < Distance(read, target, |slots|) then None else slots[i]
    decreases Distance(read, target, |slots|)
  {
    if read != target {
      ClearToEmpties(slots[read := None], Next(read, |slots|), target);
    }
  }

  lemma {:induction false} NothingToFind(slots: Slots, read: nat, n: nat)
    requires read < |slots| && AllEmpty(slots)
    ensures !FindNext(slots, read, n).1
    decreases n
  {
    if n > 0 {
      NothingToFind(slots, Next(read, |slots|), n - 1);
    }
  }

  lemma DeliveryClears(b: Buffer, u: Burst)
    requires Partial(b, u, |u.frame.chunks|)
    ensures Clear(Advance(b, (u.first + |u.frame.chunks|) % |b.slots|))
  {
    hide Pop, Add, FindNext, ClearTo;
    var n, c := |b.slots|, |u.frame.chunks|;
    PlaceOf(u.first, c, n);
    ClearToEmpties(b.slots, b.readIdx, (u.first + c) % n);
    NothingToFind(ClearTo(b.slots, b.readIdx, (u.first + c) % n), (u.first + c) % n, n);
  }

  lemma PopOfWhole(b: Buffer, u: Burst, clock: Clock)
    requires Partial(b, u, |u.frame.chunks|) && Punctual(b, u, clock)
    ensures var r := Pop(b, clock);
      && r.frame == Some(Flatten(u.frame.chunks))
      && Clear(r.buffer) && !r.buffer.iFrameNeeded
      && r.buffer.lastCompleted == u.frame.timestamp
      && r.buffer.lastDeliver == Schedule(b.lastDeliver, b.lastCompleted, u.frame.timestamp, clock(1))
  {
    hide Add, ClearTo, FindNext;
    HeadIsFirst(b, u, |u.frame.chunks|);
    assert u.frame.chunks[..0] == [];
    CollectComplete(b.slots, u, 0, [], |b.slots|);
    DeliveryClears(b, u);
  }

  // ----- one frame

  /** The frames whose in-order chunks are all accepted by a ring of `n` slots. */
  predicate Roomy(first: nat, c: nat, n: nat) {
    first >= n || c <= 1 || first + 2 * c - 3 < n
  }

  /** Playing chunk `k` and the rest of the frame, once `k` chunks are held. */
  lemma {:induction false} RestOfFramePlays(b: Buffer, u: Burst, k: nat, cs: seq<Clock>)
    requires Partial(b, u, k) && k < |u.frame.chunks|
    requires Roomy(u.first, |u.frame.chunks|, |b.slots|)
    requires |cs| == |u.frame.chunks| - k && forall i :: 0 <= i < |cs| ==> Punctual(b, u, cs[i])
    ensures var ps := PacketsOf(u.frame, u.first, u.cfg)[k..];
      && Play(b, ps, cs) == Expected(u.frame)[k..]
      && Played(b, PlayOut(b, ps, cs), u, cs[|cs| - 1])
    decreases |cs|
  {
    hide Pop, Add;
    var all := PacketsOf(u.frame, u.first, u.cfg);
    var ps := all[k..];
    var e := Expected(u.frame);
    NextChunkArrives(b, u, k);
    var b' := Add(b, u.Chunk(k));
    assert ps[0] == u.Chunk(k) && ps[1..] == all[k + 1..];
    if k + 1 == |u.frame.chunks| {
      PopOfWhole(b', u, cs[0]);
      assert ps[1..] == [] && e[k..] == [Some(Flatten(u.frame.chunks))];
    } else {
      PopOfPartial(b', u, k + 1, cs[0]);
      RestOfFramePlays(b', u, k + 1, cs[1..]);
      assert e[k..] == [None] + e[k + 1..];
    }
  }

  /** The state a completely played frame leaves behind. */
  predicate Played(before: Buffer, after: Buffer, u: Burst, clock: Clock) {
    && Clear(after) && !after.iFrameNeeded && |after.slots| == |before.slots|
    && after.lastCompleted == u.frame.timestamp
    && after.lastDeliver == Schedule(before.lastDeliver, before.lastCompleted, u.frame.timestamp, clock(1))
  }

  lemma FramePlays(b: Buffer, u: Burst, cs: seq<Clock>)
    requires Clear(b) && u.Fits(|b.slots|) && Roomy(u.first, |u.frame.chunks|, |b.slots|)
    requires b.iFrameNeeded ==> u.frame.isIFrame
    requires b.lastCompleted <= u.frame.timestamp
    requires |cs| == |u.frame.chunks| && forall i :: 0 <= i < |cs| ==> Punctual(b, u, cs[i])
    ensures var ps := PacketsOf(u.frame, u.first, u.cfg);
      && Play(b, ps, cs) == Expected(u.frame)
      && Played(b, PlayOut(b, ps, cs), u, cs[|cs| - 1])
  {
    hide Pop, Add;
    var ps := PacketsOf(u.frame, u.first, u.cfg);
    FirstChunkArrives(b, u);
    var b' := Add(b, u.Chunk(0));
    assert ps[0] == u.Chunk(0);
    if |u.frame.chunks| == 1 {
      PopOfWhole(b', u, cs[0]);
      assert ps[1..] == [];
    } else {
      PopOfPartial(b', u, 1, cs[0]);
      RestOfFramePlays(b', u, 1, cs[1..]);
      assert Expected(u.frame) == [None] + Expected(u.frame)[1..];
    }
  }

  // ----- a frame that straddles the refusing zone

  /** Once a chunk is refused, the rest of the frame is refused too and nothing comes out. */
  lemma {:induction false} RestOfFrameStuck(b: Buffer, u: Burst, k: nat, m: nat, cs: seq<Clock>)
    requires Partial(b, u, k) && k <= m < |u.frame.chunks|
    requires u.first + k - 1 < |b.slots| && Refuses(u.first, k, |b.slots|)
    requires |cs| == |u.frame.chunks| - m && forall i :: 0 <= i < |cs| ==> Punctual(b, u, cs[i])
    ensures var ps := PacketsOf(u.frame, u.first, u.cfg)[m..];
      var out := Play(b, ps, cs);
      |out| == |cs| && out[|out| - 1].None?
    decreases |cs|
  {
    hide Pop;
    var all := PacketsOf(u.frame, u.first, u.cfg);
    assert all[m..][0] == u.Chunk(m) && all[m..][1..] == all[m + 1..];
    AcceptanceExact(b, u, k, m);
    PopOfPartial(b, u, k, cs[0]);
    if m + 1 < |u.frame.chunks| {
      RestOfFrameStuck(b, u, k, m + 1, cs[1..]);
    }
  }

  lemma {:induction false} FrameReachesRefusal(b: Buffer, u: Burst, k: nat, cs: seq<Clock>)
    requires Partial(b, u, k) && k < |u.frame.chunks|
    requires u.first + k - 1 < |b.slots| && u.first + 2 * (k - 1) - 1 < |b.slots|
    requires !Roomy(u.first, |u.frame.chunks|, |b.slots|)
    requires |cs| == |u.frame.chunks| - k && forall i :: 0 <= i < |cs| ==> Punctual(b, u, cs[i])
    ensures var out := Play(b, PacketsOf(u.frame, u.first, u.cfg)[k..], cs);
      |out| == |cs| && out[|out| - 1].None?
    decreases |cs|
  {
    hide Pop, Add;
    if Refuses(u.first, k, |b.slots|) {
      RestOfFrameStuck(b, u, k, k, cs);
    } else {
      var all := PacketsOf(u.frame, u.first, u.cfg);
      assert all[k..][0] == u.Chunk(k) && all[k..][1..] == all[k + 1..];
      NextChunkArrives(b, u, k);
      var b' := Add(b, u.Chunk(k));
      PopOfPartial(b', u, k + 1, cs[0]);
      FrameReachesRefusal(b', u, k + 1, cs[1..]);
    }
  }

  lemma FrameStuck(b: Buffer, u: Burst, cs: seq<Clock>)
    requires Clear(b) && u.Fits(|b.slots|) && !Roomy(u.first, |u.frame.chunks|, |b.slots|)
    requires b.iFrameNeeded ==> u.frame.isIFrame
    requires b.lastCompleted <= u.frame.timestamp
    requires |cs| == |u.frame.chunks| && forall i :: 0 <= i < |cs| ==> Punctual(b, u, cs[i])
    ensures var out := Play(b, PacketsOf(u.frame, u.first, u.cfg), cs);
      |out| == |cs| && out[|out| - 1].None?
  {
    hide Pop, Add;
    var ps := PacketsOf(u.frame, u.first, u.cfg);
    FirstChunkArrives(b, u);
    var b' := Add(b, u.Chunk(0));
    assert ps[0] == u.Chunk(0);
    PopOfPartial(b', u, 1, cs[0]);
    FrameReachesRefusal(b', u, 1, cs[1..]);
  }

  // ----- a whole stream

  function StreamPackets(frames: seq<Frame>, first: nat, cfg: MediaConfig): seq<RtpPacket> {
    if frames == [] then []
    else PacketsOf(frames[0], first, cfg) + StreamPackets(frames[1..], first + |frames[0].chunks|, cfg)
  }

  function StreamExpected(frames: seq<Frame>): seq<Option<seq<u8>>>
    requires forall f :: f in frames ==> f.chunks != []
  {
    if frames == [] then [] else Expected(frames[0]) + StreamExpected(frames[1..])
  }

  /** Frames of 1 to 255 chunks whose timestamps do not decrease, from `ts` on. */
  predicate Orderly(frames: seq<Frame>, ts: nat) {
    && (forall f :: f in frames ==> 1 <= |f.chunks| < TWO_8)
    && (frames != [] ==> ts <= frames[0].timestamp && Orderly(frames[1..], frames[0].timestamp))
  }

  /** The clock never runs past a frame's place in the schedule by more than the tolerance. */
  predicate Timely(frames: seq<Frame>, cs: seq<Clock>, lastDeliver: nat, lastCompleted: nat)
    requires |cs| == ChunkCount(frames)
  {
    frames == [] ||
    var f, c := frames[0], |frames[0].chunks|;
    var due := lastDeliver + SaturatingSub(f.timestamp, lastCompleted);
    && (lastDeliver != 0 ==>
          && due + TOLERANCE_MILLIS < TWO_128
          && forall i :: 0 <= i < c ==> cs[i](0) <= due + TOLERANCE_MILLIS)
    && c > 0
    && Timely(frames[1..], cs[c..], if lastDeliver == 0 then cs[c - 1](1) else due, f.timestamp)
  }

  /** Whether every frame of the stream is accepted whole. */
  predicate AllRoomy(frames: seq<Frame>, first: nat, n: nat) {
    frames != [] ==>
      Roomy(first, |frames[0].chunks|, n) && AllRoomy(frames[1..], first + |frames[0].chunks|, n)
  }

  lemma {:induction false} PlayLength(b: Buffer, ps: seq<RtpPacket>, cs: seq<Clock>)
    requires b.Shaped() && |cs| == |ps|
    ensures |Play(b, ps, cs)| == |ps|
    decreases ps
  {
    hide Pop, Add;
    if ps != [] {
      PlayLength(Pop(Add(b, ps[0]), cs[0]).buffer, ps[1..], cs[1..]);
    }
  }

  lemma {:induction false} StreamPacketsLength(frames: seq<Frame>, first: nat, cfg: MediaConfig)
    ensures |StreamPackets(frames, first, cfg)| == ChunkCount(frames)
  {
    if frames != [] {
      StreamPacketsLength(frames[1..], first + |frames[0].chunks|, cfg);
    }
  }

  /** A roomy first frame comes out whole and the rest is played from the state it leaves. */
  lemma RoomyStep(b: Buffer, u: Burst, qs: seq<RtpPacket>, cs: seq<Clock>)
    requires Clear(b) && u.Fits(|b.slots|) && Roomy(u.first, |u.frame.chunks|, |b.slots|)
    requires b.iFrameNeeded ==> u.frame.isIFrame
    requires b.lastCompleted <= u.frame.timestamp
    requires |cs| == |u.frame.chunks| + |qs| && forall i :: 0 <= i < |u.frame.chunks| ==> Punctual(b, u, cs[i])
    ensures var c := |u.frame.chunks|;
      var ps := PacketsOf(u.frame, u.first, u.cfg);
      var b' := PlayOut(b, ps, cs[..c]);
      && Play(b, ps + qs, cs) == Expected(u.frame) + Play(b', qs, cs[c..])
      && Played(b, b', u, cs[c - 1])
  {
    hide Pop, Add;
    var c := |u.frame.chunks|;
    assert cs == cs[..c] + cs[c..];
    FramePlays(b, u, cs[..c]);
    PlaySplit(b, PacketsOf(u.frame, u.first, u.cfg), qs, cs[..c], cs[c..]);
  }

  /** A frame that is not roomy does not come out at its marker. */
  lemma RefusedStep(b: Buffer, u: Burst, qs: seq<RtpPacket>, cs: seq<Clock>)
    requires Clear(b) && u.Fits(|b.slots|) && !Roomy(u.first, |u.frame.chunks|, |b.slots|)
    requires b.iFrameNeeded ==> u.frame.isIFrame
    requires b.lastCompleted <= u.frame.timestamp
    requires |cs| == |u.frame.chunks| + |qs| && forall i :: 0 <= i < |u.frame.chunks| ==> Punctual(b, u, cs[i])
    ensures var out := Play(b, PacketsOf(u.frame, u.first, u.cfg) + qs, cs);
      |out| >= |u.frame.chunks| && out[|u.frame.chunks| - 1].None?
  {
    hide Pop, Add;
    var c := |u.frame.chunks|;
    assert cs == cs[..c] + cs[c..];
    FrameStuck(b, u, cs[..c]);
    PlaySplit(b, PacketsOf(u.frame, u.first, u.cfg), qs, cs[..c], cs[c..]);
  }

  /** In-order lossless play gives every frame at its marker, exactly when every frame is roomy. */
  lemma {:induction false} CompleteDelivery(b: Buffer, frames: seq<Frame>, first: nat, cfg: MediaConfig, cs: seq<Clock>)
    requires Clear(b) && TWO_8 <= |b.slots| < TWO_64 / 2
    requires b.iFrameNeeded && frames != [] ==> frames[0].isIFrame
    requires Orderly(frames, b.lastCompleted) && first + ChunkCount(frames) <= TWO_64
    requires |cs| == ChunkCount(frames) && Timely(frames, cs, b.lastDeliver, b.lastCompleted)
    ensures |StreamPackets(frames, first, cfg)| == |cs|
    ensures Play(b, StreamPackets(frames, first, cfg), cs) == StreamExpected(frames)
            <==> AllRoomy(frames, first, |b.slots|)
    decreases frames
  {
    hide Pop, Add, Timely, Roomy, Expected, PacketsOf, Schedule, ValidPlayoutTime, PlayOut, Play;
    StreamPacketsLength(frames, first, cfg);
    if frames != [] {
      var f, c, rest := frames[0], |frames[0].chunks|, frames[1..];
      var u := Burst(f, first, cfg);
      var qs := StreamPackets(rest, first + c, cfg);
      StreamPacketsLength(rest, first + c, cfg);
      PunctualWhenTimely(b, frames, cs, u);
      if Roomy(first, c, |b.slots|) {
        RoomyStep(b, u, qs, cs);
        var b' := PlayOut(b, PacketsOf(f, first, cfg), cs[..c]);
        ScheduleWhenTimely(b, frames, cs);
        CompleteDelivery(b', rest, first + c, cfg, cs[c..]);
        SameTail(Expected(f), Play(b', qs, cs[c..]), StreamExpected(rest));
      } else {
        RefusedStep(b, u, qs, cs);
        ExpectedAtMarker(f);
        assert StreamExpected(frames)[c - 1] == Expected(f)[c - 1];
      }
    } else {
      PlayNothing(b);
    }
  }

  lemma PlayNothing(b: Buffer)
    requires b.Shaped()
    ensures Play(b, [], []) == []
  {
  }

  lemma ScheduleWhenTimely(b: Buffer, frames: seq<Frame>, cs: seq<Clock>)
    requires frames != [] && |cs| == ChunkCount(frames)
    requires Timely(frames, cs, b.lastDeliver, b.lastCompleted)
    ensures var c := |frames[0].chunks|;
      Timely(frames[1..], cs[c..], Schedule(b.lastDeliver, b.lastCompleted, frames[0].timestamp, cs[c - 1](1)),
             frames[0].timestamp)
  {
  }

  lemma ExpectedAtMarker(f: Frame)
    requires f.chunks != []
    ensures |Expected(f)| == |f.chunks| && Expected(f)[|f.chunks| - 1] == Some(Flatten(f.chunks))
  {
  }

  lemma SameTail<T>(head: seq<T>, a: seq<T>, b: seq<T>)
    ensures head + a == head + b <==> a == b
  {
    if head + a == head + b {
      assert (head + a)[|head|..] == a && (head + b)[|head|..] == b;
    }
  }

  lemma PunctualWhenTimely(b: Buffer, frames: seq<Frame>, cs: seq<Clock>, u: Burst)
    requires frames != [] && u.frame == frames[0] && |cs| == ChunkCount(frames)
    requires b.lastCompleted <= u.frame.timestamp
    requires Timely(frames, cs, b.lastDeliver, b.lastCompleted)
    ensures forall i :: 0 <= i < |u.frame.chunks| ==> Punctual(b, u, cs[i])
  {
    var due := b.lastDeliver + u.frame.timestamp - b.lastCompleted;
    if b.lastDeliver != 0 {
      assert Deadline(b, u.frame.timestamp) == due + TOLERANCE_MILLIS;
    }
  }

  // ----- why the chunk count must fit its byte

  /** A frame of more than 255 chunks is cut short: its last chunks alone are delivered as a frame. */
  lemma LongFrameDeliveredCut(f: Frame, first: nat, cfg: MediaConfig, n: nat, cs: seq<Clock>)
    requires TWO_8 <= n < TWO_64 / 2 && f.isIFrame
    requires |f.chunks| >= TWO_8 && |f.chunks| % TWO_8 != 0
    requires Roomy(first + TailStart(f), |f.chunks| % TWO_8, n) && first + |f.chunks| <= TWO_64
    requires |cs| == |f.chunks| % TWO_8
    ensures var cut := TailStart(f);
      var out := Play(Empty(n), PacketsOf(f, first, cfg)[cut..], cs);
      |out| == |cs| && out[|out| - 1] == Some(Flatten(f.chunks[cut..]))
  {
    hide Pop, Add;
    var cut := TailStart(f);
    var u := Burst(TailOf(f, cut), first + cut, cfg);
    TailPackets(f, first, cfg, cut);
    FramePlays(Empty(n), u, cs);
    ExpectedAtMarker(u.frame);
  }

  /** The chunks before this one are a multiple of 256. */
  function TailStart(f: Frame): (cut: nat)
    ensures cut <= |f.chunks|
  {
    |f.chunks| - |f.chunks| % TWO_8
  }

  function TailOf(f: Frame, cut: nat): Frame
    requires cut <= |f.chunks|
  {
    Frame(f.timestamp, f.isIFrame, f.chunks[cut..])
  }

  /** Cut at a multiple of 256, the rest of a frame looks like a frame of its own. */
  lemma TailPackets(f: Frame, first: nat, cfg: MediaConfig, cut: nat)
    requires cut < |f.chunks| && cut % TWO_8 == 0
    ensures PacketsOf(f, first, cfg)[cut..] == PacketsOf(TailOf(f, cut), first + cut, cfg)
  {
    var tail := TailOf(f, cut);
    assert |f.chunks| % TWO_8 == |tail.chunks| % TWO_8;
    forall k | 0 <= k < |tail.chunks|
      ensures PacketsOf(f, first, cfg)[cut..][k] == PacketsOf(tail, first + cut, cfg)[k]
    {
    }
  }
}
