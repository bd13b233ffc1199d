/** Chunks that arrive out of order: which frames the buffer completes in every order. */
module JitterReorder {
  import opened Common
  import opened Rtp
  import opened ModArith
  import opened Jitter
  import opened Sender
  import opened JitterDelivery
  import opened JitterPlayout
  import opened JitterOrder

  // ----- a buffer holding some chunks of a frame and nothing else

  /** What belongs `k` places after the slot of the first chunk. */
  function Kept(u: Burst, held: set<int>, k: nat): Option<RtpPacket> {
    if k in held && k < |u.frame.chunks| then Some(u.Chunk(k)) else None
  }

  predicate Keeps(slots: Slots, u: Burst, held: set<int>)
    requires slots != []
  {
    forall i :: 0 <= i < |slots| ==> slots[i] == Kept(u, held, Distance(u.first % |slots|, i, |slots|))
  }

  /** The chunks `held`, from `lo` to `hi`, are in their slots and the ring is read from the lowest. */
  ghost predicate Gathered(b: Buffer, u: Burst, held: set<int>, lo: nat, hi: nat) {
    && b.Shaped() && u.Fits(|b.slots|)
    && lo in held && hi in held && hi < |u.frame.chunks| && (forall m :: m in held ==> lo <= m <= hi)
    && b.readIdx == u.Slot(lo, |b.slots|) && b.writeIdx == u.Slot(hi, |b.slots|)
    && b.readSeq == Some(u.first + lo) && b.writeSeq == Some(u.first + hi)
    && !b.iFrameNeeded
    && b.lastCompleted <= u.frame.timestamp
    && Keeps(b.slots, u, held)
  }

  /** The slot of chunk `m` holds it or nothing. */
  lemma HeldOrEmpty(slots: Slots, u: Burst, held: set<int>, m: nat)
    requires u.Fits(|slots|) && Keeps(slots, u, held) && m < |u.frame.chunks|
    ensures slots[u.Slot(m, |slots|)] == if m in held then Some(u.Chunk(m)) else None
  {
    PlaceOf(u.first, m, |slots|);
  }

  /** With every chunk held, the buffer is as after in-order arrival. */
  lemma AllGathered(b: Buffer, u: Burst, held: set<int>, lo: nat, hi: nat)
    requires Gathered(b, u, held, lo, hi) && held == Range(0, |u.frame.chunks|)
    ensures Partial(b, u, |u.frame.chunks|)
  {
    var c := |u.frame.chunks|;
    assert 0 in held && c - 1 in held;
    assert HoldsExactly(b.slots, u, c) by {
      forall m | 0 <= m < c
        ensures b.slots[u.Slot(m, |b.slots|)] == Some(u.Chunk(m))
      {
        HeldOrEmpty(b.slots, u, held, m);
      }
    }
    hide Keeps, HoldsExactly;
    assert lo == 0 && hi == c - 1;
  }

  lemma StoringAny(slots: Slots, u: Burst, held: set<int>, m: nat)
    requires u.Fits(|slots|) && m < |u.frame.chunks| && Keeps(slots, u, held)
    ensures Keeps(slots[u.Slot(m, |slots|) := Some(u.Chunk(m))], u, held + {m})
  {
    var (n, r, pos) := (|slots|, u.first % |slots|, u.Slot(m, |slots|));
    PlaceOf(u.first, m, n);
    hide Burst.Slot, Burst.Chunk;
    forall i | 0 <= i < n
      ensures Distance(r, i, n) == m <==> i == pos
    {
      SameDistance(r, i, pos, n);
    }
  }

  lemma SameDistance(r: nat, i: nat, j: nat, n: nat)
    requires r < n && i < n && j < n
    ensures Distance(r, i, n) == Distance(r, j, n) <==> i == j
  {
  }

  lemma AnyChunkArrives(b: Buffer, u: Burst, m: nat)
    requires Clear(b) && u.Fits(|b.slots|) && m < |u.frame.chunks|
    requires b.iFrameNeeded ==> u.frame.isIFrame
    requires b.lastCompleted <= u.frame.timestamp
    ensures Gathered(Add(b, u.Chunk(m)), u, {m}, m, m)
    ensures SameTimes(b, Add(b, u.Chunk(m)))
  {
    assert Keeps(b.slots, u, {});
    StoringAny(b.slots, u, {}, m);
    assert {} + {m} == {m};
  }

  /** An accepted chunk joins those that are held. */
  lemma ChunkJoins(b: Buffer, u: Burst, held: set<int>, lo: nat, hi: nat, m: nat)
    requires Gathered(b, u, held, lo, hi) && m < |u.frame.chunks| && !Discards(b, u.Chunk(m))
    ensures Gathered(Add(b, u.Chunk(m)), u, held + {m}, Min(lo, m), Max(hi, m))
    ensures SameTimes(b, Add(b, u.Chunk(m)))
  {
    hide Discards, Keeps;
    StoringAny(b.slots, u, held, m);
    if m > hi {
      NoCollision(u.first + lo, u.first + hi, u.first + m, |b.slots|);
    }
  }

  // ----- which chunks are accepted

  lemma HeadIsLowest(b: Buffer, u: Burst, held: set<int>, lo: nat, hi: nat)
    requires Gathered(b, u, held, lo, hi)
    ensures b.slots[b.readIdx] == Some(u.Chunk(lo)) && u.Chunk(lo).sequenceNumber == u.first + lo
  {
    HeldOrEmpty(b.slots, u, held, lo);
  }

  /** The test, given the number at the head. */
  lemma AcceptedBy(b: Buffer, u: Burst, held: set<int>, lo: nat, hi: nat, m: nat)
    requires Gathered(b, u, held, lo, hi) && m < |u.frame.chunks|
    ensures var w := b.readIdx + |b.slots| - b.writeIdx;
      Discards(b, u.Chunk(m)) <==> w <= u.first + m && u.first + m <= WrappingSub64(u.first + lo, w)
  {
    HeadIsLowest(b, u, held, lo, hi);
    hide Keeps, Burst.Slot;
  }

  /** The window is what the held chunks leave of the ring, counted once or twice. */
  lemma WindowLeft(read: nat, write: nat, d: nat, n: nat)
    requires read < n && write < n && Distance(read, write, n) == d
    ensures read + n - write == if read <= write then n - d else 2 * n - d
    ensures read > write ==> read + d >= n
  {
  }

  lemma AtLeastOneTurn(x: nat, n: nat)
    requires 0 < n <= x
    ensures x >= n + x % n
  {
    MulAtLeast(x / n, n);
  }

  /** The head is past the window from the second turn of the numbering on. */
  lemma HeadPastWindow(x: nat, write: nat, d: nat, n: nat)
    requires n <= x && write < n && Distance(x % n, write, n) == d
    ensures n - d <= x % n + n - write <= x
  {
    AtLeastOneTurn(x, n);
    WindowLeft(x % n, write, d, n);
  }

  lemma Spans(b: Buffer, u: Burst, held: set<int>, lo: nat, hi: nat)
    requires Gathered(b, u, held, lo, hi)
    ensures b.Shaped() && lo <= hi < |u.frame.chunks| < TWO_8 <= |b.slots| < TWO_64 / 2
    ensures u.first + |u.frame.chunks| <= TWO_64
    ensures b.readIdx == (u.first + lo) % |b.slots| && Distance(b.readIdx, b.writeIdx, |b.slots|) == hi - lo
  {
    hide Keeps, Distance;
    GapIsDistance(u.first + lo, u.first + hi, |b.slots|);
  }

  /** From the second turn of the numbering on, every chunk of the frame is accepted. */
  lemma AcceptsLater(b: Buffer, u: Burst, held: set<int>, lo: nat, hi: nat, m: nat)
    requires Gathered(b, u, held, lo, hi) && m < |u.frame.chunks| && u.first >= |b.slots|
    ensures !Discards(b, u.Chunk(m))
  {
    hide Gathered, Burst.Fits, Burst.Chunk, Discards, Distance;
    AcceptedBy(b, u, held, lo, hi, m);
    Spans(b, u, held, lo, hi);
    HeadPastWindow(u.first + lo, b.writeIdx, hi - lo, |b.slots|);
    WrapCases(u.first + lo, b.readIdx + |b.slots| - b.writeIdx);
  }

  /** On the first turn, a new chunk is accepted if the frame is roomy. */
  lemma AcceptsEarly(b: Buffer, u: Burst, held: set<int>, lo: nat, hi: nat, m: nat)
    requires Gathered(b, u, held, lo, hi) && m < |u.frame.chunks| && m !in held
    requires u.first < |b.slots| && Roomy(u.first, |u.frame.chunks|, |b.slots|)
    ensures !Discards(b, u.Chunk(m))
  {
    AcceptedBy(b, u, held, lo, hi, m);
    var (n, c) := (|b.slots|, |u.frame.chunks|);
    assert c > 1 && m + (hi - lo) <= 2 * c - 3;
    ModOfSmall(u.first + lo, n);
    ModOfSmall(u.first + hi, n);
    hide Keeps, Burst.Chunk, Discards;
    assert b.readIdx + n - b.writeIdx == n - (hi - lo) > u.first + m;
  }

  /** The chunk before the lowest one held is always accepted. */
  lemma AcceptsBefore(b: Buffer, u: Burst, held: set<int>, lo: nat, hi: nat)
    requires Gathered(b, u, held, lo, hi) && lo > 0
    ensures !Discards(b, u.Chunk(lo - 1))
  {
    AcceptedBy(b, u, held, lo, hi, lo - 1);
    Spans(b, u, held, lo, hi);
    hide Gathered, Burst.Fits, Burst.Chunk, Discards, Distance;
    WindowLeft(b.readIdx, b.writeIdx, hi - lo, |b.slots|);
    WrapCases(u.first + lo, b.readIdx + |b.slots| - b.writeIdx);
  }

  // ----- asking for a frame

  /** A walk from the lowest chunk finds a gap, or a count that is not the frame's. */
  lemma {:induction false} CollectGap(
    slots: Slots, u: Burst, held: set<int>, gap: nat, lo: nat, m: nat, data: seq<u8>, n: nat)
    requires u.Fits(|slots|) && Keeps(slots, u, held) && lo <= m < |u.frame.chunks|
    requires gap < |u.frame.chunks| && gap !in held && (lo <= gap ==> m <= gap)
    ensures Collect(slots, u.Slot(m, |slots|), u.frame.timestamp, data, m - lo, n).None?
    decreases n
  {
    hide Keeps;
    HeldOrEmpty(slots, u, held, m);
    if n > 0 && m in held && m + 1 < |u.frame.chunks| {
      ModPlusOne(u.first + m, |slots|);
      CollectGap(slots, u, held, gap, lo, m + 1, data + u.Chunk(m).payload, n - 1);
    }
  }

  lemma PopOfGathered(b: Buffer, u: Burst, held: set<int>, gap: nat, lo: nat, hi: nat, clock: Clock)
    requires Gathered(b, u, held, lo, hi) && gap < |u.frame.chunks| && gap !in held && Punctual(b, u, clock)
    ensures Pop(b, clock) == Popped(b, None)
  {
    HeadIsLowest(b, u, held, lo, hi);
    CollectGap(b.slots, u, held, gap, lo, lo, [], |b.slots|);
  }

  // ----- one frame, in any order

  /** The arrivals complete a frame of `c` chunks: each is among them, and the last one was not there before. */
  predicate Completes(order: seq<nat>, c: nat) {
    && order != []
    && (forall i :: 0 <= i < |order| ==> order[i] < c)
    && (forall m :: 0 <= m < c ==> m in order)
    && order[|order| - 1] !in order[..|order| - 1]
  }

  function Arrivals(u: Burst, order: seq<nat>): seq<RtpPacket>
    requires forall i :: 0 <= i < |order| ==> order[i] < |u.frame.chunks|
  {
    seq(|order|, i requires 0 <= i < |order| => u.Chunk(order[i]))
  }

  /** Nothing for all arrivals but the last of `k`, then the whole frame. */
  function AtLast(f: Frame, k: nat): seq<Option<seq<u8>>>
    requires k > 0
  {
    seq(k - 1, _ => None) + [Some(Flatten(f.chunks))]
  }

  /** In a roomy frame a chunk joins those held, new or repeated, accepted or not. */
  lemma ChunkTaken(b: Buffer, u: Burst, held: set<int>, lo: nat, hi: nat, m: nat)
    requires Gathered(b, u, held, lo, hi) && m < |u.frame.chunks|
    requires Roomy(u.first, |u.frame.chunks|, |b.slots|)
    ensures Gathered(Add(b, u.Chunk(m)), u, held + {m}, Min(lo, m), Max(hi, m))
    ensures SameTimes(b, Add(b, u.Chunk(m)))
  {
    if !Discards(b, u.Chunk(m)) {
      ChunkJoins(b, u, held, lo, hi, m);
    } else {
      if u.first >= |b.slots| {
        AcceptsLater(b, u, held, lo, hi, m);
      } else if m !in held {
        AcceptsEarly(b, u, held, lo, hi, m);
      }
      assert held + {m} == held;
    }
  }

  lemma HeldGrows(order: seq<nat>, k: nat)
    requires k < |order|
    ensures Elements(order[..k + 1]) == Elements(order[..k]) + {order[k]}
  {
    assert order[..k + 1] == order[..k] + [order[k]];
  }

  /** Every clock reading of the arrivals is within the frame's deadline. */
  predicate AllPunctual(b: Buffer, u: Burst, cs: seq<Clock>) {
    forall i :: 0 <= i < |cs| ==> Punctual(b, u, cs[i])
  }

  /** Arrival `k` of several: the ring afterwards, and what asking for a frame then gives. */
  lemma NextOfSeveral(b: Buffer, u: Burst, order: seq<nat>, k: nat, lo: nat, hi: nat, clock: Clock)
    requires Completes(order, |u.frame.chunks|) && 1 <= k < |order|
    requires Gathered(b, u, Elements(order[..k]), lo, hi) && Roomy(u.first, |u.frame.chunks|, |b.slots|)
    requires Punctual(b, u, clock)
    ensures var (b', m) := (Add(b, u.Chunk(order[k])), order[k]);
      var r := Pop(b', clock);
      && SameTimes(b, b') && b'.Shaped() && |b'.slots| == |b.slots|
      && if k + 1 < |order| then
           r == Popped(b', None) && Gathered(b', u, Elements(order[..k + 1]), Min(lo, m), Max(hi, m))
         else r.frame == Some(Flatten(u.frame.chunks)) && Played(b, r.buffer, u, clock)
  {
    hide Pop, Add, Roomy, Keeps;
    var (m, c) := (order[k], |u.frame.chunks|);
    ChunkTaken(b, u, Elements(order[..k]), lo, hi, m);
    HeldGrows(order, k);
    var (b', held) := (Add(b, u.Chunk(m)), Elements(order[..k + 1]));
    if k + 1 == |order| {
      assert order[..k + 1] == order && held == Range(0, c);
      AllGathered(b', u, held, Min(lo, m), Max(hi, m));
      PopOfWhole(b', u, clock);
    } else {
      LastIsMissing(order, k + 1);
      PopOfGathered(b', u, held, order[|order| - 1], Min(lo, m), Max(hi, m), clock);
    }
  }

  lemma LastIsMissing(order: seq<nat>, k: nat)
    requires k < |order| && order[|order| - 1] !in order[..|order| - 1]
    ensures order[|order| - 1] !in Elements(order[..k])
  {
    assert order[..|order| - 1][..k] == order[..k];
  }

  lemma SamePunctual(b: Buffer, c: Buffer, u: Burst, cs: seq<Clock>)
    requires SameTimes(b, c) && cs != [] && AllPunctual(b, u, cs)
    ensures AllPunctual(c, u, cs[1..])
  {
  }

  /** Playing packet `k` first. */
  lemma PlayStep(b: Buffer, ps: seq<RtpPacket>, k: nat, cs: seq<Clock>)
    requires b.Shaped() && k < |ps| && |cs| == |ps| - k
    ensures var r := Pop(Add(b, ps[k]), cs[0]);
      && Play(b, ps[k..], cs) == [r.frame] + Play(r.buffer, ps[k + 1..], cs[1..])
      && PlayOut(b, ps[k..], cs) == PlayOut(r.buffer, ps[k + 1..], cs[1..])
      && (k + 1 == |ps| ==> Play(b, ps[k..], cs) == [r.frame] && PlayOut(b, ps[k..], cs) == r.buffer)
  {
    hide Pop, Add;
    assert ps[k..][1..] == ps[k + 1..];
  }

  /** Playing arrival `k` and the rest, once the arrivals before it are held. */
  lemma {:induction false} RestComesTogether(
    b: Buffer, u: Burst, order: seq<nat>, k: nat, lo: nat, hi: nat, cs: seq<Clock>)
    requires Completes(order, |u.frame.chunks|) && 1 <= k < |order|
    requires Gathered(b, u, Elements(order[..k]), lo, hi) && Roomy(u.first, |u.frame.chunks|, |b.slots|)
    requires |cs| == |order| - k && AllPunctual(b, u, cs)
    ensures var ps := Arrivals(u, order)[k..];
      && Play(b, ps, cs) == AtLast(u.frame, |order|)[k..]
      && Played(b, PlayOut(b, ps, cs), u, cs[|cs| - 1])
    decreases |cs|
  {
    hide Pop, Add, Roomy, Keeps, Play, PlayOut, Burst.Slot, Burst.Fits, Burst.Chunk, Schedule, ValidPlayoutTime;
    NextOfSeveral(b, u, order, k, lo, hi, cs[0]);
    var (m, e, all) := (order[k], AtLast(u.frame, |order|), Arrivals(u, order));
    assert all[k] == u.Chunk(m);
    PlayStep(b, all, k, cs);
    SamePunctual(b, Add(b, all[k]), u, cs);
    if k + 1 == |order| {
      assert e[k..] == [Some(Flatten(u.frame.chunks))];
    } else {
      RestComesTogether(Add(b, u.Chunk(m)), u, order, k + 1, Min(lo, m), Max(hi, m), cs[1..]);
      assert e[k..] == [None] + e[k + 1..];
    }
  }

  /** A roomy frame comes out at the arrival that completes it, in whatever order and however often chunks arrive. */
  lemma ComesTogether(b: Buffer, u: Burst, order: seq<nat>, cs: seq<Clock>)
    requires Clear(b) && u.Fits(|b.slots|) && Roomy(u.first, |u.frame.chunks|, |b.slots|)
    requires b.iFrameNeeded ==> u.frame.isIFrame
    requires b.lastCompleted <= u.frame.timestamp
    requires Completes(order, |u.frame.chunks|) && |cs| == |order| && AllPunctual(b, u, cs)
    ensures Play(b, Arrivals(u, order), cs) == AtLast(u.frame, |order|)
    ensures Played(b, PlayOut(b, Arrivals(u, order), cs), u, cs[|cs| - 1])
  {
    hide Pop, Add, Roomy, Keeps;
    var (m, e, ps) := (order[0], AtLast(u.frame, |order|), Arrivals(u, order));
    AnyChunkArrives(b, u, m);
    var b' := Add(b, u.Chunk(m));
    assert ps[0] == u.Chunk(m);
    HeldGrows(order, 0);
    assert Elements(order[..1]) == {m};
    if |order| == 1 {
      assert order[..1] == order && {m} == Range(0, |u.frame.chunks|);
      AllGathered(b', u, {m}, m, m);
      PopOfWhole(b', u, cs[0]);
      assert ps[1..] == [];
    } else {
      PopOfGathered(b', u, {m}, order[|order| - 1], m, m, cs[0]);
      RestComesTogether(b', u, order, 1, m, m, cs[1..]);
      assert e == [None] + e[1..];
    }
  }

  function InOrder(c: nat): seq<nat> {
    seq(c, i requires 0 <= i < c => i)
  }

  lemma InOrderCompletes(c: nat)
    requires c > 0
    ensures Completes(InOrder(c), c)
  {
    forall m | 0 <= m < c
      ensures m in InOrder(c)
    {
      assert InOrder(c)[m] == m;
    }
  }

  /**
   * A frame comes out at the arrival that completes it, and nothing before, for all orders and repetitions of its
   * chunks exactly when it is roomy.
   */
  lemma ComesTogetherExact(b: Buffer, u: Burst)
    requires Clear(b) && u.Fits(|b.slots|)
    requires b.iFrameNeeded ==> u.frame.isIFrame
    requires b.lastCompleted <= u.frame.timestamp
    ensures (forall order, cs :: Completes(order, |u.frame.chunks|) && |cs| == |order| && AllPunctual(b, u, cs) ==>
               Play(b, Arrivals(u, order), cs) == AtLast(u.frame, |order|))
            <==> Roomy(u.first, |u.frame.chunks|, |b.slots|)
  {
    hide Play, Roomy, AllPunctual;
    var c := |u.frame.chunks|;
    if Roomy(u.first, c, |b.slots|) {
      forall order, cs | Completes(order, c) && |cs| == |order| && AllPunctual(b, u, cs)
        ensures Play(b, Arrivals(u, order), cs) == AtLast(u.frame, |order|)
      {
        ComesTogether(b, u, order, cs);
      }
    } else {
      var (order, cs) := (InOrder(c), seq(c, _ => (k: nat) => 0));
      InOrderCompletes(c);
      ZeroPunctual(b, u, cs);
      assert Arrivals(u, order) == PacketsOf(u.frame, u.first, u.cfg);
      FrameStuck(b, u, cs);
    }
  }

  lemma ZeroPunctual(b: Buffer, u: Burst, cs: seq<Clock>)
    requires forall i :: 0 <= i < |cs| ==> cs[i](0) == 0
    ensures AllPunctual(b, u, cs) && forall i :: 0 <= i < |cs| ==> Punctual(b, u, cs[i])
  {
  }
}
