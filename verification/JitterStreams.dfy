/** Whole streams whose chunks arrive out of order, or more than once, within their frames. */
module JitterStreams {
  import opened Common
  import opened Rtp
  import opened Jitter
  import opened Sender
  import opened JitterDelivery
  import opened JitterReorder

  /** How one frame arrives: the order of its chunks, and the clock at each asking. */
  datatype Part = Part(order: seq<nat>, clocks: seq<Clock>)

  predicate Fit(frames: seq<Frame>, parts: seq<Part>) {
    && |parts| == |frames|
    && forall i :: 0 <= i < |parts| ==>
         Completes(parts[i].order, |frames[i].chunks|) && |parts[i].clocks| == |parts[i].order|
  }

  function AllArrivals(frames: seq<Frame>, first: nat, cfg: MediaConfig, parts: seq<Part>): seq<RtpPacket>
    requires Fit(frames, parts)
    decreases frames
  {
    if frames == [] then []
    else
      Arrivals(Burst(frames[0], first, cfg), parts[0].order)
      + AllArrivals(frames[1..], first + |frames[0].chunks|, cfg, parts[1..])
  }

  function AllClocks(parts: seq<Part>): seq<Clock> {
    if parts == [] then [] else parts[0].clocks + AllClocks(parts[1..])
  }

  /** Each frame at the arrival that completes it. */
  function EachAtLast(frames: seq<Frame>, parts: seq<Part>): seq<Option<seq<u8>>>
    requires Fit(frames, parts)
    decreases frames
  {
    if frames == [] then [] else AtLast(frames[0], |parts[0].order|) + EachAtLast(frames[1..], parts[1..])
  }

  /** The clock never runs past a frame's place in the schedule by more than the tolerance. */
  predicate Prompt(frames: seq<Frame>, parts: seq<Part>, lastDeliver: nat, lastCompleted: nat)
    requires Fit(frames, parts)
    decreases frames
  {
    frames == [] ||
    var (f, cs) := (frames[0], parts[0].clocks);
    var due := lastDeliver + SaturatingSub(f.timestamp, lastCompleted);
    && (lastDeliver != 0 ==>
          && due + TOLERANCE_MILLIS < TWO_128
          && forall i :: 0 <= i < |cs| ==> cs[i](0) <= due + TOLERANCE_MILLIS)
    && Prompt(frames[1..], parts[1..], if lastDeliver == 0 then cs[|cs| - 1](1) else due, f.timestamp)
  }

  lemma {:induction false} Lengths(frames: seq<Frame>, first: nat, cfg: MediaConfig, parts: seq<Part>)
    requires Fit(frames, parts)
    ensures |AllArrivals(frames, first, cfg, parts)| == |AllClocks(parts)|
    decreases frames
  {
    if frames != [] {
      Lengths(frames[1..], first + |frames[0].chunks|, cfg, parts[1..]);
    }
  }

  lemma {:induction false} PromptIsPunctual(b: Buffer, u: Burst, frames: seq<Frame>, parts: seq<Part>)
    requires Fit(frames, parts) && frames != [] && u.frame == frames[0]
    requires b.lastCompleted <= u.frame.timestamp && Prompt(frames, parts, b.lastDeliver, b.lastCompleted)
    ensures AllPunctual(b, u, parts[0].clocks)
    ensures var cs := parts[0].clocks;
      Prompt(frames[1..], parts[1..],
             Schedule(b.lastDeliver, b.lastCompleted, u.frame.timestamp, cs[|cs| - 1](1)), u.frame.timestamp)
  {
    var due := b.lastDeliver + u.frame.timestamp - b.lastCompleted;
    if b.lastDeliver != 0 {
      assert Deadline(b, u.frame.timestamp) == due + TOLERANCE_MILLIS;
    }
  }

  /** A roomy first frame comes out whole and the rest is played from the state it leaves. */
  lemma OneThenRest(b: Buffer, u: Burst, part: Part, rest: seq<RtpPacket>, ds: seq<Clock>)
    requires Clear(b) && u.Fits(|b.slots|) && Roomy(u.first, |u.frame.chunks|, |b.slots|)
    requires b.iFrameNeeded ==> u.frame.isIFrame
    requires b.lastCompleted <= u.frame.timestamp && |ds| == |rest|
    requires Completes(part.order, |u.frame.chunks|) && |part.clocks| == |part.order|
    requires AllPunctual(b, u, part.clocks)
    ensures var (ps, cs) := (Arrivals(u, part.order), part.clocks);
      var b' := PlayOut(b, ps, cs);
      && Play(b, ps + rest, cs + ds) == AtLast(u.frame, |part.order|) + Play(b', rest, ds)
      && Played(b, b', u, cs[|cs| - 1])
  {
    hide Pop, Add, Play, PlayOut, Schedule, AllPunctual, Roomy, AtLast, AllEmpty, Flatten, PacketOf;
    ComesTogether(b, u, part.order, part.clocks);
    PlaySplit(b, Arrivals(u, part.order), rest, part.clocks, ds);
  }

  /** Roomy frames come out one by one, each at the arrival that completes it. */
  lemma {:induction false} ReorderedDelivery(
    b: Buffer, frames: seq<Frame>, first: nat, cfg: MediaConfig, parts: seq<Part>)
    requires Clear(b) && TWO_8 <= |b.slots| < TWO_64 / 2
    requires b.iFrameNeeded && frames != [] ==> frames[0].isIFrame
    requires Orderly(frames, b.lastCompleted) && first + ChunkCount(frames) <= TWO_64
    requires Fit(frames, parts) && Prompt(frames, parts, b.lastDeliver, b.lastCompleted)
    requires AllRoomy(frames, first, |b.slots|)
    ensures |AllArrivals(frames, first, cfg, parts)| == |AllClocks(parts)|
    ensures Play(b, AllArrivals(frames, first, cfg, parts), AllClocks(parts)) == EachAtLast(frames, parts)
    decreases frames
  {
    hide Pop, Add, Play, PlayOut, Prompt, Roomy, AtLast, Schedule, ValidPlayoutTime, AllPunctual;
    Lengths(frames, first, cfg, parts);
    if frames == [] {
      NothingPlayed(b);
    } else {
      var (u, c) := (Burst(frames[0], first, cfg), |frames[0].chunks|);
      var (rest, ds) := (AllArrivals(frames[1..], first + c, cfg, parts[1..]), AllClocks(parts[1..]));
      Lengths(frames[1..], first + c, cfg, parts[1..]);
      PromptIsPunctual(b, u, frames, parts);
      OneThenRest(b, u, parts[0], rest, ds);
      var b' := PlayOut(b, Arrivals(u, parts[0].order), parts[0].clocks);
      ReorderedDelivery(b', frames[1..], first + c, cfg, parts[1..]);
    }
  }

  lemma NothingPlayed(b: Buffer)
    requires b.Shaped()
    ensures Play(b, [], []) == []
  {
  }

  // ----- the converse

  const ZERO: Clock := (k: nat) => 0

  function Zeros(k: nat): seq<Clock> {
    seq(k, _ => ZERO)
  }

  /** Every chunk once, in order, and a clock that stands at zero. */
  function Plain(frames: seq<Frame>): seq<Part> {
    seq(|frames|, i requires 0 <= i < |frames| =>
      var c := |frames[i].chunks|; Part(InOrder(c), Zeros(c)))
  }

  lemma PlainFits(frames: seq<Frame>)
    requires forall f :: f in frames ==> f.chunks != []
    ensures Fit(frames, Plain(frames))
  {
    forall i | 0 <= i < |frames|
      ensures Completes(Plain(frames)[i].order, |frames[i].chunks|)
    {
      assert frames[i] in frames;
      InOrderCompletes(|frames[i].chunks|);
    }
  }

  lemma PlainRest(frames: seq<Frame>)
    requires frames != []
    ensures Plain(frames)[1..] == Plain(frames[1..])
  {
  }

  /** Plain arrival is the sender's packets in order, each frame expected at its marker. */
  lemma {:induction false} PlainIsInOrder(frames: seq<Frame>, first: nat, cfg: MediaConfig)
    requires forall f :: f in frames ==> f.chunks != []
    ensures Fit(frames, Plain(frames))
    ensures AllArrivals(frames, first, cfg, Plain(frames)) == StreamPackets(frames, first, cfg)
    ensures EachAtLast(frames, Plain(frames)) == StreamExpected(frames)
    ensures AllClocks(Plain(frames)) == Zeros(ChunkCount(frames))
    decreases frames
  {
    PlainFits(frames);
    if frames != [] {
      PlainRest(frames);
      PlainIsInOrder(frames[1..], first + |frames[0].chunks|, cfg);
      var u := Burst(frames[0], first, cfg);
      assert Arrivals(u, InOrder(|frames[0].chunks|)) == PacketsOf(frames[0], first, cfg);
    }
  }

  /** With a clock that stands at zero no schedule ever starts. */
  lemma {:induction false} ZeroIsPrompt(frames: seq<Frame>, parts: seq<Part>, lastCompleted: nat)
    requires Fit(frames, parts) && forall i :: 0 <= i < |parts| ==> forall c :: c in parts[i].clocks ==> c == ZERO
    ensures Prompt(frames, parts, 0, lastCompleted)
    decreases frames
  {
    if frames != [] {
      var cs := parts[0].clocks;
      assert cs[|cs| - 1] in cs;
      ZeroIsPrompt(frames[1..], parts[1..], frames[0].timestamp);
    }
  }

  lemma {:induction false} ZeroIsTimely(frames: seq<Frame>, lastCompleted: nat)
    requires forall f :: f in frames ==> f.chunks != []
    ensures Timely(frames, Zeros(ChunkCount(frames)), 0, lastCompleted)
    decreases frames
  {
    if frames != [] {
      var (c, rest) := (|frames[0].chunks|, frames[1..]);
      assert frames[0] in frames && ChunkCount(frames) == c + ChunkCount(rest);
      assert Zeros(ChunkCount(frames))[c..] == Zeros(ChunkCount(rest));
      ZeroIsTimely(rest, frames[0].timestamp);
    }
  }

  /**
   * From an empty buffer and with a prompt clock, a stream comes out complete, each frame at the arrival that
   * completes it, for all orders and repetitions within frames, exactly when every frame is roomy.
   */
  lemma ReorderedExact(frames: seq<Frame>, first: nat, cfg: MediaConfig, n: nat)
    requires TWO_8 <= n < TWO_64 / 2 && (frames != [] ==> frames[0].isIFrame)
    requires Orderly(frames, 0) && first + ChunkCount(frames) <= TWO_64
    ensures (forall parts :: Fit(frames, parts) && Prompt(frames, parts, 0, 0) ==>
               && |AllArrivals(frames, first, cfg, parts)| == |AllClocks(parts)|
               && Play(Empty(n), AllArrivals(frames, first, cfg, parts), AllClocks(parts)) == EachAtLast(frames, parts))
            <==> AllRoomy(frames, first, n)
  {
    hide Play, Prompt, Fit, AllRoomy, StreamExpected, EachAtLast, AllArrivals;
    if AllRoomy(frames, first, n) {
      forall parts | Fit(frames, parts) && Prompt(frames, parts, 0, 0)
        ensures |AllArrivals(frames, first, cfg, parts)| == |AllClocks(parts)|
        ensures Play(Empty(n), AllArrivals(frames, first, cfg, parts), AllClocks(parts)) == EachAtLast(frames, parts)
      {
        ReorderedDelivery(Empty(n), frames, first, cfg, parts);
      }
    } else {
      var (parts, cs) := (Plain(frames), Zeros(ChunkCount(frames)));
      PlainIsInOrder(frames, first, cfg);
      ZeroIsPrompt(frames, parts, 0);
      ZeroIsTimely(frames, 0);
      CompleteDelivery(Empty(n), frames, first, cfg, cs);
      assert Fit(frames, parts) && Prompt(frames, parts, 0, 0);
    }
  }
}
