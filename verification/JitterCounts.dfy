/** For which frames the one-byte chunk count is enough. */
module JitterCounts {
  import opened Common
  import opened Jitter
  import opened Sender
  import opened JitterSafety
  import opened JitterDelivery
  import opened JitterResync
  import opened JitterReorder

  // ----- the chunks of a frame from the last to the first

  /** Chunks `k - 1` down to 0 arrive, then a frame is asked for. */
  function Backwards(u: Burst, k: nat, clock: Clock): seq<Event>
    requires k <= |u.frame.chunks|
  {
    if k == 0 then [Ask(clock)] else [Arrive(u.Chunk(k - 1))] + Backwards(u, k - 1, clock)
  }

  lemma DeliveredLater(b: Buffer, e: Event, es: seq<Event>, data: seq<u8>)
    requires b.Shaped() && data in Delivered(Step(b, e).buffer, es)
    ensures data in Delivered(b, [e] + es)
  {
    hide Step;
    assert ([e] + es)[1..] == es;
  }

  /** Wherever the numbering starts, the chunks that arrive backwards are all taken and the frame comes out. */
  lemma {:induction false} BackwardsDelivers(b: Buffer, u: Burst, k: nat, clock: Clock)
    requires k < |u.frame.chunks| && Gathered(b, u, Range(k, |u.frame.chunks|), k, |u.frame.chunks| - 1)
    requires Punctual(b, u, clock)
    ensures Flatten(u.frame.chunks) in Delivered(b, Backwards(u, k, clock))
    decreases k
  {
    hide Pop, Add, Keeps, Flatten;
    var c := |u.frame.chunks|;
    if k == 0 {
      AllGathered(b, u, Range(0, c), 0, c - 1);
      PopOfWhole(b, u, clock);
    } else {
      var p := u.Chunk(k - 1);
      AcceptsBefore(b, u, Range(k, c), k, c - 1);
      ChunkJoins(b, u, Range(k, c), k, c - 1, k - 1);
      assert Range(k, c) + {k - 1} == Range(k - 1, c);
      BackwardsDelivers(Add(b, p), u, k - 1, clock);
      DeliveredLater(b, Arrive(p), Backwards(u, k - 1, clock), Flatten(u.frame.chunks));
    }
  }

  /** From an empty buffer. */
  lemma BackwardsFromEmpty(u: Burst, n: nat, clock: Clock)
    requires u.Fits(n) && u.frame.isIFrame
    ensures Flatten(u.frame.chunks) in Delivered(Empty(n), Backwards(u, |u.frame.chunks|, clock))
  {
    hide Add, Keeps, Flatten, Delivered;
    var c := |u.frame.chunks|;
    AnyChunkArrives(Empty(n), u, c - 1);
    assert Range(c - 1, c) == {c - 1};
    var b := Add(Empty(n), u.Chunk(c - 1));
    BackwardsDelivers(b, u, c - 1, clock);
    DeliveredLater(Empty(n), Arrive(u.Chunk(c - 1)), Backwards(u, c - 1, clock), Flatten(u.frame.chunks));
  }

  lemma {:induction false} BackwardsArrivals(u: Burst, k: nat, clock: Clock, e: Event)
    requires k <= |u.frame.chunks| && e in Backwards(u, k, clock) && e.Arrive?
    ensures exists m: nat :: m < k && e.packet == u.Chunk(m)
  {
    if k > 0 && e != Arrive(u.Chunk(k - 1)) {
      BackwardsArrivals(u, k - 1, clock, e);
    }
  }

  // ----- which frames come out as they were sent

  /** If the run has only packets of the stream, it delivers only frames of the stream. */
  ghost predicate Genuine(s: Stream, n: nat, es: seq<Event>)
    requires n > 0
  {
    (forall e :: e in es && e.Arrive? ==> Sent(s, e.packet)) ==>
      forall data :: data in Delivered(Empty(n), es) ==> IsFrameOf(s, data)
  }

  lemma TailIsShorter(f: Frame)
    requires TailStart(f) > 0 && f.chunks[0] != []
    ensures |Flatten(f.chunks[TailStart(f)..])| < |Flatten(f.chunks)|
  {
    var cut := TailStart(f);
    FlattenSplit(f.chunks, cut);
    assert f.chunks[..cut][0] == f.chunks[0];
  }

  lemma OneFrameSound(f: Frame, first: nat, cfg: MediaConfig)
    requires Countable(f) && first + |f.chunks| <= TWO_64
    ensures SoundStream(Stream([f], first, cfg))
  {
    assert [f][1..] == [] && ChunkCount([f]) == |f.chunks|;
    assert DistinctStamps(Stream([f], first, cfg));
  }

  lemma ChunkSent(f: Frame, first: nat, cfg: MediaConfig, k: nat)
    requires k < |f.chunks|
    ensures Sent(Stream([f], first, cfg), PacketsOf(f, first, cfg)[k])
  {
    assert Carries(Stream([f], first, cfg), PacketsOf(f, first, cfg)[k], 0, k);
  }

  /** A run that delivers the tail of a frame with too many chunks as if it were a frame. */
  lemma TailDelivered(f: Frame, first: nat, cfg: MediaConfig, n: nat) returns (es: seq<Event>)
    requires TWO_8 <= n < TWO_64 / 2 && f.isIFrame && !Countable(f) && first + |f.chunks| <= TWO_64
    ensures forall e :: e in es && e.Arrive? ==> Sent(Stream([f], first, cfg), e.packet)
    ensures Flatten(f.chunks[TailStart(f)..]) in Delivered(Empty(n), es)
  {
    hide Delivered, Sent;
    var (cut, clock) := (TailStart(f), (k: nat) => 0);
    var u := Burst(TailOf(f, cut), first + cut, cfg);
    var c := |u.frame.chunks|;
    es := Backwards(u, c, clock);
    BackwardsFromEmpty(u, n, clock);
    TailPackets(f, first, cfg, cut);
    forall e | e in es && e.Arrive?
      ensures Sent(Stream([f], first, cfg), e.packet)
    {
      BackwardsArrivals(u, c, clock, e);
      var m: nat :| m < c && e.packet == u.Chunk(m);
      assert PacketsOf(f, first, cfg)[cut..][m] == PacketsOf(u.frame, u.first, cfg)[m] == u.Chunk(m);
      ChunkSent(f, first, cfg, cut + m);
    }
  }

  /** A frame that is not an I-frame never opens an empty buffer. */
  lemma GatedIsGenuine(f: Frame, first: nat, cfg: MediaConfig, n: nat, es: seq<Event>)
    requires n > 0 && !f.isIFrame
    ensures Genuine(Stream([f], first, cfg), n, es)
  {
    hide Delivered;
    var s := Stream([f], first, cfg);
    if forall e :: e in es && e.Arrive? ==> Sent(s, e.packet) {
      forall i | 0 <= i < |es| && es[i].Arrive?
        ensures !es[i].packet.isIFrame
      {
        assert es[i] in es;
        var j: nat, k: nat :| Carries(s, es[i].packet, j, k);
      }
      NothingBeforeIFrame(n, es);
    }
  }

  lemma CountableIsGenuine(f: Frame, first: nat, cfg: MediaConfig, n: nat, es: seq<Event>)
    requires n >= TWO_8 && Countable(f) && first + |f.chunks| <= TWO_64
    ensures Genuine(Stream([f], first, cfg), n, es)
  {
    hide Delivered;
    var s := Stream([f], first, cfg);
    OneFrameSound(f, first, cfg);
    if forall e :: e in es && e.Arrive? ==> Sent(s, e.packet) {
      NoCorruptedFrame(s, Empty(n), es);
    }
  }

  /**
   * However its packets are lost, reordered or repeated, a frame comes out of an empty buffer only as it was sent
   * exactly when it has fewer than 256 chunks or a multiple of 256, or is no I-frame and does not come out at all.
   */
  lemma GenuineExact(f: Frame, first: nat, cfg: MediaConfig, n: nat)
    requires TWO_8 <= n < TWO_64 / 2 && f.chunks != [] && f.chunks[0] != []
    requires first + |f.chunks| <= TWO_64
    ensures (forall es :: Genuine(Stream([f], first, cfg), n, es)) <==> Countable(f) || !f.isIFrame
  {
    hide Delivered;
    var s := Stream([f], first, cfg);
    if Countable(f) || !f.isIFrame {
      forall es: seq<Event>
        ensures Genuine(s, n, es)
      {
        if f.isIFrame {
          CountableIsGenuine(f, first, cfg, n, es);
        } else {
          GatedIsGenuine(f, first, cfg, n, es);
        }
      }
    } else {
      var es := TailDelivered(f, first, cfg, n);
      TailIsShorter(f);
      assert !IsFrameOf(s, Flatten(f.chunks[TailStart(f)..]));
      assert !Genuine(s, n, es);
    }
  }
}
