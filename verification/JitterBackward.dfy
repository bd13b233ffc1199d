/** How far apart arrivals may be before delivered timestamps go back: exactly one turn of the ring. */
module JitterBackward {
  import opened Common
  import opened Rtp
  import opened ModArith
  import opened Jitter
  import opened Sender
  import opened JitterSafety
  import opened JitterDelivery
  import opened JitterPlayout
  import opened JitterOrder

  /** `n + 2` I-frames of one chunk each, stamped 1, 2, 3 and so on, numbered from `2 * n`. */
  function Still(j: nat): Frame
    requires j + 1 < TWO_128
  {
    Frame(j + 1, true, [[0]])
  }

  function Reel(n: nat): Stream
    requires n < TWO_64 / 4
  {
    Stream(seq(n + 2, j requires 0 <= j < n + 2 => Still(j)), 2 * n, MediaConfig(2, 96, 1))
  }

  /** The packet of frame `j`. */
  function Shot(n: nat, j: nat): RtpPacket
    requires n < TWO_64 / 4 && j < n + 2
  {
    RtpPacket(2, 1, 1, true, 96, 2 * n + j, j + 1, 1, [0])
  }

  lemma {:induction false} SingleChunks(frames: seq<Frame>)
    requires forall f <- frames :: |f.chunks| == 1
    ensures ChunkCount(frames) == |frames|
  {
    if frames != [] {
      SingleChunks(frames[1..]);
    }
  }

  lemma ReelRises(n: nat)
    requires n < TWO_64 / 4
    ensures Rising(Reel(n))
  {
    SingleChunks(Reel(n).frames);
  }

  lemma ShotSent(n: nat, j: nat)
    requires n < TWO_64 / 4 && j < n + 2
    ensures Sent(Reel(n), Shot(n, j))
  {
    SingleChunks(Reel(n).frames[..j]);
    assert Carries(Reel(n), Shot(n, j), j, 0);
  }

  function AtOne(): Clock {
    (k: nat) => 1
  }

  /** After the first frame was delivered at time 1: an empty ring that follows a schedule. */
  predicate Playing(n: nat, b: Buffer) {
    Clear(b) && |b.slots| == n && !b.iFrameNeeded && b.lastCompleted == 1 && b.lastDeliver == 1
  }

  lemma FirstDelivered(n: nat)
    requires TWO_8 <= n < TWO_64 / 4
    ensures Playing(n, Pop(Add(Empty(n), Shot(n, 0)), AtOne()).buffer)
  {
    var u := Burst(Still(0), 2 * n, MediaConfig(2, 96, 1));
    var cs := [AtOne()];
    hide Pop, Add;
    FramePlays(Empty(n), u, cs);
    assert PacketsOf(u.frame, u.first, u.cfg) == [Shot(n, 0)];
    var ps := [Shot(n, 0)];
    assert ps[1..] == [] && cs[1..] == [];
    assert PlayOut(Empty(n), ps, cs) == Pop(Add(Empty(n), ps[0]), cs[0]).buffer;
  }

  /** Frames 1 and 2 in slots 1 and 2. */
  function Two(n: nat, b: Buffer): Buffer
    requires TWO_8 <= n < TWO_64 / 4 && Playing(n, b)
  {
    Buffer(b.slots[1 := Some(Shot(n, 1))][2 := Some(Shot(n, 2))], 1, 2, Some(2 * n + 1), Some(2 * n + 2), false, 1, 1)
  }

  lemma Residues(n: nat, j: nat)
    requires n > 0 && j < n
    ensures (2 * n + j) % n == j && (3 * n + j) % n == j
  {
    ModUnique(2 * n + j, 2, j, n);
    ModUnique(3 * n + j, 3, j, n);
  }

  lemma FirstArrives(n: nat, b: Buffer)
    requires TWO_8 <= n < TWO_64 / 4 && Playing(n, b)
    ensures var one := Add(b, Shot(n, 1));
      && one == Buffer(b.slots[1 := Some(Shot(n, 1))], 1, 1, Some(2 * n + 1), Some(2 * n + 1), false, 1, 1)
      && Add(one, Shot(n, 2)) == Two(n, b)
  {
    hide Resync;
    Residues(n, 1);
    Residues(n, 2);
    var one := Add(b, Shot(n, 1));
    assert one == Buffer(b.slots[1 := Some(Shot(n, 1))], 1, 1, Some(2 * n + 1), Some(2 * n + 1), false, 1, 1);
    assert !Discards(one, Shot(n, 2));
  }

  /** Frame `n + 1` in the slot of frame 1, next to frame 2; `on` says whether the ring is being read. */
  function Overtaken(n: nat, b: Buffer, on: bool): Buffer
    requires TWO_8 <= n < TWO_64 / 4 && Playing(n, b)
  {
    var slots := b.slots[2 := Some(Shot(n, 2))][1 := Some(Shot(n, n + 1))];
    if on then Buffer(slots, 1, 1, Some(3 * n + 1), Some(3 * n + 1), false, 1, 1)
    else Buffer(slots, 0, 0, None, None, true, 1, 1)
  }

  /** A packet one turn ahead of the read slot resets the ring and leaves frame 2 in it. */
  lemma OvertakerResets(n: nat, b: Buffer)
    requires TWO_8 <= n < TWO_64 / 4 && Playing(n, b)
    ensures Add(Two(n, b), Shot(n, n + 1)) == Overtaken(n, b, false)
  {
    Residues(n, 1);
    var (two, p) := (Two(n, b), Shot(n, n + 1));
    assert !Discards(two, p);
    var moved := two.(writeIdx := 1, writeSeq := Some(3 * n + 1));
    var cleared := two.slots[1 := None];
    assert Scan(two.slots, 1, 1, 2, n) == ScanResult(cleared, None);
    assert Resync(moved) == Reset(moved, cleared);
    assert cleared[1 := Some(p)] == Overtaken(n, b, false).slots;
  }

  /** Its repetition starts the ring again, at its own slot. */
  lemma OvertakerRepeated(n: nat, b: Buffer)
    requires TWO_8 <= n < TWO_64 / 4 && Playing(n, b)
    ensures Add(Overtaken(n, b, false), Shot(n, n + 1)) == Overtaken(n, b, true)
  {
    Residues(n, 1);
    var left := Overtaken(n, b, false);
    assert left.slots[0] == None;
    assert left.slots[1 := Some(Shot(n, n + 1))] == left.slots;
  }

  /** Delivering it moves on to the older frame. */
  lemma OvertakerDelivered(n: nat, b: Buffer)
    requires TWO_8 <= n < TWO_64 / 4 && Playing(n, b)
    ensures var r := Pop(Overtaken(n, b, true), AtOne());
      && r.frame.Some? && r.buffer.slots == b.slots[2 := Some(Shot(n, 2))] && r.buffer.readIdx == 2
      && r.buffer.lastCompleted == n + 2 && r.buffer.lastDeliver == n + 2
  {
    var (o, p) := (Overtaken(n, b, true), Shot(n, n + 1));
    assert Prepare(o, AtOne(), 0) == Prepared(o, Some(n + 2), 1);
    assert Collect(o.slots, 1, n + 2, [], 0, n) == Some(Collected([] + [0], 2, p));
    var cleared := o.slots[1 := None];
    assert ClearTo(o.slots, 1, 2) == ClearTo(cleared, 2, 2) == cleared;
    assert FindNext(cleared, 2, n) == (2, true);
    assert cleared == b.slots[2 := Some(Shot(n, 2))];
  }

  /** The older frame passes its check at the same time, because the schedule has run ahead of the clock. */
  lemma OlderDelivered(n: nat, b: Buffer)
    requires TWO_8 <= n < TWO_64 / 4 && b.Shaped() && |b.slots| == n && b.readIdx == 2
    requires b.slots[2] == Some(Shot(n, 2)) && b.lastCompleted == n + 2 && b.lastDeliver == n + 2
    ensures Pop(b, AtOne()).frame.Some? && Due(b, AtOne()) == Some(3)
  {
    assert Prepare(b, AtOne(), 0) == Prepared(b, Some(3), 1);
    assert Collect(b.slots, 2, 3, [], 0, n) == Some(Collected([] + [0], 3, Shot(n, 2)));
  }

  // ----- the run

  /** Every reading of the clock is 1. */
  ghost predicate Stopped(es: seq<Event>) {
    forall e :: e in es && e.Ask? ==> forall k :: e.clock(k) == 1
  }

  /** A run with a stopped clock and within a span of `n + 1` numbers, in which a delivered timestamp goes back. */
  ghost predicate GoesBack(n: nat, b: Buffer, es: seq<Event>)
    requires n < TWO_64 / 4 && b.Shaped()
  {
    SpanRun(Reel(n), b, es, n + 1) && Stopped(es) && !Forward(b, es)
  }

  lemma ArrivesFirst(n: nat, b: Buffer, j: nat, es: seq<Event>)
    requires n < TWO_64 / 4 && b.Shaped() && j < n + 2 && Within(b, Shot(n, j), n + 1)
    requires GoesBack(n, Add(b, Shot(n, j)), es)
    ensures GoesBack(n, b, [Arrive(Shot(n, j))] + es)
  {
    hide Add, Within;
    ShotSent(n, j);
    hide Sent;
    assert ([Arrive(Shot(n, j))] + es)[1..] == es;
  }

  lemma AsksFirst(n: nat, b: Buffer, es: seq<Event>)
    requires n < TWO_64 / 4 && b.Shaped() && GoesBack(n, Pop(b, AtOne()).buffer, es)
    ensures GoesBack(n, b, [Ask(AtOne())] + es)
  {
    hide Pop;
    assert ([Ask(AtOne())] + es)[1..] == es;
  }

  lemma EndsBackward(n: nat, b: Buffer)
    requires TWO_8 <= n < TWO_64 / 4 && Playing(n, b)
    ensures GoesBack(n, Overtaken(n, b, true), [Ask(AtOne())] + [Ask(AtOne())])
  {
    hide Pop, Due;
    OvertakerDelivered(n, b);
    var last := Pop(Overtaken(n, b, true), AtOne()).buffer;
    OlderDelivered(n, last);
    assert [Ask(AtOne())][1..] == [];
    assert GoesBack(n, last, [Ask(AtOne())]);
    AsksFirst(n, Overtaken(n, b, true), [Ask(AtOne())]);
  }

  /** Each arrival of the run is within the span. */
  lemma RestWithin(n: nat, b: Buffer)
    requires TWO_8 <= n < TWO_64 / 4 && Playing(n, b)
    ensures Within(b, Shot(n, 1), n + 1) && Within(Add(b, Shot(n, 1)), Shot(n, 2), n + 1)
    ensures Within(Two(n, b), Shot(n, n + 1), n + 1) && Within(Overtaken(n, b, false), Shot(n, n + 1), n + 1)
    ensures Two(n, b).Shaped() && Overtaken(n, b, false).Shaped() && Overtaken(n, b, true).Shaped()
  {
    FirstArrives(n, b);
    hide Add, Discards;
  }

  /** Frames 1 and 2 arrive, frame `n + 1` arrives twice, and two frames are asked for. */
  lemma RestGoesBack(n: nat, b: Buffer) returns (es: seq<Event>)
    requires TWO_8 <= n < TWO_64 / 4 && Playing(n, b)
    ensures GoesBack(n, b, es)
  {
    hide Add, GoesBack, Within, Shot, Two, Overtaken;
    FirstArrives(n, b);
    OvertakerResets(n, b);
    OvertakerRepeated(n, b);
    EndsBackward(n, b);
    RestWithin(n, b);
    es := [Ask(AtOne())] + [Ask(AtOne())];
    ArrivesFirst(n, Overtaken(n, b, false), n + 1, es);
    es := [Arrive(Shot(n, n + 1))] + es;
    ArrivesFirst(n, Two(n, b), n + 1, es);
    es := [Arrive(Shot(n, n + 1))] + es;
    ArrivesFirst(n, Add(b, Shot(n, 1)), 2, es);
    es := [Arrive(Shot(n, 2))] + es;
    ArrivesFirst(n, b, 1, es);
    es := [Arrive(Shot(n, 1))] + es;
  }

  /**
   * For every ring size, a rising stream and a run whose arrivals are at most one turn apart and in which a
   * delivered timestamp goes back, although the clock stands still.
   */
  lemma TimestampsCanGoBack(n: nat) returns (es: seq<Event>)
    requires TWO_8 <= n < TWO_64 / 4
    ensures Rising(Reel(n)) && SpanRun(Reel(n), Empty(n), es, n + 1)
    ensures Stopped(es) && !Forward(Empty(n), es)
  {
    ReelRises(n);
    FirstDelivered(n);
    var first := Add(Empty(n), Shot(n, 0));
    hide Pop, Add, Forward, SpanRun, Rising, Discards, Stopped;
    es := RestGoesBack(n, Pop(first, AtOne()).buffer);
    AsksFirst(n, first, es);
    es := [Ask(AtOne())] + es;
    ArrivesFirst(n, Empty(n), 0, es);
    es := [Arrive(Shot(n, 0))] + es;
  }

  /** A wider span admits more runs. */
  lemma {:induction false} SpanGrows(s: Stream, b: Buffer, es: seq<Event>, d: nat, d': nat)
    requires b.Shaped() && d <= d' && SpanRun(s, b, es, d)
    ensures SpanRun(s, b, es, d')
    decreases es
  {
    hide Step, Sent, Discards;
    if es != [] {
      SpanGrows(s, Step(b, es[0]).buffer, es[1..], d, d');
    }
  }

  /**
   * Under any loss, reordering and repetition that keeps arrivals within a span of `d` numbers, the timestamps
   * delivered from a rising stream never go back exactly when `d` is at most one turn of the ring.
   */
  lemma GoesForwardExact(n: nat, d: nat)
    requires TWO_8 <= n < TWO_64 / 4
    ensures (forall s, es :: Rising(s) && SpanRun(s, Empty(n), es, d) ==> Forward(Empty(n), es)) <==> d <= n
  {
    hide Forward, SpanRun, Rising;
    if d <= n {
      forall s, es | Rising(s) && SpanRun(s, Empty(n), es, d)
        ensures Forward(Empty(n), es)
      {
        SpanGrows(s, Empty(n), es, d, n);
        DeliveriesGoForward(s, n, es);
      }
    } else {
      var es := TimestampsCanGoBack(n);
      SpanGrows(Reel(n), Empty(n), es, n + 1, d);
    }
  }
}
