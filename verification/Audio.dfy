/** The audio ring buffer and the microphone's drain loop
  * (src/media/audio/ring_buffer.rs, src/media/audio/microphone.rs).
  */
module Audio {
  import opened Common
  import opened ModArith

  type Sample = real

  /** The last `n` samples of a queue. */
  function Latest(q: seq<Sample>, n: nat): seq<Sample> {
    if |q| <= n then q else q[|q| - n..]
  }

  lemma LatestShort(q: seq<Sample>, n: nat)
    requires |q| <= n
    ensures Latest(q, n) == q
  {
  }

  lemma LatestDropsOne(q: seq<Sample>, x: Sample)
    requires q != []
    ensures Latest(q + [x], |q|) == q[1..] + [x]
  {
    assert (q + [x])[1..] == q[1..] + [x];
  }

  lemma LatestOfLatest(q: seq<Sample>, more: seq<Sample>, n: nat)
    ensures Latest(Latest(q, n) + more, n) == Latest(q + more, n)
  {
  }

  /** The place `i` steps after `read` in a ring of `n`. */
  function At(read: nat, i: nat, n: nat): (r: nat)
    requires read < n && i <= n
    ensures r < n
  {
    if read + i < n then read + i else read + i - n
  }

  /** `count` samples of the ring, from `read` on. */
  function Ring(buffer: seq<Sample>, read: nat, count: nat): seq<Sample>
    requires count <= |buffer| && (|buffer| > 0 ==> read < |buffer|)
  {
    seq(count, i requires 0 <= i < count => buffer[At(read, i, |buffer|)])
  }

  lemma RingAppend(buffer: seq<Sample>, read: nat, count: nat, x: Sample)
    requires count < |buffer| && read < |buffer|
    ensures Ring(buffer[At(read, count, |buffer|) := x], read, count + 1) == Ring(buffer, read, count) + [x]
  {
  }

  lemma RingOverwrite(buffer: seq<Sample>, read: nat, x: Sample)
    requires read < |buffer|
    ensures Ring(buffer[read := x], Next(read, |buffer|), |buffer|) == Ring(buffer, read, |buffer|)[1..] + [x]
  {
    var n := |buffer|;
    forall i | 0 <= i < n
      ensures Ring(buffer[read := x], Next(read, n), n)[i] == (Ring(buffer, read, n)[1..] + [x])[i]
    {
      assert At(Next(read, n), i, n) == if i + 1 < n then At(read, i + 1, n) else read;
    }
  }

  lemma RingDrop(buffer: seq<Sample>, read: nat, count: nat, k: nat)
    requires k <= count <= |buffer| && read < |buffer|
    ensures Ring(buffer, At(read, k, |buffer|), count - k) == Ring(buffer, read, count)[k..]
  {
  }

  class AudioRingBuffer {
    var buffer: array<Sample>
    var writePos: nat
    var readPos: nat
    var count: nat

    ghost predicate Valid()
      reads this
    {
      && count <= buffer.Length
      && (buffer.Length == 0 ==> readPos == 0 && writePos == 0)
      && (buffer.Length > 0 ==> readPos < buffer.Length && writePos == At(readPos, count, buffer.Length))
    }

    /** The samples held, oldest first. */
    ghost function Contents(): (q: seq<Sample>)
      requires Valid()
      reads this, buffer
      ensures |q| == count
    {
      Ring(buffer[..], readPos, count)
    }

    constructor (capacity: nat)
      ensures Valid() && fresh(buffer) && buffer.Length == capacity && Contents() == []
    {
      buffer := new Sample[capacity](_ => 0.0);
      writePos, readPos, count := 0, 0, 0;
    }

    method Push(data: seq<Sample>)
      requires Valid() && (buffer.Length > 0 || data == [])
      modifies this, buffer
      ensures Valid() && buffer == old(buffer)
      ensures Contents() == Latest(old(Contents()) + data, buffer.Length)
    {
      hide Ring, Latest;
      ghost var before := Contents();
      LatestShort(before, buffer.Length);
      assert before + data[..0] == before;
      for i := 0 to |data|
        invariant Valid() && buffer == old(buffer)
        invariant Contents() == Latest(before + data[..i], buffer.Length)
      {
        PushOne(data[i]);
        LatestOfLatest(before + data[..i], [data[i]], buffer.Length);
        assert before + data[..i] + [data[i]] == before + data[..i + 1];
      }
      assert data[..|data|] == data;
    }

    method PushOne(sample: Sample)
      requires Valid() && buffer.Length > 0
      modifies this, buffer
      ensures Valid() && buffer == old(buffer)
      ensures Contents() == Latest(old(Contents()) + [sample], buffer.Length)
    {
      hide Ring, Latest;
      ghost var before, held := buffer[..], Contents();
      buffer[writePos] := sample;
      assert buffer[..] == before[writePos := sample];
      writePos := Next(writePos, buffer.Length);
      if count < buffer.Length {
        RingAppend(before, readPos, count, sample);
        LatestShort(held + [sample], buffer.Length);
        count := count + 1;
      } else {
        RingOverwrite(before, readPos, sample);
        LatestDropsOne(held, sample);
        readPos := Next(readPos, buffer.Length);
      }
    }

    method PopChunk(size: nat) returns (chunk: Option<seq<Sample>>)
      requires Valid()
      modifies this
      ensures Valid() && buffer == old(buffer)
      ensures old(count) < size ==> chunk == None && Contents() == old(Contents())
      ensures old(count) >= size ==>
                chunk == Some(old(Contents())[..size]) && Contents() == old(Contents())[size..]
    {
      if count < size {
        return None;
      }
      var samples := [];
      ghost var before, start := Contents(), readPos;
      for i := 0 to size
        invariant unchanged(`count, `buffer, `writePos)
        invariant buffer.Length == 0 ==> readPos == start
        invariant buffer.Length > 0 ==> readPos == At(start, i, buffer.Length)
        invariant samples == before[..i]
      {
        assert buffer[readPos] == before[i];
        samples := samples + [buffer[readPos]];
        readPos := Next(readPos, buffer.Length);
      }
      if buffer.Length > 0 {
        RingDrop(buffer[..], start, count, size);
      }
      count := count - size;
      return Some(samples);
    }
  }

  // ----- any run of operations

  datatype RingOp = PushOp(data: seq<Sample>) | PopOp(size: nat)

  function AfterOp(q: seq<Sample>, op: RingOp, capacity: nat): seq<Sample> {
    match op
    case PushOp(data) => Latest(q + data, capacity)
    case PopOp(size) => if |q| < size then q else q[size..]
  }

  /** The contents after a run of operations on an empty ring, latest operation last. */
  function RunContents(ops: seq<RingOp>, capacity: nat): seq<Sample> {
    if ops == [] then [] else AfterOp(RunContents(ops[..|ops| - 1], capacity), ops[|ops| - 1], capacity)
  }

  function Pushed(ops: seq<RingOp>): seq<Sample> {
    if ops == [] then []
    else
      var before := Pushed(ops[..|ops| - 1]);
      if ops[|ops| - 1].PushOp? then before + ops[|ops| - 1].data else before
  }

  function LevelAfter(n: nat, op: RingOp, capacity: nat): nat {
    match op
    case PushOp(data) => Min(n + |data|, capacity)
    case PopOp(size) => if n < size then n else n - size
  }

  /** How many samples are held: pushes fill up to the capacity, pops take whole chunks or nothing. */
  function Level(ops: seq<RingOp>, capacity: nat): nat {
    if ops == [] then 0 else LevelAfter(Level(ops[..|ops| - 1], capacity), ops[|ops| - 1], capacity)
  }

  /** After any run the ring holds the latest samples pushed, as many as its level. */
  lemma {:induction false} RingHoldsLatest(ops: seq<RingOp>, capacity: nat)
    ensures Level(ops, capacity) <= |Pushed(ops)| && Level(ops, capacity) <= capacity
    ensures RunContents(ops, capacity) == Latest(Pushed(ops), Level(ops, capacity))
  {
    if ops != [] {
      LastOperation(ops, capacity);
      hide Latest, RunContents, Pushed, Level;
      var before := ops[..|ops| - 1];
      RingHoldsLatest(before, capacity);
      OneMoreOperation(Pushed(before), Level(before, capacity), ops[|ops| - 1], capacity);
    } else {
      LatestShort([], 0);
    }
  }

  /** The latest `n` samples pushed stay the latest, by the new level, after any operation. */
  lemma OneMoreOperation(pushed: seq<Sample>, n: nat, op: RingOp, capacity: nat)
    requires n <= |pushed| && n <= capacity
    ensures match op
      case PushOp(data) =>
        Latest(Latest(pushed, n) + data, capacity) == Latest(pushed + data, Min(n + |data|, capacity))
      case PopOp(size) =>
        var q := Latest(pushed, n);
        |q| == n && (size <= n ==> q[size..] == Latest(pushed, n - size))
  {
    hide Latest;
    LatestLength(pushed, n);
    match op
    case PushOp(data) => LatestPushed(pushed, n, data, capacity);
    case PopOp(size) => LatestPopped(pushed, n, size);
  }

  lemma LastOperation(ops: seq<RingOp>, capacity: nat)
    requires ops != []
    ensures var (before, op) := (ops[..|ops| - 1], ops[|ops| - 1]);
      && RunContents(ops, capacity) == AfterOp(RunContents(before, capacity), op, capacity)
      && Pushed(ops) == (if op.PushOp? then Pushed(before) + op.data else Pushed(before))
      && Level(ops, capacity) == LevelAfter(Level(before, capacity), op, capacity)
  {
    hide AfterOp, LevelAfter;
  }

  lemma LatestLength(p: seq<Sample>, n: nat)
    ensures |Latest(p, n)| == Min(|p|, n)
  {
  }

  lemma LatestPushed(p: seq<Sample>, n: nat, data: seq<Sample>, capacity: nat)
    requires n <= |p|
    ensures Latest(Latest(p, n) + data, capacity) == Latest(p + data, Min(n + |data|, capacity))
  {
    var q, m := Latest(p, n) + data, Min(n + |data|, capacity);
    assert q == (p + data)[|p| - n..];
    assert |q| == n + |data|;
  }

  lemma LatestPopped(p: seq<Sample>, n: nat, size: nat)
    requires n <= |p|
    ensures size <= n ==> Latest(p, n)[size..] == Latest(p, n - size)
  {
  }

  // ----- the capture callback

  /** The whole frames at the front of the queue. */
  function FramesOf(q: seq<Sample>, size: nat): seq<seq<Sample>>
    requires size > 0
    decreases |q|
  {
    if |q| < size then [] else [q[..size]] + FramesOf(q[size..], size)
  }

  /** The samples left behind them. */
  function Residue(q: seq<Sample>, size: nat): (r: seq<Sample>)
    requires size > 0
    ensures |r| < size
    decreases |q|
  {
    if |q| < size then q else Residue(q[size..], size)
  }

  lemma NextFrame(q: seq<Sample>, size: nat)
    requires size > 0
    ensures FramesOf(q, size) == if |q| < size then [] else [q[..size]] + FramesOf(q[size..], size)
    ensures Residue(q, size) == if |q| < size then q else Residue(q[size..], size)
  {
  }

  lemma {:induction false} FramesAndResidue(q: seq<Sample>, size: nat)
    requires size > 0
    ensures Flatten(FramesOf(q, size)) + Residue(q, size) == q
    decreases |q|
  {
    hide FramesOf, Residue, Flatten;
    NextFrame(q, size);
    if |q| >= size {
      var rest := q[size..];
      FramesAndResidue(rest, size);
      FlattenFirst(q[..size], FramesOf(rest, size));
      assert q[..size] + Flatten(FramesOf(rest, size)) + Residue(rest, size)
          == q[..size] + (Flatten(FramesOf(rest, size)) + Residue(rest, size));
    } else {
      NoneToFlatten(q);
    }
  }

  lemma FlattenFirst(first: seq<Sample>, rest: seq<seq<Sample>>)
    ensures Flatten([first] + rest) == first + Flatten(rest)
  {
    assert ([first] + rest)[1..] == rest;
  }

  lemma NoneToFlatten(q: seq<Sample>)
    ensures Flatten<Sample>([]) + q == q
  {
  }

  lemma {:induction false} FrameSizes(q: seq<Sample>, size: nat)
    requires size > 0
    ensures forall f :: f in FramesOf(q, size) ==> |f| == size
    decreases |q|
  {
    if |q| >= size {
      FrameSizes(q[size..], size);
    }
  }

  /** What was sent when nothing more is left, or nothing more can be. */
  lemma Taken<T>(frames: seq<T>, sent: seq<T>, rest: seq<T>, room: nat)
    requires frames == sent + rest && |sent| <= room && (rest == [] || |sent| == room)
    ensures frames[..Min(room, |frames|)] == sent && (|frames| <= room <==> rest == [])
  {
  }

  lemma Moved<T>(sent: seq<T>, x: T, rest: seq<T>)
    ensures sent + ([x] + rest) == (sent + [x]) + rest
  {
  }

  class Microphone {
    const ring: AudioRingBuffer
    const frameSize: nat
    var emitted: seq<seq<Sample>>

    ghost predicate Valid()
      reads this, ring
    {
      ring.Valid() && frameSize > 0 && ring.buffer.Length == 10 * frameSize
    }

    constructor (frameSize: nat)
      requires frameSize > 0
      ensures Valid() && this.frameSize == frameSize && emitted == []
      ensures fresh(ring) && fresh(ring.buffer) && ring.Contents() == []
    {
      this.frameSize := frameSize;
      emitted := [];
      ring := new AudioRingBuffer(frameSize * 10);
    }

    /** One callback with resampled samples; the frame channel still takes `room` frames. */
    method Callback(data: seq<Sample>, muted: bool, room: nat)
      requires Valid()
      modifies this, ring, ring.buffer
      ensures Valid() && ring.buffer == old(ring.buffer)
      ensures muted ==> emitted == old(emitted) && ring.Contents() == old(ring.Contents())
      ensures !muted ==>
                var q := Latest(old(ring.Contents()) + data, 10 * frameSize);
                var frames := FramesOf(q, frameSize);
                && emitted == old(emitted) + frames[..Min(room, |frames|)]
                && (|frames| <= room ==> ring.Contents() == Residue(q, frameSize))
    {
      if muted {
        return;
      }
      hide FramesOf, Residue, Latest, Ring;
      ring.Push(data);
      Drain(room);
    }

    /** Takes whole frames off the ring and sends them, until none is left or the channel is closed. */
    method Drain(room: nat)
      requires Valid()
      modifies this, ring
      ensures Valid() && ring.buffer == old(ring.buffer)
      ensures var frames := FramesOf(old(ring.Contents()), frameSize);
              && emitted == old(emitted) + frames[..Min(room, |frames|)]
              && (|frames| <= room ==> ring.Contents() == Residue(old(ring.Contents()), frameSize))
    {
      hide FramesOf, Residue, Latest, Ring;
      ghost var q, sent := ring.Contents(), [];
      ghost var frames := FramesOf(q, frameSize);
      var left: nat := room;
      while true
        invariant Valid() && ring.buffer == old(ring.buffer) && left + |sent| == room
        invariant emitted == old(emitted) + sent
        invariant frames == sent + FramesOf(ring.Contents(), frameSize)
        invariant Residue(ring.Contents(), frameSize) == Residue(q, frameSize)
        decreases ring.count
      {
        NextFrame(ring.Contents(), frameSize);
        var chunk := ring.PopChunk(frameSize);
        if chunk.None? {
          Taken(frames, sent, [], room);
          return;
        }
        ghost var rest := FramesOf(ring.Contents(), frameSize);
        if left == 0 {
          Taken(frames, sent, [chunk.value] + rest, room);
          return;
        }
        Moved(sent, chunk.value, rest);
        emitted := emitted + [chunk.value];
        sent := sent + [chunk.value];
        left := left - 1;
      }
    }
  }

  // ----- a capture session

  /** What unmuted callbacks with these samples emit, from a ring holding `q`. */
  function Captured(q: seq<Sample>, datas: seq<seq<Sample>>, size: nat): seq<seq<Sample>>
    requires size > 0
    decreases datas
  {
    if datas == [] then []
    else
      var full := Latest(q + datas[0], 10 * size);
      FramesOf(full, size) + Captured(Residue(full, size), datas[1..], size)
  }

  function Left(q: seq<Sample>, datas: seq<seq<Sample>>, size: nat): seq<Sample>
    requires size > 0
    decreases datas
  {
    if datas == [] then q else Left(Residue(Latest(q + datas[0], 10 * size), size), datas[1..], size)
  }

  lemma {:induction false} FlattenJoin<T>(a: seq<seq<T>>, b: seq<seq<T>>)
    ensures Flatten(a + b) == Flatten(a) + Flatten(b)
  {
    if a == [] {
      assert a + b == b;
    } else {
      assert (a + b)[1..] == a[1..] + b;
      FlattenJoin(a[1..], b);
    }
  }

  lemma Regroup<T>(a: seq<T>, b: seq<T>, c: seq<T>, r: seq<T>, t: seq<T>, q: seq<T>, d: seq<T>)
    requires a + r == q + d && b + c == r + t
    ensures (a + b) + c == q + (d + t)
  {
    assert (a + b) + c == a + (b + c);
    assert a + (r + t) == (a + r) + t;
    assert (q + d) + t == q + (d + t);
  }

  /** One callback loses nothing exactly when the residue and the new samples fit in ten frames. */
  lemma CallbackLossless(q: seq<Sample>, data: seq<Sample>, size: nat)
    requires size > 0
    ensures var full := Latest(q + data, 10 * size);
      Flatten(FramesOf(full, size)) + Residue(full, size) == q + data <==> |q| + |data| <= 10 * size
  {
    FramesAndResidue(Latest(q + data, 10 * size), size);
  }

  /** Callbacks of at most 9 frames and one sample lose nothing: frames then residue are all that was pushed. */
  lemma {:induction false} CaptureLossless(q: seq<Sample>, datas: seq<seq<Sample>>, size: nat)
    requires size > 0 && |q| < size
    requires forall d :: d in datas ==> |d| <= 9 * size + 1
    ensures Flatten(Captured(q, datas, size)) + Left(q, datas, size) == q + Flatten(datas)
    ensures |Left(q, datas, size)| < size
    decreases datas
  {
    if datas != [] {
      var full := Latest(q + datas[0], 10 * size);
      var frames, rest := FramesOf(full, size), Residue(full, size);
      var later, left := Captured(rest, datas[1..], size), Left(rest, datas[1..], size);
      CallbackLossless(q, datas[0], size);
      CaptureLossless(rest, datas[1..], size);
      FlattenJoin(frames, later);
      Regroup(Flatten(frames), Flatten(later), left, rest, Flatten(datas[1..]), q, datas[0]);
    }
  }

  /** The bound is tight: a longer callback can find a residue with which samples are lost. */
  lemma CaptureBoundTight(q: seq<Sample>, data: seq<Sample>, size: nat)
    requires size > 0 && |q| == size - 1 && |data| == 9 * size + 2
    ensures Flatten(Captured(q, [data], size)) + Left(q, [data], size) != q + data
  {
    var full := Latest(q + data, 10 * size);
    CallbackLossless(q, data, size);
    assert Captured(Residue(full, size), [], size) == [];
    assert FramesOf(full, size) + [] == FramesOf(full, size);
  }
}
