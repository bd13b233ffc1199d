/** The receiver's loss counter (src/transport/jitter_buffer/jitter.rs, update_stats). */
module JitterStats {
  import opened Common

  datatype Stats = Stats(received: u32, lost: u32, maxSeqSeen: u64)

  const NO_STATS: Stats := Stats(0, 0, 0)

  const GAP_LIMIT: nat := 1000

  /** The counters after a packet numbered `s` arrives; 32-bit counters wrap. */
  function UpdateStats(st: Stats, s: u64): Stats {
    var received := (st.received + 1) % TWO_32;
    if received == 1 then st.(received := received, maxSeqSeen := s)
    else if s > st.maxSeqSeen then
      var gap := s - st.maxSeqSeen - 1;
      var lost := if 0 < gap < GAP_LIMIT then (st.lost + gap) % TWO_32 else st.lost;
      Stats(received, lost, s)
    else if st.lost > 0 then st.(received := received, lost := st.lost - 1)
    else st.(received := received)
  }

  /** The counters after the arrivals `xs`, in that order. */
  function After(xs: seq<u64>): Stats {
    if xs == [] then NO_STATS else UpdateStats(After(xs[..|xs| - 1]), xs[|xs| - 1])
  }

  function Highest(xs: seq<u64>): u64
    requires xs != []
  {
    if |xs| == 1 then xs[0] else Max(Highest(xs[..|xs| - 1]), xs[|xs| - 1])
  }

  /** The numbers between the first and the highest arrival that have not arrived. */
  ghost function Missing(xs: seq<u64>): set<int>
    requires xs != []
  {
    set s | xs[0] <= s <= Highest(xs) && s !in xs
  }

  /** At most 2^32 arrivals, the highest less than 2^32 above the first: the 32-bit counters do not wrap. */
  predicate Bounded(xs: seq<u64>) {
    xs != [] && |xs| <= TWO_32 && Highest(xs) - xs[0] < TWO_32
  }

  /** Whether arrival `i` jumps ahead of the highest earlier arrival by fewer than 1000 numbers. */
  predicate SmallGap(xs: seq<u64>, i: nat)
    requires 1 <= i < |xs|
  {
    xs[i] - Highest(xs[..i]) - 1 < 1000
  }

  /**
   * What the counter can tell of arrival `i`: a jump ahead that is small, or a number at or below the highest
   * that was missing, or that finds nothing missing.
   */
  ghost predicate Counted(xs: seq<u64>, i: nat)
    requires 1 <= i < |xs|
  {
    if xs[i] > Highest(xs[..i]) then SmallGap(xs, i)
    else xs[i] in Missing(xs[..i]) || Missing(xs[..i]) == {}
  }

  lemma {:induction false} HighestBounds(xs: seq<u64>)
    requires xs != []
    ensures Highest(xs) in xs && forall i :: 0 <= i < |xs| ==> xs[i] <= Highest(xs)
  {
    if |xs| > 1 {
      HighestBounds(xs[..|xs| - 1]);
    }
  }

  lemma BoundedPrefix(xs: seq<u64>, n: nat)
    requires Bounded(xs) && 1 <= n <= |xs|
    ensures Bounded(xs[..n])
  {
    HighestBounds(xs);
    HighestBounds(xs[..n]);
  }

  lemma {:induction false} RangeSize(lo: int, hi: int)
    requires lo <= hi
    ensures |Range(lo, hi)| == hi - lo
    decreases hi - lo
  {
    if lo < hi {
      RangeSize(lo, hi - 1);
      assert Range(lo, hi) == Range(lo, hi - 1) + {hi - 1};
    } else {
      assert Range(lo, hi) == {};
    }
  }

  // ----- what one arrival does to the missing numbers

  /** A jump ahead adds the numbers it passes over. */
  lemma JumpMisses(ys: seq<u64>, x: u64)
    requires ys != [] && x > Highest(ys)
    ensures |Missing(ys + [x])| == |Missing(ys)| + (x - Highest(ys) - 1)
  {
    hide Highest, Missing, Range;
    var h: int := Highest(ys);
    JumpAdds(ys, x);
    RangeSize(h + 1, x);
    DisjointSize(Missing(ys), Range(h + 1, x));
  }

  lemma JumpAdds(ys: seq<u64>, x: u64)
    requires ys != [] && x > Highest(ys)
    ensures var passed := Range(Highest(ys) as int + 1, x);
      Missing(ys + [x]) == Missing(ys) + passed && Missing(ys) !! passed
  {
    var (h: int, zs) := (Highest(ys), ys + [x]);
    HighestBounds(ys);
    HighestAppend(ys, x);
    hide Highest;
    forall s: int
      ensures s in Missing(zs) <==> s in Missing(ys) || h < s < x
    {
      assert s in zs <==> s in ys || s == x;
    }
  }

  lemma DisjointSize(a: set<int>, b: set<int>)
    requires a !! b
    ensures |a + b| == |a| + |b|
  {
  }

  /** Any other arrival takes its own number from them, if it is one. */
  lemma LateMisses(ys: seq<u64>, x: u64)
    requires ys != [] && x <= Highest(ys)
    ensures |Missing(ys + [x])| == |Missing(ys)| - (if x in Missing(ys) then 1 else 0)
  {
    HighestAppend(ys, x);
    assert Missing(ys + [x]) == Missing(ys) - {x};
  }

  lemma HighestAppend(ys: seq<u64>, x: u64)
    requires ys != []
    ensures Highest(ys + [x]) == Max(Highest(ys), x) && (ys + [x])[0] == ys[0]
  {
    assert (ys + [x])[..|ys|] == ys;
  }

  /** There are no more missing numbers than the span has. */
  lemma MissingBounded(xs: seq<u64>)
    requires xs != []
    ensures |Missing(xs)| <= Highest(xs) - xs[0]
  {
    HighestBounds(xs);
    RangeSize(xs[0], Highest(xs));
    SubsetSize(Missing(xs), Range(xs[0], Highest(xs)));
  }

  lemma SubsetSize(a: set<int>, b: set<int>)
    requires a <= b
    ensures |a| <= |b|
  {
    assert b == a + (b - a);
  }

  // ----- the counter

  /** A first arrival sets the highest number. */
  lemma FirstCounted(x: u64)
    ensures UpdateStats(NO_STATS, x) == Stats(1, 0, x)
  {
  }

  /** A later one counts small gaps, or takes one off. */
  lemma LaterCounted(st: Stats, i: nat, x: u64)
    requires 1 <= i < TWO_32 && st.received == i
    ensures var (st', gap) := (UpdateStats(st, x), x - st.maxSeqSeen - 1);
      && st'.received == (if i + 1 == TWO_32 then 0 else i + 1) && st'.maxSeqSeen == Max(st.maxSeqSeen, x)
      && (gap < 0 ==> st'.lost == Max(st.lost - 1, 0))
      && (gap >= 0 && st.lost + gap < TWO_32 ==> st'.lost == st.lost + if gap < GAP_LIMIT then gap else 0)
  {
  }

  lemma {:induction false} CountersTrack(xs: seq<u64>)
    requires Bounded(xs)
    ensures After(xs).received == (if |xs| == TWO_32 then 0 else |xs|) && After(xs).maxSeqSeen == Highest(xs)
  {
    var last := |xs| - 1;
    LastArrival(xs);
    if last > 0 {
      BoundedPrefix(xs, last);
      hide After, Highest, UpdateStats;
      CountersTrack(xs[..last]);
      LaterCounted(After(xs[..last]), last, xs[last]);
    } else {
      assert xs[..0] == [];
      FirstCounted(xs[0]);
    }
  }

  lemma LastArrival(xs: seq<u64>)
    requires xs != []
    ensures var last := |xs| - 1;
      && After(xs) == UpdateStats(After(xs[..last]), xs[last])
      && Highest(xs) == if last == 0 then xs[0] else Max(Highest(xs[..last]), xs[last])
  {
  }

  /** The counter is the number of missing packets. */
  ghost predicate Right(xs: seq<u64>)
    requires xs != []
  {
    After(xs).lost == |Missing(xs)|
  }

  lemma FirstRight(xs: seq<u64>)
    requires |xs| == 1
    ensures Right(xs)
  {
    assert xs[..0] == [];
    assert Missing(xs) == {};
  }

  lemma AfterAppend(ys: seq<u64>, x: u64)
    ensures After(ys + [x]) == UpdateStats(After(ys), x)
  {
    assert (ys + [x])[..|ys|] == ys;
  }

  lemma JumpRightExact(ys: seq<u64>, x: u64)
    requires Bounded(ys) && |ys| < TWO_32 && Right(ys) && Highest(ys) < x < ys[0] + TWO_32
    ensures Right(ys + [x]) <==> x - Highest(ys) - 1 < 1000
  {
    CountersTrack(ys);
    AfterAppend(ys, x);
    JumpMisses(ys, x);
    MissingBounded(ys);
    hide Missing, Highest, After, UpdateStats;
    LaterCounted(After(ys), |ys|, x);
  }

  lemma LateRightExact(ys: seq<u64>, x: u64)
    requires Bounded(ys) && |ys| < TWO_32 && Right(ys) && x <= Highest(ys)
    ensures Right(ys + [x]) <==> x in Missing(ys) || Missing(ys) == {}
  {
    CountersTrack(ys);
    AfterAppend(ys, x);
    LateMisses(ys, x);
    hide Missing, Highest, After, UpdateStats;
    LaterCounted(After(ys), |ys|, x);
  }

  /** A counter that is right stays right exactly at the arrivals it can tell of. */
  lemma StaysRightExact(xs: seq<u64>, i: nat)
    requires Bounded(xs) && 1 <= i < |xs| && Right(xs[..i])
    ensures Right(xs[..i + 1]) <==> Counted(xs, i)
  {
    var (ys, x) := (xs[..i], xs[i]);
    assert xs[..i + 1] == ys + [x];
    HighestBounds(xs);
    BoundedPrefix(xs, i);
    hide Missing, Highest, After, Right;
    if x > Highest(ys) {
      JumpRightExact(ys, x);
    } else {
      LateRightExact(ys, x);
    }
  }

  /**
   * For all arrivals, in any order and with any duplicates: `packets_lost` is the number of missing packets after
   * every arrival exactly when each is one the counter can tell of.
   */
  lemma LossCounterExact(xs: seq<u64>)
    requires Bounded(xs)
    ensures (forall n :: 1 <= n <= |xs| ==> Right(xs[..n])) <==> (forall i :: 1 <= i < |xs| ==> Counted(xs, i))
  {
    hide Right, Counted, Bounded;
    if forall i :: 1 <= i < |xs| ==> Counted(xs, i) {
      forall n | 1 <= n <= |xs|
        ensures Right(xs[..n])
      {
        RightWhenCounted(xs, n);
      }
    }
    if forall n :: 1 <= n <= |xs| ==> Right(xs[..n]) {
      forall i | 1 <= i < |xs|
        ensures Counted(xs, i)
      {
        assert Right(xs[..i]) && Right(xs[..i + 1]);
        StaysRightExact(xs, i);
      }
    }
  }

  lemma {:induction false} RightWhenCounted(xs: seq<u64>, n: nat)
    requires Bounded(xs) && 1 <= n <= |xs|
    requires forall i :: 1 <= i < |xs| ==> Counted(xs, i)
    ensures Right(xs[..n])
  {
    hide Right, Counted, Bounded;
    if n == 1 {
      FirstRight(xs[..1]);
    } else {
      RightWhenCounted(xs, n - 1);
      StaysRightExact(xs, n - 1);
    }
  }

  /** Arrivals without duplicates, the first the lowest. */
  predicate Fresh(xs: seq<u64>) {
    forall i, j :: 0 <= i < j < |xs| ==> xs[i] != xs[j] && xs[0] <= xs[j]
  }

  /** Without duplicates and below 1000 numbers to a jump, the counter is right, however packets are reordered. */
  lemma CounterIsMissing(xs: seq<u64>)
    requires Bounded(xs) && Fresh(xs)
    requires forall i :: 1 <= i < |xs| ==> SmallGap(xs, i)
    ensures Right(xs)
  {
    forall i | 1 <= i < |xs|
      ensures Counted(xs, i)
    {
      assert SmallGap(xs, i) && xs[0] <= xs[i];
      assert xs[i] !in xs[..i];
    }
    RightWhenCounted(xs, |xs|);
    assert xs[..|xs|] == xs;
  }

  /** A repeated packet lowers a counter above zero: 5, 7 and 5 again leave 6 missing and none counted. */
  lemma DuplicateMiscounts()
    ensures Right([5, 7]) && !Right([5, 7, 5])
  {
    var xs: seq<u64> := [5, 7, 5];
    assert xs[..1] == [5] && xs[..2] == [5, 7] && xs[..3] == xs;
    assert [5, 7][..1] == [5];
    assert Highest([5, 7]) == 7 && Highest(xs) == 7;
    FirstRight([5]);
    StaysRightExact(xs, 1);
    assert 6 in Missing([5, 7]);
    StaysRightExact(xs, 2);
  }
}
