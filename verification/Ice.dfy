/** ICE candidate pairs: formation, priority and selection
  * (src/session/ice/ice_agent.rs, src/session/ice/candidate_pair.rs).
  */
module Ice {
  import opened Common

  datatype CandidateType = Host | ServerReflexive

  datatype Candidate = Candidate(
    candidateType: CandidateType,
    priority: u32,
    address: string,
    port: u16,
    componentId: u8,
    foundation: string,
    transport: string)

  datatype ConnectivityState = Waiting | InProgress | Succeeded | Failed

  datatype CandidatePair = CandidatePair(local: Candidate, remote: Candidate, priority: u64, state: ConnectivityState)

  datatype IceError = NoLocalCandidates | NoRemoteCandidates | NoCandidatePairs | NoSelectedPair | NetworkInterfaceError

  // ----- pair priority

  function TieBit(local: u32, remote: u32): nat {
    if local > remote then 1 else 0
  }

  /** The pair formula of section 6.1.2.3 of RFC 8445, before it is stored in 64 bits. */
  function PairFormula(local: u32, remote: u32): nat {
    TWO_32 * Min(local, remote) + 2 * Max(local, remote) + TieBit(local, remote)
  }

  function PairPriority(local: u32, remote: u32): u64 {
    PairFormula(local, remote) % TWO_64
  }

  /** The formula overflows 64 bits exactly when both priorities are the largest 32-bit number. */
  lemma OverflowExact(local: u32, remote: u32)
    ensures PairFormula(local, remote) < TWO_64 <==> !(local == TWO_32 - 1 && remote == TWO_32 - 1)
    ensures PairFormula(local, remote) < TWO_64 ==> PairPriority(local, remote) == PairFormula(local, remote)
  {
  }

  /** Lexicographic order on smaller priority, larger priority, tie bit. */
  predicate Below(l1: u32, r1: u32, l2: u32, r2: u32) {
    || Min(l1, r1) < Min(l2, r2)
    || (Min(l1, r1) == Min(l2, r2) && Max(l1, r1) < Max(l2, r2))
    || (Min(l1, r1) == Min(l2, r2) && Max(l1, r1) == Max(l2, r2) && TieBit(l1, r1) < TieBit(l2, r2))
  }

  const HALF: int := TWO_32 / 2

  /** Up to 2^31 the pair priority is that lexicographic order. */
  lemma PriorityIsLexicographic(l1: u32, r1: u32, l2: u32, r2: u32)
    requires l1 <= HALF && r1 <= HALF && l2 <= HALF && r2 <= HALF
    ensures PairPriority(l1, r1) < PairPriority(l2, r2) <==> Below(l1, r1, l2, r2)
  {
    OverflowExact(l1, r1);
    OverflowExact(l2, r2);
  }

  /** Every two pairs of priorities up to `bound` are ranked lexicographically. */
  ghost predicate LexicographicUpTo(bound: u32) {
    forall l1: u32, r1: u32, l2: u32, r2: u32 | l1 <= bound && r1 <= bound && l2 <= bound && r2 <= bound ::
      PairPriority(l1, r1) < PairPriority(l2, r2) <==> Below(l1, r1, l2, r2)
  }

  /** The bound is sharp: one more and a large maximum ties with a larger minimum. */
  lemma LexicographicExact(bound: u32)
    ensures LexicographicUpTo(bound) <==> bound <= HALF
  {
    if bound <= HALF {
      forall l1: u32, r1: u32, l2: u32, r2: u32 | l1 <= bound && r1 <= bound && l2 <= bound && r2 <= bound
        ensures PairPriority(l1, r1) < PairPriority(l2, r2) <==> Below(l1, r1, l2, r2)
      {
        PriorityIsLexicographic(l1, r1, l2, r2);
      }
    } else {
      assert Below(0, HALF + 1, 1, 1) && !(PairPriority(0, HALF + 1) < PairPriority(1, 1));
    }
  }

  lemma HalfDropsTie(half: nat, tie: nat)
    requires tie < 2
    ensures (2 * half + tie) / 2 == half
  {
  }

  lemma HalfOfPriority(local: u32, remote: u32)
    requires local != remote
    ensures PairPriority(local, remote) / 2 == 0x8000_0000 * Min(local, remote) + Max(local, remote)
  {
    OverflowExact(local, remote);
    TieIsBit(local, remote);
    hide PairPriority, Min, Max, TieBit;
    var small, large := Min(local, remote), Max(local, remote);
    assert PairFormula(local, remote) == 0x1_0000_0000 * small + 2 * large + TieBit(local, remote);
    HalfDropsTie(0x8000_0000 * small + large, TieBit(local, remote));
  }

  lemma TieIsBit(local: u32, remote: u32)
    ensures TieBit(local, remote) < 2 && Min(local, remote) >= 0 && Max(local, remote) >= 0
  {
  }

  /** The two ends compute the same priority up to the tie bit, whatever the priorities. */
  lemma PeersAgree(local: u32, remote: u32)
    ensures PairPriority(local, remote) / 2 == PairPriority(remote, local) / 2
  {
    if local != remote {
      HalfOfPriority(local, remote);
      HalfOfPriority(remote, local);
      hide PairPriority;
    }
  }

  /** The pairs differ in more than which end is local. */
  predicate Distinct(l1: u32, r1: u32, l2: u32, r2: u32) {
    Min(l1, r1) != Min(l2, r2) || Max(l1, r1) != Max(l2, r2)
  }

  /** Both ends rank every two distinct pairs of priorities up to `bound` alike. */
  ghost predicate RankedAlikeUpTo(bound: u32) {
    forall l1: u32, r1: u32, l2: u32, r2: u32 | l1 <= bound && r1 <= bound && l2 <= bound && r2 <= bound ::
      Distinct(l1, r1, l2, r2) ==>
        (PairPriority(l1, r1) < PairPriority(l2, r2) <==> PairPriority(r1, l1) < PairPriority(r2, l2))
  }

  /** The same bound is sharp for the two ends to rank alike. */
  lemma PeersRankAlikeExact(bound: u32)
    ensures RankedAlikeUpTo(bound) <==> bound <= HALF
  {
    if bound <= HALF {
      forall l1: u32, r1: u32, l2: u32, r2: u32 | l1 <= bound && r1 <= bound && l2 <= bound && r2 <= bound
        ensures Distinct(l1, r1, l2, r2) ==>
                  (PairPriority(l1, r1) < PairPriority(l2, r2) <==> PairPriority(r1, l1) < PairPriority(r2, l2))
      {
        PriorityIsLexicographic(l1, r1, l2, r2);
        PriorityIsLexicographic(r1, l1, r2, l2);
      }
    } else {
      assert Distinct(1, 1, 0, HALF + 1);
      assert !(PairPriority(1, 1) < PairPriority(0, HALF + 1)) && PairPriority(1, 1) < PairPriority(HALF + 1, 0);
    }
  }

  // ----- pair formation

  function NewPair(local: Candidate, remote: Candidate): CandidatePair {
    CandidatePair(local, remote, PairPriority(local.priority, remote.priority), Waiting)
  }

  function Row(local: Candidate, remotes: seq<Candidate>): (r: seq<CandidatePair>)
    ensures |r| == |remotes|
  {
    seq(|remotes|, i requires 0 <= i < |remotes| => NewPair(local, remotes[i]))
  }

  /** Every local candidate paired with every remote one, row by row. */
  function Product(locals: seq<Candidate>, remotes: seq<Candidate>): seq<CandidatePair> {
    if locals == [] then [] else Row(locals[0], remotes) + Product(locals[1..], remotes)
  }

  lemma {:induction false} ProductAppend(locals: seq<Candidate>, local: Candidate, remotes: seq<Candidate>)
    ensures Product(locals + [local], remotes) == Product(locals, remotes) + Row(local, remotes)
  {
    if locals == [] {
      assert locals + [local] == [local];
      assert Product([], remotes) == [];
      assert [local][1..] == [];
    } else {
      assert (locals + [local])[1..] == locals[1..] + [local];
      ProductAppend(locals[1..], local, remotes);
      assert (locals + [local])[0] == locals[0];
    }
  }

  class IceAgent {
    var localCandidates: seq<Candidate>
    var remoteCandidates: seq<Candidate>
    var candidatePairs: seq<CandidatePair>
    var selectedPair: Option<CandidatePair>

    constructor (locals: seq<Candidate>)
      ensures localCandidates == locals && remoteCandidates == [] && candidatePairs == [] && selectedPair == None
    {
      localCandidates, remoteCandidates, candidatePairs, selectedPair := locals, [], [], None;
    }

    method AddRemoteCandidate(candidate: Candidate) returns (r: Result<(), IceError>)
      modifies this`remoteCandidates, this`candidatePairs
      ensures remoteCandidates == old(remoteCandidates) + [candidate]
      ensures candidatePairs == old(candidatePairs) + Product(localCandidates, remoteCandidates)
      ensures r == if localCandidates == [] then Err(NoLocalCandidates) else Ok(())
    {
      remoteCandidates := remoteCandidates + [candidate];
      r := CreateCandidatePair();
    }

    method AddRemoteCandidates(candidates: seq<Candidate>) returns (r: Result<(), IceError>)
      modifies this`remoteCandidates, this`candidatePairs
      ensures remoteCandidates == old(remoteCandidates) + candidates
      ensures candidatePairs == old(candidatePairs) + Product(localCandidates, remoteCandidates)
      ensures r == if localCandidates == [] then Err(NoLocalCandidates)
                   else if remoteCandidates == [] then Err(NoRemoteCandidates) else Ok(())
    {
      ghost var before := remoteCandidates;
      for i := 0 to |candidates|
        invariant remoteCandidates == before + candidates[..i]
        invariant candidatePairs == old(candidatePairs)
      {
        remoteCandidates := remoteCandidates + [candidates[i]];
        assert candidates[..i + 1] == candidates[..i] + [candidates[i]];
      }
      assert candidates[..|candidates|] == candidates;
      r := CreateCandidatePair();
    }

    method CreateCandidatePair() returns (r: Result<(), IceError>)
      modifies this`candidatePairs
      ensures candidatePairs == old(candidatePairs) + Product(localCandidates, remoteCandidates)
      ensures r == if localCandidates == [] then Err(NoLocalCandidates)
                   else if remoteCandidates == [] then Err(NoRemoteCandidates) else Ok(())
    {
      if localCandidates == [] {
        return Err(NoLocalCandidates);
      }
      if remoteCandidates == [] {
        NoRows(localCandidates);
        return Err(NoRemoteCandidates);
      }
      ghost var before := candidatePairs;
      for i := 0 to |localCandidates|
        invariant candidatePairs == before + Product(localCandidates[..i], remoteCandidates)
      {
        ghost var rows := candidatePairs;
        for j := 0 to |remoteCandidates|
          invariant candidatePairs == rows + Row(localCandidates[i], remoteCandidates)[..j]
        {
          candidatePairs := candidatePairs + [NewPair(localCandidates[i], remoteCandidates[j])];
        }
        ProductAppend(localCandidates[..i], localCandidates[i], remoteCandidates);
        assert localCandidates[..i + 1] == localCandidates[..i] + [localCandidates[i]];
      }
      assert localCandidates[..|localCandidates|] == localCandidates;
      // The source tests here for an empty list once more; by now it cannot be empty.
      assert candidatePairs != [];
      return Ok(());
    }

    /** `answers(i)` is whether the pair ranked `i` would answer, `timeoutOk` whether the socket takes a timeout. */
    method StartConnectivityChecks(answers: nat -> bool, timeoutOk: bool) returns (r: Result<(), IceError>)
      modifies this`candidatePairs, this`selectedPair
      ensures old(candidatePairs) == [] ==>
                r == Err(NoCandidatePairs) && candidatePairs == [] && selectedPair == old(selectedPair)
      ensures old(candidatePairs) != [] && !timeoutOk ==>
                && r == Err(NetworkInterfaceError) && selectedPair == old(selectedPair)
                && candidatePairs == Sort(old(candidatePairs))
      ensures old(candidatePairs) != [] && timeoutOk ==>
                var ranked := Sort(old(candidatePairs));
                var won := FirstAnswer(ranked, answers, 0);
                && candidatePairs == Checked(ranked, answers, 0)
                && (won.Some? ==> r == Ok(()) && selectedPair == Some(ranked[won.value].(state := Succeeded)))
                && (won.None? ==> r == Err(NoSelectedPair) && selectedPair == old(selectedPair))
    {
      if candidatePairs == [] {
        return Err(NoCandidatePairs);
      }
      hide Sort, Checked, FirstAnswer;
      var pairs := Sort(candidatePairs);
      if !timeoutOk {
        candidatePairs := pairs;
        return Err(NetworkInterfaceError);
      }
      ghost var ranked, done := pairs, [];
      var i := 0;
      while i < |pairs|
        invariant 0 <= i <= |pairs| == |ranked| && |done| == i
        invariant unchanged(this)
        invariant pairs == done + ranked[i..]
        invariant Checked(ranked, answers, 0) == done + Checked(ranked, answers, i)
        invariant FirstAnswer(ranked, answers, i) == FirstAnswer(ranked, answers, 0)
      {
        CheckOne(ranked, answers, i);
        ghost var checked := if Checkable(ranked[i]) then ranked[i].(state := Failed) else ranked[i];
        ReplaceNext(done, ranked, checked, Checked(ranked, answers, i + 1));
        if pairs[i].local.candidateType != ServerReflexive && pairs[i].remote.candidateType != ServerReflexive {
          if answers(i) {
            ReplaceNext(done, ranked, ranked[i].(state := Succeeded), ranked[i + 1..]);
            pairs := pairs[i := pairs[i].(state := Succeeded)];
            candidatePairs := pairs;
            selectedPair := Some(pairs[i]);
            return Ok(());
          }
          pairs := pairs[i := pairs[i].(state := Failed)];
        }
        done := done + [checked];
        i := i + 1;
      }
      candidatePairs := pairs;
      CheckNone(ranked, answers);
      return Err(NoSelectedPair);
    }

    method CleanRemoteCandidates()
      modifies this
      ensures localCandidates == old(localCandidates)
      ensures remoteCandidates == [] && candidatePairs == [] && selectedPair == None
    {
      remoteCandidates, candidatePairs, selectedPair := [], [], None;
    }
  }

  /** The first pair not done yet gets its new state. */
  lemma ReplaceNext(done: seq<CandidatePair>, ranked: seq<CandidatePair>, x: CandidatePair, rest: seq<CandidatePair>)
    requires |done| < |ranked|
    ensures var (i, pairs) := (|done|, done + ranked[|done|..]);
      && pairs[i] == ranked[i] && pairs[i := x] == (done + [x]) + ranked[i + 1..]
      && done + ([x] + rest) == (done + [x]) + rest
  {
  }

  lemma {:induction false} NoRows(locals: seq<Candidate>)
    ensures Product(locals, []) == []
  {
    if locals != [] {
      NoRows(locals[1..]);
    }
  }

  // ----- the list after single adds

  /** The pair list after remote candidates are added one at a time. */
  function Accumulated(locals: seq<Candidate>, remotes: seq<Candidate>): seq<CandidatePair> {
    if remotes == [] then []
    else Accumulated(locals, remotes[..|remotes| - 1]) + Product(locals, remotes)
  }

  lemma {:induction false} ProductSize(locals: seq<Candidate>, remotes: seq<Candidate>)
    ensures |Product(locals, remotes)| == |locals| * |remotes|
  {
    if locals != [] {
      ProductSize(locals[1..], remotes);
      assert |locals| * |remotes| == |remotes| + (|locals| - 1) * |remotes|;
    }
  }

  lemma Triangle(n: int, k: int)
    ensures n * (k * (k + 1)) == n * ((k - 1) * k) + 2 * (n * k)
  {
    assert k * (k + 1) == (k - 1) * k + 2 * k;
    Distribute(n, (k - 1) * k, 2 * k);
    assert n * (2 * k) == 2 * (n * k);
  }

  lemma Distribute(n: int, a: int, b: int)
    ensures n * (a + b) == n * a + n * b
  {
  }

  /** After k single adds to n locals the list has n*k*(k+1)/2 entries: earlier pairs are formed again. */
  lemma {:induction false} AccumulatedSize(locals: seq<Candidate>, remotes: seq<Candidate>)
    ensures 2 * |Accumulated(locals, remotes)| == |locals| * (|remotes| * (|remotes| + 1))
  {
    if remotes != [] {
      var n, k := |locals|, |remotes|;
      AccumulatedSize(locals, remotes[..k - 1]);
      ProductSize(locals, remotes);
      var before := Accumulated(locals, remotes[..k - 1]);
      assert |Accumulated(locals, remotes)| == |before| + |Product(locals, remotes)|;
      hide Accumulated, Product;
      Triangle(n, k);
    }
  }

  lemma {:induction false} ProductMembers(locals: seq<Candidate>, remotes: seq<Candidate>, p: CandidatePair)
    ensures p in Product(locals, remotes) <==>
            p.local in locals && p.remote in remotes && p.state == Waiting
            && p.priority == PairPriority(p.local.priority, p.remote.priority)
  {
    if locals != [] {
      ProductMembers(locals[1..], remotes, p);
      assert p in Row(locals[0], remotes) <==> p.remote in remotes && p == NewPair(locals[0], p.remote) by {
        if p.remote in remotes && p == NewPair(locals[0], p.remote) {
          var i :| 0 <= i < |remotes| && remotes[i] == p.remote;
          assert Row(locals[0], remotes)[i] == p;
        }
      }
      assert locals == [locals[0]] + locals[1..];
    }
  }

  /** The entries are exactly the pairs of a local with a remote candidate. */
  lemma {:induction false} AccumulatedMembers(locals: seq<Candidate>, remotes: seq<Candidate>, p: CandidatePair)
    ensures p in Accumulated(locals, remotes) <==>
            p.local in locals && p.remote in remotes && p.state == Waiting
            && p.priority == PairPriority(p.local.priority, p.remote.priority)
  {
    if remotes != [] {
      AccumulatedMembers(locals, remotes[..|remotes| - 1], p);
      ProductMembers(locals, remotes, p);
    }
  }

  // ----- ranking and selection

  /** Inserts before the first pair that does not outrank `p`. */
  function Insert(p: CandidatePair, ps: seq<CandidatePair>): seq<CandidatePair> {
    if ps == [] || ps[0].priority <= p.priority then [p] + ps else [ps[0]] + Insert(p, ps[1..])
  }

  /** A stable sort by descending priority. */
  function Sort(ps: seq<CandidatePair>): (r: seq<CandidatePair>)
    ensures |r| == |ps|
  {
    if ps == [] then [] else InsertLength(ps[0], Sort(ps[1..])); Insert(ps[0], Sort(ps[1..]))
  }

  lemma {:induction false} InsertLength(p: CandidatePair, ps: seq<CandidatePair>)
    ensures |Insert(p, ps)| == |ps| + 1
  {
    if ps != [] && ps[0].priority > p.priority {
      InsertLength(p, ps[1..]);
    }
  }

  predicate Descending(ps: seq<CandidatePair>) {
    forall i, j :: 0 <= i < j < |ps| ==> ps[i].priority >= ps[j].priority
  }

  lemma {:induction false} InsertKeepsOrder(p: CandidatePair, ps: seq<CandidatePair>)
    requires Descending(ps)
    ensures Descending(Insert(p, ps))
    ensures forall q :: q in Insert(p, ps) <==> q == p || q in ps
  {
    if ps != [] && ps[0].priority > p.priority {
      InsertKeepsOrder(p, ps[1..]);
      var rest := Insert(p, ps[1..]);
      assert forall q :: q in rest ==> q.priority <= ps[0].priority;
    }
  }

  lemma {:induction false} SortRanks(ps: seq<CandidatePair>)
    ensures Descending(Sort(ps))
    ensures forall q :: q in Sort(ps) <==> q in ps
  {
    if ps != [] {
      SortRanks(ps[1..]);
      InsertKeepsOrder(ps[0], Sort(ps[1..]));
    }
  }

  function Occurrences(ps: seq<CandidatePair>, q: CandidatePair): nat {
    if ps == [] then 0 else (if ps[0] == q then 1 else 0) + Occurrences(ps[1..], q)
  }

  lemma {:induction false} InsertOccurrences(p: CandidatePair, ps: seq<CandidatePair>, q: CandidatePair)
    ensures Occurrences(Insert(p, ps), q) == Occurrences(ps, q) + if p == q then 1 else 0
  {
    if ps != [] && ps[0].priority > p.priority {
      InsertOccurrences(p, ps[1..], q);
      assert ([ps[0]] + Insert(p, ps[1..]))[1..] == Insert(p, ps[1..]);
    } else {
      assert ([p] + ps)[1..] == ps;
    }
  }

  /** Ranking is a permutation of the pair list. */
  lemma {:induction false} SortOccurrences(ps: seq<CandidatePair>, q: CandidatePair)
    ensures Occurrences(Sort(ps), q) == Occurrences(ps, q)
  {
    if ps != [] {
      SortOccurrences(ps[1..], q);
      InsertOccurrences(ps[0], Sort(ps[1..]), q);
    }
  }

  /** Pairs with a server-reflexive end are skipped. */
  predicate Checkable(p: CandidatePair) {
    p.local.candidateType != ServerReflexive && p.remote.candidateType != ServerReflexive
  }

  /** The first checked pair, from rank `i` on, that answers. */
  function FirstAnswer(ranked: seq<CandidatePair>, answers: nat -> bool, i: nat): (r: Option<nat>)
    requires i <= |ranked|
    ensures r.Some? ==> i <= r.value < |ranked|
    decreases |ranked| - i
  {
    if i == |ranked| then None
    else if Checkable(ranked[i]) && answers(i) then Some(i)
    else FirstAnswer(ranked, answers, i + 1)
  }

  /** The pair states after the checks, from rank `i` on. */
  function Checked(ranked: seq<CandidatePair>, answers: nat -> bool, i: nat): seq<CandidatePair>
    requires i <= |ranked|
    decreases |ranked| - i
  {
    if i == |ranked| then []
    else if !Checkable(ranked[i]) then [ranked[i]] + Checked(ranked, answers, i + 1)
    else if answers(i) then [ranked[i].(state := Succeeded)] + ranked[i + 1..]
    else [ranked[i].(state := Failed)] + Checked(ranked, answers, i + 1)
  }

  lemma CheckOne(ranked: seq<CandidatePair>, answers: nat -> bool, i: nat)
    requires i < |ranked|
    ensures var won := Checkable(ranked[i]) && answers(i);
      && FirstAnswer(ranked, answers, i) == (if won then Some(i) else FirstAnswer(ranked, answers, i + 1))
      && Checked(ranked, answers, i)
         == if won then [ranked[i].(state := Succeeded)] + ranked[i + 1..]
            else [if Checkable(ranked[i]) then ranked[i].(state := Failed) else ranked[i]]
                 + Checked(ranked, answers, i + 1)
  {
  }

  lemma CheckNone(ranked: seq<CandidatePair>, answers: nat -> bool)
    ensures FirstAnswer(ranked, answers, |ranked|) == None && Checked(ranked, answers, |ranked|) == []
  {
  }

  lemma {:induction false} FirstAnswerIsFirst(ranked: seq<CandidatePair>, answers: nat -> bool, i: nat)
    requires i <= |ranked|
    ensures var won := FirstAnswer(ranked, answers, i);
      var end := if won.Some? then won.value else |ranked|;
      && (won.Some? ==> Checkable(ranked[end]) && answers(end))
      && forall j :: i <= j < end ==> !(Checkable(ranked[j]) && answers(j))
    decreases |ranked| - i
  {
    if i < |ranked| && !(Checkable(ranked[i]) && answers(i)) {
      FirstAnswerIsFirst(ranked, answers, i + 1);
    }
  }

  /** The selected pair has the highest priority of all checked pairs that answer; none means none answers. */
  lemma SelectionIsBest(pairs: seq<CandidatePair>, answers: nat -> bool)
    ensures var ranked := Sort(pairs);
      var won := FirstAnswer(ranked, answers, 0);
      && (won.Some? ==>
            && ranked[won.value] in pairs && Checkable(ranked[won.value]) && answers(won.value)
            && forall j :: 0 <= j < |ranked| && Checkable(ranked[j]) && answers(j) ==>
                 ranked[j].priority <= ranked[won.value].priority)
      && (won.None? ==> forall j :: 0 <= j < |ranked| ==> !(Checkable(ranked[j]) && answers(j)))
  {
    SortRanks(pairs);
    FirstAnswerIsFirst(Sort(pairs), answers, 0);
  }

  /** Every pair before the selected one is failed, unless an end is server-reflexive; the selected one has succeeded;
    * the others are as they were.
    */
  lemma {:induction false} CheckedExact(ranked: seq<CandidatePair>, answers: nat -> bool, i: nat, j: nat)
    requires i <= j < |ranked|
    ensures var (r, won) := (Checked(ranked, answers, i), FirstAnswer(ranked, answers, i));
      var (local, remote) := (ranked[j].local, ranked[j].remote);
      var skipped := local.candidateType == ServerReflexive || remote.candidateType == ServerReflexive;
      && |r| == |ranked| - i
      && (won == Some(j) ==> !skipped && r[j - i] == ranked[j].(state := Succeeded))
      && (skipped || (won.Some? && j > won.value) ==> r[j - i] == ranked[j])
      && (!skipped && (won.None? || j < won.value) ==> r[j - i] == ranked[j].(state := Failed))
    decreases |ranked| - i
  {
    hide Checked, FirstAnswer;
    CheckOne(ranked, answers, i);
    var won := Checkable(ranked[i]) && answers(i);
    if i + 1 < |ranked| && !won {
      CheckedExact(ranked, answers, i + 1, if j == i then i + 1 else j);
    } else if i + 1 == |ranked| {
      CheckNone(ranked, answers);
    }
  }
}
