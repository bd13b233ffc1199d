/** The RTCP Hello/Ready handshake and the report loop (src/transport/rtcp/report_handler.rs).
  *
  * `OnReceive` is one turn of the handshake loop. The class runs the loop; the two network
  * models run two peers over it, one over lossless ordered channels and one over channels
  * that lose, reorder and repeat.
  */
module Handshake {
  import opened Common

  /** The packets of the session; the statistics carried by reports play no part here. */
  datatype RtcpPacket = SenderReport | ReceiverReport | Goodbye | Hello | Ready

  /** What one `recv_from` gives: a parsed packet, bytes that do not parse, or an error. */
  datatype Received = Packet(packet: RtcpPacket) | Unparsed | ReceiveError

  datatype Outcome = Completed | UnexpectedMessage | ReceiveFailed | SendFailed

  datatype Peer = Peer(ready: bool, connected: bool, outcome: Option<Outcome>)

  const FRESH: Peer := Peer(false, false, None)

  /** One turn of the handshake loop: the peer afterwards and the packet it sends, if any. */
  function OnReceive(p: Peer, r: Received): (Peer, Option<RtcpPacket>)
    requires p.outcome.None?
  {
    match r
    case Packet(Hello) => (p, Some(Ready))
    case Packet(Ready) =>
      if p.ready then (p.(outcome := Some(Completed)), None)
      else (p.(ready := true, connected := true), Some(Ready))
    case Packet(_) => (p.(outcome := Some(UnexpectedMessage)), None)
    case Unparsed => (p, None)
    case ReceiveError => (p.(outcome := Some(ReceiveFailed)), None)
  }

  /** The peer after the receptions `rs`; once an outcome is reached, nothing more is read. */
  function Turns(p: Peer, rs: seq<Received>): Peer
    decreases rs
  {
    if rs == [] || p.outcome.Some? then p else Turns(OnReceive(p, rs[0]).0, rs[1..])
  }

  /** The packets sent during those turns, after the opening Hello. */
  function Replies(p: Peer, rs: seq<Received>): seq<RtcpPacket>
    decreases rs
  {
    if rs == [] || p.outcome.Some? then []
    else
      var (next, reply) := OnReceive(p, rs[0]);
      (if reply.Some? then [reply.value] else []) + Replies(next, rs[1..])
  }

  function CountOf(rs: seq<Received>, m: RtcpPacket): nat {
    if rs == [] then 0 else (if rs[0] == Packet(m) then 1 else 0) + CountOf(rs[1..], m)
  }

  function Sends(ms: seq<RtcpPacket>, m: RtcpPacket): nat {
    if ms == [] then 0 else (if ms[0] == m then 1 else 0) + Sends(ms[1..], m)
  }

  lemma {:induction false} SendsAppend(ms: seq<RtcpPacket>, ns: seq<RtcpPacket>, m: RtcpPacket)
    ensures Sends(ms + ns, m) == Sends(ms, m) + Sends(ns, m)
  {
    if ms == [] {
      assert ms + ns == ns;
    } else {
      assert (ms + ns)[1..] == ms[1..] + ns;
      SendsAppend(ms[1..], ns, m);
    }
  }

  /** A handshake completes only at its second Ready, and by then it is connected. */
  lemma {:induction false} CompletesAtSecondReady(p: Peer, rs: seq<Received>)
    requires p.outcome.None? && (p.ready ==> p.connected)
    ensures var end := Turns(p, rs);
      && (end.outcome == Some(Completed) ==> end.connected && CountOf(rs, Ready) >= if p.ready then 1 else 2)
      && (end.outcome.None? ==> CountOf(rs, Ready) == (if end.ready then 1 else 0) - if p.ready then 1 else 0)
    decreases rs
  {
    if rs != [] {
      var next := OnReceive(p, rs[0]).0;
      if next.outcome.None? {
        CompletesAtSecondReady(next, rs[1..]);
      }
    }
  }

  /** While the handshake goes on, it has sent one Ready for each Hello and one for the first Ready. */
  lemma {:induction false} ReadiesSent(p: Peer, rs: seq<Received>)
    requires p.outcome.None? && Turns(p, rs).outcome.None?
    ensures Sends(Replies(p, rs), Ready)
            == CountOf(rs, Hello) + (if Turns(p, rs).ready then 1 else 0) - (if p.ready then 1 else 0)
    decreases rs
  {
    if rs != [] {
      var (next, reply) := OnReceive(p, rs[0]);
      var first := if reply.Some? then [reply.value] else [];
      ReadiesSent(next, rs[1..]);
      SendsAppend(first, Replies(next, rs[1..]), Ready);
    }
  }

  /** One more reception, at the end, while the handshake goes on. */
  lemma {:induction false} TurnsAppend(p: Peer, rs: seq<Received>, r: Received)
    requires Turns(p, rs).outcome.None?
    ensures Turns(p, rs + [r]) == OnReceive(Turns(p, rs), r).0
    decreases rs
  {
    hide OnReceive;
    if rs == [] {
      assert rs + [r] == [r] && [r][1..] == [];
    } else {
      assert (rs + [r])[1..] == rs[1..] + [r];
      TurnsAppend(OnReceive(p, rs[0]).0, rs[1..], r);
    }
  }

  function AsSeq(reply: Option<RtcpPacket>): seq<RtcpPacket> {
    if reply.Some? then [reply.value] else []
  }

  lemma {:induction false} RepliesAppend(p: Peer, rs: seq<Received>, r: Received)
    requires Turns(p, rs).outcome.None?
    ensures Replies(p, rs + [r]) == Replies(p, rs) + AsSeq(OnReceive(Turns(p, rs), r).1)
    decreases rs
  {
    hide OnReceive;
    if rs == [] {
      assert rs + [r] == [r] && [r][1..] == [];
    } else {
      assert (rs + [r])[1..] == rs[1..] + [r];
      RepliesAppend(OnReceive(p, rs[0]).0, rs[1..], r);
    }
  }

  /** What is sent in the first turns is the beginning of what is sent in all; after an outcome there is no more. */
  lemma {:induction false} FirstTurns(p: Peer, rs: seq<Received>, i: nat)
    requires i <= |rs|
    ensures Replies(p, rs[..i]) <= Replies(p, rs)
    ensures Turns(p, rs[..i]).outcome.Some? ==>
              Turns(p, rs) == Turns(p, rs[..i]) && Replies(p, rs) == Replies(p, rs[..i])
    decreases rs
  {
    hide OnReceive;
    if i > 0 && p.outcome.None? {
      assert rs[..i][1..] == rs[1..][..i - 1];
      FirstTurns(OnReceive(p, rs[0]).0, rs[1..], i - 1);
    }
  }

  // ----- which reception decides

  predicate HeardReady(rs: seq<Received>, n: nat)
    requires n <= |rs|
  {
    exists j :: 0 <= j < n && rs[j] == Packet(Ready)
  }

  /** What the reception at `i` decides: a receive error, a packet of the session, or a Ready after an earlier one. */
  function Decides(rs: seq<Received>, i: nat): Option<Outcome>
    requires i < |rs|
  {
    match rs[i]
    case ReceiveError => Some(ReceiveFailed)
    case Unparsed => None
    case Packet(Hello) => None
    case Packet(Ready) => if HeardReady(rs, i) then Some(Completed) else None
    case Packet(_) => Some(UnexpectedMessage)
  }

  predicate Undecided(rs: seq<Received>, n: nat)
    requires n <= |rs|
  {
    forall i :: 0 <= i < n ==> Decides(rs, i).None?
  }

  /** While nothing decides, a handshake goes on, connected from its first Ready on. */
  lemma {:induction false} GoesOnUndecided(rs: seq<Received>, n: nat)
    requires n <= |rs| && Undecided(rs, n)
    ensures Turns(FRESH, rs[..n]) == Peer(HeardReady(rs, n), HeardReady(rs, n), None)
  {
    if n > 0 {
      GoesOnUndecided(rs, n - 1);
      assert rs[..n] == rs[..n - 1] + [rs[n - 1]];
      assert Decides(rs, n - 1).None?;
      TurnsAppend(FRESH, rs[..n - 1], rs[n - 1]);
      assert HeardReady(rs, n) <==> HeardReady(rs, n - 1) || rs[n - 1] == Packet(Ready);
    }
  }

  /** The first reception that decides is the outcome; whatever comes after it is not read. */
  lemma FirstDecides(rs: seq<Received>, i: nat)
    requires i < |rs| && Undecided(rs, i) && Decides(rs, i).Some?
    ensures Turns(FRESH, rs) == Peer(HeardReady(rs, i), HeardReady(rs, i), Decides(rs, i))
  {
    GoesOnUndecided(rs, i);
    assert rs[..i + 1] == rs[..i] + [rs[i]];
    TurnsAppend(FRESH, rs[..i], rs[i]);
    FirstTurns(FRESH, rs, i + 1);
  }

  // ----- the loops as the source runs them

  class RtcpReportHandler {
    var connected: bool
    var sent: seq<RtcpPacket>

    constructor ()
      ensures !connected && sent == []
    {
      connected, sent := false, [];
    }

    /**
     * `inbox` is what `recv_from` will give and `room` how many sends work before one fails. None means
     * that the call is still waiting when the inbox ends; `used` are the receptions it has dealt with.
     */
    method ConnectionHandshake(inbox: seq<Received>, room: nat) returns (outcome: Option<Outcome>, used: nat)
      modifies this
      ensures var begin := Peer(false, old(connected), None);
        var all := [Hello] + Replies(begin, inbox);
        && used <= |inbox|
        && (|all| <= room ==>
              && outcome == Turns(begin, inbox).outcome && connected == Turns(begin, inbox).connected
              && sent == old(sent) + all)
        && (|all| > room ==>
              && outcome == Some(SendFailed) && connected == Turns(begin, inbox[..used]).connected
              && sent == old(sent) + all[..room])
    {
      hide Turns, Replies, OnReceive;
      ghost var begin := Peer(false, connected, None);
      NoTurns(begin);
      if room == 0 {
        return Some(SendFailed), 0;
      }
      sent := sent + [Hello];
      var ready, left := false, room - 1;
      used := 0;
      while used < |inbox|
        invariant 0 <= used <= |inbox| && left >= 0
        invariant Turns(begin, inbox[..used]) == Peer(ready, connected, None)
        invariant sent == old(sent) + ([Hello] + Replies(begin, inbox[..used]))
        invariant left + 1 + |Replies(begin, inbox[..used])| == room
      {
        var r := inbox[used];
        TurnsAppend(begin, inbox[..used], r);
        RepliesAppend(begin, inbox[..used], r);
        OneReception(ready, connected, r);
        assert inbox[..used + 1] == inbox[..used] + [r];
        FirstTurns(begin, inbox, used + 1);
        match r {
          case Packet(Hello) =>
            if left == 0 {
              return Some(SendFailed), used;
            }
            sent, left := sent + [Ready], left - 1;
          case Packet(Ready) =>
            if ready {
              return Some(Completed), used + 1;
            }
            ready := true;
            if left == 0 {
              return Some(SendFailed), used;
            }
            sent, left := sent + [Ready], left - 1;
            connected := true;
          case Packet(_) => return Some(UnexpectedMessage), used + 1;
          case Unparsed =>
          case ReceiveError => return Some(ReceiveFailed), used + 1;
        }
        used := used + 1;
      }
      assert inbox[..used] == inbox;
      return None, used;
    }

    /**
     * The report loop over scripted flag readings, receptions and clock readings, from the time `start`.
     * `stillSet` is the flag as read after the loop; the call is reported ended if it is.
     */
    method RunReportReceiverLoop(log: Log, retryLimit: nat, stillSet: bool) returns (used: nat, callEnded: bool)
      modifies this`connected
      ensures used <= |log.turns|
      ensures forall i :: 0 <= i < used ==> Goes(log, i, retryLimit)
      ensures used < |log.turns| ==> !Goes(log, used, retryLimit)
      ensures callEnded == stillSet && connected == (!stillSet && old(connected))
    {
      var failures, last := 0, log.start;
      used := 0;
      while used < |log.turns|
        invariant used <= |log.turns| && failures == Streak(log, used) && last == LastReport(log, used)
        invariant forall i :: 0 <= i < used ==> Goes(log, i, retryLimit)
      {
        var turn := log.turns[used];
        if failures >= retryLimit || !turn.connected {
          break;
        }
        match turn.received {
          case Packet(m) =>
            if m == SenderReport || m == ReceiverReport {
              last := turn.now;
              failures := 0;
            } else if m == Goodbye {
              break;
            } else {
              failures := failures + 1;
            }
          case _ =>
            if turn.now - last > log.maxSilence {
              failures := failures + 1;
            } else {
              failures := 0;
            }
        }
        used := used + 1;
      }
      callEnded := stillSet;
      if stillSet {
        connected := false;
      }
    }
  }

  lemma NoTurns(p: Peer)
    ensures Turns(p, []) == p && Replies(p, []) == []
  {
  }

  lemma OneReception(ready: bool, connected: bool, r: Received)
    ensures var p := Peer(ready, connected, None);
      OnReceive(p, r) == match r
        case Packet(Hello) => (p, Some(Ready))
        case Packet(Ready) =>
          if ready then (p.(outcome := Some(Completed)), None) else (Peer(true, true, None), Some(Ready))
        case Packet(_) => (p.(outcome := Some(UnexpectedMessage)), None)
        case Unparsed => (p, None)
        case ReceiveError => (p.(outcome := Some(ReceiveFailed)), None)
  {
  }

  // ----- the report loop's vocabulary

  /** One pass: the flag read, the reception, and the clock read after it. */
  datatype Turn = Turn(connected: bool, received: Received, now: int)

  /** The passes from the time `start`, and how long a peer may be silent. */
  datatype Log = Log(turns: seq<Turn>, start: int, maxSilence: int)

  predicate IsReport(r: Received) {
    r == Packet(SenderReport) || r == Packet(ReceiverReport)
  }

  /** When the last report before pass `i` came, or the loop began. */
  function LastReport(log: Log, i: nat): int
    requires i <= |log.turns|
  {
    if i == 0 then log.start
    else if IsReport(log.turns[i - 1].received) then log.turns[i - 1].now
    else LastReport(log, i - 1)
  }

  /** A pass that counts against the peer: a stray handshake packet, or nothing readable after too long a silence. */
  predicate Fault(log: Log, i: nat)
    requires i < |log.turns|
  {
    match log.turns[i].received
    case Packet(m) => m == Hello || m == Ready
    case _ => log.turns[i].now - LastReport(log, i) > log.maxSilence
  }

  /** How many faults in a row end just before pass `i`. */
  function Streak(log: Log, i: nat): nat
    requires i <= |log.turns|
  {
    if i == 0 then 0 else if Fault(log, i - 1) then 1 + Streak(log, i - 1) else 0
  }

  /** Whether the loop goes past pass `i`. */
  predicate Goes(log: Log, i: nat, retryLimit: nat)
    requires i < |log.turns|
  {
    Streak(log, i) < retryLimit && log.turns[i].connected && log.turns[i].received != Packet(Goodbye)
  }

  /** A streak of `k` is `k` faults on end. */
  lemma {:induction false} StreakIsFaultsOnEnd(log: Log, i: nat, k: nat)
    requires i <= |log.turns|
    ensures Streak(log, i) >= k <==> k <= i && forall j :: i - k <= j < i ==> Fault(log, j)
    decreases i
  {
    if k > 0 && i > 0 {
      StreakIsFaultsOnEnd(log, i - 1, k - 1);
    }
  }

  /** `now` is the time of the latest report before pass `i`, or the start if there was none. */
  predicate Latest(log: Log, i: nat, now: int)
    requires i <= |log.turns|
  {
    || (now == log.start && forall k :: 0 <= k < i ==> !IsReport(log.turns[k].received))
    || exists j :: && 0 <= j < i && IsReport(log.turns[j].received) && now == log.turns[j].now
                   && forall k :: j < k < i ==> !IsReport(log.turns[k].received)
  }

  lemma {:induction false} LastReportIsLatest(log: Log, i: nat)
    requires i <= |log.turns|
    ensures Latest(log, i, LastReport(log, i))
  {
    if i > 0 && !IsReport(log.turns[i - 1].received) {
      LastReportIsLatest(log, i - 1);
    }
  }

  lemma {:induction false} LatestIsLastReport(log: Log, i: nat, now: int)
    requires i <= |log.turns| && Latest(log, i, now)
    ensures now == LastReport(log, i)
  {
    if i > 0 && !IsReport(log.turns[i - 1].received) {
      LatestIsLastReport(log, i - 1, now);
    }
  }

  /**
   * Pass `i` brought a handshake packet, or nothing that can be read when more than the allowed silence had passed
   * since the latest report or the start.
   */
  ghost predicate Missed(log: Log, i: nat)
    requires i < |log.turns|
  {
    var turn := log.turns[i];
    || turn.received == Packet(Hello) || turn.received == Packet(Ready)
    || (!turn.received.Packet? && exists now :: Latest(log, i, now) && turn.now - now > log.maxSilence)
  }

  lemma FaultExact(log: Log, i: nat)
    requires i < |log.turns|
    ensures Fault(log, i) <==> Missed(log, i)
  {
    LastReportIsLatest(log, i);
    forall now | Latest(log, i, now)
      ensures now == LastReport(log, i)
    {
      LatestIsLastReport(log, i, now);
    }
  }

  /** The loop stops exactly on a lost connection, a goodbye, or `retryLimit` missed passes on end. */
  lemma StopsExact(log: Log, i: nat, retryLimit: nat)
    requires i < |log.turns|
    ensures !Goes(log, i, retryLimit) <==>
            || !log.turns[i].connected || log.turns[i].received == Packet(Goodbye)
            || (retryLimit <= i && forall j :: i - retryLimit <= j < i ==> Missed(log, j))
  {
    StreakIsFaultsOnEnd(log, i, retryLimit);
    hide Missed, Fault;
    forall j: nat | j < i
      ensures Fault(log, j) <==> Missed(log, j)
    {
      FaultExact(log, j);
    }
  }

  /** The loop gives up a peer from which nothing readable has come for too long, after `retryLimit` passes. */
  lemma SilentPeerGivenUp(log: Log, i: nat, last: int, retryLimit: nat, used: nat)
    requires used <= |log.turns| && forall j :: 0 <= j < used ==> Goes(log, j, retryLimit)
    requires i <= |log.turns| && Latest(log, i, last)
    requires forall j :: i <= j < |log.turns| ==>
               !log.turns[j].received.Packet? && log.turns[j].now - last > log.maxSilence
    ensures used <= i + retryLimit
  {
    if used > i + retryLimit {
      forall j: nat | i <= j < i + retryLimit
        ensures Missed(log, j)
      {
        assert Latest(log, j, last);
      }
      StopsExact(log, i + retryLimit, retryLimit);
    }
  }

  /** The loop goes on while the flag is set and the peer reports, or is silent no longer than allowed. */
  lemma ReportingPeerKept(log: Log, i: nat, retryLimit: nat)
    requires i < |log.turns| && retryLimit > 0
    requires forall j :: 0 <= j < |log.turns| ==>
               log.turns[j].connected && log.turns[j].received !in {Packet(Goodbye), Packet(Hello), Packet(Ready)}
    requires forall j, last ::
               0 <= j < |log.turns| && Latest(log, j, last) ==> log.turns[j].now - last <= log.maxSilence
    ensures Goes(log, i, retryLimit)
  {
    StopsExact(log, i, retryLimit);
    if i > 0 {
      assert !Missed(log, i - 1);
    }
  }
}

/** Two peers over lossless ordered channels. */
module HandshakeOrdered {
  import opened Common
  import opened Handshake

  /** One side: its handshake, everything it sent, and how much of the other's sending it has read. */
  datatype Side = Side(started: bool, peer: Peer, sent: seq<RtcpPacket>, read: nat)

  datatype Net = Net(a: Side, b: Side)

  const START: Net := Net(Side(false, FRESH, [], 0), Side(false, FRESH, [], 0))

  function Swap(n: Net): Net {
    Net(n.b, n.a)
  }

  predicate Done(s: Side) {
    s.peer.outcome == Some(Completed)
  }

  /** What side `a` can do: open, read a packet of the handshake, or report once it has completed. */
  datatype Move = Open | Read | SendReport(m: RtcpPacket) | ReadReport

  predicate Enabled(n: Net, mv: Move) {
    match mv
    case Open => !n.a.started
    case Read => n.a.started && n.a.peer.outcome.None? && n.a.read < |n.b.sent|
    case SendReport(m) => Done(n.a) && m in {SenderReport, ReceiverReport, Goodbye}
    case ReadReport => Done(n.a) && n.a.read < |n.b.sent|
  }

  function Apply(n: Net, mv: Move): Net
    requires Enabled(n, mv)
  {
    match mv
    case Open => n.(a := n.a.(started := true, sent := [Hello]))
    case Read =>
      var (peer, reply) := OnReceive(n.a.peer, Packet(n.b.sent[n.a.read]));
      n.(a := n.a.(peer := peer, read := n.a.read + 1,
                   sent := n.a.sent + if reply.Some? then [reply.value] else []))
    case SendReport(m) => n.(a := n.a.(sent := n.a.sent + [m]))
    case ReadReport => n.(a := n.a.(read := n.a.read + 1))
  }

  /** A step of either side. */
  datatype Step = Step(byA: bool, move: Move)

  predicate CanStep(n: Net, s: Step) {
    Enabled(if s.byA then n else Swap(n), s.move)
  }

  function TakeStep(n: Net, s: Step): Net
    requires CanStep(n, s)
  {
    if s.byA then Apply(n, s.move) else Swap(Apply(Swap(n), s.move))
  }

  ghost predicate IsRun(ns: seq<Net>, steps: seq<Step>) {
    && |ns| == |steps| + 1 && ns[0] == START
    && forall i :: 0 <= i < |steps| ==> CanStep(ns[i], steps[i]) && ns[i + 1] == TakeStep(ns[i], steps[i])
  }

  /** What a side has sent of the handshake after reading `read` packets. */
  function Opening(read: nat): seq<RtcpPacket> {
    if read == 0 then [Hello] else if read == 1 then [Hello, Ready] else [Hello, Ready, Ready]
  }

  predicate SideInv(s: Side) {
    if !s.started then s == Side(false, FRESH, [], 0)
    else
      && Opening(s.read) <= s.sent
      && (s.read < 3 ==> s.sent == Opening(s.read))
      && s.peer == Peer(s.read >= 2, s.read >= 2, if s.read >= 3 then Some(Completed) else None)
      && (forall i :: |Opening(s.read)| <= i < |s.sent| ==> s.sent[i] in {SenderReport, ReceiverReport, Goodbye})
  }

  predicate Inv(n: Net) {
    SideInv(n.a) && SideInv(n.b) && n.a.read <= |n.b.sent| && n.b.read <= |n.a.sent|
  }

  lemma MoveKeepsInv(n: Net, mv: Move)
    requires Inv(n) && Enabled(n, mv)
    ensures Inv(Apply(n, mv))
  {
    if mv.Read? {
      assert n.a.read < 3;
      assert Opening(n.b.read) <= n.b.sent;
      assert n.b.sent[n.a.read] == if n.a.read == 0 then Hello else Ready;
    }
  }

  lemma {:induction false} InvHolds(ns: seq<Net>, steps: seq<Step>, i: nat)
    requires IsRun(ns, steps) && i < |ns|
    ensures Inv(ns[i])
  {
    if i > 0 {
      InvHolds(ns, steps, i - 1);
      var s := steps[i - 1];
      assert CanStep(ns[i - 1], s) && ns[i] == TakeStep(ns[i - 1], s);
      MoveKeepsInv(if s.byA then ns[i - 1] else Swap(ns[i - 1]), s.move);
    }
  }

  /** No run ends a handshake with an unexpected message, even once the other side sends reports. */
  lemma NeverUnexpected(ns: seq<Net>, steps: seq<Step>, i: nat)
    requires IsRun(ns, steps) && i < |ns|
    ensures ns[i].a.peer.outcome in {None, Some(Completed)} && ns[i].b.peer.outcome in {None, Some(Completed)}
    ensures Done(ns[i].a) ==> ns[i].a.peer.connected && ns[i].b.peer.connected
    ensures Done(ns[i].b) ==> ns[i].a.peer.connected && ns[i].b.peer.connected
  {
    InvHolds(ns, steps, i);
  }

  /** After completing, a side only ever reads reports and goodbyes: no handshake packet is left over. */
  lemma NoLeftovers(ns: seq<Net>, steps: seq<Step>, i: nat)
    requires IsRun(ns, steps) && i < |ns| && Done(ns[i].a)
    ensures forall k :: ns[i].a.read <= k < |ns[i].b.sent| ==> ns[i].b.sent[k] !in {Hello, Ready}
  {
    InvHolds(ns, steps, i);
  }

  /** What is left of both handshakes. */
  function Remaining(s: Side): nat {
    (if s.started then 0 else 1) + if s.read >= 3 then 0 else 3 - s.read
  }

  predicate IsHandshake(mv: Move) {
    mv.Open? || mv.Read?
  }

  /** Handshake moves use up what remains; the others never add to it. */
  lemma HandshakeShrinks(n: Net, s: Step)
    requires Inv(n) && CanStep(n, s)
    ensures var n' := TakeStep(n, s);
      var (before, after) := (Remaining(n.a) + Remaining(n.b), Remaining(n'.a) + Remaining(n'.b));
      if IsHandshake(s.move) then after < before else after <= before
  {
  }

  /** No deadlock: until both sides have completed, some handshake move is possible. */
  lemma HandshakeGoesOn(n: Net)
    requires Inv(n) && !(Done(n.a) && Done(n.b))
    ensures exists s :: CanStep(n, s) && IsHandshake(s.move)
  {
    var aMove := if n.a.started then Read else Open;
    var bMove := if n.b.started then Read else Open;
    assert CanStep(n, Step(true, aMove)) || CanStep(n, Step(false, bMove));
  }

  /** How many handshake moves a run makes. */
  function HandshakeMoves(steps: seq<Step>): nat {
    if steps == [] then 0
    else HandshakeMoves(steps[..|steps| - 1]) + if IsHandshake(steps[|steps| - 1].move) then 1 else 0
  }

  lemma {:induction false} MovesBounded(ns: seq<Net>, steps: seq<Step>)
    requires IsRun(ns, steps)
    ensures var last := ns[|steps|];
      HandshakeMoves(steps) + Remaining(last.a) + Remaining(last.b) <= 8
  {
    if steps != [] {
      var k := |steps| - 1;
      MovesBounded(ns[..k + 1], steps[..k]);
      InvHolds(ns, steps, k);
      assert CanStep(ns[k], steps[k]);
      HandshakeShrinks(ns[k], steps[k]);
    }
  }

  /** A run that cannot be extended by a handshake move has connected both sides, within eight such moves. */
  lemma MaximalRunConnects(ns: seq<Net>, steps: seq<Step>)
    requires IsRun(ns, steps)
    ensures HandshakeMoves(steps) <= 8
    ensures var last := ns[|steps|];
      (forall s :: CanStep(last, s) ==> !IsHandshake(s.move)) ==>
        Done(last.a) && Done(last.b) && last.a.peer.connected && last.b.peer.connected
  {
    MovesBounded(ns, steps);
    InvHolds(ns, steps, |steps|);
    var last := ns[|steps|];
    if !(Done(last.a) && Done(last.b)) {
      HandshakeGoesOn(last);
    }
  }
}

/** Two peers over channels that may lose, reorder and repeat packets. */
module HandshakeLossy {
  import opened Common
  import opened Handshake

  /** One side: its handshake, and the packets on their way to it. */
  datatype Side = Side(
    started: bool, peer: Peer, hellosHeard: nat, hellosComing: nat, readiesComing: nat, othersComing: nat)

  datatype Net = Net(a: Side, b: Side)

  const SILENT: Side := Side(false, FRESH, 0, 0, 0, 0)
  const START: Net := Net(SILENT, SILENT)

  function Swap(n: Net): Net {
    Net(n.b, n.a)
  }

  predicate Done(s: Side) {
    s.peer.outcome == Some(Completed)
  }

  /** A side opens, hears one of the packets coming to it, loses one, has one repeated, or reports. */
  datatype Move = Open | Hear(m: RtcpPacket) | Lose(m: RtcpPacket) | Copy(m: RtcpPacket) | Report

  function Coming(s: Side, m: RtcpPacket): nat {
    match m
    case Hello => s.hellosComing
    case Ready => s.readiesComing
    case _ => s.othersComing
  }

  function Take(s: Side, m: RtcpPacket): Side
    requires Coming(s, m) > 0
  {
    match m
    case Hello => s.(hellosComing := s.hellosComing - 1)
    case Ready => s.(readiesComing := s.readiesComing - 1)
    case _ => s.(othersComing := s.othersComing - 1)
  }

  function Post(s: Side, m: RtcpPacket): Side {
    match m
    case Hello => s.(hellosComing := s.hellosComing + 1)
    case Ready => s.(readiesComing := s.readiesComing + 1)
    case _ => s.(othersComing := s.othersComing + 1)
  }

  predicate Enabled(n: Net, mv: Move) {
    match mv
    case Open => !n.a.started
    case Hear(m) => n.a.started && n.a.peer.outcome.None? && Coming(n.a, m) > 0
    case Lose(m) => Coming(n.a, m) > 0
    case Copy(m) => Coming(n.a, m) > 0
    case Report => Done(n.a)
  }

  function Apply(n: Net, mv: Move): Net
    requires Enabled(n, mv)
  {
    match mv
    case Open => Net(n.a.(started := true), Post(n.b, Hello))
    case Hear(m) =>
      var (peer, reply) := OnReceive(n.a.peer, Packet(m));
      var a := Take(n.a, m).(peer := peer, hellosHeard := n.a.hellosHeard + if m == Hello then 1 else 0);
      Net(a, if reply.Some? then Post(n.b, reply.value) else n.b)
    case Lose(m) => n.(a := Take(n.a, m))
    case Copy(m) => n.(a := Post(n.a, m))
    case Report => n.(b := Post(n.b, SenderReport))
  }

  datatype Step = Step(byA: bool, move: Move)

  predicate CanStep(n: Net, s: Step) {
    Enabled(if s.byA then n else Swap(n), s.move)
  }

  function TakeStep(n: Net, s: Step): Net
    requires CanStep(n, s)
  {
    if s.byA then Apply(n, s.move) else Swap(Apply(Swap(n), s.move))
  }

  ghost predicate IsRun(ns: seq<Net>, steps: seq<Step>) {
    && |ns| == |steps| + 1 && ns[0] == START
    && forall i :: 0 <= i < |steps| ==> CanStep(ns[i], steps[i]) && ns[i + 1] == TakeStep(ns[i], steps[i])
  }

  /** The Readies side `s` has heard, as its handshake remembers them. */
  function ReadiesHeard(s: Side): nat {
    if Done(s) then 2 else if s.peer.ready then 1 else 0
  }

  /** Packets come from somewhere: one Hello per opening, one Ready per Hello heard and one per first Ready. */
  predicate Accounted(s: Side, other: Side) {
    && s.hellosHeard + s.hellosComing <= (if other.started then 1 else 0)
    && ReadiesHeard(s) + s.readiesComing <= other.hellosHeard + (if other.peer.ready then 1 else 0)
    && (Done(s) ==> s.peer.ready)
    && (s.peer.ready ==> s.peer.connected)
  }

  predicate Inv(n: Net) {
    Accounted(n.a, n.b) && Accounted(n.b, n.a)
  }

  lemma MoveKeepsInv(n: Net, mv: Move)
    requires Inv(n) && Enabled(n, mv) && mv != Copy(Hello) && mv != Copy(Ready)
    ensures Inv(Apply(n, mv))
  {
  }

  /** How often the run repeats the packet `m` on its way. */
  function Copies(steps: seq<Step>, m: RtcpPacket): nat {
    if steps == [] then 0 else (if steps[0].move == Copy(m) then 1 else 0) + Copies(steps[1..], m)
  }

  lemma {:induction false} NoCopy(steps: seq<Step>, m: RtcpPacket, i: nat)
    requires Copies(steps, m) == 0 && i < |steps|
    ensures steps[i].move != Copy(m)
  {
    if i > 0 {
      NoCopy(steps[1..], m, i - 1);
    }
  }

  lemma {:induction false} InvHolds(ns: seq<Net>, steps: seq<Step>, i: nat)
    requires IsRun(ns, steps) && i < |ns| && Copies(steps, Hello) == 0 && Copies(steps, Ready) == 0
    ensures Inv(ns[i])
  {
    if i > 0 {
      InvHolds(ns, steps, i - 1);
      var s := steps[i - 1];
      assert CanStep(ns[i - 1], s) && ns[i] == TakeStep(ns[i - 1], s);
      NoCopy(steps, Hello, i - 1);
      NoCopy(steps, Ready, i - 1);
      MoveKeepsInv(if s.byA then ns[i - 1] else Swap(ns[i - 1]), s.move);
    }
  }

  /** When one side has completed, the other has heard a Ready and is connected. */
  predicate TellsOfTheOther(n: Net) {
    && (Done(n.a) ==> n.b.peer.ready && n.b.peer.connected)
    && (Done(n.b) ==> n.a.peer.ready && n.a.peer.connected)
  }

  /** Whatever is lost or reordered, completion tells of the other side while no Hello and no Ready is repeated. */
  lemma CompletionTellsOfTheOther(ns: seq<Net>, steps: seq<Step>, i: nat)
    requires IsRun(ns, steps) && i < |ns| && Copies(steps, Hello) == 0 && Copies(steps, Ready) == 0
    ensures TellsOfTheOther(ns[i])
  {
    InvHolds(ns, steps, i);
  }

  // What the two runs below go through: both sides have opened, and `a` goes from waiting to completed.
  const WAITING: Peer := Peer(false, false, None)
  const ANSWERED: Peer := Peer(true, true, None)
  const COMPLETED: Peer := Peer(true, true, Some(Completed))
  const OPENED: Net := Net(Side(true, WAITING, 0, 1, 0, 0), Side(true, WAITING, 0, 1, 0, 0))

  lemma {:induction false} CopiesAppend(steps: seq<Step>, s: Step, m: RtcpPacket)
    ensures Copies(steps + [s], m) == Copies(steps, m) + (if s.move == Copy(m) then 1 else 0)
  {
    if steps == [] {
      assert steps + [s] == [s];
    } else {
      assert (steps + [s])[1..] == steps[1..] + [s];
      CopiesAppend(steps[1..], s, m);
    }
  }

  /** A run goes on by one step. */
  lemma Onward(ns: seq<Net>, steps: seq<Step>, s: Step, n: Net) returns (ns': seq<Net>, steps': seq<Step>)
    requires IsRun(ns, steps) && CanStep(ns[|steps|], s) && n == TakeStep(ns[|steps|], s)
    ensures IsRun(ns', steps') && ns'[|steps'|] == n
    ensures forall m :: Copies(steps', m) == Copies(steps, m) + (if s.move == Copy(m) then 1 else 0)
  {
    hide TakeStep, CanStep;
    ns', steps' := ns + [n], steps + [s];
    forall m
      ensures Copies(steps', m) == Copies(steps, m) + (if s.move == Copy(m) then 1 else 0)
    {
      CopiesAppend(steps, s, m);
    }
  }

  /** Both sides open. */
  lemma BothOpen() returns (ns: seq<Net>, steps: seq<Step>)
    ensures IsRun(ns, steps) && ns[|steps|] == OPENED && Copies(steps, Hello) == 0 && Copies(steps, Ready) == 0
  {
    ns, steps := [START], [];
    ns, steps := Onward(ns, steps, Step(true, Open), Net(SILENT.(started := true), SILENT.(hellosComing := 1)));
    ns, steps := Onward(ns, steps, Step(false, Open), OPENED);
  }

  /** `b` answers both copies of a Hello, `a` completes on the two Readies, and `b` has heard none. */
  lemma RepeatedHelloBreaksIt() returns (ns: seq<Net>, steps: seq<Step>)
    ensures IsRun(ns, steps) && Copies(steps, Hello) == 1 && Copies(steps, Ready) == 0
    ensures !TellsOfTheOther(ns[|steps|])
  {
    hide IsRun, Copies;
    var a := OPENED.a;
    ns, steps := BothOpen();
    ns, steps := Onward(ns, steps, Step(false, Copy(Hello)), Net(a, Side(true, WAITING, 0, 2, 0, 0)));
    ns, steps := Onward(ns, steps, Step(false, Hear(Hello)),
                        Net(a.(readiesComing := 1), Side(true, WAITING, 1, 1, 0, 0)));
    ns, steps := Onward(ns, steps, Step(false, Hear(Hello)),
                        Net(a.(readiesComing := 2), Side(true, WAITING, 2, 0, 0, 0)));
    ns, steps := Onward(ns, steps, Step(true, Hear(Ready)),
                        Net(Side(true, ANSWERED, 0, 1, 1, 0), Side(true, WAITING, 2, 0, 1, 0)));
    ns, steps := Onward(ns, steps, Step(true, Hear(Ready)),
                        Net(Side(true, COMPLETED, 0, 1, 0, 0), Side(true, WAITING, 2, 0, 1, 0)));
  }

  /** `a` completes on a Ready and its copy, and `b` has heard none. */
  lemma RepeatedReadyBreaksIt() returns (ns: seq<Net>, steps: seq<Step>)
    ensures IsRun(ns, steps) && Copies(steps, Hello) == 0 && Copies(steps, Ready) == 1
    ensures !TellsOfTheOther(ns[|steps|])
  {
    hide IsRun, Copies;
    var (a, b) := (OPENED.a, Side(true, WAITING, 1, 0, 0, 0));
    ns, steps := BothOpen();
    ns, steps := Onward(ns, steps, Step(false, Hear(Hello)), Net(a.(readiesComing := 1), b));
    ns, steps := Onward(ns, steps, Step(true, Copy(Ready)), Net(a.(readiesComing := 2), b));
    ns, steps := Onward(ns, steps, Step(true, Hear(Ready)),
                        Net(Side(true, ANSWERED, 0, 1, 1, 0), b.(readiesComing := 1)));
    ns, steps := Onward(ns, steps, Step(true, Hear(Ready)),
                        Net(Side(true, COMPLETED, 0, 1, 0, 0), b.(readiesComing := 1)));
  }

  /** A run that repeats at most `h` Hellos and `r` Readies. */
  ghost predicate WithinBudget(ns: seq<Net>, steps: seq<Step>, h: nat, r: nat) {
    IsRun(ns, steps) && Copies(steps, Hello) <= h && Copies(steps, Ready) <= r
  }

  /**
   * However reports are repeated and anything is lost or reordered, one side's completion tells of the other
   * in all runs within a budget of repeated Hellos and Readies exactly when the budget is nothing.
   */
  lemma CompletionTellsExact(h: nat, r: nat)
    ensures (forall ns, steps, i :: WithinBudget(ns, steps, h, r) && 0 <= i < |ns| ==> TellsOfTheOther(ns[i]))
            <==> h == 0 && r == 0
  {
    hide IsRun, Copies, TellsOfTheOther;
    if h == 0 && r == 0 {
      forall ns, steps, i | WithinBudget(ns, steps, h, r) && 0 <= i < |ns|
        ensures TellsOfTheOther(ns[i])
      {
        CompletionTellsOfTheOther(ns, steps, i);
      }
    } else if h > 0 {
      var ns, steps := RepeatedHelloBreaksIt();
      RunLength(ns, steps);
      assert WithinBudget(ns, steps, h, r) && !TellsOfTheOther(ns[|steps|]);
    } else {
      var ns, steps := RepeatedReadyBreaksIt();
      RunLength(ns, steps);
      assert WithinBudget(ns, steps, h, r) && !TellsOfTheOther(ns[|steps|]);
    }
  }

  lemma RunLength(ns: seq<Net>, steps: seq<Step>)
    requires IsRun(ns, steps)
    ensures |ns| == |steps| + 1
  {
  }
}
