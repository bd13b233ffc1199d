/** The scripted loops are runs of the transfer's state machine. */
module FileTransferLoops {
  import opened Common
  import opened DataChannels
  import opened FileTransfer
  import opened FileTransferClass
  import Ftp

  // ----- runs of one side

  /** The sender after the events, if each is possible in its turn. */
  function SenderRun(t: Transfer, s: Sender, inbox: seq<Frame>, es: seq<SenderEvent>): Option<Sender> {
    if es == [] then Some(s)
    else match SenderRun(t, s, inbox, es[..|es| - 1])
      case Some(before) =>
        if SenderCan(t, before, inbox, es[|es| - 1]) then Some(SenderStep(t, before, inbox, es[|es| - 1])) else None
      case None => None
  }

  lemma SenderRunStep(t: Transfer, s: Sender, inbox: seq<Frame>, es: seq<SenderEvent>, e: SenderEvent)
    requires SenderRun(t, s, inbox, es).Some? && SenderCan(t, SenderRun(t, s, inbox, es).value, inbox, e)
    ensures SenderRun(t, s, inbox, es + [e]) == Some(SenderStep(t, SenderRun(t, s, inbox, es).value, inbox, e))
  {
    assert (es + [e])[..|es|] == es;
  }

  /** The receiver after the events, if each is possible in its turn. */
  function ReceiverRun(r: Receiver, inbox: seq<Frame>, es: seq<ReceiverEvent>): Option<Receiver>
    decreases es
  {
    if es == [] then Some(r)
    else if !ReceiverCan(r, inbox, es[0]) then None
    else ReceiverRun(ReceiverStep(r, inbox, es[0]), inbox, es[1..])
  }

  lemma ReceiverTwoSteps(r: Receiver, inbox: seq<Frame>, e: ReceiverEvent, f: ReceiverEvent, es: seq<ReceiverEvent>)
    requires ReceiverCan(r, inbox, e) && ReceiverCan(ReceiverStep(r, inbox, e), inbox, f)
    ensures ReceiverRun(r, inbox, [e, f] + es)
            == ReceiverRun(ReceiverStep(ReceiverStep(r, inbox, e), inbox, f), inbox, es)
  {
    hide ReceiverStep, ReceiverCan;
    var all := [e, f] + es;
    assert all[1..] == [f] + es && all[1..][1..] == es;
  }

  lemma {:induction false} SenderRunFirst(
    t: Transfer, s: Sender, inbox: seq<Frame>, e: SenderEvent, es: seq<SenderEvent>)
    requires SenderCan(t, s, inbox, e)
    ensures SenderRun(t, s, inbox, [e] + es) == SenderRun(t, SenderStep(t, s, inbox, e), inbox, es)
  {
    hide SenderCan, SenderStep;
    var all := [e] + es;
    if es == [] {
      assert all == [e] && all[..0] == [];
    } else {
      assert all[..|all| - 1] == [e] + es[..|es| - 1];
      SenderRunFirst(t, s, inbox, e, es[..|es| - 1]);
    }
  }

  // ----- waiting for the channel to be established

  /** The frames the polls bring are those of the inbox, in order, from `read` on. */
  predicate PolledFrom(polls: seq<Poll>, inbox: seq<Frame>, read: nat) {
    polls == [] ||
    if polls[0].Arrived? then read < |inbox| && inbox[read] == polls[0].frame && PolledFrom(polls[1..], inbox, read + 1)
    else PolledFrom(polls[1..], inbox, read)
  }

  /** What the polls of the sender's wait are to the machine; after the last one the wait times out. */
  function AckEvents(polls: seq<Poll>): seq<SenderEvent> {
    if polls == [] then [Give]
    else match polls[0]
      case Silence => AckEvents(polls[1..])
      case PollError => [Give]
      case Arrived(f) => [Take] + if OnAckFrame(f) == Again then AckEvents(polls[1..]) else []
  }

  function OpenEvents(polls: seq<Poll>): seq<ReceiverEvent> {
    if polls == [] then [RGive]
    else match polls[0]
      case Silence => OpenEvents(polls[1..])
      case PollError => [RGive]
      case Arrived(f) => [RTake(None)] + if OnOpenFrame(f) == Again then OpenEvents(polls[1..]) else []
  }

  lemma LaterVerdict(onFrame: Frame -> Wait, polls: seq<Poll>, used: nat, r: Wait)
    requires FirstVerdict(onFrame, polls, used, r) && used > 0
    ensures FirstVerdict(onFrame, polls[1..], used - 1, r)
  {
  }

  /** What `WaitForAck` returns is where its polls bring the machine: a timeout fails the sender. */
  lemma {:induction false} AckWaitIsRun(
    t: Transfer, s: Sender, inbox: seq<Frame>, polls: seq<Poll>, used: nat, r: Wait)
    requires s.stage == AwaitAck && FirstVerdict(OnAckFrame, polls, used, r) && PolledFrom(polls, inbox, s.read)
    ensures var end := SenderRun(t, s, inbox, AckEvents(polls));
      end.Some? && end.value.stage == (if r == Done then ToOffer else Failed) && end.value.sent == s.sent
    decreases polls
  {
    hide OnAckFrame, SenderRun;
    if polls == [] || polls[0].PollError? {
      SenderRunFirst(t, s, inbox, Give, []);
      NoEvents(t, s.(stage := Failed), inbox);
      assert [Give] + [] == [Give];
    } else if polls[0].Silence? {
      LaterVerdict(OnAckFrame, polls, used, r);
      AckWaitIsRun(t, s, inbox, polls[1..], used - 1, r);
    } else {
      var next := SenderStep(t, s, inbox, Take);
      if used == 0 {
        SenderRunFirst(t, s, inbox, Take, []);
        NoEvents(t, next, inbox);
      } else {
        LaterVerdict(OnAckFrame, polls, used, r);
        SenderRunFirst(t, s, inbox, Take, AckEvents(polls[1..]));
        AckWaitIsRun(t, next, inbox, polls[1..], used - 1, r);
      }
    }
  }

  lemma ReceiverRunFirst(r: Receiver, inbox: seq<Frame>, e: ReceiverEvent, es: seq<ReceiverEvent>)
    requires ReceiverCan(r, inbox, e)
    ensures ReceiverRun(r, inbox, [e] + es) == ReceiverRun(ReceiverStep(r, inbox, e), inbox, es)
  {
    hide ReceiverCan, ReceiverStep;
    assert ([e] + es)[1..] == es;
  }

  /** The same of `WaitForOpen` and the receiver. */
  lemma {:induction false} OpenWaitIsRun(r: Receiver, inbox: seq<Frame>, polls: seq<Poll>, used: nat, verdict: Wait)
    requires r.stage == AwaitOpen && FirstVerdict(OnOpenFrame, polls, used, verdict) && PolledFrom(polls, inbox, r.read)
    ensures var end := ReceiverRun(r, inbox, OpenEvents(polls));
      end.Some? && end.value.stage == (if verdict == Done then ToAck else Aborted) && end.value.sent == r.sent
    decreases polls
  {
    hide OnOpenFrame, ReceiverRun;
    if polls == [] || polls[0].PollError? {
      ReceiverRunFirst(r, inbox, RGive, []);
      Stays(r.(stage := Aborted), inbox);
      assert [RGive] + [] == [RGive];
    } else if polls[0].Silence? {
      LaterVerdict(OnOpenFrame, polls, used, verdict);
      OpenWaitIsRun(r, inbox, polls[1..], used - 1, verdict);
    } else {
      var next := ReceiverStep(r, inbox, RTake(None));
      if used == 0 {
        ReceiverRunFirst(r, inbox, RTake(None), []);
        Stays(next, inbox);
      } else {
        LaterVerdict(OnOpenFrame, polls, used, verdict);
        ReceiverRunFirst(r, inbox, RTake(None), OpenEvents(polls[1..]));
        OpenWaitIsRun(next, inbox, polls[1..], used - 1, verdict);
      }
    }
  }

  // ----- waiting for the reply

  /** A reception is a frame taken or an error. */
  function Takes(received: seq<Received>): seq<SenderEvent> {
    seq(|received|, i requires 0 <= i < |received| => if received[i].Some? then Take else Give)
  }

  /** The frames among the receptions are those of the inbox, from `read` on. */
  predicate FromInbox(received: seq<Received>, inbox: seq<Frame>, read: nat) {
    forall i :: 0 <= i < |received| && received[i].Some? ==> read + i < |inbox| && inbox[read + i] == received[i].value
  }

  /** Receptions that are no reply leave the sender waiting. */
  lemma {:induction false} StillWaiting(t: Transfer, s: Sender, inbox: seq<Frame>, received: seq<Received>)
    requires s.stage == AwaitReply && FromInbox(received, inbox, s.read)
    requires forall i :: 0 <= i < |received| ==> ReplyTo(received[i]) == AwaitReply
    ensures SenderRun(t, s, inbox, Takes(received)) == Some(s.(read := s.read + |received|))
  {
    hide OnReply;
    if received != [] {
      var n := |received| - 1;
      StillWaiting(t, s, inbox, received[..n]);
      assert ReplyTo(received[n]) == AwaitReply;
      assert Takes(received)[..n] == Takes(received[..n]);
      assert Takes(received) == Takes(received[..n]) + [Take];
      SenderRunStep(t, s, inbox, Takes(received[..n]), Take);
    }
  }

  /** What `FileOfferAccepted` returns is the stage its receptions bring the machine to. */
  lemma ReplyLoopIsRun(t: Transfer, s: Sender, inbox: seq<Frame>, received: seq<Received>, used: nat)
    requires s.stage == AwaitReply && used < |received| && FromInbox(received[..used + 1], inbox, s.read)
    requires forall i :: 0 <= i < used ==> ReplyTo(received[i]) == AwaitReply
    ensures var end := SenderRun(t, s, inbox, Takes(received[..used + 1]));
            end.Some? && end.value.stage == ReplyTo(received[used]) && end.value.sent == s.sent
  {
    hide OnReply;
    var before := received[..used];
    assert FromInbox(before, inbox, s.read) by {
      assert forall i :: 0 <= i < used ==> received[..used + 1][i] == before[i];
    }
    StillWaiting(t, s, inbox, before);
    var e := if received[used].Some? then Take else Give;
    assert Takes(received[..used + 1]) == Takes(before) + [e];
    assert received[..used + 1][used] == received[used];
    SenderRunStep(t, s, inbox, Takes(before), e);
  }

  // ----- the sending loop

  function PieceEvents(parts: seq<seq<u8>>): seq<SenderEvent> {
    if parts == [] then [] else PieceEvents(parts[..|parts| - 1]) + [Check, Chunk(|parts[|parts| - 1]|, true)]
  }

  /** The last pass of the loop. */
  function LastPass(cause: Cause, rest: nat): seq<SenderEvent> {
    match cause
    case EndOfData => [Check, Chunk(0, true)]
    case Disconnected => [Drop, Check]
    case ReadFailed => [Check, FileError]
    case SendFailed => [Check, Chunk(ReadLength(1, rest), false)]
  }

  /** A sender that is about to send the file. */
  predicate Ready(s: Sender) {
    s.stage == AtCheck && s.connected && s.parts == []
  }

  lemma {:induction false} PiecesAreRun(t: Transfer, s: Sender, inbox: seq<Frame>, parts: seq<seq<u8>>)
    requires Ready(s) && Flatten(parts) <= t.file && forall p <- parts :: 0 < |p| <= CHUNK_SIZE
    ensures SenderRun(t, s, inbox, PieceEvents(parts))
            == Some(s.(parts := parts, sent := s.sent + ChunkFrames(parts)))
  {
    hide Message, SenderRun, SenderStep, SenderCan, PieceEvents, ChunkFrames, Flatten;
    if parts == [] {
      NoPieces(s.sent, t.file, []);
      NoEvents(t, s, inbox);
    } else {
      var n := |parts| - 1;
      var before, p := parts[..n], parts[n];
      assert parts == before + [p];
      FlattenAppend(before, p);
      PiecesAreRun(t, s, inbox, before);
      LastPiece(parts);
      LastFrame(s.sent, before, p);
      OnePiece(t, s.(parts := before, sent := s.sent + ChunkFrames(before)), inbox, p);
      var es := PieceEvents(before);
      SenderRunStep(t, s, inbox, es, Check);
      SenderRunStep(t, s, inbox, es + [Check], Chunk(|p|, true));
      assert es + [Check] + [Chunk(|p|, true)] == es + [Check, Chunk(|p|, true)];
    }
  }

  lemma NoEvents(t: Transfer, s: Sender, inbox: seq<Frame>)
    ensures PieceEvents([]) == [] && SenderRun(t, s, inbox, []) == Some(s)
  {
  }

  lemma LastPiece(parts: seq<seq<u8>>)
    requires parts != []
    ensures PieceEvents(parts)
            == PieceEvents(parts[..|parts| - 1]) + [Check, Chunk(|parts[|parts| - 1]|, true)]
  {
  }

  lemma LastFrame(sent: seq<Frame>, before: seq<seq<u8>>, p: seq<u8>)
    ensures sent + ChunkFrames(before) + [Message(Ftp.FileChunk(p))] == sent + ChunkFrames(before + [p])
  {
    hide Message;
    assert ChunkFrames(before + [p]) == ChunkFrames(before) + [Message(Ftp.FileChunk(p))];
  }

  lemma OnePiece(t: Transfer, s: Sender, inbox: seq<Frame>, p: seq<u8>)
    requires s.stage == AtCheck && s.connected && 0 < |p| <= CHUNK_SIZE && Flatten(s.parts) + p <= t.file
    ensures SenderCan(t, s, inbox, Check)
    ensures var checked := SenderStep(t, s, inbox, Check);
            && SenderCan(t, checked, inbox, Chunk(|p|, true))
            && SenderStep(t, checked, inbox, Chunk(|p|, true))
               == s.(parts := s.parts + [p], sent := s.sent + [Message(Ftp.FileChunk(p))])
  {
    hide Message, Flatten;
    var offset := |Flatten(s.parts)|;
    assert t.file[offset..offset + |p|] == p;
  }

  /** What `SendPieces` returns is where its passes bring the machine: the pieces sent and the cause to end. */
  lemma SendLoopIsRun(
    t: Transfer, s: Sender, inbox: seq<Frame>, turns: seq<SendTurn>, parts: seq<seq<u8>>, cause: Cause)
    requires Ready(s) && Pieces(t.file, turns, parts)
    requires StopsAt(turns, |parts|, |t.file| - |Flatten(parts)|) == Some(cause)
    ensures var rest := |t.file| - |Flatten(parts)|;
            var end := SenderRun(t, s, inbox, PieceEvents(parts) + LastPass(cause, rest));
            && end.Some? && end.value.stage == ToEnd(cause) && end.value.parts == parts
            && end.value.sent == s.sent + ChunkFrames(parts)
  {
    hide PieceEvents, SenderRun, SenderStep, SenderCan, Flatten, ChunkFrames, Message;
    PiecesAreRun(t, s, inbox, parts);
    var rest := |t.file| - |Flatten(parts)|;
    var (last, es) := (LastPass(cause, rest), PieceEvents(parts));
    var sending := s.(parts := parts, sent := s.sent + ChunkFrames(parts));
    assert cause == EndOfData ==> rest == 0;
    assert cause == SendFailed ==> rest > 0;
    LoopEnds(t, sending, inbox, cause);
    SenderRunStep(t, s, inbox, es, last[0]);
    SenderRunStep(t, s, inbox, es + [last[0]], last[1]);
    assert es + [last[0]] + [last[1]] == es + last;
  }

  /** The last pass ends the loop for its cause and sends nothing. */
  lemma LoopEnds(t: Transfer, s: Sender, inbox: seq<Frame>, cause: Cause)
    requires s.stage == AtCheck && s.connected && Offset(s) <= |t.file|
    requires cause == EndOfData ==> Offset(s) == |t.file|
    requires cause == SendFailed ==> Offset(s) < |t.file|
    ensures var last := LastPass(cause, |t.file| - Offset(s));
            && |last| == 2 && SenderCan(t, s, inbox, last[0])
            && var half := SenderStep(t, s, inbox, last[0]);
               && SenderCan(t, half, inbox, last[1])
               && var end := SenderStep(t, half, inbox, last[1]);
                  end.stage == ToEnd(cause) && end.parts == s.parts && end.sent == s.sent
  {
    hide Flatten, Message;
  }

  // ----- the receiving loop

  /** The events behind the passes of a download. */
  function DownloadEvents(written: seq<u8>, turns: seq<ReceiveTurn>): seq<ReceiverEvent>
    decreases turns
  {
    if turns == [] || !turns[0].connected then [RDrop, RCheck]
    else if turns[0].received.None? then [RCheck, RGive]
    else
      var (stage, after) := OnDownload(written, turns[0].received.value, turns[0].failsAt);
      [RCheck, RTake(turns[0].failsAt)] + if stage == AtLoop then DownloadEvents(after, turns[1..]) else []
  }

  predicate TurnsFromInbox(turns: seq<ReceiveTurn>, inbox: seq<Frame>, read: nat) {
    forall i :: 0 <= i < |turns| && turns[i].received.Some? ==>
      read + i < |inbox| && inbox[read + i] == turns[i].received.value
  }

  /** What `ReceiveFile` computes is where its passes bring the machine: the stage and the file. */
  lemma {:induction false} ReceiveLoopIsRun(r: Receiver, inbox: seq<Frame>, turns: seq<ReceiveTurn>)
    requires r.stage == AtLoop && r.connected && TurnsFromInbox(turns, inbox, r.read)
    ensures var end := ReceiverRun(r, inbox, DownloadEvents(r.written, turns));
            end.Some? && (end.value.stage, end.value.written) == Downloaded(r.written, turns)
    decreases turns
  {
    hide OnDownload, ReceiverRun;
    if turns == [] || !turns[0].connected {
      ReceiverTwoSteps(r, inbox, RDrop, RCheck, []);
      Stays(ReceiverStep(ReceiverStep(r, inbox, RDrop), inbox, RCheck), inbox);
      assert [RDrop, RCheck] + [] == [RDrop, RCheck];
    } else if turns[0].received.None? {
      ReceiverTwoSteps(r, inbox, RCheck, RGive, []);
      Stays(ReceiverStep(ReceiverStep(r, inbox, RCheck), inbox, RGive), inbox);
      assert [RCheck, RGive] + [] == [RCheck, RGive];
    } else {
      OnePass(r, inbox, turns);
      var (stage, after) := OnDownload(r.written, turns[0].received.value, turns[0].failsAt);
      var next := r.(stage := stage, written := after, read := r.read + 1);
      if stage == AtLoop {
        assert TurnsFromInbox(turns[1..], inbox, next.read) by {
          assert forall i :: 0 <= i < |turns[1..]| ==> turns[1..][i] == turns[i + 1];
        }
        ReceiveLoopIsRun(next, inbox, turns[1..]);
      } else {
        Stays(next, inbox);
      }
    }
  }

  lemma Stays(r: Receiver, inbox: seq<Frame>)
    ensures ReceiverRun(r, inbox, []) == Some(r)
  {
  }

  /** A pass that takes a frame. */
  lemma OnePass(r: Receiver, inbox: seq<Frame>, turns: seq<ReceiveTurn>)
    requires r.stage == AtLoop && r.connected && TurnsFromInbox(turns, inbox, r.read)
    requires turns != [] && turns[0].connected && turns[0].received.Some?
    ensures var (stage, after) := OnDownload(r.written, turns[0].received.value, turns[0].failsAt);
            var next := r.(stage := stage, written := after, read := r.read + 1);
            ReceiverRun(r, inbox, DownloadEvents(r.written, turns))
            == ReceiverRun(next, inbox, if stage == AtLoop then DownloadEvents(after, turns[1..]) else [])
  {
    hide OnDownload, ReceiverRun;
    var turn := turns[0];
    var (stage, after) := OnDownload(r.written, turn.received.value, turn.failsAt);
    var rest := if stage == AtLoop then DownloadEvents(after, turns[1..]) else [];
    ReceiverTwoSteps(r, inbox, RCheck, RTake(turn.failsAt), rest);
  }
}
