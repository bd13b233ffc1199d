/** What every run of a file transfer keeps, whatever is dropped, lost or refused. */
module FileTransferSafety {
  import opened Common
  import opened DataChannels
  import opened FileTransfer
  import Ftp

  lemma ScriptAt(t: Transfer, parts: seq<seq<u8>>, k: nat)
    requires k < |parts| + 3
    ensures Script(t, parts)[k] == if k == 0 then Opening(t) else if k == 1 then Offer(t)
                                   else if k < 2 + |parts| then Message(Ftp.FileChunk(parts[k - 2]))
                                   else Message(Ftp.EndOfFile)
  {
  }

  /** A sender that hands over nothing more does not disturb the receiver. */
  lemma ReceiverUndisturbed(t: Transfer, s: Sender, s': Sender, r: Receiver)
    requires ReceiverOk(t, s, r) && s'.parts == s.parts && |s'.sent| >= |s.sent|
    requires s.stage.Ended? ==> s'.stage.Ended?
    ensures ReceiverOk(t, s', r)
  {
    hide Message, OnOffer, Offer, Flatten, Acked, Accepted, Rejected;
  }

  lemma SenderUndisturbed(t: Transfer, s: Sender, r: Receiver, r': Receiver)
    requires SenderOk(t, s, r) && r'.sent == r.sent
    ensures SenderOk(t, s, r')
  {
    hide Message, Flatten, Follows, GoodParts, Acked, Accepted, Rejected;
  }

  lemma FollowsOn(t: Transfer, parts: seq<seq<u8>>, sent: seq<Frame>)
    requires Follows(t, parts, sent) && |sent| < 3 + |parts|
    ensures Follows(t, parts, sent + [Script(t, parts)[|sent|]])
  {
    hide Script;
  }

  lemma SendFollowsScript(t: Transfer, s: Sender, r: Receiver, ok: bool)
    requires SenderOk(t, s, r) && SenderCan(t, s, r.sent, Send(ok))
    ensures SenderOk(t, SenderStep(t, s, r.sent, Send(ok)), r)
  {
    hide Message, Opening, Offer, Flatten, Script, GoodParts, Acked, Accepted, Rejected, Follows;
    ScriptAt(t, s.parts, |s.sent|);
    FollowsOn(t, s.parts, s.sent);
  }

  lemma SenderSends(t: Transfer, y: System, ok: bool)
    requires Inv(t, y) && Can(t, y, BySender(Send(ok)))
    ensures Inv(t, Step(t, y, BySender(Send(ok))))
  {
    hide SenderOk, ReceiverOk, Opening, Message, Offer, Flatten;
    SendFollowsScript(t, y.sender, y.receiver, ok);
    ReceiverUndisturbed(t, y.sender, Step(t, y, BySender(Send(ok))).sender, y.receiver);
  }

  lemma SenderTakes(t: Transfer, y: System)
    requires Inv(t, y) && Can(t, y, BySender(Take))
    ensures Inv(t, Step(t, y, BySender(Take)))
    ensures var f := y.receiver.sent[y.sender.read];
            var stage := Step(t, y, BySender(Take)).sender.stage;
            if y.sender.stage.AwaitAck? then f == ACK_FRAME && stage == ToOffer
            else || (f == Message(Ftp.AcceptFile) && stage == AtCheck)
                 || (f == Message(Ftp.RejectFile) && stage == Declined)
  {
    AckIsTaken();
    RepliesAreTaken();
    hide OnAckFrame, OnReply, OnOffer, Follows, Flatten;
    var f := y.receiver.sent[y.sender.read];
    if y.sender.stage.AwaitAck? {
      assert f == ACK_FRAME;
    } else {
      assert f == Message(Ftp.AcceptFile) || f == Message(Ftp.RejectFile);
    }
  }

  /** A further chunk leaves what the receiver has taken as it was. */
  lemma ReceiverUndisturbedByChunk(t: Transfer, s: Sender, s': Sender, r: Receiver, p: seq<u8>)
    requires ReceiverOk(t, s, r) && !s.stage.Ended? && s'.parts == s.parts + [p] && |s'.sent| >= |s.sent|
    ensures ReceiverOk(t, s', r)
  {
    FlattenAppend(s.parts, p);
    hide Message, OnOffer, Offer, Flatten, Acked, Accepted, Rejected;
    if 2 <= r.read <= 2 + |s.parts| {
      assert s'.parts[..r.read - 2] == s.parts[..r.read - 2];
    }
  }

  lemma ChunkFollowsScript(t: Transfer, s: Sender, r: Receiver, length: nat, ok: bool)
    requires SenderOk(t, s, r) && SenderCan(t, s, r.sent, Chunk(length, ok))
    ensures SenderOk(t, SenderStep(t, s, r.sent, Chunk(length, ok)), r)
  {
    hide Message, Opening, Offer, Script, Flatten, Acked, Accepted, Rejected;
    if length > 0 && ok {
      var offset := Offset(s);
      var payload := t.file[offset..offset + length];
      ScriptGrows(t, s.parts, payload);
      FlattenAppend(s.parts, payload);
      assert Flatten(s.parts + [payload]) == t.file[..offset + length];
    }
  }

  lemma SenderChunks(t: Transfer, y: System, length: nat, ok: bool)
    requires Inv(t, y) && Can(t, y, BySender(Chunk(length, ok)))
    ensures Inv(t, Step(t, y, BySender(Chunk(length, ok))))
  {
    hide SenderOk, ReceiverOk, Message, Flatten;
    ChunkFollowsScript(t, y.sender, y.receiver, length, ok);
    var s' := Step(t, y, BySender(Chunk(length, ok))).sender;
    if length > 0 && ok {
      ReceiverUndisturbedByChunk(t, y.sender, s', y.receiver, s'.parts[|y.sender.parts|]);
    } else {
      ReceiverUndisturbed(t, y.sender, s', y.receiver);
    }
  }

  lemma SenderMoves(t: Transfer, y: System, e: SenderEvent)
    requires Inv(t, y) && Can(t, y, BySender(e))
    ensures Inv(t, Step(t, y, BySender(e)))
  {
    hide Message, Opening, Offer, OnOffer, OnReply, OnAckFrame, Follows, Flatten;
    match e
    case Send(ok) => SenderSends(t, y, ok);
    case Take => SenderTakes(t, y);
    case Chunk(length, ok) => SenderChunks(t, y, length, ok);
    case _ =>
  }

  /** The frame the receiver is about to take. */
  lemma NextFrame(t: Transfer, y: System)
    requires Inv(t, y) && y.receiver.read < |y.sender.sent|
    ensures var k := y.receiver.read;
            var parts := y.sender.parts;
            y.sender.sent[k] == if k == 0 then Opening(t) else if k == 1 then Offer(t)
                                else if k < 2 + |parts| then Message(Ftp.FileChunk(parts[k - 2]))
                                else Message(Ftp.EndOfFile)
    ensures y.receiver.read == 2 + |y.sender.parts| ==> y.sender.stage.Ended?
  {
    hide Message, Opening, Offer, OnOffer, Flatten, Script;
    ScriptAt(t, y.sender.parts, y.receiver.read);
  }

  /** What the opening frame and the offer leave of the receiver is sound. */
  lemma OpeningsKeepReceiver(t: Transfer, s: Sender, r: Receiver, failsAt: Option<nat>)
    requires ReceiverOk(t, s, r) && ReceiverCan(r, s.sent, RTake(failsAt))
    requires (r.stage.AwaitOpen? && r.read == 0) || (r.stage.AwaitOffer? && r.read == 1)
    requires s.sent[r.read] == (if r.stage.AwaitOpen? then Opening(t) else Offer(t))
    requires OnOpenFrame(Opening(t)) != Again
    ensures ReceiverOk(t, s, ReceiverStep(r, s.sent, RTake(failsAt)))
    ensures ReceiverStep(r, s.sent, RTake(failsAt)).sent == r.sent
  {
    hide OnOpenFrame, Message, Opening, Offer, Flatten, OnOffer, Acked, Accepted, Rejected;
    OfferLeads(t);
  }

  lemma OfferLeads(t: Transfer)
    ensures OnOffer(Offer(t)).Pending? || OnOffer(Offer(t)) in {AwaitOffer, Aborted}
  {
    hide Message, Offer;
  }

  /** A receiver that has skipped the offer finds no further frame. */
  lemma WaitsForOpenings(t: Transfer, y: System, failsAt: Option<nat>)
    requires Inv(t, y) && Can(t, y, ByReceiver(RTake(failsAt))) && !y.receiver.stage.AwaitChunk?
    ensures var r := y.receiver; (r.stage.AwaitOpen? && r.read == 0) || (r.stage.AwaitOffer? && r.read == 1)
  {
    hide OnOffer, Message, Opening, Offer, Flatten, Follows, GoodParts;
  }

  lemma ReceiverOpens(t: Transfer, y: System, failsAt: Option<nat>)
    requires Inv(t, y) && Can(t, y, ByReceiver(RTake(failsAt))) && !y.receiver.stage.AwaitChunk?
    ensures Inv(t, Step(t, y, ByReceiver(RTake(failsAt))))
    ensures y.receiver.stage.AwaitOpen? ==> y.sender.sent[y.receiver.read] == Opening(t)
    ensures y.receiver.stage.AwaitOffer? ==> y.sender.sent[y.receiver.read] == Offer(t)
  {
    hide SenderOk, OnOpenFrame, OnOffer, Message, Opening, Offer, Flatten, ReceiverStep, Acked, Accepted, Rejected;
    NextFrame(t, y);
    OpeningIsTaken(t);
    WaitsForOpenings(t, y, failsAt);
    OpeningsKeepReceiver(t, y.sender, y.receiver, failsAt);
    SenderUndisturbed(t, y.sender, y.receiver, ReceiverStep(y.receiver, y.sender.sent, RTake(failsAt)));
  }

  /** The receiver after the next frame of a download. */
  function AfterFrame(parts: seq<seq<u8>>, r: Receiver, failsAt: Option<nat>): Receiver
    requires 2 <= r.read <= 2 + |parts|
  {
    var k := r.read - 2;
    if k == |parts| then r.(stage := Completed, read := r.read + 1)
    else if failsAt.None? then r.(stage := AtLoop, read := r.read + 1, written := r.written + parts[k])
    else r.(stage := Aborted, read := r.read + 1,
            written := r.written + parts[k][..Min(failsAt.value, |parts[k]|)])
  }

  lemma NextDownload(t: Transfer, y: System, failsAt: Option<nat>)
    requires Inv(t, y) && Can(t, y, ByReceiver(RTake(failsAt))) && y.receiver.stage.AwaitChunk?
    ensures Downloading(y.sender, y.receiver)
    ensures ReceiverStep(y.receiver, y.sender.sent, RTake(failsAt)) == AfterFrame(y.sender.parts, y.receiver, failsAt)
  {
    hide OnDownload, OnOffer, Acked, Accepted, Rejected, Message, Opening, Offer, Follows, Flatten;
    NextFrame(t, y);
    var parts, k := y.sender.parts, y.receiver.read - 2;
    if k < |parts| {
      ChunkFits(parts[k]);
    } else {
      EndIsTaken(y.receiver.written, failsAt);
    }
  }

  lemma FrameWritten(t: Transfer, s: Sender, r: Receiver, failsAt: Option<nat>)
    requires ReceiverOk(t, s, r) && r.stage.AwaitChunk? && r.read < |s.sent|
    requires r.read == 2 + |s.parts| ==> s.stage.Ended?
    ensures ReceiverOk(t, s, AfterFrame(s.parts, r, failsAt))
  {
    hide OnOffer, Acked, Accepted, Rejected, Message, Offer, Flatten;
    var parts, k := s.parts, r.read - 2;
    if k < |parts| {
      PiecesGrow(parts, k);
      PiecesGrow(parts, k + 1);
    } else {
      assert parts[..k] == parts;
    }
  }

  lemma ReceiverDownloads(t: Transfer, y: System, failsAt: Option<nat>)
    requires Inv(t, y) && Can(t, y, ByReceiver(RTake(failsAt))) && y.receiver.stage.AwaitChunk?
    ensures Inv(t, Step(t, y, ByReceiver(RTake(failsAt))))
  {
    hide SenderOk, ReceiverOk, ReceiverStep, OnDownload, Accepted, Flatten, Message;
    NextDownload(t, y, failsAt);
    NextFrame(t, y);
    FrameWritten(t, y.sender, y.receiver, failsAt);
    SenderUndisturbed(t, y.sender, y.receiver, AfterFrame(y.sender.parts, y.receiver, failsAt));
  }

  /** Both sides after a reply of the receiver. */
  lemma ReceiverSends(t: Transfer, y: System, ok: bool)
    requires Inv(t, y) && Can(t, y, ByReceiver(RSend(ok)))
    ensures Inv(t, Step(t, y, ByReceiver(RSend(ok))))
  {
    hide OnOffer, Offer, Follows, GoodParts, Message;
    assert y.sender.parts[..0] == [];
  }

  lemma ReceiverMoves(t: Transfer, y: System, e: ReceiverEvent)
    requires Inv(t, y) && Can(t, y, ByReceiver(e))
    ensures Inv(t, Step(t, y, ByReceiver(e)))
  {
    hide OnDownload, OnOffer, OnOpenFrame, Opening, Offer, SenderOk, Message, Acked, Accepted, Rejected, Flatten;
    match e
    case RTake(failsAt) =>
      if y.receiver.stage.AwaitChunk? {
        ReceiverDownloads(t, y, failsAt);
      } else {
        ReceiverOpens(t, y, failsAt);
      }
    case RSend(ok) => ReceiverSends(t, y, ok);
    case _ => SenderUndisturbed(t, y.sender, y.receiver, ReceiverStep(y.receiver, y.sender.sent, e));
  }

  lemma StepKeepsInv(t: Transfer, y: System, e: Event)
    requires Inv(t, y) && Can(t, y, e)
    ensures Inv(t, Step(t, y, e))
  {
    hide Inv, SenderStep, ReceiverStep;
    match e
    case BySender(s) => SenderMoves(t, y, s);
    case ByReceiver(r) => ReceiverMoves(t, y, r);
  }

  lemma {:induction false} InvAlways(t: Transfer, ys: seq<System>, es: seq<Event>, n: nat)
    requires IsRun(t, ys, es) && n < |ys|
    ensures Inv(t, ys[n])
  {
    hide Step, Can;
    if n > 0 {
      InvAlways(t, ys, es, n - 1);
      assert Can(t, ys[n - 1], es[n - 1]);
      StepKeepsInv(t, ys[n - 1], es[n - 1]);
    }
  }

  // ----- the promises

  /** A loop that waits for channel establishment never takes a message of the application. */
  lemma NothingSwallowed(t: Transfer, ys: seq<System>, es: seq<Event>, n: nat)
    requires IsRun(t, ys, es) && n < |es|
    ensures es[n] == BySender(Take) && ys[n].sender.stage.AwaitAck?
            ==> ys[n].receiver.sent[ys[n].sender.read] == ACK_FRAME && ys[n + 1].sender.stage.ToOffer?
    ensures es[n].ByReceiver? && es[n].r.RTake? && ys[n].receiver.stage.AwaitOpen?
            ==> ys[n].sender.sent[ys[n].receiver.read] == Opening(t) && !ys[n + 1].receiver.stage.AwaitOpen?
  {
    InvAlways(t, ys, es, n);
    assert Can(t, ys[n], es[n]);
    if es[n] == BySender(Take) {
      SenderTakes(t, ys[n]);
    } else if es[n].ByReceiver? && es[n].r.RTake? && ys[n].receiver.stage.AwaitOpen? {
      ReceiverOpens(t, ys[n], es[n].r.failsAt);
      OpeningIsTaken(t);
    }
  }

  /** A name of at most 255 bytes reaches the peer as it is, and then no frame at all is ever skipped. */
  lemma NothingSkipped(t: Transfer, ys: seq<System>, es: seq<Event>, n: nat)
    requires IsRun(t, ys, es) && n < |es| && |t.metadata.name| <= 255
    ensures es[n] == BySender(Take) ==> ys[n + 1].sender.stage != ys[n].sender.stage
    ensures es[n].ByReceiver? && es[n].r.RTake? ==>
              var (r, r') := (ys[n].receiver, ys[n + 1].receiver);
              match r.stage
              case AwaitOffer => r'.stage == Pending(t.id, t.metadata)
              case AwaitChunk => r'.stage.Completed? || r'.stage.Aborted? || |r'.written| > |r.written|
              case _ => r'.stage != r.stage
  {
    hide OnDownload, OnOffer, OnOpenFrame, OnAckFrame, OnReply, Opening, Offer, Follows, Message, Flatten;
    InvAlways(t, ys, es, n);
    assert Can(t, ys[n], es[n]);
    if es[n] == BySender(Take) {
      SenderTakes(t, ys[n]);
    } else if es[n].ByReceiver? && es[n].r.RTake? {
      OfferIsTaken(t);
      OpeningIsTaken(t);
      if ys[n].receiver.stage.AwaitChunk? {
        NextDownload(t, ys[n], es[n].r.failsAt);
      } else {
        ReceiverOpens(t, ys[n], es[n].r.failsAt);
      }
    }
  }

  /** Chunks flow only after the receiver's acceptance was sent and read, and each fits the receiver's buffer. */
  lemma ChunksOnlyAfterAccept(t: Transfer, ys: seq<System>, es: seq<Event>, n: nat)
    requires IsRun(t, ys, es) && n < |ys| && |ys[n].sender.sent| > 2
    ensures Accepted(ys[n].receiver.sent) && Ftp.FromBytes(ys[n].receiver.sent[1].bytes) == Some(Ftp.AcceptFile)
    ensures forall i :: 2 <= i < |ys[n].sender.sent| ==> |ys[n].sender.sent[i].bytes| <= 517
  {
    InvAlways(t, ys, es, n);
    var s := ys[n].sender;
    forall i | 2 <= i < |s.sent|
      ensures |s.sent[i].bytes| <= MESSAGE_BUFFER
    {
      assert s.sent[i] == Script(t, s.parts)[i];
      if i < 2 + |s.parts| {
        ChunkFits(s.parts[i - 2]);
      }
    }
  }

  /** What is on the receiver's disk is always the head of the file. */
  lemma AlwaysPrefix(t: Transfer, ys: seq<System>, es: seq<Event>, n: nat)
    requires IsRun(t, ys, es) && n < |ys|
    ensures ys[n].receiver.written <= t.file
  {
    InvAlways(t, ys, es, n);
  }

  /** A completed download is the file up to where the sender stopped: all of it exactly when that is the end. */
  lemma CompletedExact(t: Transfer, ys: seq<System>, es: seq<Event>, n: nat)
    requires IsRun(t, ys, es) && n < |ys| && ys[n].receiver.stage.Completed?
    ensures ys[n].sender.stage.Ended? && Offset(ys[n].sender) <= |t.file|
    ensures ys[n].receiver.written == t.file[..Offset(ys[n].sender)]
    ensures ys[n].receiver.written == t.file <==> Offset(ys[n].sender) == |t.file|
    ensures ys[n].sender.stage.cause == EndOfData ==> ys[n].receiver.written == t.file
  {
    InvAlways(t, ys, es, n);
  }
}
