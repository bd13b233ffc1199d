/** How file transfers end: without a fault always well, with one possibly cut short. */
module FileTransferProgress {
  import opened Common
  import opened DataChannels
  import opened FileTransfer
  import opened FileTransferSafety
  import Ftp
  import Dcep

  /** Both names fit their length fields and the buffers they are read into. */
  predicate Fits(t: Transfer) {
    |t.metadata.name| <= 255 && 12 + |t.metadata.name| + |t.protocol| <= Dcep.BUFFER
  }

  predicate SenderFault(e: SenderEvent) {
    match e
    case Drop => true
    case Send(ok) => !ok
    case Give => true
    case Chunk(_, ok) => !ok
    case FileError => true
    case _ => false
  }

  predicate ReceiverFault(e: ReceiverEvent) {
    match e
    case RDrop => true
    case RSend(ok) => !ok
    case RGive => true
    case RTake(failsAt) => failsAt.Some?
    case Create(ok) => !ok
    case _ => false
  }

  predicate Fault(e: Event) {
    match e
    case BySender(s) => SenderFault(s)
    case ByReceiver(r) => ReceiverFault(r)
  }

  // ----- completion without a fault of the sender

  /** The sender is connected and, if its loop has ended, it ended at the end of the file. */
  predicate Clean(s: Sender) {
    s.connected && !s.stage.Failed?
    && (s.stage.ToEnd? || s.stage.Ended? ==> s.stage.cause == EndOfData)
  }

  lemma StaysClean(t: Transfer, y: System, e: Event)
    requires Inv(t, y) && Can(t, y, e) && Clean(y.sender)
    requires e.BySender? ==> !SenderFault(e.s)
    ensures Clean(Step(t, y, e).sender)
  {
    hide OnAckFrame, OnReply, Opening, Offer, Message, Follows, GoodParts, ReceiverOk, ReceiverStep;
    if e == BySender(Take) {
      SenderTakes(t, y);
    }
  }

  lemma {:induction false} CleanAlways(t: Transfer, ys: seq<System>, es: seq<Event>, n: nat)
    requires IsRun(t, ys, es) && n < |ys|
    requires forall i :: 0 <= i < n && es[i].BySender? ==> !SenderFault(es[i].s)
    ensures Clean(ys[n].sender)
  {
    hide Inv, Step, Can;
    if n > 0 {
      CleanAlways(t, ys, es, n - 1);
      InvAlways(t, ys, es, n - 1);
      assert Can(t, ys[n - 1], es[n - 1]);
      StaysClean(t, ys[n - 1], es[n - 1]);
    } else {
      assert ys[0] == START;
    }
  }

  /** A download that completes without an error or a lost connection on the sender's side is the whole file. */
  lemma CleanCompletionIsWhole(t: Transfer, ys: seq<System>, es: seq<Event>)
    requires IsRun(t, ys, es) && ys[|es|].receiver.stage.Completed?
    requires forall i :: 0 <= i < |es| && es[i].BySender? ==> !SenderFault(es[i].s)
    ensures ys[|es|].receiver.written == t.file
  {
    CleanAlways(t, ys, es, |es|);
    CompletedExact(t, ys, es, |es|);
  }

  // ----- runs without any fault

  function SenderRank(s: SendStage): nat {
    match s
    case ToOpen => 7
    case AwaitAck => 6
    case ToOffer => 5
    case AwaitReply => 4
    case AtCheck => 3
    case ToRead => 2
    case ToEnd(_) => 1
    case _ => 0
  }

  function ReceiverRank(s: ReceiveStage): nat {
    match s
    case AwaitOpen => 9
    case ToAck => 8
    case AwaitOffer => 7
    case Pending(_, _) => 6
    case ToAccept => 5
    case ToReject => 5
    case ToCreate => 4
    case AtLoop => 3
    case AwaitChunk => 2
    case _ => 0
  }

  /** An upper bound of the steps left: two for each byte and those of the stages. */
  function StepsLeft(t: Transfer, y: System): nat
    requires Inv(t, y)
  {
    SenderLeft(t, y.sender) + ReceiverLeft(t, y.receiver)
  }

  function SenderLeft(t: Transfer, s: Sender): nat
    requires Offset(s) <= |t.file|
  {
    2 * (|t.file| - Offset(s)) + SenderRank(s.stage)
  }

  function ReceiverLeft(t: Transfer, r: Receiver): nat
    requires |r.written| <= |t.file|
  {
    2 * (|t.file| - |r.written|) + ReceiverRank(r.stage)
  }

  predicate Sound(t: Transfer, y: System) {
    Inv(t, y) && Clean(y.sender) && y.receiver.connected && !y.receiver.stage.Aborted?
  }

  lemma SenderStepShrinks(t: Transfer, y: System, e: SenderEvent)
    requires Sound(t, y) && Can(t, y, BySender(e)) && !SenderFault(e)
    ensures Sound(t, Step(t, y, BySender(e)))
    ensures StepsLeft(t, Step(t, y, BySender(e))) < StepsLeft(t, y)
  {
    StepKeepsInv(t, y, BySender(e));
    StaysClean(t, y, BySender(e));
    hide Inv, Can, SenderStep, Clean;
    StepsShrink(t, y, e);
  }

  lemma StepsShrink(t: Transfer, y: System, e: SenderEvent)
    requires Inv(t, y) && Can(t, y, BySender(e)) && y.sender.connected && !SenderFault(e)
    requires Inv(t, Step(t, y, BySender(e)))
    ensures StepsLeft(t, Step(t, y, BySender(e))) < StepsLeft(t, y)
  {
    hide Inv, Flatten, Opening, Offer, Message, OnAckFrame, OnReply;
    if e.Take? {
      SenderTakes(t, y);
    } else if e.Chunk? && e.length > 0 {
      FlattenAppend(y.sender.parts, t.file[Offset(y.sender)..Offset(y.sender) + e.length]);
    }
  }

  /** A frame moves the receiver on: it opens, learns of the offer, writes a chunk or completes. */
  predicate MovedOn(t: Transfer, r: Receiver, r': Receiver) {
    && r'.connected == r.connected
    && match r.stage
       case AwaitOpen => r'.stage == ToAck && r'.written == r.written
       case AwaitOffer => r'.stage == Pending(t.id, t.metadata) && r'.written == r.written
       case _ => || (r'.stage == AtLoop && |r'.written| > |r.written|)
                 || (r'.stage == Completed && r'.written == r.written)
  }

  lemma TakenWell(t: Transfer, y: System)
    requires Fits(t) && Inv(t, y) && Can(t, y, ByReceiver(RTake(None)))
    ensures MovedOn(t, y.receiver, ReceiverStep(y.receiver, y.sender.sent, RTake(None)))
  {
    hide Flatten, Opening, Offer, Message, OnOpenFrame, OnOffer, OnDownload, Follows;
    if y.receiver.stage.AwaitChunk? {
      NextDownload(t, y, None);
    } else {
      ReceiverOpens(t, y, None);
      OpeningIsTaken(t);
      OfferIsTaken(t);
    }
  }

  lemma ReceiverShrinks(t: Transfer, r: Receiver, inbox: seq<Frame>, e: ReceiverEvent)
    requires ReceiverCan(r, inbox, e) && !ReceiverFault(e) && r.connected
    requires e.RTake? ==> MovedOn(t, r, ReceiverStep(r, inbox, e))
    requires |r.written| <= |t.file| && |ReceiverStep(r, inbox, e).written| <= |t.file|
    ensures var r' := ReceiverStep(r, inbox, e);
            r'.connected && !r'.stage.Aborted? && ReceiverLeft(t, r') < ReceiverLeft(t, r)
  {
    hide OnOpenFrame, OnOffer, OnDownload, Message;
  }

  lemma ReceiverStepShrinks(t: Transfer, y: System, e: ReceiverEvent)
    requires Fits(t) && Sound(t, y) && Can(t, y, ByReceiver(e)) && !ReceiverFault(e)
    ensures Sound(t, Step(t, y, ByReceiver(e)))
    ensures StepsLeft(t, Step(t, y, ByReceiver(e))) < StepsLeft(t, y)
  {
    hide Inv, Clean, ReceiverStep, SenderLeft, ReceiverLeft, MovedOn, Flatten;
    StepKeepsInv(t, y, ByReceiver(e));
    if e.RTake? {
      TakenWell(t, y);
    }
    WrittenInFile(t, y);
    WrittenInFile(t, Step(t, y, ByReceiver(e)));
    ReceiverShrinks(t, y.receiver, y.sender.sent, e);
  }

  lemma WrittenInFile(t: Transfer, y: System)
    requires Inv(t, y)
    ensures |y.receiver.written| <= |t.file|
  {
    hide Follows, Flatten, OnOffer, Message, Offer;
  }

  /** Without a fault, every step brings the end nearer. */
  lemma StepShrinks(t: Transfer, y: System, e: Event)
    requires Fits(t) && Sound(t, y) && Can(t, y, e) && !Fault(e)
    ensures Sound(t, Step(t, y, e)) && StepsLeft(t, Step(t, y, e)) < StepsLeft(t, y)
  {
    match e
    case BySender(s) => SenderStepShrinks(t, y, s);
    case ByReceiver(r) => ReceiverStepShrinks(t, y, r);
  }

  /** The whole file has arrived, or the receiver refused it and the sender knows. */
  predicate Finished(t: Transfer, y: System) {
    || (y.sender.stage == Ended(EndOfData) && y.receiver.stage == Completed && y.receiver.written == t.file)
    || (y.sender.stage == Declined && y.receiver.stage == Refused)
  }

  lemma RepliesApart(sent: seq<Frame>)
    ensures Acked(sent) ==> |sent| == 1
    ensures Accepted(sent) ==> |sent| == 2 && !Rejected(sent)
    ensures Rejected(sent) ==> |sent| == 2
  {
  }

  /** When both sides wait for a frame or are done, one has a frame to take or the transfer has finished. */
  lemma WaitersMeet(t: Transfer, y: System)
    requires Sound(t, y) && OnOffer(Offer(t)) != AwaitOffer
    requires y.sender.stage.AwaitAck? || y.sender.stage.AwaitReply? || y.sender.stage.Ended? || y.sender.stage.Declined?
    requires y.receiver.stage.AwaitOpen? || y.receiver.stage.AwaitOffer? || y.receiver.stage.AwaitChunk?
             || y.receiver.stage.Completed? || y.receiver.stage.Refused?
    ensures Can(t, y, ByReceiver(RTake(None))) || Can(t, y, BySender(Take)) || Finished(t, y)
  {
    RepliesApart(y.receiver.sent);
    hide Follows, GoodParts, Opening, Message, Offer, OnOffer, Flatten, Acked, Accepted, Rejected;
  }

  lemma OffsetInFile(t: Transfer, y: System)
    requires Inv(t, y)
    ensures Offset(y.sender) <= |t.file|
  {
    hide Follows, Flatten, OnOffer, Message;
  }

  /** Without a fault, a transfer that has not finished can go on. */
  lemma GoesOn(t: Transfer, y: System) returns (e: Event)
    requires Fits(t) && Sound(t, y) && !Finished(t, y)
    ensures Can(t, y, e) && !Fault(e)
  {
    hide Inv, Finished, OnOffer, Offer, Flatten;
    OffsetInFile(t, y);
    match y.sender.stage
    case ToOpen => e := BySender(Send(true));
    case ToOffer => e := BySender(Send(true));
    case ToEnd(_) => e := BySender(Send(true));
    case AtCheck => e := BySender(Check);
    case ToRead => e := BySender(Chunk(Min(CHUNK_SIZE, |t.file| - Offset(y.sender)), true));
    case _ =>
      OfferIsTaken(t);
      e := ReceiverGoesOn(t, y);
  }

  lemma ReceiverGoesOn(t: Transfer, y: System) returns (e: Event)
    requires Sound(t, y) && !Finished(t, y) && OnOffer(Offer(t)) != AwaitOffer
    requires y.sender.stage.AwaitAck? || y.sender.stage.AwaitReply? || y.sender.stage.Ended? || y.sender.stage.Declined?
    ensures Can(t, y, e) && !Fault(e)
  {
    hide Inv, Finished, OnOffer, Offer, Flatten, Clean;
    match y.receiver.stage
    case ToAck => e := ByReceiver(RSend(true));
    case Pending(_, _) => e := ByReceiver(Decide(true));
    case ToAccept => e := ByReceiver(RSend(true));
    case ToReject => e := ByReceiver(RSend(true));
    case ToCreate => e := ByReceiver(Create(true));
    case AtLoop => e := ByReceiver(RCheck);
    case _ =>
      WaitersMeet(t, y);
      e := if Can(t, y, ByReceiver(RTake(None))) then ByReceiver(RTake(None)) else BySender(Take);
  }

  lemma {:induction false} FaultlessRun(t: Transfer, ys: seq<System>, es: seq<Event>, n: nat)
    requires IsRun(t, ys, es) && n <= |es| && Fits(t)
    requires forall i :: 0 <= i < n ==> !Fault(es[i])
    ensures Sound(t, ys[n]) && Inv(t, START) && StepsLeft(t, ys[n]) + n <= StepsLeft(t, START)
  {
    hide Step, Can, Fault, Sound, StepsLeft;
    if n > 0 {
      FaultlessRun(t, ys, es, n - 1);
      assert Can(t, ys[n - 1], es[n - 1]);
      StepShrinks(t, ys[n - 1], es[n - 1]);
    } else {
      InvAlways(t, ys, es, 0);
      StartSound(t);
    }
  }

  lemma StartSound(t: Transfer)
    requires Inv(t, START)
    ensures Sound(t, START)
  {
  }

  /** Runs without a fault are bounded, and one that cannot go on has delivered the file or been refused. */
  lemma MaximalRunFinishes(t: Transfer, ys: seq<System>, es: seq<Event>)
    requires IsRun(t, ys, es) && Fits(t) && forall e <- es :: !Fault(e)
    ensures |es| <= 4 * |t.file| + 16
    ensures (forall e :: Can(t, ys[|es|], e) ==> Fault(e)) ==> Finished(t, ys[|es|])
  {
    FaultlessRun(t, ys, es, |es|);
    if !Finished(t, ys[|es|]) {
      var e := GoesOn(t, ys[|es|]);
    }
  }

  // ----- a completed download that is not the file

  lemma Extend(t: Transfer, ys: seq<System>, es: seq<Event>, e: Event) returns (ys': seq<System>, es': seq<Event>)
    requires IsRun(t, ys, es) && Can(t, ys[|es|], e)
    ensures es' == es + [e] && |ys'| == |es'| + 1 && ys'[|es'|] == Step(t, ys[|es|], e) && IsRun(t, ys', es')
  {
    es' := es + [e];
    ys' := ys + [Step(t, ys[|es|], e)];
  }

  lemma NoSteps(t: Transfer)
    ensures IsRun(t, [START], [])
  {
  }

  /** Up to the acknowledged channel. */
  lemma Opened(t: Transfer) returns (ys: seq<System>, es: seq<Event>)
    requires Fits(t)
    ensures IsRun(t, ys, es) && |ys| == |es| + 1
    ensures ys[|es|] == System(Sender(ToOffer, [], [Opening(t)], 1, true),
                               Receiver(AwaitOffer, [], [ACK_FRAME], 1, true))
  {
    hide IsRun, OnAckFrame, OnOpenFrame, Opening;
    AckIsTaken();
    OpeningIsTaken(t);
    NoSteps(t);
    ys, es := Extend(t, [START], [], BySender(Send(true)));
    ys, es := Extend(t, ys, es, ByReceiver(RTake(None)));
    ys, es := Extend(t, ys, es, ByReceiver(RSend(true)));
    ys, es := Extend(t, ys, es, BySender(Take));
  }

  /** Up to the acceptance, with nothing sent of the file yet. */
  lemma Negotiated(t: Transfer) returns (ys: seq<System>, es: seq<Event>)
    requires Fits(t)
    ensures IsRun(t, ys, es) && |ys| == |es| + 1
    ensures ys[|es|] == System(Sender(AtCheck, [], [Opening(t), Offer(t)], 2, true),
                               Receiver(ToCreate, [], [ACK_FRAME, Message(Ftp.AcceptFile)], 2, true))
  {
    hide IsRun, OnOffer, OnReply, Opening, Offer, Message;
    OfferIsTaken(t);
    RepliesAreTaken();
    ys, es := Opened(t);
    ys, es := Extend(t, ys, es, BySender(Send(true)));
    ys, es := Extend(t, ys, es, ByReceiver(RTake(None)));
    ys, es := Extend(t, ys, es, ByReceiver(Decide(true)));
    ys, es := Extend(t, ys, es, ByReceiver(RSend(true)));
    ys, es := Extend(t, ys, es, BySender(Take));
  }

  /**
   * The end-of-file message goes out after a lost connection too: for every file there is a run in
   * which the receiver reports completion and has nothing of it.
   */
  lemma LostConnectionCompletesCut(t: Transfer) returns (ys: seq<System>, es: seq<Event>)
    requires Fits(t)
    ensures IsRun(t, ys, es) && |ys| == |es| + 1
    ensures ys[|es|].receiver.stage == Completed && ys[|es|].receiver.written == []
    ensures ys[|es|].sender.stage == Ended(Disconnected)
  {
    EndIsTaken([], None);
    ys, es := Negotiated(t);
    hide IsRun, OnDownload, Opening, Offer, Message;
    ys, es := Extend(t, ys, es, BySender(Drop));
    ys, es := Extend(t, ys, es, BySender(Check));
    ys, es := Extend(t, ys, es, BySender(Send(true)));
    ys, es := Extend(t, ys, es, ByReceiver(Create(true)));
    ys, es := Extend(t, ys, es, ByReceiver(RCheck));
    ys, es := Extend(t, ys, es, ByReceiver(RTake(None)));
  }
}
