/** One file transfer between a sending and a receiving peer (src/file/file_transferer/transferer.rs). */
module FileTransfer {
  import opened Common
  import opened Utf8
  import opened DataChannels
  import Ftp
  import Dcep

  const CHUNK_SIZE: nat := 512
  const MESSAGE_BUFFER: nat := 517
  const REPLY_BUFFER: nat := 1024

  /** What is sent: the file and what its offer says; `protocol` is the text of the binary payload identifier. */
  datatype Transfer = Transfer(file: seq<u8>, metadata: Ftp.Metadata, id: u32, protocol: Text)

  function Message(m: Ftp.Message): Frame {
    Frame(false, Ftp.ToBytes(m))
  }

  function Opening(t: Transfer): Frame {
    OpenFrame(t.metadata.name, t.protocol)
  }

  function Offer(t: Transfer): Frame {
    Message(Ftp.FileOffer(t.id, t.metadata))
  }

  /** `recv`: the whole message, or an error if it is longer than the buffer. */
  function Receive(f: Frame, capacity: nat): Result<Option<Ftp.Message>, ()> {
    if |f.bytes| > capacity then Err(()) else Ok(Ftp.FromBytes(f.bytes))
  }

  // ----- the sending peer

  /** Why the sending loop ended. */
  datatype Cause = EndOfData | Disconnected | ReadFailed | SendFailed

  datatype SendStage =
    | ToOpen | AwaitAck | ToOffer | AwaitReply
    | AtCheck | ToRead | ToEnd(cause: Cause)
    | Ended(cause: Cause) | Declined | Failed

  /** `parts` are the chunks handed to the channel, `read` the frames taken from it. */
  datatype Sender = Sender(stage: SendStage, parts: seq<seq<u8>>, sent: seq<Frame>, read: nat, connected: bool)

  datatype SenderEvent =
    | Drop
    | Send(ok: bool)
    | Take
    | Give
    | Check
    | Chunk(length: nat, ok: bool)
    | FileError

  function Offset(s: Sender): nat {
    |Flatten(s.parts)|
  }

  /** `Give` stands for the timeout and for read errors of the channel. */
  predicate SenderCan(t: Transfer, s: Sender, inbox: seq<Frame>, e: SenderEvent) {
    match e
    case Drop => true
    case Send(_) => s.stage.ToOpen? || s.stage.ToOffer? || s.stage.ToEnd?
    case Take => (s.stage.AwaitAck? || s.stage.AwaitReply?) && s.read < |inbox|
    case Give => s.stage.AwaitAck? || s.stage.AwaitReply?
    case Check => s.stage.AtCheck?
    case Chunk(length, _) =>
      s.stage.ToRead? && length <= CHUNK_SIZE && Offset(s) + length <= |t.file|
      && (length == 0 ==> Offset(s) == |t.file|)
    case FileError => s.stage.ToRead?
  }

  function OnReply(f: Frame): SendStage {
    match Receive(f, REPLY_BUFFER)
    case Err(_) => Failed
    case Ok(m) =>
      if m == Some(Ftp.AcceptFile) then AtCheck
      else if m == Some(Ftp.RejectFile) then Declined
      else AwaitReply
  }

  function SenderStep(t: Transfer, s: Sender, inbox: seq<Frame>, e: SenderEvent): Sender
    requires SenderCan(t, s, inbox, e)
  {
    match e
    case Drop => s.(connected := false)
    case Send(ok) =>
      if !ok then s.(stage := Failed)
      else if s.stage.ToOpen? then s.(stage := AwaitAck, sent := s.sent + [Opening(t)])
      else if s.stage.ToOffer? then s.(stage := AwaitReply, sent := s.sent + [Offer(t)])
      else s.(stage := Ended(s.stage.cause), sent := s.sent + [Message(Ftp.EndOfFile)])
    case Take =>
      var f := inbox[s.read];
      var stage :=
        if s.stage.AwaitReply? then OnReply(f)
        else match OnAckFrame(f) case Again => AwaitAck case Done => ToOffer case Broken => Failed;
      s.(stage := stage, read := s.read + 1)
    case Give => s.(stage := Failed)
    case Check => s.(stage := if s.connected then ToRead else ToEnd(Disconnected))
    case Chunk(length, ok) =>
      if length == 0 then s.(stage := ToEnd(EndOfData))
      else if !ok then s.(stage := ToEnd(SendFailed))
      else
        var payload := t.file[Offset(s)..Offset(s) + length];
        s.(stage := AtCheck, parts := s.parts + [payload], sent := s.sent + [Message(Ftp.FileChunk(payload))])
    case FileError => s.(stage := ToEnd(ReadFailed))
  }

  // ----- the receiving peer

  datatype ReceiveStage =
    | AwaitOpen | ToAck | AwaitOffer | Pending(id: u32, metadata: Ftp.Metadata)
    | ToAccept | ToReject | ToCreate | AtLoop | AwaitChunk
    | Completed | Refused | Aborted

  datatype Receiver = Receiver(stage: ReceiveStage, written: seq<u8>, sent: seq<Frame>, read: nat, connected: bool)

  /** A write may fail after some of the bytes; a decision is the user's. */
  datatype ReceiverEvent =
    | RDrop
    | RSend(ok: bool)
    | RTake(failsAt: Option<nat>)
    | RGive
    | Decide(accept: bool)
    | Create(ok: bool)
    | RCheck

  predicate ReceiverCan(r: Receiver, inbox: seq<Frame>, e: ReceiverEvent) {
    match e
    case RDrop => true
    case RSend(_) => r.stage.ToAck? || r.stage.ToAccept? || r.stage.ToReject?
    case RTake(_) => (r.stage.AwaitOpen? || r.stage.AwaitOffer? || r.stage.AwaitChunk?) && r.read < |inbox|
    case RGive => r.stage.AwaitOpen? || r.stage.AwaitOffer? || r.stage.AwaitChunk?
    case Decide(_) => r.stage.Pending?
    case Create(_) => r.stage.ToCreate?
    case RCheck => r.stage.AtLoop?
  }

  function OnOffer(f: Frame): ReceiveStage {
    match Receive(f, MESSAGE_BUFFER)
    case Err(_) => Aborted
    case Ok(Some(FileOffer(id, metadata))) => Pending(id, metadata)
    case Ok(_) => AwaitOffer
  }

  /** The stage and the file after a message of the download. */
  function OnDownload(written: seq<u8>, f: Frame, failsAt: Option<nat>): (ReceiveStage, seq<u8>) {
    match Receive(f, MESSAGE_BUFFER)
    case Err(_) => (Aborted, written)
    case Ok(m) =>
      if f.bytes == [] then (Aborted, written)
      else match m
        case Some(FileChunk(payload)) =>
          if failsAt.None? then (AtLoop, written + payload)
          else (Aborted, written + payload[..Min(failsAt.value, |payload|)])
        case Some(EndOfFile) => (Completed, written)
        case _ => (AtLoop, written)
  }

  function ReceiverStep(r: Receiver, inbox: seq<Frame>, e: ReceiverEvent): Receiver
    requires ReceiverCan(r, inbox, e)
  {
    match e
    case RDrop => r.(connected := false)
    case RSend(ok) =>
      if !ok then r.(stage := Aborted)
      else if r.stage.ToAck? then r.(stage := AwaitOffer, sent := r.sent + [ACK_FRAME])
      else if r.stage.ToAccept? then r.(stage := ToCreate, sent := r.sent + [Message(Ftp.AcceptFile)])
      else r.(stage := Refused, sent := r.sent + [Message(Ftp.RejectFile)])
    case RTake(failsAt) =>
      var f := inbox[r.read];
      if r.stage.AwaitOpen? then
        r.(read := r.read + 1,
           stage := match OnOpenFrame(f) case Again => AwaitOpen case Done => ToAck case Broken => Aborted)
      else if r.stage.AwaitOffer? then r.(read := r.read + 1, stage := OnOffer(f))
      else
        var (stage, written) := OnDownload(r.written, f, failsAt);
        r.(read := r.read + 1, stage := stage, written := written)
    case RGive => r.(stage := Aborted)
    case Decide(accept) => r.(stage := if accept then ToAccept else ToReject)
    case Create(ok) => r.(stage := if ok then AtLoop else Aborted)
    case RCheck => r.(stage := if r.connected then AwaitChunk else Aborted)
  }

  // ----- both

  datatype System = System(sender: Sender, receiver: Receiver)

  datatype Event = BySender(s: SenderEvent) | ByReceiver(r: ReceiverEvent)

  const START: System := System(Sender(ToOpen, [], [], 0, true), Receiver(AwaitOpen, [], [], 0, true))

  predicate Can(t: Transfer, y: System, e: Event) {
    match e
    case BySender(s) => SenderCan(t, y.sender, y.receiver.sent, s)
    case ByReceiver(r) => ReceiverCan(y.receiver, y.sender.sent, r)
  }

  function Step(t: Transfer, y: System, e: Event): System
    requires Can(t, y, e)
  {
    match e
    case BySender(s) => y.(sender := SenderStep(t, y.sender, y.receiver.sent, s))
    case ByReceiver(r) => y.(receiver := ReceiverStep(y.receiver, y.sender.sent, r))
  }

  predicate IsRun(t: Transfer, ys: seq<System>, es: seq<Event>) {
    && |ys| == |es| + 1 && ys[0] == START
    && forall i :: 0 <= i < |es| ==> Can(t, ys[i], es[i]) && ys[i + 1] == Step(t, ys[i], es[i])
  }

  // ----- the invariant

  /** Everything a sender that hands over `parts` may send, in order. */
  function Script(t: Transfer, parts: seq<seq<u8>>): (r: seq<Frame>)
    ensures |r| == |parts| + 3
  {
    [Opening(t), Offer(t)] + seq(|parts|, i requires 0 <= i < |parts| => Message(Ftp.FileChunk(parts[i])))
    + [Message(Ftp.EndOfFile)]
  }

  predicate Follows(t: Transfer, parts: seq<seq<u8>>, sent: seq<Frame>) {
    |sent| <= 3 + |parts| && sent == Script(t, parts)[..|sent|]
  }

  /** How much of its script a sender has sent. */
  predicate SentSoFar(s: Sender) {
    match s.stage
    case ToOpen => |s.sent| == 0
    case AwaitAck => |s.sent| == 1
    case ToOffer => |s.sent| == 1
    case AwaitReply => |s.sent| == 2
    case AtCheck => |s.sent| == 2 + |s.parts|
    case ToRead => |s.sent| == 2 + |s.parts|
    case ToEnd(_) => |s.sent| == 2 + |s.parts|
    case Ended(_) => |s.sent| == 3 + |s.parts|
    case Declined => |s.sent| == 2
    case Failed => |s.sent| <= 2 + |s.parts|
  }

  predicate ReadSoFar(s: Sender) {
    match s.stage
    case ToOpen => s.read == 0
    case AwaitAck => s.read == 0
    case ToOffer => s.read == 1
    case AwaitReply => s.read == 1
    case Failed => true
    case _ => s.read == 2
  }

  // What the receiver has sent so far.
  predicate Acked(sent: seq<Frame>) {
    sent == [ACK_FRAME]
  }

  predicate Accepted(sent: seq<Frame>) {
    sent == [ACK_FRAME, Message(Ftp.AcceptFile)]
  }

  predicate Rejected(sent: seq<Frame>) {
    sent == [ACK_FRAME, Message(Ftp.RejectFile)]
  }

  predicate GoodParts(t: Transfer, parts: seq<seq<u8>>) {
    (forall p <- parts :: 0 < |p| <= CHUNK_SIZE) && Flatten(parts) <= t.file
  }

  predicate SenderOk(t: Transfer, s: Sender, r: Receiver) {
    && Follows(t, s.parts, s.sent)
    && SentSoFar(s) && ReadSoFar(s) && s.read <= |r.sent|
    && GoodParts(t, s.parts)
    && (s.parts != [] ==> |s.sent| >= 2 + |s.parts|)
    && (s.stage.AtCheck? || s.stage.ToRead? || s.stage.ToEnd? || s.stage.Ended? || |s.sent| > 2 ==> Accepted(r.sent))
    && (s.stage.Declined? ==> Rejected(r.sent))
    && ((s.stage == ToEnd(EndOfData) || s.stage == Ended(EndOfData)) ==> Flatten(s.parts) == t.file)
  }

  /** The receiver has taken the two opening frames and some chunks, and has written those. */
  predicate Downloading(s: Sender, r: Receiver) {
    Accepted(r.sent) && 2 <= r.read <= 2 + |s.parts| && r.written == Flatten(s.parts[..r.read - 2])
  }

  predicate ReceiverOk(t: Transfer, s: Sender, r: Receiver) {
    && r.read <= |s.sent|
    && r.written <= Flatten(s.parts)
    && match r.stage
       case AwaitOpen => r.read == 0 && r.sent == [] && r.written == []
       case ToAck => r.read == 1 && r.sent == [] && r.written == []
       case AwaitOffer => Acked(r.sent) && r.written == []
         && (r.read == 1 || (r.read == 2 && OnOffer(Offer(t)) == AwaitOffer))
       case Pending(_, _) => r.read == 2 && Acked(r.sent) && r.written == [] && r.stage == OnOffer(Offer(t))
       case ToAccept => r.read == 2 && Acked(r.sent) && r.written == []
       case ToReject => r.read == 2 && Acked(r.sent) && r.written == []
       case ToCreate => Downloading(s, r) && r.read == 2
       case AtLoop => Downloading(s, r)
       case AwaitChunk => Downloading(s, r)
       case Completed => s.stage.Ended? && r.written == Flatten(s.parts)
       case Refused => Rejected(r.sent) && r.written == []
       case Aborted => r.sent == [] || Acked(r.sent) || Accepted(r.sent)
  }

  predicate Inv(t: Transfer, y: System) {
    SenderOk(t, y.sender, y.receiver) && ReceiverOk(t, y.sender, y.receiver)
  }

  // ----- what each frame is to whom it reaches

  lemma AckIsTaken()
    ensures OnAckFrame(ACK_FRAME) == Done
  {
    Dcep.ReadExact(Dcep.Ack);
  }

  /** The opening message is taken, or is too long for the buffer; it is never skipped. */
  lemma OpeningIsTaken(t: Transfer)
    ensures OnOpenFrame(Opening(t)) == if 12 + |t.metadata.name| + |t.protocol| <= Dcep.BUFFER then Done else Broken
  {
    Dcep.ReadExact(Dcep.Open(0, 0, t.metadata.name, t.protocol));
  }

  lemma OfferIsTaken(t: Transfer)
    requires |t.metadata.name| <= 255
    ensures OnOffer(Offer(t)) == Pending(t.id, t.metadata)
  {
    Ftp.RoundTripExact(Ftp.FileOffer(t.id, t.metadata));
  }

  lemma ChunkFits(p: seq<u8>)
    requires 0 < |p| <= CHUNK_SIZE
    ensures |Ftp.ToBytes(Ftp.FileChunk(p))| <= MESSAGE_BUFFER
    ensures forall written: seq<u8> ::
              OnDownload(written, Message(Ftp.FileChunk(p)), None) == (AtLoop, written + p)
    ensures forall written: seq<u8>, k: nat ::
              OnDownload(written, Message(Ftp.FileChunk(p)), Some(k)) == (Aborted, written + p[..Min(k, |p|)])
  {
    Ftp.RoundTripExact(Ftp.FileChunk(p));
  }

  lemma EndIsTaken(written: seq<u8>, failsAt: Option<nat>)
    ensures OnDownload(written, Message(Ftp.EndOfFile), failsAt) == (Completed, written)
  {
    Ftp.RoundTripExact(Ftp.EndOfFile);
  }

  lemma RepliesAreTaken()
    ensures OnReply(Message(Ftp.AcceptFile)) == AtCheck && OnReply(Message(Ftp.RejectFile)) == Declined
  {
  }

  lemma ScriptGrows(t: Transfer, parts: seq<seq<u8>>, p: seq<u8>)
    ensures Script(t, parts + [p])[..3 + |parts|] == Script(t, parts)[..2 + |parts|] + [Message(Ftp.FileChunk(p))]
  {
  }

  /** A piece of the parts, and what the next one adds. */
  lemma {:induction false} PiecesGrow(parts: seq<seq<u8>>, k: nat)
    requires k <= |parts|
    ensures Flatten(parts[..k]) <= Flatten(parts)
    ensures k < |parts| ==> Flatten(parts[..k + 1]) == Flatten(parts[..k]) + parts[k]
  {
    if k < |parts| {
      assert parts[..k + 1] == parts[..k] + [parts[k]];
      FlattenAppend(parts[..k], parts[k]);
      if k > 0 {
        assert parts[1..][..k] == parts[1..k + 1];
      }
    }
    FlattenSplit(parts, k);
  }
}
