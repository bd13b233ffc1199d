/** The loops and the table of pending offers of `FileTransferer`, on scripted channels and disks. */
module FileTransferClass {
  import opened Common
  import opened DataChannels
  import opened FileTransfer
  import Ftp

  // ----- negotiation

  /** What a `recv` yields: a frame or an error. */
  type Received = Option<Frame>

  function ReplyTo(r: Received): SendStage {
    if r.None? then Failed else OnReply(r.value)
  }

  /** Sends the offer and waits; receptions that are no reply are skipped. */
  method FileOfferAccepted(dc: DataChannel, t: Transfer, sendOk: bool, received: seq<Received>)
    returns (stage: SendStage, used: nat)
    modifies dc
    ensures dc.sent == old(dc.sent) + if sendOk then [Offer(t)] else []
    ensures if !sendOk then stage == Failed
            else && used <= |received|
                 && (forall i :: 0 <= i < used ==> ReplyTo(received[i]) == AwaitReply)
                 && stage == (if used < |received| then ReplyTo(received[used]) else AwaitReply)
                 && (used < |received| ==> stage != AwaitReply)
  {
    if !sendOk {
      return Failed, 0;
    }
    dc.sent := dc.sent + [Offer(t)];
    used := 0;
    while used < |received|
      invariant used <= |received|
      invariant forall i :: 0 <= i < used ==> ReplyTo(received[i]) == AwaitReply
      invariant dc.sent == old(dc.sent) + [Offer(t)]
    {
      if received[used].None? || |received[used].value.bytes| > REPLY_BUFFER {
        return Failed, used;
      }
      match Ftp.FromBytes(received[used].value.bytes) {
        case Some(RejectFile) => return Declined, used;
        case Some(AcceptFile) => return AtCheck, used;
        case _ =>
      }
      used := used + 1;
    }
    return AwaitReply, used;
  }

  // ----- the sending loop

  /** One pass: the flag, the file read (an error, or how much is read at most) and whether the send works. */
  datatype SendTurn = SendTurn(connected: bool, read: Option<nat>, sendOk: bool)

  /** How many bytes a read yields where `rest` are left: some, unless there are none. */
  function ReadLength(asked: nat, rest: nat): (r: nat)
    ensures r <= CHUNK_SIZE && r <= rest && (r == 0 <==> rest == 0)
  {
    Min(Max(asked, 1), Min(CHUNK_SIZE, rest))
  }

  /** Why the loop stops at pass `i` with `rest` bytes left, if it does; a script ends with the connection. */
  function StopsAt(turns: seq<SendTurn>, i: nat, rest: nat): Option<Cause>
    requires i <= |turns|
  {
    if i == |turns| || !turns[i].connected then Some(Disconnected)
    else if turns[i].read.None? then Some(ReadFailed)
    else if rest == 0 then Some(EndOfData)
    else if !turns[i].sendOk then Some(SendFailed)
    else None
  }

  function ChunkFrames(parts: seq<seq<u8>>): seq<Frame> {
    seq(|parts|, i requires 0 <= i < |parts| => Message(Ftp.FileChunk(parts[i])))
  }

  /** Each pass so far was a good one and sent the next piece of the file. */
  predicate Pieces(file: seq<u8>, turns: seq<SendTurn>, parts: seq<seq<u8>>) {
    && |parts| <= |turns| && Flatten(parts) <= file
    && (forall p <- parts :: 0 < |p| <= CHUNK_SIZE)
    && (forall i :: 0 <= i < |parts| ==> turns[i].connected && turns[i].read.Some? && turns[i].sendOk)
  }

  lemma NextPiece(sent: seq<Frame>, file: seq<u8>, turns: seq<SendTurn>, parts: seq<seq<u8>>, n: nat)
    requires Pieces(file, turns, parts) && |parts| < |turns|
    requires turns[|parts|].connected && turns[|parts|].read.Some? && turns[|parts|].sendOk
    requires 0 < n <= CHUNK_SIZE && |Flatten(parts)| + n <= |file|
    ensures var offset := |Flatten(parts)|;
            var piece := file[offset..offset + n];
            && Pieces(file, turns, parts + [piece]) && |Flatten(parts + [piece])| == offset + n
            && sent + ChunkFrames(parts) + [Message(Ftp.FileChunk(piece))] == sent + ChunkFrames(parts + [piece])
  {
    hide Message, Flatten;
    var offset := |Flatten(parts)|;
    FlattenAppend(parts, file[offset..offset + n]);
    assert file[..offset] + file[offset..offset + n] == file[..offset + n];
    assert ChunkFrames(parts + [file[offset..offset + n]])
        == ChunkFrames(parts) + [Message(Ftp.FileChunk(file[offset..offset + n]))];
  }

  lemma NoPieces(sent: seq<Frame>, file: seq<u8>, turns: seq<SendTurn>)
    ensures Pieces(file, turns, []) && |Flatten<u8>([])| == 0 && sent + ChunkFrames([]) == sent
  {
  }

  /** Sends the file piece by piece, then the end in any case. */
  method SendAccepted(dc: DataChannel, file: seq<u8>, turns: seq<SendTurn>, endOk: bool)
    returns (parts: seq<seq<u8>>, cause: Cause)
    modifies dc
    ensures Pieces(file, turns, parts)
    ensures StopsAt(turns, |parts|, |file| - |Flatten(parts)|) == Some(cause)
    ensures dc.sent == old(dc.sent) + ChunkFrames(parts) + if endOk then [Message(Ftp.EndOfFile)] else []
  {
    parts, cause := SendPieces(dc, file, turns);
    if endOk {
      dc.sent := dc.sent + [Message(Ftp.EndOfFile)];
    }
  }

  /** One piece for each pass but the last. */
  method SendPieces(dc: DataChannel, file: seq<u8>, turns: seq<SendTurn>) returns (parts: seq<seq<u8>>, cause: Cause)
    modifies dc
    ensures Pieces(file, turns, parts)
    ensures StopsAt(turns, |parts|, |file| - |Flatten(parts)|) == Some(cause)
    ensures dc.sent == old(dc.sent) + ChunkFrames(parts)
  {
    hide Flatten, Message, ChunkFrames, Pieces, ReadLength;
    parts := [];
    var offset := 0;
    NoPieces(dc.sent, file, turns);
    while |parts| < |turns| && turns[|parts|].connected
      invariant Pieces(file, turns, parts) && |parts| <= |turns| && offset == |Flatten(parts)| <= |file|
      invariant dc.sent == old(dc.sent) + ChunkFrames(parts)
      decreases |turns| - |parts|
    {
      var turn := turns[|parts|];
      if turn.read.None? {
        return parts, ReadFailed;
      }
      var n := ReadLength(turn.read.value, |file| - offset);
      if n == 0 {
        return parts, EndOfData;
      }
      var payload := file[offset..offset + n];
      if !turn.sendOk {
        return parts, SendFailed;
      }
      dc.sent := dc.sent + [Message(Ftp.FileChunk(payload))];
      NextPiece(old(dc.sent), file, turns, parts, n);
      parts := parts + [payload];
      offset := offset + n;
    }
    return parts, Disconnected;
  }

  // ----- the receiving loop

  /** One pass: the flag, the reception and where the write fails, if it does. */
  datatype ReceiveTurn = ReceiveTurn(connected: bool, received: Received, failsAt: Option<nat>)

  /** What the passes leave of a download; a script ends with the connection. */
  function Downloaded(written: seq<u8>, turns: seq<ReceiveTurn>): (ReceiveStage, seq<u8>)
    decreases turns
  {
    if turns == [] || !turns[0].connected || turns[0].received.None? then (Aborted, written)
    else
      var (stage, after) := OnDownload(written, turns[0].received.value, turns[0].failsAt);
      if stage == AtLoop then Downloaded(after, turns[1..]) else (stage, after)
  }

  method ReceiveFile(turns: seq<ReceiveTurn>) returns (stage: ReceiveStage, written: seq<u8>)
    ensures (stage, written) == Downloaded([], turns)
  {
    written := [];
    var i := 0;
    assert turns[0..] == turns;
    while i < |turns| && turns[i].connected
      invariant i <= |turns| && Downloaded(written, turns[i..]) == Downloaded([], turns)
    {
      var turn := turns[i];
      assert turns[i..][1..] == turns[i + 1..];
      if turn.received.None? || |turn.received.value.bytes| > MESSAGE_BUFFER {
        return Aborted, written;
      }
      var bytes := turn.received.value.bytes;
      if |bytes| == 0 {
        return Aborted, written;
      }
      match Ftp.FromBytes(bytes) {
        case Some(FileChunk(payload)) =>
          if turn.failsAt.Some? {
            return Aborted, written + payload[..Min(turn.failsAt.value, |payload|)];
          }
          written := written + payload;
        case Some(EndOfFile) => return Completed, written;
        case _ =>
      }
      i := i + 1;
    }
    return Aborted, written;
  }

  lemma OneTurn(written: seq<u8>, turns: seq<ReceiveTurn>, f: Frame)
    requires turns != [] && turns[0] == ReceiveTurn(true, Some(f), None)
    ensures var (stage, after) := OnDownload(written, f, None);
            Downloaded(written, turns) == if stage == AtLoop then Downloaded(after, turns[1..]) else (stage, after)
  {
    hide OnDownload;
  }

  /** What a sending loop put on the channel, taken without a fault, gives back the bytes it sent. */
  lemma {:induction false} LoopsMatch(written: seq<u8>, parts: seq<seq<u8>>)
    requires forall p <- parts :: 0 < |p| <= CHUNK_SIZE
    ensures Downloaded(written, Turns(ChunkFrames(parts) + [Message(Ftp.EndOfFile)]))
            == (Completed, written + Flatten(parts))
    decreases parts
  {
    hide Message, OnDownload, ChunkFrames, Turns, Downloaded;
    var end := Message(Ftp.EndOfFile);
    var turns := Turns(ChunkFrames(parts) + [end]);
    TurnsStep(parts, end);
    OneTurn(written, turns, turns[0].received.value);
    if parts == [] {
      assert written + Flatten(parts) == written;
      EndIsTaken(written, None);
    } else {
      ChunkFits(parts[0]);
      LoopsMatch(written + parts[0], parts[1..]);
      assert written + parts[0] + Flatten(parts[1..]) == written + Flatten(parts);
    }
  }

  lemma TurnsStep(parts: seq<seq<u8>>, end: Frame)
    ensures var turns := Turns(ChunkFrames(parts) + [end]);
            && turns != []
            && turns[0] == ReceiveTurn(true, Some(if parts == [] then end else Message(Ftp.FileChunk(parts[0]))), None)
            && (parts != [] ==> turns[1..] == Turns(ChunkFrames(parts[1..]) + [end]))
  {
    hide Message;
    if parts != [] {
      assert ChunkFrames(parts)[1..] == ChunkFrames(parts[1..]);
      assert (ChunkFrames(parts) + [end])[1..] == ChunkFrames(parts[1..]) + [end];
    }
  }

  /** Passes that take the given frames, connected and with a sound disk. */
  function Turns(frames: seq<Frame>): seq<ReceiveTurn> {
    seq(|frames|, i requires 0 <= i < |frames| => ReceiveTurn(true, Some(frames[i]), None))
  }

  // ----- the object

  datatype TransferError = UnknownOfferId(id: u32) | ChannelError | FileCreateError

  class FileTransferer {
    /** The channels of offers that the user has not answered. */
    var pending: map<u32, DataChannel>
    var nextOfferId: u32

    constructor ()
      ensures pending == map[] && nextOfferId == 0
    {
      pending := map[];
      nextOfferId := 0;
    }

    method NewOfferId() returns (id: u32)
      modifies this`nextOfferId
      ensures id == old(nextOfferId) && nextOfferId == (id + 1) % TWO_32
    {
      id := nextOfferId;
      nextOfferId := (nextOfferId + 1) % TWO_32;
    }

    /**
     * Waits for an offer and files the channel under its id; other frames are skipped. The channel stays
     * filed even when the application cannot be told (`notifyOk`), which is an error.
     */
    method HandleIncoming(dc: DataChannel, received: seq<Received>, notifyOk: bool)
      returns (stage: ReceiveStage, ok: bool, used: nat)
      modifies this`pending
      ensures used <= |received|
      ensures forall i :: 0 <= i < used ==> received[i].Some? && OnOffer(received[i].value) == AwaitOffer
      ensures stage == if used == |received| then AwaitOffer
                       else if received[used].None? then Aborted else OnOffer(received[used].value)
      ensures used < |received| ==> stage != AwaitOffer
      ensures pending == if stage.Pending? then old(pending)[stage.id := dc] else old(pending)
      ensures ok <==> stage.Pending? && notifyOk
    {
      used := 0;
      while used < |received|
        invariant used <= |received| && pending == old(pending)
        invariant forall i :: 0 <= i < used ==> received[i].Some? && OnOffer(received[i].value) == AwaitOffer
      {
        if received[used].None? || |received[used].value.bytes| > MESSAGE_BUFFER {
          return Aborted, false, used;
        }
        match Ftp.FromBytes(received[used].value.bytes) {
          case Some(FileOffer(id, metadata)) =>
            pending := pending[id := dc];
            return Pending(id, metadata), notifyOk, used;
          case _ =>
        }
        used := used + 1;
      }
      return AwaitOffer, false, used;
    }

    /** The channel leaves the table whatever happens next, so an offer is answered at most once. */
    method AcceptFileOffer(id: u32, sendOk: bool, createOk: bool) returns (r: Result<DataChannel, TransferError>)
      modifies this`pending, if id in pending then {pending[id]} else {}
      ensures pending == old(pending) - {id}
      ensures id !in old(pending) <==> r == Err(UnknownOfferId(id))
      ensures id in old(pending) ==>
                && old(pending)[id].sent == old(pending[id].sent) + (if sendOk then [Message(Ftp.AcceptFile)] else [])
                && r == if !sendOk then Err(ChannelError) else if !createOk then Err(FileCreateError)
                        else Ok(old(pending)[id])
    {
      if id !in pending {
        return Err(UnknownOfferId(id));
      }
      var dc := pending[id];
      pending := pending - {id};
      if !sendOk {
        return Err(ChannelError);
      }
      dc.sent := dc.sent + [Message(Ftp.AcceptFile)];
      if !createOk {
        return Err(FileCreateError);
      }
      return Ok(dc);
    }

    method RejectFileOffer(id: u32, sendOk: bool) returns (r: Result<(), TransferError>)
      modifies this`pending, if id in pending then {pending[id]} else {}
      ensures pending == old(pending) - {id}
      ensures id !in old(pending) <==> r == Err(UnknownOfferId(id))
      ensures id in old(pending) ==>
                && old(pending)[id].sent == old(pending[id].sent) + (if sendOk then [Message(Ftp.RejectFile)] else [])
                && r == if sendOk then Ok(()) else Err(ChannelError)
    {
      if id !in pending {
        return Err(UnknownOfferId(id));
      }
      var dc := pending[id];
      pending := pending - {id};
      if !sendOk {
        return Err(ChannelError);
      }
      dc.sent := dc.sent + [Message(Ftp.RejectFile)];
      return Ok(());
    }
  }
}
