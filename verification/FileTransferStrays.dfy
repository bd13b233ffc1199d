/** What the transfer loops make of any messages, foreign ones too (src/file/file_transferer/transferer.rs). */
module FileTransferStrays {
  import opened Common
  import opened DataChannels
  import opened FileTransfer
  import opened FileTransferClass
  import Ftp

  /** A reception that fits the buffer of the loop. */
  predicate Fits(r: Received, capacity: nat) {
    r.Some? && |r.value.bytes| <= capacity
  }

  predicate Says(r: Received, m: Ftp.Message) {
    r.Some? && Ftp.FromBytes(r.value.bytes) == Some(m)
  }

  predicate IsReply(r: Received) {
    Says(r, Ftp.AcceptFile) || Says(r, Ftp.RejectFile)
  }

  /** Whatever else comes, the first reply decides; an error or an oversized message before it fails the offer. */
  lemma FirstReplyDecides(received: seq<Received>, i: nat)
    requires i < |received|
    requires forall j :: 0 <= j < i ==> Fits(received[j], 1024) && !IsReply(received[j])
    requires !Fits(received[i], 1024) || IsReply(received[i])
    ensures forall j :: 0 <= j < i ==> ReplyTo(received[j]) == AwaitReply
    ensures ReplyTo(received[i]) == if !Fits(received[i], 1024) then Failed
                                    else if Says(received[i], Ftp.AcceptFile) then AtCheck else Declined
  {
  }

  predicate IsOffer(r: Received) {
    r.Some? && match Ftp.FromBytes(r.value.bytes) case Some(FileOffer(_, _)) => true case _ => false
  }

  /** Whatever else comes, the first offer is the one that waits for the user, under its own id. */
  lemma FirstOfferTaken(received: seq<Received>, i: nat, id: u32, metadata: Ftp.Metadata)
    requires i < |received|
    requires forall j :: 0 <= j < i ==> Fits(received[j], 517) && !IsOffer(received[j])
    requires Fits(received[i], 517) && Says(received[i], Ftp.FileOffer(id, metadata))
    ensures forall j :: 0 <= j < i ==> received[j].Some? && OnOffer(received[j].value) == AwaitOffer
    ensures OnOffer(received[i].value) == Pending(id, metadata)
  {
  }

  // ----- the download

  /** The chunk a pass brings, or nothing. */
  function ChunkIn(turn: ReceiveTurn): seq<u8> {
    if turn.received.None? then []
    else match Ftp.FromBytes(turn.received.value.bytes) case Some(FileChunk(payload)) => payload case _ => []
  }

  function ChunksIn(turns: seq<ReceiveTurn>): seq<u8> {
    if turns == [] then [] else ChunkIn(turns[0]) + ChunksIn(turns[1..])
  }

  predicate Readable(turn: ReceiveTurn) {
    turn.connected && Fits(turn.received, 517) && turn.received.value.bytes != []
  }

  predicate BringsChunk(turn: ReceiveTurn) {
    Readable(turn) && match Ftp.FromBytes(turn.received.value.bytes) case Some(FileChunk(_)) => true case _ => false
  }

  /** The pass ends the loop: unreadable, the end of the file, or a chunk that cannot be written. */
  predicate Stops(turn: ReceiveTurn) {
    !Readable(turn) || Says(turn.received, Ftp.EndOfFile) || (BringsChunk(turn) && turn.failsAt.Some?)
  }

  /** Up to the first pass that stops, every chunk is written and everything else skipped; the download is complete
    * exactly when that pass brings the end of the file, and a failed write leaves a part of its chunk.
    */
  lemma {:induction false} DownloadExact(written: seq<u8>, turns: seq<ReceiveTurn>, k: nat)
    requires k <= |turns| && (forall i :: 0 <= i < k ==> !Stops(turns[i])) && (k < |turns| ==> Stops(turns[k]))
    ensures var (stage, file) := Downloaded(written, turns);
      && (stage == Completed <==> k < |turns| && Readable(turns[k]) && Says(turns[k].received, Ftp.EndOfFile))
      && (stage != Completed ==> stage == Aborted)
      && file == written + ChunksIn(turns[..k])
                 + if k < |turns| && BringsChunk(turns[k])
                   then ChunkIn(turns[k])[..Min(turns[k].failsAt.value, |ChunkIn(turns[k])|)] else []
    decreases k
  {
    if k == 0 {
      assert written + [] == written;
    } else {
      var rest := turns[1..];
      assert turns[..k][1..] == rest[..k - 1];
      var (first, more) := (ChunkIn(turns[0]), ChunksIn(rest[..k - 1]));
      assert written + (first + more) == written + first + more;
      assert !Stops(turns[0]);
      OnePass(written, turns);
      DownloadExact(written + ChunkIn(turns[0]), rest, k - 1);
    }
  }

  lemma OnePass(written: seq<u8>, turns: seq<ReceiveTurn>)
    requires turns != [] && !Stops(turns[0])
    ensures Downloaded(written, turns) == Downloaded(written + ChunkIn(turns[0]), turns[1..])
  {
    assert written + [] == written;
  }
}
