/** A data channel on a reliable ordered stream (src/sctp_transport/data_channel/channel.rs). */
module DataChannels {
  import opened Common
  import opened Utf8
  import Dcep

  /** One message with whether its payload identifier is that of channel establishment. */
  datatype Frame = Frame(dcep: bool, bytes: seq<u8>)

  /** What a waiting loop makes of a poll: it goes on, it has what it waits for, or it fails. */
  datatype Wait = Again | Done | Broken

  datatype Poll = Silence | Arrived(frame: Frame) | PollError

  const ACK_FRAME: Frame := Frame(true, Dcep.ToBytes(Dcep.Ack))

  function OpenFrame(channelLabel: Text, protocol: Text): Frame {
    Frame(true, Dcep.ToBytes(Dcep.Open(0, 0, channelLabel, protocol)))
  }

  /** A frame that is not of channel establishment is taken off the stream and lost. */
  function OnAckFrame(f: Frame): Wait {
    if !f.dcep then Again
    else match Dcep.Read(f.bytes)
      case Err(_) => Broken
      case Ok(m) => if m == Some(Dcep.Ack) then Done else Again
  }

  function OnOpenFrame(f: Frame): Wait {
    if !f.dcep then Again
    else match Dcep.Read(f.bytes)
      case Err(_) => Broken
      case Ok(m) => if m.Some? && m.value.Open? then Done else Again
  }

  function OnPoll(onFrame: Frame -> Wait, p: Poll): Wait {
    match p
    case Silence => Again
    case Arrived(f) => onFrame(f)
    case PollError => Broken
  }

  /** `r` is the verdict of the first poll that has one, at `used`; none before the timeout leaves `Again`. */
  predicate FirstVerdict(onFrame: Frame -> Wait, polls: seq<Poll>, used: nat, r: Wait) {
    && used <= |polls|
    && (forall i :: 0 <= i < used ==> OnPoll(onFrame, polls[i]) == Again)
    && r == (if used < |polls| then OnPoll(onFrame, polls[used]) else Again)
    && (used < |polls| ==> r != Again)
  }

  class DataChannel {
    /** Everything written to the stream. */
    var sent: seq<Frame>

    constructor ()
      ensures sent == []
    {
      sent := [];
    }

    /** The polls are those made before the timeout. */
    method WaitForAck(polls: seq<Poll>) returns (r: Wait, used: nat)
      ensures FirstVerdict(OnAckFrame, polls, used, r)
    {
      used := 0;
      while used < |polls|
        invariant used <= |polls|
        invariant forall i :: 0 <= i < used ==> OnPoll(OnAckFrame, polls[i]) == Again
      {
        match polls[used] {
          case Silence =>
          case PollError => return Broken, used;
          case Arrived(f) =>
            if f.dcep {
              match Dcep.Read(f.bytes)
              case Err(_) => return Broken, used;
              case Ok(m) =>
                if m == Some(Dcep.Ack) {
                  return Done, used;
                }
            }
        }
        used := used + 1;
      }
      return Again, used;
    }

    /** `configureOk` is whether the stream takes the settings of the open message. */
    method WaitForOpen(polls: seq<Poll>, configureOk: bool) returns (r: Wait, verdict: Wait, used: nat)
      ensures FirstVerdict(OnOpenFrame, polls, used, verdict)
      ensures r == if verdict == Done && !configureOk then Broken else verdict
    {
      used := 0;
      while used < |polls|
        invariant used <= |polls|
        invariant forall i :: 0 <= i < used ==> OnPoll(OnOpenFrame, polls[i]) == Again
      {
        match polls[used] {
          case Silence =>
          case PollError => return Broken, Broken, used;
          case Arrived(f) =>
            if f.dcep {
              match Dcep.Read(f.bytes)
              case Err(_) => return Broken, Broken, used;
              case Ok(m) =>
                if m.Some? && m.value.Open? {
                  return if configureOk then Done else Broken, Done, used;
                }
            }
        }
        used := used + 1;
      }
      return Again, Again, used;
    }

    /** `configureOk` is whether the stream takes its settings, `writeOk` whether the open message goes out. */
    method Open(channelLabel: Text, protocol: Text, configureOk: bool, writeOk: bool, polls: seq<Poll>)
      returns (r: Wait, used: nat)
      modifies this
      ensures sent == old(sent) + if configureOk && writeOk then [OpenFrame(channelLabel, protocol)] else []
      ensures if configureOk && writeOk then FirstVerdict(OnAckFrame, polls, used, r) else r == Broken
    {
      if !configureOk || !writeOk {
        return Broken, 0;
      }
      sent := sent + [OpenFrame(channelLabel, protocol)];
      r, used := WaitForAck(polls);
    }

    /** The acknowledgement goes out only after an open message came in. */
    method FromAcceptedStream(polls: seq<Poll>, configureOk: bool, writeOk: bool)
      returns (ok: bool, verdict: Wait, used: nat)
      modifies this
      ensures FirstVerdict(OnOpenFrame, polls, used, verdict)
      ensures ok <==> verdict == Done && configureOk && writeOk
      ensures sent == old(sent) + if ok then [ACK_FRAME] else []
    {
      var r;
      r, verdict, used := WaitForOpen(polls, configureOk);
      ok := r == Done && writeOk;
      if ok {
        sent := sent + [ACK_FRAME];
      }
    }
  }

  // ----- the waits in terms of what the polls bring

  /** The poll brings a message of channel establishment, the parsed `m` if it parses and fits the buffer. */
  predicate Brings(p: Poll, m: Dcep.Message) {
    p.Arrived? && p.frame.dcep && |p.frame.bytes| <= 1024 && Dcep.Read(p.frame.bytes) == Ok(Some(m))
  }

  /** The poll fails: an error, or a message of channel establishment too long for the buffer. */
  predicate Fails(p: Poll) {
    p.PollError? || (p.Arrived? && p.frame.dcep && |p.frame.bytes| > 1024)
  }

  ghost predicate BringsOpen(p: Poll) {
    exists m: Dcep.Message :: m.Open? && Brings(p, m)
  }

  /** The wait ends at the first poll that brings an acknowledgement or fails; without one it times out. */
  lemma AckWaitExact(polls: seq<Poll>, used: nat, r: Wait)
    requires FirstVerdict(OnAckFrame, polls, used, r)
    ensures used <= |polls| && forall i :: 0 <= i < used ==> !Brings(polls[i], Dcep.Ack) && !Fails(polls[i])
    ensures r == Done <==> used < |polls| && Brings(polls[used], Dcep.Ack)
    ensures r == Broken <==> used < |polls| && Fails(polls[used])
    ensures r == Again <==> used == |polls|
  {
    hide Dcep.FromBytes;
  }

  /** The same of an open message of any content. */
  lemma OpenWaitExact(polls: seq<Poll>, used: nat, r: Wait)
    requires FirstVerdict(OnOpenFrame, polls, used, r)
    ensures used <= |polls| && forall i :: 0 <= i < used ==> !BringsOpen(polls[i]) && !Fails(polls[i])
    ensures r == Done <==> used < |polls| && BringsOpen(polls[used])
    ensures r == Broken <==> used < |polls| && Fails(polls[used])
    ensures r == Again <==> used == |polls|
  {
    hide Dcep.FromBytes;
    forall i | 0 <= i < |polls| && polls[i].Arrived? && OnOpenFrame(polls[i].frame) == Done
      ensures BringsOpen(polls[i])
    {
      assert Brings(polls[i], Dcep.Read(polls[i].frame.bytes).value.value);
    }
  }

  /** Any number of silences and stray frames, then the acknowledgement: the wait is over at its poll. */
  lemma AckAfterSilence(polls: seq<Poll>, n: nat, used: nat, r: Wait)
    requires FirstVerdict(OnAckFrame, polls, used, r) && n < |polls| && polls[n] == Arrived(ACK_FRAME)
    requires forall i :: 0 <= i < n ==> polls[i].Silence? || (polls[i].Arrived? && !polls[i].frame.dcep)
    ensures r == Done && used == n
  {
    Dcep.ReadExact(Dcep.Ack);
    assert Brings(polls[n], Dcep.Ack);
    AckWaitExact(polls, used, r);
    assert OnPoll(OnAckFrame, polls[n]) == Done;
  }

  /** And an open message that fits the buffer. */
  lemma OpenAfterSilence(polls: seq<Poll>, n: nat, used: nat, r: Wait, channelLabel: Text, protocol: Text)
    requires FirstVerdict(OnOpenFrame, polls, used, r) && n < |polls|
    requires polls[n] == Arrived(OpenFrame(channelLabel, protocol)) && 12 + |channelLabel| + |protocol| <= 1024
    requires forall i :: 0 <= i < n ==> polls[i].Silence? || (polls[i].Arrived? && !polls[i].frame.dcep)
    ensures r == Done && used == n
  {
    Dcep.ReadExact(Dcep.Open(0, 0, channelLabel, protocol));
    hide Dcep.FromBytes, Dcep.ToBytes, Dcep.Read;
    OpenWaitExact(polls, used, r);
    assert OnPoll(OnOpenFrame, polls[n]) == Done;
  }
}
