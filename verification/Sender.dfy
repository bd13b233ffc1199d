/** The sender's chunking of encoded frames (src/media/media_pipeline.rs, send_encoded_frame). */
module Sender {
  import opened Common
  import opened Rtp

  datatype Frame = Frame(timestamp: u128, isIFrame: bool, chunks: seq<seq<u8>>)

  datatype MediaConfig = MediaConfig(rtpVersion: u8, payloadType: u8, ssrc: u32)

  const MAX_SEQ: nat := TWO_64 - 1

  /** The packet that carries chunk `k` of `f` when the counter stood at `first`. */
  function PacketOf(f: Frame, first: nat, k: nat, cfg: MediaConfig): RtpPacket
    requires k < |f.chunks|
  {
    RtpPacket(cfg.rtpVersion, if k == |f.chunks| - 1 then 1 else 0, |f.chunks| % TWO_8, f.isIFrame,
              cfg.payloadType, Min(first + k, MAX_SEQ), f.timestamp, cfg.ssrc, f.chunks[k])
  }

  function PacketsOf(f: Frame, first: nat, cfg: MediaConfig): seq<RtpPacket> {
    seq(|f.chunks|, k requires 0 <= k < |f.chunks| => PacketOf(f, first, k, cfg))
  }

  /** A frame's packets carry its chunks in order under consecutive numbers, its stamp and kind, and the configured
    * version, payload type and source; the marker is on the last alone.
    */
  lemma PacketsTellFrame(f: Frame, first: nat, cfg: MediaConfig, k: nat)
    requires k < |f.chunks| && first + |f.chunks| <= TWO_64
    ensures var (ps, c) := (PacketsOf(f, first, cfg), |f.chunks|);
      && |ps| == c && ps[k].payload == f.chunks[k] && ps[k].sequenceNumber == first + k
      && ps[k].timestamp == f.timestamp && ps[k].isIFrame == f.isIFrame
      && ps[k].version == cfg.rtpVersion && ps[k].payloadType == cfg.payloadType && ps[k].ssrc == cfg.ssrc
      && (ps[k].marker == 1 <==> k + 1 == c) && (c < 256 ==> ps[k].totalChunks == c)
  {
  }

  /** Everything a sender emits: its frames, and the number of the first packet. */
  datatype Stream = Stream(frames: seq<Frame>, first: nat, cfg: MediaConfig)

  function ChunkCount(frames: seq<Frame>): nat {
    if frames == [] then 0 else |frames[0].chunks| + ChunkCount(frames[1..])
  }

  /** The number of the first packet of frame `j`. */
  function FirstSeq(s: Stream, j: nat): nat
    requires j <= |s.frames|
  {
    s.first + ChunkCount(s.frames[..j])
  }

  /** Whether packet `p` carries chunk `k` of frame `j`. */
  predicate Carries(s: Stream, p: RtpPacket, j: nat, k: nat) {
    j < |s.frames| && k < |s.frames[j].chunks| && p == PacketOf(s.frames[j], FirstSeq(s, j), k, s.cfg)
  }

  ghost predicate Sent(s: Stream, p: RtpPacket) {
    exists j, k :: Carries(s, p, j, k)
  }

  lemma {:induction false} ChunkCountSplit(frames: seq<Frame>, j: nat)
    requires j <= |frames|
    ensures ChunkCount(frames) == ChunkCount(frames[..j]) + ChunkCount(frames[j..])
  {
    if j > 0 {
      assert frames[..j][1..] == frames[1..][..j - 1] && frames[j..] == frames[1..][j - 1..];
      ChunkCountSplit(frames[1..], j - 1);
    } else {
      assert frames[0..] == frames;
    }
  }

  /** The sending thread's loop state: the counter and the channel to the transport. */
  class FrameSender {
    var sequenceNumber: u64
    var channel: seq<RtpPacket>
    const cfg: MediaConfig

    constructor (cfg: MediaConfig)
      ensures this.cfg == cfg && sequenceNumber == 0 && channel == []
    {
      this.cfg := cfg;
      sequenceNumber := 0;
      channel := [];
    }

    /**
     * Sends one frame; `room` is how many packets the channel takes before its receiver is gone. The
     * counter has moved past the packet that could not be sent.
     */
    method SendEncodedFrame(f: Frame, connected: bool, room: nat) returns (ok: bool)
      modifies this
      ensures ok <==> connected && |f.chunks| <= room
      ensures var sent := if connected then Min(room, |f.chunks|) else 0;
        && channel == old(channel) + PacketsOf(f, old(sequenceNumber), cfg)[..sent]
        && sequenceNumber == Min(old(sequenceNumber) + (if connected && !ok then room + 1 else sent), MAX_SEQ)
    {
      if !connected {
        return false;
      }
      ghost var packets := PacketsOf(f, sequenceNumber, cfg);
      for i := 0 to |f.chunks|
        invariant i <= room
        invariant sequenceNumber == Min(old(sequenceNumber) + i, MAX_SEQ)
        invariant channel == old(channel) + packets[..i]
      {
        var marker := if i == |f.chunks| - 1 then 1 else 0;
        var packet := RtpPacket(cfg.rtpVersion, marker, |f.chunks| % TWO_8, f.isIFrame, cfg.payloadType,
                                sequenceNumber, f.timestamp, cfg.ssrc, f.chunks[i]);
        sequenceNumber := Min(sequenceNumber + 1, MAX_SEQ);
        if i == room {
          return false;
        }
        assert packet == packets[i] && packets[..i + 1] == packets[..i] + [packets[i]];
        channel := channel + [packet];
      }
      return true;
    }
  }
}
