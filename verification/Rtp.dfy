/** The project's RTP-like packet and its byte layout (src/transport/rtp/rtp_packet.rs). */
module Rtp {
  import opened Common
  import opened Bytes

  datatype RtpPacket = RtpPacket(
    version: u8,
    marker: u8,
    totalChunks: u8,
    isIFrame: bool,
    payloadType: u8,
    sequenceNumber: u64,
    timestamp: u128,
    ssrc: u32,
    payload: seq<u8>)

  const HEADER: nat := 33

  /** `version << 6` keeps only the two low bits of the version. */
  function Header(p: RtpPacket): (r: seq<u8>)
    ensures |r| == HEADER
  {
    [p.version * 64 % TWO_8, p.marker, p.totalChunks, if p.isIFrame then 1 else 0, p.payloadType]
    + BeBytes(p.sequenceNumber, 8) + BeBytes(p.timestamp, 16) + BeBytes(p.ssrc, 4)
  }

  function ToBytes(p: RtpPacket): seq<u8> {
    Header(p) + p.payload
  }

  function FromBytes(data: seq<u8>): Option<RtpPacket> {
    if |data| < HEADER then None
    else
      Some(RtpPacket(data[0] / 64, data[1], data[2], data[3] != 0, data[4],
                     U64(data[5..13]), U128(data[13..29]), U32(data[29..33]), data[33..]))
  }

  lemma HeaderFields(p: RtpPacket)
    ensures Header(p)[5..13] == BeBytes(p.sequenceNumber, 8)
    ensures Header(p)[13..29] == BeBytes(p.timestamp, 16)
    ensures Header(p)[29..33] == BeBytes(p.ssrc, 4)
  {
  }

  /** A packet is read back with its version reduced to two bits. */
  lemma ReadBack(p: RtpPacket)
    ensures FromBytes(ToBytes(p)) == Some(p.(version := p.version % 4))
  {
    var data := ToBytes(p);
    HeaderFields(p);
    assert data[5..13] == Header(p)[5..13] && data[13..29] == Header(p)[13..29] && data[29..33] == Header(p)[29..33];
    assert data[33..] == p.payload;
    U64RoundTrip(p.sequenceNumber);
    U128RoundTrip(p.timestamp);
    U32RoundTrip(p.ssrc);
  }

  /** The layout round-trips exactly the packets whose version fits its two bits. */
  lemma RoundTripExact(p: RtpPacket)
    ensures FromBytes(ToBytes(p)) == Some(p) <==> p.version < 4
  {
    ReadBack(p);
  }

  lemma SameHeader(a: seq<u8>, b: seq<u8>)
    requires |a| == |b| == HEADER
    requires a[5..13] == b[5..13] && a[13..29] == b[13..29] && a[29..33] == b[29..33]
    ensures a == b <==> a[0] == b[0] && a[1] == b[1] && a[2] == b[2] && a[3] == b[3] && a[4] == b[4]
  {
    assert a == a[..5] + a[5..13] + a[13..29] + a[29..33];
    assert b == b[..5] + b[5..13] + b[13..29] + b[29..33];
  }

  /** Bytes that are read write the same header again exactly when the spare bits are clear and the flag is 0 or 1. */
  lemma HeaderReadBack(data: seq<u8>)
    requires |data| >= HEADER
    ensures FromBytes(data).Some?
    ensures Header(FromBytes(data).value) == data[..HEADER] <==> data[0] % 64 == 0 && data[3] <= 1
  {
    hide BeBytes, FromBe;
    var (p, head) := (FromBytes(data).value, data[..HEADER]);
    FromBeRoundTrip(data[5..13]);
    FromBeRoundTrip(data[13..29]);
    FromBeRoundTrip(data[29..33]);
    HeaderFields(p);
    assert head[5..13] == data[5..13] && head[13..29] == data[13..29] && head[29..33] == data[29..33];
    SameHeader(Header(p), head);
  }
}
