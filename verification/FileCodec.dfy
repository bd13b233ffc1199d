/** Which byte strings `String::from_utf8` takes. */
module Utf8 {
  import opened Common

  predicate Tail(b: u8) {
    0x80 <= b <= 0xBF
  }

  /** The length of the well-formed character at the head of `s`, or 0. */
  function CharLength(s: seq<u8>): (k: nat)
    requires s != []
    ensures k <= |s|
  {
    var b := s[0];
    if b < 0x80 then 1
    else if |s| >= 2 && 0xC2 <= b <= 0xDF && Tail(s[1]) then 2
    else if |s| >= 3 && 0xE0 <= b <= 0xEF && Tail(s[1]) && Tail(s[2])
            && (b == 0xE0 ==> s[1] >= 0xA0) && (b == 0xED ==> s[1] <= 0x9F) then 3
    else if |s| >= 4 && 0xF0 <= b <= 0xF4 && Tail(s[1]) && Tail(s[2]) && Tail(s[3])
            && (b == 0xF0 ==> s[1] >= 0x90) && (b == 0xF4 ==> s[1] <= 0x8F) then 4
    else 0
  }

  predicate ValidUtf8(s: seq<u8>) {
    s == [] || (var k := CharLength(s); k > 0 && ValidUtf8(s[k..]))
  }

  /** The bytes of a Rust `String`. */
  type Text = s: seq<u8> | ValidUtf8(s)
}

/** The data channel establishment messages (src/sctp_transport/data_channel/dcep.rs). */
module Dcep {
  import opened Common
  import opened Bytes
  import opened Utf8

  /** The only channel type is `Reliable`, whose value is 0. */
  datatype Message = Open(priority: u16, reliability: u32, channelLabel: Text, protocol: Text) | Ack

  function OpenHeader(m: Message): (r: seq<u8>)
    requires m.Open?
    ensures |r| == 12
  {
    [3, 0] + BeBytes(m.priority, 2) + BeBytes(m.reliability, 4)
    + BeBytes(|m.channelLabel|, 2) + BeBytes(|m.protocol|, 2)
  }

  function ToBytes(m: Message): seq<u8> {
    match m
    case Open(_, _, channelLabel, protocol) => OpenHeader(m) + channelLabel + protocol
    case Ack => [2]
  }

  function FromBytes(bytes: seq<u8>): Option<Message> {
    if bytes == [] then None
    else if bytes[0] == 3 then
      if |bytes| < 12 then None
      else
        var labelEnd := 12 + U16(bytes[8..10]);
        var protocolEnd := labelEnd + U16(bytes[10..12]);
        if |bytes| < protocolEnd || bytes[1] != 0
           || !ValidUtf8(bytes[12..labelEnd]) || !ValidUtf8(bytes[labelEnd..protocolEnd]) then None
        else Some(Open(U16(bytes[2..4]), U32(bytes[4..8]), bytes[12..labelEnd], bytes[labelEnd..protocolEnd]))
    else if bytes[0] == 2 then Some(Ack)
    else None
  }

  function Zeros(n: nat): seq<u8> {
    seq<u8>(n, i => 0)
  }

  const BUFFER: nat := 1024

  /** A message read into a zeroed buffer and parsed with its padding; one that does not fit is an error. */
  function Read(bytes: seq<u8>): Result<Option<Message>, ()> {
    if |bytes| > BUFFER then Err(()) else Ok(FromBytes(bytes + Zeros(BUFFER - |bytes|)))
  }

  lemma OpenHeaderFields(m: Message)
    requires m.Open? && |m.channelLabel| < TWO_16 && |m.protocol| < TWO_16
    ensures var h := OpenHeader(m);
            && h[0] == 3 && h[1] == 0 && U16(h[2..4]) == m.priority && U32(h[4..8]) == m.reliability
            && U16(h[8..10]) == |m.channelLabel| && U16(h[10..12]) == |m.protocol|
  {
    hide BeBytes, U16, U32;
    var h := OpenHeader(m);
    var upToPriority := [3, 0] + BeBytes(m.priority, 2);
    var upToReliability := upToPriority + BeBytes(m.reliability, 4);
    var upToLabel := upToReliability + BeBytes(|m.channelLabel|, 2);
    assert h == upToLabel + BeBytes(|m.protocol|, 2);
    assert h[10..12] == BeBytes(|m.protocol|, 2) && h[..10] == upToLabel;
    assert h[8..10] == upToLabel[8..10] == BeBytes(|m.channelLabel|, 2);
    assert h[4..8] == upToReliability[4..8] == BeBytes(m.reliability, 4);
    assert h[2..4] == upToPriority[2..4] == BeBytes(m.priority, 2);
    U16RoundTrip(m.priority);
    U32RoundTrip(m.reliability);
    U16RoundTrip(|m.channelLabel|);
    U16RoundTrip(|m.protocol|);
  }

  lemma OpenReadsBack(m: Message, rest: seq<u8>)
    requires m.Open? && |m.channelLabel| < TWO_16 && |m.protocol| < TWO_16
    ensures FromBytes(ToBytes(m) + rest) == Some(m)
  {
    hide OpenHeader, BeBytes, U16, U32, ValidUtf8;
    var h := OpenHeader(m);
    OpenHeaderFields(m);
    var bytes := ToBytes(m) + rest;
    assert bytes == h + (m.channelLabel + m.protocol + rest);
    assert bytes[2..4] == h[2..4] && bytes[4..8] == h[4..8] && bytes[8..10] == h[8..10] && bytes[10..12] == h[10..12];
    var labelEnd := 12 + |m.channelLabel|;
    assert bytes[12..labelEnd] == m.channelLabel;
    assert bytes[labelEnd..labelEnd + |m.protocol|] == m.protocol;
  }

  /** Every message that fits the buffer is read back from it, padding and all; no longer one is. */
  lemma ReadExact(m: Message)
    ensures Read(ToBytes(m)) == Ok(Some(m)) <==> (m.Open? ==> 12 + |m.channelLabel| + |m.protocol| <= 1024)
    ensures Read(ToBytes(m)).Err? <==> m.Open? && 12 + |m.channelLabel| + |m.protocol| > 1024
  {
    if m.Open? && 12 + |m.channelLabel| + |m.protocol| <= BUFFER {
      OpenReadsBack(m, Zeros(BUFFER - |ToBytes(m)|));
    }
  }

  lemma HeaderRewritten(bytes: seq<u8>)
    requires |bytes| >= 12 && bytes[0] == 3 && bytes[1] == 0
    ensures [3, 0] + BeBytes(U16(bytes[2..4]), 2) + BeBytes(U32(bytes[4..8]), 4)
            + BeBytes(U16(bytes[8..10]), 2) + BeBytes(U16(bytes[10..12]), 2) == bytes[..12]
  {
    FromBeRoundTrip(bytes[2..4]);
    FromBeRoundTrip(bytes[4..8]);
    FromBeRoundTrip(bytes[8..10]);
    FromBeRoundTrip(bytes[10..12]);
    hide BeBytes, FromBe;
    assert bytes[..4] == [3, 0] + bytes[2..4];
    assert bytes[..8] == bytes[..4] + bytes[4..8];
    assert bytes[..10] == bytes[..8] + bytes[8..10];
    assert bytes[..12] == bytes[..10] + bytes[10..12];
  }

  /** Whatever parses is the message written at the head of the bytes: nothing cut short is accepted. */
  lemma ParsedIsPrefix(bytes: seq<u8>)
    requires FromBytes(bytes).Some?
    ensures ToBytes(FromBytes(bytes).value) <= bytes
  {
    hide BeBytes, U16, U32, ValidUtf8;
    var m := FromBytes(bytes).value;
    if m.Open? {
      HeaderRewritten(bytes);
      var labelEnd := 12 + |m.channelLabel|;
      assert bytes[..labelEnd] == bytes[..12] + m.channelLabel;
      assert bytes[..labelEnd + |m.protocol|] == bytes[..labelEnd] + m.protocol;
    }
  }
}

/** The file transfer messages (src/file/file_transferer/ftp_message.rs, src/file/file_metadata/metadata.rs). */
module Ftp {
  import opened Common
  import opened Bytes
  import opened Utf8

  datatype Metadata = Metadata(size: u64, name: Text)

  datatype Message =
    | FileOffer(offerId: u32, metadata: Metadata)
    | AcceptFile
    | RejectFile
    | FileChunk(payload: seq<u8>)
    | EndOfFile

  /** The name's length is cut to a byte. */
  function MetadataToBytes(m: Metadata): seq<u8> {
    BeBytes(m.size, 8) + [|m.name| % TWO_8] + m.name
  }

  function MetadataFromBytes(bytes: seq<u8>): Option<Metadata> {
    if |bytes| < 9 then None
    else
      var length: int := bytes[8];
      var end := 9 + length;
      if |bytes| < end || !ValidUtf8(bytes[9..end]) then None
      else Some(Metadata(U64(bytes[..8]), bytes[9..end]))
  }

  /** The payload's length is cut to 32 bits. */
  function ToBytes(m: Message): seq<u8> {
    match m
    case FileOffer(offerId, metadata) => [1] + BeBytes(offerId, 4) + MetadataToBytes(metadata)
    case AcceptFile => [2]
    case RejectFile => [3]
    case FileChunk(payload) => [4] + BeBytes(|payload|, 4) + payload
    case EndOfFile => [5]
  }

  function FromBytes(bytes: seq<u8>): Option<Message> {
    if bytes == [] then None
    else if bytes[0] == 1 && |bytes| >= 14 then
      match MetadataFromBytes(bytes[5..])
      case Some(metadata) => Some(FileOffer(U32(bytes[1..5]), metadata))
      case None => None
    else if bytes[0] == 2 then Some(AcceptFile)
    else if bytes[0] == 3 then Some(RejectFile)
    else if bytes[0] == 4 && |bytes| >= 5 then
      var length := U32(bytes[1..5]);
      if |bytes| < 5 + length then None else Some(FileChunk(bytes[5..5 + length]))
    else if bytes[0] == 5 then Some(EndOfFile)
    else None
  }

  lemma MetadataExact(m: Metadata)
    ensures MetadataFromBytes(MetadataToBytes(m)) == Some(m) <==> |m.name| <= 255
  {
    var bytes := MetadataToBytes(m);
    assert bytes[..8] == BeBytes(m.size, 8);
    U64RoundTrip(m.size);
    if |m.name| <= 255 {
      assert bytes[9..9 + |m.name|] == m.name;
    }
  }

  /** A message is read back exactly when its length field holds the length of its variable part. */
  lemma RoundTripExact(m: Message)
    ensures FromBytes(ToBytes(m)) == Some(m)
            <==> match m
                 case FileOffer(_, metadata) => |metadata.name| <= 255
                 case FileChunk(payload) => |payload| < TWO_32
                 case _ => true
  {
    var bytes := ToBytes(m);
    match m
    case FileOffer(offerId, metadata) =>
      assert bytes[1..5] == BeBytes(offerId, 4) && bytes[5..] == MetadataToBytes(metadata);
      U32RoundTrip(offerId);
      MetadataExact(metadata);
    case FileChunk(payload) =>
      assert bytes[1..5] == BeBytes(|payload|, 4);
      if |payload| < TWO_32 {
        U32RoundTrip(|payload|);
        assert bytes[5..5 + |payload|] == payload;
      }
    case _ =>
  }

  lemma MetadataParsedIsPrefix(bytes: seq<u8>)
    requires MetadataFromBytes(bytes).Some?
    ensures MetadataToBytes(MetadataFromBytes(bytes).value) <= bytes
  {
    FromBeRoundTrip(bytes[..8]);
    hide BeBytes, FromBe, ValidUtf8;
    var length: int := bytes[8];
    assert bytes[..9 + length] == bytes[..8] + [bytes[8]] + bytes[9..9 + length];
  }

  /** Whatever parses is the message written at the head of the bytes: nothing cut short is accepted. */
  lemma ParsedIsPrefix(bytes: seq<u8>)
    requires FromBytes(bytes).Some?
    ensures ToBytes(FromBytes(bytes).value) <= bytes
  {
    match FromBytes(bytes).value
    case FileOffer(_, metadata) =>
      MetadataParsedIsPrefix(bytes[5..]);
      FromBeRoundTrip(bytes[1..5]);
      hide BeBytes, FromBe, MetadataToBytes, MetadataFromBytes;
      var rest := MetadataToBytes(metadata);
      assert bytes[5..][..|rest|] == rest;
      assert bytes[..5 + |rest|] == [bytes[0]] + bytes[1..5] + rest;
    case FileChunk(payload) =>
      FromBeRoundTrip(bytes[1..5]);
      hide BeBytes, FromBe;
      assert bytes[..5 + |payload|] == [bytes[0]] + bytes[1..5] + payload;
    case _ =>
  }
}
