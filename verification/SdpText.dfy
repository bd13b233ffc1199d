/** Session descriptions as text (src/session/sdp/attribute.rs, media_description.rs, session_description.rs). */
module SdpText {
  import opened Common
  import opened Chars
  import opened Ice
  import opened Sdp

  // ----- setup roles

  function RoleText(role: DtlsSetupRole): string {
    match role
    case ActPass => "actpass"
    case Active => "active"
    case Passive => "passive"
    case HoldConn => "holdconn"
  }

  function ParseRole(s: string): Result<DtlsSetupRole, SdpError> {
    var t := Lower(Trim(s));
    if t == "actpass" then Ok(ActPass)
    else if t == "active" then Ok(Active)
    else if t == "passive" then Ok(Passive)
    else if t == "holdconn" then Ok(HoldConn)
    else Err(InvalidSetupRole)
  }

  // ----- fingerprints

  function HexBytes(bytes: seq<u8>): seq<string> {
    seq(|bytes|, i requires 0 <= i < |bytes| => HexByte(bytes[i]))
  }

  function HexValue(bytes: seq<u8>): string {
    Join(HexBytes(bytes), ':')
  }

  /** A part is trimmed; an empty one is an error like any other that is no byte. */
  function ParseHexPart(part: string): Option<nat> {
    ParseRadix(Trim(part), 16, 255)
  }

  function ParseHexParts(parts: seq<string>): Result<seq<u8>, SdpError> {
    if parts == [] then Ok([])
    else match (ParseHexParts(parts[..|parts| - 1]), ParseHexPart(parts[|parts| - 1]))
      case (Ok(bytes), Some(b)) => Ok(bytes + [b])
      case _ => Err(InvalidFingerprintFormat)
  }

  function ParseHash(algorithm: string, hash: string): Result<Fingerprint, SdpError> {
    var trimmed := Trim(hash);
    if trimmed == "" then Err(MissingFingerprintValue)
    else match ParseHexParts(Split(trimmed, ':'))
      case Ok(bytes) => Ok(Fingerprint(algorithm, bytes))
      case Err(e) => Err(e)
  }

  lemma {:induction false} HexPrefixFails(parts: seq<string>, i: nat)
    requires i <= |parts| && ParseHexParts(parts[..i]).Err?
    ensures ParseHexParts(parts) == Err(InvalidFingerprintFormat)
  {
    if i < |parts| {
      assert parts[..|parts| - 1][..i] == parts[..i];
      HexPrefixFails(parts[..|parts| - 1], i);
    } else {
      assert parts[..i] == parts;
    }
  }

  /** Bytes are pushed one by one; splitting yields at least one part, so some byte is pushed. */
  method FromHashString(algorithm: string, hash: string) returns (r: Result<Fingerprint, SdpError>)
    ensures r == ParseHash(algorithm, hash)
    ensures r.Ok? ==> r.value.bytes != []
  {
    var trimmed := Trim(hash);
    if trimmed == "" {
      return Err(MissingFingerprintValue);
    }
    var parts := Split(trimmed, ':');
    var parsed: seq<u8> := [];
    for i := 0 to |parts|
      invariant ParseHexParts(parts[..i]) == Ok(parsed) && |parsed| == i
    {
      var byte := ParseRadix(Trim(parts[i]), 16, 255);
      assert parts[..i + 1][..i] == parts[..i];
      if byte.None? {
        HexPrefixFails(parts, i + 1);
        return Err(InvalidFingerprintFormat);
      }
      parsed := parsed + [byte.value];
    }
    assert parts[..|parts|] == parts;
    return Ok(Fingerprint(algorithm, parsed));
  }

  // ----- attributes

  function TypeText(t: CandidateType): string {
    if t == Host then "host" else "srflx"
  }

  function CandidateWords(c: Candidate): seq<string> {
    [c.foundation, Decimal(c.componentId), c.transport, Decimal(c.priority), c.address, Decimal(c.port),
     "typ", TypeText(c.candidateType)]
  }

  function CodecParts(name: string, rate: u32, params: Option<string>): seq<string> {
    [name, Decimal(rate)] + if params.Some? then [params.value] else []
  }

  function AttributeKey(a: Attribute): string {
    match a
    case CandidateAttr(_) => "candidate"
    case RtpMap(_, _, _, _) => "rtpmap"
    case FingerprintAttr(_) => "fingerprint"
    case Setup(_) => "setup"
  }

  function AttributeValue(a: Attribute): string {
    match a
    case CandidateAttr(c) => Join(CandidateWords(c), ' ')
    case RtpMap(t, name, rate, params) => Join([Decimal(t), Join(CodecParts(name, rate, params), '/')], ' ')
    case FingerprintAttr(f) => Join([f.algorithm, HexValue(f.bytes)], ' ')
    case Setup(role) => RoleText(role)
  }

  function AttributeText(a: Attribute): string {
    AttributeKey(a) + ":" + AttributeValue(a)
  }

  function ParseRtpMap(values: string): Result<Attribute, SdpError> {
    var words := Tokens(values);
    if |words| < 2 then Err(InvalidRtpMapFormat)
    else match ParseRadix(words[0], 10, 0xFF)
      case None => Err(InvalidRtpMapFormat)
      case Some(t) =>
        var parts := Split(words[1], '/');
        if parts[0] == "" then Err(MissingEncodingName)
        else if |parts| < 2 then Err(MissingClockRate)
        else match ParseRadix(parts[1], 10, 0xFFFF_FFFF)
          case None => Err(InvalidClockRateParsing)
          case Some(rate) =>
            if |parts| > 3 then Err(ExtraRtpFields)
            else Ok(RtpMap(t, parts[0], rate, if |parts| == 3 then Some(parts[2]) else None))
  }

  function ParseCandidateType(s: string): Option<CandidateType> {
    if s == "host" then Some(Host) else if s == "srflx" then Some(ServerReflexive) else None
  }

  function ParseCandidate(values: string): Result<Attribute, SdpError> {
    var words := Tokens(values);
    if |words| < 8 then Err(InvalidLineFormat)
    else if words[6] != "typ" then Err(InvalidCandidateFormat)
    else match ParseCandidateType(words[7])
      case None => Err(InvalidCandidateType)
      case Some(kind) => match ParseRadix(words[3], 10, 0xFFFF_FFFF)
        case None => Err(InvalidPriority)
        case Some(priority) => match ParseRadix(words[5], 10, 0xFFFF)
          case None => Err(InvalidPort)
          case Some(port) => match ParseRadix(words[1], 10, 0xFF)
            case None => Err(InvalidComponentId)
            case Some(component) =>
              Ok(CandidateAttr(Candidate(kind, priority, words[4], port, component, words[0], words[2])))
  }

  function ParseFingerprint(values: string): Result<Attribute, SdpError> {
    var words := Tokens(values);
    if words == [] then Err(InvalidAttributeFormat)
    else if |words| == 1 then Err(MissingFingerprintValue)
    else match ParseHash(Trim(words[0]), Trim(words[1]))
      case Ok(f) => Ok(FingerprintAttr(f))
      case Err(e) => Err(e)
  }

  function ParseSetup(value: string): Result<Attribute, SdpError> {
    match ParseRole(Trim(value))
    case Ok(role) => Ok(Setup(role))
    case Err(e) => Err(e)
  }

  function ParseAttribute(s: string): Result<Attribute, SdpError> {
    match SplitOnce(s, ':')
    case None => Err(InvalidAttributeFormat)
    case Some((key, value)) =>
      if key == "candidate" then ParseCandidate(value)
      else if key == "rtpmap" then ParseRtpMap(value)
      else if key == "fingerprint" then ParseFingerprint(value)
      else if key == "setup" then ParseSetup(value)
      else Err(InvalidAttributeFormat)
  }

  // ----- media sections

  function Decimals(order: seq<u8>): seq<string> {
    seq(|order|, i requires 0 <= i < |order| => Decimal(order[i]))
  }

  /** `order` is one of the orders in which a set may be printed. */
  predicate Lists(order: seq<u8>, fmts: set<u8>) {
    |order| == |fmts| && Elements(order) == fmts
  }

  function MediaWords(md: MediaDescription, order: seq<u8>): seq<string> {
    [md.mediaType, Decimal(md.port), md.protocol] + Decimals(order)
  }

  function MediaLine(md: MediaDescription, order: seq<u8>): string {
    "m=" + Join(MediaWords(md, order), ' ')
  }

  function AttributeLines(attrs: seq<Attribute>): seq<string> {
    seq(|attrs|, i requires 0 <= i < |attrs| => " a=" + AttributeText(attrs[i]))
  }

  function MediaLines(md: MediaDescription, order: seq<u8>): seq<string> {
    [MediaLine(md, order)] + AttributeLines(md.attributes)
  }

  function ParseFmts(words: seq<string>): Result<set<u8>, SdpError> {
    if words == [] then Ok({})
    else match (ParseFmts(words[..|words| - 1]), ParseRadix(words[|words| - 1], 10, 0xFF))
      case (Ok(fmts), Some(f)) => Ok(fmts + {f})
      case _ => Err(InvalidFmt)
  }

  function ParseMedia(s: string): Result<MediaDescription, SdpError> {
    var words := Tokens(s);
    if |words| < 4 then Err(InvalidMediaDescriptionFormat)
    else match ParseRadix(words[1], 10, 0xFFFF)
      case None => Err(InvalidPort)
      case Some(port) => match ParseFmts(words[3..])
        case Err(e) => Err(e)
        case Ok(fmts) => Ok(MediaDescription(words[0], port, words[2], fmts, []))
  }

  lemma {:induction false} FmtPrefixFails(words: seq<string>, i: nat)
    requires i <= |words| && ParseFmts(words[..i]).Err?
    ensures ParseFmts(words) == Err(InvalidFmt)
  {
    if i < |words| {
      assert words[..|words| - 1][..i] == words[..i];
      FmtPrefixFails(words[..|words| - 1], i);
    } else {
      assert words[..i] == words;
    }
  }

  method MediaFromStr(s: string) returns (r: Result<MediaDescription, SdpError>)
    ensures r == ParseMedia(s)
  {
    var words := Tokens(s);
    if |words| < 4 {
      return Err(InvalidMediaDescriptionFormat);
    }
    var port := ParseRadix(words[1], 10, 0xFFFF);
    if port.None? {
      return Err(InvalidPort);
    }
    var tokens := words[3..];
    var fmts := {};
    for i := 0 to |tokens|
      invariant ParseFmts(tokens[..i]) == Ok(fmts)
    {
      var fmt := ParseRadix(tokens[i], 10, 0xFF);
      assert tokens[..i + 1][..i] == tokens[..i];
      if fmt.None? {
        FmtPrefixFails(tokens, i + 1);
        return Err(InvalidFmt);
      }
      fmts := fmts + {fmt.value};
    }
    assert tokens[..|tokens|] == tokens;
    return Ok(MediaDescription(words[0], port.value, words[2], fmts, []));
  }

  lemma {:induction false} JoinAppend(parts: seq<string>, last: string, sep: char)
    requires parts != []
    ensures Join(parts + [last], sep) == Join(parts, sep) + [sep] + last
  {
    if |parts| == 1 {
      assert (parts + [last])[1..] == [last];
    } else {
      assert (parts + [last])[1..] == parts[1..] + [last];
      JoinAppend(parts[1..], last, sep);
    }
  }

  /** Writes the section the way `Display` does, piece by piece. */
  method DisplayMedia(md: MediaDescription, order: seq<u8>) returns (text: string)
    ensures text == Join(MediaLines(md, order), '\n')
  {
    hide AttributeText;
    var words := [md.mediaType, Decimal(md.port), md.protocol];
    text := "m=" + md.mediaType + " " + Decimal(md.port) + " " + md.protocol;
    HeadWords(md.mediaType, Decimal(md.port), md.protocol);
    assert words + Decimals(order[..0]) == words;
    for i := 0 to |order|
      invariant text == "m=" + Join(words + Decimals(order[..i]), ' ')
    {
      JoinAppend(words + Decimals(order[..i]), Decimal(order[i]), ' ');
      assert words + Decimals(order[..i + 1]) == words + Decimals(order[..i]) + [Decimal(order[i])];
      text := text + " " + Decimal(order[i]);
    }
    assert order[..|order|] == order;
    var line := [MediaLine(md, order)];
    assert line + AttributeLines(md.attributes[..0]) == line;
    for i := 0 to |md.attributes|
      invariant text == Join(line + AttributeLines(md.attributes[..i]), '\n')
    {
      var a := " a=" + AttributeText(md.attributes[i]);
      JoinAppend(line + AttributeLines(md.attributes[..i]), a, '\n');
      assert line + AttributeLines(md.attributes[..i + 1]) == line + AttributeLines(md.attributes[..i]) + [a];
      text := text + "\n a=" + AttributeText(md.attributes[i]);
      assert "\n a=" + AttributeText(md.attributes[i]) == "\n" + a;
    }
    assert md.attributes[..|md.attributes|] == md.attributes;
  }

  lemma HeadWords(x: string, y: string, z: string)
    ensures Join([x, y, z], ' ') == x + " " + y + " " + z
  {
    assert [x, y, z][1..] == [y, z] && [y, z][1..] == [z];
    assert Join([y, z], ' ') == y + " " + z;
  }

  // ----- sessions

  function HeaderLines(s: SessionDescription): seq<string> {
    ["v=" + Decimal(s.version), "o=" + Decimal(s.originId), "s=" + s.sessionName, "t=" + s.timing,
     "c=" + s.connectionData]
  }

  function BodyLines(media: seq<MediaDescription>, orders: seq<seq<u8>>): seq<string>
    requires |orders| == |media|
  {
    if media == [] then []
    else
      var n := |media| - 1;
      BodyLines(media[..n], orders[..n]) + MediaLines(media[n], orders[n])
  }

  /** The printed session; `orders` are the orders in which the format sets come out. */
  function Text(s: SessionDescription, orders: seq<seq<u8>>): string
    requires |orders| == |s.media|
  {
    Join(HeaderLines(s) + BodyLines(s.media, orders), '\n')
  }

  lemma {:induction false} JoinConcat(xs: seq<string>, ys: seq<string>, sep: char)
    requires xs != [] && ys != []
    ensures Join(xs + ys, sep) == Join(xs, sep) + [sep] + Join(ys, sep)
  {
    if |xs| == 1 {
      assert (xs + ys)[1..] == ys;
    } else {
      assert (xs + ys)[1..] == xs[1..] + ys;
      JoinConcat(xs[1..], ys, sep);
    }
  }

  /** The content is rebuilt section by section. */
  method DisplaySession(s: SessionDescription, orders: seq<seq<u8>>) returns (content: string)
    requires |orders| == |s.media|
    ensures content == Text(s, orders)
  {
    var header := HeaderLines(s);
    content := Join(header, '\n');
    hide HeaderLines, MediaLines, Join;
    assert header + BodyLines(s.media[..0], orders[..0]) == header;
    for i := 0 to |s.media|
      invariant content == Join(header + BodyLines(s.media[..i], orders[..i]), '\n')
    {
      var lines := MediaLines(s.media[i], orders[i]);
      var section := DisplayMedia(s.media[i], orders[i]);
      NonEmptyLines(s, s.media[i], orders[i]);
      JoinConcat(header + BodyLines(s.media[..i], orders[..i]), lines, '\n');
      assert s.media[..i + 1][..i] == s.media[..i] && orders[..i + 1][..i] == orders[..i];
      assert header + BodyLines(s.media[..i + 1], orders[..i + 1])
          == header + BodyLines(s.media[..i], orders[..i]) + lines;
      content := content + "\n" + section;
    }
    assert s.media[..|s.media|] == s.media && orders[..|orders|] == orders;
  }

  lemma NonEmptyLines(s: SessionDescription, md: MediaDescription, order: seq<u8>)
    ensures |HeaderLines(s)| == 5 && MediaLines(md, order) != []
  {
  }

  /** The session around parsed sections: the header fields are the defaults, whatever the text said. */
  function DefaultSession(media: seq<MediaDescription>): SessionDescription {
    SessionDescription(0, 0, "-", "0 0", media, "IN IP4 0.0.0.0")
  }

  function OnAttribute(media: seq<MediaDescription>, value: string): Result<seq<MediaDescription>, SdpError> {
    match ParseAttribute(value)
    case Err(e) => Err(e)
    case Ok(a) =>
      if media == [] then Err(MissingMediaDescription)
      else match AddAttribute(media[|media| - 1], a)
        case Err(e) => Err(e)
        case Ok(md) => Ok(media[..|media| - 1] + [md])
  }

  function OnLine(media: seq<MediaDescription>, line: string): Result<seq<MediaDescription>, SdpError> {
    var trimmed := Trim(line);
    if trimmed == "" then Ok(media)
    else match SplitOnce(trimmed, '=')
      case None => Err(InvalidMediaDescriptionFormat)
      case Some((key, value)) =>
        if key == "m" then
          match ParseMedia(value)
          case Err(e) => Err(e)
          case Ok(md) => Ok(media + [md])
        else if key == "a" then OnAttribute(media, value)
        else Ok(media)
  }

  function ParseLines(lines: seq<string>, media: seq<MediaDescription>): Result<seq<MediaDescription>, SdpError>
    decreases lines
  {
    if lines == [] then Ok(media)
    else match OnLine(media, lines[0])
      case Err(e) => Err(e)
      case Ok(after) => ParseLines(lines[1..], after)
  }

  function Parse(text: string): Result<SessionDescription, SdpError> {
    match ParseLines(Split(text, '\n'), [])
    case Ok(media) => Ok(DefaultSession(media))
    case Err(e) => Err(e)
  }

  /** Parses line by line, pushing sections and attaching attributes to the last one. */
  method SessionFromStr(text: string) returns (r: Result<SessionDescription, SdpError>)
    ensures r == Parse(text)
  {
    hide ParseAttribute, ParseMedia;
    var lines := Split(text, '\n');
    var media: seq<MediaDescription> := [];
    assert lines[0..] == lines;
    for i := 0 to |lines|
      invariant ParseLines(lines[i..], media) == ParseLines(lines, [])
    {
      assert lines[i..][1..] == lines[i + 1..];
      var line := Trim(lines[i]);
      if line == "" {
        continue;
      }
      var split := SplitOnce(line, '=');
      if split.None? {
        return Err(InvalidMediaDescriptionFormat);
      }
      if split.value.0 == "m" {
        var md := MediaFromStr(split.value.1);
        if md.Err? {
          return Err(md.error);
        }
        media := media + [md.value];
      } else if split.value.0 == "a" {
        var attached := OnAttribute(media, split.value.1);
        if attached.Err? {
          return Err(attached.error);
        }
        media := attached.value;
      }
    }
    return Ok(DefaultSession(media));
  }
}
