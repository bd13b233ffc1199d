/** What is printed is what is parsed, for exactly the well-formed sessions. */
module SdpRoundTrip {
  import opened Common
  import opened Chars
  import opened Ice
  import opened Sdp
  import opened SdpText

  // ----- well-formedness

  predicate WellFormedAttribute(a: Attribute) {
    match a
    case CandidateAttr(c) => IsWord(c.foundation) && IsWord(c.transport) && IsWord(c.address)
    case RtpMap(_, name, _, params) =>
      && IsWord(name) && '/' !in name
      && (params.Some? ==> NoWhitespace(params.value) && '/' !in params.value)
    case FingerprintAttr(f) => IsWord(f.algorithm) && f.bytes != []
    case Setup(_) => true
  }

  predicate WellFormed(md: MediaDescription) {
    && IsWord(md.mediaType) && IsWord(md.protocol) && md.fmts != {}
    && Consistent(md)
    && forall a <- md.attributes :: WellFormedAttribute(a)
  }

  predicate AllWellFormed(media: seq<MediaDescription>) {
    forall md <- media :: WellFormed(md)
  }

  // ----- joined words

  lemma {:induction false} JoinAvoids(parts: seq<string>, sep: char, c: char)
    requires c != sep && forall p <- parts :: c !in p
    ensures c !in Join(parts, sep)
  {
    if |parts| > 1 {
      JoinAvoids(parts[1..], sep, c);
    }
  }

  lemma {:induction false} JoinNoWhitespace(parts: seq<string>, sep: char)
    requires !IsWhitespace(sep) && forall p <- parts :: NoWhitespace(p)
    ensures NoWhitespace(Join(parts, sep))
  {
    if |parts| > 1 {
      JoinNoWhitespace(parts[1..], sep);
      assert NoWhitespace(parts[0]);
      assert forall c <- Join(parts, sep) :: c in parts[0] || c == sep || c in Join(parts[1..], sep);
    }
  }

  lemma {:induction false} JoinEnds(parts: seq<string>, sep: char)
    requires parts != [] && IsWord(parts[|parts| - 1])
    ensures var s := Join(parts, sep); s != "" && !IsWhitespace(s[|s| - 1])
  {
    if |parts| > 1 {
      JoinEnds(parts[1..], sep);
    } else {
      assert parts[0][|parts[0]| - 1] in parts[0];
    }
  }

  lemma WordTrims(w: string)
    requires IsWord(w)
    ensures Trim(w) == w
  {
    assert w[0] in w && w[|w| - 1] in w;
    TrimKeeps(w);
  }

  // ----- attributes read back

  lemma RoleIsWord(role: DtlsSetupRole)
    ensures IsWord(RoleText(role)) && forall i :: 0 <= i < |RoleText(role)| ==> !('A' <= RoleText(role)[i] <= 'Z')
  {
  }

  lemma RoleReadsBack(role: DtlsSetupRole)
    ensures ParseRole(RoleText(role)) == Ok(role) && IsWord(RoleText(role)) && Trim(RoleText(role)) == RoleText(role)
  {
    hide Lower, Trim;
    var text := RoleText(role);
    RoleIsWord(role);
    LowerKeeps(text);
    WordTrims(text);
  }

  lemma {:induction false} HexPartsReadBack(bytes: seq<u8>)
    ensures ParseHexParts(HexBytes(bytes)) == Ok(bytes)
  {
    hide ParseRadix, HexByte;
    if bytes != [] {
      var n := |bytes| - 1;
      assert HexBytes(bytes)[..n] == HexBytes(bytes[..n]);
      HexPartsReadBack(bytes[..n]);
      HexParses(bytes[n]);
      WordTrims(HexByte(bytes[n]));
      assert HexBytes(bytes)[n] == HexByte(bytes[n]);
      assert bytes[..n] + [bytes[n]] == bytes;
    }
  }

  lemma HexIsWord(bytes: seq<u8>)
    requires bytes != []
    ensures IsWord(HexValue(bytes)) && Split(HexValue(bytes), ':') == HexBytes(bytes)
  {
    forall p <- HexBytes(bytes)
      ensures IsWord(p) && ':' !in p
    {
      var i :| 0 <= i < |bytes| && p == HexByte(bytes[i]);
      HexParses(bytes[i]);
    }
    JoinNoWhitespace(HexBytes(bytes), ':');
    JoinEnds(HexBytes(bytes), ':');
    SplitOfJoin(HexBytes(bytes), ':');
  }

  lemma HashReadsBack(f: Fingerprint)
    requires f.bytes != []
    ensures ParseHash(f.algorithm, HexValue(f.bytes)) == Ok(f) && IsWord(HexValue(f.bytes))
  {
    HexIsWord(f.bytes);
    HexPartsReadBack(f.bytes);
    hide HexValue, HexBytes, ParseHexParts, Split, Trim;
    WordTrims(HexValue(f.bytes));
  }

  lemma FingerprintReadsBack(f: Fingerprint)
    requires IsWord(f.algorithm) && f.bytes != []
    ensures ParseFingerprint(AttributeValue(FingerprintAttr(f))) == Ok(FingerprintAttr(f))
  {
    hide ParseHash, HexValue, Tokens, Trim, Join;
    HashReadsBack(f);
    TokensOfJoin([f.algorithm, HexValue(f.bytes)]);
    WordTrims(f.algorithm);
    WordTrims(HexValue(f.bytes));
  }

  lemma CodecIsWord(name: string, rate: u32, params: Option<string>)
    requires WellFormedAttribute(RtpMap(0, name, rate, params))
    ensures IsWord(Join(CodecParts(name, rate, params), '/'))
    ensures Split(Join(CodecParts(name, rate, params), '/'), '/') == CodecParts(name, rate, params)
  {
    hide ParseRadix, Decimal, Split;
    DecimalParses(rate, rate);
    var parts := CodecParts(name, rate, params);
    JoinNoWhitespace(parts, '/');
    SplitOfJoin(parts, '/');
  }

  lemma RtpMapReadsBack(a: Attribute)
    requires a.RtpMap? && WellFormedAttribute(a)
    ensures ParseRtpMap(AttributeValue(a)) == Ok(a)
  {
    CodecIsWord(a.encodingName, a.clockRate, a.encodingParams);
    DecimalParses(a.payloadType, 0xFF);
    DecimalParses(a.clockRate, 0xFFFF_FFFF);
    hide ParseRadix, Decimal, Split, Tokens, IsWord;
    TokensOfJoin([Decimal(a.payloadType), Join(CodecParts(a.encodingName, a.clockRate, a.encodingParams), '/')]);
  }

  lemma CandidateWordsAreWords(c: Candidate)
    requires WellFormedAttribute(CandidateAttr(c))
    ensures forall w <- CandidateWords(c) :: IsWord(w)
  {
    hide Decimal, ParseRadix;
    DecimalParses(c.componentId, 0xFF);
    DecimalParses(c.priority, 0xFFFF_FFFF);
    DecimalParses(c.port, 0xFFFF);
  }

  lemma CandidateReadsBack(c: Candidate)
    requires WellFormedAttribute(CandidateAttr(c))
    ensures ParseCandidate(AttributeValue(CandidateAttr(c))) == Ok(CandidateAttr(c))
  {
    hide Decimal, ParseRadix, Tokens, IsWord;
    CandidateWordsAreWords(c);
    TokensOfJoin(CandidateWords(c));
    DecimalParses(c.componentId, 0xFF);
    DecimalParses(c.priority, 0xFFFF_FFFF);
    DecimalParses(c.port, 0xFFFF);
  }

  lemma AttributeReadsBack(a: Attribute)
    requires WellFormedAttribute(a)
    ensures ParseAttribute(AttributeText(a)) == Ok(a)
  {
    SplitOnceAt(AttributeKey(a), AttributeValue(a), ':');
    hide SplitOnce, ParseCandidate, ParseRtpMap, ParseFingerprint, ParseRole;
    match a
    case CandidateAttr(c) => CandidateReadsBack(c);
    case RtpMap(_, _, _, _) => RtpMapReadsBack(a);
    case FingerprintAttr(f) => FingerprintReadsBack(f);
    case Setup(role) => RoleReadsBack(role);
  }

  // ----- lines read back

  lemma ValueLine(a: Attribute)
    requires WellFormedAttribute(a)
    ensures var v := AttributeValue(a); '\n' !in v && v != "" && !IsWhitespace(v[|v| - 1])
  {
    hide Decimal, Split, ParseRadix, HexValue;
    match a
    case CandidateAttr(c) =>
      CandidateWordsAreWords(c);
      WordsLine(CandidateWords(c));
    case RtpMap(t, name, rate, params) =>
      DecimalParses(t, 0xFF);
      CodecIsWord(name, rate, params);
      WordsLine([Decimal(t), Join(CodecParts(name, rate, params), '/')]);
    case FingerprintAttr(f) =>
      HexIsWord(f.bytes);
      WordsLine([f.algorithm, HexValue(f.bytes)]);
    case Setup(role) => RoleReadsBack(role);
  }

  lemma NoNewline(a: Attribute)
    requires WellFormedAttribute(a)
    ensures var text := AttributeText(a); '\n' !in text && text != "" && !IsWhitespace(text[|text| - 1])
  {
    hide AttributeValue, WellFormedAttribute;
    ValueLine(a);
    assert '\n' !in AttributeKey(a);
  }

  lemma WordsLine(words: seq<string>)
    requires words != [] && forall w <- words :: IsWord(w)
    ensures '\n' !in Join(words, ' ')
    ensures var s := Join(words, ' '); s != "" && !IsWhitespace(s[|s| - 1])
  {
    JoinAvoids(words, ' ', '\n');
    JoinEnds(words, ' ');
  }

  /** A trimmed line `key=value`, possibly indented. */
  lemma LineSplits(key: char, value: string)
    requires !IsWhitespace(key) && key != '=' && value != "" && !IsWhitespace(value[|value| - 1])
    ensures var line := [key] + "=" + value;
            && Trim(line) == line && Trim(" " + line) == line
            && SplitOnce(line, '=') == Some(([key], value))
  {
    TrimKeeps([key] + "=" + value);
    SplitOnceAt([key], value, '=');
  }

  lemma AttributeLineReads(before: seq<MediaDescription>, md: MediaDescription, a: Attribute)
    requires WellFormedAttribute(a) && (a.RtpMap? ==> a.payloadType in md.fmts)
    ensures OnLine(before + [md], " a=" + AttributeText(a)) == Ok(before + [md.(attributes := md.attributes + [a])])
  {
    hide AttributeText, WellFormedAttribute, ParseAttribute, Trim, SplitOnce;
    AttributeReadsBack(a);
    NoNewline(a);
    var text := AttributeText(a);
    LineSplits('a', text);
    assert " a=" + text == " " + (['a'] + "=" + text);
    assert (before + [md])[..|before|] == before;
  }

  lemma {:induction false} AttributeLinesRead(
    before: seq<MediaDescription>, md: MediaDescription, attrs: seq<Attribute>)
    requires forall a <- attrs :: WellFormedAttribute(a) && (a.RtpMap? ==> a.payloadType in md.fmts)
    ensures ParseLines(AttributeLines(attrs), before + [md])
            == Ok(before + [md.(attributes := md.attributes + attrs)])
    decreases attrs
  {
    hide OnLine, AttributeText, WellFormedAttribute;
    if attrs == [] {
      assert md.attributes + attrs == md.attributes;
    } else {
      var md' := md.(attributes := md.attributes + [attrs[0]]);
      AttributeLineReads(before, md, attrs[0]);
      AttributeLinesRead(before, md', attrs[1..]);
      assert AttributeLines(attrs)[1..] == AttributeLines(attrs[1..]);
      assert md'.attributes + attrs[1..] == md.attributes + attrs;
    }
  }

  lemma {:induction false} FmtsReadBack(order: seq<u8>)
    ensures ParseFmts(Decimals(order)) == Ok(Elements(order))
  {
    hide ParseRadix, Decimal;
    if order != [] {
      var n := |order| - 1;
      FmtsReadBack(order[..n]);
      DecimalParses(order[n], 0xFF);
      assert Decimals(order)[..n] == Decimals(order[..n]);
      assert order == order[..n] + [order[n]];
      assert Elements(order) == Elements(order[..n]) + {order[n]};
      assert Decimals(order)[n] == Decimal(order[n]);
    } else {
      assert Elements(order) == {};
    }
  }

  lemma MediaWordsAreWords(md: MediaDescription, order: seq<u8>)
    requires IsWord(md.mediaType) && IsWord(md.protocol)
    ensures forall w <- MediaWords(md, order) :: IsWord(w)
  {
    hide ParseRadix, Decimal;
    DecimalParses(md.port, 0xFFFF);
    forall i | 0 <= i < |order|
      ensures IsWord(Decimals(order)[i])
    {
      DecimalParses(order[i], 0xFF);
    }
  }

  lemma MediaReadsBack(md: MediaDescription, order: seq<u8>)
    requires WellFormed(md) && Lists(order, md.fmts)
    ensures ParseMedia(Join(MediaWords(md, order), ' ')) == Ok(md.(attributes := []))
  {
    MediaWordsAreWords(md, order);
    TokensOfJoin(MediaWords(md, order));
    DecimalParses(md.port, 0xFFFF);
    FmtsReadBack(order);
    hide Tokens, ParseRadix, Decimal, ParseFmts;
    assert MediaWords(md, order)[3..] == Decimals(order);
  }

  lemma MediaLineReads(before: seq<MediaDescription>, md: MediaDescription, order: seq<u8>)
    requires WellFormed(md) && Lists(order, md.fmts)
    ensures OnLine(before, MediaLine(md, order)) == Ok(before + [md.(attributes := [])])
    ensures '\n' !in MediaLine(md, order)
  {
    hide ParseMedia, Trim, SplitOnce;
    MediaReadsBack(md, order);
    MediaWordsAreWords(md, order);
    WordsLine(MediaWords(md, order));
    var value := Join(MediaWords(md, order), ' ');
    LineSplits('m', value);
    assert "m=" + value == ['m'] + "=" + value;
  }

  lemma SectionReads(before: seq<MediaDescription>, md: MediaDescription, order: seq<u8>)
    requires WellFormed(md) && Lists(order, md.fmts)
    ensures ParseLines(MediaLines(md, order), before) == Ok(before + [md])
  {
    hide OnLine, MediaLine, AttributeText;
    MediaLineReads(before, md, order);
    AttributeLinesRead(before, md.(attributes := []), md.attributes);
    assert MediaLines(md, order)[1..] == AttributeLines(md.attributes);
    assert [] + md.attributes == md.attributes;
  }

  lemma {:induction false} ParseLinesJoin(xs: seq<string>, ys: seq<string>, media: seq<MediaDescription>)
    ensures ParseLines(xs + ys, media) == match ParseLines(xs, media)
                                          case Ok(after) => ParseLines(ys, after)
                                          case Err(e) => Err(e)
    decreases xs
  {
    hide OnLine;
    if xs == [] {
      assert xs + ys == ys;
    } else {
      assert (xs + ys)[1..] == xs[1..] + ys;
      match OnLine(media, xs[0])
      case Ok(after) => ParseLinesJoin(xs[1..], ys, after);
      case Err(_) =>
    }
  }

  /** `orders` prints every section's formats in some order. */
  predicate ListsAll(orders: seq<seq<u8>>, media: seq<MediaDescription>) {
    |orders| == |media| && forall i :: 0 <= i < |media| ==> Lists(orders[i], media[i].fmts)
  }

  lemma {:induction false} BodyReads(media: seq<MediaDescription>, orders: seq<seq<u8>>)
    requires AllWellFormed(media) && ListsAll(orders, media)
    ensures ParseLines(BodyLines(media, orders), []) == Ok(media)
    ensures forall line <- BodyLines(media, orders) :: '\n' !in line
  {
    hide MediaLines, WellFormed, Lists, OnLine;
    if media != [] {
      var n := |media| - 1;
      assert WellFormed(media[n]) && Lists(orders[n], media[n].fmts);
      BodyReads(media[..n], orders[..n]);
      SectionReads(media[..n], media[n], orders[n]);
      SectionNoNewline(media[n], orders[n]);
      ParseLinesJoin(BodyLines(media[..n], orders[..n]), MediaLines(media[n], orders[n]), []);
      assert media[..n] + [media[n]] == media;
    }
  }

  lemma SectionNoNewline(md: MediaDescription, order: seq<u8>)
    requires WellFormed(md) && Lists(order, md.fmts)
    ensures forall line <- MediaLines(md, order) :: '\n' !in line
  {
    hide AttributeText, MediaLine;
    MediaLineReads([], md, order);
    forall i | 0 <= i < |md.attributes|
      ensures '\n' !in AttributeLines(md.attributes)[i]
    {
      NoNewline(md.attributes[i]);
    }
  }

  // ----- the header is skipped

  lemma {:induction false} TrimEndKeepsHead(head: string, rest: string)
    requires head != "" && !IsWhitespace(head[|head| - 1])
    ensures exists kept :: TrimEnd(head + rest) == head + kept
  {
    if rest == "" {
      assert TrimEnd(head + rest) == head + "";
    } else if IsWhitespace(rest[|rest| - 1]) {
      assert (head + rest)[..|head + rest| - 1] == head + rest[..|rest| - 1];
      TrimEndKeepsHead(head, rest[..|rest| - 1]);
    } else {
      assert TrimEnd(head + rest) == head + rest;
    }
  }

  lemma HeaderLineSkipped(media: seq<MediaDescription>, line: string)
    requires |line| >= 2 && line[0] in "vostc" && line[1] == '='
    ensures OnLine(media, line) == Ok(media)
  {
    var key := line[0];
    assert line == [key] + "=" + line[2..];
    TrimEndKeepsHead([key] + "=", line[2..]);
    var kept :| TrimEnd(line) == [key] + "=" + kept;
    SplitOnceAt([key], kept, '=');
    hide SplitOnce, TrimEnd;
    assert !IsWhitespace(key);
    assert Trim(line) == [key] + "=" + kept;
    assert [key][0] == key;
  }

  lemma HeaderSkipped(s: SessionDescription)
    ensures ParseLines(HeaderLines(s), []) == Ok([])
  {
    hide OnLine, Decimal, ParseLines;
    var h := HeaderLines(s);
    forall i | 0 <= i < |h|
      ensures OnLine([], h[i]) == Ok([])
    {
      assert |h[i]| >= 2 && h[i][0] == "vostc"[i] && h[i][1] == '=';
      HeaderLineSkipped([], h[i]);
    }
    AllSkipped(h);
  }

  lemma {:induction false} AllSkipped(lines: seq<string>)
    requires forall line <- lines :: OnLine([], line) == Ok([])
    ensures ParseLines(lines, []) == Ok([])
  {
    hide OnLine;
    if lines != [] {
      AllSkipped(lines[1..]);
    }
  }

  predicate HeaderOk(s: SessionDescription) {
    '\n' !in s.sessionName && '\n' !in s.timing && '\n' !in s.connectionData
  }

  lemma HeaderNoNewline(s: SessionDescription)
    requires HeaderOk(s)
    ensures forall line <- HeaderLines(s) :: '\n' !in line
  {
  }

  /** Printed in whatever order its sets come out, a well-formed session is parsed back, section by section. */
  lemma RoundTrip(s: SessionDescription, orders: seq<seq<u8>>)
    requires HeaderOk(s) && AllWellFormed(s.media) && ListsAll(orders, s.media)
    ensures Parse(Text(s, orders)) == Ok(DefaultSession(s.media))
  {
    var header, body := HeaderLines(s), BodyLines(s.media, orders);
    HeaderNoNewline(s);
    BodyReads(s.media, orders);
    HeaderSkipped(s);
    hide HeaderLines, BodyLines, OnLine, Split, ParseLines, WellFormed, ListsAll;
    ParseLinesJoin(header, body, []);
    assert header + body != [] by {
      NonEmptyHeader(s);
    }
    SplitOfJoin(header + body, '\n');
  }

  lemma NonEmptyHeader(s: SessionDescription)
    ensures HeaderLines(s) != []
  {
  }

  // ----- whatever is parsed is well formed

  lemma ParsedAttribute(s: string)
    requires ParseAttribute(s).Ok?
    ensures WellFormedAttribute(ParseAttribute(s).value)
  {
    hide Tokens, SplitOnce, ParseRadix, Trim;
    var split := SplitOnce(s, ':');
    if split.value.0 == "fingerprint" {
      ParsedFingerprint(split.value.1);
    } else if split.value.0 == "rtpmap" {
      ParsedRtpMap(split.value.1);
    }
  }

  lemma ParsedRtpMap(values: string)
    requires ParseRtpMap(values).Ok?
    ensures WellFormedAttribute(ParseRtpMap(values).value)
  {
    hide Tokens, ParseRadix, Split;
    var word := Tokens(values)[1];
    var parts := Split(word, '/');
    assert IsWord(word);
    PartsOfSplit(word, '/');
    assert NoWhitespace(parts[0]) && '/' !in parts[0];
    assert |parts| == 3 ==> NoWhitespace(parts[2]) && '/' !in parts[2];
  }

  lemma ParsedFingerprint(values: string)
    requires ParseFingerprint(values).Ok?
    ensures WellFormedAttribute(ParseFingerprint(values).value)
  {
    hide Tokens, ParseRadix, Split;
    var words := Tokens(values);
    WordTrims(words[0]);
    hide Trim;
    var parts := Split(Trim(Trim(words[1])), ':');
    assert ParseHexParts(parts).Ok? && parts != [];
  }

  lemma ParsedFmts(words: seq<string>)
    requires words != [] && ParseFmts(words).Ok?
    ensures ParseFmts(words).value != {}
  {
    hide ParseRadix;
  }

  lemma LineKeepsWellFormed(media: seq<MediaDescription>, line: string)
    requires AllWellFormed(media) && OnLine(media, line).Ok?
    ensures AllWellFormed(OnLine(media, line).value)
  {
    hide Tokens, SplitOnce, ParseRadix, Trim, ParseAttribute, ParseFmts, WellFormedAttribute;
    var split := SplitOnce(Trim(line), '=');
    if Trim(line) != "" && split.value.0 == "m" {
      var words := Tokens(split.value.1);
      ParsedFmts(words[3..]);
    } else if Trim(line) != "" && split.value.0 == "a" {
      ParsedAttribute(split.value.1);
      var md, a := media[|media| - 1], ParseAttribute(split.value.1).value;
      assert WellFormed(md);
      assert WellFormed(AddAttribute(md, a).value);
    }
  }

  lemma {:induction false} ParsedIsWellFormed(lines: seq<string>, media: seq<MediaDescription>)
    requires AllWellFormed(media) && ParseLines(lines, media).Ok?
    ensures AllWellFormed(ParseLines(lines, media).value)
    decreases lines
  {
    hide OnLine, AllWellFormed;
    if lines != [] {
      LineKeepsWellFormed(media, lines[0]);
      ParsedIsWellFormed(lines[1..], OnLine(media, lines[0]).value);
    }
  }

  /** The text of a session reads back as the same sections exactly when they are all well formed. */
  lemma RoundTripExact(s: SessionDescription, orders: seq<seq<u8>>)
    requires HeaderOk(s) && ListsAll(orders, s.media)
    ensures Parse(Text(s, orders)) == Ok(DefaultSession(s.media)) <==> AllWellFormed(s.media)
  {
    if AllWellFormed(s.media) {
      RoundTrip(s, orders);
    }
    if Parse(Text(s, orders)) == Ok(DefaultSession(s.media)) {
      ParsedIsWellFormed(Split(Text(s, orders), '\n'), []);
    }
  }

  /** Some rtpmap of the local section has an encoding that the offered one advertises. */
  predicate Shares(local: MediaDescription, offer: MediaDescription) {
    exists a, o :: a in local.attributes && o in offer.attributes && a.RtpMap? && o.RtpMap?
                   && a.encodingName == o.encodingName
  }

  lemma AnswerSectionWellFormedExact(local: MediaDescription, offer: MediaDescription)
    requires WellFormed(local)
    ensures WellFormed(AnswerSection(local, offer)) <==> Shares(local, offer)
  {
    var section := AnswerSection(local, offer);
    hide AnswerSection, WellFormedAttribute;
    forall a <- section.attributes
      ensures a in local.attributes
    {
      AnswerKeepsShared(local, offer, a);
    }
    SectionShape(local, offer);
    if section.fmts != {} {
      var t :| t in section.fmts;
      var a :| a in section.attributes && a.RtpMap? && a.payloadType == t;
      AnswerKeepsShared(local, offer, a);
      AdvertisedIsMembership(a.encodingName, offer.attributes);
    }
    if Shares(local, offer) {
      var a, o :| a in local.attributes && o in offer.attributes && a.RtpMap? && o.RtpMap?
        && a.encodingName == o.encodingName;
      AdvertisedIsMembership(a.encodingName, offer.attributes);
      AnswerKeepsShared(local, offer, a);
      assert a.payloadType in section.fmts;
    }
  }

  lemma SectionShape(local: MediaDescription, offer: MediaDescription)
    ensures var section := AnswerSection(local, offer);
            && section.mediaType == local.mediaType && section.protocol == local.protocol
            && section.fmts == PayloadTypes(section.attributes) && Consistent(section)
  {
  }

  predicate AllShare(locals: seq<MediaDescription>, offers: seq<MediaDescription>) {
    forall l <- locals :: FindMatch(l, offers).Some? ==> Shares(l, FindMatch(l, offers).value)
  }

  lemma {:induction false} AnswerWellFormedExact(locals: seq<MediaDescription>, offers: seq<MediaDescription>)
    requires AllWellFormed(locals)
    ensures AllWellFormed(AnswerMedia(locals, offers)) <==> AllShare(locals, offers)
  {
    hide WellFormed, Shares, FindMatch, AnswerSection;
    if locals != [] {
      var n := |locals| - 1;
      AnswerWellFormedExact(locals[..n], offers);
      assert locals == locals[..n] + [locals[n]];
      if FindMatch(locals[n], offers).Some? {
        AnswerSectionWellFormedExact(locals[n], FindMatch(locals[n], offers).value);
      }
    }
  }

  /**
   * The text of an answer reads back exactly when every local section with a match shares an encoding
   * with it: a matched section without one is printed with no format, which the parser refuses.
   */
  lemma AnswerReadsBackExact(local: SessionDescription, offer: SessionDescription, orders: seq<seq<u8>>)
    requires HeaderOk(local) && AllWellFormed(local.media)
    requires ListsAll(orders, Answer(local, offer).media)
    ensures Parse(Text(Answer(local, offer), orders)) == Ok(DefaultSession(Answer(local, offer).media))
            <==> AllShare(local.media, offer.media)
  {
    hide AllShare, AllWellFormed, AnswerMedia, Parse, Text;
    RoundTripExact(Answer(local, offer), orders);
    AnswerWellFormedExact(local.media, offer.media);
  }
}
