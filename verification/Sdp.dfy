/** Session descriptions as values, and the answer to an offer
  * (src/session/sdp/media_description.rs, src/session/sdp/session_description.rs).
  */
module Sdp {
  import opened Common
  import opened Ice

  datatype DtlsSetupRole = ActPass | Active | Passive | HoldConn

  datatype Fingerprint = Fingerprint(algorithm: string, bytes: seq<u8>)

  datatype Attribute =
    | CandidateAttr(candidate: Candidate)
    | RtpMap(payloadType: u8, encodingName: string, clockRate: u32, encodingParams: Option<string>)
    | FingerprintAttr(fingerprint: Fingerprint)
    | Setup(role: DtlsSetupRole)

  datatype SdpError =
    | InvalidMediaDescriptionFormat | InvalidPort | InvalidFmt | UnmatchingMediaDescriptionAndAttribute
    | MissingMediaDescription | InvalidAttributeFormat | InvalidRtpMapFormat | MissingEncodingName
    | MissingClockRate | InvalidClockRateParsing | ExtraRtpFields | InvalidLineFormat
    | InvalidCandidateFormat | InvalidCandidateType | InvalidPriority | InvalidComponentId
    | MissingFingerprintValue | InvalidFingerprintFormat | InvalidSetupRole

  datatype MediaDescription = MediaDescription(
    mediaType: string, port: u16, protocol: string, fmts: set<u8>, attributes: seq<Attribute>)

  datatype SessionDescription = SessionDescription(
    version: u8, originId: u64, sessionName: string, timing: string,
    media: seq<MediaDescription>, connectionData: string)

  /** Appends an attribute; an rtpmap must name a payload type of the section. */
  function AddAttribute(md: MediaDescription, attr: Attribute): Result<MediaDescription, SdpError> {
    if attr.RtpMap? && attr.payloadType !in md.fmts then Err(UnmatchingMediaDescriptionAndAttribute)
    else Ok(md.(attributes := md.attributes + [attr]))
  }

  /** Every rtpmap of the section names one of its payload types. */
  predicate Consistent(md: MediaDescription) {
    forall a :: a in md.attributes && a.RtpMap? ==> a.payloadType in md.fmts
  }

  function Candidates(attrs: seq<Attribute>): seq<Candidate> {
    if attrs == [] then []
    else (if attrs[0].CandidateAttr? then [attrs[0].candidate] else []) + Candidates(attrs[1..])
  }

  function FirstFingerprint(attrs: seq<Attribute>): Option<Fingerprint> {
    if attrs == [] then None
    else if attrs[0].FingerprintAttr? then Some(attrs[0].fingerprint)
    else FirstFingerprint(attrs[1..])
  }

  function FirstSetup(attrs: seq<Attribute>): Option<DtlsSetupRole> {
    if attrs == [] then None
    else if attrs[0].Setup? then Some(attrs[0].role)
    else FirstSetup(attrs[1..])
  }

  /** `retain(not setup)`. */
  function WithoutSetup(attrs: seq<Attribute>): seq<Attribute> {
    if attrs == [] then []
    else (if attrs[0].Setup? then [] else [attrs[0]]) + WithoutSetup(attrs[1..])
  }

  lemma {:induction false} CandidatesAppend(attrs: seq<Attribute>, a: Attribute)
    ensures Candidates(attrs + [a]) == Candidates(attrs) + if a.CandidateAttr? then [a.candidate] else []
  {
    if attrs != [] {
      assert (attrs + [a])[1..] == attrs[1..] + [a];
      CandidatesAppend(attrs[1..], a);
    } else {
      assert (attrs + [a])[1..] == [];
    }
  }

  method GetCandidates(md: MediaDescription) returns (candidates: seq<Candidate>)
    ensures candidates == Candidates(md.attributes)
  {
    candidates := [];
    for i := 0 to |md.attributes|
      invariant candidates == Candidates(md.attributes[..i])
    {
      CandidatesAppend(md.attributes[..i], md.attributes[i]);
      assert md.attributes[..i + 1] == md.attributes[..i] + [md.attributes[i]];
      if md.attributes[i].CandidateAttr? {
        candidates := candidates + [md.attributes[i].candidate];
      }
    }
    assert md.attributes[..|md.attributes|] == md.attributes;
  }

  method GetFingerprint(md: MediaDescription) returns (r: Option<Fingerprint>)
    ensures r == FirstFingerprint(md.attributes)
  {
    assert md.attributes[0..] == md.attributes;
    for i := 0 to |md.attributes|
      invariant FirstFingerprint(md.attributes[i..]) == FirstFingerprint(md.attributes)
    {
      assert md.attributes[i..][1..] == md.attributes[i + 1..];
      if md.attributes[i].FingerprintAttr? {
        return Some(md.attributes[i].fingerprint);
      }
    }
    return None;
  }

  method GetSetupRole(md: MediaDescription) returns (r: Option<DtlsSetupRole>)
    ensures r == FirstSetup(md.attributes)
  {
    assert md.attributes[0..] == md.attributes;
    for i := 0 to |md.attributes|
      invariant FirstSetup(md.attributes[i..]) == FirstSetup(md.attributes)
    {
      assert md.attributes[i..][1..] == md.attributes[i + 1..];
      if md.attributes[i].Setup? {
        return Some(md.attributes[i].role);
      }
    }
    return None;
  }

  // ----- the answer

  /** How many rtpmaps of the offer advertise the encoding `name`. */
  function Advertised(name: string, offer: seq<Attribute>): nat {
    if offer == [] then 0
    else (if offer[0].RtpMap? && offer[0].encodingName == name then 1 else 0) + Advertised(name, offer[1..])
  }

  function Repeat(a: Attribute, n: nat): (r: seq<Attribute>)
    ensures |r| == n && forall i :: 0 <= i < n ==> r[i] == a
  {
    seq(n, _ => a)
  }

  /** How often an answer keeps each copy of a local attribute. */
  function Copies(a: Attribute, offer: seq<Attribute>): nat {
    if a.RtpMap? then Advertised(a.encodingName, offer) else 1
  }

  /** The local attributes an answer keeps: an rtpmap once for each time its encoding is advertised. */
  function Kept(local: seq<Attribute>, offer: seq<Attribute>): seq<Attribute> {
    if local == [] then []
    else
      var a := local[|local| - 1];
      Kept(local[..|local| - 1], offer) + Repeat(a, Copies(a, offer))
  }

  /** The payload types of the rtpmaps in a list of attributes. */
  function PayloadTypes(attrs: seq<Attribute>): set<u8> {
    set a | a in attrs && a.RtpMap? :: a.payloadType
  }

  /** The answer section for a local section matched with an offered one. */
  function AnswerSection(local: MediaDescription, offer: MediaDescription): MediaDescription {
    var attrs := Kept(local.attributes, offer.attributes);
    MediaDescription(local.mediaType, if attrs == [] then 0 else local.port, local.protocol,
                     PayloadTypes(attrs), attrs)
  }

  predicate Matches(local: MediaDescription, offer: MediaDescription) {
    offer.mediaType == local.mediaType && offer.protocol == local.protocol
  }

  function FindMatch(local: MediaDescription, offers: seq<MediaDescription>): Option<MediaDescription> {
    if offers == [] then None
    else if Matches(local, offers[0]) then Some(offers[0])
    else FindMatch(local, offers[1..])
  }

  function AnswerMedia(locals: seq<MediaDescription>, offers: seq<MediaDescription>): seq<MediaDescription> {
    if locals == [] then []
    else
      var last := locals[|locals| - 1];
      AnswerMedia(locals[..|locals| - 1], offers)
      + match FindMatch(last, offers)
        case Some(offer) => [AnswerSection(last, offer)]
        case None => []
  }

  function Answer(local: SessionDescription, offer: SessionDescription): SessionDescription {
    local.(media := AnswerMedia(local.media, offer.media), connectionData := "IN IP4 0.0.0.0")
  }

  // ----- the loops that build it

  lemma {:induction false} AdvertisedPrefix(name: string, offer: seq<Attribute>, i: nat)
    requires i < |offer|
    ensures Advertised(name, offer[..i + 1])
            == Advertised(name, offer[..i]) + if offer[i].RtpMap? && offer[i].encodingName == name then 1 else 0
  {
    if i == 0 {
      assert offer[..1] == [offer[0]] && offer[..0] == [];
      assert [offer[0]][1..] == [];
    } else {
      assert offer[..i + 1][1..] == offer[1..][..i] && offer[..i][1..] == offer[1..][..i - 1];
      AdvertisedPrefix(name, offer[1..], i - 1);
    }
  }

  method CompatibleAttributesData(local: MediaDescription, offer: MediaDescription)
    returns (fmts: set<u8>, attrs: seq<Attribute>)
    ensures attrs == Kept(local.attributes, offer.attributes)
    ensures fmts == PayloadTypes(attrs)
  {
    attrs, fmts := [], {};
    for i := 0 to |local.attributes|
      invariant attrs == Kept(local.attributes[..i], offer.attributes)
      invariant fmts == PayloadTypes(attrs)
    {
      var a := local.attributes[i];
      ghost var before := attrs;
      if a.RtpMap? {
        for j := 0 to |offer.attributes|
          invariant attrs == before + Repeat(a, Advertised(a.encodingName, offer.attributes[..j]))
          invariant fmts == PayloadTypes(attrs)
        {
          var o := offer.attributes[j];
          AdvertisedPrefix(a.encodingName, offer.attributes, j);
          if o.RtpMap? && o.encodingName == a.encodingName {
            PayloadTypesAppend(attrs, a);
            fmts := fmts + {a.payloadType};
            attrs := attrs + [a];
          }
        }
        assert offer.attributes[..|offer.attributes|] == offer.attributes;
      } else {
        PayloadTypesAppend(attrs, a);
        attrs := attrs + [a];
        assert Repeat(a, 1) == [a];
      }
      assert local.attributes[..i + 1][..i] == local.attributes[..i];
    }
    assert local.attributes[..|local.attributes|] == local.attributes;
  }

  lemma PayloadTypesAppend(attrs: seq<Attribute>, a: Attribute)
    ensures PayloadTypes(attrs + [a]) == PayloadTypes(attrs) + if a.RtpMap? then {a.payloadType} else {}
  {
    assert forall x :: x in attrs + [a] <==> x in attrs || x == a;
  }

  /** Building the section never fails, because every kept rtpmap has its payload type among the formats. */
  method CreateAnswerMd(local: MediaDescription, fmts: set<u8>, attrs: seq<Attribute>)
    returns (r: Result<MediaDescription, SdpError>)
    ensures PayloadTypes(attrs) <= fmts ==>
              r == Ok(local.(port := if attrs == [] then 0 else local.port, fmts := fmts, attributes := attrs))
    ensures !(PayloadTypes(attrs) <= fmts) ==> r == Err(UnmatchingMediaDescriptionAndAttribute)
  {
    var md := MediaDescription(local.mediaType, if attrs == [] then 0 else local.port, local.protocol, fmts, []);
    for i := 0 to |attrs|
      invariant md == local.(port := if attrs == [] then 0 else local.port, fmts := fmts, attributes := attrs[..i])
      invariant forall j :: 0 <= j < i && attrs[j].RtpMap? ==> attrs[j].payloadType in fmts
    {
      var added := AddAttribute(md, attrs[i]);
      if added.Err? {
        assert attrs[i].payloadType in PayloadTypes(attrs);
        return Err(added.error);
      }
      md := added.value;
      assert attrs[..i + 1] == attrs[..i] + [attrs[i]];
    }
    assert attrs[..|attrs|] == attrs;
    return Ok(md);
  }

  method CreateAnswer(local: SessionDescription, offer: SessionDescription)
    returns (r: Result<SessionDescription, SdpError>)
    ensures r == Ok(Answer(local, offer))
  {
    hide Kept;
    var sections := [];
    for i := 0 to |local.media|
      invariant sections == AnswerMedia(local.media[..i], offer.media)
    {
      var md := local.media[i];
      var found := FindMatch(md, offer.media);
      if found.Some? {
        var fmts, attrs := CompatibleAttributesData(md, found.value);
        var section := CreateAnswerMd(md, fmts, attrs);
        match section {
          case Ok(answered) => sections := sections + [answered];
          case Err(_) => assert false;
        }
      }
      assert local.media[..i + 1][..i] == local.media[..i];
    }
    assert local.media[..|local.media|] == local.media;
    return Ok(local.(media := sections, connectionData := "IN IP4 0.0.0.0"));
  }

  // ----- what the answer contains

  function Times(attrs: seq<Attribute>, a: Attribute): nat {
    if attrs == [] then 0 else Times(attrs[..|attrs| - 1], a) + if attrs[|attrs| - 1] == a then 1 else 0
  }

  /** The attributes other than rtpmaps, in order. */
  function Others(attrs: seq<Attribute>): seq<Attribute> {
    if attrs == [] then []
    else Others(attrs[..|attrs| - 1]) + if attrs[|attrs| - 1].RtpMap? then [] else [attrs[|attrs| - 1]]
  }

  lemma {:induction false} TimesJoin(xs: seq<Attribute>, ys: seq<Attribute>, a: Attribute)
    ensures Times(xs + ys, a) == Times(xs, a) + Times(ys, a)
  {
    if ys == [] {
      assert xs + ys == xs;
    } else {
      assert (xs + ys)[..|xs + ys| - 1] == xs + ys[..|ys| - 1];
      TimesJoin(xs, ys[..|ys| - 1], a);
    }
  }

  lemma {:induction false} OthersJoin(xs: seq<Attribute>, ys: seq<Attribute>)
    ensures Others(xs + ys) == Others(xs) + Others(ys)
  {
    if ys == [] {
      assert xs + ys == xs;
    } else {
      assert (xs + ys)[..|xs + ys| - 1] == xs + ys[..|ys| - 1];
      OthersJoin(xs, ys[..|ys| - 1]);
    }
  }

  lemma {:induction false} OfRepeat(a: Attribute, n: nat, b: Attribute)
    ensures Times(Repeat(a, n), b) == if a == b then n else 0
    ensures a.RtpMap? ==> Others(Repeat(a, n)) == []
  {
    if n > 0 {
      assert Repeat(a, n)[..n - 1] == Repeat(a, n - 1);
      OfRepeat(a, n - 1, b);
    }
  }

  /** Each local rtpmap is kept as often as the offer advertises its encoding. */
  lemma {:induction false} KeptTimes(local: seq<Attribute>, offer: seq<Attribute>, a: Attribute)
    ensures Times(Kept(local, offer), a) == Times(local, a) * Copies(a, offer)
  {
    hide Copies, Repeat;
    if local != [] {
      var before, last := local[..|local| - 1], local[|local| - 1];
      KeptTimes(before, offer, a);
      OfRepeat(last, Copies(last, offer), a);
      TimesJoin(Kept(before, offer), Repeat(last, Copies(last, offer)), a);
      OneMore(Times(before, a), Copies(a, offer));
    }
  }

  lemma OneMore(t: nat, k: nat)
    ensures (t + 1) * k == t * k + k
  {
  }

  /** Everything else is kept once, in order. */
  lemma {:induction false} KeptOthers(local: seq<Attribute>, offer: seq<Attribute>)
    ensures Others(Kept(local, offer)) == Others(local)
  {
    if local != [] {
      var before, last := local[..|local| - 1], local[|local| - 1];
      KeptOthers(before, offer);
      OthersJoin(Kept(before, offer), Repeat(last, Copies(last, offer)));
      OfRepeat(last, Copies(last, offer), last);
      if !last.RtpMap? {
        assert Repeat(last, 1)[..0] == [];
      }
    }
  }

  lemma {:induction false} TimesIsMembership(attrs: seq<Attribute>, a: Attribute)
    ensures Times(attrs, a) > 0 <==> a in attrs
  {
    if attrs != [] {
      TimesIsMembership(attrs[..|attrs| - 1], a);
    }
  }

  /** An answer section keeps exactly the local rtpmaps whose encoding the offer advertises. */
  lemma AnswerKeepsShared(local: MediaDescription, offer: MediaDescription, a: Attribute)
    ensures var section := AnswerSection(local, offer);
      && (a in section.attributes <==>
            a in local.attributes && (a.RtpMap? ==> Advertised(a.encodingName, offer.attributes) > 0))
      && Others(section.attributes) == Others(local.attributes)
      && section.fmts == PayloadTypes(section.attributes)
      && Consistent(section)
      && section.mediaType == local.mediaType && section.protocol == local.protocol
      && section.port == if section.attributes == [] then 0 else local.port
  {
    hide Kept, Others, Times, Advertised;
    var section := AnswerSection(local, offer);
    KeptTimes(local.attributes, offer.attributes, a);
    KeptOthers(local.attributes, offer.attributes);
    TimesIsMembership(local.attributes, a);
    TimesIsMembership(section.attributes, a);
    if a.RtpMap? && Times(local.attributes, a) > 0 && Advertised(a.encodingName, offer.attributes) > 0 {
      PositiveProduct(Times(local.attributes, a), Advertised(a.encodingName, offer.attributes));
    }
  }

  lemma PositiveProduct(x: nat, y: nat)
    requires x > 0 && y > 0
    ensures x * y > 0
  {
  }

  lemma {:induction false} AdvertisedIsMembership(name: string, offer: seq<Attribute>)
    ensures Advertised(name, offer) > 0 <==> exists o :: o in offer && o.RtpMap? && o.encodingName == name
  {
    if offer != [] {
      AdvertisedIsMembership(name, offer[1..]);
      if exists o :: o in offer && o.RtpMap? && o.encodingName == name {
        var o :| o in offer && o.RtpMap? && o.encodingName == name;
        assert o == offer[0] || o in offer[1..];
      } else {
        assert offer[0] in offer;
      }
    }
  }

  /** The sections of the answer are, in order, the answers to the matched local sections. */
  lemma {:induction false} AnswerSectionsFrom(locals: seq<MediaDescription>, offers: seq<MediaDescription>, k: nat)
    requires k < |AnswerMedia(locals, offers)|
    ensures exists i :: && 0 <= i < |locals| && FindMatch(locals[i], offers).Some?
                        && AnswerMedia(locals, offers)[k]
                           == AnswerSection(locals[i], FindMatch(locals[i], offers).value)
  {
    var n := |locals| - 1;
    var before := AnswerMedia(locals[..n], offers);
    if k < |before| {
      AnswerSectionsFrom(locals[..n], offers, k);
      var i :| 0 <= i < n && FindMatch(locals[..n][i], offers).Some?
        && before[k] == AnswerSection(locals[..n][i], FindMatch(locals[..n][i], offers).value);
      assert locals[i] == locals[..n][i];
    } else {
      assert FindMatch(locals[n], offers).Some?;
    }
  }

  /** The match is the first offered section of the same type and protocol; none means there is none. */
  lemma {:induction false} FindMatchFinds(local: MediaDescription, offers: seq<MediaDescription>, i: nat)
    requires i <= |offers|
    requires forall j :: 0 <= j < i ==> offers[j].mediaType != local.mediaType || offers[j].protocol != local.protocol
    ensures i < |offers| && offers[i].mediaType == local.mediaType && offers[i].protocol == local.protocol ==>
              FindMatch(local, offers) == Some(offers[i])
    ensures i == |offers| ==> FindMatch(local, offers) == None
  {
    if i > 0 {
      FindMatchFinds(local, offers[1..], i - 1);
    }
  }

  lemma {:induction false} FindMatchMatches(local: MediaDescription, offers: seq<MediaDescription>)
    ensures var m := FindMatch(local, offers);
      && (m.Some? ==> m.value in offers && Matches(local, m.value))
      && (m.None? ==> forall o :: o in offers ==> !Matches(local, o))
  {
    if offers != [] && !Matches(local, offers[0]) {
      FindMatchMatches(local, offers[1..]);
      assert offers == [offers[0]] + offers[1..];
    }
  }

  /** The answer has a section exactly when some local section has a match in the offer. */
  lemma {:induction false} AnswerNonEmpty(locals: seq<MediaDescription>, offers: seq<MediaDescription>)
    ensures AnswerMedia(locals, offers) != [] <==> exists l, o :: l in locals && o in offers && Matches(l, o)
  {
    if locals != [] {
      var n := |locals| - 1;
      AnswerNonEmpty(locals[..n], offers);
      FindMatchMatches(locals[n], offers);
      assert locals == locals[..n] + [locals[n]];
    }
  }
}
