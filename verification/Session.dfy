/** DTLS role negotiation in a call session (src/session/call_session.rs). */
module Session {
  import opened Common
  import opened Ice
  import opened Sdp

  /** The session as a value: its description, what its ICE agent holds, and the DTLS roles. */
  datatype State = State(
    sdp: SessionDescription,
    locals: seq<Candidate>,
    remotes: seq<Candidate>,
    pairs: seq<CandidatePair>,
    remoteFingerprint: Option<Fingerprint>,
    remoteRole: Option<DtlsSetupRole>,
    localRole: DtlsSetupRole)

  datatype RemoteType = Offer | AnswerType

  datatype Step = Step(state: State, ok: bool)

  /** The role opposite to the remote one. */
  function Complement(remote: DtlsSetupRole, kind: RemoteType): DtlsSetupRole {
    match remote
    case Active => Passive
    case Passive => Active
    case HoldConn => Passive
    case ActPass => if kind == Offer then Active else Passive
  }

  function WithRole(md: MediaDescription, role: DtlsSetupRole): MediaDescription {
    md.(attributes := WithoutSetup(md.attributes) + [Setup(role)])
  }

  function WithRoles(mds: seq<MediaDescription>, role: DtlsSetupRole): seq<MediaDescription> {
    seq(|mds|, i requires 0 <= i < |mds| => WithRole(mds[i], role))
  }

  function SetLocalRole(s: State, role: DtlsSetupRole): State {
    if s.localRole == role then s
    else s.(sdp := s.sdp.(media := WithRoles(s.sdp.media, role)), localRole := role)
  }

  /** Adds candidates one at a time; the agent refuses when it has no local candidate, after storing the first. */
  function AddCandidates(s: State, cs: seq<Candidate>): Step
    decreases cs
  {
    if cs == [] then Step(s, true)
    else
      var remotes := s.remotes + [cs[0]];
      var added := s.(remotes := remotes, pairs := s.pairs + Product(s.locals, remotes));
      if s.locals == [] then Step(added, false) else AddCandidates(added, cs[1..])
  }

  /** What a remote section sets besides candidates: the fingerprint and the complementary role. */
  function Adopt(s: State, md: MediaDescription, kind: RemoteType): State {
    var advertised := FirstFingerprint(md.attributes);
    var s1 := if advertised.Some? then s.(remoteFingerprint := advertised) else s;
    match FirstSetup(md.attributes)
    case None => s1
    case Some(role) => SetLocalRole(s1.(remoteRole := Some(role)), Complement(role, kind))
  }

  function ProcessSections(s: State, mds: seq<MediaDescription>, kind: RemoteType): Step
    decreases mds
  {
    if mds == [] then Step(s, true)
    else
      var added := AddCandidates(s, Candidates(mds[0].attributes));
      if !added.ok then added else ProcessSections(Adopt(added.state, mds[0], kind), mds[1..], kind)
  }

  function LocalRoleFor(remote: SessionDescription): DtlsSetupRole {
    if remote.media != [] && FirstSetup(remote.media[0].attributes).Some?
    then Complement(FirstSetup(remote.media[0].attributes).value, Offer)
    else Active
  }

  function AnswerTo(s: State, offer: SessionDescription): SessionDescription {
    Answer(SetLocalRole(s, LocalRoleFor(offer)).sdp, offer)
  }

  function ProcessOffer(s: State, offer: SessionDescription): Step {
    ProcessSections(SetLocalRole(s, LocalRoleFor(offer)), offer.media, Offer)
  }

  function ProcessAnswer(s: State, answer: SessionDescription): Step {
    ProcessSections(s, answer.media, AnswerType)
  }

  // ----- the session object

  class CallSession {
    var sdp: SessionDescription
    const iceAgent: IceAgent
    var remoteFingerprint: Option<Fingerprint>
    var remoteSetupRole: Option<DtlsSetupRole>
    var localSetupRole: DtlsSetupRole

    ghost function View(): State
      reads this, iceAgent
    {
      State(sdp, iceAgent.localCandidates, iceAgent.remoteCandidates, iceAgent.candidatePairs,
            remoteFingerprint, remoteSetupRole, localSetupRole)
    }

    /** The agent has gathered its candidates and knows no remote one. */
    constructor (base: SessionDescription, fingerprint: Fingerprint, iceAgent: IceAgent)
      requires iceAgent.remoteCandidates == [] && iceAgent.candidatePairs == []
      ensures this.iceAgent == iceAgent
      ensures View() == NewState(Origin(base, fingerprint, iceAgent.localCandidates))
    {
      var locals := iceAgent.localCandidates;
      var media: seq<MediaDescription> := [];
      for i := 0 to |base.media|
        invariant |media| == i
        invariant forall k :: 0 <= k < i ==> media[k] == WithCommon(base.media[k], fingerprint, ActPass, locals)
      {
        var md := ApplyCommonAttributes(base.media[i], fingerprint, ActPass, locals);
        media := media + [md];
      }
      var description := base.(media := media);
      if locals != [] {
        description := description.(connectionData := "IN IP4 " + locals[0].address);
      }
      this.sdp, this.iceAgent := description, iceAgent;
      remoteFingerprint, remoteSetupRole, localSetupRole := None, None, ActPass;
    }

    method SetLocalSetupRole(role: DtlsSetupRole)
      modifies this
      ensures View() == SetLocalRole(old(View()), role)
    {
      if localSetupRole == role {
        return;
      }
      var media := [];
      for i := 0 to |sdp.media|
        invariant media == WithRoles(sdp.media, role)[..i]
      {
        var md := sdp.media[i];
        media := media + [md.(attributes := WithoutSetup(md.attributes) + [Setup(role)])];
      }
      sdp := sdp.(media := media);
      localSetupRole := role;
    }

    method AddRemoteCandidatesOf(cs: seq<Candidate>) returns (ok: bool)
      modifies iceAgent
      ensures iceAgent.selectedPair == old(iceAgent.selectedPair)
      ensures AddCandidates(old(View()), cs) == Step(View(), ok)
    {
      var i := 0;
      while i < |cs|
        invariant 0 <= i <= |cs|
        invariant iceAgent.selectedPair == old(iceAgent.selectedPair)
        invariant AddCandidates(View(), cs[i..]) == AddCandidates(old(View()), cs)
      {
        assert cs[i..][1..] == cs[i + 1..];
        var r := iceAgent.AddRemoteCandidate(cs[i]);
        if r.Err? {
          return false;
        }
        i := i + 1;
      }
      return true;
    }

    method ProcessRemoteSdp(remote: SessionDescription, kind: RemoteType) returns (ok: bool)
      modifies this, iceAgent
      ensures ProcessSections(old(View()), remote.media, kind) == Step(View(), ok)
    {
      hide AddCandidates, SetLocalRole;
      var i := 0;
      while i < |remote.media|
        invariant 0 <= i <= |remote.media|
        invariant ProcessSections(View(), remote.media[i..], kind) == ProcessSections(old(View()), remote.media, kind)
      {
        assert remote.media[i..][1..] == remote.media[i + 1..];
        var md := remote.media[i];
        var candidates := GetCandidates(md);
        var added := AddRemoteCandidatesOf(candidates);
        if !added {
          return false;
        }
        var advertised := GetFingerprint(md);
        if advertised.Some? {
          remoteFingerprint := advertised;
        }
        var role := GetSetupRole(md);
        if role.Some? {
          remoteSetupRole := role;
          SetLocalSetupRole(Complement(role.value, kind));
        }
        i := i + 1;
      }
      return true;
    }

    method ProcessOfferSdp(offer: SessionDescription) returns (answer: Option<SessionDescription>)
      modifies this, iceAgent
      ensures ProcessOffer(old(View()), offer) == Step(View(), answer.Some?)
      ensures answer.Some? ==> answer.value == AnswerTo(old(View()), offer)
    {
      hide SetLocalRole, ProcessSections;
      var role := Active;
      if offer.media != [] {
        var offered := GetSetupRole(offer.media[0]);
        if offered.Some? {
          role := Complement(offered.value, Offer);
        }
      }
      SetLocalSetupRole(role);
      var created := CreateAnswer(sdp, offer);
      var ok := ProcessRemoteSdp(offer, Offer);
      return if ok then Some(created.value) else None;
    }

    method ProcessAnswerSdp(answer: SessionDescription) returns (ok: bool)
      modifies this, iceAgent
      ensures ProcessAnswer(old(View()), answer) == Step(View(), ok)
    {
      ok := ProcessRemoteSdp(answer, AnswerType);
    }
  }

  // ----- every description states the session's own role

  /** The setup roles of a section, in order. */
  function Setups(attrs: seq<Attribute>): seq<DtlsSetupRole> {
    if attrs == [] then []
    else Setups(attrs[..|attrs| - 1]) + if attrs[|attrs| - 1].Setup? then [attrs[|attrs| - 1].role] else []
  }

  predicate States(mds: seq<MediaDescription>, role: DtlsSetupRole) {
    forall i :: 0 <= i < |mds| ==> Setups(mds[i].attributes) == [role]
  }

  /** The role is negotiable or negotiated, and each section states it exactly once. */
  predicate RoleStated(s: State) {
    s.localRole != HoldConn && States(s.sdp.media, s.localRole)
  }

  lemma {:induction false} SetupsJoin(xs: seq<Attribute>, ys: seq<Attribute>)
    ensures Setups(xs + ys) == Setups(xs) + Setups(ys)
  {
    if ys == [] {
      assert xs + ys == xs;
    } else {
      assert (xs + ys)[..|xs + ys| - 1] == xs + ys[..|ys| - 1];
      SetupsJoin(xs, ys[..|ys| - 1]);
    }
  }

  lemma SetupsOne(a: Attribute)
    ensures Setups([a]) == if a.Setup? then [a.role] else []
  {
    assert [a][..0] == [];
  }

  /** Changing the role keeps every other attribute, as often as it was there. */
  lemma {:induction false} WithoutSetupTimes(attrs: seq<Attribute>, a: Attribute)
    ensures Times(WithoutSetup(attrs), a) == if a.Setup? then 0 else Times(attrs, a)
  {
    if attrs != [] {
      WithoutSetupTimes(attrs[1..], a);
      assert attrs == [attrs[0]] + attrs[1..];
      TimesJoin([attrs[0]], attrs[1..], a);
      TimesJoin(if attrs[0].Setup? then [] else [attrs[0]], WithoutSetup(attrs[1..]), a);
      TimesOne(attrs[0], a);
    }
  }

  lemma TimesOne(x: Attribute, a: Attribute)
    ensures Times([x], a) == if x == a then 1 else 0
  {
    assert [x][..0] == [];
  }

  lemma {:induction false} WithoutSetupHasNone(attrs: seq<Attribute>)
    ensures Setups(WithoutSetup(attrs)) == []
  {
    if attrs != [] {
      WithoutSetupHasNone(attrs[1..]);
      SetupsOne(attrs[0]);
      SetupsJoin(if attrs[0].Setup? then [] else [attrs[0]], WithoutSetup(attrs[1..]));
    }
  }

  lemma {:induction false} FirstSetupIsFirst(attrs: seq<Attribute>)
    ensures var all := Setups(attrs); FirstSetup(attrs) == if all == [] then None else Some(all[0])
  {
    if attrs != [] {
      assert attrs == [attrs[0]] + attrs[1..];
      SetupsJoin([attrs[0]], attrs[1..]);
      SetupsOne(attrs[0]);
      FirstSetupIsFirst(attrs[1..]);
    }
  }

  /** Setup attributes are among those an answer keeps in order. */
  lemma {:induction false} SetupsOfOthers(attrs: seq<Attribute>)
    ensures Setups(Others(attrs)) == Setups(attrs)
  {
    if attrs != [] {
      var last := attrs[|attrs| - 1];
      SetupsOfOthers(attrs[..|attrs| - 1]);
      SetupsOne(last);
      SetupsJoin(Others(attrs[..|attrs| - 1]), if last.RtpMap? then [] else [last]);
    }
  }

  lemma AnswerSectionStates(local: MediaDescription, offer: MediaDescription)
    ensures Setups(AnswerSection(local, offer).attributes) == Setups(local.attributes)
  {
    KeptOthers(local.attributes, offer.attributes);
    SetupsOfOthers(local.attributes);
    SetupsOfOthers(Kept(local.attributes, offer.attributes));
  }

  lemma {:induction false} AnswerStates(
    locals: seq<MediaDescription>, offers: seq<MediaDescription>, role: DtlsSetupRole)
    requires States(locals, role)
    ensures States(AnswerMedia(locals, offers), role)
  {
    if locals != [] {
      var n := |locals| - 1;
      AnswerStates(locals[..n], offers, role);
      var m := FindMatch(locals[n], offers);
      if m.Some? {
        AnswerSectionStates(locals[n], m.value);
      }
    }
  }

  lemma SetLocalRoleStates(s: State, role: DtlsSetupRole)
    requires RoleStated(s) && role != HoldConn
    ensures RoleStated(SetLocalRole(s, role)) && SetLocalRole(s, role).localRole == role
  {
    if s.localRole != role {
      forall i | 0 <= i < |s.sdp.media|
        ensures Setups(WithRole(s.sdp.media[i], role).attributes) == [role]
      {
        WithoutSetupHasNone(s.sdp.media[i].attributes);
        SetupsOne(Setup(role));
        SetupsJoin(WithoutSetup(s.sdp.media[i].attributes), [Setup(role)]);
      }
    }
  }

  lemma {:induction false} AddCandidatesFrame(s: State, cs: seq<Candidate>)
    ensures var r := AddCandidates(s, cs).state;
      r.sdp == s.sdp && r.localRole == s.localRole && r.locals == s.locals
    ensures AddCandidates(s, cs).ok <==> cs == [] || s.locals != []
    decreases cs
  {
    if cs != [] && s.locals != [] {
      var remotes := s.remotes + [cs[0]];
      AddCandidatesFrame(s.(remotes := remotes, pairs := s.pairs + Product(s.locals, remotes)), cs[1..]);
    }
  }

  /** Any remote description keeps the role stated: what one step keeps for every peer. */
  lemma {:induction false} SectionsKeepRoleStated(s: State, mds: seq<MediaDescription>, kind: RemoteType)
    requires RoleStated(s)
    ensures RoleStated(ProcessSections(s, mds, kind).state)
    decreases mds
  {
    if mds != [] {
      var added := AddCandidates(s, Candidates(mds[0].attributes));
      AddCandidatesFrame(s, Candidates(mds[0].attributes));
      if added.ok {
        AdoptKeepsRoleStated(added.state, mds[0], kind);
        SectionsKeepRoleStated(Adopt(added.state, mds[0], kind), mds[1..], kind);
      }
    }
  }

  lemma AdoptKeepsRoleStated(s: State, md: MediaDescription, kind: RemoteType)
    requires RoleStated(s)
    ensures RoleStated(Adopt(s, md, kind))
    ensures FirstSetup(md.attributes).Some? ==>
              Adopt(s, md, kind).localRole == Complement(FirstSetup(md.attributes).value, kind)
    ensures FirstSetup(md.attributes).None? ==> Adopt(s, md, kind).localRole == s.localRole
  {
    var advertised := FirstFingerprint(md.attributes);
    var s1 := if advertised.Some? then s.(remoteFingerprint := advertised) else s;
    var role := FirstSetup(md.attributes);
    if role.Some? {
      SetLocalRoleStates(s1.(remoteRole := role), Complement(role.value, kind));
    }
  }

  datatype Event = OfferIn(offer: SessionDescription) | AnswerIn(answer: SessionDescription)

  function After(s: State, e: Event): State {
    match e
    case OfferIn(offer) => ProcessOffer(s, offer).state
    case AnswerIn(answer) => ProcessAnswer(s, answer).state
  }

  /** The session after any remote descriptions, in any order, well-behaved or not. */
  function Run(s: State, es: seq<Event>): State
    decreases es
  {
    if es == [] then s else Run(After(s, es[0]), es[1..])
  }

  /** From the first description on, every reachable session states its own role in every section. */
  lemma {:induction false} RoleAlwaysStated(s: State, es: seq<Event>)
    requires RoleStated(s)
    ensures RoleStated(Run(s, es))
    decreases es
  {
    if es != [] {
      match es[0] {
        case OfferIn(o) =>
          SetLocalRoleStates(s, LocalRoleFor(o));
          SectionsKeepRoleStated(SetLocalRole(s, LocalRoleFor(o)), o.media, Offer);
          RoleAlwaysStated(ProcessOffer(s, o).state, es[1..]);
        case AnswerIn(a) =>
          SectionsKeepRoleStated(s, a.media, AnswerType);
          RoleAlwaysStated(ProcessAnswer(s, a).state, es[1..]);
      }
    }
  }

  // ----- a new session

  function CandidateAttrs(cs: seq<Candidate>): seq<Attribute> {
    seq(|cs|, i requires 0 <= i < |cs| => CandidateAttr(cs[i]))
  }

  /** A section with what every section of a session carries. */
  function WithCommon(md: MediaDescription, f: Fingerprint, role: DtlsSetupRole, cs: seq<Candidate>): MediaDescription {
    md.(attributes := md.attributes + [FingerprintAttr(f), Setup(role)] + CandidateAttrs(cs))
  }

  method ApplyCommonAttributes(md: MediaDescription, f: Fingerprint, role: DtlsSetupRole, cs: seq<Candidate>)
    returns (r: MediaDescription)
    ensures r == WithCommon(md, f, role, cs)
  {
    r := md.(attributes := md.attributes + [FingerprintAttr(f)]);
    r := r.(attributes := r.attributes + [Setup(role)]);
    for i := 0 to |cs|
      invariant r == WithCommon(md, f, role, cs[..i])
    {
      assert CandidateAttrs(cs[..i + 1]) == CandidateAttrs(cs[..i]) + [CandidateAttr(cs[i])];
      r := r.(attributes := r.attributes + [CandidateAttr(cs[i])]);
    }
    assert cs[..|cs|] == cs;
  }

  /** What a session is made of: its generated sections, its certificate and its own candidates. */
  datatype Origin = Origin(base: SessionDescription, fingerprint: Fingerprint, locals: seq<Candidate>)

  /** The state a session starts in: its sections carry the same attributes and no role is settled. */
  function NewState(o: Origin): State {
    var media := seq(|o.base.media|, i requires 0 <= i < |o.base.media| =>
      WithCommon(o.base.media[i], o.fingerprint, ActPass, o.locals));
    var address := if o.locals == [] then o.base.connectionData else "IN IP4 " + o.locals[0].address;
    State(o.base.(media := media, connectionData := address), o.locals, [], [], None, None, ActPass)
  }

  /** No generated section has a setup attribute of its own. */
  predicate Plain(o: Origin) {
    forall md <- o.base.media :: Setups(md.attributes) == []
  }

  lemma {:induction false} CandidatesHaveNoSetup(cs: seq<Candidate>)
    ensures Setups(CandidateAttrs(cs)) == []
  {
    if cs != [] {
      assert CandidateAttrs(cs)[..|cs| - 1] == CandidateAttrs(cs[..|cs| - 1]);
      CandidatesHaveNoSetup(cs[..|cs| - 1]);
    }
  }

  /** Sections generated without a setup attribute state exactly the initial role. */
  lemma NewStateStates(o: Origin)
    requires Plain(o)
    ensures RoleStated(NewState(o))
  {
    var (base, f, locals) := (o.base, o.fingerprint, o.locals);
    forall i | 0 <= i < |base.media|
      ensures Setups(WithCommon(base.media[i], f, ActPass, locals).attributes) == [ActPass]
    {
      var attrs := base.media[i].attributes;
      SetupsOne(FingerprintAttr(f));
      SetupsOne(Setup(ActPass));
      SetupsJoin([FingerprintAttr(f)], [Setup(ActPass)]);
      assert [FingerprintAttr(f)] + [Setup(ActPass)] == [FingerprintAttr(f), Setup(ActPass)];
      SetupsJoin(attrs, [FingerprintAttr(f), Setup(ActPass)]);
      CandidatesHaveNoSetup(locals);
      SetupsJoin(attrs + [FingerprintAttr(f), Setup(ActPass)], CandidateAttrs(locals));
    }
  }

  // ----- offer, then answer

  /** Processing a remote description fails exactly when it brings candidates and there is no local one. */
  lemma {:induction false} SectionsOkExact(s: State, mds: seq<MediaDescription>, kind: RemoteType)
    ensures ProcessSections(s, mds, kind).ok <==>
            s.locals != [] || forall i :: 0 <= i < |mds| ==> Candidates(mds[i].attributes) == []
    decreases mds
  {
    if mds != [] {
      var cs := Candidates(mds[0].attributes);
      AddCandidatesFrame(s, cs);
      var added := AddCandidates(s, cs);
      if added.ok {
        SectionsOkExact(Adopt(added.state, mds[0], kind), mds[1..], kind);
        assert forall i :: 1 <= i < |mds| ==> mds[i] == mds[1..][i - 1];
      }
    }
  }

  /** Sections that all state `role` leave the session with the complementary role. */
  lemma {:induction false} SectionsSetRole(s: State, mds: seq<MediaDescription>, kind: RemoteType, role: DtlsSetupRole)
    requires RoleStated(s) && States(mds, role) && ProcessSections(s, mds, kind).ok
    ensures ProcessSections(s, mds, kind).state.localRole == if mds == [] then s.localRole else Complement(role, kind)
    decreases mds
  {
    if mds != [] {
      var cs := Candidates(mds[0].attributes);
      AddCandidatesFrame(s, cs);
      var added := AddCandidates(s, cs).state;
      AdoptKeepsRoleStated(added, mds[0], kind);
      FirstSetupIsFirst(mds[0].attributes);
      SectionsSetRole(Adopt(added, mds[0], kind), mds[1..], kind, role);
    }
  }

  predicate Complementary(x: DtlsSetupRole, y: DtlsSetupRole) {
    (x == Active && y == Passive) || (x == Passive && y == Active)
  }

  /** When the roles come out complementary: some section was answered, or the offerer had already settled. */
  predicate WillComplement(offerer: State, answer: SessionDescription) {
    || answer.media != []
    || (if offerer.sdp.media == [] then offerer.localRole == Passive else offerer.localRole != ActPass)
  }

  /** An offer and its answer leave one Active and one Passive side exactly under that condition. */
  lemma NegotiationComplements(offerer: State, answerer: State)
    requires RoleStated(offerer) && RoleStated(answerer)
    requires ProcessOffer(answerer, offerer.sdp).ok
    requires ProcessAnswer(offerer, AnswerTo(answerer, offerer.sdp)).ok
    ensures var a := ProcessOffer(answerer, offerer.sdp).state;
      var o := ProcessAnswer(offerer, AnswerTo(answerer, offerer.sdp)).state;
      && RoleStated(a) && RoleStated(o)
      && (Complementary(o.localRole, a.localRole) <==> WillComplement(offerer, AnswerTo(answerer, offerer.sdp)))
  {
    hide SetLocalRole, ProcessSections;
    var offer := offerer.sdp;
    if offer.media != [] {
      FirstSetupIsFirst(offer.media[0].attributes);
    }
    var role := LocalRoleFor(offer);
    var ready := SetLocalRole(answerer, role);
    SetLocalRoleStates(answerer, role);
    SectionsKeepRoleStated(ready, offer.media, Offer);
    SectionsSetRole(ready, offer.media, Offer, offerer.localRole);
    var answer := AnswerTo(answerer, offer);
    AnswerStates(ready.sdp.media, offer.media, role);
    SectionsKeepRoleStated(offerer, answer.media, AnswerType);
    SectionsSetRole(offerer, answer.media, AnswerType, role);
    NothingToAnswer(ready.sdp.media, offer.media);
  }

  /** From any two reachable sessions: what an offer and its answer leave behind. */
  lemma ReachableSessionsComplement(o1: Origin, es1: seq<Event>, o2: Origin, es2: seq<Event>)
    requires Plain(o1) && Plain(o2)
    ensures var offerer, answerer := Run(NewState(o1), es1), Run(NewState(o2), es2);
      var (a, answer) := (ProcessOffer(answerer, offerer.sdp), AnswerTo(answerer, offerer.sdp));
      var o := ProcessAnswer(offerer, answer);
      a.ok && o.ok ==>
        && RoleStated(a.state) && RoleStated(o.state)
        && (Complementary(o.state.localRole, a.state.localRole) <==> WillComplement(offerer, answer))
  {
    hide ProcessOffer, ProcessAnswer, AnswerTo, NewState, Complementary, WillComplement, RoleStated;
    NewStateStates(o1);
    NewStateStates(o2);
    RoleAlwaysStated(NewState(o1), es1);
    RoleAlwaysStated(NewState(o2), es2);
    var offerer, answerer := Run(NewState(o1), es1), Run(NewState(o2), es2);
    if ProcessOffer(answerer, offerer.sdp).ok && ProcessAnswer(offerer, AnswerTo(answerer, offerer.sdp)).ok {
      NegotiationComplements(offerer, answerer);
    }
  }

  lemma {:induction false} NothingToAnswer(locals: seq<MediaDescription>, offers: seq<MediaDescription>)
    ensures offers == [] ==> AnswerMedia(locals, offers) == []
  {
    if locals != [] {
      NothingToAnswer(locals[..|locals| - 1], offers);
    }
  }
}

/** Negotiated roles and media keys together. */
module MediaKeys {
  import opened Common
  import opened Sdp
  import opened Session
  import opened Srtp
  import Rtp

  /** The DTLS client is the Active side (src/transport/media_transport.rs). */
  predicate IsClient(s: State) {
    s.localRole == Active
  }

  /** After an answered offer, each side reads exactly what the other protects, for versions below 4. */
  lemma NegotiatedMediaReadsBack(offerer: State, answerer: State, crypto: Crypto, material: seq<u8>, p: Rtp.RtpPacket)
    requires RoleStated(offerer) && RoleStated(answerer) && |material| >= 60
    requires ProcessOffer(answerer, offerer.sdp).ok
    requires ProcessAnswer(offerer, AnswerTo(answerer, offerer.sdp)).ok
    requires AnswerTo(answerer, offerer.sdp).media != []
    ensures var a := ProcessOffer(answerer, offerer.sdp).state;
      var o := ProcessAnswer(offerer, AnswerTo(answerer, offerer.sdp)).state;
      var ctx := NewContext(material);
      && ctx.Ok?
      && var (fromO, fromA) := (Protect(crypto, ctx.value, p, IsClient(o)), Protect(crypto, ctx.value, p, IsClient(a)));
         && fromO.Ok? && fromA.Ok?
         && (Unprotect(crypto, ctx.value, fromO.value, IsClient(a)) == Ok(p) <==> p.version < 4)
         && (Unprotect(crypto, ctx.value, fromA.value, IsClient(o)) == Ok(p) <==> p.version < 4)
  {
    hide ProcessOffer, ProcessAnswer, AnswerTo, Protect, Unprotect;
    NegotiationComplements(offerer, answerer);
    var a := ProcessOffer(answerer, offerer.sdp).state;
    var o := ProcessAnswer(offerer, AnswerTo(answerer, offerer.sdp)).state;
    var ctx := NewContext(material).value;
    ProtectionExact(crypto, ctx, p, IsClient(o));
    ProtectionExact(crypto, ctx, p, IsClient(a));
    assert IsClient(a) == !IsClient(o);
  }
}
