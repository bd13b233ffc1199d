/** What the two ends of a negotiation learn of each other (src/session/call_session.rs). */
module SessionPeers {
  import opened Common
  import opened Ice
  import opened Sdp
  import opened Session

  // ----- what a remote description leaves behind

  predicate NoneFrom<T>(given: seq<Option<T>>, i: nat) {
    forall k :: i <= k < |given| ==> given[k].None?
  }

  lemma NoneFromFirst<T>(given: seq<Option<T>>)
    requires given != []
    ensures NoneFrom(given, 0) <==> given[0].None? && NoneFrom(given[1..], 0)
  {
    assert forall k :: 1 <= k < |given| ==> given[k] == given[1..][k - 1];
  }

  /** `now` is the last value given, or `before` when none is. */
  predicate LastGiven<T(==)>(given: seq<Option<T>>, before: Option<T>, now: Option<T>) {
    && (forall k :: 0 <= k < |given| && given[k].Some? && NoneFrom(given, k + 1) ==> now == given[k])
    && (NoneFrom(given, 0) ==> now == before)
  }

  lemma LastGivenStep<T>(given: seq<Option<T>>, before: Option<T>, now: Option<T>)
    requires given != []
    requires LastGiven(given[1..], if given[0].Some? then given[0] else before, now)
    ensures LastGiven(given, before, now)
  {
    var rest := given[1..];
    assert forall k :: 1 <= k < |given| ==> given[k] == rest[k - 1];
    if given[0].Some? && NoneFrom(given, 1) {
      assert NoneFrom(rest, 0);
    }
    forall k | 1 <= k < |given| && given[k].Some? && NoneFrom(given, k + 1)
      ensures now == given[k]
    {
      assert NoneFrom(rest, k) && rest[k - 1].Some?;
    }
    if NoneFrom(given, 0) {
      assert NoneFrom(rest, 0);
    }
  }

  /** The first fingerprint of each section. */
  function Fingerprints(mds: seq<MediaDescription>): seq<Option<Fingerprint>> {
    seq(|mds|, i requires 0 <= i < |mds| => FirstFingerprint(mds[i].attributes))
  }

  /** The first setup role of each section. */
  function Roles(mds: seq<MediaDescription>): seq<Option<DtlsSetupRole>> {
    seq(|mds|, i requires 0 <= i < |mds| => FirstSetup(mds[i].attributes))
  }

  /** The candidates of all sections, in order. */
  function AllCandidates(mds: seq<MediaDescription>): seq<Candidate> {
    Flatten(seq(|mds|, i requires 0 <= i < |mds| => Candidates(mds[i].attributes)))
  }

  lemma {:induction false} FirstFingerprintExact(attrs: seq<Attribute>, f: Fingerprint)
    ensures FirstFingerprint(attrs) == Some(f) <==>
            exists i :: 0 <= i < |attrs| && attrs[i] == FingerprintAttr(f)
                        && forall j :: 0 <= j < i ==> !attrs[j].FingerprintAttr?
  {
    if attrs != [] && !attrs[0].FingerprintAttr? {
      var rest := attrs[1..];
      FirstFingerprintExact(rest, f);
      if FirstFingerprint(attrs) == Some(f) {
        var i :| 0 <= i < |rest| && rest[i] == FingerprintAttr(f)
                 && forall j :: 0 <= j < i ==> !rest[j].FingerprintAttr?;
        assert attrs[i + 1] == rest[i] && forall j :: 1 <= j < i + 1 ==> attrs[j] == rest[j - 1];
      }
      if i :| 0 <= i < |attrs| && attrs[i] == FingerprintAttr(f)
              && forall j :: 0 <= j < i ==> !attrs[j].FingerprintAttr? {
        assert rest[i - 1] == attrs[i] && forall j :: 0 <= j < i - 1 ==> rest[j] == attrs[j + 1];
      }
    }
  }

  /** The role a remote one leaves: Active against Passive, and against an offer that leaves the choice. */
  predicate Opposed(remote: DtlsSetupRole, kind: RemoteType, local: DtlsSetupRole) {
    if remote == Passive || (remote == ActPass && kind == Offer) then local == Active else local == Passive
  }

  lemma {:induction false} CandidatesAdded(s: State, cs: seq<Candidate>)
    requires AddCandidates(s, cs).ok
    ensures var r := AddCandidates(s, cs).state;
      r == s.(remotes := s.remotes + cs, pairs := r.pairs)
      && (s.pairs == Accumulated(s.locals, s.remotes) ==> r.pairs == Accumulated(r.locals, r.remotes))
    decreases cs
  {
    if cs != [] {
      var remotes := s.remotes + [cs[0]];
      assert remotes[..|s.remotes|] == s.remotes && remotes + cs[1..] == s.remotes + cs;
      CandidatesAdded(s.(remotes := remotes, pairs := s.pairs + Product(s.locals, remotes)), cs[1..]);
    } else {
      assert s.remotes + cs == s.remotes;
    }
  }

  /** What a processed description leaves: its last fingerprint, the role against its last one, all its candidates. */
  predicate Leaves(mds: seq<MediaDescription>, kind: RemoteType, s: State, r: State) {
    && LastGiven(Fingerprints(mds), s.remoteFingerprint, r.remoteFingerprint)
    && LastGiven(Roles(mds), s.remoteRole, r.remoteRole)
    && (if NoneFrom(Roles(mds), 0) then r.localRole == s.localRole
        else r.remoteRole.Some? && Opposed(r.remoteRole.value, kind, r.localRole))
    && r.remotes == s.remotes + AllCandidates(mds)
  }

  /** What one section leaves. */
  predicate LeavesOne(md: MediaDescription, kind: RemoteType, s: State, r: State) {
    var (f, role) := (FirstFingerprint(md.attributes), FirstSetup(md.attributes));
    && r.remoteFingerprint == (if f.Some? then f else s.remoteFingerprint)
    && r.remoteRole == (if role.Some? then role else s.remoteRole)
    && (if role.Some? then Opposed(role.value, kind, r.localRole) else r.localRole == s.localRole)
    && r.remotes == s.remotes + Candidates(md.attributes)
  }

  lemma SectionLeaves(md: MediaDescription, kind: RemoteType, s: State)
    requires AddCandidates(s, Candidates(md.attributes)).ok
    ensures LeavesOne(md, kind, s, Adopt(AddCandidates(s, Candidates(md.attributes)).state, md, kind))
  {
    hide AddCandidates, Candidates, FirstFingerprint, FirstSetup;
    CandidatesAdded(s, Candidates(md.attributes));
  }

  lemma LeavesStep(mds: seq<MediaDescription>, kind: RemoteType, s: State, next: State, r: State)
    requires mds != [] && LeavesOne(mds[0], kind, s, next) && Leaves(mds[1..], kind, next, r)
    ensures Leaves(mds, kind, s, r)
  {
    hide Opposed, LastGiven, NoneFrom, AllCandidates, Candidates, FirstFingerprint, FirstSetup;
    var (all, rest) := (Roles(mds), Roles(mds[1..]));
    assert Fingerprints(mds)[1..] == Fingerprints(mds[1..]) && all[1..] == rest;
    LastGivenStep(Fingerprints(mds), s.remoteFingerprint, r.remoteFingerprint);
    LastGivenStep(all, s.remoteRole, r.remoteRole);
    NoneFromFirst(all);
    AllCandidatesFirst(mds);
    if NoneFrom(rest, 0) {
      NothingGiven(rest, next.remoteRole, r.remoteRole);
    }
  }

  lemma NothingGiven<T>(given: seq<Option<T>>, before: Option<T>, now: Option<T>)
    requires LastGiven(given, before, now) && NoneFrom(given, 0)
    ensures now == before
  {
  }

  lemma {:induction false} SectionsLeave(s: State, mds: seq<MediaDescription>, kind: RemoteType)
    requires ProcessSections(s, mds, kind).ok
    ensures Leaves(mds, kind, s, ProcessSections(s, mds, kind).state)
    decreases mds
  {
    if mds == [] {
      assert s.remotes + [] == s.remotes;
    } else {
      hide Leaves, LeavesOne, Adopt, AddCandidates, Candidates;
      var next := Adopt(AddCandidates(s, Candidates(mds[0].attributes)).state, mds[0], kind);
      SectionLeaves(mds[0], kind, s);
      SectionsLeave(next, mds[1..], kind);
      LeavesStep(mds, kind, s, next, ProcessSections(next, mds[1..], kind).state);
    }
  }

  lemma AllCandidatesFirst(mds: seq<MediaDescription>)
    requires mds != []
    ensures AllCandidates(mds) == Candidates(mds[0].attributes) + AllCandidates(mds[1..])
  {
    var parts := seq(|mds|, i requires 0 <= i < |mds| => Candidates(mds[i].attributes));
    assert parts[1..] == seq(|mds[1..]|, i requires 0 <= i < |mds[1..]| => Candidates(mds[1..][i].attributes));
  }

  // ----- what negotiation does not touch

  function Stripped(md: MediaDescription): MediaDescription {
    md.(attributes := WithoutSetup(md.attributes))
  }

  /** The descriptions differ in setup attributes alone. */
  predicate SameButRoles(a: SessionDescription, b: SessionDescription) {
    && a.(media := []) == b.(media := []) && |a.media| == |b.media|
    && forall i :: 0 <= i < |a.media| ==> Stripped(a.media[i]) == Stripped(b.media[i])
  }

  lemma {:induction false} StrippedOnce(attrs: seq<Attribute>, role: DtlsSetupRole)
    ensures WithoutSetup(WithoutSetup(attrs) + [Setup(role)]) == WithoutSetup(attrs)
  {
    var kept := WithoutSetup(attrs) + [Setup(role)];
    if attrs == [] {
      assert kept == [Setup(role)] && kept[1..] == [];
    } else {
      StrippedOnce(attrs[1..], role);
      var rest := WithoutSetup(attrs[1..]) + [Setup(role)];
      assert kept == if attrs[0].Setup? then rest else [attrs[0]] + rest;
      assert ([attrs[0]] + rest)[1..] == rest;
    }
  }

  lemma SetLocalRoleKeepsRest(s: State, role: DtlsSetupRole)
    ensures SameButRoles(s.sdp, SetLocalRole(s, role).sdp)
  {
    forall i | 0 <= i < |s.sdp.media|
      ensures Stripped(WithRole(s.sdp.media[i], role)) == Stripped(s.sdp.media[i])
    {
      StrippedOnce(s.sdp.media[i].attributes, role);
    }
  }

  lemma {:induction false} SectionsKeepRest(s: State, mds: seq<MediaDescription>, kind: RemoteType)
    ensures SameButRoles(s.sdp, ProcessSections(s, mds, kind).state.sdp)
    decreases mds
  {
    if mds != [] {
      hide AddCandidates, SetLocalRole, Stripped;
      var cs := Candidates(mds[0].attributes);
      var added := AddCandidates(s, cs);
      AddCandidatesFrame(s, cs);
      if added.ok {
        AdoptKeepsRest(added.state, mds[0], kind);
        SectionsKeepRest(Adopt(added.state, mds[0], kind), mds[1..], kind);
      }
    }
  }

  lemma AdoptKeepsRest(s: State, md: MediaDescription, kind: RemoteType)
    ensures SameButRoles(s.sdp, Adopt(s, md, kind).sdp)
  {
    hide SetLocalRole, Stripped;
    var (f, role) := (FirstFingerprint(md.attributes), FirstSetup(md.attributes));
    var s1 := if f.Some? then s.(remoteFingerprint := f) else s;
    if role.Some? {
      SetLocalRoleKeepsRest(s1.(remoteRole := role), Complement(role.value, kind));
    }
  }

  lemma AfterKeepsRest(s: State, e: Event)
    ensures SameButRoles(s.sdp, After(s, e).sdp)
  {
    hide SetLocalRole, ProcessSections, Stripped;
    match e {
      case OfferIn(offer) =>
        SetLocalRoleKeepsRest(s, LocalRoleFor(offer));
        SectionsKeepRest(SetLocalRole(s, LocalRoleFor(offer)), offer.media, Offer);
      case AnswerIn(answer) =>
        SectionsKeepRest(s, answer.media, AnswerType);
    }
  }

  /** Whatever descriptions come, a session's own differs from its first one in setup attributes alone. */
  lemma {:induction false} RunKeepsRest(s: State, es: seq<Event>)
    ensures SameButRoles(s.sdp, Run(s, es).sdp)
    decreases es
  {
    if es != [] {
      hide After, Stripped;
      AfterKeepsRest(s, es[0]);
      RunKeepsRest(After(s, es[0]), es[1..]);
    }
  }

  /** A reachable session keeps its origin's header and first candidate's address; an answer has no address. */
  lemma HeadersKept(o: Origin, es: seq<Event>, offer: SessionDescription)
    ensures var s := Run(NewState(o), es);
      var address := if o.locals == [] then o.base.connectionData else "IN IP4 " + o.locals[0].address;
      && s.sdp == o.base.(media := s.sdp.media, connectionData := address)
      && AnswerTo(s, offer) == o.base.(media := AnswerTo(s, offer).media, connectionData := "IN IP4 0.0.0.0")
  {
    hide Stripped, Run, SetLocalRole;
    RunKeepsRest(NewState(o), es);
    SetLocalRoleKeepsRest(Run(NewState(o), es), LocalRoleFor(offer));
  }

  // ----- reachable sessions

  /** The generated sections hold rtpmaps alone. */
  predicate Bare(o: Origin) {
    forall md <- o.base.media :: Others(md.attributes) == []
  }

  /** Every section carries the certificate's fingerprint and the session's own candidates. */
  predicate Carries(mds: seq<MediaDescription>, o: Origin) {
    forall i :: 0 <= i < |mds| ==>
      FirstFingerprint(mds[i].attributes) == Some(o.fingerprint) && Candidates(mds[i].attributes) == o.locals
  }

  /** Candidates and fingerprint are read off the attributes that are neither rtpmaps nor setup. */
  lemma {:induction false} ReadOffOthers(attrs: seq<Attribute>)
    ensures FirstFingerprint(Others(attrs)) == FirstFingerprint(attrs)
    ensures Candidates(Others(attrs)) == Candidates(attrs)
  {
    if attrs != [] {
      var a := attrs[0];
      assert attrs == [a] + attrs[1..];
      OthersJoin([a], attrs[1..]);
      assert Others([a]) == if a.RtpMap? then [] else [a] by {
        assert [a][..0] == [];
      }
      var rest := Others(attrs[1..]);
      ReadOffOthers(attrs[1..]);
      assert Others(attrs) == if a.RtpMap? then rest else [a] + rest;
      assert ([a] + rest)[1..] == rest;
    }
  }

  lemma {:induction false} ReadOffWithoutSetup(attrs: seq<Attribute>, role: DtlsSetupRole)
    ensures FirstFingerprint(WithoutSetup(attrs) + [Setup(role)]) == FirstFingerprint(attrs)
    ensures Candidates(WithoutSetup(attrs) + [Setup(role)]) == Candidates(attrs)
  {
    var kept := WithoutSetup(attrs) + [Setup(role)];
    if attrs == [] {
      assert kept == [Setup(role)] && kept[1..] == [];
    } else {
      ReadOffWithoutSetup(attrs[1..], role);
      var rest := WithoutSetup(attrs[1..]) + [Setup(role)];
      assert kept == if attrs[0].Setup? then rest else [attrs[0]] + rest;
      assert ([attrs[0]] + rest)[1..] == rest;
    }
  }

  lemma SetLocalRoleCarries(s: State, role: DtlsSetupRole, o: Origin)
    requires Carries(s.sdp.media, o)
    ensures Carries(SetLocalRole(s, role).sdp.media, o)
  {
    forall i | 0 <= i < |s.sdp.media|
      ensures var attrs := WithRole(s.sdp.media[i], role).attributes;
        FirstFingerprint(attrs) == Some(o.fingerprint) && Candidates(attrs) == o.locals
    {
      ReadOffWithoutSetup(s.sdp.media[i].attributes, role);
    }
  }

  lemma {:induction false} AnswerCarries(locals: seq<MediaDescription>, offers: seq<MediaDescription>, o: Origin)
    requires Carries(locals, o)
    ensures Carries(AnswerMedia(locals, offers), o)
  {
    if locals != [] {
      var n := |locals| - 1;
      AnswerCarries(locals[..n], offers, o);
      var m := FindMatch(locals[n], offers);
      if m.Some? {
        KeptOthers(locals[n].attributes, m.value.attributes);
        ReadOffOthers(locals[n].attributes);
        ReadOffOthers(Kept(locals[n].attributes, m.value.attributes));
      }
    }
  }

  /** What every reachable session of an origin keeps, its pair list included. */
  predicate Sound(s: State, o: Origin) {
    && RoleStated(s) && Carries(s.sdp.media, o) && s.locals == o.locals
    && s.pairs == Accumulated(s.locals, s.remotes)
  }

  lemma {:induction false} CandidatesKeepPairs(s: State, cs: seq<Candidate>)
    requires s.pairs == Accumulated(s.locals, s.remotes)
    ensures var r := AddCandidates(s, cs).state;
      r.pairs == Accumulated(r.locals, r.remotes)
    decreases cs
  {
    if cs != [] {
      var remotes := s.remotes + [cs[0]];
      assert remotes[..|s.remotes|] == s.remotes;
      if s.locals != [] {
        CandidatesKeepPairs(s.(remotes := remotes, pairs := s.pairs + Product(s.locals, remotes)), cs[1..]);
      }
    }
  }

  lemma SetLocalRoleKeepsSound(s: State, role: DtlsSetupRole, o: Origin)
    requires Sound(s, o) && role != HoldConn
    ensures Sound(SetLocalRole(s, role), o) && SetLocalRole(s, role).localRole == role
  {
    hide Accumulated, RoleStated, Carries;
    SetLocalRoleStates(s, role);
    SetLocalRoleCarries(s, role, o);
  }

  /** Any remote description keeps a session sound, refused ones too. */
  lemma {:induction false} SectionsKeepSound(s: State, mds: seq<MediaDescription>, kind: RemoteType, o: Origin)
    requires Sound(s, o)
    ensures Sound(ProcessSections(s, mds, kind).state, o)
    decreases mds
  {
    if mds != [] {
      hide AddCandidates, SetLocalRole, RoleStated, Carries, Accumulated;
      var (md, cs) := (mds[0], Candidates(mds[0].attributes));
      var added := AddCandidates(s, cs);
      AddCandidatesFrame(s, cs);
      CandidatesKeepPairs(s, cs);
      SameDescription(s, added.state);
      if added.ok {
        AdoptKeepsSound(added.state, md, kind, o);
        SectionsKeepSound(Adopt(added.state, md, kind), mds[1..], kind, o);
      }
    }
  }

  lemma SameDescription(s: State, t: State)
    requires s.sdp == t.sdp && s.localRole == t.localRole && RoleStated(s)
    ensures RoleStated(t)
  {
  }

  lemma AdoptKeepsSound(s: State, md: MediaDescription, kind: RemoteType, o: Origin)
    requires Sound(s, o)
    ensures Sound(Adopt(s, md, kind), o)
  {
    hide Accumulated, Carries, SetLocalRole, States;
    var (f, role) := (FirstFingerprint(md.attributes), FirstSetup(md.attributes));
    var s1 := if f.Some? then s.(remoteFingerprint := f) else s;
    if role.Some? {
      SetLocalRoleKeepsSound(s1.(remoteRole := role), Complement(role.value, kind), o);
    }
  }

  lemma {:induction false} CandidatesReadBack(cs: seq<Candidate>)
    ensures Candidates(CandidateAttrs(cs)) == cs
  {
    if cs != [] {
      assert CandidateAttrs(cs)[1..] == CandidateAttrs(cs[1..]);
      CandidatesReadBack(cs[1..]);
    }
  }

  lemma {:induction false} CandidatesJoin(xs: seq<Attribute>, ys: seq<Attribute>)
    ensures Candidates(xs + ys) == Candidates(xs) + Candidates(ys)
  {
    if xs == [] {
      assert xs + ys == ys;
    } else {
      assert (xs + ys)[1..] == xs[1..] + ys;
      CandidatesJoin(xs[1..], ys);
      var (first, mid) := (if xs[0].CandidateAttr? then [xs[0].candidate] else [], Candidates(xs[1..]));
      assert first + (mid + Candidates(ys)) == (first + mid) + Candidates(ys);
    }
  }

  lemma {:induction false} FirstFingerprintAfter(xs: seq<Attribute>, f: Fingerprint, ys: seq<Attribute>)
    requires FirstFingerprint(xs).None?
    ensures FirstFingerprint(xs + [FingerprintAttr(f)] + ys) == Some(f)
  {
    var all := xs + [FingerprintAttr(f)] + ys;
    if xs != [] {
      assert all[1..] == xs[1..] + [FingerprintAttr(f)] + ys;
      FirstFingerprintAfter(xs[1..], f, ys);
    }
  }

  lemma NewStateSound(o: Origin)
    requires Bare(o)
    ensures Sound(NewState(o), o)
  {
    forall md <- o.base.media
      ensures Setups(md.attributes) == []
    {
      SetupsOfOthers(md.attributes);
    }
    NewStateStates(o);
    hide RoleStated, Accumulated;
    forall i | 0 <= i < |o.base.media|
      ensures var attrs := WithCommon(o.base.media[i], o.fingerprint, ActPass, o.locals).attributes;
        FirstFingerprint(attrs) == Some(o.fingerprint) && Candidates(attrs) == o.locals
    {
      var (own, f) := (o.base.media[i].attributes, o.fingerprint);
      ReadOffOthers(own);
      FirstFingerprintAfter(own, f, [Setup(ActPass)] + CandidateAttrs(o.locals));
      assert own + [FingerprintAttr(f), Setup(ActPass)] + CandidateAttrs(o.locals)
             == own + [FingerprintAttr(f)] + ([Setup(ActPass)] + CandidateAttrs(o.locals));
      CandidatesJoin(own + [FingerprintAttr(f), Setup(ActPass)], CandidateAttrs(o.locals));
      CandidatesJoin(own, [FingerprintAttr(f), Setup(ActPass)]);
      assert [FingerprintAttr(f), Setup(ActPass)][1..] == [Setup(ActPass)] && [Setup(ActPass)][1..] == [];
      CandidatesReadBack(o.locals);
    }
  }

  lemma EventKeepsSound(s: State, e: Event, o: Origin)
    requires Sound(s, o)
    ensures Sound(After(s, e), o)
  {
    hide Sound, SetLocalRole, ProcessSections;
    match e {
      case OfferIn(offer) =>
        SetLocalRoleKeepsSound(s, LocalRoleFor(offer), o);
        SectionsKeepSound(SetLocalRole(s, LocalRoleFor(offer)), offer.media, Offer, o);
      case AnswerIn(answer) =>
        SectionsKeepSound(s, answer.media, AnswerType, o);
    }
  }

  lemma {:induction false} RunKeepsSound(s: State, es: seq<Event>, o: Origin)
    requires Sound(s, o)
    ensures Sound(Run(s, es), o)
    decreases es
  {
    if es != [] {
      EventKeepsSound(s, es[0], o);
      RunKeepsSound(After(s, es[0]), es[1..], o);
    }
  }

  // ----- an offer and its answer

  /** Whatever the offer, the answer states in each section the role against the offer's first one, or Active. */
  lemma AnswerStatesRole(answerer: State, offer: SessionDescription, role: DtlsSetupRole)
    requires RoleStated(answerer)
    requires if offer.media == [] || FirstSetup(offer.media[0].attributes).None? then role == Active
             else Opposed(FirstSetup(offer.media[0].attributes).value, Offer, role)
    ensures States(AnswerTo(answerer, offer).media, role)
  {
    hide SetLocalRole;
    SetLocalRoleStates(answerer, role);
    AnswerStates(SetLocalRole(answerer, role).sdp.media, offer.media, role);
  }

  /** `xs`, `n` times over. */
  function Rounds<T>(xs: seq<T>, n: nat): seq<T> {
    Flatten(seq(n, _ => xs))
  }

  /** `now` holds the peer's fingerprint and stated role, and its candidates once more for each of `n` sections. */
  predicate Knows(before: State, now: State, peer: Origin, role: DtlsSetupRole, n: nat) {
    && now.remoteFingerprint == Some(peer.fingerprint) && now.remoteRole == Some(role)
    && now.remotes == before.remotes + Rounds(peer.locals, n)
  }

  lemma SetLocalRoleAlone(s: State, role: DtlsSetupRole)
    ensures var r := SetLocalRole(s, role);
      r == s.(sdp := r.sdp, localRole := role)
  {
  }

  lemma SectionsKnown(
    s: State, mds: seq<MediaDescription>, kind: RemoteType, peer: Origin, role: DtlsSetupRole)
    requires ProcessSections(s, mds, kind).ok && mds != [] && States(mds, role) && Carries(mds, peer)
    ensures var r := ProcessSections(s, mds, kind).state;
      Knows(s, r, peer, role, |mds|) && Opposed(role, kind, r.localRole)
  {
    hide ProcessSections, Opposed;
    SectionsLeave(s, mds, kind);
    var last := |mds| - 1;
    forall i | 0 <= i < |mds|
      ensures Roles(mds)[i] == Some(role)
    {
      FirstSetupIsFirst(mds[i].attributes);
    }
    assert NoneFrom(Roles(mds), last + 1) && NoneFrom(Fingerprints(mds), last + 1);
    assert Roles(mds)[last] == Some(role) && Fingerprints(mds)[last] == Some(peer.fingerprint);
    assert seq(|mds|, i requires 0 <= i < |mds| => Candidates(mds[i].attributes)) == seq(|mds|, _ => peer.locals);
  }

  /** After an answered offer each side holds the other's certificate, stated role and candidates. */
  lemma PeersMeet(offerer: State, o1: Origin, answerer: State, o2: Origin)
    requires Sound(offerer, o1) && Sound(answerer, o2)
    requires ProcessOffer(answerer, offerer.sdp).ok
    requires ProcessAnswer(offerer, AnswerTo(answerer, offerer.sdp)).ok
    ensures var (a, answer) := (ProcessOffer(answerer, offerer.sdp).state, AnswerTo(answerer, offerer.sdp));
      var o := ProcessAnswer(offerer, answer).state;
      && (if offerer.sdp.media == [] then a == SetLocalRole(answerer, Active)
          else && Knows(answerer, a, o1, offerer.localRole, |offerer.sdp.media|)
               && Opposed(offerer.localRole, Offer, a.localRole))
      && (if answer.media == [] then o == offerer
          else && Knows(offerer, o, o2, a.localRole, |answer.media|)
               && Opposed(a.localRole, AnswerType, o.localRole))
  {
    hide SetLocalRole, Accumulated, Rounds, Carries;
    var offer := offerer.sdp;
    var role := LocalRoleFor(offer);
    var ready := SetLocalRole(answerer, role);
    SetLocalRoleKeepsSound(answerer, role, o2);
    var answer := AnswerTo(answerer, offer);
    AnswerStates(ready.sdp.media, offer.media, role);
    AnswerCarries(ready.sdp.media, offer.media, o2);
    if offer.media == [] {
      NothingToAnswer(ready.sdp.media, offer.media);
    } else {
      FirstSetupIsFirst(offer.media[0].attributes);
      SetLocalRoleAlone(answerer, role);
      SectionsKnown(ready, offer.media, Offer, o1, offerer.localRole);
    }
    if answer.media != [] {
      SectionsKnown(offerer, answer.media, AnswerType, o2, role);
    }
  }

  /** From any two reachable sessions: what an answered offer tells each side, and the roles it leaves. */
  lemma ReachableSessionsMeet(o1: Origin, es1: seq<Event>, o2: Origin, es2: seq<Event>)
    requires Bare(o1) && Bare(o2)
    ensures var offerer, answerer := Run(NewState(o1), es1), Run(NewState(o2), es2);
      var (a, answer) := (ProcessOffer(answerer, offerer.sdp), AnswerTo(answerer, offerer.sdp));
      var o := ProcessAnswer(offerer, answer);
      a.ok && o.ok && answer.media != [] ==>
        && Knows(answerer, a.state, o1, offerer.localRole, |offerer.sdp.media|)
        && Knows(offerer, o.state, o2, a.state.localRole, |answer.media|)
        && a.state.pairs == Accumulated(o2.locals, a.state.remotes)
        && o.state.pairs == Accumulated(o1.locals, o.state.remotes)
        && o.state.localRole == (if offerer.localRole == ActPass then Passive else offerer.localRole)
        && a.state.localRole == (if offerer.localRole == Active then Passive else Active)
  {
    hide ProcessOffer, ProcessAnswer, AnswerTo, NewState, Knows, Accumulated;
    NewStateSound(o1);
    NewStateSound(o2);
    RunKeepsSound(NewState(o1), es1, o1);
    RunKeepsSound(NewState(o2), es2, o2);
    var offerer, answerer := Run(NewState(o1), es1), Run(NewState(o2), es2);
    var answer := AnswerTo(answerer, offerer.sdp);
    if ProcessOffer(answerer, offerer.sdp).ok && ProcessAnswer(offerer, answer).ok && answer.media != [] {
      PeersMeet(offerer, o1, answerer, o2);
      EventKeepsSound(offerer, AnswerIn(answer), o1);
      EventKeepsSound(answerer, OfferIn(offerer.sdp), o2);
      if offerer.sdp.media == [] {
        NothingOffered(answerer, offerer.sdp);
      }
    }
  }

  lemma NothingOffered(answerer: State, offer: SessionDescription)
    requires offer.media == []
    ensures AnswerTo(answerer, offer).media == []
  {
    NothingToAnswer(SetLocalRole(answerer, LocalRoleFor(offer)).sdp.media, offer.media);
  }
}
