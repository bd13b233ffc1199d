/**
 * The signalling server with one lock-protected section per step. Requesting, accepting and rejecting
 * a call read the stream and both records under separate read locks; requesting and rejecting write
 * the copies back under a last write lock. In between, any number of other handlers take their sections.
 */
module SignallingLocks {
  import opened Common
  import opened Signalling

  datatype Kind = Requesting | Accepting | Rejecting

  /** How far a handler is: what it has read so far. */
  datatype Stage =
    | Begun
    | StreamFound
    | CallerRead(caller: User)
    | BothRead(caller: User, callee: User)
    | Answered(response: Response)

  datatype Task = Task(kind: Kind, from: string, to: string, stage: Stage)

  datatype System = System(users: Users, tasks: map<nat, Task>)

  /** A section of one handler: a whole handler where that is one section, else the next one of `id`. */
  datatype Event =
    | Single(request: Request)
    | Begin(id: nat, kind: Kind, from: string, to: string)
    | Section(id: nat)

  function RequestOf(t: Task): Request {
    match t.kind
    case Requesting => CallRequest(t.from, t.to)
    case Accepting => CallAccept(t.from, t.to)
    case Rejecting => CallReject(t.from, t.to)
  }

  function Success(kind: Kind): Response {
    match kind
    case Requesting => CallRequestOk
    case Accepting => CallAcceptOk
    case Rejecting => CallRejectOk
  }

  /** The reply when the stream of the callee is missing. */
  function NoStream(kind: Kind): Response {
    match kind
    case Requesting => CallRequestError
    case Accepting => CallAcceptError
    case Rejecting => CallRejectError
  }

  /** The reply when a record is missing or has the wrong status. */
  function Refused(kind: Kind): Response {
    if kind == Requesting then OtherError else NoStream(kind)
  }

  function StatusBefore(kind: Kind, peer: string): Status {
    if kind == Requesting then Available else Occupied(peer)
  }

  function StatusAfter(kind: Kind, peer: string): Status {
    if kind == Requesting then Occupied(peer) else Available
  }

  /** The last section: both copies, with their new status, overwrite whatever is stored. */
  function WriteCopies(users: Users, t: Task): Users
    requires t.stage.BothRead?
  {
    WriteBack(users, t.stage.callee.(status := StatusAfter(t.kind, t.from)),
              t.stage.caller.(status := StatusAfter(t.kind, t.to)))
  }

  /** Both copies have the status that the handler asks for; this is tested before the last section. */
  predicate Willing(t: Task)
    requires t.stage.BothRead?
  {
    t.stage.caller.status == StatusBefore(t.kind, t.to) && t.stage.callee.status == StatusBefore(t.kind, t.from)
  }

  /** The stage after one more section, and the map it leaves. */
  function Run(users: Users, t: Task): (Users, Stage) {
    match t.stage
    case Begun => (users, if HasStream(users, t.to) then StreamFound else Answered(NoStream(t.kind)))
    case StreamFound => (users, if t.from in users then CallerRead(users[t.from]) else Answered(Refused(t.kind)))
    case CallerRead(caller) =>
      if t.to !in users then (users, Answered(Refused(t.kind)))
      else
        var read := t.(stage := BothRead(caller, users[t.to]));
        (users, if !Willing(read) then Answered(Refused(t.kind))
                else if t.kind == Accepting then Answered(Success(t.kind)) else read.stage)
    case BothRead(_, _) => (WriteCopies(users, t), Answered(Success(t.kind)))
    case Answered(_) => (users, t.stage)
  }

  predicate Enabled(s: System, e: Event) {
    match e
    case Single(r) => !r.CallRequest? && !r.CallAccept? && !r.CallReject?
    case Begin(id, _, _, _) => id !in s.tasks
    case Section(id) => id in s.tasks
  }

  function Step(s: System, e: Event): System
    requires Enabled(s, e)
  {
    match e
    case Single(r) => s.(users := Handle(s.users, r).0)
    case Begin(id, kind, from, to) => s.(tasks := s.tasks[id := Task(kind, from, to, Begun)])
    case Section(id) =>
      var (users, stage) := Run(s.users, s.tasks[id]);
      System(users, s.tasks[id := s.tasks[id].(stage := stage)])
  }

  // ----- what every section keeps

  /** Whoever is occupied is occupied with a registered user. */
  predicate PeersRegistered(users: Users) {
    forall name :: name in users && users[name].status.Occupied? ==> users[name].status.peer in users
  }

  /** A copy that is out of date in its status or stream, but never in its name or password. */
  predicate CopyOf(users: Users, name: string, copy: User) {
    name in users && copy.username == name && copy.password == users[name].password
  }

  predicate TaskFits(users: Users, t: Task) {
    match t.stage
    case Begun => true
    case StreamFound => t.to in users
    case CallerRead(caller) => t.to in users && CopyOf(users, t.from, caller)
    case BothRead(caller, callee) =>
      t.kind != Accepting && CopyOf(users, t.from, caller) && CopyOf(users, t.to, callee) && Willing(t)
    case Answered(_) => true
  }

  predicate Consistent(s: System) {
    && Keyed(s.users)
    && PeersRegistered(s.users)
    && forall id :: id in s.tasks ==> TaskFits(s.users, s.tasks[id])
  }

  lemma SingleKeepsPeers(users: Users, r: Request)
    requires Keyed(users) && PeersRegistered(users)
    ensures PeersRegistered(Handle(users, r).0)
  {
  }

  lemma RunKeeps(users: Users, t: Task)
    requires Keyed(users) && PeersRegistered(users) && TaskFits(users, t)
    ensures var (after, stage) := Run(users, t);
            Keyed(after) && PeersRegistered(after) && Keeps(users, after) && TaskFits(after, t.(stage := stage))
  {
  }

  lemma StepConsistent(s: System, e: Event)
    requires Consistent(s) && Enabled(s, e)
    ensures Consistent(Step(s, e)) && Keeps(s.users, Step(s, e).users)
  {
    match e
    case Single(r) =>
      StepKeeps(s.users, r);
      SingleKeepsPeers(s.users, r);
    case Begin(_, _, _, _) =>
    case Section(id) => RunKeeps(s.users, s.tasks[id]);
  }

  // ----- runs

  /** The systems before each section and after the last, from users loaded offline and no handler at work. */
  predicate IsInterleaving(ss: seq<System>, es: seq<Event>) {
    && |ss| == |es| + 1
    && Keyed(ss[0].users) && AllOffline(ss[0].users) && ss[0].tasks == map[]
    && forall i :: 0 <= i < |es| ==> Enabled(ss[i], es[i]) && ss[i + 1] == Step(ss[i], es[i])
  }

  lemma {:induction false} AlwaysConsistent(ss: seq<System>, es: seq<Event>, n: nat)
    requires IsInterleaving(ss, es) && n < |ss|
    ensures Consistent(ss[n])
  {
    if n > 0 {
      AlwaysConsistent(ss, es, n - 1);
      assert Enabled(ss[n - 1], es[n - 1]);
      StepConsistent(ss[n - 1], es[n - 1]);
    }
  }

  /** However sections interleave, users stay registered under their own name with their password, and peers exist. */
  lemma {:induction false} UsersSurviveInterleaving(ss: seq<System>, es: seq<Event>, m: nat, n: nat)
    requires IsInterleaving(ss, es) && m <= n < |ss|
    ensures Keyed(ss[n].users) && PeersRegistered(ss[n].users) && Keeps(ss[m].users, ss[n].users)
  {
    AlwaysConsistent(ss, es, n);
    if m < n {
      UsersSurviveInterleaving(ss, es, m, n - 1);
      AlwaysConsistent(ss, es, n - 1);
      assert Enabled(ss[n - 1], es[n - 1]);
      StepConsistent(ss[n - 1], es[n - 1]);
    }
  }

  // ----- the two granularities

  /** Nothing else takes a section while the handler runs: it ends with the reply and map of the whole handler. */
  lemma UninterruptedIsWhole(users: Users, t: Task)
    requires Keyed(users) && t.stage == Begun
    ensures var one := t.(stage := Run(users, t).1);
            var two := t.(stage := Run(users, one).1);
            var three := t.(stage := Run(users, two).1);
            var four := Run(users, three);
            Handle(users, RequestOf(t)) == (four.0, if four.1.Answered? then four.1.response else Nothing)
  {
  }

  /** What a handler copied is still what is stored, and the callee still has a stream. */
  predicate Current(users: Users, t: Task)
    requires t.stage.BothRead? && t.from in users && t.to in users
  {
    && users[t.from] == t.stage.caller
    && (t.from != t.to ==> users[t.to] == t.stage.callee)
    && users[t.to].stream.Some?
  }

  /** The last section does what the whole handler would do at that moment exactly when its copies are current. */
  lemma LastSectionIsWholeExact(users: Users, t: Task)
    requires Keyed(users) && t.stage.BothRead? && TaskFits(users, t)
    ensures (Run(users, t).0, Success(t.kind)) == Handle(users, RequestOf(t)) <==> Current(users, t)
  {
    var whole := Handle(users, RequestOf(t));
    var after := Run(users, t).0;
    if (after, Success(t.kind)) == whole {
      assert after[t.from] == whole.0[t.from] && after[t.to] == whole.0[t.to];
    }
    if Current(users, t) {
      assert after == whole.0;
    }
  }

  /** An accepting handler has read the caller as occupied with the callee, and now reads the callee likewise. */
  predicate Accepts(users: Users, t: Task) {
    t.kind == Accepting && t.stage.CallerRead? && Run(users, t).1 == Answered(CallAcceptOk)
  }

  /** An acceptance is what the whole handler would reply exactly when the caller is still so, and there is a stream. */
  lemma AcceptIsWholeExact(users: Users, t: Task)
    requires Keyed(users) && Accepts(users, t)
    ensures (users, CallAcceptOk) == Handle(users, RequestOf(t)) <==>
            With(users, t.from, t.to) && users[t.to].stream.Some?
  {
  }

  // ----- interleavings that keep call matching

  /** Section `i` of an interleaving writes copies back. */
  predicate Writes(ss: seq<System>, es: seq<Event>, i: nat)
    requires |ss| == |es| + 1 && i < |es|
  {
    es[i].Section? && es[i].id in ss[i].tasks && ss[i].tasks[es[i].id].stage.BothRead?
  }

  /** Write-back `i` finds the records it copied as they were. */
  predicate CurrentAt(ss: seq<System>, es: seq<Event>, i: nat)
    requires |ss| == |es| + 1 && i < |es| && Writes(ss, es, i)
  {
    var t := ss[i].tasks[es[i].id];
    t.from in ss[i].users && t.to in ss[i].users && Current(ss[i].users, t)
  }

  /** Write-back `i` does what its whole handler would do there. */
  predicate WholeAt(ss: seq<System>, es: seq<Event>, i: nat)
    requires |ss| == |es| + 1 && i < |es| && Writes(ss, es, i)
  {
    var t := ss[i].tasks[es[i].id];
    (ss[i + 1].users, Success(t.kind)) == Handle(ss[i].users, RequestOf(t))
  }

  predicate CurrentWrites(ss: seq<System>, es: seq<Event>, n: nat)
    requires |ss| == |es| + 1 && n <= |es|
  {
    forall i :: 0 <= i < n && Writes(ss, es, i) ==> CurrentAt(ss, es, i)
  }

  /** In every reachable system a write-back acts as its whole handler exactly when its copies are current. */
  lemma WriteIsWholeExact(ss: seq<System>, es: seq<Event>, i: nat)
    requires IsInterleaving(ss, es) && i < |es| && Writes(ss, es, i)
    ensures WholeAt(ss, es, i) <==> CurrentAt(ss, es, i)
  {
    AlwaysConsistent(ss, es, i);
    assert ss[i + 1] == Step(ss[i], es[i]);
    var t := ss[i].tasks[es[i].id];
    assert TaskFits(ss[i].users, t);
    hide Handle, Current;
    LastSectionIsWholeExact(ss[i].users, t);
  }

  /** What section `i` is to whole handlers: a request, or nothing for a section that only reads. */
  function WholeOf(ss: seq<System>, es: seq<Event>, i: nat): Option<Request>
    requires |ss| == |es| + 1 && i < |es|
  {
    if es[i].Single? then Some(es[i].request)
    else if Writes(ss, es, i) then Some(RequestOf(ss[i].tasks[es[i].id]))
    else None
  }

  /** The whole handlers behind the first `n` sections. */
  function Requests(ss: seq<System>, es: seq<Event>, n: nat): seq<Request>
    requires |ss| == |es| + 1 && n <= |es|
  {
    if n == 0 then []
    else match WholeOf(ss, es, n - 1)
      case Some(r) => Requests(ss, es, n - 1) + [r]
      case None => Requests(ss, es, n - 1)
  }

  /** The user maps before each of them and after the last. */
  function Maps(ss: seq<System>, es: seq<Event>, n: nat): (us: seq<Users>)
    requires |ss| == |es| + 1 && n <= |es|
    ensures |us| == |Requests(ss, es, n)| + 1
  {
    if n == 0 then [ss[0].users]
    else match WholeOf(ss, es, n - 1)
      case Some(_) => Maps(ss, es, n - 1) + [ss[n].users]
      case None => Maps(ss, es, n - 1)
  }

  lemma RunExtends(us: seq<Users>, rs: seq<Request>, r: Request)
    requires Signalling.IsRun(us, rs)
    ensures Signalling.IsRun(us + [Handle(us[|rs|], r).0], rs + [r])
  {
    hide Handle;
  }

  /** With current write-backs, the maps of an interleaving are those of a run of whole handlers. */
  lemma {:induction false} InterleavingIsWholeRun(ss: seq<System>, es: seq<Event>, n: nat)
    requires IsInterleaving(ss, es) && n <= |es| && CurrentWrites(ss, es, n)
    ensures var (us, rs) := (Maps(ss, es, n), Requests(ss, es, n));
            Signalling.IsRun(us, rs) && us[|rs|] == ss[n].users
  {
    hide Signalling.IsRun, Handle;
    if n > 0 {
      InterleavingIsWholeRun(ss, es, n - 1);
      SectionIsWhole(ss, es, n - 1);
      var whole := WholeOf(ss, es, n - 1);
      if whole.Some? {
        RunExtends(Maps(ss, es, n - 1), Requests(ss, es, n - 1), whole.value);
      }
    } else {
      FirstMap(ss, es);
    }
  }

  /** A section does what its whole handler would do, or leaves the map alone. */
  lemma SectionIsWhole(ss: seq<System>, es: seq<Event>, i: nat)
    requires IsInterleaving(ss, es) && i < |es| && (Writes(ss, es, i) ==> CurrentAt(ss, es, i))
    ensures var whole := WholeOf(ss, es, i);
            ss[i + 1].users == if whole.Some? then Handle(ss[i].users, whole.value).0 else ss[i].users
  {
    hide Handle, CurrentAt;
    assert Enabled(ss[i], es[i]) && ss[i + 1] == Step(ss[i], es[i]);
    if Writes(ss, es, i) {
      WriteIsWholeExact(ss, es, i);
    }
  }

  lemma FirstMap(ss: seq<System>, es: seq<Event>)
    requires IsInterleaving(ss, es)
    ensures Signalling.IsRun([ss[0].users], [])
  {
  }

  /** Call matching, for interleavings: whoever is occupied is traced to its request, when write-backs are current. */
  lemma CurrentWritesKeepMatching(ss: seq<System>, es: seq<Event>, n: nat, x: string, y: string) returns (i: nat)
    requires IsInterleaving(ss, es) && n <= |es| && CurrentWrites(ss, es, n) && With(ss[n].users, x, y)
    ensures Traced(Maps(ss, es, n), Requests(ss, es, n), x, y, i, |Requests(ss, es, n)|)
  {
    hide Signalling.IsRun, Traced;
    InterleavingIsWholeRun(ss, es, n);
    i := OccupiedIsTraced(Maps(ss, es, n), Requests(ss, es, n), |Requests(ss, es, n)|, x, y);
  }

  /**
   * An acceptance at its last read: the callee was linked by a request, and neither party has left since
   * exactly when the caller, read one section earlier, still is occupied with the callee.
   */
  lemma InterleavedAcceptExact(ss: seq<System>, es: seq<Event>, n: nat, id: nat) returns (i: nat)
    requires IsInterleaving(ss, es) && n < |es| && CurrentWrites(ss, es, n) && es[n] == Section(id)
    requires id in ss[n].tasks && Accepts(ss[n].users, ss[n].tasks[id])
    ensures var (us, rs, t) := (Maps(ss, es, n), Requests(ss, es, n), ss[n].tasks[id]);
            && i < |rs| && Links(us[i], rs[i], t.to, t.from)
            && (NeitherLeaves(us, rs, t.to, t.from, i, |rs|) <==> With(ss[n].users, t.from, t.to))
  {
    var t := ss[n].tasks[id];
    assert With(ss[n].users, t.to, t.from);
    hide Signalling.IsRun, Links, Leaves, Accepts;
    InterleavingIsWholeRun(ss, es, n);
    i := NeitherLeftExact(Maps(ss, es, n), Requests(ss, es, n), |Requests(ss, es, n)|, t.to, t.from);
  }

  /**
   * Without that call matching fails: `x` and `z` both read `y` as available, so
   * `x` ends occupied with `y`, `y` with `z`, and nobody has left.
   */
  lemma RacingRequestsUnmatched(x: string, y: string, z: string) returns (ss: seq<System>, es: seq<Event>)
    requires x != y && y != z && x != z
    ensures IsInterleaving(ss, es) && |ss| == |es| + 1
    ensures var users := ss[|es|].users;
            With(users, x, y) && With(users, y, z) && With(users, z, y)
    ensures forall e <- es :: e.Single? ==> e.request.Login? || e.request.MapStream?
    ensures forall e <- es :: e.Begin? ==> e.kind == Requesting
  {
    hide IsInterleaving, Step, Enabled;
    ss, es := ThreeOnline(x, y, z);
    ss, es := ReadBoth(ss, es, 0, x, y);
    ss, es := ReadBoth(ss, es, 1, z, y);
    ss, es := WriteBoth(ss, es, 0);
    ss, es := WriteBoth(ss, es, 1);
  }

  /** A call between two users, both with a stream, asked for and not answered yet. */
  lemma Linked(x: string, y: string) returns (ss: seq<System>, es: seq<Event>)
    requires x != y
    ensures IsInterleaving(ss, es) && |ss| == |es| + 1 && 1 !in ss[|es|].tasks
    ensures var users := ss[|es|].users;
            With(users, x, y) && With(users, y, x) && HasStream(users, x) && HasStream(users, y)
  {
    hide IsInterleaving, Step, Enabled;
    var z := x + y + "z";
    ss, es := ThreeOnline(x, y, z);
    ss, es := MapOne(ss, es, x, 1);
    ss, es := ReadBoth(ss, es, 0, x, y);
    ss, es := WriteBoth(ss, es, 0);
  }

  lemma MapOne(ss: seq<System>, es: seq<Event>, x: string, stream: nat)
    returns (ss': seq<System>, es': seq<Event>)
    requires IsInterleaving(ss, es) && |ss| == |es| + 1 && x in ss[|es|].users
    ensures IsInterleaving(ss', es') && |ss'| == |es'| + 1 && ss'[|es'|].tasks == ss[|es|].tasks
    ensures var users := ss[|es|].users;
            ss'[|es'|].users == users[x := users[x].(stream := Some(stream))]
    ensures es' == es + [Single(MapStream(x, stream))]
  {
    hide IsInterleaving;
    ss', es' := Extend(ss, es, Single(MapStream(x, stream)));
  }

  /** A call that its accepting user leaves between the two reads is accepted all the same. */
  lemma AcceptedAfterLeaving(x: string, y: string) returns (ss: seq<System>, es: seq<Event>)
    requires x != y
    ensures IsInterleaving(ss, es) && |ss| == |es| + 1 && |es| > 0 && es[|es| - 1] == Section(1)
    ensures 1 in ss[|es|].tasks && ss[|es|].tasks[1] == Task(Accepting, y, x, Answered(CallAcceptOk))
    ensures !With(ss[|es|].users, y, x)
  {
    ss, es := Linked(x, y);
    hide IsInterleaving;
    ss, es := Extend(ss, es, Begin(1, Accepting, y, x));
    ss, es := Extend(ss, es, Section(1));
    ss, es := Extend(ss, es, Section(1));
    ss, es := Extend(ss, es, Single(CallHangup(y)));
    ss, es := Extend(ss, es, Section(1));
  }

  /** A handler that asks for a call takes its last section. */
  lemma WriteBoth(ss: seq<System>, es: seq<Event>, id: nat) returns (ss': seq<System>, es': seq<Event>)
    requires IsInterleaving(ss, es) && |ss| == |es| + 1 && id in ss[|es|].tasks
    requires var t := ss[|es|].tasks[id];
             && t.kind == Requesting && t.stage.BothRead?
             && t.stage.caller.username == t.from && t.stage.callee.username == t.to
    ensures IsInterleaving(ss', es') && |ss'| == |es'| + 1 && es' == es + [Section(id)]
    ensures var (s, t) := (ss[|es|], ss[|es|].tasks[id]);
            && ss'[|es'|].users == s.users[t.to := t.stage.callee.(status := Occupied(t.from))]
                                          [t.from := t.stage.caller.(status := Occupied(t.to))]
            && ss'[|es'|].tasks == s.tasks[id := t.(stage := Answered(CallRequestOk))]
  {
    hide IsInterleaving;
    ss', es' := Extend(ss, es, Section(id));
  }

  lemma ThreeOnline(x: string, y: string, z: string) returns (ss: seq<System>, es: seq<Event>)
    requires x != y && y != z && x != z
    ensures IsInterleaving(ss, es) && |ss| == |es| + 1 && ss[|es|].tasks == map[]
    ensures ss[|es|].users == map[x := Fresh(x).(status := Available), z := Fresh(z).(status := Available),
                                  y := Fresh(y).(status := Available, stream := Some(0))]
    ensures es == [Single(Login(x, "p")), Single(Login(y, "p")), Single(Login(z, "p")), Single(MapStream(y, 0))]
  {
    hide Step, Enabled;
    var start := System(map[x := Fresh(x), y := Fresh(y), z := Fresh(z)], map[]);
    assert IsInterleaving([start], []);
    hide IsInterleaving;
    ss, es := LogIn([start], [], x);
    ss, es := LogIn(ss, es, y);
    ss, es := LogIn(ss, es, z);
    ss, es := MapOne(ss, es, y, 0);
  }

  /** A user who is offline logs in. */
  lemma LogIn(ss: seq<System>, es: seq<Event>, x: string) returns (ss': seq<System>, es': seq<Event>)
    requires IsInterleaving(ss, es) && |ss| == |es| + 1 && x in ss[|es|].users && ss[|es|].users[x] == Fresh(x)
    ensures IsInterleaving(ss', es') && |ss'| == |es'| + 1 && ss'[|es'|].tasks == ss[|es|].tasks
    ensures ss'[|es'|].users == ss[|es|].users[x := Fresh(x).(status := Available)]
    ensures es' == es + [Single(Login(x, "p"))]
  {
    hide IsInterleaving;
    ss', es' := Extend(ss, es, Single(Login(x, "p")));
  }

  function Fresh(name: string): User {
    User(name, "p", Offline, None)
  }

  lemma Extend(ss: seq<System>, es: seq<Event>, e: Event) returns (ss': seq<System>, es': seq<Event>)
    requires IsInterleaving(ss, es) && |ss| == |es| + 1 && Enabled(ss[|es|], e)
    ensures es' == es + [e] && |ss'| == |ss| + 1 == |es'| + 1 && ss'[|es'|] == Step(ss[|es|], e)
    ensures IsInterleaving(ss', es')
  {
    es' := es + [e];
    ss' := ss + [Step(ss[|es|], e)];
  }

  /** A new handler asks for a call between two available users and takes all sections but the last. */
  lemma ReadBoth(ss: seq<System>, es: seq<Event>, id: nat, from: string, to: string)
    returns (ss': seq<System>, es': seq<Event>)
    requires IsInterleaving(ss, es) && |ss| == |es| + 1 && id !in ss[|es|].tasks
    requires var users := ss[|es|].users;
             && from in users && users[from].status == Available
             && HasStream(users, to) && users[to].status == Available
    ensures IsInterleaving(ss', es') && |ss'| == |es'| + 1
    ensures es' == es + [Begin(id, Requesting, from, to), Section(id), Section(id), Section(id)]
    ensures var s := ss[|es|];
            ss'[|es'|] == System(s.users,
                                 s.tasks[id := Task(Requesting, from, to, BothRead(s.users[from], s.users[to]))])
  {
    ss', es' := Extend(ss, es, Begin(id, Requesting, from, to));
    ss', es' := Extend(ss', es', Section(id));
    ss', es' := Extend(ss', es', Section(id));
    ss', es' := Extend(ss', es', Section(id));
  }
}
