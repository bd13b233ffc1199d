/** Who is online, and through which connection
  * (src/server/operating_server.rs, src/server/user_handler.rs, src/server/central_server.rs).
  */
module SignallingLogin {
  import opened Common
  import opened Signalling

  /** A handler answers a request, loses its client, or ends because a reply could not be sent or the server stops. */
  datatype Act = Ask(handler: nat, request: Request) | Drop(handler: nat) | Quit(handler: nat)

  /** The shared map, and the user of each handler that has one. */
  datatype Server = Server(users: Users, names: map<nat, string>)

  function NameOf(s: Server, h: nat): Option<string> {
    if h in s.names then Some(s.names[h]) else None
  }

  function Named(names: map<nat, string>, h: nat, name: Option<string>): map<nat, string> {
    if name.Some? then names[h := name.value] else names - {h}
  }

  function Next(s: Server, act: Act): Server {
    match act
    case Ask(h, r) =>
      var (users, reply) := Handle(s.users, r);
      Server(users, Named(s.names, h, NameAfter(NameOf(s, h), r, reply)))
    case Drop(h) =>
      Server(if h in s.names then Handle(s.users, Disconnect(s.names[h])).0 else s.users, s.names - {h})
    case Quit(h) => Server(s.users, s.names - {h})
  }

  /** No client can ask for what a lost connection does. */
  predicate Askable(act: Act) {
    act.Ask? ==> !act.request.Disconnect?
  }

  /** The states between the acts, from any users loaded at start and no handler with a user. */
  predicate IsServerRun(ss: seq<Server>, acts: seq<Act>) {
    && |ss| == |acts| + 1
    && Keyed(ss[0].users) && AllOffline(ss[0].users) && ss[0].names == map[]
    && forall i :: 0 <= i < |acts| ==> Askable(acts[i]) && ss[i + 1] == Next(ss[i], acts[i])
  }

  // ----- who is online

  predicate Online(users: Users, x: string) {
    x in users && users[x].status != Offline
  }

  /** A login as `x` with the password stored for it. */
  predicate LogsIn(s: Server, act: Act, x: string) {
    act.Ask? && x in s.users && act.request == Login(x, s.users[x].password)
  }

  /** A logout of `x`, or the loss of a connection whose handler has `x`. */
  predicate GoesOff(s: Server, act: Act, x: string) {
    match act
    case Ask(_, r) => r == Logout(x)
    case Drop(h) => NameOf(s, h) == Some(x)
    case Quit(_) => false
  }

  lemma OnlineStep(s: Server, act: Act, x: string)
    requires Keyed(s.users) && Askable(act)
    ensures Online(Next(s, act).users, x) <==> (Online(s.users, x) || LogsIn(s, act, x)) && !GoesOff(s, act, x)
  {
    hide HandleSignup, HandleCallRequest, HandleCallReject;
    if act.Ask? {
      match act.request {
        case Signup(name, password, diskOk) => SignupKeepsOff(s.users, name, password, diskOk, x);
        case CallRequest(from, to) => RequestKeepsOnline(s.users, from, to, x);
        case CallReject(from, to) => RejectKeepsOnline(s.users, from, to, x);
        case _ =>
      }
    }
  }

  lemma SignupKeepsOff(users: Users, name: string, password: string, diskOk: bool, x: string)
    ensures Online(HandleSignup(users, name, password, diskOk).0, x) <==> Online(users, x)
  {
  }

  lemma RequestKeepsOnline(users: Users, from: string, to: string, x: string)
    requires Keyed(users)
    ensures Online(HandleCallRequest(users, from, to).0, x) <==> Online(users, x)
  {
  }

  lemma RejectKeepsOnline(users: Users, from: string, to: string, x: string)
    requires Keyed(users)
    ensures Online(HandleCallReject(users, from, to).0, x) <==> Online(users, x)
  {
  }

  /** A user registers: both words are valid and the name is free. */
  predicate SignsUp(s: Server, act: Act, x: string, password: string) {
    && act.Ask? && act.request.Signup? && act.request.username == x && act.request.password == password
    && ValidName(x) && ValidName(password) && x !in s.users
  }

  predicate Registered(s: Server, x: string, password: string) {
    x in s.users && s.users[x].password == password
  }

  lemma RegisteredStep(s: Server, act: Act, x: string, password: string)
    requires Keyed(s.users)
    ensures Registered(Next(s, act), x, password) <==> Registered(s, x, password) || SignsUp(s, act, x, password)
  {
    hide ValidName;
  }

  lemma KeyedStep(s: Server, act: Act)
    requires Keyed(s.users)
    ensures Keyed(Next(s, act).users)
  {
    match act {
      case Ask(_, r) => StepKeeps(s.users, r);
      case Drop(h) => if h in s.names { StepKeeps(s.users, Disconnect(s.names[h])); }
      case Quit(_) =>
    }
  }

  lemma {:induction false} AlwaysKeyed(ss: seq<Server>, acts: seq<Act>, n: nat)
    requires IsServerRun(ss, acts) && n < |ss|
    ensures Keyed(ss[n].users)
  {
    if n > 0 {
      AlwaysKeyed(ss, acts, n - 1);
      KeyedStep(ss[n - 1], acts[n - 1]);
      assert ss[n] == Next(ss[n - 1], acts[n - 1]);
    }
  }

  /** The login at `i` is still the last word on `x` before act `n`. */
  predicate OnSince(ss: seq<Server>, acts: seq<Act>, x: string, i: nat, n: nat)
    requires |ss| == |acts| + 1 && i < n < |ss|
  {
    LogsIn(ss[i], acts[i], x) && forall j :: i < j < n ==> !GoesOff(ss[j], acts[j], x)
  }

  /** A user is online exactly when it has logged in with its password and has not gone off since. */
  lemma {:induction false} OnlineExact(ss: seq<Server>, acts: seq<Act>, n: nat, x: string)
    requires IsServerRun(ss, acts) && n < |ss|
    ensures Online(ss[n].users, x) <==> exists i: nat :: i < n && OnSince(ss, acts, x, i, n)
  {
    hide Next, GoesOff, LogsIn;
    if n > 0 {
      var k := n - 1;
      OnlineExact(ss, acts, k, x);
      AlwaysKeyed(ss, acts, k);
      OnlineStep(ss[k], acts[k], x);
      assert ss[n] == Next(ss[k], acts[k]);
      if Online(ss[n].users, x) {
        if LogsIn(ss[k], acts[k], x) {
          assert OnSince(ss, acts, x, k, n);
        } else {
          var i: nat :| i < k && OnSince(ss, acts, x, i, k);
          assert OnSince(ss, acts, x, i, n);
        }
      }
      if i: nat :| i < n && OnSince(ss, acts, x, i, n) {
        if i < k {
          assert OnSince(ss, acts, x, i, k);
        } else {
          OneAct(ss[k], acts[k], x);
        }
      }
    }
  }

  lemma OneAct(s: Server, act: Act, x: string)
    ensures !(LogsIn(s, act, x) && GoesOff(s, act, x))
  {
  }

  /** A user has a password exactly when it was loaded with it or registered with it. */
  lemma {:induction false} RegisteredExact(ss: seq<Server>, acts: seq<Act>, n: nat, x: string, password: string)
    requires IsServerRun(ss, acts) && n < |ss|
    ensures Registered(ss[n], x, password) <==>
            Registered(ss[0], x, password) || exists i :: 0 <= i < n && SignsUp(ss[i], acts[i], x, password)
  {
    if n > 0 {
      RegisteredExact(ss, acts, n - 1, x, password);
      AlwaysKeyed(ss, acts, n - 1);
      RegisteredStep(ss[n - 1], acts[n - 1], x, password);
      assert ss[n] == Next(ss[n - 1], acts[n - 1]);
    }
  }

  // ----- which handler has a user

  /** Handler `h` logs in as `x`, which is offline, with the password stored for it. */
  predicate Takes(s: Server, act: Act, h: nat, x: string) {
    act.Ask? && act.handler == h && LogsIn(s, act, x) && !Online(s.users, x)
  }

  /** Handler `h` loses its user: another login of its own, a logout that is answered, or its end. */
  predicate Loses(s: Server, act: Act, h: nat) {
    act.handler == h &&
    match act
    case Ask(_, Login(y, password)) => Registered(s, y, password) && !Online(s.users, y)
    case Ask(_, Logout(y)) => HasStream(s.users, y)
    case Ask(_, _) => false
    case _ => true
  }

  lemma NameStep(s: Server, act: Act, h: nat, x: string)
    ensures NameOf(Next(s, act), h) == Some(x) <==>
            Takes(s, act, h, x) || (NameOf(s, h) == Some(x) && !Loses(s, act, h))
  {
  }

  predicate HeldSince(ss: seq<Server>, acts: seq<Act>, h: nat, x: string, i: nat, n: nat)
    requires |ss| == |acts| + 1 && i < n < |ss|
  {
    Takes(ss[i], acts[i], h, x) && forall j :: i < j < n ==> !Loses(ss[j], acts[j], h)
  }

  /** A handler has a user exactly when it logged in as that user with its password and has not lost it since. */
  lemma {:induction false} NameExact(ss: seq<Server>, acts: seq<Act>, n: nat, h: nat, x: string)
    requires IsServerRun(ss, acts) && n < |ss|
    ensures NameOf(ss[n], h) == Some(x) <==> exists i: nat :: i < n && HeldSince(ss, acts, h, x, i, n)
  {
    hide Next, Takes, Loses;
    if n > 0 {
      var k := n - 1;
      NameExact(ss, acts, k, h, x);
      NameStep(ss[k], acts[k], h, x);
      assert ss[n] == Next(ss[k], acts[k]);
      if NameOf(ss[n], h) == Some(x) {
        if Takes(ss[k], acts[k], h, x) {
          assert HeldSince(ss, acts, h, x, k, n);
        } else {
          var i: nat :| i < k && HeldSince(ss, acts, h, x, i, k);
          assert HeldSince(ss, acts, h, x, i, n);
        }
      }
      if i: nat :| i < n && HeldSince(ss, acts, h, x, i, n) {
        if i < k {
          assert HeldSince(ss, acts, h, x, i, k);
        }
      }
    }
  }

  // ----- users that nobody takes offline

  /** Every user that is online is that of a handler, so that its lost connection takes it offline. */
  predicate Attended(s: Server) {
    forall x <- s.users :: Online(s.users, x) ==> x in s.names.Values
  }

  /** The act does not take the only handler of an online user away and leave the user online. */
  predicate Tidy(s: Server, act: Act) {
    var h := act.handler;
    h in s.names && Online(s.users, s.names[h]) && Loses(s, act, h) ==>
      GoesOff(s, act, s.names[h]) || exists k :: k in s.names && k != h && s.names[k] == s.names[h]
  }

  lemma OtherNames(s: Server, act: Act, k: nat)
    requires k != act.handler
    ensures NameOf(Next(s, act), k) == NameOf(s, k)
  {
  }

  lemma AttendedStep(s: Server, act: Act)
    requires Keyed(s.users) && Askable(act) && Attended(s)
    ensures Attended(Next(s, act)) <==> Tidy(s, act)
  {
    hide Next, Loses, GoesOff;
    var (h, t) := (act.handler, Next(s, act));
    if Tidy(s, act) {
      forall x | x in t.users && Online(t.users, x)
        ensures x in t.names.Values
      {
        OnlineStep(s, act, x);
        NameStep(s, act, h, x);
        if Online(s.users, x) {
          var k :| k in s.names && s.names[k] == x;
          if k != h {
            OtherNames(s, act, k);
            assert t.names[k] == x;
          } else if Loses(s, act, h) {
            var m :| m in s.names && m != h && s.names[m] == x;
            OtherNames(s, act, m);
            assert t.names[m] == x;
          } else {
            assert t.names[h] == x;
          }
        } else {
          assert t.names[h] == x;
        }
      }
    } else {
      var x := s.names[h];
      OnlineStep(s, act, x);
      NameStep(s, act, h, x);
      forall k | k in t.names
        ensures t.names[k] != x
      {
        if k != h {
          OtherNames(s, act, k);
        }
      }
    }
  }

  /** Every online user has a handler all along exactly when no act takes the only one away. */
  lemma {:induction false} AttendedExact(ss: seq<Server>, acts: seq<Act>)
    requires IsServerRun(ss, acts)
    ensures (forall n :: 0 <= n < |ss| ==> Attended(ss[n])) <==> (forall i :: 0 <= i < |acts| ==> Tidy(ss[i], acts[i]))
  {
    hide Next, Tidy, Attended, Askable;
    if forall n :: 0 <= n < |ss| ==> Attended(ss[n]) {
      forall i | 0 <= i < |acts|
        ensures Tidy(ss[i], acts[i])
      {
        assert Attended(ss[i]) && Attended(ss[i + 1]);
        AlwaysKeyed(ss, acts, i);
        AttendedStep(ss[i], acts[i]);
      }
    }
    if forall i :: 0 <= i < |acts| ==> Tidy(ss[i], acts[i]) {
      forall n | 0 <= n < |ss|
        ensures Attended(ss[n])
      {
        TidyKeepsAttended(ss, acts, n);
      }
    }
  }

  lemma {:induction false} TidyKeepsAttended(ss: seq<Server>, acts: seq<Act>, n: nat)
    requires IsServerRun(ss, acts) && n < |ss|
    requires forall i :: 0 <= i < |acts| ==> Tidy(ss[i], acts[i])
    ensures Attended(ss[n])
  {
    if n > 0 {
      hide Next, Tidy, Askable;
      TidyKeepsAttended(ss, acts, n - 1);
      AlwaysKeyed(ss, acts, n - 1);
      AttendedStep(ss[n - 1], acts[n - 1]);
      assert ss[n] == Next(ss[n - 1], acts[n - 1]);
    }
  }

  /** One connection that logs in twice: its loss leaves the first user online, and that user cannot log in again. */
  lemma SecondLoginStrands(users: Users, x: string, y: string) returns (ss: seq<Server>, acts: seq<Act>)
    requires Keyed(users) && AllOffline(users) && x in users && y in users && x != y
    ensures IsServerRun(ss, acts) && ss[0].users == users
    ensures acts == [Ask(0, Login(x, users[x].password)), Ask(0, Login(y, users[y].password)), Drop(0)]
    ensures Online(ss[3].users, x) && ss[3].names == map[]
    ensures Handle(ss[3].users, Login(x, users[x].password)).1 == LoginError
  {
    acts := [Ask(0, Login(x, users[x].password)), Ask(0, Login(y, users[y].password)), Drop(0)];
    var s0 := Server(users, map[]);
    var s1 := Next(s0, acts[0]);
    var s2 := Next(s1, acts[1]);
    ss := [s0, s1, s2, Next(s2, acts[2])];
  }
}
