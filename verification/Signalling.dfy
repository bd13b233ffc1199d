/** The signalling server (src/server/operating_server.rs), one whole handler per step. */
module Signalling {
  import opened Common
  import opened Chars

  datatype Status = Available | Occupied(peer: string) | Offline

  /** A stream is identified by a number: what it carries plays no part here. */
  datatype User = User(username: string, password: string, status: Status, stream: Option<nat>)

  type Users = map<string, User>

  datatype Response =
    | LoginOk | LoginError | SignupOk | SignupError | LogoutOk | LogoutError
    | CallRequestOk | CallRequestError | CallAcceptOk | CallAcceptError
    | CallRejectOk | CallRejectError | CallHangUpOk | CallHangUpError
    | OtherError | Nothing

  datatype Request =
    | Login(username: string, password: string)
    | Signup(username: string, password: string, diskOk: bool)
    | Logout(username: string)
    | CallRequest(from: string, to: string)
    | CallAccept(from: string, to: string)
    | CallReject(from: string, to: string)
    | CallHangup(username: string)
    | Disconnect(username: string)
    | MapStream(username: string, stream: nat)

  predicate ValidName(s: string) {
    var trimmed := Trim(s);
    trimmed != "" && ' ' !in trimmed && '\n' !in trimmed && ':' !in trimmed && '|' !in trimmed
  }

  function SetStatus(users: Users, name: string, status: Status): Users
    requires name in users
  {
    users[name := users[name].(status := status)]
  }

  /** Two records written back under their own names, the second last. */
  function WriteBack(users: Users, first: User, second: User): Users {
    users[first.username := first][second.username := second]
  }

  predicate HasStream(users: Users, name: string) {
    name in users && users[name].stream.Some?
  }

  /** Whether `name` is occupied with `peer`. */
  predicate With(users: Users, name: string, peer: string) {
    name in users && users[name].status == Occupied(peer)
  }

  function HandleLogin(users: Users, name: string, password: string): (Users, Response) {
    if name in users && users[name].password == password && users[name].status == Offline
    then (SetStatus(users, name, Available), LoginOk)
    else (users, LoginError)
  }

  function HandleSignup(users: Users, name: string, password: string, diskOk: bool): (Users, Response) {
    if !ValidName(name) || !ValidName(password) || name in users then (users, SignupError)
    else (users[name := User(name, password, Offline, None)], if diskOk then SignupOk else OtherError)
  }

  /** A user without a stream is set offline too, although the reply is an error. */
  function HandleLogout(users: Users, name: string): (Users, Response) {
    if name !in users then (users, LogoutError)
    else (SetStatus(users, name, Offline), if users[name].stream.Some? then LogoutOk else OtherError)
  }

  function HandleCallRequest(users: Users, from: string, to: string): (Users, Response) {
    if !HasStream(users, to) then (users, CallRequestError)
    else if from !in users || users[from].status != Available || users[to].status != Available then (users, OtherError)
    else (WriteBack(users, users[to].(status := Occupied(from)), users[from].(status := Occupied(to))), CallRequestOk)
  }

  function HandleCallAccept(users: Users, from: string, to: string): Response {
    if HasStream(users, to) && With(users, from, to) && With(users, to, from) then CallAcceptOk else CallAcceptError
  }

  function HandleCallReject(users: Users, from: string, to: string): (Users, Response) {
    if HasStream(users, to) && With(users, from, to) && With(users, to, from)
    then (WriteBack(users, users[to].(status := Available), users[from].(status := Available)), CallRejectOk)
    else (users, CallRejectError)
  }

  function HandleCallHangup(users: Users, name: string): (Users, Response) {
    if name in users && users[name].status.Occupied? then (SetStatus(users, name, Available), CallHangUpOk)
    else (users, CallHangUpError)
  }

  /** The handler of an authenticated user loses its connection. */
  function HandleDisconnect(users: Users, name: string): (Users, Response) {
    if name in users then (SetStatus(users, name, Offline), Nothing) else (users, OtherError)
  }

  function HandleMapStream(users: Users, name: string, stream: nat): (Users, Response) {
    if name in users then (users[name := users[name].(stream := Some(stream))], Nothing) else (users, Nothing)
  }

  function Handle(users: Users, r: Request): (Users, Response) {
    match r
    case Login(name, password) => HandleLogin(users, name, password)
    case Signup(name, password, diskOk) => HandleSignup(users, name, password, diskOk)
    case Logout(name) => HandleLogout(users, name)
    case CallRequest(from, to) => HandleCallRequest(users, from, to)
    case CallAccept(from, to) => (users, HandleCallAccept(users, from, to))
    case CallReject(from, to) => HandleCallReject(users, from, to)
    case CallHangup(name) => HandleCallHangup(users, name)
    case Disconnect(name) => HandleDisconnect(users, name)
    case MapStream(name, stream) => HandleMapStream(users, name, stream)
  }

  /** The handler's own user after it has answered a request. */
  function NameAfter(username: Option<string>, r: Request, reply: Response): Option<string> {
    match r
    case Login(name, _) => if reply == LoginOk then Some(name) else username
    case Logout(_) => if reply == LogoutOk then None else username
    case _ => username
  }

  // ----- one step

  /** Every record is stored under its own username. */
  predicate Keyed(users: Users) {
    forall name :: name in users ==> users[name].username == name
  }

  /** Registered users stay, with their passwords. */
  predicate Keeps(before: Users, after: Users) {
    forall name :: name in before ==> name in after && after[name].password == before[name].password
  }

  predicate IsAvailable(users: Users, name: string) {
    name in users && users[name].status == Available
  }

  /** `r` links `x` and `y`: a call request between them while both are available and the callee has a stream. */
  predicate Links(users: Users, r: Request, x: string, y: string) {
    && r.CallRequest? && ((r.from == x && r.to == y) || (r.from == y && r.to == x))
    && IsAvailable(users, x) && IsAvailable(users, y) && HasStream(users, r.to)
  }

  /** `r` frees `x` from `y`: `x` leaves, or one of the two rejects the call they are both in. */
  predicate Frees(users: Users, r: Request, x: string, y: string) {
    || Leaves(users, r, x)
    || (&& r.CallReject? && ((r.from == x && r.to == y) || (r.from == y && r.to == x))
        && With(users, x, y) && With(users, y, x) && HasStream(users, r.to))
  }

  /** `r` makes `y` leave its call: it hangs up, logs out or disconnects. */
  predicate Leaves(users: Users, r: Request, y: string) {
    y in users &&
    match r
    case CallHangup(name) => name == y && users[y].status.Occupied?
    case Logout(name) => name == y
    case Disconnect(name) => name == y
    case _ => false
  }

  lemma StepKeeps(users: Users, r: Request)
    requires Keyed(users)
    ensures Keyed(Handle(users, r).0) && Keeps(users, Handle(users, r).0)
  {
  }

  /** A user becomes occupied only by a request that links it, and then both ends are. */
  lemma BecomesOccupied(users: Users, r: Request, x: string, y: string)
    requires Keyed(users) && !With(users, x, y) && With(Handle(users, r).0, x, y)
    ensures Links(users, r, x, y) && With(Handle(users, r).0, y, x)
  {
  }

  /** While `x` stays with `y`, `y` stops being with `x` only by leaving. */
  lemma PartnerLeaves(users: Users, r: Request, x: string, y: string)
    requires Keyed(users) && With(users, x, y) && With(users, y, x)
    requires With(Handle(users, r).0, x, y) && !With(Handle(users, r).0, y, x)
    ensures Leaves(users, r, y)
  {
  }

  /** A user that left is not linked back while its partner still is with it. */
  lemma PartnerStaysAway(users: Users, r: Request, x: string, y: string)
    requires Keyed(users) && With(users, x, y) && !With(users, y, x)
    requires With(Handle(users, r).0, x, y)
    ensures !With(Handle(users, r).0, y, x)
  {
  }

  /** One request in closed form: who is with whom after it. */
  lemma WithStep(users: Users, r: Request, x: string, y: string)
    requires Keyed(users)
    ensures With(Handle(users, r).0, x, y) <==>
            Links(users, r, x, y) || (With(users, x, y) && !Frees(users, r, x, y))
  {
  }

  lemma LeavingShows(users: Users, r: Request, y: string, x: string)
    requires Leaves(users, r, y)
    ensures !With(Handle(users, r).0, y, x)
  {
  }

  // ----- runs

  predicate AllOffline(users: Users) {
    forall name :: name in users ==> users[name].status == Offline
  }

  /** The user map before each request, from the users loaded at start, all offline. */
  predicate IsRun(us: seq<Users>, rs: seq<Request>) {
    && |us| == |rs| + 1
    && Keyed(us[0]) && AllOffline(us[0])
    && forall i :: 0 <= i < |rs| ==> us[i + 1] == Handle(us[i], rs[i]).0
  }

  lemma {:induction false} RunKeyed(us: seq<Users>, rs: seq<Request>, n: nat)
    requires IsRun(us, rs) && n < |us|
    ensures Keyed(us[n])
  {
    if n > 0 {
      RunKeyed(us, rs, n - 1);
      StepKeeps(us[n - 1], rs[n - 1]);
      assert us[n] == Handle(us[n - 1], rs[n - 1]).0;
    }
  }

  /** From the request at `i` up to `n`, `x` has been with `y`. */
  predicate StaysWith(us: seq<Users>, x: string, y: string, i: nat, n: nat)
    requires n < |us|
  {
    forall m :: i < m <= n ==> With(us[m], x, y)
  }

  /** What the map says about `x` being with `y` at `n`, traced back to the request at `i` that linked them. */
  predicate Traced(us: seq<Users>, rs: seq<Request>, x: string, y: string, i: nat, n: nat)
    requires |us| == |rs| + 1 && n < |us|
  {
    && i < n && Links(us[i], rs[i], x, y) && StaysWith(us, x, y, i, n) && y in us[n]
    && if With(us[n], y, x) then StaysWith(us, y, x, i, n)
       else exists j :: i < j < n && Leaves(us[j], rs[j], y)
  }

  /** If `x` is occupied with `y`, a request linked them and either `y` is still with `x` or `y` has left since. */
  lemma {:induction false} OccupiedIsTraced(us: seq<Users>, rs: seq<Request>, n: nat, x: string, y: string)
    returns (i: nat)
    requires IsRun(us, rs) && n < |us| && With(us[n], x, y)
    ensures Traced(us, rs, x, y, i, n)
  {
    assert n > 0;
    var k := n - 1;
    var r := rs[k];
    assert us[n] == Handle(us[k], r).0;
    RunKeyed(us, rs, k);
    StepKeeps(us[k], r);
    if With(us[k], x, y) {
      i := OccupiedIsTraced(us, rs, k, x, y);
      if With(us[k], y, x) {
        if !With(us[n], y, x) {
          PartnerLeaves(us[k], r, x, y);
        }
      } else {
        PartnerStaysAway(us[k], r, x, y);
      }
    } else {
      BecomesOccupied(us[k], r, x, y);
      i := k;
    }
  }

  /** Neither `x` nor `y` leaves its call between request `i` and request `n`. */
  predicate NeitherLeaves(us: seq<Users>, rs: seq<Request>, x: string, y: string, i: nat, n: nat)
    requires |us| == |rs| + 1 && n < |us|
  {
    forall j :: i < j < n ==> !Leaves(us[j], rs[j], x) && !Leaves(us[j], rs[j], y)
  }

  /** If `x` is with `y`, neither has left since the request that linked them exactly when `y` is with `x` too. */
  lemma NeitherLeftExact(us: seq<Users>, rs: seq<Request>, n: nat, x: string, y: string)
    returns (i: nat)
    requires IsRun(us, rs) && n < |us| && With(us[n], x, y)
    ensures i < n && Links(us[i], rs[i], x, y)
    ensures NeitherLeaves(us, rs, x, y, i, n) <==> With(us[n], y, x)
  {
    i := OccupiedIsTraced(us, rs, n, x, y);
    if With(us[n], y, x) {
      forall j | i < j < n
        ensures !Leaves(us[j], rs[j], x) && !Leaves(us[j], rs[j], y)
      {
        assert us[j + 1] == Handle(us[j], rs[j]).0;
        assert With(us[j + 1], x, y) && With(us[j + 1], y, x);
        if Leaves(us[j], rs[j], x) {
          LeavingShows(us[j], rs[j], x, y);
        }
        if Leaves(us[j], rs[j], y) {
          LeavingShows(us[j], rs[j], y, x);
        }
      }
    }
  }

  /** An accepted call is one that neither party has left since the request that linked them. */
  lemma AcceptMeansNeitherLeft(us: seq<Users>, rs: seq<Request>, n: nat, from: string, to: string)
    returns (i: nat)
    requires IsRun(us, rs) && n < |rs| && rs[n] == CallAccept(from, to)
    requires Handle(us[n], rs[n]).1 == CallAcceptOk
    ensures i < n && Links(us[i], rs[i], from, to)
    ensures NeitherLeaves(us, rs, from, to, i, n)
  {
    i := NeitherLeftExact(us, rs, n, from, to);
  }

  /** The request at `i` linked `x` to `y`, and none before `n` has freed `x` since. */
  predicate LinkedSince(us: seq<Users>, rs: seq<Request>, x: string, y: string, i: nat, n: nat)
    requires |us| == |rs| + 1 && i < n < |us|
  {
    Links(us[i], rs[i], x, y) && forall j :: i < j < n ==> !Frees(us[j], rs[j], x, y)
  }

  /** A user is occupied with another exactly when a request linked them and nothing has freed the user since. */
  lemma {:induction false} OccupiedExact(us: seq<Users>, rs: seq<Request>, n: nat, x: string, y: string)
    requires IsRun(us, rs) && n < |us|
    ensures With(us[n], x, y) <==> exists i: nat :: i < n && LinkedSince(us, rs, x, y, i, n)
  {
    hide Handle, Frees, Links;
    if n > 0 {
      var k := n - 1;
      OccupiedExact(us, rs, k, x, y);
      RunKeyed(us, rs, k);
      WithStep(us[k], rs[k], x, y);
      assert us[n] == Handle(us[k], rs[k]).0;
      if With(us[n], x, y) {
        if Links(us[k], rs[k], x, y) {
          assert LinkedSince(us, rs, x, y, k, n);
        } else {
          var i: nat :| i < k && LinkedSince(us, rs, x, y, i, k);
          assert LinkedSince(us, rs, x, y, i, n);
        }
      }
      if i: nat :| i < n && LinkedSince(us, rs, x, y, i, n) {
        if i < k {
          assert LinkedSince(us, rs, x, y, i, k);
        }
      }
    }
  }

  // ----- the handler objects

  /** The map every handler shares. */
  class UserTable {
    var users: Users

    constructor (users: Users)
      ensures this.users == users
    {
      this.users := users;
    }
  }

  /** A name that can be stored as one field of a line: what is left after trimming has no separator. */
  method ValidateString(s: string) returns (ok: bool)
    ensures ok <==> ValidName(s)
  {
    var trimmed := Trim(s);
    if |trimmed| == 0 {
      return false;
    }
    for i := 0 to |trimmed|
      invariant forall c <- trimmed[..i] :: c != ' ' && c != '\n' && c != ':' && c != '|'
    {
      var c := trimmed[i];
      if c == ' ' || c == '\n' || c == ':' || c == '|' {
        return false;
      }
      assert trimmed[..i + 1] == trimmed[..i] + [c];
    }
    assert trimmed[..|trimmed|] == trimmed;
    return true;
  }

  class OperatingServer {
    const table: UserTable
    var username: Option<string>

    constructor (table: UserTable)
      ensures this.table == table && username == None
    {
      this.table := table;
      username := None;
    }

    method LoginUser(name: string, password: string) returns (r: Response)
      modifies this, table
      ensures (table.users, r) == Handle(old(table.users), Login(name, password))
      ensures username == NameAfter(old(username), Login(name, password), r)
    {
      if name !in table.users || table.users[name].password != password {
        return LoginError;
      }
      match table.users[name].status {
        case Available => return LoginError;
        case Occupied(_) => return LoginError;
        case Offline => table.users := SetStatus(table.users, name, Available);
      }
      username := Some(name);
      return LoginOk;
    }

    method SignupUser(name: string, password: string, diskOk: bool) returns (r: Response)
      modifies table
      ensures (table.users, r) == Handle(old(table.users), Signup(name, password, diskOk))
    {
      var nameOk := ValidateString(name);
      var passwordOk := ValidateString(password);
      if !nameOk || !passwordOk || name in table.users {
        return SignupError;
      }
      table.users := table.users[name := User(name, password, Offline, None)];
      return if diskOk then SignupOk else OtherError;
    }

    method LogoutUser(name: string) returns (r: Response)
      modifies this, table
      ensures (table.users, r) == Handle(old(table.users), Logout(name))
      ensures username == NameAfter(old(username), Logout(name), r)
    {
      if name !in table.users {
        return LogoutError;
      }
      table.users := SetStatus(table.users, name, Offline);
      if table.users[name].stream.None? {
        return OtherError;
      }
      username := None;
      return LogoutOk;
    }

    method RequestCall(from: string, to: string) returns (r: Response)
      modifies table
      ensures (table.users, r) == Handle(old(table.users), CallRequest(from, to))
    {
      if to !in table.users || table.users[to].stream.None? {
        return CallRequestError;
      }
      if from !in table.users {
        return OtherError;
      }
      var fromData, toData := table.users[from], table.users[to];
      if fromData.status != Available || toData.status != Available {
        return OtherError;
      }
      fromData := fromData.(status := Occupied(to));
      toData := toData.(status := Occupied(from));
      table.users := table.users[toData.username := toData];
      table.users := table.users[fromData.username := fromData];
      return CallRequestOk;
    }

    method AcceptCall(from: string, to: string) returns (r: Response)
      ensures r == Handle(table.users, CallAccept(from, to)).1
    {
      if to !in table.users || table.users[to].stream.None? || from !in table.users {
        return CallAcceptError;
      }
      if table.users[from].status != Occupied(to) || table.users[to].status != Occupied(from) {
        return CallAcceptError;
      }
      return CallAcceptOk;
    }

    method RejectCall(from: string, to: string) returns (r: Response)
      modifies table
      ensures (table.users, r) == Handle(old(table.users), CallReject(from, to))
    {
      if to !in table.users || table.users[to].stream.None? || from !in table.users {
        return CallRejectError;
      }
      var fromData, toData := table.users[from], table.users[to];
      if fromData.status != Occupied(to) || toData.status != Occupied(from) {
        return CallRejectError;
      }
      fromData := fromData.(status := Available);
      toData := toData.(status := Available);
      table.users := table.users[toData.username := toData];
      table.users := table.users[fromData.username := fromData];
      return CallRejectOk;
    }

    method HangupCall(name: string) returns (r: Response)
      modifies table
      ensures (table.users, r) == Handle(old(table.users), CallHangup(name))
    {
      if name !in table.users || !table.users[name].status.Occupied? {
        return CallHangUpError;
      }
      table.users := SetStatus(table.users, name, Available);
      return CallHangUpOk;
    }

    method MakeUserOffline() returns (ok: bool)
      modifies this, table
      ensures old(username).None? ==> ok && table.users == old(table.users) && username == None
      ensures old(username).Some? ==>
                && table.users == Handle(old(table.users), Disconnect(old(username).value)).0
                && ok == (old(username).value in old(table.users))
                && username == if ok then None else old(username)
    {
      if username.None? {
        return true;
      }
      var name := username.value;
      if name !in table.users {
        return false;
      }
      table.users := SetStatus(table.users, name, Offline);
      username := None;
      return true;
    }
  }
}
