/** The file of registered users: one line appended at each sign-up, all of them read at the next start
  * (src/server/operating_server.rs, load_user_data_in_disk; src/server/central_server.rs, load_users_from_mem).
  */
module UserFile {
  import opened Common
  import opened Chars
  import opened Signalling
  import opened SignallingLogin

  /** An accepted sign-up, and whether its line was written. */
  datatype Entry = Entry(name: string, password: string, written: bool)

  function Line(e: Entry): string {
    e.name + [':'] + e.password
  }

  /** What the sign-ups leave in a file that was empty. */
  function FileOf(es: seq<Entry>): string {
    if es == [] then ""
    else if es[0].written then Line(es[0]) + ['\n'] + FileOf(es[1..])
    else FileOf(es[1..])
  }

  /** A line loses the carriage return before its newline. */
  function WithoutReturn(line: string): string {
    if line != "" && line[|line| - 1] == '\r' then line[..|line| - 1] else line
  }

  /** `BufRead::lines`: the text after the last newline is a line unless it is empty. */
  function Lines(text: string): seq<string> {
    var parts := Split(text, '\n');
    var n := |parts| - 1;
    seq(n, i requires 0 <= i < n => WithoutReturn(parts[i])) + if parts[n] == "" then [] else [parts[n]]
  }

  function Enter(users: Users, name: string, password: string): Users {
    users[name := User(name, password, Offline, None)]
  }

  function LoadLine(users: Users, line: string): Users {
    match SplitOnce(line, ':')
    case Some((name, password)) => Enter(users, name, password)
    case None => users
  }

  function LoadLines(users: Users, lines: seq<string>): Users
    decreases lines
  {
    if lines == [] then users else LoadLines(LoadLine(users, lines[0]), lines[1..])
  }

  method LoadUsers(text: string) returns (users: Users)
    ensures users == LoadLines(map[], Lines(text))
  {
    users := map[];
    var lines := Lines(text);
    var i := 0;
    while i < |lines|
      invariant 0 <= i <= |lines|
      invariant LoadLines(users, lines[i..]) == LoadLines(map[], lines)
    {
      assert lines[i..][1..] == lines[i + 1..];
      var fields := SplitOnce(lines[i], ':');
      if fields.Some? {
        users := users[fields.value.0 := User(fields.value.0, fields.value.1, Offline, None)];
      }
      i := i + 1;
    }
  }

  // ----- a line is read back

  lemma {:induction false} TrimDropsWhitespace(s: string, c: char)
    requires !IsWhitespace(c)
    ensures c in s ==> c in Trim(s)
  {
    StartDropsWhitespace(s, c);
    EndDropsWhitespace(TrimStart(s), c);
  }

  lemma {:induction false} StartDropsWhitespace(s: string, c: char)
    requires !IsWhitespace(c)
    ensures c in s ==> c in TrimStart(s)
  {
    if s != "" && IsWhitespace(s[0]) {
      assert s == [s[0]] + s[1..];
      StartDropsWhitespace(s[1..], c);
    }
  }

  lemma {:induction false} EndDropsWhitespace(s: string, c: char)
    requires !IsWhitespace(c)
    ensures c in s ==> c in TrimEnd(s)
  {
    if s != "" && IsWhitespace(s[|s| - 1]) {
      assert s == s[..|s| - 1] + [s[|s| - 1]];
      EndDropsWhitespace(s[..|s| - 1], c);
    }
  }

  /** An accepted word never holds a separator of lines or messages; without surrounding whitespace it is accepted
    * exactly when it is not empty and holds none of the four.
    */
  lemma AcceptedWords(s: string)
    ensures ValidName(s) ==> ':' !in s && '|' !in s
    ensures Trim(s) == s ==> (ValidName(s) <==> s != "" && ' ' !in s && '\n' !in s && ':' !in s && '|' !in s)
  {
    TrimDropsWhitespace(s, ':');
    TrimDropsWhitespace(s, '|');
  }

  /** So a sign-up message splits into its three fields. */
  lemma FieldsSurvive(name: string, password: string)
    requires ValidName(name) && ValidName(password)
    ensures Split(Join(["SIGNUP", name, password], '|'), '|') == ["SIGNUP", name, password]
  {
    hide ValidName, Split, Join;
    AcceptedWords(name);
    AcceptedWords(password);
    SplitOfJoin(["SIGNUP", name, password], '|');
  }

  /** What `signup_user` accepts. */
  predicate Valid(e: Entry) {
    ValidName(e.name) && ValidName(e.password)
  }

  predicate OneLine(e: Entry) {
    '\n' !in e.name && '\n' !in e.password
  }

  /** The line holds both words as they are: no line break inside, no carriage return at its end. */
  predicate Clean(e: Entry) {
    OneLine(e) && !(e.password != "" && e.password[|e.password| - 1] == '\r')
  }

  lemma LineLoads(users: Users, e: Entry)
    requires Valid(e)
    ensures LoadLine(users, WithoutReturn(Line(e))) == Enter(users, e.name, WithoutReturn(e.password))
  {
    TrimDropsWhitespace(e.name, ':');
    assert e.password != "" by {
      assert Trim("") == "";
    }
    var line := Line(e);
    assert line[|line| - 1] == e.password[|e.password| - 1];
    assert WithoutReturn(line) == e.name + [':'] + WithoutReturn(e.password);
    SplitOnceAt(e.name, WithoutReturn(e.password), ':');
  }

  /** The users the sign-ups register, all offline. */
  function Signed(users: Users, es: seq<Entry>): Users
    decreases es
  {
    if es == [] then users
    else Signed(Enter(users, es[0].name, es[0].password), es[1..])
  }

  /** The users the lines register, one line for each that was written. */
  function Reloaded(users: Users, es: seq<Entry>): Users
    decreases es
  {
    if es == [] then users
    else if !es[0].written then Reloaded(users, es[1..])
    else Reloaded(Enter(users, es[0].name, WithoutReturn(es[0].password)), es[1..])
  }

  lemma LinesUnfold(line: string, rest: string)
    requires '\n' !in line
    ensures Lines(line + ['\n'] + rest) == [WithoutReturn(line)] + Lines(rest)
  {
    FirstPart(line, rest, '\n');
  }

  lemma {:induction false} FileLoads(users: Users, es: seq<Entry>)
    requires forall e <- es :: Valid(e) && (e.written ==> OneLine(e))
    ensures LoadLines(users, Lines(FileOf(es))) == Reloaded(users, es)
    decreases es
  {
    if es == [] {
      assert Split("", '\n') == [""];
    } else if es[0].written {
      LinesUnfold(Line(es[0]), FileOf(es[1..]));
      LineLoads(users, es[0]);
      var lines := Lines(FileOf(es));
      assert lines[1..] == Lines(FileOf(es[1..]));
      FileLoads(Enter(users, es[0].name, WithoutReturn(es[0].password)), es[1..]);
    } else {
      FileLoads(users, es[1..]);
    }
  }

  // ----- what is never loaded

  predicate NoBreaks(users: Users) {
    forall name <- users :: '\n' !in name && '\n' !in users[name].password
  }

  lemma LinesHaveNoBreaks(text: string)
    ensures forall line <- Lines(text) :: '\n' !in line
  {
    PartsOfSplit(text, '\n');
  }

  lemma {:induction false} LoadsNoBreaks(users: Users, lines: seq<string>)
    requires NoBreaks(users) && forall line <- lines :: '\n' !in line
    ensures NoBreaks(LoadLines(users, lines))
    decreases lines
  {
    if lines != [] {
      assert lines[0] in lines;
      LoadsNoBreaks(LoadLine(users, lines[0]), lines[1..]);
    }
  }

  // ----- the round trip

  predicate Distinct(es: seq<Entry>) {
    forall i, j :: 0 <= i < j < |es| ==> es[i].name != es[j].name
  }

  lemma {:induction false} SignedAt(users: Users, es: seq<Entry>, x: string)
    ensures (forall e <- es :: e.name != x) ==>
              (x in Signed(users, es) <==> x in users) && (x in users ==> Signed(users, es)[x] == users[x])
    decreases es
  {
    if es != [] {
      SignedAt(Enter(users, es[0].name, es[0].password), es[1..], x);
    }
  }

  lemma {:induction false} ReloadedAt(users: Users, es: seq<Entry>, x: string)
    ensures (forall e <- es :: e.name != x) ==>
              (x in Reloaded(users, es) <==> x in users) && (x in users ==> Reloaded(users, es)[x] == users[x])
    decreases es
  {
    if es != [] {
      var (e, rest) := (es[0], es[1..]);
      ReloadedAt(if e.written then Enter(users, e.name, WithoutReturn(e.password)) else users, rest, x);
    }
  }

  lemma {:induction false} EntryOf(users: Users, es: seq<Entry>, i: nat)
    requires i < |es| && Distinct(es) && es[i].name !in users
    ensures var x := es[i].name;
      && x in Signed(users, es) && Signed(users, es)[x].password == es[i].password
      && (x in Reloaded(users, es) <==> es[i].written)
      && (es[i].written ==> Reloaded(users, es)[x].password == WithoutReturn(es[i].password))
    decreases es
  {
    var (e, rest, x) := (es[0], es[1..], es[i].name);
    var signed := Enter(users, e.name, e.password);
    var loaded := if e.written then Enter(users, e.name, WithoutReturn(e.password)) else users;
    if i == 0 {
      assert forall j :: 0 <= j < |rest| ==> rest[j] == es[j + 1];
      SignedAt(signed, rest, x);
      ReloadedAt(loaded, rest, x);
    } else {
      EntryOf(signed, rest, i - 1);
      EntryOf(loaded, rest, i - 1);
    }
  }

  lemma {:induction false} CleanReloads(users: Users, es: seq<Entry>)
    requires forall e <- es :: e.written && Clean(e)
    ensures Reloaded(users, es) == Signed(users, es)
    decreases es
  {
    if es != [] {
      assert es[0] in es;
      CleanReloads(Enter(users, es[0].name, es[0].password), es[1..]);
    }
  }

  /** A line that is not written, or ends in a carriage return, is not read back. */
  lemma SpoiltDiffers(es: seq<Entry>, i: nat)
    requires i < |es| && Distinct(es) && !(es[i].written && Clean(es[i])) && (es[i].written ==> OneLine(es[i]))
    ensures Reloaded(map[], es) != Signed(map[], es)
  {
    hide Signed, Reloaded;
    EntryOf(map[], es, i);
  }

  /** Nothing with a line break in it is read back. */
  lemma BrokenDiffers(es: seq<Entry>, i: nat, loaded: Users)
    requires i < |es| && Distinct(es) && !OneLine(es[i]) && NoBreaks(loaded)
    ensures loaded != Signed(map[], es)
  {
    hide Signed, Reloaded;
    EntryOf(map[], es, i);
  }

  /** The next start loads the registered users exactly when every line was written and is clean. */
  lemma ReloadExact(es: seq<Entry>)
    requires Distinct(es) && forall e <- es :: Valid(e)
    ensures LoadLines(map[], Lines(FileOf(es))) == Signed(map[], es) <==> forall e <- es :: e.written && Clean(e)
  {
    hide LoadLines, Lines, FileOf, Signed, Reloaded, Valid;
    LinesHaveNoBreaks(FileOf(es));
    LoadsNoBreaks(map[], Lines(FileOf(es)));
    if i :| 0 <= i < |es| && es[i].written && !OneLine(es[i]) {
      BrokenDiffers(es, i, LoadLines(map[], Lines(FileOf(es))));
    } else {
      FileLoads(map[], es);
      if i :| 0 <= i < |es| && !(es[i].written && Clean(es[i])) {
        SpoiltDiffers(es, i);
      } else {
        CleanReloads(map[], es);
      }
    }
  }

  // ----- over runs of the server

  /** The entry of an accepted sign-up; a write that fails shows in the reply alone. */
  function Entered(s: Server, act: Act): seq<Entry> {
    if act.Ask? && act.request.Signup? && SignsUp(s, act, act.request.username, act.request.password)
    then [Entry(act.request.username, act.request.password, act.request.diskOk)] else []
  }

  /** The entries of all acts before act `n`. */
  function SignUps(ss: seq<Server>, acts: seq<Act>, n: nat): seq<Entry>
    requires n <= |acts| < |ss|
  {
    if n == 0 then [] else SignUps(ss, acts, n - 1) + Entered(ss[n - 1], acts[n - 1])
  }

  /** The registered users as the next start should find them. */
  function Resting(users: Users): Users {
    map name | name in users :: User(name, users[name].password, Offline, None)
  }

  lemma {:induction false} SignedAppend(users: Users, es: seq<Entry>, e: Entry)
    ensures Signed(users, es + [e]) == Enter(Signed(users, es), e.name, e.password)
    decreases es
  {
    if es == [] {
      assert [] + [e] == [e] && [e][1..] == [];
    } else {
      assert (es + [e])[1..] == es[1..] + [e];
      SignedAppend(Enter(users, es[0].name, es[0].password), es[1..], e);
    }
  }

  /** The entries are those of the registered users. */
  predicate Lists(es: seq<Entry>, users: Users) {
    && Signed(map[], es) == Resting(users) && Distinct(es)
    && forall e <- es :: Valid(e) && e.name in users
  }

  lemma UsersStay(s: Server, act: Act)
    requires Keyed(s.users)
    ensures forall x <- s.users :: x in Next(s, act).users && Next(s, act).users[x].password == s.users[x].password
  {
    hide Next, ValidName;
    forall x | x in s.users
      ensures x in Next(s, act).users && Next(s, act).users[x].password == s.users[x].password
    {
      RegisteredStep(s, act, x, s.users[x].password);
    }
  }

  /** One act adds at most the user of its entry. */
  lemma RestingStep(s: Server, act: Act)
    requires Keyed(s.users)
    ensures var (before, after, es) := (Resting(s.users), Resting(Next(s, act).users), Entered(s, act));
      if es == [] then after == before
      else after == Enter(before, es[0].name, es[0].password) && es[0].name !in s.users
  {
    hide Next, ValidName;
    var (before, after, es) := (Resting(s.users), Resting(Next(s, act).users), Entered(s, act));
    var t := Next(s, act).users;
    UsersStay(s, act);
    forall x | x in t && x !in s.users
      ensures es != [] && es[0].name == x && es[0].password == t[x].password
    {
      RegisteredStep(s, act, x, t[x].password);
    }
    if es == [] {
      assert forall x :: x in t <==> x in s.users;
      assert after == before;
    } else {
      RegisteredStep(s, act, es[0].name, es[0].password);
      assert forall x :: x in t <==> x in s.users || x == es[0].name;
      assert after == Enter(before, es[0].name, es[0].password);
    }
  }

  lemma ListsMore(es: seq<Entry>, users: Users, e: Entry, after: Users)
    requires Lists(es, users) && Valid(e) && e.name !in users
    requires Resting(after) == Enter(Resting(users), e.name, e.password)
    ensures Lists(es + [e], after)
  {
    hide Signed, Valid, Resting;
    SignedAppend(map[], es, e);
    SameNames(users);
    SameNames(after);
  }

  lemma ListsStep(es: seq<Entry>, s: Server, act: Act)
    requires Keyed(s.users) && Lists(es, s.users)
    ensures Lists(es + Entered(s, act), Next(s, act).users)
  {
    RestingStep(s, act);
    UsersStay(s, act);
    hide Next, ValidName, Signed, Resting;
    if Entered(s, act) == [] {
      assert es + Entered(s, act) == es;
    } else {
      ListsMore(es, s.users, Entered(s, act)[0], Next(s, act).users);
    }
  }

  lemma NobodyYet()
    ensures Lists([], map[])
  {
    assert Resting(map[]) == map[];
  }

  lemma SameNames(users: Users)
    ensures Resting(users).Keys == users.Keys
  {
  }

  lemma {:induction false} SignUpsAreUsers(ss: seq<Server>, acts: seq<Act>, n: nat)
    requires IsServerRun(ss, acts) && ss[0].users == map[] && n <= |acts|
    ensures Lists(SignUps(ss, acts, n), ss[n].users)
  {
    hide Next, Lists;
    NobodyYet();
    if n > 0 {
      SignUpsAreUsers(ss, acts, n - 1);
      AlwaysKeyed(ss, acts, n - 1);
      ListsStep(SignUps(ss, acts, n - 1), ss[n - 1], acts[n - 1]);
      assert ss[n] == Next(ss[n - 1], acts[n - 1]);
    }
  }

  /** After any run from an empty server, a restart brings back exactly the registered users with their passwords
    * if and only if every accepted sign-up was written and is clean.
    */
  lemma RestartExact(ss: seq<Server>, acts: seq<Act>)
    requires IsServerRun(ss, acts) && ss[0].users == map[]
    ensures var es := SignUps(ss, acts, |acts|);
      LoadLines(map[], Lines(FileOf(es))) == Resting(ss[|acts|].users) <==> forall e <- es :: e.written && Clean(e)
  {
    hide LoadLines, Lines, FileOf, Signed, Resting, Valid, Clean, Distinct, SignUps;
    SignUpsAreUsers(ss, acts, |acts|);
    ReloadExact(SignUps(ss, acts, |acts|));
  }

  /** A name that a line break precedes is accepted, and the next start knows the user by another name. */
  lemma BreakRenames(x: string, password: string) returns (ss: seq<Server>, acts: seq<Act>)
    requires Valid(Entry(x, password, true)) && Clean(Entry(x, password, true))
    ensures IsServerRun(ss, acts) && ss[0].users == map[] && acts == [Ask(0, Signup("\n" + x, password, true))]
    ensures ss[1].users.Keys == {"\n" + x}
    ensures LoadLines(map[], Lines(FileOf(SignUps(ss, acts, 1)))) == map[x := User(x, password, Offline, None)]
  {
    var (name, e) := ("\n" + x, Entry(x, password, true));
    acts := [Ask(0, Signup(name, password, true))];
    var s0 := Server(map[], map[]);
    ss := [s0, Next(s0, acts[0])];
    assert name[1..] == x;
    assert Trim(name) == Trim(x);
    var es := [Entry(name, password, true)];
    assert SignUps(ss, acts, 0) == [];
    assert SignUps(ss, acts, 1) == es;
    BrokenLine(x, password);
  }

  lemma BrokenLine(x: string, password: string)
    requires Valid(Entry(x, password, true)) && Clean(Entry(x, password, true))
    ensures LoadLines(map[], Lines(FileOf([Entry("\n" + x, password, true)])))
            == map[x := User(x, password, Offline, None)]
  {
    var (e, broken) := (Entry(x, password, true), Entry("\n" + x, password, true));
    hide Lines, Valid;
    assert FileOf([broken]) == Line(broken) + ['\n'] + FileOf([]);
    assert FileOf([broken]) == "" + ['\n'] + (Line(e) + ['\n'] + "");
    LinesUnfold("", Line(e) + ['\n'] + "");
    LinesUnfold(Line(e), "");
    LinesOfNothing();
    var lines := Lines(FileOf([broken]));
    assert lines == ["", WithoutReturn(Line(e))];
    LineLoads(map[], e);
    assert SplitOnce("", ':') == None;
    assert lines[1..] == [WithoutReturn(Line(e))] && lines[1..][1..] == [];
    assert LoadLines(map[], lines) == LoadLines(map[], lines[1..]);
    assert LoadLines(map[], lines[1..]) == LoadLines(LoadLine(map[], lines[1]), []);
  }

  lemma LinesOfNothing()
    ensures Lines("") == []
  {
    assert Split("", '\n') == [""];
  }
}
