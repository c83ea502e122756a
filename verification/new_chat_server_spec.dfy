/** The meaning of `NewChatServer`'s operations and of a `ChatHandler`
    session, as functions on the server's state. The classes in module
    `NewChatServer` implement them and are proved equal to them. */
module NewChatServerSpec {
  import opened JavaText
  import opened Messages
  import opened Transport
  import ChatServerSpec

  /** `NewChatServer.port`. */
  const Port: nat := 56101

  /** What `NewChatServer`'s fields hold: the logged-in users with their
      streams, the `running` flag (false until `start()`), whether the
      thread pool exists, every write made, and every stream closed. */
  datatype State = State(
    users: map<string, Id>,
    running: bool,
    poolCreated: bool,
    outbox: seq<Delivery>,
    closed: set<Id>)

  function Initial(): State
  {
    State(map[], false, false, [], {})
  }

  predicate WriteFails(s: State, out: Id, broken: set<Id>)
  {
    out in broken || out in s.closed
  }

  /** Only the outbox may differ. */
  predicate SameExceptOutbox(s: State, t: State)
  {
    t.users == s.users && t.running == s.running && t.poolCreated == s.poolCreated && t.closed == s.closed
  }

  /** No two users share a stream. */
  predicate Injective(users: map<string, Id>)
  {
    forall a, b :: a in users && b in users && a != b ==> users[a] != users[b]
  }

  /** `sendOn(message, stream)` on a real stream: a failed write is only
      reported, so it changes nothing. */
  function SendOn(s: State, out: Id, m: Message, broken: set<Id>): (r: State)
    ensures SameExceptOutbox(s, r)
    ensures r.outbox == s.outbox + (if WriteFails(s, out, broken) then [] else [Delivery(out, m)])
  {
    if WriteFails(s, out, broken) then s else s.(outbox := s.outbox + [Delivery(out, m)])
  }

  // ---------------------------------------------------------------- send

  /** The loop of `send` over `users.values()`, visiting the users in `order`. */
  function SendAll(s: State, m: Message, order: seq<string>, broken: set<Id>): (r: State)
    requires forall k :: k in order ==> k in s.users
    ensures SameExceptOutbox(s, r)
    ensures |s.outbox| <= |r.outbox| <= |s.outbox| + |order| && r.outbox[..|s.outbox|] == s.outbox
    decreases |order|
  {
    if order == [] then s
    else
      var prefix := order[..|order| - 1];
      assert forall k :: k in prefix ==> k in order;
      var s1 := SendAll(s, m, prefix, broken);
      SendOn(s1, s.users[order[|order| - 1]], m, broken)
  }

  /** One more user visited by the loop of `send`. */
  lemma SendAllStep(s: State, m: Message, order: seq<string>, name: string, broken: set<Id>)
    requires forall k :: k in order ==> k in s.users
    requires name in s.users
    ensures SendAll(s, m, order + [name], broken) == SendOn(SendAll(s, m, order, broken), s.users[name], m, broken)
  {
    assert (order + [name])[..|order|] == order;
  }

  /** `send(message)`. A null or "<all>" destination means every user, one
      write per user; a logged-in destination gets one write; otherwise the
      sender is told the destination does not exist, which dereferences
      `null` when the sender is not logged in either. */
  function Send(s: State, m: Message, order: seq<string>, broken: set<Id>): (r: Outcome<State>)
    requires Enumerates(order, s.users.Keys)
    ensures r.Thrown? <==> Dest(m).Val? && Dest(m).value != AllSentinel && Dest(m).value !in s.users &&
                           (Source(m).Null? || Source(m).value !in s.users)
    ensures r.Normal? ==> SameExceptOutbox(s, r.value)
    ensures r.Normal? && Dest(m).Val? && Dest(m).value in s.users && Dest(m).value != AllSentinel ==>
      r.value == SendOn(s, s.users[Dest(m).value], m, broken)
    ensures r.Normal? && Dest(m).Val? && Dest(m).value !in s.users && Dest(m).value != AllSentinel ==>
      r.value == SendOn(s, s.users[Source(m).value], InvalidUser(Source(m), Dest(m)), broken)
  {
    if Dest(m).Null? || Dest(m).value == AllSentinel then Normal(SendAll(s, m, order, broken))
    else if Dest(m).value in s.users then Normal(SendOn(s, s.users[Dest(m).value], m, broken))
    else if Source(m).Val? && Source(m).value in s.users then
      Normal(SendOn(s, s.users[Source(m).value], InvalidUser(Source(m), Dest(m)), broken))
    else Thrown
  }

  /** The writes of the loop: those before the last user, then possibly one
      to the last user's stream. */
  lemma SendAllLast(s: State, m: Message, order: seq<string>, broken: set<Id>)
    requires |order| > 0 && forall k :: k in order ==> k in s.users
    ensures var prefix := order[..|order| - 1];
      var last := order[|order| - 1];
      (forall k :: k in prefix ==> k in s.users) &&
      SendAll(s, m, order, broken).outbox[|s.outbox|..] ==
        SendAll(s, m, prefix, broken).outbox[|s.outbox|..] +
        (if WriteFails(s, s.users[last], broken) then [] else [Delivery(s.users[last], m)])
  {
    var prefix := order[..|order| - 1];
    assert forall k :: k in prefix ==> k in order;
    var s1 := SendAll(s, m, prefix, broken);
    assert SendAll(s, m, order, broken) == SendOn(s1, s.users[order[|order| - 1]], m, broken);
  }

  /** The loop writes only the message itself, only to the streams of the
      users in `order`, and only to streams that work. */
  lemma {:induction false} SendAllWritesOnlyToUsers(s: State, m: Message, order: seq<string>, broken: set<Id>)
    requires forall k :: k in order ==> k in s.users
    ensures forall d :: d in SendAll(s, m, order, broken).outbox[|s.outbox|..] ==>
      d.msg == m && !WriteFails(s, d.to, broken) && exists k :: k in order && d.to == s.users[k]
    decreases |order|
  {
    if order != [] {
      var prefix := order[..|order| - 1];
      var last := order[|order| - 1];
      SendAllLast(s, m, order, broken);
      SendAllWritesOnlyToUsers(s, m, prefix, broken);
      var before := SendAll(s, m, prefix, broken).outbox[|s.outbox|..];
      forall d | d in SendAll(s, m, order, broken).outbox[|s.outbox|..]
        ensures d.msg == m && !WriteFails(s, d.to, broken) && exists k :: k in order && d.to == s.users[k]
      {
        if d in before {
          var k :| k in prefix && d.to == s.users[k];
          assert k in order;
        } else {
          assert d.to == s.users[last];
        }
      }
    }
  }

  /** A message to everyone reaches every user in `order` whose stream works. */
  lemma {:induction false} SendAllReachesEachUser(s: State, m: Message, order: seq<string>, broken: set<Id>)
    requires forall k :: k in order ==> k in s.users
    ensures var added := SendAll(s, m, order, broken).outbox[|s.outbox|..];
      forall k :: k in order && !WriteFails(s, s.users[k], broken) ==> Delivery(s.users[k], m) in added
    decreases |order|
  {
    if order != [] {
      var prefix := order[..|order| - 1];
      var last := order[|order| - 1];
      SendAllLast(s, m, order, broken);
      SendAllReachesEachUser(s, m, prefix, broken);
      var added := SendAll(s, m, order, broken).outbox[|s.outbox|..];
      forall k | k in order && !WriteFails(s, s.users[k], broken)
        ensures Delivery(s.users[k], m) in added
      {
        if k != last {
          var i :| 0 <= i < |order| && order[i] == k;
          assert prefix[i] == k;
        }
      }
    }
  }

  /** When users have distinct streams and `order` names each once, a
      message to everyone is written to no stream twice. */
  lemma {:induction false} SendAllWritesEachStreamOnce(s: State, m: Message, order: seq<string>, broken: set<Id>)
    requires forall k :: k in order ==> k in s.users
    requires forall i, j :: 0 <= i < j < |order| ==> order[i] != order[j]
    requires Injective(s.users)
    ensures var added := SendAll(s, m, order, broken).outbox[|s.outbox|..];
      forall i, j :: 0 <= i < j < |added| ==> added[i].to != added[j].to
    decreases |order|
  {
    if order != [] {
      var prefix := order[..|order| - 1];
      var last := order[|order| - 1];
      SendAllLast(s, m, order, broken);
      SendAllWritesEachStreamOnce(s, m, prefix, broken);
      SendAllWritesOnlyToUsers(s, m, prefix, broken);
      var before := SendAll(s, m, prefix, broken).outbox[|s.outbox|..];
      forall d | d in before
        ensures d.to != s.users[last]
      {
        var k :| k in prefix && d.to == s.users[k];
        var i :| 0 <= i < |prefix| && prefix[i] == k;
        assert order[i] == k;
      }
    }
  }

  /** Whatever order `users.values()` yields, a message to everyone reaches
      exactly the users whose streams work, once each. */
  lemma BroadcastReachesEveryUser(s: State, m: Message, order: seq<string>, broken: set<Id>)
    requires Enumerates(order, s.users.Keys) && Injective(s.users)
    requires Dest(m).Null? || Dest(m) == Val(AllSentinel)
    ensures Send(s, m, order, broken).Normal?
    ensures var added := Send(s, m, order, broken).value.outbox[|s.outbox|..];
      && (forall n :: n in s.users && !WriteFails(s, s.users[n], broken) ==> Delivery(s.users[n], m) in added)
      && (forall d :: d in added ==> d.msg == m && d.to in s.users.Values && !WriteFails(s, d.to, broken))
      && (forall i, j :: 0 <= i < j < |added| ==> added[i].to != added[j].to)
  {
    SendAllReachesEachUser(s, m, order, broken);
    SendAllWritesOnlyToUsers(s, m, order, broken);
    SendAllWritesEachStreamOnce(s, m, order, broken);
  }

  // ---------------------------------------------------------------- login and logout

  /** `login(name, out)`: an invalid name is refused without `nameExists`, a
      taken name with it, and a free valid name is registered to `out`. A
      null name throws inside the pattern match. */
  function Login(s: State, name: Nullable<string>, out: Id): (r: Outcome<(State, Message)>)
    ensures r.Thrown? <==> name.Null?
    ensures r.Normal? ==>
      var n := name.value;
      var accepted := IsValidName(n) && n !in s.users;
      && r.value.1 == LoginResponse(accepted, IsValidName(n) && n in s.users, name)
      && r.value.0 == (if accepted then s.(users := s.users[n := out]) else s)
  {
    if name.Null? then Thrown
    else if !IsValidName(name.value) then Normal((s, LoginResponse(false, false, name)))
    else if name.value in s.users then Normal((s, LoginResponse(false, true, name)))
    else Normal((s.(users := s.users[name.value := out]), LoginResponse(true, false, name)))
  }

  /** Each handler logs in on its own connection's stream, so when the
      stream is not already registered to someone, users keep distinct
      streams, as `BroadcastReachesEveryUser` needs. */
  lemma LoginKeepsStreamsDistinct(s: State, name: Nullable<string>, out: Id)
    requires Injective(s.users) && out !in s.users.Values
    ensures Login(s, name, out).Normal? ==> Injective(Login(s, name, out).value.0.users)
  {
    if name.Val? && IsValidName(name.value) && name.value !in s.users {
      var u := s.users[name.value := out];
      forall a, b | a in u && b in u && a != b
        ensures u[a] != u[b]
      {
        if a != name.value && b != name.value {
          assert u[a] == s.users[a] && u[b] == s.users[b];
        } else if a == name.value {
          assert s.users[b] in s.users.Values;
        } else {
          assert s.users[a] in s.users.Values;
        }
      }
    }
  }

  /** The two servers decide a login alike: when every registered name is
      valid, `login` answers with the flags `ChatServer.clientConnected`
      computes, although it tests validity before existence. */
  lemma LoginAgreesWithChatServer(s: State, n: string, out: Id)
    requires forall k :: k in s.users ==> IsValidName(k)
    ensures var v := ChatServerSpec.LoginVerdict(s.users, Val(n));
      Login(s, Val(n), out).value.1 == LoginResponse(v.0, v.1, Val(n))
  {
  }

  /** `removeUser(name)`: a logged-in user is removed and its stream closed;
      anything else is only reported as an error. */
  function RemoveUser(s: State, name: Nullable<string>): (r: State)
    ensures name.Val? ==> name.value !in r.users
    ensures r.users.Keys <= s.users.Keys && forall k :: k in r.users ==> r.users[k] == s.users[k]
    ensures name.Val? && name.value in s.users ==>
      r.users.Keys == s.users.Keys - {name.value} && r.closed == s.closed + {s.users[name.value]}
    ensures (name.Null? || name.value !in s.users) ==> r == s
    ensures r.running == s.running && r.poolCreated == s.poolCreated && r.outbox == s.outbox
  {
    if name.Val? && name.value in s.users then
      s.(users := s.users - {name.value}, closed := s.closed + {s.users[name.value]})
    else s
  }

  /** `messageReceived(message)`: returns true exactly for a log-out
      `LoginMessage`, whose source is then removed. No message is routed. */
  function MessageReceived(s: State, m: Message): (r: (State, bool))
    ensures r.1 <==> m.Login? && !m.login
    ensures r.1 ==> r.0 == RemoveUser(s, m.name)
    ensures !r.1 ==> r.0 == s
  {
    if m.Login? && !m.login then (RemoveUser(s, m.name), true) else (s, false)
  }

  /** `disconnected(name)`: removes the user only while the server runs. */
  function Disconnected(s: State, name: Nullable<string>): (r: State)
    ensures !s.running ==> r == s
    ensures s.running ==> r == RemoveUser(s, name)
  {
    if s.running then RemoveUser(s, name) else s
  }

  // ---------------------------------------------------------------- stop

  /** `stop()`: the server is marked stopped, every user is removed and its
      stream closed, and then the thread pool is shut down, which
      dereferences it (throws) when `start()` never ran. */
  function Stop(s: State): (r: (State, Outcome<()>))
    ensures r.0.users == map[] && !r.0.running
    ensures r.0.closed == s.closed + s.users.Values
    ensures r.0.outbox == s.outbox && r.0.poolCreated == s.poolCreated
    ensures r.1.Normal? <==> s.poolCreated
  {
    (s.(users := map[], running := false, closed := s.closed + s.users.Values),
     if s.poolCreated then Normal(()) else Thrown)
  }

  // ---------------------------------------------------------------- ChatHandler

  /** How a `ChatHandler` finished: a log-out, a failed read, or an
      unchecked exception. */
  datatype HandlerEnd = LoggedOut | ReadFailed | Crashed

  /** `loggedIn` false, true, or the session has ended. */
  datatype HandlerPhase = LoggingIn | LoggedIn | Over(how: HandlerEnd)

  /** One pass of the login loop of `ChatHandler.run`: a fresh
      `LoginRequestMessage`, then one read. */
  function LoginPass(s: State, out: Id, inp: Input): (State, HandlerPhase)
  {
    HandleLoginRead(SendOn(s, out, LoginRequest, inp.broken), out, inp)
  }

  /** What the login loop does with what it read: only a `LoginMessage`
      asking to log in is acted on; its response is written back, and an
      accepted one ends the loop. Everything else read is ignored. */
  function HandleLoginRead(s: State, out: Id, inp: Input): (State, HandlerPhase)
  {
    match inp.item
    case IoFailure => (s, Over(ReadFailed))
    case ClassFailure => (s, Over(ReadFailed))
    case Foreign => (s, LoggingIn)
    case Obj(m) =>
      if m.Login? && m.login then
        match Login(s, m.name, out)
        case Thrown => (s, Over(Crashed))
        case Normal((s2, response)) =>
          (SendOn(s2, out, response, inp.broken), if response.accepted then LoggedIn else LoggingIn)
      else (s, LoggingIn)
  }

  /** One pass of the message loop: every client message is handed to
      `messageReceived`, and the loop ends when that reports a log-out. */
  function ChatPass(s: State, inp: Input): (State, HandlerPhase)
  {
    match inp.item
    case IoFailure => (s, Over(ReadFailed))
    case ClassFailure => (s, Over(ReadFailed))
    case Foreign => (s, LoggedIn)
    case Obj(m) =>
      if IsClientMessage(m) then
        var (s1, loggedOut) := MessageReceived(s, m);
        (s1, if loggedOut then Over(LoggedOut) else LoggedIn)
      else (s, LoggedIn)
  }

  function Step(s: State, p: HandlerPhase, out: Id, inp: Input): (State, HandlerPhase)
  {
    match p
    case LoggingIn => LoginPass(s, out, inp)
    case LoggedIn => ChatPass(s, inp)
    case Over(_) => (s, p)
  }

  function Fold(s: State, out: Id, inputs: seq<Input>): (State, HandlerPhase)
    decreases |inputs|
  {
    if inputs == [] then (s, LoggingIn)
    else
      var (t, p) := Fold(s, out, inputs[..|inputs| - 1]);
      Step(t, p, out, inputs[|inputs| - 1])
  }

  /** `ChatHandler.run` for a client that sends `inputs`. A handler still in
      the login loop when the inputs run out has sent one more login request
      (while `idleBroken` fails) and waits in a read. */
  function Run(s: State, out: Id, inputs: seq<Input>, idleBroken: set<Id>): (State, HandlerPhase)
  {
    var (t, p) := Fold(s, out, inputs);
    if p == LoggingIn then (SendOn(t, out, LoginRequest, idleBroken), p) else (t, p)
  }

  /** Once a session has ended, later reads change nothing. */
  lemma {:induction false} OverIsFinal(s: State, out: Id, inputs: seq<Input>, i: nat)
    requires i <= |inputs| && Fold(s, out, inputs[..i]).1.Over?
    ensures Fold(s, out, inputs) == Fold(s, out, inputs[..i])
    decreases |inputs| - i
  {
    if i < |inputs| {
      assert inputs[..i + 1][..i] == inputs[..i];
      OverIsFinal(s, out, inputs, i + 1);
    } else {
      assert inputs[..i] == inputs;
    }
  }

  /** Before login, each read is preceded by a login request, and a session
      leaves the login loop only through an accepted login whose response
      was the last thing written. */
  lemma LoginPassFacts(s: State, out: Id, inp: Input)
    ensures var (t, p) := LoginPass(s, out, inp);
      && |t.outbox| >= |s.outbox| + (if WriteFails(s, out, inp.broken) then 0 else 1)
      && (!WriteFails(s, out, inp.broken) ==> t.outbox[|s.outbox|] == Delivery(out, LoginRequest))
      && (p == LoggedIn ==>
            inp.item.Obj? && inp.item.m.Login? && inp.item.m.login && inp.item.m.name.Val? &&
            IsValidName(inp.item.m.name.value) && inp.item.m.name.value !in s.users &&
            t.users == s.users[inp.item.m.name.value := out])
  {
  }

  /** A failed read ends the session without any clean-up: a logged-in user
      stays registered to its stream. */
  lemma ReadFailureLeavesUserRegistered(s: State, out: Id, broken: set<Id>)
    ensures ChatPass(s, Input(IoFailure, broken)) == (s, Over(ReadFailed))
    ensures ChatPass(s, Input(ClassFailure, broken)) == (s, Over(ReadFailed))
  {
  }

  /** Logging out removes the message's source, not the session's user: a
      log-out naming somebody else removes that user and leaves the sender
      registered. */
  lemma LogoutRemovesNamedSource(s: State, me: string, other: string, broken: set<Id>)
    requires me in s.users && other in s.users && me != other
    ensures var (t, p) := ChatPass(s, Input(Obj(Message.Login(Val(other), false)), broken));
      p == Over(LoggedOut) && other !in t.users && me in t.users && t.users[me] == s.users[me]
  {
  }
}
