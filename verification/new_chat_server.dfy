/** `NewChatServer` and its `ChatHandler`: the fields the Java classes update
    in place, and methods proved to change them exactly as the functions of
    `NewChatServerSpec` say. Listener callbacks are kept in the ghost
    `events` log. */
module NewChatServer {
  import opened JavaText
  import opened Messages
  import opened Transport
  import S = NewChatServerSpec

  class NewChatServer {
    const threadCount: int
    var users: map<string, Id>
    var running: bool
    var poolCreated: bool
    var outbox: seq<Delivery>
    var closed: set<Id>
    ghost var events: seq<Event>

    /** The fields as one value. */
    function Current(): S.State
      reads this
    {
      S.State(users, running, poolCreated, outbox, closed)
    }

    /** `new NewChatServer(listener, threadCount)`: not yet running. */
    constructor (threadCount: int)
      ensures Current() == S.Initial() && this.threadCount == threadCount && events == []
    {
      this.threadCount := threadCount;
      users := map[];
      running := false;
      poolCreated := false;
      outbox := [];
      closed := {};
      events := [];
    }

    /** The part of `start()` before its accept loop. */
    method Start()
      modifies this
      ensures Current() == old(Current()).(running := true, poolCreated := true)
    {
      running := true;
      events := events + [Status("Server is running...", false)];
      poolCreated := true;
    }

    /** `isRunning()`. */
    function IsRunning(): bool
      reads this
    {
      running
    }

    /** `sendOn(message, stream)`. */
    method SendOn(m: Message, stream: Id, broken: set<Id>)
      modifies this
      ensures Current() == S.SendOn(old(Current()), stream, m, broken)
    {
      if stream in broken || stream in closed {
        events := events + [Status("Problem sending message. Message: " + ToString(m), true)];
      } else {
        outbox := outbox + [Delivery(stream, m)];
      }
    }

    /** `send(message)`; `order` is the order in which `users.values()` was
        visited. */
    method Send(m: Message, broken: set<Id>) returns (r: Outcome<()>, ghost order: seq<string>)
      modifies this
      ensures Enumerates(order, old(users).Keys)
      ensures r.Thrown? <==> S.Send(old(Current()), m, order, broken).Thrown?
      ensures r.Thrown? ==> Current() == old(Current())
      ensures r.Normal? ==> Current() == S.Send(old(Current()), m, order, broken).value
    {
      ghost var s0 := Current();
      r := Normal(());
      if Dest(m).Null? || Dest(m).value == AllSentinel {
        var names := users.Keys;
        order := [];
        while names != {}
          invariant names <= s0.users.Keys
          invariant forall k :: k in order ==> k in s0.users && k !in names
          invariant forall k :: k in s0.users ==> k in names || k in order
          invariant forall i, j :: 0 <= i < j < |order| ==> order[i] != order[j]
          invariant Current() == S.SendAll(s0, m, order, broken)
          decreases names
        {
          var name :| name in names;
          ghost var before := order;
          SendOn(m, users[name], broken);
          S.SendAllStep(s0, m, before, name, broken);
          order := order + [name];
          names := names - {name};
        }
      } else {
        order := SomeEnumeration(users.Keys);
        if Dest(m).value in users {
          SendOn(m, users[Dest(m).value], broken);
        } else {
          var src := Source(m);
          if src.Null? || src.value !in users {
            return Thrown, order;
          }
          SendOn(InvalidUser(src, Dest(m)), users[src.value], broken);
        }
      }
    }

    /** `login(name, out)`. */
    method Login(name: Nullable<string>, out: Id) returns (r: Outcome<Message>)
      modifies this
      ensures r.Thrown? <==> S.Login(old(Current()), name, out).Thrown?
      ensures r.Thrown? ==> Current() == old(Current())
      ensures r.Normal? ==> (Current(), r.value) == S.Login(old(Current()), name, out).value
    {
      if name.Null? {
        return Thrown;
      }
      if !IsValidName(name.value) {
        return Normal(LoginResponse(false, false, name));
      } else if name.value in users {
        return Normal(LoginResponse(false, true, name));
      }
      users := users[name.value := out];
      return Normal(LoginResponse(true, false, name));
    }

    /** `messageReceived(message)`. */
    method MessageReceived(m: Message) returns (loggedOut: bool)
      modifies this
      ensures (Current(), loggedOut) == S.MessageReceived(old(Current()), m)
    {
      events := events + [Received(m)];
      if m.Login? && !m.login {
        RemoveUser(m.name);
        return true;
      }
      return false;
    }

    /** `disconnected(name)`. */
    method Disconnected(name: Nullable<string>)
      modifies this
      ensures Current() == S.Disconnected(old(Current()), name)
    {
      if running {
        events := events + [Status("User '" + Show(name) + "' has been disconnected", true)];
        RemoveUser(name);
      }
    }

    /** `removeUser(name)`. */
    method RemoveUser(name: Nullable<string>)
      modifies this
      ensures Current() == S.RemoveUser(old(Current()), name)
    {
      if name.Val? && name.value in users {
        var stream := users[name.value];
        users := users - {name.value};
        closed := closed + {stream};
      } else {
        events := events + [Status("Cannot remove user '" + Show(name) + "'. user does not exit.", true)];
      }
    }

    /** `stop()`, with the users removed one at a time while iterating over
        a copy of the key set. */
    method Stop() returns (r: Outcome<()>)
      modifies this
      ensures (Current(), r) == S.Stop(old(Current()))
    {
      events := events + [Status("Server stopping ...", false)];
      running := false;
      var names := users.Keys;
      while names != {}
        invariant names == users.Keys && names <= old(users).Keys
        invariant forall k :: k in users ==> users[k] == old(users)[k]
        invariant closed == old(closed) + set k | k in old(users) && k !in names :: old(users)[k]
        invariant outbox == old(outbox) && poolCreated == old(poolCreated) && !running
        decreases names
      {
        var name :| name in names;
        RemoveUser(Val(name));
        names := names - {name};
      }
      users := map[];
      assert (set k | k in old(users) && k !in names :: old(users)[k]) == old(users).Values;
      if !poolCreated {
        return Thrown;
      }
      events := events + [Status("Server stopped", false)];
      return Normal(());
    }
  }

  /** `ChatHandler`: serves one connection, whose output stream is `out`. */
  class ChatHandler {
    const server: NewChatServer
    const out: Id
    var name: Nullable<string>
    var loggedIn: bool

    constructor (server: NewChatServer, out: Id)
      ensures this.server == server && this.out == out && name == Null && !loggedIn
    {
      this.server := server;
      this.out := out;
      name := Null;
      loggedIn := false;
    }

    /** The login loop's handling of what it read. */
    method HandleLoginRead(inp: Input) returns (phase: S.HandlerPhase)
      requires !loggedIn
      modifies this, server
      ensures (server.Current(), phase) == S.HandleLoginRead(old(server.Current()), out, inp)
      ensures loggedIn <==> phase == S.LoggedIn
    {
      phase := S.LoggingIn;
      match inp.item {
        case Obj(m) =>
          if IsClientMessage(m) {
            if m.Login? && m.login {
              var response := server.Login(m.name, out);
              if response.Thrown? {
                return S.Over(S.Crashed);
              }
              server.SendOn(response.value, out, inp.broken);
              if response.value.accepted {
                loggedIn := true;
                phase := S.LoggedIn;
              }
            }
          } else {
            server.events := server.events + [Status("A non-client message was received. Message dropped. Object: " + ToString(m), true)];
          }
        case Foreign =>
          server.events := server.events + [Status("A non-client message was received. Message dropped.", true)];
        case IoFailure =>
          server.events := server.events + [Status("IOException. Thread dropped. Name: '" + Show(name) + "'", true)];
          return S.Over(S.ReadFailed);
        case ClassFailure =>
          server.events := server.events + [Status("Problem reading from the stream. Thread dropped. Name: '" + Show(name) + "'", true)];
          return S.Over(S.ReadFailed);
      }
    }

    /** One pass of the message loop. */
    method ChatRead(inp: Input) returns (phase: S.HandlerPhase)
      requires loggedIn
      modifies this, server
      ensures (server.Current(), phase) == S.ChatPass(old(server.Current()), inp)
      ensures loggedIn <==> phase == S.LoggedIn
    {
      phase := S.LoggedIn;
      match inp.item {
        case Obj(m) =>
          if IsClientMessage(m) {
            var loggedOut := server.MessageReceived(m);
            if loggedOut {
              loggedIn := false;
              phase := S.Over(S.LoggedOut);
            }
          } else {
            server.events := server.events + [Status("A non-client message was received. Message dropped. Object: " + ToString(m), true)];
          }
        case Foreign =>
          server.events := server.events + [Status("A non-client message was received. Message dropped.", true)];
        case IoFailure =>
          server.events := server.events + [Status("IOException. Thread dropped. Name: '" + Show(name) + "'", true)];
          loggedIn := false;
          return S.Over(S.ReadFailed);
        case ClassFailure =>
          server.events := server.events + [Status("Problem reading from the stream. Thread dropped. Name: '" + Show(name) + "'", true)];
          loggedIn := false;
          return S.Over(S.ReadFailed);
      }
    }

    /** `run()` for a client that sends `inputs`: the login loop, then the
        message loop. When the inputs run out, the handler is waiting in a
        read (after one more login request if it is still logging in). */
    method Run(inputs: seq<Input>, idleBroken: set<Id>) returns (phase: S.HandlerPhase)
      requires !loggedIn
      modifies this, server
      ensures (server.Current(), phase) == S.Run(old(server.Current()), out, inputs, idleBroken)
    {
      ghost var s0 := server.Current();
      phase := S.LoggingIn;
      var i := 0;
      while phase == S.LoggingIn
        invariant 0 <= i <= |inputs|
        invariant loggedIn <==> phase == S.LoggedIn
        invariant (server.Current(), phase) == S.Fold(s0, out, inputs[..i])
        decreases |inputs| - i
      {
        var broken := if i < |inputs| then inputs[i].broken else idleBroken;
        server.SendOn(LoginRequest, out, broken);
        if i == |inputs| {
          assert inputs[..i] == inputs;
          return;
        }
        phase := HandleLoginRead(inputs[i]);
        assert inputs[..i + 1][..i] == inputs[..i];
        i := i + 1;
      }
      while phase == S.LoggedIn && i < |inputs|
        invariant 0 <= i <= |inputs|
        invariant phase != S.LoggingIn
        invariant loggedIn <==> phase == S.LoggedIn
        invariant (server.Current(), phase) == S.Fold(s0, out, inputs[..i])
        decreases |inputs| - i
      {
        phase := ChatRead(inputs[i]);
        assert inputs[..i + 1][..i] == inputs[..i];
        i := i + 1;
      }
      if i < |inputs| {
        S.OverIsFinal(s0, out, inputs, i);
      } else {
        assert inputs[..i] == inputs;
      }
    }
  }
}
