/** `ChatServer` and its per-connection `Handler`: the fields the Java class
    updates in place, and methods proved to change them exactly as the
    functions of `ChatServerSpec` say. Listener callbacks are kept in the
    ghost `events` log. */
module ChatServer {
  import opened JavaText
  import opened Messages
  import opened Transport
  import S = ChatServerSpec

  class ChatServer {
    const numberOfThreads: int
    var clients: map<string, Id>
    var allMessages: seq<Message>
    var running: bool
    var poolCreated: bool
    var outbox: seq<Delivery>
    var closed: set<Id>
    ghost var events: seq<Event>

    /** The fields as one value. */
    function Current(): S.State
      reads this
    {
      S.State(clients, allMessages, running, poolCreated, outbox, closed)
    }

    /** `new ChatServer(listener, numberOfThreads)`. */
    constructor (numberOfThreads: int)
      ensures Current() == S.Initial() && this.numberOfThreads == numberOfThreads && events == []
    {
      this.numberOfThreads := numberOfThreads;
      clients := map[];
      allMessages := [];
      running := true;
      poolCreated := false;
      outbox := [];
      closed := {};
      events := [];
    }

    /** The part of `run()` before its accept loop: the server is marked
        running and its thread pool is created. */
    method Start()
      modifies this
      ensures Current() == old(Current()).(running := true, poolCreated := true)
    {
      running := true;
      events := events + [Status("Server is running...", false)];
      poolCreated := true;
    }

    /** `out.writeObject(m); out.flush()`. */
    method Write(out: Id, m: Message, broken: set<Id>) returns (ok: bool)
      modifies this
      ensures ok <==> !S.WriteFails(old(Current()), out, broken)
      ensures Current() == if ok then S.Deliver(old(Current()), out, m) else old(Current())
      ensures events == old(events)
    {
      if out in broken || out in closed {
        return false;
      }
      outbox := outbox + [Delivery(out, m)];
      return true;
    }

    /** `stop()`. */
    method Stop() returns (r: Outcome<()>)
      modifies this
      ensures (Current(), r) == S.Stop(old(Current()))
    {
      events := events + [Status("Server stopping ...", false)];
      CloseAndClearClients();
      allMessages := [];
      if !poolCreated {
        return Thrown;
      }
      running := false;
      events := events + [Status("Server stopped", false)];
      return Normal(());
    }

    /** `broadcast(message)`. */
    method Broadcast(text: Nullable<string>, broken: set<Id>)
      modifies this
      ensures Current() == S.Announce(old(Current()), text, broken)
    {
      if !running {
        events := events + [Status("Server has not started yet!", true)];
      } else {
        var _ := SendMessage(Message.Broadcast(text), broken);
      }
    }

    /** `closeAndClearClients()`: closes every registered stream, then
        empties the registry. */
    method CloseAndClearClients()
      modifies this
      ensures Current() == old(Current()).(clients := map[], closed := old(closed) + old(clients).Values)
    {
      var streams := clients.Values;
      while streams != {}
        invariant streams <= old(clients).Values
        invariant closed == old(closed) + (old(clients).Values - streams)
        invariant clients == old(clients) && allMessages == old(allMessages) && outbox == old(outbox)
        invariant running == old(running) && poolCreated == old(poolCreated)
        decreases streams
      {
        var stream :| stream in streams;
        closed := closed + {stream};
        streams := streams - {stream};
      }
      clients := map[];
    }

    /** `sendMessageTo(message, dest)`. */
    method SendMessageTo(m: Message, dest: Nullable<string>, broken: set<Id>) returns (r: Outcome<bool>)
      modifies this
      ensures (Current(), r) == S.SendMessageTo(old(Current()), m, dest, broken)
    {
      if dest.Val? && dest.value in clients {
        var key := Dest(m);
        if key.Null? || key.value !in clients {
          return Thrown;
        }
        var out := clients[key.value];
        var ok := Write(out, m, broken);
        if !ok {
          events := events + [Status("problem sending the send + " + ToString(m) + " to " + Show(key), true)];
          return Normal(false);
        }
        return Normal(true);
      }
      return Normal(false);
    }

    /** The loop of `sendMessage` over `clients.keySet()`: one
        `sendMessageTo` per registered name, in the (unspecified) order of
        the key set, which is returned as `order`. */
    method SendToEachClient(m: Message, broken: set<Id>) returns (r: Outcome<bool>, ghost order: seq<string>)
      modifies this
      ensures (Current(), r) == S.SendEach(old(Current()), m, order, broken)
      ensures forall k :: k in order ==> k in old(clients)
      ensures r.Normal? ==> Enumerates(order, old(clients).Keys)
    {
      ghost var s0 := Current();
      var names := clients.Keys;
      var sent := true;
      order := [];
      while names != {}
        invariant names <= s0.clients.Keys
        invariant forall k :: k in order ==> k in s0.clients && k !in names
        invariant forall k :: k in s0.clients ==> k in names || k in order
        invariant forall i, j :: 0 <= i < j < |order| ==> order[i] != order[j]
        invariant (Current(), Normal(sent)) == S.SendEach(s0, m, order, broken)
        decreases names
      {
        var name :| name in names;
        ghost var before := order;
        var ok := SendMessageTo(m, Val(name), broken);
        order := order + [name];
        assert order[..|order| - 1] == before;
        S.SendEachStep(s0, m, before, name, broken);
        if ok.Thrown? {
          return Thrown, order;
        }
        if !ok.value {
          sent := false;
        }
        names := names - {name};
      }
      return Normal(sent), order;
    }

    /** `sendMessage(message)`. */
    method SendMessage(m: Message, broken: set<Id>) returns (r: Outcome<bool>)
      modifies this
      ensures (Current(), r) == S.SendMessage(old(Current()), m, broken)
    {
      ghost var s0 := Current();
      allMessages := allMessages + [m];
      events := events + [Sent(m)];
      if Dest(m).Null? {
        ghost var order;
        r, order := SendToEachClient(m, broken);
        S.SendEachMatchesSendMessage(s0, m, order, broken);
      } else {
        r := SendMessageTo(m, Dest(m), broken);
      }
    }

    /** `clientConnected(loginMessage, out)`. */
    method ClientConnected(login: Message, out: Id, broken: set<Id>) returns (accepted: bool)
      modifies this
      ensures (Current(), accepted) == S.ClientConnected(old(Current()), login, out, broken)
    {
      var nameExists: bool;
      var src := Source(login);
      if src.Null? || src.value in clients {
        accepted, nameExists := false, true;
      } else if IsValidName(src.value) {
        clients := clients[src.value := out];
        accepted, nameExists := true, false;
      } else {
        accepted, nameExists := false, false;
      }
      var ok := Write(out, LoginResponse(accepted, nameExists, src), broken);
      if !ok {
        events := events + [Status("Problem writing to new login: " + Show(src) + ". login is rejected.", true)];
        accepted := false;
        if src.Val? {
          clients := clients - {src.value};
        }
      }
      if accepted {
        var _ := SendMessage(ClientJoined(src), broken);
      }
    }

    /** `messageReceived(message)`. */
    method MessageReceived(m: Message, broken: set<Id>) returns (r: Outcome<()>)
      requires IsClientMessage(m)
      modifies this
      ensures (Current(), r) == S.MessageReceived(old(Current()), m, broken)
    {
      allMessages := allMessages + [m];
      events := events + [Received(m)];
      var sent := Normal(true);
      if m.NameRequest? {
        sent := SendMessage(NameList(Source(m), clients.Keys), broken);
      } else if IsServerMessage(m) {
        if Dest(m).Val? && Dest(m).value !in clients {
          sent := SendMessage(InvalidUser(Source(m), Dest(m)), broken);
        } else {
          sent := SendMessage(m, broken);
        }
      }
      r := if sent.Thrown? then Thrown else Normal(());
    }

    /** `clientDisconnected(name)`. */
    method ClientDisconnected(name: Nullable<string>, broken: set<Id>) returns (r: bool)
      modifies this
      ensures Current() == S.ClientDisconnected(old(Current()), name, broken) && r
    {
      if name.Val? {
        clients := clients - {name.value};
      }
      var _ := SendMessage(ClientLeft(name), broken);
      return true;
    }

    /** `clientLogout(logoutMessage)`. */
    method ClientLogout(m: Message, broken: set<Id>) returns (r: bool)
      requires m.Login?
      modifies this
      ensures Current() == S.ClientLogout(old(Current()), m, broken) && r
    {
      var _ := MessageReceived(m, broken);
      r := ClientDisconnected(Source(m), broken);
    }
  }

  /** `ChatServer.Handler`: serves one connection, whose output stream is `out`. */
  class Handler {
    const server: ChatServer
    const out: Id
    var name: Nullable<string>

    constructor (server: ChatServer, out: Id)
      ensures this.server == server && this.out == out && name == Null
    {
      this.server := server;
      this.out := out;
      name := Null;
    }

    /** The `catch` and `finally` blocks of `run()`. */
    method Terminate(how: S.End, broken: set<Id>) returns (phase: S.Phase)
      modifies server
      ensures (server.Current(), S.Session(phase, name)) == S.Terminate(old(server.Current()), name, how, broken)
    {
      if how == S.Dropped {
        var _ := server.ClientDisconnected(name, broken);
      }
      if name.Val? {
        var _ := server.ClientDisconnected(name, broken);
      }
      return S.Ended(how);
    }

    /** One pass of the login loop of `run()`. */
    method LoginRead(inp: Input) returns (phase: S.Phase)
      modifies this, server
      ensures (server.Current(), S.Session(phase, name)) ==
        S.Step(old(server.Current()), S.Session(S.AwaitingLogin, old(name)), out, inp)
    {
      phase := S.AwaitingLogin;
      match inp.item {
        case Obj(m) =>
          if IsClientMessage(m) {
            var r := server.MessageReceived(m, inp.broken);
            if r.Thrown? {
              phase := Terminate(S.Crashed, inp.broken);
            } else if m.Login? {
              var accepted := server.ClientConnected(m, out, inp.broken);
              if accepted {
                name := Source(m);
                phase := S.Chatting;
              }
            } else {
              var sent := server.Write(out, LoginRequest, inp.broken);
              if !sent {
                phase := Terminate(S.Dropped, inp.broken);
              } else {
                server.events := server.events + [Sent(LoginRequest)];
              }
            }
          } else {
            server.events := server.events + [Status("A non-client send was received. Message dropped.", true)];
          }
        case Foreign =>
          server.events := server.events + [Status("A non-client send was received. Message dropped.", true)];
        case IoFailure =>
          phase := Terminate(S.Dropped, inp.broken);
        case ClassFailure =>
          phase := Terminate(S.Dropped, inp.broken);
      }
    }

    /** One pass of the message loop of `run()`. */
    method ChatRead(inp: Input) returns (phase: S.Phase)
      modifies server
      ensures (server.Current(), S.Session(phase, name)) ==
        S.Step(old(server.Current()), S.Session(S.Chatting, name), out, inp)
    {
      phase := S.Chatting;
      match inp.item {
        case Obj(m) =>
          if IsClientMessage(m) {
            if m.Login? {
              var _ := server.ClientLogout(m, inp.broken);
              phase := Terminate(S.LoggedOut, inp.broken);
            } else {
              var r := server.MessageReceived(m, inp.broken);
              if r.Thrown? {
                phase := Terminate(S.Crashed, inp.broken);
              }
            }
          } else {
            server.events := server.events + [Status("A non-client send was received. Message dropped.", true)];
          }
        case Foreign =>
          server.events := server.events + [Status("A non-client send was received. Message dropped.", true)];
        case IoFailure =>
          phase := Terminate(S.Dropped, inp.broken);
        case ClassFailure =>
          phase := Terminate(S.Dropped, inp.broken);
      }
    }

    /** `run()` for a client that sends `inputs`: the login loop, then the
        message loop, each read handled as `ChatServerSpec.Step` says. When
        the inputs run out first, the handler is still waiting in a read. */
    method Run(broken: set<Id>, inputs: seq<Input>) returns (phase: S.Phase)
      requires name == Null
      modifies this, server
      ensures (server.Current(), S.Session(phase, name)) == S.Run(old(server.Current()), out, broken, inputs)
    {
      ghost var start := S.Open(server.Current(), out, broken);
      var ok := server.Write(out, LoginRequest, broken);
      if !ok {
        phase := Terminate(S.Dropped, broken);
        assert inputs[..0] == [];
        S.EndedIsFinal(start, out, inputs, 0);
        return;
      }
      server.events := server.events + [Sent(LoginRequest)];
      phase := S.AwaitingLogin;
      var i := 0;
      while phase == S.AwaitingLogin && i < |inputs|
        invariant 0 <= i <= |inputs|
        invariant (server.Current(), S.Session(phase, name)) == S.Fold(start, out, inputs[..i])
        decreases |inputs| - i
      {
        phase := LoginRead(inputs[i]);
        assert inputs[..i + 1][..i] == inputs[..i];
        i := i + 1;
      }
      while phase == S.Chatting && i < |inputs|
        invariant 0 <= i <= |inputs|
        invariant phase == S.AwaitingLogin ==> i == |inputs|
        invariant (server.Current(), S.Session(phase, name)) == S.Fold(start, out, inputs[..i])
        decreases |inputs| - i
      {
        phase := ChatRead(inputs[i]);
        assert inputs[..i + 1][..i] == inputs[..i];
        i := i + 1;
      }
      if i < |inputs| {
        S.EndedIsFinal(start, out, inputs, i);
      } else {
        assert inputs[..i] == inputs;
      }
    }
  }
}
