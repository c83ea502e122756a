/** `ChatClient`: the fields the Java class updates in place, and methods
    proved to change them exactly as the functions of `ChatClientSpec` say.
    What the client hands to its listener is kept in the ghost `events`
    log. */
module ChatClient {
  import opened JavaText
  import opened Messages
  import opened Transport
  import S = ChatClientSpec

  class ChatClient {
    var serverAddress: string
    var name: Nullable<string>
    var nameUpdated: bool
    var running: bool
    var connected: bool
    var outClosed: bool
    var sent: seq<Message>
    ghost var events: seq<Event>

    /** The fields as one value. */
    function Current(): S.Client
      reads this
    {
      S.Client(name, nameUpdated, running, connected, outClosed, sent)
    }

    /** `new ChatClient(listener, serverAddress)`. */
    constructor (serverAddress: string)
      ensures Current() == S.Initial() && this.serverAddress == serverAddress && events == []
    {
      this.serverAddress := serverAddress;
      name := Val("");
      nameUpdated := true;
      running := false;
      connected := false;
      outClosed := false;
      sent := [];
      events := [];
    }

    /** `updateServerAddress(serverAddress)`. */
    method UpdateServerAddress(serverAddress: string)
      modifies this
      ensures this.serverAddress == serverAddress && Current() == old(Current())
    {
      this.serverAddress := serverAddress;
    }

    /** `updateName(name)`. */
    method UpdateName(name: Nullable<string>)
      modifies this
      ensures Current() == S.UpdateName(old(Current()), name)
      ensures serverAddress == old(serverAddress)
    {
      this.name := name;
      nameUpdated := true;
    }

    /** `isRunning()`. */
    function IsRunning(): bool
      reads this
    {
      running
    }

    /** `sendMessage(message)`; `broken` says whether the write fails. */
    method SendMessage(m: Message, broken: bool)
      modifies this
      ensures Current() == S.SendMessage(old(Current()), m, broken)
      ensures serverAddress == old(serverAddress)
    {
      if !running {
        events := events + [Status("Client is not running!", true)];
        return;
      }
      if connected && !outClosed && !broken {
        sent := sent + [m];
        events := events + [Sent(m)];
      }
    }

    /** `messageAll(message)`. */
    method MessageAll(text: Nullable<string>, broken: bool)
      modifies this
      ensures Current() == S.MessageAll(old(Current()), text, broken)
      ensures serverAddress == old(serverAddress)
    {
      SendMessage(NewChatMessage(name, Null, text), broken);
    }

    /** `messageOne(dest, message)`. */
    method MessageOne(dest: Nullable<string>, text: Nullable<string>, broken: bool)
      modifies this
      ensures Current() == S.MessageOne(old(Current()), dest, text, broken)
      ensures serverAddress == old(serverAddress)
    {
      SendMessage(NewChatMessage(name, dest, text), broken);
    }

    /** `listNames()`. */
    method ListNames(broken: bool)
      modifies this
      ensures Current() == S.ListNames(old(Current()), broken)
      ensures serverAddress == old(serverAddress)
    {
      SendMessage(NameRequest(name), broken);
    }

    /** `stop()`: closing the stream is assumed to succeed. */
    method Stop()
      modifies this
      ensures Current() == S.Stop(old(Current()))
      ensures serverAddress == old(serverAddress)
    {
      if connected {
        outClosed := true;
      }
    }

    /** A request another thread makes while `run()` loops. */
    method Perform(q: S.Request, broken: bool)
      modifies this
      ensures Current() == S.Perform(old(Current()), q, broken)
      ensures serverAddress == old(serverAddress)
    {
      match q {
        case SayAll(t) => MessageAll(t, broken);
        case SayTo(d, t) => MessageOne(d, t, broken);
        case AskNames => ListNames(broken);
        case Quit => Stop();
      }
    }

    /** One event seen by either loop of `run()`. */
    method Handle(phase: S.Phase, e: S.Event) returns (next: S.Phase)
      requires phase != S.Stopped
      modifies this
      ensures (Current(), next) == S.Step(old(Current()), phase, e)
      ensures serverAddress == old(serverAddress)
    {
      next := phase;
      match e.what {
        case Rename(n) => UpdateName(n);
        case Call(q) => Perform(q, e.broken);
        case Arrive(item) =>
          if outClosed || !item.Obj? {
            events := events + [Status(if item.ClassFailure? || item.Foreign? then "Problem reading from stream. Exiting." else "IOException. Exiting.", true)];
            Stop();
            return S.Stopped;
          }
          var m := item.m;
          if !IsServerMessage(m) {
            events := events + [Status("A non-server message was received. Message dropped.", true)];
            return;
          }
          events := events + [Received(m)];
          if phase == S.LoggingIn {
            if m.LoginResponse? && m.accepted {
              return S.Chatting;
            }
            if nameUpdated && name.Val? && Trim(name.value) != "" {
              SendMessage(Login(name, true), e.broken);
              nameUpdated := false;
            }
          }
      }
    }

    /** `run()` while `happenings` occur: the connection (which succeeds when
        `connectOk`), the login loop and the receive loop. `consumed` happenings
        were seen before `run()` returned; it returns only by stopping. */
    method Run(connectOk: bool, happenings: seq<S.Event>) returns (consumed: nat, phase: S.Phase)
      modifies this
      ensures consumed <= |happenings|
      ensures (Current(), phase) == S.Fold(S.Open(old(Current()), connectOk), happenings[..consumed])
      ensures consumed < |happenings| ==> phase == S.Stopped
      ensures serverAddress == old(serverAddress)
    {
      ghost var start := S.Open(Current(), connectOk);
      if !connectOk {
        Stop();
        assert happenings[..0] == [];
        return 0, S.Stopped;
      }
      running := true;
      connected := true;
      outClosed := false;
      phase := S.LoggingIn;
      var i := 0;
      assert happenings[..0] == [];
      while phase == S.LoggingIn && i < |happenings|
        invariant 0 <= i <= |happenings|
        invariant (Current(), phase) == S.Fold(start, happenings[..i])
        invariant serverAddress == old(serverAddress)
        decreases |happenings| - i
      {
        phase := Handle(phase, happenings[i]);
        assert happenings[..i + 1][..i] == happenings[..i];
        i := i + 1;
      }
      while phase == S.Chatting && i < |happenings|
        invariant 0 <= i <= |happenings|
        invariant phase != S.LoggingIn || i == |happenings|
        invariant (Current(), phase) == S.Fold(start, happenings[..i])
        invariant serverAddress == old(serverAddress)
        decreases |happenings| - i
      {
        phase := Handle(phase, happenings[i]);
        assert happenings[..i + 1][..i] == happenings[..i];
        i := i + 1;
      }
      return i, phase;
    }
  }
}
