/** `CommandLineServer`: the server's console. Lines are read as typed (not
    trimmed); a line starting with "stop" stops the server, one starting
    with "broadcast" broadcasts everything from its first ':' on, and any
    other line is ignored. */
module CommandLineServer {
  import opened JavaText
  import opened Messages
  import opened Transport
  import S = ChatServerSpec
  import ChatServer

  /** The size of the thread pool `main` asks for. */
  const PoolSize: int := 100

  datatype ServerCommand = StopServer | BroadcastText(text: string) | Ignore

  /** The loop's reading of one line. A "broadcast" line without a ':'
      makes `substring(-1)` throw. */
  function ParseServer(input: string): (r: Outcome<ServerCommand>)
    ensures r == Normal(StopServer) <==> StartsWith(ToLower(input), "stop")
    ensures r.Thrown? <==> !StartsWith(ToLower(input), "stop") && StartsWith(ToLower(input), "broadcast") && ':' !in input
    ensures r.Normal? && r.value.BroadcastText? ==>
      0 < |r.value.text| <= |input| && r.value.text == input[|input| - |r.value.text|..] &&
      r.value.text[0] == ':' && ':' !in input[..|input| - |r.value.text|]
    ensures r.Normal? && r.value.BroadcastText? ==> StartsWith(ToLower(input), "broadcast")
    ensures r == Normal(Ignore) <==> !StartsWith(ToLower(input), "stop") && !StartsWith(ToLower(input), "broadcast")
  {
    var lower := ToLower(input);
    if StartsWith(lower, "stop") then Normal(StopServer)
    else if StartsWith(lower, "broadcast") then
      var i := IndexOf(input, ':');
      match SubstringFrom(input, i)
      case Thrown => Thrown
      case Normal(t) =>
        assert input[..|input| - |t|] == input[..i];
        Normal(BroadcastText(t))
    else Normal(Ignore)
  }

  /** A broadcast line is cut at its first ':', and the colon stays in the
      text that is broadcast. */
  lemma BroadcastKeepsColon(keyword: string, rest: string)
    requires StartsWith(ToLower(keyword), "broadcast") && ':' !in keyword
    ensures ParseServer(keyword + ":" + rest) == Normal(BroadcastText(":" + rest))
  {
    var input := keyword + [':'] + rest;
    assert input == keyword + ":" + rest;
    IndexOfFirst(keyword, ':', rest);
    ToLowerAppend(keyword, [':'] + rest);
    assert input == keyword + ([':'] + rest);
    assert ToLower(input)[..9] == ToLower(keyword)[..9] == "broadcast";
    assert ToLower(input)[0] == 'b';
    assert !StartsWith(ToLower(input), "stop");
    assert StartsWith(ToLower(input), "broadcast");
    assert input[|keyword|..] == ":" + rest;
  }

  /** Lines are not trimmed: a command typed after a space is ignored. */
  lemma LeadingSpaceIsIgnored(input: string)
    requires |input| > 0 && input[0] == ' '
    ensures ParseServer(input) == Normal(Ignore)
  {
    assert ToLower(input)[0] == ' ';
  }

  /** How the loop ends: `isRunning()` is false, the input ends, or a line
      threw (a "broadcast" line without a ':', or "stop" before `run()`
      created the thread pool). */
  datatype ConsoleEnd = NotRunning | OutOfInput | Crashed

  /** `main`'s loop over the console lines. */
  function Console(s: S.State, lines: seq<string>, broken: set<Id>): (S.State, ConsoleEnd)
    decreases |lines|
  {
    if !s.running then (s, NotRunning)
    else if lines == [] then (s, OutOfInput)
    else
      match ParseServer(lines[0])
      case Thrown => (s, Crashed)
      case Normal(StopServer) =>
        var (s1, r) := S.Stop(s);
        if r.Thrown? then (s1, Crashed) else Console(s1, lines[1..], broken)
      case Normal(BroadcastText(t)) => Console(S.Announce(s, Val(t), broken), lines[1..], broken)
      case Normal(Ignore) => Console(s, lines[1..], broken)
  }

  /** "stop" ends the loop: once the pool exists the server stops and the
      loop sees it is no longer running; before that, `stop()` throws and
      ends `main`. Either way every client has been cut off. */
  lemma StopEndsConsole(s: S.State, lines: seq<string>, broken: set<Id>)
    requires s.running && lines != [] && ParseServer(lines[0]) == Normal(StopServer)
    ensures Console(s, lines, broken).0 == S.Stop(s).0
    ensures Console(s, lines, broken).1 == if s.poolCreated then NotRunning else Crashed
    ensures Console(s, lines, broken).0.clients == map[]
  {
    if s.poolCreated {
      var s1 := S.Stop(s).0;
      assert !s1.running;
    }
  }

  /** Nothing typed at the server console reaches a client: broadcasts are
      addressed to "<all>" and stopping only closes streams. */
  lemma {:induction false} ConsoleSendsNothing(s: S.State, lines: seq<string>, broken: set<Id>)
    requires S.Valid(s)
    ensures Console(s, lines, broken).0.outbox == s.outbox
    ensures S.Valid(Console(s, lines, broken).0)
    decreases |lines|
  {
    if s.running && lines != [] {
      match ParseServer(lines[0])
      case Thrown =>
      case Normal(StopServer) =>
        var s1 := S.Stop(s).0;
        ConsoleSendsNothing(s1, lines[1..], broken);
      case Normal(BroadcastText(t)) =>
        var s1 := S.Announce(s, Val(t), broken);
        ConsoleSendsNothing(s1, lines[1..], broken);
      case Normal(Ignore) =>
        ConsoleSendsNothing(s, lines[1..], broken);
    }
  }

  /** `new ChatServer(listener, 100)`. */
  method Launch() returns (server: ChatServer.ChatServer)
    ensures fresh(server) && server.numberOfThreads == PoolSize
    ensures server.Current() == S.Initial()
  {
    server := new ChatServer.ChatServer(PoolSize);
  }

  /** `main`'s loop against `server`; `run()` runs on another thread, so the
      pool exists only if it has got that far. */
  method ConsoleLoop(server: ChatServer.ChatServer, lines: seq<string>, broken: set<Id>) returns (end: ConsoleEnd)
    modifies server
    ensures (server.Current(), end) == Console(old(server.Current()), lines, broken)
  {
    var i := 0;
    while i < |lines| && server.running
      invariant 0 <= i <= |lines|
      invariant Console(server.Current(), lines[i..], broken) == Console(old(server.Current()), lines, broken)
      decreases |lines| - i
    {
      var cmd := ParseServer(lines[i]);
      assert lines[i..][0] == lines[i] && lines[i..][1..] == lines[i + 1..];
      match cmd {
        case Thrown =>
          return Crashed;
        case Normal(StopServer) =>
          var r := server.Stop();
          if r.Thrown? {
            return Crashed;
          }
        case Normal(BroadcastText(t)) =>
          server.Broadcast(Val(t), broken);
        case Normal(Ignore) =>
      }
      i := i + 1;
    }
    if !server.running {
      return NotRunning;
    }
    assert lines[i..] == [];
    return OutOfInput;
  }
}
