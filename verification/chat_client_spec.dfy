/** The meaning of `ChatClient`'s operations and of its `run()` loops, as
    functions on the client's state. The class in module `ChatClient`
    implements them and is proved equal to them. */
module ChatClientSpec {
  import opened JavaText
  import opened Messages
  import opened Transport

  /** What `ChatClient`'s fields hold: the name to log in as, whether it
      changed since the last attempt, the `running` flag, whether the output
      stream exists and whether it has been closed, and every message
      written to the server. */
  datatype Client = Client(
    name: Nullable<string>,
    nameUpdated: bool,
    running: bool,
    connected: bool,
    outClosed: bool,
    sent: seq<Message>)

  /** The state the constructor leaves: the name is "" and counts as updated. */
  function Initial(): Client
  {
    Client(Val(""), true, false, false, false, [])
  }

  /** Only the sent messages may differ. */
  predicate SameExceptSent(c: Client, d: Client)
  {
    d.name == c.name && d.nameUpdated == c.nameUpdated && d.running == c.running &&
    d.connected == c.connected && d.outClosed == c.outClosed
  }

  /** `sendMessage(message)`: refused with a status unless running; a write
      that fails (a broken or closed stream) is only reported. */
  function SendMessage(c: Client, m: Message, broken: bool): (r: Client)
    ensures SameExceptSent(c, r)
    ensures r.sent == c.sent + (if c.running && c.connected && !c.outClosed && !broken then [m] else [])
  {
    if !c.running || !c.connected || c.outClosed || broken then c
    else c.(sent := c.sent + [m])
  }

  /** `updateName(name)`. */
  function UpdateName(c: Client, name: Nullable<string>): (r: Client)
    ensures r.name == name && r.nameUpdated
    ensures r.running == c.running && r.connected == c.connected && r.outClosed == c.outClosed && r.sent == c.sent
  {
    c.(name := name, nameUpdated := true)
  }

  /** `messageAll(message)`: a chat message from the current name with a
      null destination, which the message turns into "<all>". */
  function MessageAll(c: Client, text: Nullable<string>, broken: bool): (r: Client)
    ensures SameExceptSent(c, r)
    ensures r.sent == c.sent + (if c.running && c.connected && !c.outClosed && !broken
      then [Chat(if c.name.Null? then ServerSentinel else c.name.value, AllSentinel, text)] else [])
  {
    SendMessage(c, NewChatMessage(c.name, Null, text), broken)
  }

  /** `messageOne(dest, message)`. */
  function MessageOne(c: Client, dest: Nullable<string>, text: Nullable<string>, broken: bool): (r: Client)
    ensures SameExceptSent(c, r)
    ensures r.sent == c.sent + (if c.running && c.connected && !c.outClosed && !broken
      then [Chat(if c.name.Null? then ServerSentinel else c.name.value,
                 if dest.Null? then AllSentinel else dest.value, text)] else [])
  {
    SendMessage(c, NewChatMessage(c.name, dest, text), broken)
  }

  /** `listNames()`. */
  function ListNames(c: Client, broken: bool): (r: Client)
    ensures SameExceptSent(c, r)
    ensures r.sent == c.sent + (if c.running && c.connected && !c.outClosed && !broken then [NameRequest(c.name)] else [])
  {
    SendMessage(c, NameRequest(c.name), broken)
  }

  /** `stop()`: closes the output stream if there is one. `running` stays
      true. */
  function Stop(c: Client): (r: Client)
    ensures r.outClosed <==> c.outClosed || c.connected
    ensures r.running == c.running && r.sent == c.sent && r.name == c.name && r.nameUpdated == c.nameUpdated
  {
    if c.connected then c.(outClosed := true) else c
  }

  /** The retry rule of the login loop: log in again only when the name
      changed since the last attempt and is not null or blank. */
  predicate ShouldRetry(c: Client)
  {
    c.nameUpdated && c.name.Val? && Trim(c.name.value) != ""
  }

  /** The login loop's handling of one server message: an accepted
      `LoginResponseMessage` ends the loop at once; anything else may
      trigger one new login attempt under the retry rule, after which the
      name no longer counts as updated, whether or not the write succeeded. */
  function LoginRead(c: Client, m: Message, broken: bool): (r: (Client, bool))
    ensures r.1 <==> m.LoginResponse? && m.accepted
    ensures r.1 ==> r.0 == c
    ensures !r.1 && ShouldRetry(c) ==>
      r.0 == SendMessage(c, Login(c.name, true), broken).(nameUpdated := false)
    ensures !r.1 && !ShouldRetry(c) ==> r.0 == c
  {
    if m.LoginResponse? && m.accepted then (c, true)
    else if ShouldRetry(c) then (SendMessage(c, Login(c.name, true), broken).(nameUpdated := false), false)
    else (c, false)
  }

  /** A console request made from another thread while `run()` loops. */
  datatype Request = SayAll(text: Nullable<string>) | SayTo(dest: Nullable<string>, text: Nullable<string>) | AskNames | Quit

  function Perform(c: Client, q: Request, broken: bool): Client
  {
    match q
    case SayAll(t) => MessageAll(c, t, broken)
    case SayTo(d, t) => MessageOne(c, d, t, broken)
    case AskNames => ListNames(c, broken)
    case Quit => Stop(c)
  }

  /** What happens while `run()` loops: a read completes, or another thread
      renames the client or makes a request. `broken` says whether a write
      made then fails. */
  datatype Happening = Arrive(item: Incoming) | Rename(name: Nullable<string>) | Call(q: Request)
  datatype Event = Event(what: Happening, broken: bool)

  datatype Phase = LoggingIn | Chatting | Stopped

  /** The start of `run()`: when the socket opens the client is running and
      logging in; otherwise `stop()` finds no stream. */
  function Open(c: Client, connectOk: bool): (Client, Phase)
  {
    if connectOk then (c.(running := true, connected := true, outClosed := false), LoggingIn)
    else (Stop(c), Stopped)
  }

  /** One event of `run()`. A read fails (ending `run()` through `stop()`)
      on an I/O error, on an object that is not an `IMessage`
      (`readMessage` throws `ClassNotFoundException`), and once the output
      stream is closed (closing it closes the socket). Messages that are not
      server messages are dropped. */
  function Step(c: Client, p: Phase, e: Event): (Client, Phase)
  {
    if p == Stopped then (c, p)
    else
      match e.what
      case Rename(n) => (UpdateName(c, n), p)
      case Call(q) => (Perform(c, q, e.broken), p)
      case Arrive(item) =>
        if c.outClosed || !item.Obj? then (Stop(c), Stopped)
        else if !IsServerMessage(item.m) then (c, p)
        else if p == LoggingIn then
          var (c1, loggedIn) := LoginRead(c, item.m, e.broken);
          (c1, if loggedIn then Chatting else LoggingIn)
        else (c, p)
  }

  function Fold(start: (Client, Phase), events: seq<Event>): (Client, Phase)
    decreases |events|
  {
    if events == [] then start
    else
      var (c, p) := Fold(start, events[..|events| - 1]);
      Step(c, p, events[|events| - 1])
  }

  /** Each retry sends at most one `LoginMessage`, and only when the name was
      updated; the attempt carries the current name with the log-in flag. */
  lemma RetryAtMostOncePerUpdate(c: Client, m: Message, broken: bool)
    ensures var (d, loggedIn) := LoginRead(c, m, broken);
      && |d.sent| <= |c.sent| + 1
      && (|d.sent| > |c.sent| ==> c.nameUpdated && !d.nameUpdated && d.sent[|c.sent|] == Login(c.name, true))
      && (!c.nameUpdated ==> d == c)
  {
  }

  /** A blank or null name is never sent as a login, however often it is set. */
  lemma BlankNameIsNeverTried(c: Client, m: Message, broken: bool)
    requires c.name.Null? || forall k :: 0 <= k < |c.name.value| ==> IsTrimmed(c.name.value[k])
    ensures LoginRead(c, m, broken).0 == c
  {
    if c.name.Val? {
      TrimEmptyIffBlank(c.name.value);
    }
  }

  /** Once a name has been tried, further server messages send nothing until
      the name is updated again: the number of attempts over any run of
      reads without a rename is at most one. */
  lemma {:induction false} OneAttemptBetweenRenames(c: Client, ms: seq<Message>, broken: bool)
    requires forall i :: 0 <= i < |ms| ==> IsServerMessage(ms[i]) && !(ms[i].LoginResponse? && ms[i].accepted)
    ensures var d := Reads(c, ms, broken);
      |d.sent| <= |c.sent| + 1 && (!c.nameUpdated ==> d == c)
    decreases |ms|
  {
    if ms != [] {
      var prefix := ms[..|ms| - 1];
      OneAttemptBetweenRenames(c, prefix, broken);
      var d1 := Reads(c, prefix, broken);
      RetryAtMostOncePerUpdate(d1, ms[|ms| - 1], broken);
      if |d1.sent| > |c.sent| {
        ReadsClearUpdate(c, prefix, broken);
      }
    }
  }

  /** The login loop reading `ms` one after another (without renames). */
  function Reads(c: Client, ms: seq<Message>, broken: bool): Client
    decreases |ms|
  {
    if ms == [] then c else LoginRead(Reads(c, ms[..|ms| - 1], broken), ms[|ms| - 1], broken).0
  }

  /** After an attempt, the name no longer counts as updated. */
  lemma {:induction false} ReadsClearUpdate(c: Client, ms: seq<Message>, broken: bool)
    requires |Reads(c, ms, broken).sent| > |c.sent|
    ensures !Reads(c, ms, broken).nameUpdated
    decreases |ms|
  {
    if ms != [] {
      var prefix := ms[..|ms| - 1];
      var d1 := Reads(c, prefix, broken);
      if |d1.sent| > |c.sent| {
        ReadsClearUpdate(c, prefix, broken);
      }
    } else {
      assert false;
    }
  }

  /** The client logs in only through an accepted response; its requests are
      written only while it runs with an open stream; and after `stop()`
      every later read ends `run()`. */
  lemma LoginOnlyByAcceptedResponse(c: Client, e: Event)
    requires Step(c, LoggingIn, e).1 == Chatting
    ensures e.what.Arrive? && e.what.item.Obj? && e.what.item.m.LoginResponse? && e.what.item.m.accepted
    ensures Step(c, LoggingIn, e).0 == c
  {
  }

  /** After the output stream is closed, nothing more is written and the
      next read ends `run()`. */
  lemma ClosedClientSendsNothing(c: Client, p: Phase, e: Event)
    requires c.outClosed && p != Stopped
    ensures Step(c, p, e).0.sent == c.sent
    ensures e.what.Arrive? ==> Step(c, p, e).1 == Stopped
  {
  }
}
