/** The message classes of `my_chat.message_types` that the servers and the
    client exchange, as one closed datatype. Each constructor stores its
    fields verbatim, as the Java constructors do; `NewChatMessage` is the one
    constructor that normalises its arguments. */
module Messages {
  import opened JavaText

  /** The sentinel names the message classes use for fixed endpoints. */
  const ServerSentinel: string := "<server>"
  const AllSentinel: string := "<all>"
  const NewClientSentinel: string := "<new_client>"

  datatype Message =
    /** `ChatMessage`: sent by a client, relayed by the server. */
    | Chat(source: string, dest: string, text: Nullable<string>)
    /** `LoginMessage`: one class for both log-in (`login == true`) and log-out. */
    | Login(name: Nullable<string>, login: bool)
    /** `NameRequestMessage`: a client asks for the list of names. */
    | NameRequest(requester: Nullable<string>)
    /** `NameListMessage(dest, names)`: the answer to a `NameRequest`. */
    | NameList(listTo: Nullable<string>, names: set<string>)
    /** `InvalidUserMessage(dest, user)`: tells `replyTo` that `user` does not exist. */
    | InvalidUser(replyTo: Nullable<string>, user: Nullable<string>)
    /** `BroadcastMessage` (and its subclasses `ClientJoinedMessage`, `ClientLeftMessage`). */
    | Broadcast(text: Nullable<string>)
    /** `LoginRequestMessage`: the server's payload-free prompt to log in. */
    | LoginRequest
    /** `LoginResponseMessage(accepted, nameExists, name)`. */
    | LoginResponse(accepted: bool, nameExists: bool, name: Nullable<string>)

  /** The constructor `ChatMessage(source, dest, message)`: a null source
      becomes "<server>", a null destination becomes "<all>", and everything
      else is kept as given, so neither getter ever returns null. */
  function NewChatMessage(source: Nullable<string>, dest: Nullable<string>, text: Nullable<string>): (m: Message)
    ensures m.Chat? && m.text == text
    ensures Source(m).Val? && Dest(m).Val?
    ensures Source(m) == if source.Null? then Val(ServerSentinel) else source
    ensures Dest(m) == if dest.Null? then Val(AllSentinel) else dest
  {
    Chat(if source.Null? then ServerSentinel else source.value,
         if dest.Null? then AllSentinel else dest.value,
         text)
  }

  /** `ClientJoinedMessage(name)`: a broadcast from the server to everyone. */
  function ClientJoined(name: Nullable<string>): (m: Message)
    ensures m.Broadcast? && Source(m) == Val(ServerSentinel) && Dest(m) == Val(AllSentinel)
    ensures ToString(m) == "<" + Show(name) + " has logged in>"
  {
    Broadcast(Val(Show(name) + " has logged in"))
  }

  /** `ClientLeftMessage(name)`: a broadcast from the server to everyone. */
  function ClientLeft(name: Nullable<string>): (m: Message)
    ensures m.Broadcast? && Source(m) == Val(ServerSentinel) && Dest(m) == Val(AllSentinel)
    ensures ToString(m) == "<" + Show(name) + " has left>"
  {
    Broadcast(Val(Show(name) + " has left"))
  }

  /** `IMessage.getSource()`. */
  function Source(m: Message): Nullable<string>
  {
    match m
    case Chat(s, _, _) => Val(s)
    case Login(n, _) => n
    case NameRequest(s) => s
    case _ => Val(ServerSentinel)
  }

  /** `IMessage.getDest()`. */
  function Dest(m: Message): Nullable<string>
  {
    match m
    case Chat(_, d, _) => Val(d)
    case Login(_, _) => Val(ServerSentinel)
    case NameRequest(_) => Val(ServerSentinel)
    case NameList(d, _) => d
    case InvalidUser(d, _) => d
    case Broadcast(_) => Val(AllSentinel)
    case LoginRequest => Val(NewClientSentinel)
    case LoginResponse(_, _, _) => Val(NewClientSentinel)
  }

  /** `instanceof IClientMessage`: the kinds a client may send. */
  predicate IsClientMessage(m: Message)
  {
    m.Chat? || m.Login? || m.NameRequest?
  }

  /** `instanceof IServerMessage`: the kinds the server may send to a client.
      `BroadcastMessage` implements neither interface. */
  predicate IsServerMessage(m: Message)
  {
    m.Chat? || m.NameList? || m.InvalidUser? || m.LoginRequest? || m.LoginResponse?
  }

  /** Every message a client cannot send names the server as its source, and
      only `ChatMessage` is both a client and a server message. */
  lemma ServerOriginated(m: Message)
    ensures !IsClientMessage(m) ==> Source(m) == Val(ServerSentinel)
    ensures IsClientMessage(m) && IsServerMessage(m) <==> m.Chat?
    ensures m.Broadcast? ==> !IsClientMessage(m) && !IsServerMessage(m)
  {
  }

  // ---------------------------------------------------------------- toString

  /** `toString()` of each message class. The order in which a name list is
      written is the (unspecified) iteration order of its `HashSet`; any
      enumeration of the set is allowed, see `NameListListsEachNameOnce`. */
  ghost function ToString(m: Message): string
  {
    match m
    case Chat(s, d, t) => s + " to " + d + ": " + Show(t)
    case Login(n, flag) => if flag then "Logging in as " + Show(n) else Show(n) + " is logging out"
    case NameRequest(s) => Show(s) + " is requesting a list of all clients"
    case NameList(_, names) => NameListText(SomeEnumeration(names))
    case InvalidUser(_, u) => "user " + Show(u) + " does not exist"
    case Broadcast(t) => "<" + Show(t) + ">"
    case LoginRequest => "Server is asking you to log in"
    case LoginResponse(a, e, n) =>
      if a then "Login accepted as " + Show(n)
      else if e then "Login was not accepted as " + Show(n) + ". That name already exists"
      else "Login was not accepted as " + Show(n) + ". That name is invalid"
  }

  predicate EndsWith(s: string, suffix: string)
  {
    |suffix| <= |s| && s[|s| - |suffix|..] == suffix
  }

  /** The three texts of `LoginResponseMessage.toString` tell its flags apart:
      the text starts "Login accepted as " exactly when the login was accepted
      (whatever `nameExists` says), and a rejection ends "That name already
      exists" exactly when `nameExists`, "That name is invalid" otherwise. */
  lemma LoginResponseTextClassifies(a: bool, e: bool, n: Nullable<string>)
    ensures StartsWith(ToString(LoginResponse(a, e, n)), "Login accepted as ") <==> a
    ensures !a ==> (EndsWith(ToString(LoginResponse(a, e, n)), ". That name already exists") <==> e)
    ensures !a ==> (EndsWith(ToString(LoginResponse(a, e, n)), ". That name is invalid") <==> !e)
    ensures a ==> ToString(LoginResponse(a, e, n)) == ToString(LoginResponse(a, !e, n))
  {
    var t := ToString(LoginResponse(a, e, n));
    if a {
      StartsWithAppend("Login accepted as ", Show(n));
    } else {
      var head := "Login was not accepted as " + Show(n);
      assert t[6] == 'w';
      if e {
        EndsWithAppend(head, ". That name already exists");
        assert t[|t| - 1] == 's';
      } else {
        EndsWithAppend(head, ". That name is invalid");
        assert t[|t| - 1] == 'd';
      }
    }
  }

  lemma StartsWithAppend(x: string, y: string)
    ensures StartsWith(x + y, x)
  {
    assert (x + y)[..|x|] == x;
  }

  lemma EndsWithAppend(x: string, y: string)
    ensures EndsWith(x + y, y)
  {
    assert (x + y)[|x|..] == y;
  }

  /** `LoginMessage.toString`: the flag decides between the log-in and the
      log-out text, and the name can be read back from either. */
  lemma LoginTextCarriesName(n: Nullable<string>, flag: bool)
    ensures flag ==> ToString(Login(n, flag))[|"Logging in as "|..] == Show(n)
    ensures !flag ==> ToString(Login(n, flag))[..|Show(n)|] == Show(n)
    ensures !flag ==> EndsWith(ToString(Login(n, flag)), " is logging out")
  {
  }

  /** `BroadcastMessage.toString` wraps the text in angle brackets; stripping
      them gives the text back. */
  lemma BroadcastTextRoundTrip(t: string)
    ensures var s := ToString(Broadcast(Val(t)));
      |s| == |t| + 2 && s[0] == '<' && s[|s| - 1] == '>' && s[1..|s| - 1] == t
  {
  }

  /** `InvalidUserMessage.toString` names the missing `user`, never the party
      being told; different missing users give different texts. */
  lemma InvalidUserTextNamesUser(d1: Nullable<string>, d2: Nullable<string>, u1: Nullable<string>, u2: Nullable<string>)
    ensures ToString(InvalidUser(d1, u1)) == ToString(InvalidUser(d2, u1))
    ensures ToString(InvalidUser(d1, u1)) == ToString(InvalidUser(d2, u2)) <==> Show(u1) == Show(u2)
    ensures Dest(InvalidUser(d1, u1)) == d1
  {
    var s1, s2 := ToString(InvalidUser(d1, u1)), ToString(InvalidUser(d2, u2));
    if s1 == s2 {
      assert |Show(u1)| == |Show(u2)|;
      assert Show(u1) == s1[5..|s1| - 15] == s2[5..|s2| - 15] == Show(u2);
    }
  }

  /** The text of a `ChatMessage` begins with its source; when the source has
      no space in it (every valid name, and "<server>"), the first space ends it. */
  lemma ChatTextStartsWithSource(source: string, dest: string, text: Nullable<string>)
    requires ' ' !in source
    ensures var s := ToString(Chat(source, dest, text));
      IndexOf(s, ' ') == |source| && s[..|source|] == source
  {
    var s := ToString(Chat(source, dest, text));
    assert s == source + (" to " + dest + ": " + Show(text));
    assert source + " to " + dest + ": " + Show(text) == source + [' '] + ("to " + dest + ": " + Show(text));
    IndexOfFirst(source, ' ', "to " + dest + ": " + Show(text));
  }

  // ---------------------------------------------------------------- name lists

  /** `order` lists every element of `names` exactly once. */
  predicate Enumerates(order: seq<string>, names: set<string>)
  {
    (forall i, j :: 0 <= i < j < |order| ==> order[i] != order[j]) &&
    (forall x :: x in order ==> x in names) && (forall x :: x in names ==> x in order)
  }

  /** Some iteration order of a set. */
  ghost function SomeEnumeration(names: set<string>): (order: seq<string>)
    ensures Enumerates(order, names)
    decreases names
  {
    if names == {} then []
    else
      var x :| x in names;
      var rest := SomeEnumeration(names - {x});
      assert forall i :: 0 <= i < |rest| ==> rest[i] != x;
      [x] + rest
  }

  /** The loop of `NameListMessage.toString`: "All clients: ", then every
      name followed by one space. */
  function NameListText(order: seq<string>): string
  {
    "All clients: " + Spaced(order)
  }

  function Spaced(order: seq<string>): string
    decreases |order|
  {
    if order == [] then "" else order[0] + " " + Spaced(order[1..])
  }

  /** Splits a text made of space-terminated words back into the words. */
  function SplitSpaced(s: string): seq<string>
    decreases |s|
  {
    if s == [] then []
    else
      var i := IndexOf(s, ' ');
      if i < 0 then [s] else [s[..i]] + SplitSpaced(s[i + 1..])
  }

  /** Words without spaces survive `Spaced` followed by `SplitSpaced`. */
  lemma {:induction false} SpacedRoundTrip(order: seq<string>)
    requires forall i :: 0 <= i < |order| ==> ' ' !in order[i]
    ensures SplitSpaced(Spaced(order)) == order
    decreases |order|
  {
    if order != [] {
      SplitSpacedCons(order[0], Spaced(order[1..]));
      SpacedRoundTrip(order[1..]);
      assert [order[0]] + order[1..] == order;
    }
  }

  /** Splitting a word without spaces followed by a space peels that word off. */
  lemma SplitSpacedCons(w: string, rest: string)
    requires ' ' !in w
    ensures SplitSpaced(w + " " + rest) == [w] + SplitSpaced(rest)
  {
    var s := w + [' '] + rest;
    assert s == w + " " + rest;
    IndexOfFirst(w, ' ', rest);
    assert s[..|w|] == w;
    assert s[|w| + 1..] == rest;
  }

  /** A `NameListMessage` over registered names (all matching `\w+`) lists
      each name exactly once, whatever order its set is enumerated in: the
      words after "All clients: " are the enumeration itself. */
  lemma NameListListsEachNameOnce(names: set<string>, order: seq<string>)
    requires Enumerates(order, names)
    requires forall x :: x in names ==> IsValidName(x)
    ensures var t := NameListText(order);
      StartsWith(t, "All clients: ") &&
      SplitSpaced(t[|"All clients: "|..]) == order &&
      Enumerates(SplitSpaced(t[|"All clients: "|..]), names)
  {
    forall i | 0 <= i < |order| ensures ' ' !in order[i] {
      assert order[i] in names;
      NameHasNoSeparators(order[i]);
    }
    SpacedRoundTrip(order);
    var t := NameListText(order);
    assert t[|"All clients: "|..] == Spaced(order);
  }
}
