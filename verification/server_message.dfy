/** `ServerMessage`: the older, single-class representation of what the
    server sends, built only through its static factories. Unused fields are
    null. */
module ServerMessages {
  import opened JavaText
  import Messages

  /** `ServerMessage.Type`. */
  datatype Kind = LoginRequest | LoginResponse | Message | Names | ClientJoined | ClientLeft

  function KindName(k: Kind): string
  {
    match k
    case LoginRequest => "LoginRequest"
    case LoginResponse => "LoginResponse"
    case Message => "Message"
    case Names => "Names"
    case ClientJoined => "ClientJoined"
    case ClientLeft => "ClientLeft"
  }

  datatype ServerMessage = ServerMessage(
    kind: Kind,
    source: Nullable<string>,
    dest: Nullable<string>,
    text: Nullable<string>,
    names: Nullable<set<string>>,
    name: Nullable<string>,
    loginAccepted: Nullable<bool>)

  /** Every optional field of a message is null. */
  predicate AllNull(m: ServerMessage)
  {
    m.source.Null? && m.dest.Null? && m.text.Null? && m.names.Null? && m.name.Null? && m.loginAccepted.Null?
  }

  /** `ServerMessage.loginRequest()`: everything but the type is null. */
  function MakeLoginRequest(): (m: ServerMessage)
    ensures m.kind == LoginRequest && AllNull(m)
  {
    ServerMessage(LoginRequest, Null, Null, Null, Null, Null, Null)
  }

  /** `ServerMessage.loginResponse(loginAccepted, message, dest)`: the source stays null. */
  function MakeLoginResponse(accepted: bool, text: Nullable<string>, dest: Nullable<string>): (m: ServerMessage)
    ensures m.kind == LoginResponse && m.loginAccepted == Val(accepted)
    ensures m.dest == dest && m.text == text
    ensures m.source.Null? && m.names.Null? && m.name.Null?
  {
    ServerMessage(LoginResponse, Null, dest, text, Null, Null, Val(accepted))
  }

  /** `ServerMessage.message(source, dest, message)`: source, destination and text only. */
  function MakeMessage(source: Nullable<string>, dest: Nullable<string>, text: Nullable<string>): (m: ServerMessage)
    ensures m.kind == Message && m.source == source && m.dest == dest && m.text == text
    ensures m.names.Null? && m.name.Null? && m.loginAccepted.Null?
  {
    ServerMessage(Message, source, dest, text, Null, Null, Null)
  }

  /** `ServerMessage.names(names, dest)`: the name set and the destination only. */
  function MakeNames(names: Nullable<set<string>>, dest: Nullable<string>): (m: ServerMessage)
    ensures m.kind == Names && m.names == names && m.dest == dest
    ensures m.source.Null? && m.text.Null? && m.name.Null? && m.loginAccepted.Null?
  {
    ServerMessage(Names, Null, dest, Null, names, Null, Null)
  }

  /** `ServerMessage.clientJoined(name)`: only `name`; the null destination means everyone. */
  function MakeClientJoined(name: Nullable<string>): (m: ServerMessage)
    ensures m.kind == ClientJoined && m.name == name
    ensures m.source.Null? && m.dest.Null? && m.text.Null? && m.names.Null? && m.loginAccepted.Null?
  {
    ServerMessage(ClientJoined, Null, Null, Null, Null, name, Null)
  }

  /** `ServerMessage.clientLeft(name)`: only `name`; the null destination means everyone. */
  function MakeClientLeft(name: Nullable<string>): (m: ServerMessage)
    ensures m.kind == ClientLeft && m.name == name
    ensures m.source.Null? && m.dest.Null? && m.text.Null? && m.names.Null? && m.loginAccepted.Null?
  {
    ServerMessage(ClientLeft, Null, Null, Null, Null, name, Null)
  }

  /** `AbstractCollection.toString` of a `HashSet`, in its iteration order. */
  function JoinNames(order: seq<string>): string
    decreases |order|
  {
    if order == [] then ""
    else if |order| == 1 then order[0]
    else order[0] + ", " + JoinNames(order[1..])
  }

  /** The head of `toString()`: the type, then the source and the destination,
      each written as "Server" when null. */
  function Header(m: ServerMessage): string
  {
    "ServerMessage{type: " + KindName(m.kind) +
    (if m.source.Null? then "Server" else ", from: '" + m.source.value + "'") +
    (if m.dest.Null? then "Server" else ", to: '" + m.dest.value + "'")
  }

  /** The optional tail of `toString()`: each part only when its field is non-null. */
  ghost function Tail(m: ServerMessage): string
  {
    (if m.text.Null? then "" else ", message: '" + m.text.value + "'") +
    (if m.names.Null? then "" else ", names: [" + JoinNames(Messages.SomeEnumeration(m.names.value)) + "]") +
    (if m.name.Null? then "" else ", source: " + m.name.value) +
    (if m.loginAccepted.Null? then "" else ", loginAccepted=" + (if m.loginAccepted.value then "true" else "false"))
  }

  /** `toString()`. */
  ghost function ToString(m: ServerMessage): string
  {
    Header(m) + Tail(m) + "}"
  }

  /** When the message, names, name and login-flag fields are all null the
      text is the header alone; each non-null one adds text. */
  lemma ToStringAddsOnlyNonNullParts(m: ServerMessage)
    ensures m.text.Null? && m.names.Null? && m.name.Null? && m.loginAccepted.Null? <==> ToString(m) == Header(m) + "}"
  {
    var t1 := if m.text.Null? then "" else ", message: '" + m.text.value + "'";
    var t2 := if m.names.Null? then "" else ", names: [" + JoinNames(Messages.SomeEnumeration(m.names.value)) + "]";
    var t3 := if m.name.Null? then "" else ", source: " + m.name.value;
    var t4 := if m.loginAccepted.Null? then "" else ", loginAccepted=" + (if m.loginAccepted.value then "true" else "false");
    assert Tail(m) == t1 + t2 + t3 + t4;
    assert |ToString(m)| == |Header(m)| + |t1| + |t2| + |t3| + |t4| + 1;
  }

  /** A join or leave notice shows the name after the header, and a login
      request shows nothing after it. */
  lemma FactoryTexts(n: string)
    ensures ToString(MakeLoginRequest()) == Header(MakeLoginRequest()) + "}"
    ensures ToString(MakeClientJoined(Val(n))) == Header(MakeClientJoined(Val(n))) + ", source: " + n + "}"
    ensures ToString(MakeClientLeft(Val(n))) == Header(MakeClientLeft(Val(n))) + ", source: " + n + "}"
  {
    assert Tail(MakeLoginRequest()) == "";
    assert Tail(MakeClientJoined(Val(n))) == ", source: " + n;
    assert Tail(MakeClientLeft(Val(n))) == ", source: " + n;
  }
}
