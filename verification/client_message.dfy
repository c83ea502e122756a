/** `ClientMessage`: the older, single-class representation of what a
    client sends, built only through its static factories. */
module ClientMessages {
  import opened JavaText

  /** `ClientMessage.Type`. */
  datatype Kind = Login | Logout | Message | ListNames

  /** `Type.toString()`: the enum constant's name. */
  function KindName(k: Kind): string
  {
    match k
    case Login => "Login"
    case Logout => "Logout"
    case Message => "Message"
    case ListNames => "ListNames"
  }

  /** The four fields of a `ClientMessage`; `dest == null` means everyone. */
  datatype ClientMessage = ClientMessage(kind: Kind, source: Nullable<string>, dest: Nullable<string>, text: Nullable<string>)

  /** `ClientMessage.login(source)`: no destination and no text. */
  function MakeLogin(source: Nullable<string>): (m: ClientMessage)
    ensures GetType(m) == Login && m.source == source
    ensures m.dest.Null? && m.text.Null?
  {
    ClientMessage(Login, source, Null, Null)
  }

  /** `ClientMessage.logout(source)`: no destination and no text. */
  function MakeLogout(source: Nullable<string>): (m: ClientMessage)
    ensures GetType(m) == Logout && m.source == source
    ensures m.dest.Null? && m.text.Null?
  {
    ClientMessage(Logout, source, Null, Null)
  }

  /** `ClientMessage.messageAll(source, message)`: a null destination, meaning everyone. */
  function MessageAll(source: Nullable<string>, text: Nullable<string>): (m: ClientMessage)
    ensures GetType(m) == Message && m.source == source
    ensures m.dest.Null? && m.text == text
  {
    ClientMessage(Message, source, Null, text)
  }

  /** `ClientMessage.messageOne(source, dest, message)`: the destination is kept. */
  function MessageOne(source: Nullable<string>, dest: Nullable<string>, text: Nullable<string>): (m: ClientMessage)
    ensures GetType(m) == Message && m.source == source
    ensures m.dest == dest && m.text == text
  {
    ClientMessage(Message, source, dest, text)
  }

  /** `ClientMessage.listNames(source)`: no destination and no text. */
  function MakeListNames(source: Nullable<string>): (m: ClientMessage)
    ensures GetType(m) == ListNames && m.source == source
    ensures m.dest.Null? && m.text.Null?
  {
    ClientMessage(ListNames, source, Null, Null)
  }

  /** `getType()`. */
  function GetType(m: ClientMessage): Kind
  {
    m.kind
  }

  /** `stringDetail()`. */
  function StringDetail(m: ClientMessage): string
  {
    if m.kind == Login then Show(m.source) + " is logging in"
    else if m.kind == Logout then Show(m.source) + " is logging out"
    else
      var from := if m.source.Null? then "Server" else m.source.value;
      var to := if m.dest.Null? then "Everyone" else m.dest.value;
      from + " to " + to + ": " + Show(m.text)
  }

  /** `toString()`: the text part is present only when the text is non-null. */
  function ToString(m: ClientMessage): string
  {
    "ClientMessage{type=" + KindName(m.kind) +
    ", source='" + Show(m.source) + "'" +
    ", dest='" + Show(m.dest) + "'" +
    (if m.text.Null? then "" else ", message='" + m.text.value + "'") +
    "}"
  }

  /** What each factory's message says about itself: log-in and log-out
      name only their source; a message to all is addressed to "Everyone";
      a message to one names its destination; a name-list request reads as a
      text-less message to everyone. A null source reads as "Server". */
  lemma FactoryDetails(source: Nullable<string>, dest: string, text: Nullable<string>)
    ensures StringDetail(MakeLogin(source)) == Show(source) + " is logging in"
    ensures StringDetail(MakeLogout(source)) == Show(source) + " is logging out"
    ensures var from := if source.Null? then "Server" else source.value;
      && StringDetail(MessageAll(source, text)) == from + " to Everyone: " + Show(text)
      && StringDetail(MessageOne(source, Val(dest), text)) == from + " to " + dest + ": " + Show(text)
      && StringDetail(MakeListNames(source)) == from + " to Everyone: null"
  {
    var from := if source.Null? then "Server" else source.value;
    assert from + " to " + "Everyone" + ": " == from + " to Everyone: ";
  }

  /** The two factories for chat text differ only in the destination, and
      `messageOne` with a null destination is `messageAll`. */
  lemma MessageOneGeneralisesMessageAll(source: Nullable<string>, text: Nullable<string>)
    ensures MessageOne(source, Null, text) == MessageAll(source, text)
    ensures StringDetail(MessageOne(source, Null, text)) == StringDetail(MessageAll(source, text))
  {
  }
}
