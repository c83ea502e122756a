/** What the servers and the client see of their sockets: output streams are
    abstract identities, a successful write appends a delivery to an outbox,
    and a blocking read yields one incoming item. */
module Transport {
  import opened Messages

  /** An `ObjectOutputStream` to one connection. */
  type Id = nat

  /** One object written to one stream. */
  datatype Delivery = Delivery(to: Id, msg: Message)

  /** What one `readObject()` yields: a message, an object of some other
      class, or an exception. */
  datatype Incoming =
    | Obj(m: Message)
    | Foreign
    | IoFailure
    | ClassFailure

  /** One read, with the set of streams whose writes fail (throw
      `IOException`) while the item read is handled. */
  datatype Input = Input(item: Incoming, broken: set<Id>)

  /** The `ChatListener` callbacks. */
  datatype Event =
    | Received(m: Message)
    | Sent(m: Message)
    | Status(text: string, isError: bool)
}
