# CN-Ex4-Chat in Dafny

A model of the Java chat system `my_chat`. It has two chat servers, `ChatServer` and
`NewChatServer` (with its per-connection `ChatHandler`), a client (`ChatClient`), and the
two console front ends (`CommandLineClient` and `CommandLineServer`). They exchange the
message classes of `my_chat.message_types`.

The model is split by the form the Java code takes.

- **Pure code becomes functions and lemmas.**
  - The message classes and their `toString` texts live in `Messages`.
  - The `ClientMessage` and `ServerMessage` records and their factories live in
    `ClientMessages` and `ServerMessages`.
  - The Java string operations the code relies on live in `JavaText`: `trim`,
    `toLowerCase`, `startsWith`, `indexOf`, `substring` (with its exceptions) and the
    name pattern `\w+`.
  - All three `isValidName` methods match `ChatServer.nameRegexPattern`, so all three
    are `JavaText.IsValidName`.
- **Objects whose fields change become classes.**
  - `ChatServer.ChatServer`, `ChatServer.Handler`, `NewChatServer.NewChatServer`,
    `NewChatServer.ChatHandler` and `ChatClient.ChatClient` hold the Java fields.
  - Their methods are proved to change those fields exactly as a function on a state
    value says. Those functions live in `ChatServerSpec`, `NewChatServerSpec` and
    `ChatClientSpec`.
  - The lemmas about what the system promises are proved on those functions.
- **Loops are methods with loop invariants.** This covers:
  - the server's per-client send loop;
  - the login and message loops of both handlers;
  - the client's login and receive loops;
  - `NewChatServer.send`'s loop over the users;
  - `NewChatServer.stop`'s loop;
  - the console loops.

  Each loop is proved equal to a fold of a one-step function over what the loop reads.

Java's values are written out explicitly:

- `Nullable<T>` is a Java reference that may be null.
- `Outcome<T>` is a call that returns normally or throws.

The network is modelled as follows:

- A socket's output stream is an `Id`.
- A successful write appends a `Delivery` to the server's `outbox`, or appends to the
  client's `sent` list.
- A write fails when its stream is in the caller-given `broken` set, or has been closed.
- What a read returns is an `Incoming` value: a message object, a foreign object, an
  `IOException` or a `ClassNotFoundException`.
- Listener callbacks (`messageReceived`, `messageSent`, `stat`) are appended to a ghost
  `events` log.

The model follows the code where the code and its documentation differ. In particular:

- `ChatServer.sendMessage` throws a `NullPointerException` on a message whose destination
  is null while any client is registered. Such a message arises from a name request from
  a null name.
- The server's broadcasts are addressed to "<all>", which no client can be named, so
  they reach no client.
- `NewChatServer.stop` throws when `start()` never ran.
- The client's `stop()` never resets `running`.
- The server console's broadcast keeps the ':' in the text.

## Model

| member | source | states |
|---|---|---|
| JavaText.ValidNameIsWordPlus | src/my_chat/serverside/ChatServer.java:26 | a valid name is exactly one word character followed by a (possibly empty) run of word characters, the two halves of the `\w+` pattern |
| JavaText.NameHasNoSeparators | src/my_chat/serverside/ChatServer.java:319-322 | a name accepted by `isValidName` contains no space, '<', ':' or '.', so it can never equal a sentinel and survives every separator the texts use |
| JavaText.Trim | src/my_chat/interfaces/command_line/client/CommandLineClient.java:64 | `trim()` never lengthens its input, and its result neither starts nor ends with a character <= ' ' |
| JavaText.TrimIsSlice | src/my_chat/interfaces/command_line/client/CommandLineClient.java:64 | the result of `trim()` is a contiguous slice of its input, and every character cut away on either side is <= ' ' |
| JavaText.TrimEmptyIffBlank | src/my_chat/clientside/ChatClient.java:108 | a name trims to "" exactly when every character of it is <= ' ' |
| JavaText.TrimIdempotent | src/my_chat/interfaces/command_line/client/CommandLineClient.java:64-74 | trimming twice gives what trimming once gives, so the console's second `trim()` of a slice changes nothing more |
| JavaText.TrimOfPadded | src/my_chat/interfaces/command_line/client/CommandLineClient.java:64 | padding a solid text with blanks on either side trims back to the text |
| JavaText.ToLowerAppend | src/my_chat/interfaces/command_line/client/CommandLineClient.java:65 | lower-casing distributes over concatenation, so a line's lower-cased prefix is the prefix's lower case |
| JavaText.IndexOf | src/my_chat/interfaces/command_line/client/CommandLineClient.java:67 | `indexOf(c)` is -1 exactly when `c` is absent, and otherwise the position of the first `c` |
| JavaText.IndexOfUnique | src/my_chat/interfaces/command_line/client/CommandLineClient.java:67 | a position that holds `c` with no `c` before it is exactly where `indexOf(c)` points |
| JavaText.IndexOfFirst | src/my_chat/interfaces/command_line/server/CommandLineServer.java:32 | in a text whose first part has no `c`, `indexOf(c)` finds the `c` right after that part |
| JavaText.SubstringFrom | src/my_chat/interfaces/command_line/server/CommandLineServer.java:33 | `substring(b)` returns normally exactly when 0 <= b <= length, and otherwise throws |
| JavaText.Substring | src/my_chat/interfaces/command_line/client/CommandLineClient.java:73 | `substring(b, e)` returns normally exactly when 0 <= b <= e <= length, and otherwise throws |
| Messages.NewChatMessage | src/my_chat/message_types/ChatMessage.java:10-24 | the constructor replaces a null source by "<server>" and a null destination by "<all>", keeps everything else, and so the getters never return null |
| Messages.ClientJoined | src/my_chat/message_types/ClientJoinedMessage.java:8-11 | a join notice is a broadcast from "<server>" to "<all>" whose text is "<name has logged in>" |
| Messages.ClientLeft | src/my_chat/message_types/ClientLeftMessage.java:8-11 | a leave notice is a broadcast from "<server>" to "<all>" whose text is "<name has left>" |
| Messages.ServerOriginated | src/my_chat/message_types/LoginResponseMessage.java:38-47 | every message a client does not send has source "<server>"; only a chat message is both a client and a server message; a broadcast is neither |
| Messages.LoginResponseTextClassifies | src/my_chat/message_types/LoginResponseMessage.java:20-35 | the response text says "Login accepted as" exactly when accepted (ignoring `nameExists`), and a rejection ends with ". That name already exists" exactly when the name exists, with ". That name is invalid" otherwise |
| Messages.LoginTextCarriesName | src/my_chat/message_types/LoginMessage.java:18-27 | the log-in text ends with the name, and the log-out text starts with it and ends with " is logging out" |
| Messages.BroadcastTextRoundTrip | src/my_chat/message_types/BroadcastMessage.java:16-19 | a broadcast text is its message between '<' and '>', and stripping those gives the message back |
| Messages.InvalidUserTextNamesUser | src/my_chat/message_types/InvalidUserMessage.java:29-32 | the text names the missing user and never the recipient; two texts are equal exactly when they name the same user |
| Messages.ChatTextStartsWithSource | src/my_chat/message_types/ChatMessage.java:27-30 | the first space of a chat text ends its source when the source has no space in it |
| Messages.SplitSpacedCons | src/my_chat/message_types/NameListMessage.java:21-32 | splitting a space-free word, a space and a rest gives the word followed by the split of the rest |
| Messages.SpacedRoundTrip | src/my_chat/message_types/NameListMessage.java:21-32 | space-terminated words without spaces split back into the same words |
| Messages.NameListListsEachNameOnce | src/my_chat/message_types/NameListMessage.java:14-32 | a name list over valid names reads "All clients: " followed by each name exactly once, in any enumeration order of the set |
| ClientMessages.MakeLogin | src/my_chat/message_types/ClientMessage.java:38-41 | the factory makes a LOGIN message from the source, with no destination and no text |
| ClientMessages.MakeLogout | src/my_chat/message_types/ClientMessage.java:43-46 | the factory makes a LOGOUT message from the source, with no destination and no text |
| ClientMessages.MessageAll | src/my_chat/message_types/ClientMessage.java:48-51 | the factory makes a MESSAGE with the given source and text and a null destination |
| ClientMessages.MessageOne | src/my_chat/message_types/ClientMessage.java:53-56 | the factory makes a MESSAGE with the given source, destination and text |
| ClientMessages.MakeListNames | src/my_chat/message_types/ClientMessage.java:58-61 | the factory makes a LIST_NAMES message from the source, with no destination and no text |
| ClientMessages.FactoryDetails | src/my_chat/message_types/ClientMessage.java:69-100 | the detail text of each factory's message, including "Server" standing in for a null source and "Everyone" for a message to all |
| ClientMessages.MessageOneGeneralisesMessageAll | src/my_chat/message_types/ClientMessage.java:48-56 | a one-recipient message with a null destination is the message-to-all, as are their texts |
| ServerMessages.MakeLoginRequest | src/my_chat/message_types/ServerMessage.java:102-105 | a LOGIN_REQUEST carries no field |
| ServerMessages.MakeLoginResponse | src/my_chat/message_types/ServerMessage.java:110-113 | a LOGIN_RESPONSE carries the verdict, text and destination, and nothing else |
| ServerMessages.MakeMessage | src/my_chat/message_types/ServerMessage.java:122-125 | a MESSAGE carries source, destination and text, and nothing else |
| ServerMessages.MakeNames | src/my_chat/message_types/ServerMessage.java:132-135 | a NAMES message carries the names and the destination, and nothing else |
| ServerMessages.MakeClientJoined | src/my_chat/message_types/ServerMessage.java:142-145 | a CLIENT_JOINED message carries only the name |
| ServerMessages.MakeClientLeft | src/my_chat/message_types/ServerMessage.java:152-155 | a CLIENT_LEFT message carries only the name |
| ServerMessages.ToStringAddsOnlyNonNullParts | src/my_chat/message_types/ServerMessage.java:157-168 | `toString` is the bare header exactly when every optional field is null |
| ServerMessages.FactoryTexts | src/my_chat/message_types/ServerMessage.java:102-168 | the texts of a login request and of the join and leave notices |
| ChatServerSpec.Unregister | src/my_chat/serverside/ChatServer.java:428-433 | removing a name keeps every other registration unchanged and leaves the name unregistered |
| ChatServerSpec.SentinelsAreNotNames | src/my_chat/serverside/ChatServer.java:319-322 | "<all>", "<server>" and "<new_client>" are not valid names, so no client can register under them |
| ChatServerSpec.SendMessageTo | src/my_chat/serverside/ChatServer.java:390-408 | the result is false with nothing sent to an unknown or null name; the call throws exactly when the addressee is registered but the message's destination is null or unregistered; it is true exactly when one message went out, to the addressee's stream, with only the outbox changed |
| ChatServerSpec.SendEach | src/my_chat/serverside/ChatServer.java:362-372 | the per-client loop changes only the outbox |
| ChatServerSpec.SendMessage | src/my_chat/serverside/ChatServer.java:358-381 | the message is logged; a message to a registered name goes to it alone, and one to an unknown name reaches nobody and returns false; a null destination throws exactly when some client is registered |
| ChatServerSpec.NullDestThrowsAtFirstName | src/my_chat/serverside/ChatServer.java:362-372 | with a null destination, the loop throws at its first client, before anything is written |
| ChatServerSpec.SendEachStep | src/my_chat/serverside/ChatServer.java:362-372 | one more visited name adds that name's `sendMessageTo` to the loop, combining the results with "and" unless it throws |
| ChatServerSpec.SendEachMatchesSendMessage | src/my_chat/serverside/ChatServer.java:358-381 | the loop over the clients computes exactly what `sendMessage` returns |
| ChatServerSpec.BroadcastsReachNobody | src/my_chat/serverside/ChatServer.java:124-133 | a broadcast (destination "<all>") reaches no client, since no client can be named "<all>" |
| ChatServerSpec.ClientConnected | src/my_chat/serverside/ChatServer.java:274-312 | a valid unused name is registered on its stream and a join notice is logged; a failed response write leaves the name unregistered; otherwise the response goes to the new stream and the clients are unchanged |
| ChatServerSpec.MessageReceived | src/my_chat/serverside/ChatServer.java:329-350 | it never changes registrations; a name request is answered with the current name set; a chat to a registered name is forwarded, and one to an unknown name is answered with an invalid-user message; it throws exactly for a name request from a null name while some client is registered |
| ChatServerSpec.ChatRouting | src/my_chat/serverside/ChatServer.java:338-348 | a chat reaches its addressee's stream when the addressee is registered, and otherwise goes back to the sender as an invalid-user notice |
| ChatServerSpec.MessageToAllBouncesToSender | src/my_chat/serverside/ChatServer.java:338-348 | a client's message to all is answered to the sender alone, as "user <all> does not exist" |
| ChatServerSpec.NameListIsSnapshot | src/my_chat/serverside/ChatServer.java:335-337 | the name list sent to a client is exactly the set of registered names at that moment |
| ChatServerSpec.ClientDisconnected | src/my_chat/serverside/ChatServer.java:428-433 | the name is unregistered and a leave notice is logged, with nothing sent to a client |
| ChatServerSpec.ClientLogout | src/my_chat/serverside/ChatServer.java:416-420 | the log-out message and a leave notice are logged and the name is unregistered, with nothing sent |
| ChatServerSpec.Stop | src/my_chat/serverside/ChatServer.java:92-108 | every client stream is closed, no client stays registered and the message log is cleared; it returns normally exactly when the pool exists, and only then does it stop the server |
| ChatServerSpec.StopClosesEveryClient | src/my_chat/serverside/ChatServer.java:138-151 | after `stop()` every write to a formerly registered client fails |
| ChatServerSpec.Announce | src/my_chat/serverside/ChatServer.java:124-133 | a stopped server ignores a broadcast; a running one logs it and sends nothing to a client |
| ChatServerSpec.Terminate | src/my_chat/serverside/ChatServer.java:237-263 | ending a session leaves its name unregistered; it logs a leave notice from the catch when a read or write failed, and another from `finally` when the session has a name |
| ChatServerSpec.EndedIsFinal | src/my_chat/serverside/ChatServer.java:168-264 | once a session has ended, later inputs change nothing |
| ChatServerSpec.StepPreservesValid | src/my_chat/serverside/ChatServer.java:168-264 | one handler step keeps every registered name valid and distinct from the sentinels |
| ChatServerSpec.RunPreservesValid | src/my_chat/serverside/ChatServer.java:168-264 | a whole handler run keeps every registered name valid and distinct from the sentinels |
| ChatServerSpec.LoginOnlyByAcceptance | src/my_chat/serverside/ChatServer.java:184-214 | a session starts chatting only after a log-in message with a non-null name that the server accepted and registered on this stream |
| ChatServerSpec.LoginRequestAnswersOtherMessages | src/my_chat/serverside/ChatServer.java:184-214 | any other client message during log-in is answered with a new login request |
| ChatServerSpec.AnyLoginMessageLogsOut | src/my_chat/serverside/ChatServer.java:217-235 | any `LoginMessage` while chatting logs the session out, whatever its flag says |
| ChatServerSpec.DroppedClientLeavesTwice | src/my_chat/serverside/ChatServer.java:237-263 | a read failure while chatting unregisters the client and logs its leave notice twice, once from the catch and once from `finally` |
| ChatServer.ChatServer.constructor | src/my_chat/serverside/ChatServer.java:41-47 | a new server already counts as running (the field initialiser sets it), and has no pool and no clients |
| ChatServer.ChatServer.Start | src/my_chat/serverside/ChatServer.java:63-89 | the server is running and has its pool |
| ChatServer.ChatServer.Write | src/my_chat/serverside/ChatServer.java:390-408 | a write succeeds exactly when the stream is neither broken nor closed, and it then appends one delivery |
| ChatServer.ChatServer.Stop | src/my_chat/serverside/ChatServer.java:92-108 | the fields become `ChatServerSpec.Stop` of the old ones |
| ChatServer.ChatServer.Broadcast | src/my_chat/serverside/ChatServer.java:124-133 | the fields become `ChatServerSpec.Announce` of the old ones |
| ChatServer.ChatServer.CloseAndClearClients | src/my_chat/serverside/ChatServer.java:138-151 | every client stream is closed and the map emptied |
| ChatServer.ChatServer.SendMessageTo | src/my_chat/serverside/ChatServer.java:390-408 | it agrees with `ChatServerSpec.SendMessageTo` |
| ChatServer.ChatServer.SendToEachClient | src/my_chat/serverside/ChatServer.java:362-372 | the loop visits registered names in some order, which enumerates them all when it finishes, and agrees with `ChatServerSpec.SendEach` |
| ChatServer.ChatServer.SendMessage | src/my_chat/serverside/ChatServer.java:358-381 | it agrees with `ChatServerSpec.SendMessage` |
| ChatServer.ChatServer.ClientConnected | src/my_chat/serverside/ChatServer.java:274-312 | it agrees with `ChatServerSpec.ClientConnected` |
| ChatServer.ChatServer.MessageReceived | src/my_chat/serverside/ChatServer.java:329-350 | it agrees with `ChatServerSpec.MessageReceived` |
| ChatServer.ChatServer.ClientDisconnected | src/my_chat/serverside/ChatServer.java:428-433 | it agrees with `ChatServerSpec.ClientDisconnected` and returns true |
| ChatServer.ChatServer.ClientLogout | src/my_chat/serverside/ChatServer.java:416-420 | it agrees with `ChatServerSpec.ClientLogout` and returns true |
| ChatServer.Handler.constructor | src/my_chat/serverside/ChatServer.java:163-166 | a handler starts with no name on its stream |
| ChatServer.Handler.Terminate | src/my_chat/serverside/ChatServer.java:237-263 | it agrees with `ChatServerSpec.Terminate` |
| ChatServer.Handler.LoginRead | src/my_chat/serverside/ChatServer.java:184-214 | one pass of the log-in loop agrees with `ChatServerSpec.LoginStep` |
| ChatServer.Handler.ChatRead | src/my_chat/serverside/ChatServer.java:217-235 | one pass of the message loop agrees with `ChatServerSpec.ChatStep` |
| ChatServer.Handler.Run | src/my_chat/serverside/ChatServer.java:168-264 | both loops together agree with the fold `ChatServerSpec.Run` over the inputs read |
| NewChatServerSpec.SendOn | src/my_chat/serverside/NewChatServer.java:244-254 | one delivery is appended exactly when the stream is neither broken nor closed, and nothing else changes |
| NewChatServerSpec.SendAll | src/my_chat/serverside/NewChatServer.java:183-189 | the loop over the users changes only the outbox, keeping what was there and appending at most one delivery per user visited |
| NewChatServerSpec.Send | src/my_chat/serverside/NewChatServer.java:178-202 | it throws exactly for an unknown destination from an unknown or null source; otherwise it changes only the outbox, to the addressee's stream, or back to the source as an invalid-user notice |
| NewChatServerSpec.SendAllStep | src/my_chat/serverside/NewChatServer.java:183-189 | one more visited user adds one `sendOn` to that user's stream |
| NewChatServerSpec.SendAllWritesOnlyToUsers | src/my_chat/serverside/NewChatServer.java:183-189 | the loop writes only the message itself, only to streams of visited users, and only to streams that work |
| NewChatServerSpec.SendAllLast | src/my_chat/serverside/NewChatServer.java:183-189 | the loop's last step writes at most one delivery, to the last user |
| NewChatServerSpec.SendAllReachesEachUser | src/my_chat/serverside/NewChatServer.java:183-189 | every visited user whose stream works receives the message |
| NewChatServerSpec.SendAllWritesEachStreamOnce | src/my_chat/serverside/NewChatServer.java:183-189 | no stream receives the message twice |
| NewChatServerSpec.BroadcastReachesEveryUser | src/my_chat/serverside/NewChatServer.java:178-202 | a message to "<all>" (or to null) reaches each user with a working stream exactly once and no one else |
| NewChatServerSpec.Login | src/my_chat/serverside/NewChatServer.java:264-277 | it throws exactly for a null name; an invalid name is refused as invalid, a taken name as existing, and otherwise the name is registered on the stream and accepted |
| NewChatServerSpec.LoginKeepsStreamsDistinct | src/my_chat/serverside/NewChatServer.java:263-277 | a login on a stream no user holds yet keeps every user's stream distinct, which `BroadcastReachesEveryUser` requires |
| NewChatServerSpec.LoginAgreesWithChatServer | src/my_chat/serverside/NewChatServer.java:264-277 | both servers give the same verdict on the same name and registrations |
| NewChatServerSpec.RemoveUser | src/my_chat/serverside/NewChatServer.java:321-338 | a registered name is unregistered and its stream closed; any other name changes nothing |
| NewChatServerSpec.MessageReceived | src/my_chat/serverside/NewChatServer.java:285-298 | a log-out message removes its name and is reported; every other message changes nothing |
| NewChatServerSpec.Disconnected | src/my_chat/serverside/NewChatServer.java:305-312 | a running server removes the user; a stopped one changes nothing |
| NewChatServerSpec.Stop | src/my_chat/serverside/NewChatServer.java:207-231 | afterwards the server is stopped, no user is registered and every user's stream is closed; it returns normally exactly when the pool exists |
| NewChatServerSpec.OverIsFinal | src/my_chat/serverside/ChatHandler.java:44-106 | once the handler is over, later inputs change nothing |
| NewChatServerSpec.LoginPassFacts | src/my_chat/serverside/ChatHandler.java:52-78 | a log-in pass sends a login request, then logs in only through an accepted name registered on this stream |
| NewChatServerSpec.ReadFailureLeavesUserRegistered | src/my_chat/serverside/ChatHandler.java:97-105 | a read failure ends the handler without unregistering its user |
| NewChatServerSpec.LogoutRemovesNamedSource | src/my_chat/serverside/ChatHandler.java:80-95 | a log-out message naming another user removes that user, not the sender, and ends this handler |
| NewChatServer.NewChatServer.constructor | src/my_chat/serverside/NewChatServer.java:78 | a new server is not running, has no pool and no users |
| NewChatServer.NewChatServer.Start | src/my_chat/serverside/NewChatServer.java:139-146 | the server is running and has its pool |
| NewChatServer.NewChatServer.SendOn | src/my_chat/serverside/NewChatServer.java:244-254 | it agrees with `NewChatServerSpec.SendOn` |
| NewChatServer.NewChatServer.Send | src/my_chat/serverside/NewChatServer.java:178-202 | it visits the users in some enumeration of the names and agrees with `NewChatServerSpec.Send` for it, changing nothing when it throws |
| NewChatServer.NewChatServer.Login | src/my_chat/serverside/NewChatServer.java:264-277 | it agrees with `NewChatServerSpec.Login`, changing nothing when it throws |
| NewChatServer.NewChatServer.MessageReceived | src/my_chat/serverside/NewChatServer.java:285-298 | it agrees with `NewChatServerSpec.MessageReceived` |
| NewChatServer.NewChatServer.Disconnected | src/my_chat/serverside/NewChatServer.java:305-312 | it agrees with `NewChatServerSpec.Disconnected` |
| NewChatServer.NewChatServer.RemoveUser | src/my_chat/serverside/NewChatServer.java:321-338 | it agrees with `NewChatServerSpec.RemoveUser` |
| NewChatServer.NewChatServer.Stop | src/my_chat/serverside/NewChatServer.java:207-231 | the loop removing users one at a time agrees with `NewChatServerSpec.Stop` |
| NewChatServer.ChatHandler.constructor | src/my_chat/serverside/ChatHandler.java:26-30 | a handler starts with no name, not logged in |
| NewChatServer.ChatHandler.HandleLoginRead | src/my_chat/serverside/ChatHandler.java:56-78 | one read of the log-in loop agrees with `NewChatServerSpec.HandleLoginRead` |
| NewChatServer.ChatHandler.ChatRead | src/my_chat/serverside/ChatHandler.java:80-105 | one read of the message loop agrees with `NewChatServerSpec.ChatPass` |
| NewChatServer.ChatHandler.Run | src/my_chat/serverside/ChatHandler.java:44-106 | both loops together agree with the fold `NewChatServerSpec.Run` over the inputs read |
| ChatClientSpec.SendMessage | src/my_chat/clientside/ChatClient.java:206-222 | a message is written exactly when the client runs with an open stream that works, and nothing else changes |
| ChatClientSpec.UpdateName | src/my_chat/clientside/ChatClient.java:41-45 | the name is replaced and counts as updated, and nothing else changes |
| ChatClientSpec.MessageAll | src/my_chat/clientside/ChatClient.java:179-182 | one chat from the current name (or "<server>") to "<all>" is sent exactly when the client runs with an open stream that works, and otherwise nothing is |
| ChatClientSpec.MessageOne | src/my_chat/clientside/ChatClient.java:190-193 | one chat from the current name to the destination (or "<all>") is sent exactly when the client runs with an open stream that works, and otherwise nothing is |
| ChatClientSpec.ListNames | src/my_chat/clientside/ChatClient.java:198-201 | one name request under the current name is sent exactly when the client runs with an open stream that works, and otherwise nothing is |
| ChatClientSpec.Stop | src/my_chat/clientside/ChatClient.java:154-164 | the output stream is closed if it exists; `running`, the name and what was sent stay |
| ChatClientSpec.LoginRead | src/my_chat/clientside/ChatClient.java:92-112 | the loop ends exactly on an accepted response, with nothing changed; otherwise one new log-in is tried under the retry rule, after which the name no longer counts as updated |
| ChatClientSpec.RetryAtMostOncePerUpdate | src/my_chat/clientside/ChatClient.java:108-112 | one read sends at most one message, a log-in under the current name, and only after a rename, which it consumes |
| ChatClientSpec.BlankNameIsNeverTried | src/my_chat/clientside/ChatClient.java:108 | a null or blank name is never sent as a log-in |
| ChatClientSpec.OneAttemptBetweenRenames | src/my_chat/clientside/ChatClient.java:88-118 | any run of reads without a rename sends at most one log-in, and none once the name has been tried |
| ChatClientSpec.ReadsClearUpdate | src/my_chat/clientside/ChatClient.java:108-112 | after an attempt, the name no longer counts as updated |
| ChatClientSpec.LoginOnlyByAcceptedResponse | src/my_chat/clientside/ChatClient.java:98-105 | the client leaves the log-in loop only on an accepted `LoginResponseMessage`, changing nothing |
| ChatClientSpec.ClosedClientSendsNothing | src/my_chat/clientside/ChatClient.java:138-147 | once the stream is closed nothing more is sent, and the next read ends `run()` |
| ChatClient.ChatClient.constructor | src/my_chat/clientside/ChatClient.java:23-31 | a new client has the name "" (counted as updated), is not running and has no stream |
| ChatClient.ChatClient.UpdateServerAddress | src/my_chat/clientside/ChatClient.java:33-36 | only the address changes |
| ChatClient.ChatClient.UpdateName | src/my_chat/clientside/ChatClient.java:41-45 | it agrees with `ChatClientSpec.UpdateName` |
| ChatClient.ChatClient.SendMessage | src/my_chat/clientside/ChatClient.java:206-222 | it agrees with `ChatClientSpec.SendMessage` |
| ChatClient.ChatClient.MessageAll | src/my_chat/clientside/ChatClient.java:179-182 | it agrees with `ChatClientSpec.MessageAll` |
| ChatClient.ChatClient.MessageOne | src/my_chat/clientside/ChatClient.java:190-193 | it agrees with `ChatClientSpec.MessageOne` |
| ChatClient.ChatClient.ListNames | src/my_chat/clientside/ChatClient.java:198-201 | it agrees with `ChatClientSpec.ListNames` |
| ChatClient.ChatClient.Stop | src/my_chat/clientside/ChatClient.java:154-164 | it agrees with `ChatClientSpec.Stop` |
| ChatClient.ChatClient.Perform | src/my_chat/clientside/ChatClient.java:154-201 | a request made while `run()` loops agrees with `ChatClientSpec.Perform` |
| ChatClient.ChatClient.Handle | src/my_chat/clientside/ChatClient.java:88-136 | one event seen by either loop agrees with `ChatClientSpec.Step` |
| ChatClient.ChatClient.Run | src/my_chat/clientside/ChatClient.java:72-149 | `run()` agrees with the fold of `ChatClientSpec.Step` over the events it consumed, and returns before the events run out only once stopped |
| CommandLineClient.Numeral | src/my_chat/interfaces/command_line/client/CommandLineClient.java:17-21 | the decimal numeral of a number is nonempty, all digits and has no leading zero |
| CommandLineClient.NumeralValue | src/my_chat/interfaces/command_line/client/CommandLineClient.java:17-21 | reading back a number's numeral gives the number |
| CommandLineClient.ValueNumeral | src/my_chat/interfaces/command_line/client/CommandLineClient.java:17-21 | a canonical numeral is the numeral of its value |
| CommandLineClient.OctetPatternIsNumeral | src/my_chat/interfaces/command_line/client/CommandLineClient.java:18 | the octet alternatives match exactly the canonical numerals of 0 to 255 |
| CommandLineClient.JoinFields | src/my_chat/interfaces/command_line/client/CommandLineClient.java:17-21 | re-joining the dot-separated fields gives the text back |
| CommandLineClient.FieldsOfJoinAll | src/my_chat/interfaces/command_line/client/CommandLineClient.java:17-21 | splitting dot-free fields joined with dots gives the fields back |
| CommandLineClient.AddressesAreDottedOctets | src/my_chat/interfaces/command_line/client/CommandLineClient.java:17-21 | the address pattern accepts a text exactly when it is four numbers 0 to 255 written canonically and joined by dots |
| CommandLineClient.DottedRoundTrip | src/my_chat/interfaces/command_line/client/CommandLineClient.java:17-21 | any four octets written as a dotted address are accepted and read back as themselves |
| CommandLineClient.CheckArgs | src/my_chat/interfaces/command_line/client/CommandLineClient.java:27-36 | start-up refuses exactly an empty argument list, and connects only to the first argument |
| CommandLineClient.StartsForLocalhostOrDottedOctets | src/my_chat/interfaces/command_line/client/CommandLineClient.java:27-36 | the client starts exactly when the first argument is "localhost" or a dotted IPv4 address |
| CommandLineClient.Classify | src/my_chat/interfaces/command_line/client/CommandLineClient.java:65-85 | the lower-cased prefix picks the command, tested in order: "message all" gives a message to everyone, "message" a private message (or a throw when there is no ':'), "list" the name list, "logout" a log-out, and anything else "Invalid Syntax"; a private destination holds no ':' and every text is trimmed |
| CommandLineClient.AfterColon | src/my_chat/interfaces/command_line/client/CommandLineClient.java:67-68 | the text after the first ':' is trimmed, and is the whole trimmed line when there is no ':' |
| CommandLineClient.Private | src/my_chat/interfaces/command_line/client/CommandLineClient.java:70-75 | a "message" line throws exactly when it has no ':', and otherwise names a destination without ':' and a trimmed text |
| CommandLineClient.Parse | src/my_chat/interfaces/command_line/client/CommandLineClient.java:64-85 | the line is trimmed, then its lower-cased prefix picks the command in the order "message all", "message" (throwing without a ':'), "list", "logout", else "Invalid Syntax"; a private destination holds no ':' and every text is trimmed |
| CommandLineClient.ColonAfterKeyword | src/my_chat/interfaces/command_line/client/CommandLineClient.java:72-73 | in a line starting with "message" the first ':' is at or after position 7, so `substring(7, i)` never throws for a negative length |
| CommandLineClient.MessageAllText | src/my_chat/interfaces/command_line/client/CommandLineClient.java:65-69 | "message all" sends the whole trimmed line when it has no ':', and otherwise the trimmed text after the first ':' |
| CommandLineClient.ParseOfPrivateLine | src/my_chat/interfaces/command_line/client/CommandLineClient.java:70-75 | a trimmed "message" line that is not "message all" sends the trimmed text after the first ':' to the trimmed name between position 7 and that ':' |
| CommandLineClient.ParseOfPublicLine | src/my_chat/interfaces/command_line/client/CommandLineClient.java:65-69 | a trimmed "message all" line sends the trimmed text after its first ':' to everyone |
| CommandLineClient.PrivateMessageRoundTrip | src/my_chat/interfaces/command_line/client/CommandLineClient.java:70-75 | "message NAME: TEXT" is read back as a private message of TEXT to NAME |
| CommandLineClient.AllNameLineIsPublic | src/my_chat/interfaces/command_line/client/CommandLineClient.java:65 | a "message" line to a name beginning with "all" passes the "message all" test |
| CommandLineClient.NameStartingWithAllReachesEveryone | src/my_chat/interfaces/command_line/client/CommandLineClient.java:65-75 | a private message to a name beginning with "all" (such as "allen") is read as a message to everyone |
| CommandLineClient.ConsoleNeverSeesStop | src/my_chat/interfaces/command_line/client/CommandLineClient.java:62-86 | nothing typed resets `running`, so the loop ends only when the input does or a line throws |
| CommandLineClient.NothingSentAfterLogout | src/my_chat/interfaces/command_line/client/CommandLineClient.java:79-81 | after "logout", nothing more reaches the server |
| CommandLineClient.ExecuteSendsClientRequest | src/my_chat/interfaces/command_line/client/CommandLineClient.java:65-85 | one command sends at most one message, from the client's own name |
| CommandLineClient.ConsoleSendsClientRequests | src/my_chat/interfaces/command_line/client/CommandLineClient.java:62-86 | the loop only appends chats from the client's name and name requests to what was sent |
| CommandLineClient.Launch | src/my_chat/interfaces/command_line/client/CommandLineClient.java:27-42 | a client is created exactly when the arguments pass, for the first argument, and renamed "Name" |
| CommandLineClient.ConsoleLoop | src/my_chat/interfaces/command_line/client/CommandLineClient.java:62-86 | the loop agrees with `Console` over the lines typed |
| CommandLineClient.HasNameIsLastVerdict | src/my_chat/interfaces/command_line/client/CommandLineClient.java:91-113 | `hasName` is true exactly when some accepted login response arrived and no login response came after it |
| CommandLineServer.ParseServer | src/my_chat/interfaces/command_line/server/CommandLineServer.java:25-35 | a line starting with "stop" (any case) stops; otherwise a "broadcast" line throws exactly when it has no ':', and else broadcasts the suffix that starts at its first ':'; only "broadcast" lines broadcast, and every line starting with neither keyword is ignored |
| CommandLineServer.BroadcastKeepsColon | src/my_chat/interfaces/command_line/server/CommandLineServer.java:30-35 | "broadcast…:TEXT" broadcasts ":TEXT", keeping the colon |
| CommandLineServer.LeadingSpaceIsIgnored | src/my_chat/interfaces/command_line/server/CommandLineServer.java:25-35 | lines are not trimmed: a line starting with a space is ignored |
| CommandLineServer.StopEndsConsole | src/my_chat/interfaces/command_line/server/CommandLineServer.java:27-29 | "stop" ends the loop with every client dropped, cleanly once the pool exists and by an exception before |
| CommandLineServer.ConsoleSendsNothing | src/my_chat/interfaces/command_line/server/CommandLineServer.java:23-36 | nothing typed at the server console reaches a client, and registered names stay valid |
| CommandLineServer.Launch | src/my_chat/interfaces/command_line/server/CommandLineServer.java:16 | the server is created for 100 threads; it already counts as running, but has no thread pool until `run()` creates one |
| CommandLineServer.ConsoleLoop | src/my_chat/interfaces/command_line/server/CommandLineServer.java:23-36 | the loop agrees with `Console` over the lines typed |

## Left out

- Sockets, object streams and serialization are not modelled. A stream is an opaque `Id`. A write succeeds unless the caller names the stream as broken, or it has been closed. A read yields an `Incoming` value.
- `close()` is assumed never to fail. Constructing the streams is assumed never to fail. `ChatServer`'s socket closing is folded into closing the output stream.
- The accept loops of `ChatServer.run()` and `NewChatServer.start()` are left out, as is the creation of handler threads. Only the state changes before each accept loop are modelled (`Start`).
- Concurrency is not modelled. Handlers, the client's `run()` and the console threads interleave in the Java code. In the model:
  - each loop runs against whatever state the others left;
  - requests made by other threads while the client's `run()` loops are events in its input.
- NewChatServer.Stop: the Java loop removes users from the `HashMap` while iterating over its live key set. That can throw `ConcurrentModificationException`. The model iterates over a copy of the keys, so it states only the intended post-state with every user removed.
- `in.available()` polling is left out. An arrival is one event, and busy waiting is not modelled.
- `HashMap`/`HashSet` iteration order is not modelled. Any enumeration of the set is allowed: `SomeEnumeration`, or the `order` a loop returns.
- `String.toLowerCase` is modelled for ASCII letters only.
- Regex matching is not modelled by a regex engine:
  - `\w` is ASCII letters, digits and '_'.
  - The IP pattern's `\b` anchors are read as whole-string anchors, since `Pattern.matches` matches the whole input.
- Listener callbacks (`messageReceived`, `messageSent`, `stat`) are only recorded in a ghost log. Nothing is proved about the log.
- `toString` of the message datatypes is ghost, because a name list's text depends on a set's enumeration order.
- `ClientMain` is not part of this model. Neither are console output, `printStackTrace`, or `Scanner.nextLine` throwing at the end of input, which is modelled as the loop ending (`OutOfInput`).
- `ChatCommander`, `MessageInput` and `MessageOutput` are not part of this model. Two call sites are modelled as the intended calls:
  - `ChatCommander.send` in `NewChatServer` compares the message's class with the interface `IServerMessage`, which no object's class equals, so it never calls the private `send` and always returns false. `NewChatServer.Send` models the private `send` as if that call were reached.
  - `ChatHandler` calls a one-argument `login`, modelled as `login(name, out)`.
- A read that returns a null object is not modelled.
- The client's `stop()` leaves `running` true. This is the code's behaviour. The console loop therefore never observes it (`ConsoleNeverSeesStop`).
