# Chat relay: a Dafny model

This project models the relay core of a small TCP chat system written in Java.
It covers the server in `app/src/ChatServer.java` and the request lines the console
client in `app/src/ChatClient.java` writes.

The relay works like this:

- It accepts connections. Each connection gets a `ClientHandler`.
- Each handler first runs a handshake loop. There, `REGISTER user password` stores
  an account and `LOGIN user password` checks one.
- A successful login does four things in order:
  1. it adds the handler to the shared handler list;
  2. it delivers and deletes the private messages stored for that user;
  3. it announces `SERVER: <user> has joined the chat!`;
  4. it enters the message loop.
- In the message loop:
  - `PUBLIC <text>` is broadcast to every listed handler with a different username.
  - `PRIVATE <recipient> <body>` goes to the first listed handler with that username
    when the recipient is online. Otherwise it is stored in the `private_messages` table.
- When the stream ends or reading fails, the handler leaves the list. Only a failure
  announces `... has left the chat!`.

The model is split into these modules:

- `JavaString` gives the two forms of `String.split` the relay uses, with their exact
  Java semantics.
  - `split(" ")` drops trailing empty pieces and returns a line without a space whole.
  - `split(" ", 3)` keeps the rest of the line verbatim.
- `Protocol` decodes one line into a request (`DecodeHandshake`, `DecodeChat`) and gives
  the exact text of every line the relay writes.
  - An index that Java would find out of bounds becomes a `HandshakeCrash` or
    `ChatCrash` request.
- `Client` holds the client's encoders and reply checks. It also holds the start-up menu
  as the list of request lines the menu sends, and round-trip lemmas against the
  relay's decoders.
- `Routing` gives value-level specifications of the shared state:
  - the registry is the ordered handler list, as `seq<Session>`;
  - each handler's outbox is the lines written to its socket;
  - the mailbox is the `private_messages` rows, with auto-increment ids.

  It also holds the lemmas about broadcast, private routing, removal and the mailbox
  drain.
- `Server` holds the `ChatServer` class, whose fields are that state plus the `users`
  table and every handler's phase.
  - Its methods follow the Java methods loop for loop.
  - The loop methods are proved equal to the `Routing` functions. These are
    `RemoveClientHandler`, `IsUserOnline`, `BroadcastMessage`, `SendPrivateMessage`,
    `SendMessageToClientWithColor` and `DeliverStoredMessages`. The credential store
    (`AuthenticateUser`, `RegisterUser`) and the single-row table operations state
    their new state directly.
  - `Step` runs one pass of a handler's `run()`: one decoded input line, an end of
    stream, or an I/O failure. Its contract gives the full new state for each input.
    For a line, that is `HandshakeEffect` or `ChatEffect` of the decoded request.
  - `Valid()` says the registry lists each logged-in handler exactly once, under its
    username, and nothing else. It also says mailbox ids increase and stay below the
    next id.
  - These methods require and preserve `Valid()`: `Connect`, `Enroll`, `CompleteLogin`,
    `Unregister`, `EndSession`, the `Handle*` methods and `Step`, plus the constructor,
    which establishes it. The lower-level methods they call do not. For example,
    `AddClientHandler` and `RemoveClientHandler` each break it on their own. Their
    callers restore it.

Where the relay's documented intent and its code differ, the model follows the code:

- A line with too few fields crashes the handler: the handler is removed and nothing is announced.
  The line is not rejected while the session continues. A line with an unknown keyword is
  skipped instead.
- Two sessions may log in under the same username.
- The departure line is broadcast while the handler is still listed.
- On an I/O failure in the handshake, the departure line names `null` and goes to every
  listed session.

## Model

| member | source | states |
|---|---|---|
| JavaString.Split | app/src/ChatServer.java:112 | `split(" ")`: no piece holds a space; the first piece is the line's first word; only the empty line ends in an empty piece; SplitIsTrimmedFields fixes the result from the contracts of Fields and DropTrailingEmpty |
| JavaString.SplitIsTrimmedFields | app/src/ChatServer.java:112 | for every non-empty line, `split(" ")` is exactly the fields with the trailing empty ones dropped (the empty line comes back as one empty piece) |
| JavaString.Fields | app/src/ChatServer.java:112 | the pieces between single spaces; the first piece is the text before the first space |
| JavaString.DropTrailingEmpty | app/src/ChatServer.java:112 | the result is a prefix of the input; it does not end in an empty piece; only empty pieces were dropped |
| JavaString.Split3 | app/src/ChatServer.java:156 | `split(" ", 3)` gives one to three pieces; the first is the first word; the first two hold no space; joining them with single spaces gives the line back |
| JavaString.FieldsJoin | app/src/ChatServer.java:112 | splitting on every space loses nothing: joining the fields with single spaces gives the line back |
| JavaString.FieldsOfJoin | app/src/ChatServer.java:112 | splitting on every space undoes joining space-free words |
| JavaString.SplitOfJoin | app/src/ChatServer.java:112 | `split(" ")` undoes joining space-free words whose last word is non-empty |
| JavaString.FieldsAllEmpty | app/src/ChatServer.java:112 | every field is empty exactly when the line is all spaces (both directions) |
| JavaString.SplitEmpty | app/src/ChatServer.java:112-114 | `split(" ")` returns no piece exactly for a non-empty line of spaces, which makes `messageParts[0]` fail |
| JavaString.SplitOfThree | app/src/ChatServer.java:112-127 | three space-free words, the last non-empty, split back into those three words |
| JavaString.Split3OfWords | app/src/ChatServer.java:156-161 | `split(" ", 3)` of two space-free words and a rest gives those words and the rest verbatim |
| JavaString.Split3OfTwo | app/src/ChatServer.java:156-161 | `split(" ", 3)` of a word and a space-free rest gives just two pieces |
| Protocol.DecodeHandshake | app/src/ChatServer.java:111-141 | the handshake loop's reading of a line: REGISTER and LOGIN carry the second and third pieces, which hold no space; any other first word is skipped |
| Protocol.DecodeChat | app/src/ChatServer.java:155-168 | the message loop's reading of a line: PUBLIC and PRIVATE by first word, a recipient without spaces, any other first word skipped |
| Protocol.RegisterReply | app/src/ChatServer.java:118-122 | the exact reply to a registration; ReplyChecksAgree ties it to the client's check |
| Protocol.LoginReply | app/src/ChatServer.java:129-138 | the exact reply to a login; ReplyChecksAgree ties it to the client's check |
| Protocol.NameText | app/src/ChatServer.java:171-172 | a null username renders as `null` in a concatenation |
| Protocol.JoinedLine | app/src/ChatServer.java:153 | the exact announcement after a login |
| Protocol.LeftLine | app/src/ChatServer.java:172 | the exact departure announcement, naming `null` before a login |
| Protocol.PublicRelay | app/src/ChatServer.java:158 | the exact line a public message is relayed as |
| Protocol.PrivateRelay | app/src/ChatServer.java:276 | the exact line a live private message is relayed as |
| Protocol.NotFoundLine | app/src/ChatServer.java:286 | the exact not-found reply; NotFoundUnreachable shows it differs from every relayed private line |
| Protocol.StoredText | app/src/ChatServer.java:226-230 | the sender and body of a stored row as deliverStoredMessages joins them |
| Protocol.PreviousLine | app/src/ChatServer.java:260-261 | the exact green `PREVIOUS MESSAGE:` line |
| Protocol.HandshakeCrashes | app/src/ChatServer.java:111-127 | the handshake crashes exactly on a non-empty all-space line, or on a REGISTER or LOGIN line with fewer than three pieces |
| Protocol.HandshakeSkipsOtherKeywords | app/src/ChatServer.java:114-141 | a line that is not a non-empty line of spaces and whose first word is neither keyword (the empty line included) is skipped without a reply |
| Protocol.BareKeywordCrashes | app/src/ChatServer.java:156-161 | a bare `PUBLIC` or `PRIVATE` crashes the message loop |
| Protocol.PrivateWithoutBodyCrashes | app/src/ChatServer.java:159-161 | `PRIVATE <recipient>` without a body crashes the message loop |
| Protocol.PublicDecodedExactly | app/src/ChatServer.java:156-158 | a decoded PUBLIC request has text containing a space, and the line is exactly `PUBLIC ` plus that text |
| Protocol.PrivateDecodedExactly | app/src/ChatServer.java:156-161 | a decoded PRIVATE request has a space-free recipient, and the line is exactly `PRIVATE <recipient> <body>` |
| Protocol.ChatSkipsOtherKeywords | app/src/ChatServer.java:155-168 | a line whose first word is neither PUBLIC nor PRIVATE does nothing |
| Client.LoginLine | app/src/ChatClient.java:55 | the login request line; LoginRoundTrip and EmptyPasswordLoginCrashes give what the relay makes of it |
| Client.RegisterLine | app/src/ChatClient.java:78 | the register request line; RegisterRoundTrip gives what the relay makes of it |
| Client.PublicLine | app/src/ChatClient.java:121 | the public request line; PublicRoundTrip gives what the relay makes of it |
| Client.PrivateLine | app/src/ChatClient.java:129 | the private request line; PrivateRoundTrip gives what the relay makes of it |
| Client.LoginSucceeded | app/src/ChatClient.java:60 | the client's check of the login reply |
| Client.RegistrationSucceeded | app/src/ChatClient.java:83 | the client's check of the registration reply |
| Client.StartupRequests | app/src/ChatClient.java:32-41 | the request lines the start-up menu sends; StartupShape and StartupDecoded give their meaning |
| Client.StartupShape | app/src/ChatClient.java:32-41 | for any input: choice 1 sends one line; choice 2 sends one, or two only after a success reply; any other choice sends none |
| Client.LoginRoundTrip | app/src/ChatClient.java:55 | the relay decodes the client's login line into the same credentials when neither has a space and the password is non-empty |
| Client.EmptyPasswordLoginCrashes | app/src/ChatClient.java:55 | a login line with an empty password crashes the relay's handshake |
| Client.RegisterRoundTrip | app/src/ChatClient.java:78 | the relay decodes the client's register line into the same credentials when neither has a space and the password is non-empty |
| Client.PublicRoundTrip | app/src/ChatClient.java:121 | a public line is broadcast with its text exactly when the text has a space; otherwise it crashes the relay's handler |
| Client.PrivateRoundTrip | app/src/ChatClient.java:129 | a private line to a space-free recipient decodes into that recipient and the verbatim text |
| Client.ReplyChecksAgree | app/src/ChatClient.java:60-83 | the client's success checks accept the relay's success replies and reject its failure replies |
| Client.StartupDecoded | app/src/ChatClient.java:32-41 | choice 1 sends one login; choice 2 sends a registration, then a login only after a success reply; any other choice sends nothing; when the usernames and passwords hold no space and the passwords are non-empty, each line decodes into its credentials |
| Routing.Send | app/src/ChatServer.java:187-189 | one line appended to one handler's outbox |
| Routing.Differs | app/src/ChatServer.java:186 | the broadcast test: a null sender name differs from every name |
| Routing.Broadcast | app/src/ChatServer.java:183-195 | the broadcast over the registry in order; BroadcastEffect gives its meaning per outbox |
| Routing.BroadcastEffect | app/src/ChatServer.java:183-195 | a broadcast appends the message once to every listed session whose name differs from the sender's (always when the sender's name is null) and changes no other outbox |
| Routing.BroadcastToSession | app/src/ChatServer.java:183-195 | a listed session gets the broadcast exactly when its name differs from the sender's |
| Routing.FirstWithName | app/src/ChatServer.java:197-204 | the index of the first session with the name; none exactly when no session has it |
| Routing.FirstWithNameAppend | app/src/ChatServer.java:144 | after a session is appended, the first session with its name is the earlier one if any, else the new one |
| Routing.FirstSessionId | app/src/ChatServer.java:257-264 | the handler of the first session with the name, as the delivery loops pick it |
| Routing.RemoveFirst | app/src/ChatServer.java:37-39 | `ArrayList.remove(Object)` on the registry; RemoveFirstEffect gives its meaning |
| Routing.SendToFirst | app/src/ChatServer.java:254-270 | delivery to the first session with the name only, or nothing |
| Routing.SendPrivate | app/src/ChatServer.java:272-292 | live delivery to the first session with the name, or the not-found reply to the sender |
| Routing.RoutePrivate | app/src/ChatServer.java:159-167 | the PRIVATE branch: live delivery when online, one stored row otherwise; PrivateRoutingExclusive gives its meaning |
| Routing.DrainOutboxes | app/src/ChatServer.java:225-234 | the outboxes after the drain loop; DrainEffect gives its meaning per outbox |
| Routing.IndexOfHandler | app/src/ChatServer.java:37-39 | the first registry position holding the handler, or none when it is absent |
| Routing.RemoveFirstEffect | app/src/ChatServer.java:37-39 | removal keeps ids unique, drops exactly the handler's entry, keeps the rest, and does nothing for an absent handler |
| Routing.PrivateRoutingExclusive | app/src/ChatServer.java:159-167 | a message to an online user goes live only to the first session with that name and leaves the mailbox alone; one to an offline user adds exactly one row and changes no outbox |
| Routing.NotFoundUnreachable | app/src/ChatServer.java:162-163 | in sequential steps the "not found" reply of sendPrivateMessage is never written |
| Routing.RowsFor | app/src/ChatServer.java:220-225 | the rows selected for a user are exactly the stored rows addressed to them |
| Routing.RowsNotFor | app/src/ChatServer.java:219-252 | the rows left are exactly the stored rows addressed to others |
| Routing.WithoutIds | app/src/ChatServer.java:243-252 | deleting by id keeps exactly the rows whose id is not deleted |
| Routing.WithoutIdsAdd | app/src/ChatServer.java:233 | deleting rows one id at a time is deleting the set of their ids |
| Routing.DeleteDelivered | app/src/ChatServer.java:219-252 | with increasing ids, deleting every delivered row leaves exactly the rows for other users |
| Routing.RowsNotForIncreasing | app/src/ChatServer.java:233 | deleting delivered rows keeps ids increasing |
| Routing.PreviousLines | app/src/ChatServer.java:225-230 | one delivered line per stored row |
| Routing.DrainPrefix | app/src/ChatServer.java:225-234 | one more row drained is one more line to the first session with the name, and one more id deleted |
| Routing.DrainEffect | app/src/ChatServer.java:219-241 | draining sends every row, in order and formatted, to the first session with the name and to no one else |
| Routing.LoginSequence | app/src/ChatServer.java:144-153 | after login, the first session with the user's name gets the stored lines and no announcement; every session with another name gets the announcement once; nothing else changes |
| Server.UsernameOf | app/src/ChatServer.java:92 | the handler's username field: null until a login succeeds |
| Server.CloseKeepsRegistry | app/src/ChatServer.java:173-174 | removing a closing handler keeps the registry equal to the logged-in handlers; a handler still in the handshake was never listed |
| Server.LoginKeepsRegistry | app/src/ChatServer.java:129-144 | listing a handler that just logged in keeps the registry equal to the logged-in handlers |
| Server.StoreKeepsOrder | app/src/ChatServer.java:206-217 | storing a row under the next id keeps ids increasing and below the next id |
| Server.DrainKeepsOrder | app/src/ChatServer.java:219-241 | delivering a user's rows keeps ids increasing and below the next id |
| Server.ChatServer.constructor | app/src/ChatServer.java:8-16 | the relay starts with no handlers and no sessions, over the accounts and stored messages already in the database (any table with increasing ids below the next id) |
| Server.ChatServer.Connect | app/src/ChatServer.java:19-24 | a new handler with a fresh id starts in the handshake with an empty outbox |
| Server.ChatServer.AuthenticateUser | app/src/ChatServer.java:67-85 | a login succeeds only for a stored user whose stored hash matches the password's hash |
| Server.ChatServer.RegisterUser | app/src/ChatServer.java:41-65 | succeeds exactly for a new username; then stores the password's hash, after which the user authenticates; other users' logins are unchanged |
| Server.ChatServer.AddClientHandler | app/src/ChatServer.java:33-35 | appends the session to the registry |
| Server.ChatServer.RemoveClientHandler | app/src/ChatServer.java:37-39 | the registry loses the handler's first entry, as RemoveFirst states |
| Server.ChatServer.IsUserOnline | app/src/ChatServer.java:197-204 | true exactly when some listed session has the name |
| Server.ChatServer.BroadcastMessage | app/src/ChatServer.java:183-195 | the outboxes become the Broadcast of the message; BroadcastEffect gives its meaning |
| Server.ChatServer.SendPrivateMessage | app/src/ChatServer.java:272-292 | the first session with the recipient's name gets `PRIVATE <sender>: <body>`; without one, the sender gets the not-found line |
| Server.ChatServer.SendMessageToClientWithColor | app/src/ChatServer.java:254-270 | the first session with the name gets the green `PREVIOUS MESSAGE:` line; without one nothing is written |
| Server.ChatServer.StoreMessageInDatabase | app/src/ChatServer.java:206-217 | one row with the next id is appended |
| Server.ChatServer.DeleteMessageFromDatabase | app/src/ChatServer.java:243-252 | exactly the rows with that id are deleted |
| Server.ChatServer.DeliverStoredMessages | app/src/ChatServer.java:219-241 | every row for the user goes, in order, to the first session with the name, and is deleted; the table stays ordered |
| Server.ChatServer.Enroll | app/src/ChatServer.java:130-144 | the handler takes its username and joins the registry, keeping Valid |
| Server.ChatServer.CompleteLogin | app/src/ChatServer.java:144-153 | list, drain, announce: the new state is the login sequence of LoginSequence |
| Server.ChatServer.Unregister | app/src/ChatServer.java:173-176 | the handler is closed and leaves the registry, keeping Valid |
| Server.ChatServer.EndSession | app/src/ChatServer.java:170-176 | a read failure first broadcasts the departure under the handler's username; every ending then unregisters |
| Server.ChatServer.HandleRegister | app/src/ChatServer.java:114-124 | stores a new account and answers with the matching reply |
| Server.ChatServer.HandleLogin | app/src/ChatServer.java:125-153 | a wrong password is answered and the handshake goes on; the right one is answered, then the login sequence runs |
| Server.ChatServer.HandshakeEffect | app/src/ChatServer.java:110-141 | the full new state after each handshake request: register and reply, login (reply, then list, drain and announce) or failure reply, skip, or crash with no announcement |
| Server.ChatServer.HandleHandshake | app/src/ChatServer.java:110-141 | the new state is HandshakeEffect of the request; other handlers and existing accounts are untouched |
| Server.ChatServer.HandlePrivate | app/src/ChatServer.java:159-167 | the state moves as RoutePrivate says: live delivery to an online recipient, one stored row otherwise |
| Server.ChatServer.ChatEffect | app/src/ChatServer.java:155-168 | the full new state after each message-loop request: public broadcast, private routing with the next row id, skip, or crash with removal |
| Server.ChatServer.HandleChat | app/src/ChatServer.java:155-168 | the new state is ChatEffect of the request under the handler's username; the handler stays or is closed |
| Server.ChatServer.Step | app/src/ChatServer.java:104-177 | a line has the effect of the decoded request in the handler's loop; an end of stream unregisters with no announcement; an I/O failure first announces the departure; Valid is kept; only the stepping handler's phase changes; no account is lost or altered |

## Left out

- Sockets, threads and blocking reads are left out. Handler steps are atomic and
  interleave in any order.
  - The model does not capture the race between `isUserOnline` and `sendPrivateMessage`
    (`app/src/ChatServer.java:162-163`). Because the race is left out, the "not found"
    reply is never written in this model.
- Write failures are left out. So are the `catch (IOException)` blocks inside the
  routing loops and `closeEverything`. Every write succeeds.
- The `ClientHandler` constructor's I/O failure is left out.
- `SQLException` paths are left out: the credential store and the mailbox never fail.
- SQL string comparisons are modelled as exact equality (`app/src/ChatServer.java:43`,
  `:68`, `:219`). A case-insensitive collation, which the source does not rule out, would
  let registration, login and the drain match names that the routing loops' `equals`
  (`:186`, `:199`, `:259`, `:275`) tells apart.
- The drain's `SELECT` has no `ORDER BY`. The model assumes rows come back in insertion
  order.
- `PasswordUtil.hashPassword` is not part of this model. It is a deterministic function
  given to the constructor.
- Console logging (`System.out.println`) is left out, and so is the client's console
  prompting.
- The client's reader thread and its `Scanner` are left out. The client is modelled by
  the lines it writes and the checks it makes on replies. Its `null` replies are not
  modelled.
- Server.ChatServer.Step: the login success reply, the listing, the drain and the
  announcement happen in one step. In Java, other handlers may act between them.
- The server's `main` accept loop is reduced to `Connect`.
