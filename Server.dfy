/**
 * The relay itself (app/src/ChatServer.java) as a sequential state machine.
 * One ChatServer object holds what the Java program spreads over the static
 * handler list, every ClientHandler's username and writer, and the two
 * database tables. Each handler's work happens in whole steps: one input
 * line, an end of stream, or an I/O failure at a time; steps of different
 * handlers interleave in any order.
 */
module Server {
  import opened Wrappers
  import opened Protocol
  import opened Routing

  /** Where a ClientHandler's run() is: the handshake loop, the message loop, or done. */
  datatype Phase = Handshaking | Chatting(name: string) | Closed

  /** What the handler's next readLine() produces. */
  datatype Input = Line(text: string) | EndOfStream | IOFailure

  /** The handler's username field: null until a login succeeds. */
  function UsernameOf(p: Phase): Option<string>
  {
    if p.Chatting? then Some(p.name) else None
  }

  /** The registry lists, once each, exactly the handlers in the message loop, under their usernames. */
  ghost predicate RegistryMatches(reg: seq<Session>, handlers: map<HandlerId, Phase>)
  {
    && UniqueIds(reg)
    && (forall k :: 0 <= k < |reg| ==> reg[k].id in handlers && handlers[reg[k].id] == Chatting(reg[k].name))
    && (forall g :: g in handlers && handlers[g].Chatting? ==> Session(g, handlers[g].name) in reg)
  }

  /** Row ids grow along the table and lie below the next auto-increment value. */
  ghost predicate MailboxOrdered(mailbox: seq<Row>, nextRowId: nat)
  {
    IdsIncreasing(mailbox) && forall k :: 0 <= k < |mailbox| ==> mailbox[k].id < nextRowId
  }

  /** A handler that ends leaves the registry; one still in the handshake was never in it. */
  lemma {:induction false} CloseKeepsRegistry(reg: seq<Session>, handlers: map<HandlerId, Phase>, h: HandlerId)
    requires RegistryMatches(reg, handlers) && h in handlers
    ensures RegistryMatches(RemoveFirst(reg, h), handlers[h := Closed])
    ensures handlers[h] == Handshaking ==> RemoveFirst(reg, h) == reg
  {
    RemoveFirstEffect(reg, h);
    var reg' := RemoveFirst(reg, h);
    var handlers' := handlers[h := Closed];
    forall k | 0 <= k < |reg'|
      ensures reg'[k].id in handlers' && handlers'[reg'[k].id] == Chatting(reg'[k].name)
    {
      assert reg'[k] in reg;
    }
  }

  /** A successful login moves the handler from the handshake into the registry. */
  lemma {:induction false} LoginKeepsRegistry(reg: seq<Session>, handlers: map<HandlerId, Phase>, h: HandlerId, u: string)
    requires RegistryMatches(reg, handlers) && h in handlers && handlers[h] == Handshaking
    ensures RegistryMatches(reg + [Session(h, u)], handlers[h := Chatting(u)])
  {
    var reg' := reg + [Session(h, u)];
    assert forall k :: 0 <= k < |reg| ==> reg[k].id != h;
    assert forall k :: 0 <= k < |reg| ==> reg'[k] == reg[k];
  }

  /** Storing a row under the next id, and delivering a user's rows, keep the table ordered. */
  lemma StoreKeepsOrder(mailbox: seq<Row>, nextRowId: nat, row: Row)
    requires MailboxOrdered(mailbox, nextRowId) && row.id == nextRowId
    ensures MailboxOrdered(mailbox + [row], nextRowId + 1)
  {
  }

  lemma {:induction false} DrainKeepsOrder(mailbox: seq<Row>, nextRowId: nat, u: string)
    requires MailboxOrdered(mailbox, nextRowId)
    ensures MailboxOrdered(RowsNotFor(mailbox, u), nextRowId)
  {
    RowsNotForIncreasing(mailbox, u);
    var r := RowsNotFor(mailbox, u);
    forall k | 0 <= k < |r| ensures r[k].id < nextRowId {
      assert r[k] in mailbox;
    }
  }

  class ChatServer {
    /** ChatServer.clientHandlers, in insertion order. */
    var registry: seq<Session>
    /** Every line written so far to each handler's socket. */
    var outboxes: Outboxes
    /** The private_messages table, in insertion order. */
    var mailbox: seq<Row>
    /** The next auto-increment id of private_messages. */
    var nextRowId: nat
    /** The users table: username to stored password hash. */
    var users: map<string, string>
    /** Every handler accepted so far and where its run() is. */
    var handlers: map<HandlerId, Phase>
    var nextHandler: HandlerId
    /** PasswordUtil.hashPassword, a deterministic function whose code is not part of this model. */
    const hashPassword: string -> string

    /**
     * The registry holds exactly the handlers in the message loop, each once
     * and under its username; mailbox ids grow and stay below the next id.
     */
    ghost predicate Valid()
      reads this`registry, this`handlers, this`nextHandler, this`mailbox, this`nextRowId
    {
      RegistryValid() && MailboxValid()
    }

    ghost predicate RegistryValid()
      reads this`registry, this`handlers, this`nextHandler
    {
      RegistryMatches(registry, handlers) && forall g :: g in handlers ==> g < nextHandler
    }

    ghost predicate MailboxValid()
      reads this`mailbox, this`nextRowId
    {
      MailboxOrdered(mailbox, nextRowId)
    }

    /**
     * The relay at start-up: no connection yet, but the database it opens
     * keeps the accounts and stored messages of earlier runs.
     */
    constructor (hashPassword: string -> string, users0: map<string, string>, mailbox0: seq<Row>, nextRowId0: nat)
      requires MailboxOrdered(mailbox0, nextRowId0)
      ensures Valid()
      ensures this.hashPassword == hashPassword
      ensures users == users0 && mailbox == mailbox0 && nextRowId == nextRowId0
      ensures registry == [] && outboxes == map[] && handlers == map[]
    {
      this.hashPassword := hashPassword;
      registry := [];
      outboxes := map[];
      mailbox := mailbox0;
      nextRowId := nextRowId0;
      users := users0;
      handlers := map[];
      nextHandler := 0;
    }

    /** A new connection gets a ClientHandler that starts in the handshake loop with an empty writer. */
    method Connect() returns (h: HandlerId)
      requires Valid()
      modifies this`handlers, this`nextHandler, this`outboxes
      ensures Valid()
      ensures h !in old(handlers) && handlers == old(handlers)[h := Handshaking]
      ensures outboxes == old(outboxes)[h := []]
    {
      h := nextHandler;
      handlers := handlers[h := Handshaking];
      outboxes := outboxes[h := []];
      nextHandler := nextHandler + 1;
    }

    // ------------------------------------------------------------ credential store

    function AuthenticateUser(username: string, password: string): (ok: bool)
      reads this`users
      ensures ok ==> username in users
    {
      username in users && users[username] == hashPassword(password)
    }

    method RegisterUser(username: string, password: string) returns (ok: bool)
      modifies this`users
      ensures ok <==> username !in old(users)
      ensures users == if ok then old(users)[username := hashPassword(password)] else old(users)
      ensures ok ==> AuthenticateUser(username, password)
      ensures forall name, pw :: name != username ==>
                (AuthenticateUser(name, pw) <==> old(AuthenticateUser(name, pw)))
    {
      if username in users {
        return false;
      }
      users := users[username := hashPassword(password)];
      return true;
    }

    // ------------------------------------------------------------ registry

    method AddClientHandler(h: HandlerId, name: string)
      modifies this`registry
      ensures registry == old(registry) + [Session(h, name)]
    {
      registry := registry + [Session(h, name)];
    }

    /** ArrayList.remove(Object): the first entry of the handler goes, if there is one. */
    method RemoveClientHandler(h: HandlerId)
      modifies this`registry
      ensures registry == RemoveFirst(old(registry), h)
    {
      var i := 0;
      while i < |registry|
        invariant 0 <= i <= |registry|
        invariant registry == old(registry)
        invariant forall k :: 0 <= k < i ==> registry[k].id != h
      {
        if registry[i].id == h {
          registry := registry[..i] + registry[i + 1..];
          return;
        }
        i := i + 1;
      }
    }

    method IsUserOnline(name: string) returns (online: bool)
      ensures online <==> Online(registry, name)
    {
      var i := 0;
      while i < |registry|
        invariant 0 <= i <= |registry|
        invariant forall k :: 0 <= k < i ==> registry[k].name != name
      {
        if registry[i].name == name {
          return true;
        }
        i := i + 1;
      }
      return false;
    }

    // ------------------------------------------------------------ routing

    /** broadcastMessage, called by a handler whose username is `from`. */
    method BroadcastMessage(from: Option<string>, msg: string)
      modifies this`outboxes
      ensures outboxes == Broadcast(registry, old(outboxes), from, msg)
    {
      var i := 0;
      while i < |registry|
        invariant 0 <= i <= |registry|
        invariant outboxes == Broadcast(registry[..i], old(outboxes), from, msg)
      {
        var s := registry[i];
        if Differs(s.name, from) {
          outboxes := Send(outboxes, s.id, msg);
        }
        assert registry[..i + 1][..i] == registry[..i];
        i := i + 1;
      }
      assert registry[..i] == registry;
    }

    /** sendPrivateMessage, called by handler `self` whose username is `sender`. */
    method SendPrivateMessage(self: HandlerId, sender: string, recipient: string, body: string)
      modifies this`outboxes
      ensures outboxes == SendPrivate(registry, old(outboxes), self, sender, recipient, body)
    {
      var i := 0;
      while i < |registry|
        invariant 0 <= i <= |registry|
        invariant outboxes == old(outboxes)
        invariant forall k :: 0 <= k < i ==> registry[k].name != recipient
      {
        if registry[i].name == recipient {
          outboxes := Send(outboxes, registry[i].id, PrivateRelay(sender, body));
          return;
        }
        i := i + 1;
      }
      outboxes := Send(outboxes, self, NotFoundLine(recipient));
    }

    /** sendMessageToClientWithColor: the first session named `recipient` gets the green line. */
    method SendMessageToClientWithColor(recipient: string, message: string)
      modifies this`outboxes
      ensures outboxes == SendToFirst(registry, old(outboxes), recipient, PreviousLine(message))
    {
      var i := 0;
      while i < |registry|
        invariant 0 <= i <= |registry|
        invariant outboxes == old(outboxes)
        invariant forall k :: 0 <= k < i ==> registry[k].name != recipient
      {
        if registry[i].name == recipient {
          outboxes := Send(outboxes, registry[i].id, PreviousLine(message));
          return;
        }
        i := i + 1;
      }
    }

    // ------------------------------------------------------------ mailbox

    method StoreMessageInDatabase(sender: string, recipient: string, body: string)
      modifies this`mailbox, this`nextRowId
      ensures mailbox == old(mailbox) + [Row(old(nextRowId), sender, recipient, body)]
      ensures nextRowId == old(nextRowId) + 1
    {
      mailbox := mailbox + [Row(nextRowId, sender, recipient, body)];
      nextRowId := nextRowId + 1;
    }

    method DeleteMessageFromDatabase(id: nat)
      modifies this`mailbox
      ensures mailbox == WithoutIds(old(mailbox), {id})
    {
      mailbox := WithoutIds(mailbox, {id});
    }

    /**
     * deliverStoredMessages: every row for `username`, in table order, goes to
     * the first session with that name and is then deleted.
     */
    method DeliverStoredMessages(username: string)
      requires MailboxValid()
      modifies this`outboxes, this`mailbox
      ensures MailboxValid()
      ensures outboxes == DrainOutboxes(registry, old(outboxes), username, RowsFor(old(mailbox), username))
      ensures mailbox == RowsNotFor(old(mailbox), username)
    {
      var pending := RowsFor(mailbox, username);
      var k := 0;
      WithoutNoIds(mailbox);
      assert RowIds(pending[..0]) == {};
      while k < |pending|
        invariant 0 <= k <= |pending|
        invariant outboxes == DrainOutboxes(registry, old(outboxes), username, pending[..k])
        invariant mailbox == WithoutIds(old(mailbox), RowIds(pending[..k]))
      {
        var row := pending[k];
        SendMessageToClientWithColor(username, StoredText(row.sender, row.body));
        DeleteMessageFromDatabase(row.id);
        WithoutIdsAdd(old(mailbox), RowIds(pending[..k]), row.id);
        DrainPrefix(registry, old(outboxes), username, pending, k);
        k := k + 1;
      }
      assert pending[..k] == pending;
      DeleteDelivered(old(mailbox), username);
      DrainKeepsOrder(old(mailbox), nextRowId, username);
    }

    // ------------------------------------------------------------ ClientHandler.run

    /** The handler takes its username and joins the registry. */
    method Enroll(h: HandlerId, username: string)
      requires Valid() && h in handlers && handlers[h] == Handshaking
      modifies this`registry, this`handlers
      ensures Valid()
      ensures handlers == old(handlers)[h := Chatting(username)]
      ensures registry == old(registry) + [Session(h, username)]
    {
      LoginKeepsRegistry(registry, handlers, h, username);
      handlers := handlers[h := Chatting(username)];
      AddClientHandler(h, username);
    }

    /** After the handshake: register the handler, drain its mail, announce it. */
    method CompleteLogin(h: HandlerId, username: string)
      requires Valid() && h in handlers && handlers[h] == Handshaking
      modifies this`registry, this`outboxes, this`mailbox, this`handlers
      ensures Valid()
      ensures handlers == old(handlers)[h := Chatting(username)]
      ensures registry == old(registry) + [Session(h, username)]
      ensures mailbox == RowsNotFor(old(mailbox), username)
      ensures outboxes == Broadcast(registry, DrainOutboxes(registry, old(outboxes), username,
                                                            RowsFor(old(mailbox), username)),
                                    Some(username), JoinedLine(username))
    {
      Enroll(h, username);
      DeliverStoredMessages(username);
      assert Valid();
      BroadcastMessage(Some(username), JoinedLine(username));
    }

    /** The finally block of run(): the handler leaves the registry and its run() is over. */
    method Unregister(h: HandlerId)
      requires Valid() && h in handlers
      modifies this`registry, this`handlers
      ensures Valid()
      ensures handlers == old(handlers)[h := Closed]
      ensures registry == RemoveFirst(old(registry), h)
      ensures old(handlers[h]) == Handshaking ==> registry == old(registry)
    {
      CloseKeepsRegistry(registry, handlers, h);
      RemoveClientHandler(h);
      handlers := handlers[h := Closed];
    }

    /**
     * The end of run(): an I/O failure first announces the departure under the
     * handler's username (null in the handshake); every ending then unregisters.
     */
    method EndSession(h: HandlerId, ioFailure: bool)
      requires Valid() && h in handlers && handlers[h] != Closed
      modifies this`registry, this`outboxes, this`handlers
      ensures Valid()
      ensures handlers == old(handlers)[h := Closed]
      ensures registry == RemoveFirst(old(registry), h)
      ensures old(handlers[h]) == Handshaking ==> registry == old(registry)
      ensures outboxes == if ioFailure
                          then Broadcast(old(registry), old(outboxes), UsernameOf(old(handlers[h])),
                                         LeftLine(UsernameOf(old(handlers[h]))))
                          else old(outboxes)
    {
      if ioFailure {
        var name := UsernameOf(handlers[h]);
        BroadcastMessage(name, LeftLine(name));
      }
      Unregister(h);
    }

    /** A REGISTER line: store the account unless the name is taken, and answer. */
    method HandleRegister(h: HandlerId, username: string, password: string)
      requires Valid()
      modifies this`users, this`outboxes
      ensures Valid()
      ensures users == if username in old(users) then old(users) else old(users)[username := hashPassword(password)]
      ensures outboxes == Send(old(outboxes), h, RegisterReply(username !in old(users)))
    {
      var ok := RegisterUser(username, password);
      outboxes := Send(outboxes, h, RegisterReply(ok));
    }

    /**
     * A LOGIN line: a wrong password is answered and the handshake goes on;
     * the right one is answered, ends the handshake and runs the login sequence.
     */
    method HandleLogin(h: HandlerId, username: string, password: string)
      requires Valid() && h in handlers && handlers[h] == Handshaking
      modifies this`registry, this`outboxes, this`mailbox, this`handlers
      ensures Valid()
      ensures if old(AuthenticateUser(username, password)) then
                && handlers == old(handlers)[h := Chatting(username)]
                && registry == old(registry) + [Session(h, username)]
                && mailbox == RowsNotFor(old(mailbox), username)
                && outboxes == Broadcast(registry, DrainOutboxes(registry, Send(old(outboxes), h, LoginSuccess), username,
                                                                 RowsFor(old(mailbox), username)),
                                         Some(username), JoinedLine(username))
              else
                && handlers == old(handlers) && registry == old(registry) && mailbox == old(mailbox)
                && outboxes == Send(old(outboxes), h, LoginFailed)
    {
      var ok := AuthenticateUser(username, password);
      if ok {
        outboxes := Send(outboxes, h, LoginReply(true));
        CompleteLogin(h, username);
      } else {
        outboxes := Send(outboxes, h, LoginReply(false));
      }
    }

    /** What one pass of the handshake loop does with a decoded line, field by field. */
    twostate predicate HandshakeEffect(h: HandlerId, req: HandshakeRequest)
      reads this
    {
      match req
      case Register(u, p) =>
        && users == (if u in old(users) then old(users) else old(users)[u := hashPassword(p)])
        && outboxes == Send(old(outboxes), h, RegisterReply(u !in old(users)))
        && handlers == old(handlers) && registry == old(registry)
        && mailbox == old(mailbox) && nextRowId == old(nextRowId)
      case Login(u, p) =>
        && users == old(users) && nextRowId == old(nextRowId)
        && (if old(AuthenticateUser(u, p)) then
              && handlers == old(handlers)[h := Chatting(u)]
              && registry == old(registry) + [Session(h, u)]
              && mailbox == RowsNotFor(old(mailbox), u)
              && outboxes == Broadcast(registry, DrainOutboxes(registry, Send(old(outboxes), h, LoginSuccess), u,
                                                               RowsFor(old(mailbox), u)),
                                       Some(u), JoinedLine(u))
            else
              && handlers == old(handlers) && registry == old(registry) && mailbox == old(mailbox)
              && outboxes == Send(old(outboxes), h, LoginFailed))
      case UnknownKeyword =>
        && handlers == old(handlers) && users == old(users) && registry == old(registry)
        && outboxes == old(outboxes) && mailbox == old(mailbox) && nextRowId == old(nextRowId)
      case HandshakeCrash =>
        && handlers == old(handlers)[h := Closed]
        && registry == old(registry) && outboxes == old(outboxes) && mailbox == old(mailbox)
        && users == old(users) && nextRowId == old(nextRowId)
    }

    /** One pass of the handshake loop on a split line, and the login sequence when a login succeeds. */
    method HandleHandshake(h: HandlerId, req: HandshakeRequest)
      requires Valid() && h in handlers && handlers[h] == Handshaking
      modifies this
      ensures Valid()
      ensures nextHandler == old(nextHandler)
      ensures HandshakeEffect(h, req)
      ensures handlers.Keys == old(handlers).Keys
      ensures forall g :: g in old(handlers) && g != h ==> handlers[g] == old(handlers[g])
      ensures forall u :: u in old(users) ==> u in users && users[u] == old(users)[u]
    {
      match req
      case Register(u, p) =>
        HandleRegister(h, u, p);
      case Login(u, p) =>
        HandleLogin(h, u, p);
      case UnknownKeyword =>
      case HandshakeCrash =>
        EndSession(h, false);
    }

    /**
     * A PRIVATE line from handler `self`, logged in as `sender`: delivered live
     * when the recipient is online, stored for later otherwise.
     */
    method HandlePrivate(self: HandlerId, sender: string, recipient: string, body: string)
      requires Valid()
      modifies this`outboxes, this`mailbox, this`nextRowId
      ensures Valid()
      ensures (outboxes, mailbox) == RoutePrivate(registry, old(outboxes), old(mailbox), old(nextRowId),
                                                  self, sender, recipient, body)
      ensures nextRowId == if Online(registry, recipient) then old(nextRowId) else old(nextRowId) + 1
    {
      var online := IsUserOnline(recipient);
      if online {
        SendPrivateMessage(self, sender, recipient, body);
      } else {
        StoreKeepsOrder(mailbox, nextRowId, Row(nextRowId, sender, recipient, body));
        StoreMessageInDatabase(sender, recipient, body);
      }
    }

    /** What one pass of the message loop does with a decoded line from user `u`, field by field. */
    twostate predicate ChatEffect(h: HandlerId, u: string, req: ChatRequest)
      reads this
    {
      && users == old(users)
      && match req
         case Public(text) =>
           && outboxes == Broadcast(old(registry), old(outboxes), Some(u), PublicRelay(u, text))
           && registry == old(registry) && handlers == old(handlers)
           && mailbox == old(mailbox) && nextRowId == old(nextRowId)
         case Private(r, b) =>
           && (outboxes, mailbox) == RoutePrivate(old(registry), old(outboxes), old(mailbox), old(nextRowId), h, u, r, b)
           && nextRowId == (if Online(old(registry), r) then old(nextRowId) else old(nextRowId) + 1)
           && registry == old(registry) && handlers == old(handlers)
         case OtherLine =>
           && handlers == old(handlers) && registry == old(registry) && outboxes == old(outboxes)
           && mailbox == old(mailbox) && nextRowId == old(nextRowId)
         case ChatCrash =>
           && handlers == old(handlers)[h := Closed]
           && registry == RemoveFirst(old(registry), h)
           && outboxes == old(outboxes) && mailbox == old(mailbox) && nextRowId == old(nextRowId)
    }

    /** One pass of the message loop on a split line, for a handler logged in as some username. */
    method HandleChat(h: HandlerId, req: ChatRequest)
      requires Valid() && h in handlers && handlers[h].Chatting?
      modifies this
      ensures Valid()
      ensures nextHandler == old(nextHandler)
      ensures ChatEffect(h, old(handlers[h].name), req)
      ensures handlers.Keys == old(handlers).Keys
      ensures forall g :: g in old(handlers) && g != h ==> handlers[g] == old(handlers[g])
      ensures handlers[h] == old(handlers[h]) || handlers[h] == Closed
    {
      var u := handlers[h].name;
      match req
      case Public(text) =>
        BroadcastMessage(Some(u), PublicRelay(u, text));
      case Private(r, b) =>
        HandlePrivate(h, u, r, b);
      case OtherLine =>
      case ChatCrash =>
        EndSession(h, false);
    }

    /**
     * ClientHandler.run as one step per input: a line goes to the loop the
     * handler is in; the end of the stream ends it quietly (in the handshake
     * through the failed split of a null line); an I/O failure ends it with
     * the departure announcement.
     */
    method Step(h: HandlerId, input: Input)
      requires Valid() && h in handlers && handlers[h] != Closed
      modifies this
      ensures Valid()
      ensures nextHandler == old(nextHandler)
      ensures handlers.Keys == old(handlers).Keys
      ensures forall g :: g in old(handlers) && g != h ==> handlers[g] == old(handlers[g])
      ensures !input.Line? ==> handlers[h] == Closed
      ensures old(handlers[h]).Chatting? ==> handlers[h] == old(handlers[h]) || handlers[h] == Closed
      ensures forall u :: u in old(users) ==> u in users && users[u] == old(users)[u]
      ensures input.Line? && old(handlers[h]) == Handshaking ==> HandshakeEffect(h, DecodeHandshake(input.text))
      ensures input.Line? && old(handlers[h]).Chatting? ==> ChatEffect(h, old(handlers[h].name), DecodeChat(input.text))
      ensures input == EndOfStream ==>
                && registry == RemoveFirst(old(registry), h) && outboxes == old(outboxes)
                && mailbox == old(mailbox) && users == old(users) && nextRowId == old(nextRowId)
      ensures input == IOFailure ==>
                && registry == RemoveFirst(old(registry), h)
                && outboxes == Broadcast(old(registry), old(outboxes), UsernameOf(old(handlers[h])),
                                         LeftLine(UsernameOf(old(handlers[h]))))
                && mailbox == old(mailbox) && users == old(users) && nextRowId == old(nextRowId)
    {
      match input
      case Line(text) =>
        if handlers[h] == Handshaking {
          HandleHandshake(h, DecodeHandshake(text));
        } else {
          HandleChat(h, DecodeChat(text));
        }
      case EndOfStream =>
        EndSession(h, false);
      case IOFailure =>
        EndSession(h, true);
    }
  }
}
