/**
 * The relay's routing over an abstract server state, as value-level
 * specifications: the registry (ChatServer.clientHandlers, an ordered list of
 * logged-in handlers), every handler's outbox (the lines written to its
 * socket), and the mailbox (the private_messages table).
 */
module Routing {
  import opened Wrappers
  import opened Protocol

  type HandlerId = nat

  /** One registry entry: a logged-in ClientHandler and its username. */
  datatype Session = Session(id: HandlerId, name: string)

  /** One row of the private_messages table, with its auto-increment id. */
  datatype Row = Row(id: nat, sender: string, recipient: string, body: string)

  /** The lines written so far to each handler's socket. */
  type Outboxes = map<HandlerId, seq<string>>

  function Outbox(out: Outboxes, id: HandlerId): seq<string>
  {
    if id in out then out[id] else []
  }

  /** write, newLine and flush of one line on handler `id`'s writer. */
  function Send(out: Outboxes, id: HandlerId, line: string): Outboxes
  {
    out[id := Outbox(out, id) + [line]]
  }

  /** No handler is registered twice. */
  ghost predicate UniqueIds(reg: seq<Session>)
  {
    forall i, j :: 0 <= i < |reg| && 0 <= j < |reg| && reg[i].id == reg[j].id ==> i == j
  }

  /** Some registered session carries `name`. */
  ghost predicate Online(reg: seq<Session>, name: string)
  {
    exists k :: 0 <= k < |reg| && reg[k].name == name
  }

  // ---------------------------------------------------------------- broadcast

  /** `!clientHandler.username.equals(this.username)`: a null sender name differs from every name. */
  predicate Differs(name: string, from: Option<string>)
  {
    from.None? || from.value != name
  }

  /** broadcastMessage: every registered session, in order, whose name differs from the sender's. */
  function Broadcast(reg: seq<Session>, out: Outboxes, from: Option<string>, msg: string): Outboxes
    decreases |reg|
  {
    if reg == [] then out
    else
      var before := Broadcast(reg[..|reg| - 1], out, from, msg);
      var s := reg[|reg| - 1];
      if Differs(s.name, from) then Send(before, s.id, msg) else before
  }

  /** Handler `id` is registered under a name that differs from the sender's. */
  ghost predicate Receives(reg: seq<Session>, from: Option<string>, id: HandlerId)
  {
    exists k :: 0 <= k < |reg| && reg[k].id == id && Differs(reg[k].name, from)
  }

  /**
   * A broadcast adds the message exactly once to the outbox of every
   * registered session whose name differs from the sender's, and changes no
   * other outbox.
   */
  lemma {:induction false} BroadcastEffect(reg: seq<Session>, out: Outboxes, from: Option<string>,
                                           msg: string, id: HandlerId)
    requires UniqueIds(reg)
    ensures Outbox(Broadcast(reg, out, from, msg), id)
         == Outbox(out, id) + (if Receives(reg, from, id) then [msg] else [])
    decreases |reg|
  {
    if reg != [] {
      var n := |reg| - 1;
      var init := reg[..n];
      var s := reg[n];
      assert forall k :: 0 <= k < n ==> init[k] == reg[k];
      BroadcastEffect(init, out, from, msg, id);
      if s.id == id {
        assert !Receives(init, from, id);
        if Differs(s.name, from) {
          assert Receives(reg, from, id);
        } else {
          assert !Receives(reg, from, id);
        }
      } else {
        assert Receives(reg, from, id) <==> Receives(init, from, id) by {
          if Receives(reg, from, id) {
            var k :| 0 <= k < |reg| && reg[k].id == id && Differs(reg[k].name, from);
            assert k < n && init[k] == reg[k];
          }
          if Receives(init, from, id) {
            var k :| 0 <= k < |init| && init[k].id == id && Differs(init[k].name, from);
            assert reg[k] == init[k];
          }
        }
      }
    }
  }

  /**
   * The broadcast as seen by one registered session: it gets the message once
   * when its name differs from the sender's, and nothing when it shares it.
   */
  lemma {:induction false} BroadcastToSession(reg: seq<Session>, out: Outboxes, from: Option<string>, msg: string, k: nat)
    requires UniqueIds(reg) && k < |reg|
    ensures Outbox(Broadcast(reg, out, from, msg), reg[k].id)
         == Outbox(out, reg[k].id) + (if Differs(reg[k].name, from) then [msg] else [])
  {
    BroadcastEffect(reg, out, from, msg, reg[k].id);
    if Receives(reg, from, reg[k].id) {
      var j :| 0 <= j < |reg| && reg[j].id == reg[k].id && Differs(reg[j].name, from);
      assert j == k;
    }
  }

  // ---------------------------------------------------------------- lookups

  /** Index of the first registered session named `name`. */
  function FirstWithName(reg: seq<Session>, name: string): (r: Option<nat>)
    ensures r.Some? ==> r.value < |reg| && reg[r.value].name == name
    ensures r.Some? ==> forall j :: 0 <= j < r.value ==> reg[j].name != name
    ensures r.None? <==> !Online(reg, name)
  {
    if reg == [] then None
    else if reg[0].name == name then Some(0)
    else
      match FirstWithName(reg[1..], name)
      case None =>
        assert forall j :: 1 <= j < |reg| ==> reg[j] == reg[1..][j - 1];
        None
      case Some(i) => Some(i + 1)
  }

  /** The handler the first registered session named `name` belongs to. */
  function FirstSessionId(reg: seq<Session>, name: string): Option<HandlerId>
  {
    match FirstWithName(reg, name)
    case Some(i) => Some(reg[i].id)
    case None => None
  }

  /**
   * After appending a session, the first session with its name is the old
   * first one if there was one, and the appended one otherwise.
   */
  lemma {:induction false} FirstWithNameAppend(reg: seq<Session>, s: Session)
    ensures FirstWithName(reg + [s], s.name)
         == if Online(reg, s.name) then FirstWithName(reg, s.name) else Some(|reg|)
  {
    var r := reg + [s];
    assert forall k :: 0 <= k < |reg| ==> r[k] == reg[k];
    assert r[|reg|] == s;
    match FirstWithName(reg, s.name)
    case Some(i) =>
      assert FirstWithName(r, s.name).Some?;
    case None =>
      assert FirstWithName(r, s.name).Some?;
  }

  /** Index of the registry entry of handler `h` (ArrayList.indexOf). */
  function IndexOfHandler(reg: seq<Session>, h: HandlerId): (r: Option<nat>)
    ensures r.Some? ==> r.value < |reg| && reg[r.value].id == h
    ensures r.Some? ==> forall j :: 0 <= j < r.value ==> reg[j].id != h
    ensures r.None? ==> forall j :: 0 <= j < |reg| ==> reg[j].id != h
  {
    if reg == [] then None
    else if reg[0].id == h then Some(0)
    else
      match IndexOfHandler(reg[1..], h)
      case None =>
        assert forall j :: 1 <= j < |reg| ==> reg[j] == reg[1..][j - 1];
        None
      case Some(i) => Some(i + 1)
  }

  /** removeClientHandler: ArrayList.remove drops the first entry of the handler, if any. */
  function RemoveFirst(reg: seq<Session>, h: HandlerId): seq<Session>
  {
    match IndexOfHandler(reg, h)
    case None => reg
    case Some(i) => reg[..i] + reg[i + 1..]
  }

  /** The registry with entry `i` cut out, index by index. */
  lemma CutAt(reg: seq<Session>, i: nat)
    requires i < |reg|
    ensures |reg[..i] + reg[i + 1..]| == |reg| - 1
    ensures forall k :: 0 <= k < i ==> (reg[..i] + reg[i + 1..])[k] == reg[k]
    ensures forall k :: i < k < |reg| ==> (reg[..i] + reg[i + 1..])[k - 1] == reg[k]
  {
  }

  /** Cutting out the entry at `i` keeps every other entry and only those. */
  lemma {:induction false} CutMembership(reg: seq<Session>, i: nat)
    requires i < |reg| && UniqueIds(reg)
    ensures forall s :: s in reg[..i] + reg[i + 1..] <==> s in reg && s.id != reg[i].id
  {
    var r := reg[..i] + reg[i + 1..];
    CutAt(reg, i);
    forall s | s in reg && s.id != reg[i].id ensures s in r {
      var k :| 0 <= k < |reg| && reg[k] == s;
      if k < i {
        assert r[k] == s;
      } else {
        assert r[k - 1] == s;
      }
    }
    forall s | s in r ensures s in reg && s.id != reg[i].id {
      var k :| 0 <= k < |r| && r[k] == s;
      if k < i {
        assert reg[k] == s;
      } else {
        assert reg[k + 1] == s;
      }
    }
  }

  /** Cutting out an entry keeps the ids distinct. */
  lemma {:induction false} CutUnique(reg: seq<Session>, i: nat)
    requires i < |reg| && UniqueIds(reg)
    ensures UniqueIds(reg[..i] + reg[i + 1..])
  {
    var r := reg[..i] + reg[i + 1..];
    CutAt(reg, i);
    forall a, b | 0 <= a < |r| && 0 <= b < |r| && r[a].id == r[b].id ensures a == b {
      var a' := if a < i then a else a + 1;
      var b' := if b < i then b else b + 1;
      assert r[a] == reg[a'] && r[b] == reg[b'];
    }
  }

  /**
   * Removal keeps the registry free of duplicates, takes out exactly the
   * handler's entry, keeps the others, and is a no-op for an absent handler.
   */
  lemma {:induction false} RemoveFirstEffect(reg: seq<Session>, h: HandlerId)
    requires UniqueIds(reg)
    ensures UniqueIds(RemoveFirst(reg, h))
    ensures forall s :: s in RemoveFirst(reg, h) <==> s in reg && s.id != h
    ensures (forall k :: 0 <= k < |reg| ==> reg[k].id != h) ==> RemoveFirst(reg, h) == reg
  {
    match IndexOfHandler(reg, h)
    case None =>
    case Some(i) =>
      CutUnique(reg, i);
      CutMembership(reg, i);
  }

  // ---------------------------------------------------------------- private messages

  /** sendMessageToClientWithColor's delivery: the first session named `name` gets the line. */
  function SendToFirst(reg: seq<Session>, out: Outboxes, name: string, line: string): Outboxes
  {
    match FirstWithName(reg, name)
    case Some(i) => Send(out, reg[i].id, line)
    case None => out
  }

  /**
   * sendPrivateMessage: the first session named `recipient` gets the message;
   * when there is none, the sending handler is told the user was not found.
   */
  function SendPrivate(reg: seq<Session>, out: Outboxes, self: HandlerId,
                       sender: string, recipient: string, body: string): Outboxes
  {
    match FirstWithName(reg, recipient)
    case Some(i) => Send(out, reg[i].id, PrivateRelay(sender, body))
    case None => Send(out, self, NotFoundLine(recipient))
  }

  /**
   * The message loop's PRIVATE branch: isUserOnline decides between live
   * delivery and storeMessageInDatabase, which inserts row `rowId`.
   */
  function RoutePrivate(reg: seq<Session>, out: Outboxes, mailbox: seq<Row>, rowId: nat,
                        self: HandlerId, sender: string, recipient: string, body: string)
    : (Outboxes, seq<Row>)
  {
    if FirstWithName(reg, recipient).Some? then (SendPrivate(reg, out, self, sender, recipient, body), mailbox)
    else (out, mailbox + [Row(rowId, sender, recipient, body)])
  }

  /**
   * Private routing is exclusive: to an online recipient exactly the first
   * session with that name gets one line and the mailbox is untouched; to an
   * offline one exactly one row is stored and no outbox changes.
   */
  lemma PrivateRoutingExclusive(reg: seq<Session>, out: Outboxes, mailbox: seq<Row>, rowId: nat,
                                self: HandlerId, sender: string, recipient: string, body: string,
                                id: HandlerId)
    ensures var (out', mailbox') := RoutePrivate(reg, out, mailbox, rowId, self, sender, recipient, body);
            if Online(reg, recipient) then
              && mailbox' == mailbox
              && Outbox(out', id) == Outbox(out, id)
                   + (if FirstSessionId(reg, recipient) == Some(id) then [PrivateRelay(sender, body)] else [])
            else
              && mailbox' == mailbox + [Row(rowId, sender, recipient, body)]
              && Outbox(out', id) == Outbox(out, id)
  {
  }

  /** So the relay never answers "User ... not found." when its steps run one at a time. */
  lemma {:induction false} NotFoundUnreachable(reg: seq<Session>, out: Outboxes, mailbox: seq<Row>, rowId: nat,
                            self: HandlerId, sender: string, recipient: string, body: string,
                            id: HandlerId)
    ensures var out' := RoutePrivate(reg, out, mailbox, rowId, self, sender, recipient, body).0;
            Outbox(out', id) == Outbox(out, id)
            || Outbox(out', id) == Outbox(out, id) + [PrivateRelay(sender, body)]
    ensures PrivateRelay(sender, body) != NotFoundLine(recipient)
  {
    PrivateRoutingExclusive(reg, out, mailbox, rowId, self, sender, recipient, body, id);
    assert PrivateRelay(sender, body)[0] == 'P';
    assert NotFoundLine(recipient)[0] == 'S';
  }

  // ---------------------------------------------------------------- mailbox

  /** The rows addressed to `u`, in table order (the SELECT of deliverStoredMessages). */
  function RowsFor(mailbox: seq<Row>, u: string): (r: seq<Row>)
    ensures forall x :: x in r <==> x in mailbox && x.recipient == u
  {
    if mailbox == [] then []
    else (if mailbox[0].recipient == u then [mailbox[0]] else []) + RowsFor(mailbox[1..], u)
  }

  /** The rows addressed to anyone but `u`, in table order. */
  function RowsNotFor(mailbox: seq<Row>, u: string): (r: seq<Row>)
    ensures forall x :: x in r <==> x in mailbox && x.recipient != u
  {
    if mailbox == [] then []
    else (if mailbox[0].recipient != u then [mailbox[0]] else []) + RowsNotFor(mailbox[1..], u)
  }

  /** The table after `DELETE ... WHERE id = ?` for every id in `ids`. */
  function WithoutIds(mailbox: seq<Row>, ids: set<nat>): (r: seq<Row>)
    ensures forall x :: x in r <==> x in mailbox && x.id !in ids
  {
    if mailbox == [] then []
    else (if mailbox[0].id !in ids then [mailbox[0]] else []) + WithoutIds(mailbox[1..], ids)
  }

  function RowIds(rows: seq<Row>): set<nat>
  {
    set x | x in rows :: x.id
  }

  /** Row ids grow along the table, as an auto-increment key does. */
  ghost predicate IdsIncreasing(mailbox: seq<Row>)
  {
    forall i, j :: 0 <= i < j < |mailbox| ==> mailbox[i].id < mailbox[j].id
  }

  /** Deleting row by row is deleting the set of their ids. */
  lemma {:induction false} WithoutIdsAdd(mailbox: seq<Row>, ids: set<nat>, id: nat)
    ensures WithoutIds(WithoutIds(mailbox, ids), {id}) == WithoutIds(mailbox, ids + {id})
    decreases |mailbox|
  {
    if mailbox != [] {
      WithoutIdsAdd(mailbox[1..], ids, id);
      var head := if mailbox[0].id !in ids then [mailbox[0]] else [];
      var tail := WithoutIds(mailbox[1..], ids);
      assert WithoutIds(mailbox, ids) == head + tail;
      if head == [] {
        assert WithoutIds(mailbox, ids) == tail;
      } else {
        assert (head + tail)[0] == mailbox[0];
        assert (head + tail)[1..] == tail;
      }
    }
  }

  /** Deleting no ids leaves the table as it is. */
  lemma {:induction false} WithoutNoIds(mailbox: seq<Row>)
    ensures WithoutIds(mailbox, {}) == mailbox
    decreases |mailbox|
  {
    if mailbox != [] {
      WithoutNoIds(mailbox[1..]);
      assert [mailbox[0]] + mailbox[1..] == mailbox;
    }
  }

  /** Deleting rows keeps the ones whose id is not chosen: a removal by membership. */
  lemma {:induction false} WithoutMatchingIds(mailbox: seq<Row>, ids: set<nat>, u: string)
    requires forall x :: x in mailbox ==> (x.id in ids <==> x.recipient == u)
    ensures WithoutIds(mailbox, ids) == RowsNotFor(mailbox, u)
    decreases |mailbox|
  {
    if mailbox != [] {
      assert forall x :: x in mailbox[1..] ==> x in mailbox;
      WithoutMatchingIds(mailbox[1..], ids, u);
    }
  }

  /** With unique ids, deleting every row selected for `u` leaves exactly the rows for others. */
  lemma {:induction false} DeleteDelivered(mailbox: seq<Row>, u: string)
    requires IdsIncreasing(mailbox)
    ensures WithoutIds(mailbox, RowIds(RowsFor(mailbox, u))) == RowsNotFor(mailbox, u)
  {
    var ids := RowIds(RowsFor(mailbox, u));
    forall x | x in mailbox ensures x.id in ids <==> x.recipient == u {
      if x.id in ids {
        var y :| y in RowsFor(mailbox, u) && y.id == x.id;
        var i :| 0 <= i < |mailbox| && mailbox[i] == x;
        var j :| 0 <= j < |mailbox| && mailbox[j] == y;
        assert i == j;
      }
    }
    WithoutMatchingIds(mailbox, ids, u);
  }

  /** Taking rows out keeps the ids increasing. */
  lemma {:induction false} RowsNotForIncreasing(mailbox: seq<Row>, u: string)
    requires IdsIncreasing(mailbox)
    ensures IdsIncreasing(RowsNotFor(mailbox, u))
    decreases |mailbox|
  {
    if mailbox != [] {
      var tail := mailbox[1..];
      assert IdsIncreasing(tail) by {
        forall i, j | 0 <= i < j < |tail| ensures tail[i].id < tail[j].id {
          assert tail[i] == mailbox[i + 1] && tail[j] == mailbox[j + 1];
        }
      }
      RowsNotForIncreasing(tail, u);
      var r := RowsNotFor(tail, u);
      forall x | x in r ensures mailbox[0].id < x.id {
        var j :| 0 <= j < |tail| && tail[j] == x;
        assert mailbox[j + 1] == x;
      }
    }
  }

  /** The lines deliverStoredMessages writes for `rows`, in order. */
  function PreviousLines(rows: seq<Row>): (r: seq<string>)
    ensures |r| == |rows|
    decreases |rows|
  {
    if rows == [] then []
    else
      var last := rows[|rows| - 1];
      PreviousLines(rows[..|rows| - 1]) + [PreviousLine(StoredText(last.sender, last.body))]
  }

  /** The outboxes after each of `rows` went to the first session named `u`. */
  function DrainOutboxes(reg: seq<Session>, out: Outboxes, u: string, rows: seq<Row>): Outboxes
    decreases |rows|
  {
    if rows == [] then out
    else
      var last := rows[|rows| - 1];
      SendToFirst(reg, DrainOutboxes(reg, out, u, rows[..|rows| - 1]), u, PreviousLine(StoredText(last.sender, last.body)))
  }
  /** One more row of a prefix: one more line to the recipient, one more id to delete. */
  lemma {:induction false} DrainPrefix(reg: seq<Session>, out: Outboxes, u: string, rows: seq<Row>, k: nat)
    requires k < |rows|
    ensures DrainOutboxes(reg, out, u, rows[..k + 1])
         == SendToFirst(reg, DrainOutboxes(reg, out, u, rows[..k]), u,
                        PreviousLine(StoredText(rows[k].sender, rows[k].body)))
    ensures RowIds(rows[..k + 1]) == RowIds(rows[..k]) + {rows[k].id}
  {
    assert rows[..k + 1][..k] == rows[..k];
    assert rows[..k + 1] == rows[..k] + [rows[k]];
  }


  /**
   * Draining sends every row, in order and formatted, to the first session
   * named `u` and nowhere else; with no such session nothing is written.
   */
  lemma {:induction false} DrainEffect(reg: seq<Session>, out: Outboxes, u: string, rows: seq<Row>, id: HandlerId)
    ensures Outbox(DrainOutboxes(reg, out, u, rows), id)
         == Outbox(out, id) + (if FirstSessionId(reg, u) == Some(id) then PreviousLines(rows) else [])
    decreases |rows|
  {
    if rows != [] {
      DrainEffect(reg, out, u, rows[..|rows| - 1], id);
    }
  }

  /**
   * The login sequence (register, drain, announce): the first session named
   * `u` — the new one only when no earlier session has that name — gets the
   * stored messages and no announcement; every session with another name gets
   * the announcement once; no other outbox changes.
   */
  lemma {:induction false} LoginSequence(reg: seq<Session>, out: Outboxes, mailbox: seq<Row>, h: HandlerId, u: string, id: HandlerId)
    requires UniqueIds(reg + [Session(h, u)])
    ensures var reg' := reg + [Session(h, u)];
            FirstSessionId(reg', u) == if Online(reg, u) then FirstSessionId(reg, u) else Some(h)
    ensures FirstSessionId(reg + [Session(h, u)], u) == Some(id) ==> !Receives(reg + [Session(h, u)], Some(u), id)
    ensures var reg' := reg + [Session(h, u)];
            var out' := Broadcast(reg', DrainOutboxes(reg', out, u, RowsFor(mailbox, u)), Some(u), JoinedLine(u));
            Outbox(out', id) == Outbox(out, id)
              + (if FirstSessionId(reg', u) == Some(id) then PreviousLines(RowsFor(mailbox, u)) else [])
              + (if Receives(reg', Some(u), id) then [JoinedLine(u)] else [])
  {
    var reg' := reg + [Session(h, u)];
    FirstWithNameAppend(reg, Session(h, u));
    var drained := DrainOutboxes(reg', out, u, RowsFor(mailbox, u));
    DrainEffect(reg', out, u, RowsFor(mailbox, u), id);
    BroadcastEffect(reg', drained, Some(u), JoinedLine(u), id);
    if FirstSessionId(reg', u) == Some(id) {
      var i := FirstWithName(reg', u).value;
      forall k | 0 <= k < |reg'| && reg'[k].id == id ensures reg'[k].name == u {
        assert k == i;
      }
    }
  }
}
