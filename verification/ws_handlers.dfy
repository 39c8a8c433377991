/** The WebSocket handler as a sequential state machine: the registry of
    connections by user id, the handling of `join_chat` and `send_message`
    frames, and the fan-out of a new message to the online members of a chat.

    Frames from all connections are interleaved into one stream of inputs.
    Writes to connections are events in an output log. A `log.Fatal*` call
    ends the whole server process: the model stops in an `Aborted` outcome
    that keeps everything done up to that call. */
module WsHandlers {
  import opened Models
  import opened Frames
  import opened Queries

  /** The frame the server writes to a recipient. */
  datatype Broadcast = Broadcast(kind: string, fromUserEmail: string, message: string)

  /** Writes on a connection: closing it, a ping control frame, a text frame. */
  datatype Event = Close(conn: ConnId) | Ping(conn: ConnId) | Send(conn: ConnId, frame: Broadcast)

  /** `registry` is the user-id-to-connection table; `dead` holds the
      connections that are gone (closed by the server or by the peer), on
      which every read and write fails. */
  datatype State = State(registry: map<UserId, ConnId>, store: seq<Message>, dead: set<ConnId>, log: seq<Event>)

  datatype Outcome = Running(state: State) | Aborted(state: State)

  /** A frame arriving on a connection, or the peer hanging up. */
  datatype Input = Receive(conn: ConnId, raw: RawFrame) | Hangup(conn: ConnId)

  // ---------------------------------------------------------------------
  // join_chat

  /** `handleJoinChat`: close the connection registered for the user, if
      any, then register the current one. */
  function HandleJoinChat(s: State, conn: ConnId, userId: UserId): (t: State)
    ensures userId in t.registry && t.registry[userId] == conn
    ensures t.registry.Keys == s.registry.Keys + {userId}
    ensures forall u :: u in s.registry && u != userId ==> t.registry[u] == s.registry[u]
    ensures t.store == s.store
    ensures userId in s.registry ==>
              t.log == s.log + [Close(s.registry[userId])] && t.dead == s.dead + {s.registry[userId]}
    ensures userId !in s.registry ==> t.log == s.log && t.dead == s.dead
  {
    var closed :=
      if userId in s.registry then
        var previous := s.registry[userId];
        s.(log := s.log + [Close(previous)], dead := s.dead + {previous})
      else s;
    closed.(registry := s.registry[userId := conn])
  }

  /** Joining twice in a row leaves the registry of a single join, but the
      second join closes the connection the first one registered, even when
      it is the very connection being registered. */
  lemma JoinTwice(s: State, conn: ConnId, userId: UserId)
    ensures var once := HandleJoinChat(s, conn, userId);
            var twice := HandleJoinChat(once, conn, userId);
            && twice.registry == once.registry
            && twice.log == once.log + [Close(conn)]
            && conn in twice.dead
  {
  }

  // ---------------------------------------------------------------------
  // send_message

  /** The e-mail of the user with the given id, or "" when there is none (a
      `Find` that matches no row leaves the zero value without an error). */
  function EmailOf(users: seq<User>, id: UserId): (email: string)
    ensures (forall u :: u in users ==> u.id != id) ==> email == ""
  {
    if users == [] then ""
    else if users[0].id == id then users[0].email
    else EmailOf(users[1..], id)
  }

  lemma {:induction false} EmailOfOwner(users: seq<User>, u: User)
    requires forall i, j :: 0 <= i < j < |users| ==> users[i].id < users[j].id
    requires u in users
    ensures EmailOf(users, u.id) == u.email
  {
    if users[0] != u {
      assert u in users[1..];
      var k :| 0 <= k < |users| && users[k] == u;
      assert users[0].id < users[k].id;
      EmailOfOwner(users[1..], u);
    }
  }

  /** The frame delivered to `recipient`. Its `FromUserEmail` is looked up
      by the recipient's id, as the handler does. */
  function NewMessageFrame(db: Db, recipient: UserId, content: string): (f: Broadcast)
    ensures f.kind == NewMessageType && f.message == content
    ensures !HasUser(db.users, recipient) ==> f.fromUserEmail == ""
  {
    Broadcast(NewMessageType, EmailOf(db.users, recipient), content)
  }

  /** `sendMessageToUser`: skip a user with no registered connection; else
      ping the connection, look the user up, and write the frame. */
  function SendMessageToUser(db: Db, faults: Faults, s: State, userId: UserId, content: string): (o: Outcome)
    ensures o.state.registry == s.registry && o.state.store == s.store && o.state.dead == s.dead
    ensures userId !in s.registry ==> o == Running(s)
    ensures userId in s.registry && s.registry[userId] in s.dead ==> o == Aborted(s)
  {
    if userId !in s.registry then Running(s)
    else
      var conn := s.registry[userId];
      if conn in s.dead then Aborted(s)
      else if userId in faults.lookupFails then Aborted(s.(log := s.log + [Ping(conn)]))
      else Running(s.(log := s.log + [Ping(conn), Send(conn, NewMessageFrame(db, userId, content))]))
  }

  /** The loop over the recipient ids. */
  function Deliver(db: Db, faults: Faults, s: State, ids: seq<UserId>, content: string): (o: Outcome)
    ensures o.state.registry == s.registry && o.state.store == s.store && o.state.dead == s.dead
    decreases |ids|
  {
    if ids == [] then Running(s)
    else
      match SendMessageToUser(db, faults, s, ids[0], content)
      case Aborted(t) => Aborted(t)
      case Running(t) => Deliver(db, faults, t, ids[1..], content)
  }

  /** `handleSendMessage`: persist the message, query the recipients, and
      deliver to each of them. */
  function HandleSendMessage(db: Db, faults: Faults, s: State, chatId: ChatId, userId: UserId, content: string)
    : (o: Outcome)
    ensures o.state.registry == s.registry && o.state.dead == s.dead
    ensures faults.createFails ==> o == Aborted(s)
    ensures !faults.createFails ==>
              o.state.store == s.store + [Message(NextId(s.store), chatId, userId, content)]
    ensures !faults.createFails && faults.queryFails ==>
              o == Aborted(s.(store := s.store + [Message(NextId(s.store), chatId, userId, content)]))
  {
    if faults.createFails then Aborted(s)
    else
      var persisted := s.(store := s.store + [Message(NextId(s.store), chatId, userId, content)]);
      match ChatUsersExcept(db, chatId, userId, faults.queryFails)
      case Err(_) => Aborted(persisted)
      case Ok(ids) => Deliver(db, faults, persisted, ids, content)
  }

  // ---------------------------------------------------------------------
  // the reference fan-out

  /** `x` occurs in `ids` at an earlier position than `y`. */
  predicate Precedes(ids: seq<UserId>, x: UserId, y: UserId) {
    exists a, b :: 0 <= a < b < |ids| && ids[a] == x && ids[b] == y
  }

  /** The recipient ids that have a registered connection, in list order. */
  function Online(registry: map<UserId, ConnId>, ids: seq<UserId>): (r: seq<UserId>)
    ensures forall id :: id in r <==> id in ids && id in registry
    ensures Distinct(ids) ==> Distinct(r)
    ensures forall i, j :: 0 <= i < j < |r| ==> Precedes(ids, r[i], r[j])
  {
    if ids == [] then []
    else
      var rest := Online(registry, ids[1..]);
      assert forall id :: id in rest ==> id in ids[1..];
      OrderShift(ids, rest);
      if ids[0] in registry then
        OrderCons(ids, rest);
        [ids[0]] + rest
      else rest
  }

  /** Ids in order in the tail of a list are in order in the whole list. */
  lemma OrderShift(ids: seq<UserId>, rest: seq<UserId>)
    requires ids != []
    requires forall i, j :: 0 <= i < j < |rest| ==> Precedes(ids[1..], rest[i], rest[j])
    ensures forall i, j :: 0 <= i < j < |rest| ==> Precedes(ids, rest[i], rest[j])
  {
    forall i, j | 0 <= i < j < |rest|
      ensures Precedes(ids, rest[i], rest[j])
    {
      var a, b :| 0 <= a < b < |ids[1..]| && ids[1..][a] == rest[i] && ids[1..][b] == rest[j];
      assert 0 <= a + 1 < b + 1 < |ids| && ids[a + 1] == rest[i] && ids[b + 1] == rest[j];
    }
  }

  /** Putting the list's head in front of ids taken from its tail keeps them
      in list order. */
  lemma OrderCons(ids: seq<UserId>, rest: seq<UserId>)
    requires ids != []
    requires forall id :: id in rest ==> id in ids[1..]
    requires forall i, j :: 0 <= i < j < |rest| ==> Precedes(ids, rest[i], rest[j])
    ensures forall i, j :: 0 <= i < j < |[ids[0]] + rest| ==> Precedes(ids, ([ids[0]] + rest)[i], ([ids[0]] + rest)[j])
  {
    var r := [ids[0]] + rest;
    forall i, j | 0 <= i < j < |r|
      ensures Precedes(ids, r[i], r[j])
    {
      if i == 0 {
        assert r[j] == rest[j - 1] && rest[j - 1] in rest;
        var b :| 0 <= b < |ids[1..]| && ids[1..][b] == r[j];
        assert 0 <= 0 < b + 1 < |ids| && ids[0] == r[i] && ids[b + 1] == r[j];
      } else {
        assert r[i] == rest[i - 1] && r[j] == rest[j - 1];
      }
    }
  }

  /** What a fan-out without failures writes: for each recipient with a
      registered connection, in list order, a ping and then the frame. */
  function Deliveries(db: Db, registry: map<UserId, ConnId>, ids: seq<UserId>, content: string): seq<Event> {
    if ids == [] then []
    else RecipientEvents(db, registry, ids[0], content) + Deliveries(db, registry, ids[1..], content)
  }

  /** What a write to one recipient without failures produces. */
  function RecipientEvents(db: Db, registry: map<UserId, ConnId>, id: UserId, content: string): seq<Event> {
    if id in registry then [Ping(registry[id]), Send(registry[id], NewMessageFrame(db, id, content))] else []
  }

  /** The fault-free fan-out writes two events per online recipient. */
  lemma {:induction false} DeliveriesLength(db: Db, registry: map<UserId, ConnId>, ids: seq<UserId>, content: string)
    ensures |Deliveries(db, registry, ids, content)| == 2 * |Online(registry, ids)|
    decreases |ids|
  {
    if ids != [] {
      DeliveriesLength(db, registry, ids[1..], content);
    }
  }

  /** The j-th online recipient gets events 2j (the ping) and 2j+1 (the
      frame), both on its registered connection. */
  lemma {:induction false} DeliveryAt(db: Db, registry: map<UserId, ConnId>, ids: seq<UserId>, content: string, j: nat)
    requires j < |Online(registry, ids)|
    ensures |Deliveries(db, registry, ids, content)| == 2 * |Online(registry, ids)|
    ensures Deliveries(db, registry, ids, content)[2 * j] == Ping(registry[Online(registry, ids)[j]])
    ensures Deliveries(db, registry, ids, content)[2 * j + 1] ==
              Send(registry[Online(registry, ids)[j]], NewMessageFrame(db, Online(registry, ids)[j], content))
    decreases |ids|
  {
    DeliveriesLength(db, registry, ids, content);
    var head := RecipientEvents(db, registry, ids[0], content);
    var dRest := Deliveries(db, registry, ids[1..], content);
    assert Deliveries(db, registry, ids, content) == head + dRest;
    if ids[0] in registry {
      assert Online(registry, ids) == [ids[0]] + Online(registry, ids[1..]);
      if j > 0 {
        DeliveryAt(db, registry, ids[1..], content, j - 1);
      }
    } else {
      assert Online(registry, ids) == Online(registry, ids[1..]);
      DeliveryAt(db, registry, ids[1..], content, j);
    }
  }

  /** Position by position: the j-th online recipient gets events 2j (the
      ping) and 2j+1 (the frame), both on its registered connection, and
      nothing else is written. */
  lemma DeliveriesAt(db: Db, registry: map<UserId, ConnId>, ids: seq<UserId>, content: string)
    ensures var on := Online(registry, ids);
            var d := Deliveries(db, registry, ids, content);
            && |d| == 2 * |on|
            && forall j :: 0 <= j < |on| ==>
                 && d[2 * j] == Ping(registry[on[j]])
                 && d[2 * j + 1] == Send(registry[on[j]], NewMessageFrame(db, on[j], content))
  {
    DeliveriesLength(db, registry, ids, content);
    forall j | 0 <= j < |Online(registry, ids)|
      ensures Deliveries(db, registry, ids, content)[2 * j] == Ping(registry[Online(registry, ids)[j]])
      ensures Deliveries(db, registry, ids, content)[2 * j + 1] ==
                Send(registry[Online(registry, ids)[j]], NewMessageFrame(db, Online(registry, ids)[j], content))
    {
      DeliveryAt(db, registry, ids, content, j);
    }
  }

  /** The fan-out loop runs through exactly when every online recipient's
      connection is open and its lookup succeeds. */
  lemma {:induction false} DeliverRunsIff(db: Db, faults: Faults, s: State, ids: seq<UserId>, content: string)
    ensures Deliver(db, faults, s, ids, content).Running? <==>
              forall id :: id in ids && id in s.registry ==> s.registry[id] !in s.dead && id !in faults.lookupFails
    decreases |ids|
  {
    if ids != [] {
      var id := ids[0];
      assert forall x :: x in ids <==> x == id || x in ids[1..];
      match SendMessageToUser(db, faults, s, id, content)
      case Aborted(_) =>
      case Running(t) =>
        DeliverRunsIff(db, faults, t, ids[1..], content);
    }
  }

  /** One recipient: a completed write logs the reference events for it, and
      an aborted one a proper prefix of them. */
  lemma SendMessageToUserWritesReference(db: Db, faults: Faults, s: State, id: UserId, content: string)
    ensures SendMessageToUser(db, faults, s, id, content).Running? ==>
              SendMessageToUser(db, faults, s, id, content).state.log == s.log + RecipientEvents(db, s.registry, id, content)
    ensures SendMessageToUser(db, faults, s, id, content).Aborted? ==>
              exists m :: 0 <= m < |RecipientEvents(db, s.registry, id, content)| &&
                SendMessageToUser(db, faults, s, id, content).state.log == s.log + RecipientEvents(db, s.registry, id, content)[..m]
  {
    var head := RecipientEvents(db, s.registry, id, content);
    if id in s.registry {
      assert s.log == s.log + head[..0];
      assert head[..1] == [Ping(s.registry[id])];
    }
  }

  /** The fan-out loop writes the reference events when it runs through. */
  lemma {:induction false} DeliverCompletesReference(db: Db, faults: Faults, s: State, ids: seq<UserId>, content: string)
    ensures Deliver(db, faults, s, ids, content).Running? ==>
              Deliver(db, faults, s, ids, content).state.log == s.log + Deliveries(db, s.registry, ids, content)
    decreases |ids|
  {
    if ids != [] {
      SendMessageToUserWritesReference(db, faults, s, ids[0], content);
      match SendMessageToUser(db, faults, s, ids[0], content)
      case Aborted(_) =>
      case Running(t) =>
        DeliverCompletesReference(db, faults, t, ids[1..], content);
    }
  }

  /** A prefix that stops inside `head` is a prefix of `head + rest`. */
  lemma PrefixWithinHead<T>(head: seq<T>, rest: seq<T>, m: nat)
    requires m <= |head|
    ensures (head + rest)[..m] == head[..m]
  {
  }

  /** All of `head` and a prefix of `rest`, after `log`, is `log` followed by
      a prefix of `head + rest`. */
  lemma PrefixThroughHead<T>(log: seq<T>, head: seq<T>, rest: seq<T>, n: nat)
    requires n <= |rest|
    ensures log + head + rest[..n] == log + (head + rest)[..|head| + n]
  {
    assert (head + rest)[..|head| + n] == head + rest[..n];
  }

  /** The fan-out loop writes a proper prefix of the reference events when it
      aborts. */
  lemma {:induction false} DeliverAbortsWithPrefix(db: Db, faults: Faults, s: State, ids: seq<UserId>, content: string)
    ensures Deliver(db, faults, s, ids, content).Aborted? ==>
              exists n :: 0 <= n < |Deliveries(db, s.registry, ids, content)| &&
                Deliver(db, faults, s, ids, content).state.log == s.log + Deliveries(db, s.registry, ids, content)[..n]
    decreases |ids|
  {
    if ids != [] {
      var head := RecipientEvents(db, s.registry, ids[0], content);
      var rest := Deliveries(db, s.registry, ids[1..], content);
      SendMessageToUserWritesReference(db, faults, s, ids[0], content);
      match SendMessageToUser(db, faults, s, ids[0], content)
      case Aborted(t) =>
        var m :| 0 <= m < |head| && t.log == s.log + head[..m];
        assert Deliver(db, faults, s, ids, content) == Aborted(t);
        assert Deliveries(db, s.registry, ids, content) == head + rest;
        PrefixWithinHead(head, rest, m);
      case Running(t) =>
        DeliverAbortsWithPrefix(db, faults, t, ids[1..], content);
        var o := Deliver(db, faults, t, ids[1..], content);
        assert Deliver(db, faults, s, ids, content) == o;
        assert Deliveries(db, s.registry, ids, content) == head + rest;
        if o.Aborted? {
          var n :| 0 <= n < |rest| && o.state.log == t.log + rest[..n];
          PrefixThroughHead(s.log, head, rest, n);
        }
    }
  }

  /** The fan-out loop writes the reference events when it runs through, and
      a proper prefix of them when it aborts. */
  lemma DeliverWritesReference(db: Db, faults: Faults, s: State, ids: seq<UserId>, content: string)
    ensures Deliver(db, faults, s, ids, content).Running? ==>
              Deliver(db, faults, s, ids, content).state.log == s.log + Deliveries(db, s.registry, ids, content)
    ensures Deliver(db, faults, s, ids, content).Aborted? ==>
              exists n :: 0 <= n < |Deliveries(db, s.registry, ids, content)| &&
                Deliver(db, faults, s, ids, content).state.log == s.log + Deliveries(db, s.registry, ids, content)[..n]
  {
    DeliverCompletesReference(db, faults, s, ids, content);
    DeliverAbortsWithPrefix(db, faults, s, ids, content);
  }

  /** The whole `send_message` handling: it runs through exactly when the
      insert and the recipient query succeed and every online recipient is
      reachable, and then writes the reference fan-out for the query's ids;
      when delivery aborts, a prefix of it has been written. */
  lemma SendMessageFanOut(db: Db, faults: Faults, s: State, chatId: ChatId, userId: UserId, content: string)
    ensures HandleSendMessage(db, faults, s, chatId, userId, content).Running? <==>
              && !faults.createFails
              && !faults.queryFails
              && forall id :: id in Recipients(db, chatId, userId) && id in s.registry ==>
                   s.registry[id] !in s.dead && id !in faults.lookupFails
    ensures HandleSendMessage(db, faults, s, chatId, userId, content).Running? ==>
              HandleSendMessage(db, faults, s, chatId, userId, content).state.log ==
                s.log + Deliveries(db, s.registry, Recipients(db, chatId, userId), content)
    ensures HandleSendMessage(db, faults, s, chatId, userId, content).Aborted? ==>
              exists n :: 0 <= n <= |Deliveries(db, s.registry, Recipients(db, chatId, userId), content)| &&
                HandleSendMessage(db, faults, s, chatId, userId, content).state.log ==
                  s.log + Deliveries(db, s.registry, Recipients(db, chatId, userId), content)[..n]
  {
    var full := Deliveries(db, s.registry, Recipients(db, chatId, userId), content);
    if faults.createFails || faults.queryFails {
      assert s.log == s.log + full[..0];
    } else {
      var persisted := s.(store := s.store + [Message(NextId(s.store), chatId, userId, content)]);
      DeliverRunsIff(db, faults, persisted, Recipients(db, chatId, userId), content);
      DeliverWritesReference(db, faults, persisted, Recipients(db, chatId, userId), content);
    }
  }

  /** The online recipients of a send are the chat's members other than the
      sender that have a registered connection, each listed once. */
  lemma OnlineRecipientsAreOnlineMembers(db: Db, registry: map<UserId, ConnId>, chatId: ChatId, userId: UserId)
    requires WellFormed(db)
    ensures Distinct(Online(registry, Recipients(db, chatId, userId)))
    ensures forall id :: id in Online(registry, Recipients(db, chatId, userId)) <==>
              id in ChatMemberIds(db, chatId) && id != userId && id in registry
  {
    RecipientsAreOtherMembers(db, chatId, userId);
    RecipientsDistinct(db, chatId, userId);
  }

  /** A successful `send_message` logs two events per online recipient, in
      recipient-list order: the ping and then the frame. */
  lemma SendLogsTwoEventsPerOnlineRecipient(db: Db, faults: Faults, s: State, chatId: ChatId, userId: UserId,
                                            content: string)
    requires HandleSendMessage(db, faults, s, chatId, userId, content).Running?
    ensures |HandleSendMessage(db, faults, s, chatId, userId, content).state.log| ==
              |s.log| + 2 * |Online(s.registry, Recipients(db, chatId, userId))|
    ensures forall j :: 0 <= j < |Online(s.registry, Recipients(db, chatId, userId))| ==>
              var id := Online(s.registry, Recipients(db, chatId, userId))[j];
              var log := HandleSendMessage(db, faults, s, chatId, userId, content).state.log;
              && log[|s.log| + 2 * j] == Ping(s.registry[id])
              && log[|s.log| + 2 * j + 1] == Send(s.registry[id], Broadcast(NewMessageType, EmailOf(db.users, id), content))
  {
    SendMessageFanOut(db, faults, s, chatId, userId, content);
    DeliveriesAt(db, s.registry, Recipients(db, chatId, userId), content);
  }

  /** A successful `send_message` writes, for every member of the chat other
      than the sender that has a registered connection, and for no one else,
      exactly one ping and one `new_message` frame carrying the content, in
      recipient-list order. */
  lemma SendDeliversOncePerOnlineMember(db: Db, faults: Faults, s: State, chatId: ChatId, userId: UserId,
                                        content: string)
    requires WellFormed(db)
    requires HandleSendMessage(db, faults, s, chatId, userId, content).Running?
    ensures Distinct(Online(s.registry, Recipients(db, chatId, userId)))
    ensures forall id :: id in Online(s.registry, Recipients(db, chatId, userId)) <==>
              id in ChatMemberIds(db, chatId) && id != userId && id in s.registry
    ensures |HandleSendMessage(db, faults, s, chatId, userId, content).state.log| ==
              |s.log| + 2 * |Online(s.registry, Recipients(db, chatId, userId))|
    ensures forall j :: 0 <= j < |Online(s.registry, Recipients(db, chatId, userId))| ==>
              var id := Online(s.registry, Recipients(db, chatId, userId))[j];
              var log := HandleSendMessage(db, faults, s, chatId, userId, content).state.log;
              && log[|s.log| + 2 * j] == Ping(s.registry[id])
              && log[|s.log| + 2 * j + 1] == Send(s.registry[id], Broadcast(NewMessageType, EmailOf(db.users, id), content))
  {
    OnlineRecipientsAreOnlineMembers(db, s.registry, chatId, userId);
    SendLogsTwoEventsPerOnlineRecipient(db, faults, s, chatId, userId, content);
  }

  /** The `FromUserEmail` of a delivered frame is the recipient's own address,
      not the sender's: the handler looks the user up by the recipient id. */
  lemma FrameCarriesRecipientEmail(db: Db, sender: User, recipient: User, content: string)
    requires WellFormed(db)
    requires sender in db.users && recipient in db.users && sender != recipient
    ensures NewMessageFrame(db, recipient.id, content).fromUserEmail == recipient.email
    ensures NewMessageFrame(db, recipient.id, content).fromUserEmail != sender.email
  {
    EmailOfOwner(db.users, recipient);
    var i :| 0 <= i < |db.users| && db.users[i] == sender;
    var j :| 0 <= j < |db.users| && db.users[j] == recipient;
    assert i != j;
  }

  /** The fault-free fan-out as the names `fromUser` and `FromUserEmail`
      mean it: every recipient gets the frame built for the sender's id. */
  function SenderDeliveries(db: Db, registry: map<UserId, ConnId>, ids: seq<UserId>, sender: UserId, content: string)
    : seq<Event>
  {
    if ids == [] then []
    else
      var id := ids[0];
      (if id in registry then [Ping(registry[id]), Send(registry[id], NewMessageFrame(db, sender, content))] else [])
      + SenderDeliveries(db, registry, ids[1..], sender, content)
  }

  /** With the sender-addressed frame, every frame of the fan-out names the
      sender, and the fan-out writes the same pings on the same connections
      as the handler's. */
  lemma {:induction false} SenderDeliveriesCarrySenderEmail(db: Db, registry: map<UserId, ConnId>, ids: seq<UserId>,
                                                            sender: User, content: string)
    requires WellFormed(db) && sender in db.users
    ensures |SenderDeliveries(db, registry, ids, sender.id, content)| == |Deliveries(db, registry, ids, content)|
    ensures forall k :: 0 <= k < |SenderDeliveries(db, registry, ids, sender.id, content)| ==>
              var e := SenderDeliveries(db, registry, ids, sender.id, content)[k];
              var d := Deliveries(db, registry, ids, content)[k];
              && e.conn == d.conn
              && e.Send? == d.Send?
              && (e.Send? ==> e.frame == Broadcast(NewMessageType, sender.email, content))
    decreases |ids|
  {
    if ids != [] {
      EmailOfOwner(db.users, sender);
      SenderDeliveriesCarrySenderEmail(db, registry, ids[1..], sender, content);
    }
  }

  /** A recipient registered on a connection that is gone makes the fan-out
      abort: the ping write fails and the handler calls `log.Fatal`. */
  lemma GoneRecipientAborts(db: Db, faults: Faults, s: State, chatId: ChatId, userId: UserId, content: string,
                            recipient: UserId)
    requires WellFormed(db)
    requires recipient in ChatMemberIds(db, chatId) && recipient != userId
    requires recipient in s.registry && s.registry[recipient] in s.dead
    ensures HandleSendMessage(db, faults, s, chatId, userId, content).Aborted?
  {
    RecipientsAreOtherMembers(db, chatId, userId);
    SendMessageFanOut(db, faults, s, chatId, userId, content);
  }

  /** Two identical joins from one connection close that connection while
      leaving it registered, so the next message another user sends to any
      chat of that user brings the server down. */
  lemma RepeatedJoinBreaksLaterDelivery(db: Db, faults: Faults, s: State, conn: ConnId, member: UserId,
                                        chatId: ChatId, sender: UserId, content: string)
    requires WellFormed(db)
    requires member in ChatMemberIds(db, chatId) && member != sender
    ensures var twice := HandleJoinChat(HandleJoinChat(s, conn, member), conn, member);
            HandleSendMessage(db, faults, twice, chatId, sender, content).Aborted?
  {
    var twice := HandleJoinChat(HandleJoinChat(s, conn, member), conn, member);
    GoneRecipientAborts(db, faults, twice, chatId, sender, content, member);
  }

  /** A peer that hangs up stays registered, so the next message another
      user sends to any chat of that user brings the server down. */
  lemma HangupBreaksLaterDelivery(db: Db, faults: Faults, s: State, conn: ConnId, member: UserId,
                                  chatId: ChatId, sender: UserId, content: string)
    requires WellFormed(db)
    requires member in ChatMemberIds(db, chatId) && member != sender
    requires member in s.registry && s.registry[member] == conn
    ensures Step(db, faults, s, Hangup(conn)).Running?
    ensures HandleSendMessage(db, faults, Step(db, faults, s, Hangup(conn)).state, chatId, sender, content).Aborted?
  {
    GoneRecipientAborts(db, faults, Step(db, faults, s, Hangup(conn)).state, chatId, sender, content, member);
  }

  // ---------------------------------------------------------------------
  // dispatch and the connection loop

  /** The registered connection of `userId` is gone: its read loop has
      ended, the handler has returned, and the connection framework has
      released the handle, whose underlying connection is now nil. */
  predicate StaleEntry(s: State, userId: UserId) {
    userId in s.registry && s.registry[userId] in s.dead
  }

  /** The switch on the frame's `Type`. A join over a stale entry calls
      `Close` on a released handle, a nil dereference that ends the process. */
  function Dispatch(db: Db, faults: Faults, s: State, conn: ConnId, req: Request): (o: Outcome)
    ensures req.Other? ==> o == Running(s)
    ensures req.JoinChat? && StaleEntry(s, req.userId) ==> o == Aborted(s)
    ensures req.JoinChat? && !StaleEntry(s, req.userId) ==> o == Running(HandleJoinChat(s, conn, req.userId))
    ensures req.SendMessage? ==> o == HandleSendMessage(db, faults, s, req.chatId, req.userId, req.message)
    ensures req.SendMessage? ==> o.state.registry == s.registry && o.state.dead == s.dead
  {
    match req
    case JoinChat(_, userId) =>
      if StaleEntry(s, userId) then Aborted(s) else Running(HandleJoinChat(s, conn, userId))
    case SendMessage(chatId, userId, message) => HandleSendMessage(db, faults, s, chatId, userId, message)
    case Other(_) => Running(s)
  }

  /** One turn of a connection's read loop. A frame on a connection that is
      gone is never read (the read fails and that loop has ended); a frame
      that does not unmarshal aborts. */
  function Step(db: Db, faults: Faults, s: State, input: Input): (o: Outcome)
    ensures s.log <= o.state.log && s.store <= o.state.store
    ensures |o.state.store| <= |s.store| + 1
    ensures SequentialIds(s.store) ==> SequentialIds(o.state.store)
    ensures input.Receive? && input.conn in s.dead ==> o == Running(s)
    ensures input.Receive? && input.conn !in s.dead && Decode(input.raw).Fatal? ==> o == Aborted(s)
    ensures input.Receive? && input.conn !in s.dead && Decode(input.raw).Decoded? ==>
              o == Dispatch(db, faults, s, input.conn, Decode(input.raw).request)
    ensures input.Hangup? ==> o == Running(s.(dead := s.dead + {input.conn}))
    ensures s.registry.Keys <= o.state.registry.Keys && s.dead <= o.state.dead
  {
    match input
    case Hangup(conn) => Running(s.(dead := s.dead + {conn}))
    case Receive(conn, raw) =>
      if conn in s.dead then Running(s)
      else
        match Decode(raw)
        case Fatal => Aborted(s)
        case Decoded(req) =>
          var o := Dispatch(db, faults, s, conn, req);
          DispatchAppends(db, faults, s, conn, req);
          o
  }

  lemma DispatchAppends(db: Db, faults: Faults, s: State, conn: ConnId, req: Request)
    ensures var o := Dispatch(db, faults, s, conn, req);
            s.log <= o.state.log && s.store <= o.state.store
  {
    if req.SendMessage? && !faults.createFails && !faults.queryFails {
      var persisted := s.(store := s.store + [Message(NextId(s.store), req.chatId, req.userId, req.message)]);
      DeliverWritesReference(db, faults, persisted, Recipients(db, req.chatId, req.userId), req.message);
    }
  }

  /** The interleaved read loops over a stream of inputs, one fault setting
      per input, until the end of the stream or an abort. Along the way the
      log and the store only grow, by at most one message per input, ids stay
      sequential, and no user is ever unregistered nor any gone connection
      revived. */
  function Run(db: Db, faults: seq<Faults>, s: State, inputs: seq<Input>): (o: Outcome)
    requires |faults| == |inputs|
    ensures s.log <= o.state.log && s.store <= o.state.store
    ensures |o.state.store| <= |s.store| + |inputs|
    ensures SequentialIds(s.store) ==> SequentialIds(o.state.store)
    ensures s.registry.Keys <= o.state.registry.Keys && s.dead <= o.state.dead
    decreases |inputs|
  {
    if inputs == [] then Running(s)
    else
      match Step(db, faults[0], s, inputs[0])
      case Aborted(t) => Aborted(t)
      case Running(t) => Run(db, faults[1..], t, inputs[1..])
  }

  /** A user whose peer hung up cannot join again from a new connection: the
      stale entry makes the join close a released handle, and the process
      ends. */
  lemma ReconnectAfterHangupAborts(db: Db, faults: Faults, s: State, conn: ConnId, member: UserId,
                                   chatId: ChatId, newConn: ConnId)
    requires member in s.registry && s.registry[member] == conn
    requires newConn != conn && newConn !in s.dead
    requires chatId < UintLimit && member < UintLimit
    ensures Step(db, faults, s, Hangup(conn)).state.registry == s.registry
    ensures Step(db, faults, Step(db, faults, s, Hangup(conn)).state, Receive(newConn, Encode(JoinChat(chatId, member))))
            == Aborted(Step(db, faults, s, Hangup(conn)).state)
  {
    DecodeEncode(JoinChat(chatId, member));
  }

  /** A frame whose `Type` is neither handled type only gets logged. */
  lemma UnhandledTypeChangesNothing(db: Db, faults: Faults, s: State, conn: ConnId, raw: RawFrame)
    requires conn !in s.dead
    requires BaseDecodes(raw) && !IsHandledType(TypeOf(raw))
    ensures Step(db, faults, s, Receive(conn, raw)) == Running(s)
  {
  }

  /** Running two streams one after the other is running their
      concatenation: an abort in the first ends the run there, and otherwise
      the second picks up from the state the first left. */
  lemma {:induction false} RunConcat(db: Db, f1: seq<Faults>, f2: seq<Faults>, s: State, in1: seq<Input>, in2: seq<Input>)
    requires |f1| == |in1| && |f2| == |in2|
    ensures Run(db, f1, s, in1).Aborted? ==> Run(db, f1 + f2, s, in1 + in2) == Run(db, f1, s, in1)
    ensures Run(db, f1, s, in1).Running? ==>
              Run(db, f1 + f2, s, in1 + in2) == Run(db, f2, Run(db, f1, s, in1).state, in2)
    decreases |in1|
  {
    if in1 == [] {
      assert f1 + f2 == f2 && in1 + in2 == in2;
    } else {
      assert (f1 + f2)[0] == f1[0] && (in1 + in2)[0] == in1[0];
      assert (f1 + f2)[1..] == f1[1..] + f2 && (in1 + in2)[1..] == in1[1..] + in2;
      match Step(db, f1[0], s, in1[0])
      case Aborted(_) =>
      case Running(t) =>
        RunConcat(db, f1[1..], f2, t, in1[1..], in2);
    }
  }
}
