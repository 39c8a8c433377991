/** `saveMessage`: store a message on behalf of the user with a given e-mail
    address. */
module Persist {
  import opened Models

  /** `First` on the e-mail filter: the first matching row in primary-key
      order, or none. */
  function FindByEmail(users: seq<User>, email: string): (r: Option<User>)
    ensures r.None? <==> forall u :: u in users ==> u.email != email
    ensures r.Some? ==> r.value in users && r.value.email == email
    ensures r.Some? ==> exists k :: 0 <= k < |users| && users[k] == r.value && forall i :: 0 <= i < k ==> users[i].email != email
  {
    if users == [] then None
    else if users[0].email == email then Some(users[0])
    else
      var r := FindByEmail(users[1..], email);
      assert forall u :: u in users[1..] ==> u in users;
      r
  }

  /** The Go pair `(uint, error)` and the message store after the call. */
  datatype SaveReturn = SaveReturn(id: MessageId, err: Option<Error>, store: seq<Message>)

  function SaveMessage(db: Db, store: seq<Message>, userEmail: string, chatId: ChatId, content: string, faults: Faults)
    : (r: SaveReturn)
    // errors return id 0 and leave the store alone
    ensures r.err.Some? ==> r.id == 0 && r.store == store
    ensures r.err.None? <==>
              !faults.queryFails && !faults.createFails && exists u :: u in db.users && u.email == userEmail
    ensures r.err == Some(RecordNotFound) <==>
              !faults.queryFails && forall u :: u in db.users ==> u.email != userEmail
    ensures r.err == Some(QueryFailed) <==> faults.queryFails
    ensures r.err == Some(CreateFailed) <==>
              !faults.queryFails && faults.createFails && exists u :: u in db.users && u.email == userEmail
    // success appends exactly one message, whose id is returned
    ensures r.err.None? ==>
              && |r.store| == |store| + 1
              && r.store[..|store|] == store
              && r.store[|store|].id == r.id
              && r.store[|store|].chatId == chatId
              && r.store[|store|].content == content
              && exists u :: u in db.users && u.email == userEmail && u.id == r.store[|store|].fromId
    ensures SequentialIds(store) ==> SequentialIds(r.store) && (r.err.None? ==> r.id == |r.store|)
  {
    if faults.queryFails then SaveReturn(0, Some(QueryFailed), store)
    else
      match FindByEmail(db.users, userEmail)
      case None => SaveReturn(0, Some(RecordNotFound), store)
      case Some(user) =>
        if faults.createFails then SaveReturn(0, Some(CreateFailed), store)
        else
          var id := NextId(store);
          SaveReturn(id, None, store + [Message(id, chatId, user.id, content)])
  }

  /** With unique e-mail addresses the stored sender is the one user who
      owns the address. */
  lemma SavedSenderOwnsEmail(db: Db, store: seq<Message>, userEmail: string, chatId: ChatId, content: string,
                             faults: Faults, u: User)
    requires WellFormed(db)
    requires u in db.users && u.email == userEmail
    requires SaveMessage(db, store, userEmail, chatId, content, faults).err.None?
    ensures SaveMessage(db, store, userEmail, chatId, content, faults).store[|store|].fromId == u.id
  {
    var r := SaveMessage(db, store, userEmail, chatId, content, faults);
    var v :| v in db.users && v.email == userEmail && v.id == r.store[|store|].fromId;
    var i :| 0 <= i < |db.users| && db.users[i] == u;
    var j :| 0 <= j < |db.users| && db.users[j] == v;
    assert db.users[i].email == db.users[j].email;
    assert i == j;
  }
}
