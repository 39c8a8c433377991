/** The recipient query of the fan-out: ids of the members of a chat other
    than one user, read from the join of the user table with `chat_members`.

    The rows come back in user-table order, one of the orders the database
    may choose. */
module Queries {
  import opened Models

  /** The users the join selects: members of `chatId` whose id is not
      `skipUserId`, in table order. */
  function MatchedUsers(users: seq<User>, members: set<(ChatId, UserId)>, chatId: ChatId, skipUserId: UserId)
    : (r: seq<User>)
    ensures forall u :: u in r <==> u in users && u.id != skipUserId && (chatId, u.id) in members
    ensures |r| <= |users|
    ensures (forall i, j :: 0 <= i < j < |users| ==> users[i].id < users[j].id) ==>
              forall i, j :: 0 <= i < j < |r| ==> r[i].id < r[j].id
  {
    if users == [] then []
    else
      var rest := MatchedUsers(users[1..], members, chatId, skipUserId);
      if users[0].id != skipUserId && (chatId, users[0].id) in members then
        assert forall u :: u in rest ==> u in users[1..];
        [users[0]] + rest
      else rest
  }

  function Ids(users: seq<User>): seq<UserId> {
    seq(|users|, i requires 0 <= i < |users| => users[i].id)
  }

  /** `getChatUsersExcept`: the ids of the matched users, position by
      position, or the query's error and no ids. */
  function ChatUsersExcept(db: Db, chatId: ChatId, skipUserId: UserId, queryFails: bool): (r: Result<seq<UserId>>)
    ensures r.Err? <==> queryFails
    ensures r.Err? ==> r.error == QueryFailed
    ensures r.Ok? ==>
              var matched := MatchedUsers(db.users, db.members, chatId, skipUserId);
              |r.value| == |matched| && forall i :: 0 <= i < |matched| ==> r.value[i] == matched[i].id
  {
    if queryFails then Err(QueryFailed)
    else Ok(Ids(MatchedUsers(db.users, db.members, chatId, skipUserId)))
  }

  /** The recipients the query yields when it succeeds. */
  function Recipients(db: Db, chatId: ChatId, skipUserId: UserId): seq<UserId> {
    Ids(MatchedUsers(db.users, db.members, chatId, skipUserId))
  }

  /** The members of a chat, read off the membership relation alone. */
  function ChatMemberIds(db: Db, chatId: ChatId): set<UserId> {
    set p | p in db.members && p.0 == chatId :: p.1
  }

  /** A returned id is a member of the chat and not the skipped user. */
  lemma RecipientIsOtherMember(db: Db, chatId: ChatId, skipUserId: UserId, id: UserId)
    requires id in Recipients(db, chatId, skipUserId)
    ensures id in ChatMemberIds(db, chatId) && id != skipUserId
  {
    var matched := MatchedUsers(db.users, db.members, chatId, skipUserId);
    var r := Recipients(db, chatId, skipUserId);
    var i :| 0 <= i < |r| && r[i] == id;
    assert matched[i] in matched;
    assert (chatId, id) in db.members;
  }

  /** A member of the chat other than the skipped user is returned. */
  lemma OtherMemberIsRecipient(db: Db, chatId: ChatId, skipUserId: UserId, id: UserId)
    requires WellFormed(db)
    requires id in ChatMemberIds(db, chatId) && id != skipUserId
    ensures id in Recipients(db, chatId, skipUserId)
  {
    var matched := MatchedUsers(db.users, db.members, chatId, skipUserId);
    assert (chatId, id) in db.members;
    assert HasUser(db.users, id);
    var u :| u in db.users && u.id == id;
    assert u in matched;
    var i :| 0 <= i < |matched| && matched[i] == u;
    assert Recipients(db, chatId, skipUserId)[i] == id;
  }

  /** Exactly the chat's members other than the skipped user are returned:
      each returned id is such a member, never the skipped one, and every
      such member is returned. */
  lemma RecipientsAreOtherMembers(db: Db, chatId: ChatId, skipUserId: UserId)
    requires WellFormed(db)
    ensures forall id :: id in Recipients(db, chatId, skipUserId) <==> id in ChatMemberIds(db, chatId) && id != skipUserId
  {
    forall id
      ensures id in Recipients(db, chatId, skipUserId) <==> id in ChatMemberIds(db, chatId) && id != skipUserId
    {
      if id in Recipients(db, chatId, skipUserId) {
        RecipientIsOtherMember(db, chatId, skipUserId, id);
      }
      if id in ChatMemberIds(db, chatId) && id != skipUserId {
        OtherMemberIsRecipient(db, chatId, skipUserId, id);
      }
    }
  }

  /** No id is returned twice, so each member gets at most one delivery. */
  lemma RecipientsDistinct(db: Db, chatId: ChatId, skipUserId: UserId)
    requires WellFormed(db)
    ensures Distinct(Recipients(db, chatId, skipUserId))
  {
    var matched := MatchedUsers(db.users, db.members, chatId, skipUserId);
    assert forall i, j :: 0 <= i < j < |matched| ==> matched[i].id < matched[j].id;
  }

  /** When the skipped user is not a member, the whole member set comes back. */
  lemma NonMemberSkipReturnsAllMembers(db: Db, chatId: ChatId, skipUserId: UserId)
    requires WellFormed(db)
    requires skipUserId !in ChatMemberIds(db, chatId)
    ensures forall id :: id in Recipients(db, chatId, skipUserId) <==> id in ChatMemberIds(db, chatId)
  {
    RecipientsAreOtherMembers(db, chatId, skipUserId);
  }
}
