/** The records the chat server stores, and the abstract database the
    WebSocket handler talks to.

    Identifiers are unbounded naturals (the server uses 64-bit unsigned
    integers; no operation here does arithmetic on identifiers, and decoded
    frame ids are bounded separately). The database is split
    into the parts the handler only reads (the user table and the chat
    membership relation, fixed while frames are handled) and the message
    store, which the handler appends to and which lives in the handler state. */
module Models {

  type UserId = nat
  type ChatId = nat
  type MessageId = nat
  /** An opaque handle for one WebSocket connection. */
  type ConnId = nat

  datatype Option<+T> = None | Some(value: T)

  /** What a failed database query or a fixture helper reports. */
  datatype Error =
    | RecordNotFound   // `First` found no row
    | QueryFailed      // any other error of a read query
    | CreateFailed     // an insert was refused
    | NoUsers          // the fixture generator found an empty user table

  datatype Result<+T> = Ok(value: T) | Err(error: Error)

  datatype User = User(id: UserId, name: string, email: string)

  datatype Message = Message(id: MessageId, chatId: ChatId, fromId: UserId, content: string)

  /** The user table (in primary-key order) and the `chat_members` join table. */
  datatype Db = Db(users: seq<User>, members: set<(ChatId, UserId)>)

  /** Which database operations fail while one frame is handled. The network
      is not here: a write fails exactly when its connection is gone. */
  datatype Faults = Faults(createFails: bool, queryFails: bool, lookupFails: set<UserId>)

  const NoFaults := Faults(false, false, {})

  predicate Distinct<T(==)>(s: seq<T>) {
    forall i, j :: 0 <= i < j < |s| ==> s[i] != s[j]
  }

  predicate HasUser(users: seq<User>, id: UserId) {
    exists u :: u in users && u.id == id
  }

  /** The constraints the schema enforces: primary keys ascending in table
      order, unique e-mail addresses, and membership rows that refer to
      existing users. */
  predicate WellFormed(db: Db) {
    && (forall i, j :: 0 <= i < j < |db.users| ==> db.users[i].id < db.users[j].id)
    && (forall i, j :: 0 <= i < j < |db.users| ==> db.users[i].email != db.users[j].email)
    && (forall p :: p in db.members ==> HasUser(db.users, p.1))
  }

  /** Message ids come from an auto-increment key starting at 1. */
  predicate SequentialIds(store: seq<Message>) {
    forall i :: 0 <= i < |store| ==> store[i].id == i + 1
  }

  function NextId(store: seq<Message>): MessageId {
    |store| + 1
  }

}
