# gochatapp WebSocket fan-out, modelled in Dafny

The chat server keeps a registry from user id to the user's WebSocket
connection. A `join_chat` frame registers the connection it arrives on,
closing whatever connection was registered for that user before. A
`send_message` frame stores the message, asks the database for the other
members of the chat, and writes a `new_message` frame to each of them that
has a registered connection. Every failure on the way (a frame that does not
unmarshal, a database error, a failed write) calls `log.Fatal`, which ends the
whole server process.

The model is a sequential state machine over immutable values:

- `Models` (models.dfy, models the records of models.go the core uses):
  users, messages, the read-only database (user table in primary-key order
  and the `chat_members` relation), the error kinds, and `Faults`, which says
  which database operations fail while one frame is handled.
- `Frames` (frames.dfy, models the schemas and decoding of ws_handlers.go):
  the two-phase decoding (`Type` first, then the schema of the chosen branch),
  with Go's rules: absent fields decode to zero values, and a field of the
  wrong type is an unmarshal error, as is an id too large for a Go `uint`
  (64 bits on a 64-bit platform). A join frame has no `Message` field, so a malformed `Message` does
  not break it.
- `Queries` (queries.dfy, models queries.go): `getChatUsersExcept` as a
  filter of the user table by the membership relation.
- `Persist` (persist.dfy, models persist.go): `saveMessage`, lookup by e-mail
  then insert.
- `WsHandlers` (ws_handlers.dfy, models ws_handlers.go): the state (registry,
  message store, the set of connections that are gone, the output log of
  `Close`/`Ping`/`Send` events), `handleJoinChat`, `sendMessageToUser`, the
  fan-out loop, `handleSendMessage`, the `Type` switch, one turn of a read
  loop (`Step`) and the interleaving of all read loops (`Run`). A `log.Fatal*`
  call is an `Aborted` outcome that keeps everything done before it.
- `Scenarios` (scenarios.dfy, a run through ws_handlers.go and queries.go): a
  worked run with three members of one chat.
- `Generate` (generate.dfy, models generate.go): `selectRandomUsers` with the
  shuffle passed in as a permutation, and the member-count bound of
  `addRandomChatWithUsers`.

A connection is "gone" once the server closed it (a join displaced it) or its
peer hung up. Reads on a gone connection fail, so its read loop has ended and
none of its frames is handled. Once its handler has returned, the connection
framework releases the handle and clears its underlying connection. A later
write to it (`WriteControl`) or `Close` on it then dereferences nil, and the
process ends with a panic. The model records both as an abort, like
`log.Fatal`. A join for a user whose registered connection is gone therefore
aborts too.

### Behaviour as written that departs from the evident intent

The model follows the code. The lemmas named here show where that differs
from what the code's own names and comments say it is for.

- Each delivered frame's `FromUserEmail` is the recipient's own address,
  because the user is looked up by the recipient's id (ws_handlers.go:121).
  The field is named `FromUserEmail` and the looked-up user `fromUser`
  (ws_handlers.go:120-130), so the sender's address is what is meant.
  `WsHandlers.FrameCarriesRecipientEmail` proves the behaviour as written for
  any two distinct users. `Scenarios.OfflineSenderScenario` shows it in a
  concrete run. See "## Findings" for the corrected frame.
- A second `join_chat` from the same connection closes that connection and
  leaves it registered (ws_handlers.go:153-157). Since connection handles are
  never reused (see "## Left out"), that entry stays on a closed connection,
  and the next message another user sends to any chat of that user then
  aborts the server: see
  `WsHandlers.RepeatedJoinBreaksLaterDelivery`.
- Registry entries are never removed when a peer hangs up. Since connection
  handles are never reused, the entry keeps pointing at the gone connection,
  so the next message another user sends to any chat of that user also
  aborts the server: see
  `WsHandlers.HangupBreaksLaterDelivery`.
- A member with a registered connection gets the message exactly once only
  when every online recipient is reachable. One gone connection stops the
  whole fan-out, and the remaining members get nothing (`WsHandlers.DeliverRunsIff`).
- The sender is not checked for membership of the chat, and a join frame's
  `ChatID` is decoded but never used.

## Model

| member | source | states |
|---|---|---|
| `Frames.Decode` | ws_handlers.go:55-71 | a frame aborts exactly when the base unmarshal fails or the schema chosen by `Type` does not unmarshal; otherwise a join or send request carries the frame's fields (zero when absent), with ids that fit a 64-bit `uint`, and any other `Type` becomes an unhandled request |
| `Frames.DecodeEncode` | ws_handlers.go:15-32 | every request a client encodes with the schemas, with ids that fit a `uint`, decodes back to itself |
| `Frames.OversizedIdAborts` | ws_handlers.go:19-32 | a handled frame with an id of 2^64 or more does not unmarshal, so the handler aborts |
| `Frames.JoinIgnoresMessage` | ws_handlers.go:145-149 | a join frame decodes the same whatever its `Message` field holds, because the join schema has no such field |
| `Frames.AbsentFieldsDecodeToZero` | ws_handlers.go:19-32 | a handled frame with no fields decodes to ids 0 and empty content |
| `Queries.MatchedUsers` | queries.go:6-10 | the joined rows are exactly the users that are members of the chat and are not the skipped user; ascending ids stay ascending |
| `Queries.ChatUsersExcept` | queries.go:5-20 | a failed query returns only the error; otherwise the result lists the matched users' ids position by position, one per matched user |
| `Queries.RecipientIsOtherMember` | queries.go:7-10 | every returned id is a member of the chat according to the membership relation and is not the skipped id |
| `Queries.OtherMemberIsRecipient` | queries.go:7-10 | when every membership row names an existing user, every member of the chat other than the skipped id is returned |
| `Queries.RecipientsAreOtherMembers` | queries.go:7-10 | an id is returned exactly when it is a member of the chat according to the membership relation and is not the skipped id |
| `Queries.RecipientsDistinct` | queries.go:7-10 | no id is returned twice |
| `Queries.NonMemberSkipReturnsAllMembers` | queries.go:7-10 | when the skipped user is not a member, the result is the chat's whole member set |
| `Persist.FindByEmail` | persist.go:10-13 | no result exactly when no user has the address; otherwise the first user in key order with that address |
| `Persist.SaveMessage` | persist.go:8-26 | the call succeeds exactly when the lookup and the insert do not fail and some user has the address; an unknown address, a failed lookup or a failed insert return id 0 with the matching error and leave the store unchanged; success appends one message with the given chat and content, sent by a user owning the address, and returns its new id |
| `Persist.SavedSenderOwnsEmail` | persist.go:9-19 | with unique addresses, the stored sender id is the id of the user whose address was given |
| `WsHandlers.HandleJoinChat` | ws_handlers.go:144-160 | the user now maps to the current connection and every other entry is unchanged; a previously registered connection is closed first and is gone afterwards; the message store is untouched |
| `WsHandlers.JoinTwice` | ws_handlers.go:152-157 | two identical joins leave the registry of one join, but the second emits a `Close` of the connection just registered, which is then gone |
| `WsHandlers.EmailOf` | ws_handlers.go:120-124 | an id with no user yields the empty address, because `Find` without a match reports no error |
| `WsHandlers.EmailOfOwner` | ws_handlers.go:120-124 | with ascending ids, the lookup by a user's id yields that user's address |
| `WsHandlers.NewMessageFrame` | ws_handlers.go:120-132 | the frame for a recipient is a `new_message` frame with the content, and its address is empty when no user has the recipient id |
| `WsHandlers.SendMessageToUser` | ws_handlers.go:106-118 | a user without a registered connection is skipped with no event; a registered connection that is gone aborts before any write; neither changes the registry or the store |
| `WsHandlers.Deliver` | ws_handlers.go:101-103 | the fan-out loop leaves the registry, the store and the set of gone connections as they were |
| `WsHandlers.HandleSendMessage` | ws_handlers.go:75-98 | a failed insert aborts with nothing changed; otherwise exactly one message with the chat, the sender as `FromID` and the content is stored before any delivery, whatever happens next; a failed recipient query aborts right after the insert; the registry is never modified |
| `WsHandlers.Online` | ws_handlers.go:107-112 | the ids kept are exactly the listed ids with a registered connection, any two of them in the order they have in the list, distinct when the list is |
| `WsHandlers.DeliveriesLength` | ws_handlers.go:101-118 | the fault-free fan-out writes two events per listed recipient with a registered connection and none for the others |
| `WsHandlers.DeliveryAt` | ws_handlers.go:101-141 | the j-th online recipient gets the ping at position 2j and the `new_message` frame with the content at 2j+1, both on its registered connection |
| `WsHandlers.DeliveriesAt` | ws_handlers.go:101-141 | the fault-free fan-out writes two events per online recipient, in list order: a ping and then a `new_message` frame with the content and the e-mail found for the recipient id, both on that recipient's connection |
| `WsHandlers.DeliverRunsIff` | ws_handlers.go:101-141 | the fan-out loop completes exactly when every listed recipient with a registered connection is reachable and its lookup succeeds |
| `WsHandlers.SendMessageToUserWritesReference` | ws_handlers.go:106-141 | a completed write to one recipient logs exactly its reference events, and an aborted one a proper prefix of them |
| `WsHandlers.DeliverCompletesReference` | ws_handlers.go:101-103 | a completed fan-out writes exactly the reference events |
| `WsHandlers.DeliverAbortsWithPrefix` | ws_handlers.go:101-103 | an aborted fan-out has written a proper prefix of the reference events |
| `WsHandlers.DeliverWritesReference` | ws_handlers.go:101-141 | a completed fan-out writes exactly the reference events; an aborted one has written a proper prefix of them |
| `WsHandlers.SendMessageFanOut` | ws_handlers.go:75-142 | `send_message` completes exactly when the insert, the query and every delivery succeed, and then logs the reference fan-out for the query's ids; when it aborts, the log holds a prefix of that fan-out |
| `WsHandlers.OnlineRecipientsAreOnlineMembers` | ws_handlers.go:95-112 | the recipients that have a registered connection are exactly the chat's members other than the sender with a registered connection, each listed once |
| `WsHandlers.SendLogsTwoEventsPerOnlineRecipient` | ws_handlers.go:101-141 | a completed send logs two events per online recipient, in recipient-list order: a ping and then the frame with the content and the address found for the recipient id |
| `WsHandlers.SendDeliversOncePerOnlineMember` | ws_handlers.go:95-141 | after a completed send, the recipients written to are exactly the chat's members other than the sender that have a registered connection, each once, in query order, each getting a ping and one frame with the content |
| `WsHandlers.FrameCarriesRecipientEmail` | ws_handlers.go:120-131 | the frame for a recipient carries the recipient's own address and never another user's, the sender's included |
| `WsHandlers.SenderDeliveriesCarrySenderEmail` | ws_handlers.go:101-141 | with the corrected frame, the fan-out writes on the same connections in the same order as the handler's, and every frame carries the sender's address |
| `WsHandlers.GoneRecipientAborts` | ws_handlers.go:114-118 | a member other than the sender that is registered on a gone connection makes every send to the chat abort |
| `WsHandlers.RepeatedJoinBreaksLaterDelivery` | ws_handlers.go:153-157 | after two identical joins of a member, any send to one of its chats by another user aborts |
| `WsHandlers.HangupBreaksLaterDelivery` | ws_handlers.go:47-52 | a hang-up keeps the registry entry, and any later send to one of that user's chats by another user aborts |
| `WsHandlers.Dispatch` | ws_handlers.go:61-71 | an unhandled `Type` changes nothing; a join is `handleJoinChat`, except that a join over a registered connection that is gone aborts, because closing the released handle at ws_handlers.go:155 ends the process; a send is `handleSendMessage` and never touches the registry or the set of gone connections |
| `WsHandlers.Step` | ws_handlers.go:47-71 | a frame on an open connection that does not unmarshal aborts with nothing changed, one that does is dispatched on its `Type`, and a hang-up only marks the connection gone; one turn only appends to the log and the store, stores at most one message, keeps message ids sequential, never unregisters a user or revives a gone connection, and ignores frames on a gone connection |
| `WsHandlers.ReconnectAfterHangupAborts` | ws_handlers.go:153-157 | after a peer hangs up, its registry entry stays, and the user's next join from a new connection ends the process |
| `WsHandlers.UnhandledTypeChangesNothing` | ws_handlers.go:69-70 | a frame whose `Type` is neither handled type leaves the whole state as it was |
| `WsHandlers.Run` | ws_handlers.go:47-72 | along any run the log and the store only grow, by at most one message per input, message ids stay sequential, no user is unregistered and no gone connection comes back |
| `WsHandlers.RunConcat` | ws_handlers.go:47-72 | running two input streams one after the other is running their concatenation: an abort in the first ends the run, otherwise the second continues from the state the first left |
| `Scenarios.ScenarioRecipients` | queries.go:5-20 | in the worked database the recipients of the third user's message in chat 7 are users 1 and 2, in that order |
| `Scenarios.ScenarioDeliver` | ws_handlers.go:101-141 | in the worked run the fan-out to users 1 and 2 pings each one's connection and then sends each a frame with the content and its own address |
| `Scenarios.ScenarioSend` | ws_handlers.go:75-142 | the worked send stores the message and writes a ping and a frame to each of the two online members, each frame carrying its recipient's address |
| `Scenarios.OfflineSenderScenario` | ws_handlers.go:41-160 | two joins and a send from a user who never joined end with both joined users registered, the message stored, and the two frames delivered, none to the sender |
| `Scenarios.ReconnectScenario` | ws_handlers.go:47-72 | a join, a hang-up and a join of the same user from a new connection end in an abort, with the first registration and the gone connection recorded |
| `Generate.PickAroundLast` | generate.go:172-182 | distinct positions that include the last one read the last element once, between what the other positions read from the rest of the list |
| `Generate.PickDistinctIsSubMultiset` | generate.go:172-182 | reading a list at distinct positions takes no element more often than it occurs |
| `Generate.SelectRandomUsers` | generate.go:170-184 | exactly `cnt` users, the i-th being the user at the i-th shuffled position, and no user taken more often than it occurs in the input |
| `Generate.AddRandomChatWithUsers` | generate.go:100-122 | a failed query returns the query error, an empty user table is refused with its own error, and a failed insert on a non-empty table returns the insert error; a generated chat has fewer than `min(len(users), 10)` members, so at most 9, all drawn from the users |
| `Generate.EveryCountBelowBoundReachable` | generate.go:111-115 | every member count below the bound is produced by some random draw |
| `Generate.SingleUserChatIsEmpty` | generate.go:111-115 | with exactly one user the generated chat has no members |

## Left out

- WebSocket and JSON I/O: reading frames, `WriteControl`, `WriteMessage`, the
  ping deadline and JSON text are not modelled. Frames are values of
  `RawFrame`, and writes are logged events.
- `json.Marshal` of the broadcast frame (ws_handlers.go:133-136) cannot fail
  on a struct of strings, so its `log.Fatalf` branch is not modelled.
- The lookup of the database handle when a connection opens
  (ws_handlers.go:42-45) is setup, not frame handling. Debug and error
  logging is not modelled.
- The error returned by `Close` is ignored by the code, and the model ignores
  it too.
- Concurrency: the registry is shared by all read loops without a lock in the
  code. The model runs one interleaved sequence of inputs, so it has no data
  race.
- Identifiers are naturals. Decoded frame ids are bounded by 2^64, as a Go
  `uint` is on a 64-bit platform, but ids in the database and the message store are not bounded.
  No operation here does arithmetic on ids, so no wrap-around is lost.
- Message ids: an insert takes the next id after the stored messages. A real
  sequence may skip values after failed inserts; that is not modelled.
- The database may return the joined rows in any order. The model fixes the
  user-table order (ascending ids).
- The connection framework may hand a released connection object to a new
  connection. A stale registry entry would then write to, or close, that new
  connection instead of panicking. The model treats connection handles as
  never reused, so a stale entry always ends the process.
- The release of a handle happens in the connection framework, whose code is
  not part of this model. The model takes a connection as released as soon as
  it is gone; the short window between a server-side `Close` and the end of
  its read loop is not modelled.
- HTTP, template and CRUD handlers, sessions, middleware, configuration and
  database setup are outside the fan-out.
- Fixture helpers that use the network, files or a fake-data library
  (`addRandomUser`, `loadImageFromURL`, `addRandomUsers`,
  `addRandomChatWithNoUsers`, `generateRandomChats`) are not modelled. The
  chat name is a parameter.
- Generate.AddRandomChatWithUsers: `rand.Intn(m)` is modelled as `draw % m`
  for an arbitrary `draw`, and `rand.Shuffle` as an arbitrary permutation.
  The distribution of either is not modelled.

## Findings

The handler model keeps the behaviour as written. The corrected fan-out
(`WsHandlers.SenderDeliveries`, the frame built for the sender's id) is
stated beside it and is not used by the handler model.

| source | as written | input that shows it | evidently intended | confidence | as-written member | corrected member |
|---|---|---|---|---|---|---|
| ws_handlers.go:120-130 | `FromUserEmail` is the address of the user looked up by the recipient's id | users 1 (`a@example.com`) and 3 in chat 7, user 1 joined, user 3 sends: user 1's frame says `a@example.com` | the sender's address, as the names `fromUser` and `FromUserEmail` say | medium, not executed | `WsHandlers.FrameCarriesRecipientEmail` | `WsHandlers.SenderDeliveriesCarrySenderEmail` |
