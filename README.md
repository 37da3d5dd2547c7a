# SimpleChat backend core, modelled in Dafny

SimpleChat is a chat backend in Go. Users register and send each other
direct messages over websockets. The messages are stored in a relational
database and can be fetched again as chat history. This project models the
two parts of the backend that carry its logic:

- **The live-connection registry** (`backend/app_messanger/handlers/clients.go`).
  A process-wide map from a user's id to the list of that user's open
  connections, with `AddClient` and `RemoveClient`. File `registry.dfy`,
  module `Registry`. Class `Clients` holds the map as a field
  `entries: map<UserId, seq<Client>>`. Its methods are proved against the
  functions `Added` and `Removed`, and the properties are proved about those
  functions.
- **The database rules** (`backend/core/db/db.go`). These cover unique
  usernames, lookups by id and by username, chat history in `created_at`
  order, and the get-or-create rule for two-party chats. The read-only queries
  and the GetOrCreateChat decision are pure functions of the database value
  `ChatDb.Db` (file `chatdb.dfy`, module `ChatDb`). The operations that write
  are methods of class `ChatStore.Store` (file `chatstore.dfy`). That class
  holds the four tables as fields.

How the database is represented:

- The many-to-many join table between users and chats is a sequence of
  `Membership(chatId, userId)` rows. Nothing else records who is in which chat.
  A user's chats (`Preload("Chats")`) and a chat's users (`Preload("Users")`)
  are both read from it.
- New keys stand for `uuid.NewRandom`. The store's `nextId` counter hands them
  out, and every key in use is below it, so each new key is fresh.
- `created_at` is a parameter of `CreateMessage`: it is the storage layer's
  clock reading at insertion.
- The two helpers in `backend/core/services` are not part of this model. They
  are parameters instead:
  - `services.EncodePassword` is a function `string -> Option<string>`, where
    `None` is its error.
  - `services.IntersectUserChats` is a function constrained only by
    membership (`ChatDb.IsIntersection`: an id is in the result exactly when it
    is in both lists). Nothing assumes anything about order within the
    intersection beyond taking element 0.

## Behaviour worth knowing

The model follows the code in each of these cases, including where a caller might expect otherwise:

- **Singleton removal.** `RemoveClient` on a one-element list deletes the
  user's key whatever connection is stored there (clients.go:53-54). A caller
  might expect removing an unlisted connection to leave the registry
  unchanged; on a one-element list it deletes the key anyway.
- **Missing connection in a longer list.** On a longer list with no matching
  handle, `slices.IndexFunc` yields -1 and `slices.Delete(s, -1, 0)` panics
  (clients.go:57-60). The model makes "the handle is present" a precondition
  of that case (`Registry.CanRemove`).
- **Missing user in GetOrCreateChat.** It fails with status 500, not with
  404 as the lookups by id do (db.go:153-161), and creates nothing.
- **At most one chat per pair.** Nothing serializes chat creation. "At most
  one chat per pair of users" holds only for calls made one at a time: it is
  preserved by each call (`ChatDb.GetOrCreatePreserves`). Should two shared
  chats exist anyway, nothing reports it: the code returns element 0 of the
  intersection, and so does the model.
- **Message content.** `CreateMessage` does not reject empty content. Any
  validation happens in a handler that is not part of this model.
- **First and second user the same.** When `first == second`, the
  intersection is that user's whole chat list. If the list is empty, a chat
  with users `[first, first]` is created, and the join table gets one row for
  it (the repeated pair is inserted once).

## Model

| member | source | states |
|---|---|---|
| `Registry.IndexOfConn` | backend/app_messanger/handlers/clients.go:57-59 | -1 exactly when no connection has the handle; otherwise the index of the first connection with that handle |
| `Registry.Added` | backend/app_messanger/handlers/clients.go:34-42 | the user's list becomes the previous list (empty if absent) with the connection appended at the end, one longer; the user is a key; other users' entries unchanged; no-empty-entry and filed-under-owner invariants kept |
| `Registry.Removed` | backend/app_messanger/handlers/clients.go:45-62 | absent user: map unchanged; one-element list: key deleted whichever connection it holds; longer list: key kept and exactly the first element with the handle removed, rest in order; other users untouched; both invariants kept |
| `Registry.AddThenRemove` | backend/app_messanger/handlers/clients.go:34-62 | if the handle is not yet listed for the user, AddClient then RemoveClient restores the original map |
| `Registry.TwoDevices` | backend/app_messanger/handlers/clients.go:34-62 | two connections of one user are listed in connect order; removing the first leaves only the second; removing the second drops the key |
| `Registry.Clients.constructor` | backend/app_messanger/handlers/clients.go:30 | the registry starts as the empty map and satisfies its invariant |
| `Registry.Clients.AddClient` | backend/app_messanger/handlers/clients.go:34-42 | new map is `Added(old map, c)`; no-empty-entry invariant preserved |
| `Registry.Clients.RemoveClient` | backend/app_messanger/handlers/clients.go:45-62 | needs the handle present when the list is not a singleton (else the code panics); new map is `Removed(old map, c)`; invariant preserved |
| `ChatDb.GetUserByID` | backend/core/db/db.go:59-71 | succeeds exactly when the key is stored and returns the stored user with that key; otherwise NotFound |
| `ChatDb.GetUserByUsername` | backend/core/db/db.go:74-86 | succeeds exactly when some stored user has the username and returns that stored user; otherwise NotFound |
| `ChatDb.ChatsOf` | backend/core/db/db.go:153 | a chat is in a user's preloaded chat list exactly when the join table has the row for that pair |
| `ChatDb.ParticipantsOf` | backend/core/db/db.go:115 | a user is among a chat's preloaded users exactly when the join table has the row for that pair |
| `ChatDb.UsersOf` | backend/core/db/db.go:115 | the loaded users are stored rows whose keys are among the asked keys, and every asked key with a row is loaded |
| `ChatDb.SenderOf` | backend/core/db/db.go:99 | a message's sender is loaded exactly when its sender row exists, and is the stored user with the sender key |
| `ChatDb.LoadSenders` | backend/core/db/db.go:99 | loading senders keeps the messages in order and attaches to each its own sender |
| `ChatDb.MessagesOf` | backend/core/db/db.go:93-94 | exactly the stored messages whose chat id is the chat's |
| `ChatDb.InsertByTime` | backend/core/db/db.go:96-98 | inserting into an oldest-first list keeps it oldest-first and adds exactly that message |
| `ChatDb.SortByTime` | backend/core/db/db.go:96-98 | result is oldest-first by `created_at` and a permutation of the input |
| `ChatDb.GetFullChatByID` | backend/core/db/db.go:90-109 | NotFound exactly when the chat is absent; otherwise the chat's participants, exactly its messages oldest first, each with its stored sender (none if the sender row is missing) |
| `ChatDb.GetChatParticipantsByID` | backend/core/db/db.go:112-124 | NotFound exactly when the chat is absent; otherwise the chat's stored participants and no messages |
| `ChatDb.StoredMessageInHistory` | backend/core/db/db.go:181-201 | storing a message adds exactly that message to its chat's history and changes no other chat's history |
| `ChatDb.Resolve` | backend/core/db/db.go:148-177 | a missing user gives UserMissing; otherwise CreateNew exactly when the users share no chat, and an existing result is a chat both users are in |
| `ChatDb.WithChat` | backend/core/db/db.go:127-145 | exactly one chat added under the fresh key; join rows added exactly for the two users; users and messages unchanged |
| `ChatDb.WithChatConsistent` | backend/core/db/db.go:136-144 | creating a chat for two stored users keeps the database consistent |
| `ChatDb.CreatedChatParticipants` | backend/core/db/db.go:136-144 | a new chat for two distinct users has exactly those two users as participants (two join rows) and is in both users' chat lists |
| `ChatDb.AfterGetOrCreate` | backend/core/db/db.go:148-177 | the database after GetOrCreateChat: unchanged exactly when no chat is to be created, otherwise the database with the new chat for the two users |
| `ChatDb.ChatIdOf` | backend/core/db/db.go:168-173 | the returned chat is one both users are in after the call; a created chat has the fresh key |
| `ChatDb.GetOrCreateCreatesAtMostOne` | backend/core/db/db.go:163-174 | users and messages untouched; at most one chat added, and one is added exactly when both users exist and share no chat |
| `ChatDb.OnlySharedChatIsReturned` | backend/core/db/db.go:164-173 | when two users share exactly one chat, that chat is the existing one the rule returns |
| `ChatDb.GetOrCreateIdempotent` | backend/core/db/db.go:163-174 | with at most one chat per pair, a second call on the same pair, in either order, returns the same chat id and creates nothing |
| `ChatDb.GetOrCreatePreserves` | backend/core/db/db.go:163-170 | GetOrCreateChat keeps the database consistent and keeps at most one chat per pair of distinct users |
| `ChatStore.Store.constructor` | backend/core/db/db.go:19-23 | the handle opens onto the shared, already populated database: its tables are exactly that database's, which must be consistent |
| `ChatStore.Store.CreateUser` | backend/core/db/db.go:27-56 | hashing error passed on, tables unchanged; taken username: Conflict (409), tables unchanged; otherwise exactly one user added with a fresh key, the username and the hash, and returned |
| `ChatStore.Store.CreateChat` | backend/core/db/db.go:127-145 | tables become `WithChat(old, first, second)`; returns the new chat with users `[first, second]` |
| `ChatStore.Store.GetOrCreateChat` | backend/core/db/db.go:148-177 | missing user: Internal (500) and nothing created; shared chat: returns it bare, tables unchanged; no shared chat: new chat with the two loaded users; one chat per pair preserved |
| `ChatStore.Store.CreateMessage` | backend/core/db/db.go:181-210 | exactly one message stored with a fresh key and the given chat, sender, content and timestamp; sender loaded when stored; otherwise the message stays stored and is returned along with NotFound |

## Left out

- The websocket `Conn` itself, the `Message` channel and `jsonMessageWithError` (clients.go:15-27) are I/O plumbing. A connection is only its handle's identity.
- The inbound read loop, the fan-out to live connections and the per-connection state machine are left out. The websocket handler that runs them is not part of this model.
- Locking and races are left out. The registry map is unsynchronized and chat creation is not serialized, so every operation is modelled sequentially.
- The failure branches of `uuid.NewRandom` (db.go:31-34, 131-134, 185-188) are left out. A key is a fresh value below `nextId`.
- Storage failures other than the unique constraint on `username` are left out: the 500 branches after `Create` or `First` fail for another reason (db.go:53, 68, 83, 106, 121, 142, 200). In the model every insert succeeds unless the username is taken.
- Error detection by matching message text (`"(2067)"`, `"record not found"`) is replaced by the conditions themselves: username taken, key absent. The echo `HTTPError` payloads are reduced to an error kind (`ChatDb.StatusCode` gives its status).
- `services.EncodePassword` and `services.IntersectUserChats` are not part of this model. They are function parameters, described above.
- The order of the users returned by `Preload("Users")` is not promised by the database. The model lists them in join-table order, and no contract about the stored tables states that order. Only the chat that createChat builds in memory has its users in the order `[first, second]` (db.go:138), which `ChatStore.Store.CreateChat` states.
- ChatDb.GetFullChatByID: does not state how messages with equal `created_at` are ordered, because `ORDER BY created_at` does not fix it. The model sorts stably but promises only oldest-first order and a permutation.
- ChatStore.Store.CreateChat: requires both users to be stored rows. Its only caller passes users it has just loaded. gorm's insertion of unknown associated users is not modelled.
- Messages are not checked against the chats table: no foreign-key check is modelled.
- `backend/app_user/handlers/register.go`, the route files and the frontend are HTTP, routing and UI glue.
