/**
 * The persistence rules of the chat backend (backend/core/db/db.go) over an
 * abstract in-memory database: the users table, the chats table, the
 * many-to-many join table between them, and the messages table. This module
 * holds the records, the read-only queries and the decision that
 * GetOrCreateChat takes; module ChatStore holds the operations that write.
 */
module ChatDb {

  /** A primary key; stands for the UUIDs the tables use. */
  type Uuid = nat

  /** A `created_at` reading, taken by the storage layer when a row is inserted. */
  type Timestamp = int

  datatype Option<T> = None | Some(value: T)

  /** The kinds of error the operations report, with their HTTP status. */
  datatype Error =
    | NotFound          // 404
    | Conflict          // 409: the username is taken
    | Internal          // 500
    | PasswordEncoding  // the password hasher's own error, passed on unchanged

  datatype Result<T> = Ok(value: T) | Err(error: Error)

  function StatusCode(e: Error): int {
    match e
    case NotFound => 404
    case Conflict => 409
    case Internal => 500
    case PasswordEncoding => 500
  }

  datatype User = User(id: Uuid, username: string, password: string)

  /** A row of the join table: user `userId` takes part in chat `chatId`. */
  datatype Membership = Membership(chatId: Uuid, userId: Uuid)

  datatype Message = Message(id: Uuid, chatId: Uuid, senderId: Uuid, content: string, createdAt: Timestamp)

  /** A message with its `Sender` association loaded (None: no such user row). */
  datatype LoadedMessage = LoadedMessage(message: Message, sender: Option<User>)

  /** A chat as the operations hand it back, with the associations they load. */
  datatype ChatView = ChatView(id: Uuid, users: seq<User>, messages: seq<LoadedMessage>)

  /**
   * The database. `members` is the join table in insertion order: it alone says
   * which users are in which chat, in both directions. `nextId` is the next key
   * handed out; every key in use is below it.
   */
  datatype Db = Db(
    users: map<Uuid, User>,
    chats: set<Uuid>,
    members: seq<Membership>,
    messages: seq<Message>,
    nextId: nat)

  /** Each user row is stored under its own key. */
  ghost predicate UsersKeyed(users: map<Uuid, User>) {
    forall id :: id in users ==> users[id].id == id
  }

  /** The unique constraint on `username`. */
  ghost predicate UniqueUsernames(users: map<Uuid, User>) {
    forall i, j :: i in users && j in users && users[i].username == users[j].username ==> i == j
  }

  /** What every operation keeps true of the database. */
  ghost predicate Consistent(db: Db) {
    && UsersKeyed(db.users)
    && UniqueUsernames(db.users)
    && (forall id :: id in db.users ==> id < db.nextId)
    && (forall c :: c in db.chats ==> c < db.nextId)
    && (forall k :: 0 <= k < |db.members| ==>
          db.members[k].chatId in db.chats && db.members[k].userId in db.users)
    && (forall k :: 0 <= k < |db.messages| ==> db.messages[k].id < db.nextId)
    && (forall i, j :: 0 <= i < j < |db.messages| ==> db.messages[i].id != db.messages[j].id)
  }

  predicate UsernameTaken(users: map<Uuid, User>, username: string) {
    exists id :: id in users && users[id].username == username
  }

  // ---------------------------------------------------------------------------
  // Read-only queries

  /** GetUserByID: the stored user with key `id`, or NotFound. */
  function GetUserByID(db: Db, id: Uuid): (r: Result<User>)
    requires UsersKeyed(db.users)
    ensures r.Ok? <==> id in db.users
    ensures r.Ok? ==> r.value.id == id && r.value in db.users.Values
    ensures r.Err? ==> r.error == NotFound
  {
    if id in db.users then Ok(db.users[id]) else Err(NotFound)
  }

  /** GetUserByUsername: the stored user called `username`, or NotFound. */
  function GetUserByUsername(db: Db, username: string): (r: Result<User>)
    requires UniqueUsernames(db.users)
    ensures r.Ok? <==> UsernameTaken(db.users, username)
    ensures r.Ok? ==> r.value.username == username && r.value in db.users.Values
    ensures r.Err? ==> r.error == NotFound
  {
    if UsernameTaken(db.users, username) then
      var id :| id in db.users && db.users[id].username == username;
      Ok(db.users[id])
    else
      Err(NotFound)
  }

  /** The chats user `u` takes part in, as preloading `Chats` gives them. */
  function ChatsOf(members: seq<Membership>, u: Uuid): (r: seq<Uuid>)
    ensures forall c :: c in r <==> Membership(c, u) in members
  {
    if members == [] then []
    else
      var rest := ChatsOf(members[1..], u);
      assert forall m :: m in members <==> m == members[0] || m in members[1..];
      if members[0].userId == u then [members[0].chatId] + rest else rest
  }

  /** The users taking part in chat `c`, as preloading `Users` gives their keys. */
  function ParticipantsOf(members: seq<Membership>, c: Uuid): (r: seq<Uuid>)
    ensures forall u :: u in r <==> Membership(c, u) in members
  {
    if members == [] then []
    else
      var rest := ParticipantsOf(members[1..], c);
      assert forall m :: m in members <==> m == members[0] || m in members[1..];
      if members[0].chatId == c then [members[0].userId] + rest else rest
  }

  lemma {:induction false} ParticipantsOfAppend(members: seq<Membership>, extra: seq<Membership>, c: Uuid)
    ensures ParticipantsOf(members + extra, c) == ParticipantsOf(members, c) + ParticipantsOf(extra, c)
  {
    if members != [] {
      var all := members + extra;
      assert all != [] && all[0] == members[0];
      assert all[1..] == members[1..] + extra;
      ParticipantsOfAppend(members[1..], extra, c);
      assert ParticipantsOf(all, c) == (if members[0].chatId == c then [members[0].userId] else []) + ParticipantsOf(all[1..], c);
    } else {
      assert members + extra == extra;
    }
  }

  /** The user rows for the keys `ids`, skipping keys with no row. */
  function UsersOf(users: map<Uuid, User>, ids: seq<Uuid>): (r: seq<User>)
    requires UsersKeyed(users)
    ensures forall k :: 0 <= k < |r| ==> r[k].id in ids && r[k].id in users && users[r[k].id] == r[k]
    ensures forall id :: id in ids && id in users ==> users[id] in r
  {
    if ids == [] then []
    else
      var rest := UsersOf(users, ids[1..]);
      assert forall id :: id in ids <==> id == ids[0] || id in ids[1..];
      if ids[0] in users then [users[ids[0]]] + rest else rest
  }

  /** The messages of chat `c`, in insertion order. */
  function MessagesOf(messages: seq<Message>, c: Uuid): (r: seq<Message>)
    ensures forall k :: 0 <= k < |r| ==> r[k].chatId == c
    ensures forall m :: m in r <==> m in messages && m.chatId == c
  {
    if messages == [] then []
    else
      var rest := MessagesOf(messages[1..], c);
      assert forall m :: m in messages <==> m == messages[0] || m in messages[1..];
      if messages[0].chatId == c then [messages[0]] + rest else rest
  }

  lemma {:induction false} MessagesOfAppend(messages: seq<Message>, m: Message, c: Uuid)
    ensures MessagesOf(messages + [m], c) == MessagesOf(messages, c) + MessagesOf([m], c)
  {
    if messages != [] {
      assert (messages + [m])[0] == messages[0];
      assert (messages + [m])[1..] == messages[1..] + [m];
      MessagesOfAppend(messages[1..], m, c);
    }
  }

  // ---------------------------------------------------------------------------
  // ORDER BY created_at ASC

  ghost predicate OldestFirst(s: seq<Message>) {
    forall i, j :: 0 <= i < j < |s| ==> s[i].createdAt <= s[j].createdAt
  }

  /** Puts `m` into the oldest-first list `s`, after every message no newer than it. */
  function InsertByTime(m: Message, s: seq<Message>): (r: seq<Message>)
    requires OldestFirst(s)
    ensures OldestFirst(r)
    ensures multiset(r) == multiset(s) + multiset{m}
    ensures |r| > 0 && (r[0] == m || (s != [] && r[0] == s[0]))
  {
    if s == [] then [m]
    else if m.createdAt < s[0].createdAt then [m] + s
    else
      var rest := InsertByTime(m, s[1..]);
      assert s == [s[0]] + s[1..];
      [s[0]] + rest
  }

  /** The messages `s` oldest first; equal timestamps keep their insertion order. */
  function SortByTime(s: seq<Message>): (r: seq<Message>)
    ensures OldestFirst(r)
    ensures multiset(r) == multiset(s)
  {
    if s == [] then []
    else
      var last := |s| - 1;
      assert s == s[..last] + [s[last]];
      InsertByTime(s[last], SortByTime(s[..last]))
  }

  /** The sender association of `m`, as preloading `Messages.Sender` fills it. */
  function SenderOf(users: map<Uuid, User>, m: Message): (r: Option<User>)
    requires UsersKeyed(users)
    ensures r.Some? <==> m.senderId in users
    ensures r.Some? ==> r.value.id == m.senderId && r.value in users.Values
  {
    if m.senderId in users then Some(users[m.senderId]) else None
  }

  /** The messages of a list, without their loaded senders. */
  function Bodies(s: seq<LoadedMessage>): seq<Message> {
    seq(|s|, k requires 0 <= k < |s| => s[k].message)
  }

  /** Loading the senders of `s` keeps its messages, in order. */
  function LoadSenders(users: map<Uuid, User>, s: seq<Message>): (r: seq<LoadedMessage>)
    requires UsersKeyed(users)
    ensures Bodies(r) == s
    ensures forall k :: 0 <= k < |r| ==> r[k].sender == SenderOf(users, r[k].message)
  {
    seq(|s|, k requires 0 <= k < |s| => LoadedMessage(s[k], SenderOf(users, s[k])))
  }

  /**
   * GetFullChatByID: the chat with its participants and its messages, oldest
   * first, each with its sender; NotFound when there is no such chat.
   */
  function GetFullChatByID(db: Db, id: Uuid): (r: Result<ChatView>)
    requires UsersKeyed(db.users)
    ensures r.Err? <==> id !in db.chats
    ensures r.Err? ==> r.error == NotFound
    ensures r.Ok? ==> r.value.id == id
    ensures r.Ok? ==> forall k :: 0 <= k < |r.value.users| ==>
      Membership(id, r.value.users[k].id) in db.members && r.value.users[k] in db.users.Values
    ensures r.Ok? ==> forall u :: Membership(id, u) in db.members && u in db.users ==> db.users[u] in r.value.users
    ensures r.Ok? ==> OldestFirst(Bodies(r.value.messages))
    ensures r.Ok? ==> multiset(Bodies(r.value.messages)) == multiset(MessagesOf(db.messages, id))
    ensures r.Ok? ==> forall k :: 0 <= k < |r.value.messages| ==>
      r.value.messages[k].sender == SenderOf(db.users, r.value.messages[k].message)
  {
    if id !in db.chats then Err(NotFound)
    else
      var sorted := SortByTime(MessagesOf(db.messages, id));
      var loaded := LoadSenders(db.users, sorted);
      Ok(ChatView(id, UsersOf(db.users, ParticipantsOf(db.members, id)), loaded))
  }

  /** GetChatParticipantsByID: the chat with its participants only, or NotFound. */
  function GetChatParticipantsByID(db: Db, id: Uuid): (r: Result<ChatView>)
    requires UsersKeyed(db.users)
    ensures r.Err? <==> id !in db.chats
    ensures r.Err? ==> r.error == NotFound
    ensures r.Ok? ==> r.value.id == id && r.value.messages == []
    ensures r.Ok? ==> forall k :: 0 <= k < |r.value.users| ==>
      Membership(id, r.value.users[k].id) in db.members && r.value.users[k] in db.users.Values
    ensures r.Ok? ==> forall u :: Membership(id, u) in db.members && u in db.users ==> db.users[u] in r.value.users
  {
    if id !in db.chats then Err(NotFound)
    else Ok(ChatView(id, UsersOf(db.users, ParticipantsOf(db.members, id)), []))
  }

  /**
   * Storing message `m` adds exactly `m` to the history of its own chat and
   * leaves the history of every other chat as it was.
   */
  lemma StoredMessageInHistory(db: Db, m: Message, c: Uuid)
    requires UsersKeyed(db.users)
    requires c in db.chats
    ensures var before := GetFullChatByID(db, c);
      var after := GetFullChatByID(db.(messages := db.messages + [m]), c);
      && before.Ok? && after.Ok?
      && multiset(Bodies(after.value.messages)) ==
         multiset(Bodies(before.value.messages)) + (if m.chatId == c then multiset{m} else multiset{})
  {
    MessagesOfAppend(db.messages, m, c);
    assert [m][1..] == [];
    assert MessagesOf([m], c) == if m.chatId == c then [m] else [];
  }

  // ---------------------------------------------------------------------------
  // The rules of GetOrCreateChat

  /** The contract of services.IntersectUserChats: the chats found in both lists. */
  ghost predicate IsIntersection(intersect: (seq<Uuid>, seq<Uuid>) -> seq<Uuid>) {
    forall a, b, x :: x in intersect(a, b) <==> x in a && x in b
  }

  ghost predicate SharesChat(db: Db, u: Uuid, v: Uuid) {
    exists c :: Membership(c, u) in db.members && Membership(c, v) in db.members
  }

  /** At most one chat per pair of distinct users ("there must be only one"). */
  ghost predicate OneChatPerPair(db: Db) {
    forall u, v, c, d ::
      (u != v && Membership(c, u) in db.members && Membership(c, v) in db.members &&
       Membership(d, u) in db.members && Membership(d, v) in db.members) ==> c == d
  }

  /** What GetOrCreateChat decides for the pair (first, second). */
  datatype Resolution = UserMissing | Existing(chatId: Uuid) | CreateNew

  function Resolve(db: Db, first: Uuid, second: Uuid, intersect: (seq<Uuid>, seq<Uuid>) -> seq<Uuid>): (r: Resolution)
    requires IsIntersection(intersect)
    ensures r == UserMissing <==> first !in db.users || second !in db.users
    ensures r == CreateNew <==> first in db.users && second in db.users && !SharesChat(db, first, second)
    ensures r.Existing? ==>
      Membership(r.chatId, first) in db.members && Membership(r.chatId, second) in db.members
  {
    if first !in db.users || second !in db.users then UserMissing
    else
      var joint := intersect(ChatsOf(db.members, first), ChatsOf(db.members, second));
      if |joint| == 0 then
        assert forall c :: Membership(c, first) in db.members && Membership(c, second) in db.members ==> c in joint;
        CreateNew
      else
        assert joint[0] in joint;
        Existing(joint[0])
  }

  /** The database after createChat stores a chat for `first` and `second` under key `nextId`. */
  function WithChat(db: Db, first: Uuid, second: Uuid): (r: Db)
    ensures r.users == db.users && r.messages == db.messages
    ensures r.chats == db.chats + {db.nextId} && r.nextId == db.nextId + 1
    ensures forall c, u :: Membership(c, u) in r.members <==>
      Membership(c, u) in db.members || (c == db.nextId && (u == first || u == second))
  {
    var id := db.nextId;
    // the join rows of `Users: [first, second]`; a repeated pair is inserted once
    var rows := [Membership(id, first)] + (if second != first then [Membership(id, second)] else []);
    db.(chats := db.chats + {id}, members := db.members + rows, nextId := id + 1)
  }

  /** The database after GetOrCreateChat(first, second): changed exactly when a chat is created. */
  function AfterGetOrCreate(db: Db, first: Uuid, second: Uuid, intersect: (seq<Uuid>, seq<Uuid>) -> seq<Uuid>): (r: Db)
    requires IsIntersection(intersect)
    ensures r == db <==> Resolve(db, first, second, intersect) != CreateNew
    ensures r != db ==> r == WithChat(db, first, second)
  {
    if Resolve(db, first, second, intersect) == CreateNew then WithChat(db, first, second) else db
  }

  /**
   * The key of the chat GetOrCreateChat(first, second) returns: a chat both
   * users are in once the call is over, and a fresh key when it was created.
   */
  function ChatIdOf(db: Db, first: Uuid, second: Uuid, intersect: (seq<Uuid>, seq<Uuid>) -> seq<Uuid>): (r: Uuid)
    requires IsIntersection(intersect)
    requires Resolve(db, first, second, intersect) != UserMissing
    ensures Membership(r, first) in AfterGetOrCreate(db, first, second, intersect).members
    ensures Membership(r, second) in AfterGetOrCreate(db, first, second, intersect).members
    ensures Resolve(db, first, second, intersect) == CreateNew ==> r == db.nextId
  {
    match Resolve(db, first, second, intersect)
    case Existing(c) => c
    case CreateNew => db.nextId
  }

  /**
   * A missing user creates nothing; otherwise at most one chat is created, and
   * one is created exactly when the two users share none.
   */
  lemma GetOrCreateCreatesAtMostOne(db: Db, first: Uuid, second: Uuid, intersect: (seq<Uuid>, seq<Uuid>) -> seq<Uuid>)
    requires Consistent(db)
    requires IsIntersection(intersect)
    ensures var after := AfterGetOrCreate(db, first, second, intersect);
      && after.users == db.users && after.messages == db.messages
      && (after.chats == db.chats || after.chats == db.chats + {db.nextId})
      && (after.chats != db.chats <==> first in db.users && second in db.users && !SharesChat(db, first, second))
  {
    if Resolve(db, first, second, intersect) == CreateNew {
      assert db.nextId in WithChat(db, first, second).chats;
    }
  }

  /** createChat keeps the database consistent. */
  lemma WithChatConsistent(db: Db, first: Uuid, second: Uuid)
    requires Consistent(db)
    requires first in db.users && second in db.users
    ensures Consistent(WithChat(db, first, second))
  {
    var r := WithChat(db, first, second);
    forall k | 0 <= k < |r.members|
      ensures r.members[k].chatId in r.chats && r.members[k].userId in r.users
    {
      if k >= |db.members| {
        assert r.members[k] in r.members[|db.members|..];
      } else {
        assert r.members[k] == db.members[k];
      }
    }
  }

  /**
   * A chat created for two distinct users has exactly those two as
   * participants and is in each one's chat list.
   */
  lemma {:induction false} CreatedChatParticipants(db: Db, first: Uuid, second: Uuid)
    requires Consistent(db)
    requires first != second
    ensures |ParticipantsOf(WithChat(db, first, second).members, db.nextId)| == 2
    ensures forall u :: u in ParticipantsOf(WithChat(db, first, second).members, db.nextId) <==> u == first || u == second
    ensures db.nextId in ChatsOf(WithChat(db, first, second).members, first)
    ensures db.nextId in ChatsOf(WithChat(db, first, second).members, second)
  {
    var id := db.nextId;
    var rows := [Membership(id, first), Membership(id, second)];
    var r := WithChat(db, first, second);
    assert r.members == db.members + rows;
    ParticipantsOfAppend(db.members, rows, id);
    NoRowsForFreshChat(db);
    PairParticipants(id, first, second);
    assert Membership(id, first) in r.members && Membership(id, second) in r.members;
  }

  lemma PairParticipants(c: Uuid, first: Uuid, second: Uuid)
    ensures ParticipantsOf([Membership(c, first), Membership(c, second)], c) == [first, second]
  {
    var rows := [Membership(c, first), Membership(c, second)];
    assert rows[1..] == [Membership(c, second)];
    assert rows[1..][1..] == [];
    assert ParticipantsOf(rows[1..][1..], c) == [];
    assert ParticipantsOf(rows[1..], c) == [second];
  }

  /** No row of the join table names the key the next chat will get. */
  lemma NoRowsForFreshChat(db: Db)
    requires Consistent(db)
    ensures ParticipantsOf(db.members, db.nextId) == []
  {
    NoRowsNoParticipants(db.members, db.nextId);
  }

  lemma {:induction false} NoRowsNoParticipants(members: seq<Membership>, c: Uuid)
    requires forall k :: 0 <= k < |members| ==> members[k].chatId < c
    ensures ParticipantsOf(members, c) == []
  {
    if members != [] {
      NoRowsNoParticipants(members[1..], c);
    }
  }

  /**
   * Asking again for the same pair, in either order, yields the same chat and
   * creates nothing. For the reversed order this needs at most one chat per pair.
   */
  lemma GetOrCreateIdempotent(db: Db, first: Uuid, second: Uuid, intersect: (seq<Uuid>, seq<Uuid>) -> seq<Uuid>)
    requires Consistent(db) && OneChatPerPair(db)
    requires IsIntersection(intersect)
    requires Resolve(db, first, second, intersect) != UserMissing
    ensures var after := AfterGetOrCreate(db, first, second, intersect);
      var id := ChatIdOf(db, first, second, intersect);
      && Resolve(after, first, second, intersect) == Existing(id)
      && Resolve(after, second, first, intersect) == Existing(id)
      && AfterGetOrCreate(after, first, second, intersect) == after
      && AfterGetOrCreate(after, second, first, intersect) == after
  {
    var after := AfterGetOrCreate(db, first, second, intersect);
    var id := ChatIdOf(db, first, second, intersect);
    if Resolve(db, first, second, intersect) == CreateNew {
      assert after == WithChat(db, first, second);
      OnlySharedChatIsReturned(after, first, second, id, intersect);
      OnlySharedChatIsReturned(after, second, first, id, intersect);
    } else {
      assert after == db;
      if first != second {
        OnlySharedChatIsReturned(db, first, second, id, intersect);
        OnlySharedChatIsReturned(db, second, first, id, intersect);
      }
    }
  }

  /** When `c` is the one chat two users share, Resolve returns it. */
  lemma OnlySharedChatIsReturned(db: Db, u: Uuid, v: Uuid, c: Uuid, intersect: (seq<Uuid>, seq<Uuid>) -> seq<Uuid>)
    requires IsIntersection(intersect)
    requires u in db.users && v in db.users
    requires Membership(c, u) in db.members && Membership(c, v) in db.members
    requires forall d :: Membership(d, u) in db.members && Membership(d, v) in db.members ==> d == c
    ensures Resolve(db, u, v, intersect) == Existing(c)
  {
  }

  /** GetOrCreateChat keeps the database consistent and keeps one chat per pair. */
  lemma GetOrCreatePreserves(db: Db, first: Uuid, second: Uuid, intersect: (seq<Uuid>, seq<Uuid>) -> seq<Uuid>)
    requires Consistent(db) && OneChatPerPair(db)
    requires IsIntersection(intersect)
    ensures Consistent(AfterGetOrCreate(db, first, second, intersect))
    ensures OneChatPerPair(AfterGetOrCreate(db, first, second, intersect))
  {
    if Resolve(db, first, second, intersect) == CreateNew {
      WithChatConsistent(db, first, second);
      var r := WithChat(db, first, second);
      var n := db.nextId;
      forall u, v, c, d |
        u != v && Membership(c, u) in r.members && Membership(c, v) in r.members &&
        Membership(d, u) in r.members && Membership(d, v) in r.members
        ensures c == d
      {
        FreshChatRows(db, first, second, c, u);
        FreshChatRows(db, first, second, c, v);
        FreshChatRows(db, first, second, d, u);
        FreshChatRows(db, first, second, d, v);
      }
    }
  }

  /** A row of the new chat names one of its two users; no older row names it. */
  lemma FreshChatRows(db: Db, first: Uuid, second: Uuid, c: Uuid, u: Uuid)
    requires Consistent(db)
    requires Membership(c, u) in WithChat(db, first, second).members
    ensures Membership(c, u) in db.members ==> c < db.nextId
    ensures Membership(c, u) !in db.members ==> c == db.nextId && (u == first || u == second)
  {
    if Membership(c, u) in db.members {
      var k :| 0 <= k < |db.members| && db.members[k] == Membership(c, u);
    }
  }
}
