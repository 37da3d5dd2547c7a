/**
 * The operations of backend/core/db/db.go that write to the database, as
 * methods of one object holding the tables. Keys come from the `nextId`
 * counter, which stands for `uuid.NewRandom`: a key no row holds yet.
 */
module ChatStore {
  import opened ChatDb

  class Store {
    var users: map<Uuid, User>
    var chats: set<Uuid>
    var members: seq<Membership>
    var messages: seq<Message>
    var nextId: nat

    /** The tables as one value, for the queries and rules of module ChatDb. */
    function State(): Db
      reads this
    {
      Db(users, chats, members, messages, nextId)
    }

    ghost predicate Valid()
      reads this
    {
      Consistent(State())
    }

    /** NewDB: a handle on the shared, already populated database `initial`. */
    constructor (initial: Db)
      requires Consistent(initial)
      ensures Valid()
      ensures State() == initial
    {
      users, chats, members, messages, nextId :=
        initial.users, initial.chats, initial.members, initial.messages, initial.nextId;
    }

    /**
     * CreateUser: hashes the password, then inserts a user with a fresh key.
     * A hashing error is passed on; a taken username is a Conflict. Either
     * failure leaves the tables as they were.
     */
    method CreateUser(username: string, password: string, encodePassword: string -> Option<string>)
      returns (r: Result<User>)
      requires Valid()
      modifies this
      ensures Valid()
      ensures encodePassword(password).None? ==>
        r == Err(PasswordEncoding) && State() == old(State())
      ensures encodePassword(password).Some? && UsernameTaken(old(users), username) ==>
        r == Err(Conflict) && State() == old(State())
      ensures encodePassword(password).Some? && !UsernameTaken(old(users), username) ==>
        && r == Ok(User(old(nextId), username, encodePassword(password).value))
        && old(nextId) !in old(users)
        && users == old(users)[old(nextId) := r.value]
        && chats == old(chats) && members == old(members) && messages == old(messages)
        && nextId == old(nextId) + 1
    {
      var id := nextId;
      var hash := encodePassword(password);
      if hash.None? {
        return Err(PasswordEncoding);
      }
      var newUser := User(id, username, hash.value);
      if UsernameTaken(users, username) {
        return Err(Conflict);
      }
      users := users[id := newUser];
      nextId := id + 1;
      r := Ok(newUser);
    }

    /**
     * createChat: inserts a chat with a fresh key whose users are `first` and
     * `second`, and returns it with those two users attached.
     */
    method CreateChat(first: User, second: User) returns (chat: ChatView)
      requires Valid()
      requires first.id in users && users[first.id] == first
      requires second.id in users && users[second.id] == second
      modifies this
      ensures Valid()
      ensures State() == WithChat(old(State()), first.id, second.id)
      ensures chat == ChatView(old(nextId), [first, second], [])
    {
      var id := nextId;
      var rows := [Membership(id, first.id)] + (if second.id != first.id then [Membership(id, second.id)] else []);
      WithChatConsistent(State(), first.id, second.id);
      chats := chats + {id};
      members := members + rows;
      nextId := id + 1;
      chat := ChatView(id, [first, second], []);
    }

    /**
     * GetOrCreateChat: loads both users with their chats (a missing user is
     * an Internal error), intersects the two chat lists, and returns the first
     * shared chat, bare, or else a new chat for the two users.
     */
    method GetOrCreateChat(firstId: Uuid, secondId: Uuid, intersect: (seq<Uuid>, seq<Uuid>) -> seq<Uuid>)
      returns (r: Result<ChatView>)
      requires Valid()
      requires IsIntersection(intersect)
      modifies this
      ensures Valid()
      ensures State() == AfterGetOrCreate(old(State()), firstId, secondId, intersect)
      ensures Resolve(old(State()), firstId, secondId, intersect) == UserMissing ==> r == Err(Internal)
      ensures Resolve(old(State()), firstId, secondId, intersect) != UserMissing ==>
        r.Ok? && r.value.id == ChatIdOf(old(State()), firstId, secondId, intersect)
      ensures Resolve(old(State()), firstId, secondId, intersect).Existing? ==>
        r.Ok? && r.value.users == [] && r.value.messages == []
      ensures Resolve(old(State()), firstId, secondId, intersect) == CreateNew ==>
        r.Ok? && r.value.users == [old(users)[firstId], old(users)[secondId]] && r.value.messages == []
      ensures OneChatPerPair(old(State())) ==> OneChatPerPair(State())
    {
      if OneChatPerPair(State()) {
        GetOrCreatePreserves(State(), firstId, secondId, intersect);
      }
      if firstId !in users {
        return Err(Internal);
      }
      var firstUser := users[firstId];
      if secondId !in users {
        return Err(Internal);
      }
      var secondUser := users[secondId];
      var joint := intersect(ChatsOf(members, firstId), ChatsOf(members, secondId));
      if |joint| == 0 {
        var chat := CreateChat(firstUser, secondUser);
        return Ok(chat);
      }
      return Ok(ChatView(joint[0], [], []));
    }

    /**
     * CreateMessage: inserts a message with a fresh key, then loads its
     * sender. When the sender is missing the message stays stored and is
     * returned together with the NotFound error.
     */
    method CreateMessage(chatId: Uuid, senderId: Uuid, content: string, createdAt: Timestamp)
      returns (m: LoadedMessage, err: Option<Error>)
      requires Valid()
      modifies this
      ensures Valid()
      ensures m.message == Message(old(nextId), chatId, senderId, content, createdAt)
      ensures forall k :: 0 <= k < |old(messages)| ==> old(messages)[k].id != m.message.id
      ensures messages == old(messages) + [m.message]
      ensures users == old(users) && chats == old(chats) && members == old(members)
      ensures nextId == old(nextId) + 1
      ensures senderId in users ==> m.sender == Some(users[senderId]) && err == None
      ensures senderId !in users ==> m.sender == None && err == Some(NotFound)
    {
      var id := nextId;
      var newMessage := Message(id, chatId, senderId, content, createdAt);
      messages := messages + [newMessage];
      nextId := id + 1;
      var sender := GetUserByID(State(), senderId);
      if sender.Err? {
        return LoadedMessage(newMessage, None), Some(sender.error);
      }
      m, err := LoadedMessage(newMessage, Some(sender.value)), None;
    }
  }
}
