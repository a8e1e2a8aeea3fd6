/** The persisted collections the handlers read and write, as finite maps:
    conversations, messages and each user's online flag. Only the fields
    the modelled handlers touch are kept. */
module Store {
  import opened Ids
  import opened Wrappers
  import opened Messages

  datatype Conversation = Conversation(
    participants: seq<UserId>,
    isGroup: bool,
    groupName: Option<string>,
    groupDescription: Option<string>,
    groupImage: Option<string>,
    groupAdmin: Option<UserId>,
    lastMessage: Option<MsgId>,
    lastMessageTime: Option<int>)

  /** The `isOnline` / `lastSeen` pair of a user document. */
  datatype Presence = Presence(isOnline: bool, lastSeen: int)

  datatype Db = Db(
    conversations: map<ConvId, Conversation>,
    messages: map<MsgId, Message>,
    users: map<UserId, Presence>)

  /** `conversation.participants.some(p => p.toString() === u)`. */
  predicate IsParticipant(db: Db, conv: ConvId, u: UserId) {
    conv in db.conversations && u in db.conversations[conv].participants
  }

  /** `User.findByIdAndUpdate(u, { isOnline, lastSeen })`: an unknown id
      updates nothing. */
  function SetPresence(db: Db, u: UserId, isOnline: bool, now: int): (r: Db)
    ensures r.conversations == db.conversations && r.messages == db.messages
    ensures r.users.Keys == db.users.Keys
    ensures u in db.users ==> r.users[u] == Presence(isOnline, now)
    ensures forall v :: v in db.users && v != u ==> r.users[v] == db.users[v]
  {
    if u in db.users then db.(users := db.users[u := Presence(isOnline, now)]) else db
  }

  /** `Conversation.findByIdAndUpdate(conv, { lastMessage, lastMessageTime })`. */
  function SetLastMessage(db: Db, conv: ConvId, id: MsgId, now: int): (r: Db)
    ensures r.messages == db.messages && r.users == db.users
    ensures r.conversations.Keys == db.conversations.Keys
    ensures conv in db.conversations ==>
      r.conversations[conv] == db.conversations[conv].(lastMessage := Some(id), lastMessageTime := Some(now))
    ensures forall c :: c in db.conversations && c != conv ==> r.conversations[c] == db.conversations[c]
  {
    if conv in db.conversations then
      db.(conversations := db.conversations[conv := db.conversations[conv].(lastMessage := Some(id), lastMessageTime := Some(now))])
    else db
  }
}
