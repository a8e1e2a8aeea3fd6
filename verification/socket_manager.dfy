/** The real-time session and room registry. The four in-memory maps of the
    manager (sessions by user, user by socket, room members, typing timers)
    plus the transport's per-socket room set are one immutable `State`;
    every socket handler is a function from the state, the persisted store
    and its input to the next state, the next store and the set of events
    it emits. A typing timer is represented by the presence of its key. */
module SocketManager {
  import opened Ids
  import opened Collections
  import opened Wrappers
  import opened Strings
  import opened Messages
  import opened Store
  import Delivery

  /** The user snapshot cached at connect time. */
  datatype UserInfo = UserInfo(name: string, profileImage: Option<string>)

  datatype Session = Session(
    userId: UserId,
    socketId: SocketId,
    user: UserInfo,
    joinedRooms: set<ConvId>,
    isOnline: bool,
    lastSeen: int)

  /** `roomParticipants` values are insertion-ordered sets, kept as
      duplicate-free sequences; `socketRooms` is the transport's
      `socket.rooms`. */
  datatype State = State(
    userSessions: map<UserId, Session>,
    socketToUser: map<SocketId, UserId>,
    roomParticipants: map<ConvId, seq<UserId>>,
    typingUsers: map<ConvId, set<UserId>>,
    socketRooms: map<SocketId, set<ConvId>>)

  /** The registry of a freshly started server. */
  const Initial := State(map[], map[], map[], map[], map[])

  /** An authenticated socket: its id and the identity the authentication
      middleware attached to it. */
  datatype Client = Client(socketId: SocketId, userId: UserId, user: UserInfo)

  /** `socket.emit` / `io.to(socketId)`, `io.to(room)`, and
      `socket.to(room)` / `io.to(room).except(socketId)`. */
  datatype Target =
    | ToSocket(socketId: SocketId)
    | ToRoom(room: ConvId)
    | ToRoomExcept(room: ConvId, except: SocketId)

  datatype OnlineUser = OnlineUser(userId: UserId, name: string, profileImage: Option<string>,
                                   isOnline: bool, lastSeen: int)

  datatype TypingUser = TypingUser(userId: UserId, name: string, profileImage: Option<string>)

  datatype Event =
    | Error(reason: string)
    | JoinedRoom(conversationId: ConvId)
    | UserJoinedRoom(userId: UserId, user: Option<UserInfo>, conversationId: ConvId)
    | LeftRoom(conversationId: ConvId)
    | UserLeftRoom(userId: UserId, conversationId: ConvId)
    | OnlineUsers(conversationId: ConvId, onlineUsers: seq<OnlineUser>)
    | ReceiveMessage(messageId: MsgId, snapshot: Message, conversationId: ConvId)
    | MessageDelivered(messageId: MsgId, conversationId: ConvId, deliveredAt: int)
    | MessageStatusUpdated(messageId: MsgId, status: string, userId: UserId, updatedAt: int)
    | TypingUpdate(conversationId: ConvId, typingUsers: set<TypingUser>)
    | MessagesMarkedAsSeen(conversationId: ConvId, messageIds: set<MsgId>, seenBy: UserId, seenAt: int)
    | UserStatusUpdate(userId: UserId, isOnline: bool, lastSeen: int)
    | Custom(name: string, payload: string)

  datatype Emit = Emit(target: Target, event: Event)

  /** The outcome of one handler, which runs atomically. */
  datatype Step = Step(state: State, db: Db, emits: set<Emit>)

  /** The payload a `sendMessage` event carries. */
  datatype Outgoing = Outgoing(
    conversationId: ConvId,
    text: Option<string>,
    messageType: Option<string>,
    mediaUrl: Option<string>,
    fileName: Option<string>,
    fileSize: Option<int>,
    repliedTo: Option<MsgId>)

  // ----- Sequences used as insertion-ordered sets -----

  /** `set.add(u)`. */
  function AddMember(xs: seq<UserId>, u: UserId): (r: seq<UserId>)
    ensures forall v :: v in r <==> v in xs || v == u
    ensures NoDup(xs) ==> NoDup(r)
    ensures |r| > 0
  {
    if u in xs then xs else xs + [u]
  }

  // ----- Queries -----

  /** `socket.rooms.has(room)`. */
  predicate InRoom(st: State, sid: SocketId, room: ConvId) {
    sid in st.socketRooms && room in st.socketRooms[sid]
  }

  /** The members `roomParticipants` tracks for a room (none if untracked). */
  function Members(st: State, room: ConvId): seq<UserId> {
    if room in st.roomParticipants then st.roomParticipants[room] else []
  }

  /** `isUserOnline`: a session exists for the user. */
  predicate IsUserOnline(st: State, u: UserId) {
    u in st.userSessions
  }

  /** `getUserSocketId`: the socket of the user's session, if any. */
  function GetUserSocketId(st: State, u: UserId): (r: Option<SocketId>)
    ensures r.Some? <==> IsUserOnline(st, u)
    ensures r.Some? ==> r.value == st.userSessions[u].socketId
  {
    if u in st.userSessions then Some(st.userSessions[u].socketId) else None
  }

  /** `notifyUser`: one event to the user's socket if the user is online,
      nothing otherwise. */
  function NotifyUser(st: State, u: UserId, name: string, payload: string): (r: set<Emit>)
    ensures r == {} <==> !IsUserOnline(st, u)
    ensures forall e :: e in r ==> e == Emit(ToSocket(st.userSessions[u].socketId), Custom(name, payload))
  {
    if u in st.userSessions then {Emit(ToSocket(st.userSessions[u].socketId), Custom(name, payload))} else {}
  }

  /** `notifyRoom`: one event to every socket in the room. */
  function NotifyRoom(room: ConvId, name: string, payload: string): set<Emit> {
    {Emit(ToRoom(room), Custom(name, payload))}
  }

  /** The presence list of `sendOnlineUsersToRoom` / `sendOnlineUsersToSocket`:
      the listed users that have a session, in order, with their snapshot. */
  function OnlineList(sessions: map<UserId, Session>, xs: seq<UserId>): (r: seq<OnlineUser>)
    ensures |r| <= |xs|
    ensures forall o :: o in r ==>
              (&& o.userId in xs && o.userId in sessions
               && o == OnlineUser(o.userId, sessions[o.userId].user.name, sessions[o.userId].user.profileImage,
                                  sessions[o.userId].isOnline, sessions[o.userId].lastSeen))
    ensures forall v :: v in xs && v in sessions ==> exists o :: o in r && o.userId == v
  {
    if xs == [] then []
    else
      var rest := OnlineList(sessions, xs[1..]);
      if xs[0] in sessions then
        var s := sessions[xs[0]];
        [OnlineUser(xs[0], s.user.name, s.user.profileImage, s.isOnline, s.lastSeen)] + rest
      else rest
  }

  /** The typing list of `broadcastTypingStatus`: typing users that have a session. */
  function TypingList(st: State, room: ConvId): (r: set<TypingUser>)
    ensures forall t :: t in r <==>
      room in st.typingUsers && t.userId in st.typingUsers[room] && t.userId in st.userSessions
      && t == TypingUser(t.userId, st.userSessions[t.userId].user.name, st.userSessions[t.userId].user.profileImage)
  {
    if room in st.typingUsers then
      set v | v in st.typingUsers[room] && v in st.userSessions
        :: TypingUser(v, st.userSessions[v].user.name, st.userSessions[v].user.profileImage)
    else {}
  }

  /** `v` shares at least one persisted conversation with `u`. */
  ghost predicate SharesConversation(db: Db, u: UserId, v: UserId) {
    exists c :: c in db.conversations && u in db.conversations[c].participants
                && v in db.conversations[c].participants
  }

  /** The contact ids of `broadcastUserStatusToContacts`: every distinct
      co-participant of every conversation of `u`, `u` excluded. */
  function ContactIds(db: Db, u: UserId): (r: set<UserId>)
    ensures forall v :: v in r <==> v != u && SharesConversation(db, u, v)
  {
    set c, v | c in db.conversations && u in db.conversations[c].participants
               && v in db.conversations[c].participants && v != u :: v
  }

  /** `broadcastUserStatusToContacts`: one `userStatusUpdate` to the socket
      of every contact that has a session. */
  function StatusBroadcast(st: State, db: Db, u: UserId, isOnline: bool, now: int): (r: set<Emit>)
    ensures forall e :: e in r ==> e.event == UserStatusUpdate(u, isOnline, now)
    ensures forall e :: e in r ==>
              exists v :: (&& v in st.userSessions && v != u && SharesConversation(db, u, v)
                           && e.target == ToSocket(st.userSessions[v].socketId))
    ensures forall v :: v in st.userSessions && v != u && SharesConversation(db, u, v) ==>
              Emit(ToSocket(st.userSessions[v].socketId), UserStatusUpdate(u, isOnline, now)) in r
  {
    set v | v in ContactIds(db, u) && v in st.userSessions
      :: Emit(ToSocket(st.userSessions[v].socketId), UserStatusUpdate(u, isOnline, now))
  }

  /** `clearTypingStatus(room, u)`: drops the user's timer for the room and
      the room's typing map once it is empty; other rooms are untouched. */
  function ClearTyping(typing: map<ConvId, set<UserId>>, room: ConvId, u: UserId): (r: map<ConvId, set<UserId>>)
    ensures room in r ==> room in typing && r[room] == typing[room] - {u} && r[room] != {}
    ensures room !in r ==> room !in typing || typing[room] - {u} == {}
    ensures forall c :: c != room ==> (c in r <==> c in typing) && (c in r ==> r[c] == typing[c])
  {
    if room in typing then
      var rest := typing[room] - {u};
      if rest == {} then typing - {room} else typing[room := rest]
    else typing
  }

  /** The socket excluded from a typing broadcast: the socket of the typer's
      current session, or none. */
  function TyperSocket(st: State, u: UserId): SocketId {
    if u in st.userSessions then st.userSessions[u].socketId else ""
  }

  // ----- Handlers -----

  /** `handleConnection`: a session for the user replaces any previous one,
      the socket is mapped to the user, the user is stored online and every
      online contact hears about it. */
  function HandleConnection(st: State, db: Db, c: Client, now: int): (r: Step)
    ensures r.state.userSessions == st.userSessions[c.userId := Session(c.userId, c.socketId, c.user, {}, true, now)]
    ensures r.state.socketToUser == st.socketToUser[c.socketId := c.userId]
    ensures r.state.socketRooms == st.socketRooms[c.socketId := {}]
    ensures r.state.roomParticipants == st.roomParticipants && r.state.typingUsers == st.typingUsers
    ensures r.db == SetPresence(db, c.userId, true, now)
    ensures r.emits == StatusBroadcast(r.state, r.db, c.userId, true, now)
  {
    var session := Session(c.userId, c.socketId, c.user, {}, true, now);
    var st' := st.(userSessions := st.userSessions[c.userId := session],
                   socketToUser := st.socketToUser[c.socketId := c.userId],
                   socketRooms := st.socketRooms[c.socketId := {}]);
    var db' := SetPresence(db, c.userId, true, now);
    Step(st', db', StatusBroadcast(st', db', c.userId, true, now))
  }

  /** `handleJoinRoom`: refused with an error to the caller unless the
      persisted conversation exists and lists the caller; otherwise the
      socket joins the room, the caller's session (if any) records it and the
      caller is added to the room's members, created lazily. */
  function HandleJoinRoom(st: State, db: Db, c: Client, room: ConvId): (r: Step)
    ensures r.db == db && r.state.socketToUser == st.socketToUser && r.state.typingUsers == st.typingUsers
    ensures room !in db.conversations ==>
      r == Step(st, db, {Emit(ToSocket(c.socketId), Error("Conversation not found"))})
    ensures room in db.conversations && !IsParticipant(db, room, c.userId) ==>
      r == Step(st, db, {Emit(ToSocket(c.socketId), Error("You are not a participant in this conversation"))})
    ensures r.state != st ==> IsParticipant(db, room, c.userId)
    ensures IsParticipant(db, room, c.userId) ==>
      && room in r.state.roomParticipants
      && (forall v :: v in r.state.roomParticipants[room] <==> v in Members(st, room) || v == c.userId)
      && (forall k :: k != room ==> (k in r.state.roomParticipants <==> k in st.roomParticipants)
                                    && (k in st.roomParticipants ==> r.state.roomParticipants[k] == st.roomParticipants[k]))
      && InRoom(r.state, c.socketId, room)
      && r.state.userSessions.Keys == st.userSessions.Keys
      && (forall v :: v in st.userSessions ==>
            r.state.userSessions[v] == if v == c.userId then st.userSessions[v].(joinedRooms := st.userSessions[v].joinedRooms + {room})
                                       else st.userSessions[v])
      && r.state.socketRooms.Keys == st.socketRooms.Keys + {c.socketId}
      && r.state.socketRooms[c.socketId] == (if c.socketId in st.socketRooms then st.socketRooms[c.socketId] else {}) + {room}
      && (forall s :: s in st.socketRooms && s != c.socketId ==> r.state.socketRooms[s] == st.socketRooms[s])
      && r.emits == {Emit(ToRoomExcept(room, c.socketId),
                          UserJoinedRoom(c.userId, if c.userId in st.userSessions then Some(st.userSessions[c.userId].user) else None, room)),
                     Emit(ToSocket(c.socketId), JoinedRoom(room)),
                     Emit(ToRoom(room), OnlineUsers(room, OnlineList(r.state.userSessions, r.state.roomParticipants[room])))}
  {
    if room !in db.conversations then
      Step(st, db, {Emit(ToSocket(c.socketId), Error("Conversation not found"))})
    else if !IsParticipant(db, room, c.userId) then
      Step(st, db, {Emit(ToSocket(c.socketId), Error("You are not a participant in this conversation"))})
    else
      var u := c.userId;
      var socketRooms' := st.socketRooms[c.socketId := (if c.socketId in st.socketRooms then st.socketRooms[c.socketId] else {}) + {room}];
      var sessions' := if u in st.userSessions
                       then st.userSessions[u := st.userSessions[u].(joinedRooms := st.userSessions[u].joinedRooms + {room})]
                       else st.userSessions;
      var members := AddMember(Members(st, room), u);
      var st' := st.(userSessions := sessions', socketRooms := socketRooms',
                     roomParticipants := st.roomParticipants[room := members]);
      var snapshot := if u in st.userSessions then Some(st.userSessions[u].user) else None;
      Step(st', db,
           {Emit(ToRoomExcept(room, c.socketId), UserJoinedRoom(u, snapshot, room)),
            Emit(ToSocket(c.socketId), JoinedRoom(room)),
            Emit(ToRoom(room), OnlineUsers(room, OnlineList(sessions', members)))})
  }

  /** `roomParticipants` once `u` leaves `room`: the room's entry loses
      `u` and is dropped once empty; other rooms are untouched. */
  function LeaveRoomMembers(rooms: map<ConvId, seq<UserId>>, room: ConvId, u: UserId): (r: map<ConvId, seq<UserId>>)
    ensures room in r ==>
      && room in rooms && u !in r[room] && |r[room]| > 0
      && (forall v :: v in r[room] <==> v in rooms[room] && v != u)
    ensures room !in r && room in rooms ==> forall v :: v in rooms[room] ==> v == u
    ensures forall k :: k != room ==> (k in r <==> k in rooms) && (k in rooms ==> r[k] == rooms[k])
  {
    if room in rooms then
      var rest := Without(rooms[room], u);
      if |rest| == 0 then rooms - {room} else rooms[room := rest]
    else rooms
  }

  /** `handleLeaveRoom`: always permitted. The socket leaves the room, the
      session forgets it, the caller leaves the room's members (the entry is
      dropped once empty) and the caller's typing timer for the room is
      cleared. */
  function HandleLeaveRoom(st: State, db: Db, c: Client, room: ConvId): (r: Step)
    ensures r.db == db && r.state.socketToUser == st.socketToUser
    ensures !InRoom(r.state, c.socketId, room)
    ensures r.state.userSessions.Keys == st.userSessions.Keys
    ensures c.userId in st.userSessions ==>
      r.state.userSessions[c.userId] == st.userSessions[c.userId].(joinedRooms := st.userSessions[c.userId].joinedRooms - {room})
    ensures forall v :: v in st.userSessions && v != c.userId ==> r.state.userSessions[v] == st.userSessions[v]
    ensures r.state.socketRooms.Keys == st.socketRooms.Keys
    ensures c.socketId in st.socketRooms ==> r.state.socketRooms[c.socketId] == st.socketRooms[c.socketId] - {room}
    ensures forall s :: s in st.socketRooms && s != c.socketId ==> r.state.socketRooms[s] == st.socketRooms[s]
    ensures room in r.state.roomParticipants ==>
      && c.userId !in r.state.roomParticipants[room] && |r.state.roomParticipants[room]| > 0
      && (forall v :: v in r.state.roomParticipants[room] <==> v in Members(st, room) && v != c.userId)
    ensures room !in r.state.roomParticipants ==> forall v :: v in Members(st, room) ==> v == c.userId
    ensures forall k :: k != room ==> (k in r.state.roomParticipants <==> k in st.roomParticipants)
                                       && (k in st.roomParticipants ==> r.state.roomParticipants[k] == st.roomParticipants[k])
    ensures r.state.typingUsers == ClearTyping(st.typingUsers, room, c.userId)
    ensures r.emits == {Emit(ToRoomExcept(room, c.socketId), UserLeftRoom(c.userId, room)),
                        Emit(ToSocket(c.socketId), LeftRoom(room))}
  {
    var u := c.userId;
    var socketRooms' := if c.socketId in st.socketRooms
                        then st.socketRooms[c.socketId := st.socketRooms[c.socketId] - {room}]
                        else st.socketRooms;
    var sessions' := if u in st.userSessions
                     then st.userSessions[u := st.userSessions[u].(joinedRooms := st.userSessions[u].joinedRooms - {room})]
                     else st.userSessions;
    var st' := st.(userSessions := sessions', socketRooms := socketRooms',
                   roomParticipants := LeaveRoomMembers(st.roomParticipants, room, u),
                   typingUsers := ClearTyping(st.typingUsers, room, u));
    Step(st', db, {Emit(ToRoomExcept(room, c.socketId), UserLeftRoom(u, room)),
                   Emit(ToSocket(c.socketId), LeftRoom(room))})
  }

  /** `text?.trim()`. */
  function TrimOpt(o: Option<string>): Option<string> {
    if o.Some? then Some(Trim(o.value)) else None
  }

  /** The fields a socket send builds its record from. */
  function SocketDraft(c: Client, input: Outgoing): Draft {
    Draft(input.conversationId, c.userId, input.messageType, TrimOpt(input.text), input.mediaUrl,
          input.fileName, input.fileSize, input.repliedTo, None)
  }

  /** The record a socket send stores, or `None` when the schema refuses
      the type: "sent" with trimmed text, then a delivery receipt for every
      member the registry lists for the room except the sender. */
  function SocketMessage(st: State, c: Client, input: Outgoing, now: int): (r: Option<Message>)
    ensures r.Some? ==>
      var m := r.value;
      && m.sender == c.userId && m.conversationId == input.conversationId
      && m.text == TrimOpt(input.text) && m.seenBy == [] && !m.deleted
      && (forall v :: HasUser(m.deliveredTo, v) <==> v in Members(st, input.conversationId) && v != c.userId)
      && (m.status == Delivered <==> exists v :: v in Members(st, input.conversationId) && v != c.userId)
      && (m.status != Delivered ==> m.status == Sent)
      && StatusMatchesReceipts(m)
  {
    var room := input.conversationId;
    var created := Create(SocketDraft(c, input), now);
    if created.None? then None
    else
      var members := Members(st, room);
      var m := Delivery.DeliverToOthers(created.value, members, c.userId, now);
      assert m.status == Delivered <==> exists v :: v in members && v != c.userId;
      Some(m)
  }

  /** The `messageDelivered` confirmations of a send: one to the socket of
      every other member `roomParticipants` lists that has a session. */
  function DeliveredNotes(st: State, room: ConvId, u: UserId, id: MsgId, now: int): (r: set<Emit>)
    ensures forall v :: v in Members(st, room) && v != u && v in st.userSessions ==>
              Emit(ToSocket(st.userSessions[v].socketId), MessageDelivered(id, room, now)) in r
    ensures forall e :: e in r ==>
              && e.event == MessageDelivered(id, room, now)
              && exists v :: v in Members(st, room) && v != u && v in st.userSessions
                             && e.target == ToSocket(st.userSessions[v].socketId)
  {
    set v | v in Members(st, room) && v != u && v in st.userSessions
      :: Emit(ToSocket(st.userSessions[v].socketId), MessageDelivered(id, room, now))
  }

  /** The record a send broadcasts is the stored one before the delivery
      receipts: still "sent" and with no receipt. */
  lemma BroadcastPrecedesReceipts(st: State, c: Client, input: Outgoing, now: int)
    requires SocketMessage(st, c, input, now).Some?
    ensures Create(SocketDraft(c, input), now).Some?
    ensures Create(SocketDraft(c, input), now).value
            == SocketMessage(st, c, input, now).value.(status := Sent, deliveredTo := [])
  {
  }

  /** `handleSendMessage`: refused unless the socket is in the room. The new
      record starts as "sent" with trimmed text; everybody `roomParticipants`
      lists for the room except the sender becomes a delivery receipt, and
      the status is "delivered" exactly when there is at least one. A
      `messageType` outside the enum fails the save. A stored message
      becomes the conversation's last message, clears the sender's typing
      in the room, is broadcast to the room as first saved, and each other
      online member's socket gets a delivery confirmation. */
  function HandleSendMessage(st: State, db: Db, c: Client, input: Outgoing, id: MsgId, now: int): (r: Step)
    requires id !in db.messages
    ensures !InRoom(st, c.socketId, input.conversationId) ==>
      r == Step(st, db, {Emit(ToSocket(c.socketId), Error("You must join the room first"))})
    ensures r.state.userSessions == st.userSessions && r.state.roomParticipants == st.roomParticipants
    ensures r.state.socketToUser == st.socketToUser && r.state.socketRooms == st.socketRooms
    ensures id in r.db.messages ==>
      && InRoom(st, c.socketId, input.conversationId)
      && SocketMessage(st, c, input, now) == Some(r.db.messages[id])
    ensures forall k :: k in db.messages ==> k in r.db.messages && r.db.messages[k] == db.messages[k]
    ensures r.db.messages.Keys <= db.messages.Keys + {id}
    ensures InRoom(st, c.socketId, input.conversationId) && SocketMessage(st, c, input, now).None? ==>
      r == Step(st, db, {Emit(ToSocket(c.socketId), Error("Failed to send message"))})
    ensures InRoom(st, c.socketId, input.conversationId) && SocketMessage(st, c, input, now).Some? ==>
      var room := input.conversationId;
      && id in r.db.messages
      && r.state.typingUsers == ClearTyping(st.typingUsers, room, c.userId)
      && r.db.users == db.users
      && r.db.conversations.Keys == db.conversations.Keys
      && (room in db.conversations ==>
            r.db.conversations[room] == db.conversations[room].(lastMessage := Some(id), lastMessageTime := Some(now)))
      && (forall k :: k in db.conversations && k != room ==> r.db.conversations[k] == db.conversations[k])
      && var receive := Emit(ToRoom(room), ReceiveMessage(id, r.db.messages[id].(status := Sent, deliveredTo := []), room));
      && receive in r.emits
      && (forall v :: v in Members(st, room) && v != c.userId && v in st.userSessions ==>
            Emit(ToSocket(st.userSessions[v].socketId), MessageDelivered(id, room, now)) in r.emits)
      && (forall e :: e in r.emits && e != receive ==>
            && e.event == MessageDelivered(id, room, now)
            && exists v :: v in Members(st, room) && v != c.userId && v in st.userSessions
                           && e.target == ToSocket(st.userSessions[v].socketId))
  {
    var room := input.conversationId;
    if !InRoom(st, c.socketId, room) then
      Step(st, db, {Emit(ToSocket(c.socketId), Error("You must join the room first"))})
    else
      var m' := SocketMessage(st, c, input, now);
      if m'.None? then
        Step(st, db, {Emit(ToSocket(c.socketId), Error("Failed to send message"))})
      else
        var db' := SetLastMessage(db.(messages := db.messages[id := m'.value]), room, id, now);
        var st' := st.(typingUsers := ClearTyping(st.typingUsers, room, c.userId));
        // the broadcast carries the record as first saved, before the receipts
        BroadcastPrecedesReceipts(st, c, input, now);
        var snapshot := Create(SocketDraft(c, input), now).value;
        Step(st', db', {Emit(ToRoom(room), ReceiveMessage(id, snapshot, room))} + DeliveredNotes(st, room, c.userId, id, now))
  }

  /** `handleMessageStatusUpdate`: the caller's own messages are never
      touched; "delivered" and "seen" follow the socket variant of the
      lifecycle and any other status does nothing. */
  function HandleMessageStatusUpdate(st: State, db: Db, c: Client, id: MsgId, status: string, now: int): (r: Step)
    ensures r.state == st
    ensures r.db.conversations == db.conversations && r.db.users == db.users
    ensures r.db.messages.Keys == db.messages.Keys
    ensures forall k :: k in db.messages && k != id ==> r.db.messages[k] == db.messages[k]
    ensures id !in db.messages ==> r == Step(st, db, {Emit(ToSocket(c.socketId), Error("Message not found"))})
    ensures id in db.messages && db.messages[id].sender == c.userId ==> r == Step(st, db, {})
    ensures id in db.messages && status == "delivered" && db.messages[id].sender != c.userId ==>
      r.db.messages[id] == Delivery.SocketDelivered(db.messages[id], c.userId, now).message
    ensures id in db.messages && status == "seen" && db.messages[id].sender != c.userId ==>
      r.db.messages[id] == Delivery.SocketSeen(db.messages[id], c.userId, now).message
    ensures id in db.messages && status != "delivered" && status != "seen" ==> r == Step(st, db, {})
    ensures id in db.messages ==>
      (r.emits != {} <==> r.db.messages[id] != db.messages[id] && db.messages[id].sender in st.userSessions)
    ensures id in db.messages ==> forall e :: e in r.emits ==>
      e == Emit(ToSocket(st.userSessions[db.messages[id].sender].socketId),
                MessageStatusUpdated(id, status, c.userId, now))
  {
    if id !in db.messages then
      Step(st, db, {Emit(ToSocket(c.socketId), Error("Message not found"))})
    else
      var m := db.messages[id];
      if m.sender == c.userId then Step(st, db, {})
      else
        var upd := if status == "delivered" then Delivery.SocketDelivered(m, c.userId, now)
                   else if status == "seen" then Delivery.SocketSeen(m, c.userId, now)
                   else Delivery.Update(m, false);
        if !upd.changed then Step(st, db, {})
        else
          var db' := db.(messages := db.messages[id := upd.message]);
          var notify := if m.sender in st.userSessions
                        then {Emit(ToSocket(st.userSessions[m.sender].socketId),
                                   MessageStatusUpdated(id, status, c.userId, now))}
                        else {};
          Step(st, db', notify)
  }

  /** `handleTyping`: ignored unless the socket is in the room. Typing
      starts (or restarts) the caller's single timer for the room, stopping
      clears it; then the room's typing list goes to everyone in the room but
      the typer's session socket. */
  function HandleTyping(st: State, db: Db, c: Client, room: ConvId, isTyping: bool): (r: Step)
    ensures r.db == db
    ensures r.state.userSessions == st.userSessions && r.state.roomParticipants == st.roomParticipants
    ensures r.state.socketToUser == st.socketToUser && r.state.socketRooms == st.socketRooms
    ensures !InRoom(st, c.socketId, room) ==> r == Step(st, db, {})
    ensures InRoom(st, c.socketId, room) && isTyping ==>
      && room in r.state.typingUsers
      && r.state.typingUsers[room] == (if room in st.typingUsers then st.typingUsers[room] else {}) + {c.userId}
    ensures InRoom(st, c.socketId, room) && !isTyping ==>
      r.state.typingUsers == ClearTyping(st.typingUsers, room, c.userId)
    ensures forall k :: k != room ==> (k in r.state.typingUsers <==> k in st.typingUsers)
                                      && (k in st.typingUsers ==> r.state.typingUsers[k] == st.typingUsers[k])
    ensures InRoom(st, c.socketId, room) ==>
      r.emits == {Emit(ToRoomExcept(room, TyperSocket(st, c.userId)), TypingUpdate(room, TypingList(r.state, room)))}
  {
    if !InRoom(st, c.socketId, room) then Step(st, db, {})
    else
      var typing' := if isTyping
                     then st.typingUsers[room := (if room in st.typingUsers then st.typingUsers[room] else {}) + {c.userId}]
                     else ClearTyping(st.typingUsers, room, c.userId);
      var st' := st.(typingUsers := typing');
      Step(st', db, {Emit(ToRoomExcept(room, TyperSocket(st', c.userId)), TypingUpdate(room, TypingList(st', room)))})
  }

  /** The 3-second timer of (room, u) fires: the entry is cleared and the
      room's typing list goes to the whole room. */
  function TypingTimerFired(st: State, db: Db, room: ConvId, u: UserId): (r: Step)
    requires room in st.typingUsers && u in st.typingUsers[room]
    ensures r.db == db && r.state == st.(typingUsers := ClearTyping(st.typingUsers, room, u))
    ensures room in r.state.typingUsers ==> u !in r.state.typingUsers[room]
    ensures r.emits == {Emit(ToRoom(room), TypingUpdate(room, TypingList(r.state, room)))}
  {
    var st' := st.(typingUsers := ClearTyping(st.typingUsers, room, u));
    Step(st', db, {Emit(ToRoom(room), TypingUpdate(room, TypingList(st', room)))})
  }

  /** The filter of `markMessagesAsSeen`: a listed message of the room that
      the caller neither sent nor has seen. */
  predicate SeenCandidate(db: Db, ids: seq<MsgId>, room: ConvId, u: UserId, k: MsgId) {
    k in ids && k in db.messages && db.messages[k].conversationId == room
    && UnreadBy(db.messages[k], u)
  }

  /** Every message the bulk update modifies. */
  function Candidates(db: Db, ids: seq<MsgId>, room: ConvId, u: UserId): set<MsgId> {
    set k | k in ids && SeenCandidate(db, ids, room, u, k)
  }

  /** The messages `markMessagesAsSeen` re-reads after its update: every
      listed message of the room, whoever sent it. */
  function ListedInRoom(db: Db, ids: seq<MsgId>, room: ConvId): set<MsgId> {
    set k | k in ids && k in db.messages && db.messages[k].conversationId == room
  }

  /** The listed messages of one sender, as named in its notification. */
  function FromSender(db: Db, listed: set<MsgId>, s: UserId): set<MsgId> {
    set k | k in listed && k in db.messages && db.messages[k].sender == s
  }

  /** The `messagesMarkedAsSeen` notes of a bulk read: one to every online
      sender of the listed messages, naming that sender's messages, and
      nothing else. */
  function SeenNotes(st: State, db: Db, listed: set<MsgId>, room: ConvId, u: UserId, now: int): (r: set<Emit>)
    ensures forall s :: s in st.userSessions && FromSender(db, listed, s) != {} ==>
              Emit(ToSocket(st.userSessions[s].socketId), MessagesMarkedAsSeen(room, FromSender(db, listed, s), u, now)) in r
    ensures forall e :: e in r ==>
              (&& e.event.MessagesMarkedAsSeen? && e.target.ToSocket?
               && e.event.conversationId == room && e.event.seenBy == u && e.event.seenAt == now
               && e.event.messageIds != {}
               && exists s :: (&& s in st.userSessions && e.target.socketId == st.userSessions[s].socketId
                               && e.event.messageIds == FromSender(db, listed, s)))
  {
    var senders := set k | k in listed && k in db.messages :: db.messages[k].sender;
    assert forall s :: s in senders ==> FromSender(db, listed, s) != {} by {
      forall s | s in senders ensures FromSender(db, listed, s) != {} {
        var k :| k in listed && k in db.messages && db.messages[k].sender == s;
        assert k in FromSender(db, listed, s);
      }
    }
    assert forall s :: FromSender(db, listed, s) != {} ==> s in senders by {
      forall s | FromSender(db, listed, s) != {} ensures s in senders {
        var k :| k in FromSender(db, listed, s);
      }
    }
    set s | s in senders && s in st.userSessions
      :: Emit(ToSocket(st.userSessions[s].socketId), MessagesMarkedAsSeen(room, FromSender(db, listed, s), u, now))
  }

  /** `handleMarkMessagesAsSeen`: does nothing unless the caller is a
      persisted participant. Each candidate message gets the caller in
      `seenBy` and status "seen" (no `deliveredTo` backfill); if any changed,
      each distinct online sender of the listed messages of the room gets
      one event naming its messages. */
  function HandleMarkMessagesAsSeen(st: State, db: Db, c: Client, room: ConvId, ids: seq<MsgId>, now: int): (r: Step)
    ensures r.state == st && r.db.conversations == db.conversations && r.db.users == db.users
    ensures r.db.messages.Keys == db.messages.Keys
    ensures !IsParticipant(db, room, c.userId) ==> r == Step(st, db, {})
    ensures forall k :: k in db.messages ==>
      r.db.messages[k] == if IsParticipant(db, room, c.userId) && SeenCandidate(db, ids, room, c.userId, k)
                          then Delivery.BulkSeen(db.messages[k], c.userId, now) else db.messages[k]
    ensures Candidates(db, ids, room, c.userId) == {} ==> r.emits == {}
    ensures IsParticipant(db, room, c.userId) && Candidates(db, ids, room, c.userId) != {} ==>
      forall s :: s in st.userSessions && FromSender(db, ListedInRoom(db, ids, room), s) != {} ==>
        Emit(ToSocket(st.userSessions[s].socketId),
             MessagesMarkedAsSeen(room, FromSender(db, ListedInRoom(db, ids, room), s), c.userId, now)) in r.emits
    ensures forall e :: e in r.emits ==>
              (&& e.event.MessagesMarkedAsSeen? && e.target.ToSocket?
               && e.event.conversationId == room && e.event.seenBy == c.userId && e.event.seenAt == now
               && e.event.messageIds != {}
               && exists s :: (&& s in st.userSessions && e.target.socketId == st.userSessions[s].socketId
                               && e.event.messageIds == FromSender(db, ListedInRoom(db, ids, room), s)))
  {
    if !IsParticipant(db, room, c.userId) then Step(st, db, {})
    else
      var u := c.userId;
      var messages' := map k | k in db.messages
        :: if SeenCandidate(db, ids, room, u, k) then Delivery.BulkSeen(db.messages[k], u, now) else db.messages[k];
      var db' := db.(messages := messages');
      if Candidates(db, ids, room, u) == {} then Step(st, db', {})
      else Step(st, db', SeenNotes(st, db, ListedInRoom(db, ids, room), room, u, now))
  }

  /** `handleUpdateOnlineStatus`: the session (if any) and the stored user
      take the new flag and time, and contacts are told. */
  function HandleUpdateOnlineStatus(st: State, db: Db, c: Client, isOnline: bool, now: int): (r: Step)
    ensures r.state.userSessions.Keys == st.userSessions.Keys
    ensures c.userId in st.userSessions ==>
      r.state.userSessions[c.userId] == st.userSessions[c.userId].(isOnline := isOnline, lastSeen := now)
    ensures r.state == st.(userSessions := r.state.userSessions)
    ensures forall v :: v in st.userSessions && v != c.userId ==> r.state.userSessions[v] == st.userSessions[v]
    ensures r.db == SetPresence(db, c.userId, isOnline, now)
    ensures r.emits == StatusBroadcast(r.state, r.db, c.userId, isOnline, now)
  {
    var u := c.userId;
    var sessions' := if u in st.userSessions
                     then st.userSessions[u := st.userSessions[u].(isOnline := isOnline, lastSeen := now)]
                     else st.userSessions;
    var st' := st.(userSessions := sessions');
    var db' := SetPresence(db, u, isOnline, now);
    Step(st', db', StatusBroadcast(st', db', u, isOnline, now))
  }

  /** `handleGetOnlineUsers` / `sendOnlineUsersToSocket`: the room's online
      members go to the caller only; an untracked room gives an empty list. */
  function HandleGetOnlineUsers(st: State, db: Db, c: Client, room: ConvId): (r: Step)
    ensures r.state == st && r.db == db
    ensures r.emits == {Emit(ToSocket(c.socketId), OnlineUsers(room, OnlineList(st.userSessions, Members(st, room))))}
    ensures room !in st.roomParticipants ==> r.emits == {Emit(ToSocket(c.socketId), OnlineUsers(room, []))}
  {
    if room !in st.roomParticipants then Step(st, db, {Emit(ToSocket(c.socketId), OnlineUsers(room, []))})
    else Step(st, db, {Emit(ToSocket(c.socketId), OnlineUsers(room, OnlineList(st.userSessions, st.roomParticipants[room])))})
  }

  /** The typing maps once `u` is cleared from every room it types in. */
  function ClearTypingEverywhere(typing: map<ConvId, set<UserId>>, u: UserId): (r: map<ConvId, set<UserId>>)
    ensures forall k :: k in r <==> k in typing && (u !in typing[k] || typing[k] - {u} != {})
    ensures forall k :: k in r ==> u !in r[k] && r[k] == typing[k] - {u}
  {
    map k | k in typing && (u !in typing[k] || typing[k] - {u} != {}) :: typing[k] - {u}
  }

  /** `roomParticipants` once `u` leaves every room it is in; rooms it
      empties vanish. */
  function LeaveEverywhere(rooms: map<ConvId, seq<UserId>>, u: UserId): (r: map<ConvId, seq<UserId>>)
    ensures forall k :: k in r <==> k in rooms && (u !in rooms[k] || |Without(rooms[k], u)| > 0)
    ensures forall k :: k in r ==> u !in r[k] && r[k] == Without(rooms[k], u)
  {
    map k | k in rooms && (u !in rooms[k] || |Without(rooms[k], u)| > 0) :: Without(rooms[k], u)
  }

  /** The `typingUpdate` each room the user was typing in hears once the
      user is cleared from it: the room's remaining typists that have a
      session. */
  function TypingNotes(st: State, u: UserId): (r: set<Emit>)
    ensures forall k :: k in st.typingUsers && u in st.typingUsers[k] ==>
              Emit(ToRoom(k), TypingUpdate(k, TypingList(st.(typingUsers := ClearTypingEverywhere(st.typingUsers, u)), k))) in r
    ensures forall e :: e in r ==>
              && e.event.TypingUpdate? && e.target == ToRoom(e.event.conversationId)
              && e.event.conversationId in st.typingUsers && u in st.typingUsers[e.event.conversationId]
              && forall t :: t in e.event.typingUsers ==>
                   t.userId != u && t.userId in st.typingUsers[e.event.conversationId] && t.userId in st.userSessions
  {
    var st' := st.(typingUsers := ClearTypingEverywhere(st.typingUsers, u));
    set k | k in st.typingUsers && u in st.typingUsers[k] :: Emit(ToRoom(k), TypingUpdate(k, TypingList(st', k)))
  }

  /** The "userLeftRoom" notice to every room the user leaves that still
      has members. */
  function LeftNotes(rooms: map<ConvId, seq<UserId>>, u: UserId): (r: set<Emit>)
    ensures forall e :: e in r ==> e.event.UserLeftRoom? && e.event.userId == u
    ensures forall k :: Emit(ToRoom(k), UserLeftRoom(u, k)) in r <==>
                          k in rooms && u in rooms[k] && |Without(rooms[k], u)| > 0
  {
    set k | k in rooms && u in rooms[k] && |Without(rooms[k], u)| > 0 :: Emit(ToRoom(k), UserLeftRoom(u, k))
  }

  /** `handleDisconnection`. An unknown socket changes nothing of the
      manager's own maps. Otherwise the user is cleared from every typing
      map and every room (emptied entries vanish, rooms that keep members
      hear `userLeftRoom`), the stored user goes offline, contacts are told,
      and the user's session and the socket mapping are deleted. The
      transport drops the socket's room set in both cases. */
  function HandleDisconnection(st: State, db: Db, sid: SocketId, now: int): (r: Step)
    ensures r.state.socketRooms == st.socketRooms - {sid}
    ensures sid !in st.socketToUser ==> r == Step(st.(socketRooms := st.socketRooms - {sid}), db, {})
    ensures sid in st.socketToUser ==>
      var u := st.socketToUser[sid];
      && r.state.userSessions == st.userSessions - {u}
      && r.state.socketToUser == st.socketToUser - {sid}
      && (forall k :: k in r.state.typingUsers ==> u !in r.state.typingUsers[k])
      && (forall k :: k in r.state.roomParticipants ==> u !in r.state.roomParticipants[k])
      && (forall k, v :: v != u ==> (k in r.state.roomParticipants && v in r.state.roomParticipants[k]
                                     <==> k in st.roomParticipants && v in st.roomParticipants[k]))
      && (forall k :: Emit(ToRoom(k), UserLeftRoom(u, k)) in r.emits <==>
                        k in st.roomParticipants && u in st.roomParticipants[k] && k in r.state.roomParticipants)
      && r.state.typingUsers == ClearTypingEverywhere(st.typingUsers, u)
      && r.state.roomParticipants == LeaveEverywhere(st.roomParticipants, u)
      && r.db == SetPresence(db, u, false, now)
      && r.emits == TypingNotes(st, u) + LeftNotes(st.roomParticipants, u) + StatusBroadcast(st, r.db, u, false, now)
  {
    var transport := st.socketRooms - {sid};
    if sid !in st.socketToUser then Step(st.(socketRooms := transport), db, {})
    else
      var u := st.socketToUser[sid];
      var typing' := ClearTypingEverywhere(st.typingUsers, u);
      var typingNotes := TypingNotes(st, u);
      var rooms' := LeaveEverywhere(st.roomParticipants, u);
      var leftNotes := LeftNotes(st.roomParticipants, u);
      var db' := SetPresence(db, u, false, now);
      var statusNotes := StatusBroadcast(st, db', u, false, now);
      var st' := State(st.userSessions - {u}, st.socketToUser - {sid}, rooms', typing', transport);
      Step(st', db', typingNotes + leftNotes + statusNotes)
  }
}
