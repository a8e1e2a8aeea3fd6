/** The registry invariant of the socket manager and the handlers that keep
    it. The invariant only holds while every user has at most one live
    socket: a second connection for the same user overwrites the session,
    and the lemmas at the end show how that breaks it. */
module SocketInvariants {
  import opened Ids
  import opened Collections
  import opened Wrappers
  import opened Messages
  import opened Store
  import opened SocketManager

  /** Each session is filed under its own user and its socket maps back to it. */
  ghost predicate SessionsIndexed(st: State) {
    forall u :: u in st.userSessions ==>
      && st.userSessions[u].userId == u
      && st.userSessions[u].socketId in st.socketToUser
      && st.socketToUser[st.userSessions[u].socketId] == u
  }

  /** Each mapped socket belongs to its user's session, and the transport's
      room set of the socket is the session's `joinedRooms`. */
  ghost predicate SocketsIndexed(st: State) {
    forall s :: s in st.socketToUser ==>
      && st.socketToUser[s] in st.userSessions
      && st.userSessions[st.socketToUser[s]].socketId == s
      && s in st.socketRooms
      && st.socketRooms[s] == st.userSessions[st.socketToUser[s]].joinedRooms
  }

  /** Tracked rooms are non-empty and list each member once. */
  ghost predicate RoomsWellFormed(st: State) {
    forall k :: k in st.roomParticipants ==> |st.roomParticipants[k]| > 0 && NoDup(st.roomParticipants[k])
  }

  /** A user is among a room's members exactly when the user has a session
      whose `joinedRooms` holds the room. */
  ghost predicate RoomsMirrorSessions(st: State) {
    && (forall k, v :: k in st.roomParticipants && v in st.roomParticipants[k] ==>
          v in st.userSessions && k in st.userSessions[v].joinedRooms)
    && (forall v, k :: v in st.userSessions && k in st.userSessions[v].joinedRooms ==>
          k in st.roomParticipants && v in st.roomParticipants[k])
  }

  /** Typing maps are non-empty and only hold members of the room. */
  ghost predicate TypingWellFormed(st: State) {
    forall k :: k in st.typingUsers ==>
      && st.typingUsers[k] != {}
      && forall v :: v in st.typingUsers[k] ==> v in st.userSessions && k in st.userSessions[v].joinedRooms
  }

  ghost predicate Consistent(st: State) {
    && SessionsIndexed(st)
    && SocketsIndexed(st)
    && RoomsWellFormed(st)
    && RoomsMirrorSessions(st)
    && TypingWellFormed(st)
  }

  /** The client's socket is live and mapped to the client's user. */
  predicate Registered(st: State, c: Client) {
    c.socketId in st.socketToUser && st.socketToUser[c.socketId] == c.userId
  }

  /** The membership mirror as an equivalence. */
  lemma MembershipMirror(st: State, room: ConvId, u: UserId)
    requires Consistent(st)
    ensures (room in st.roomParticipants && u in st.roomParticipants[room])
            <==> (u in st.userSessions && room in st.userSessions[u].joinedRooms)
  {
  }

  lemma InitialConsistent()
    ensures Consistent(Initial)
  {
  }

  /** The registry after a new session for `u` on the fresh socket `sid`. */
  ghost predicate ConnectStep(st: State, st': State, u: UserId, sid: SocketId, s: Session) {
    && u !in st.userSessions && sid !in st.socketToUser
    && s.userId == u && s.socketId == sid && s.joinedRooms == {}
    && st' == st.(userSessions := st.userSessions[u := s], socketToUser := st.socketToUser[sid := u],
                  socketRooms := st.socketRooms[sid := {}])
  }

  lemma ConnectKeepsIndexes(st: State, st': State, u: UserId, sid: SocketId, s: Session)
    requires Consistent(st) && ConnectStep(st, st', u, sid, s)
    ensures SessionsIndexed(st') && SocketsIndexed(st')
  {
    forall v | v in st'.userSessions
      ensures st'.userSessions[v].socketId in st'.socketToUser && st'.socketToUser[st'.userSessions[v].socketId] == v
    {
      if v != u {
        assert st.userSessions[v].socketId in st.socketToUser;
      }
    }
  }

  lemma ConnectKeepsRooms(st: State, st': State, u: UserId, sid: SocketId, s: Session)
    requires Consistent(st) && ConnectStep(st, st', u, sid, s)
    ensures RoomsWellFormed(st') && RoomsMirrorSessions(st') && TypingWellFormed(st')
  {
  }

  lemma ConnectShape(st: State, st': State, u: UserId, sid: SocketId, s: Session)
    requires Consistent(st) && ConnectStep(st, st', u, sid, s)
    ensures Consistent(st')
  {
    ConnectKeepsIndexes(st, st', u, sid, s);
    ConnectKeepsRooms(st, st', u, sid, s);
  }

  lemma ConnectPreserves(st: State, db: Db, c: Client, now: int)
    requires Consistent(st)
    requires c.userId !in st.userSessions && c.socketId !in st.socketToUser
    ensures var st' := HandleConnection(st, db, c, now).state;
            Consistent(st') && Registered(st', c)
  {
    var st' := HandleConnection(st, db, c, now).state;
    ConnectShape(st, st', c.userId, c.socketId, st'.userSessions[c.userId]);
  }

  /** The session of a registered client. */
  lemma RegisteredSession(st: State, c: Client)
    requires Consistent(st) && Registered(st, c)
    ensures c.userId in st.userSessions && st.userSessions[c.userId].socketId == c.socketId
    ensures c.socketId in st.socketRooms && st.socketRooms[c.socketId] == st.userSessions[c.userId].joinedRooms
  {
  }

  /** The registry after a registered user's session joins `room`. */
  ghost predicate JoinStep(st: State, st': State, u: UserId, sid: SocketId, room: ConvId) {
    && u in st.userSessions && st.userSessions[u].socketId == sid
    && sid in st.socketRooms && st.socketRooms[sid] == st.userSessions[u].joinedRooms
    && st' == st.(userSessions := st.userSessions[u := st.userSessions[u].(joinedRooms := st.userSessions[u].joinedRooms + {room})],
                  socketRooms := st.socketRooms[sid := st.socketRooms[sid] + {room}],
                  roomParticipants := st.roomParticipants[room := AddMember(Members(st, room), u)])
  }

  lemma JoinKeepsIndexes(st: State, st': State, u: UserId, sid: SocketId, room: ConvId)
    requires Consistent(st) && JoinStep(st, st', u, sid, room)
    ensures SessionsIndexed(st') && SocketsIndexed(st')
  {
    assert SocketsIndexed(st') by {
      forall s | s in st'.socketToUser
        ensures st'.socketRooms[s] == st'.userSessions[st'.socketToUser[s]].joinedRooms
      {
        if s != sid {
          assert st.socketToUser[s] != u;
        }
      }
    }
  }

  lemma JoinKeepsRooms(st: State, st': State, u: UserId, sid: SocketId, room: ConvId)
    requires Consistent(st) && JoinStep(st, st', u, sid, room)
    ensures RoomsWellFormed(st') && RoomsMirrorSessions(st')
  {
    assert RoomsWellFormed(st');
    assert forall k, v :: k in st'.roomParticipants && v in st'.roomParticipants[k] ==>
      v in st'.userSessions && k in st'.userSessions[v].joinedRooms;
  }

  lemma JoinKeepsTyping(st: State, st': State, u: UserId, sid: SocketId, room: ConvId)
    requires Consistent(st) && JoinStep(st, st', u, sid, room)
    ensures TypingWellFormed(st')
  {
  }

  lemma JoinShape(st: State, st': State, u: UserId, sid: SocketId, room: ConvId)
    requires Consistent(st) && JoinStep(st, st', u, sid, room)
    ensures Consistent(st')
  {
    JoinKeepsIndexes(st, st', u, sid, room);
    JoinKeepsRooms(st, st', u, sid, room);
    JoinKeepsTyping(st, st', u, sid, room);
  }

  lemma JoinPreserves(st: State, db: Db, c: Client, room: ConvId)
    requires Consistent(st) && Registered(st, c)
    ensures var st' := HandleJoinRoom(st, db, c, room).state;
            Consistent(st') && Registered(st', c)
  {
    var st' := HandleJoinRoom(st, db, c, room).state;
    if IsParticipant(db, room, c.userId) {
      RegisteredSession(st, c);
      assert st' == st.(userSessions := st.userSessions[c.userId := st.userSessions[c.userId].(joinedRooms := st.userSessions[c.userId].joinedRooms + {room})],
                        socketRooms := st.socketRooms[c.socketId := st.socketRooms[c.socketId] + {room}],
                        roomParticipants := st.roomParticipants[room := AddMember(Members(st, room), c.userId)]);
      JoinShape(st, st', c.userId, c.socketId, room);
    }
  }

  /** The registry after a registered user's session leaves `room`. */
  ghost predicate LeaveStep(st: State, st': State, u: UserId, sid: SocketId, room: ConvId) {
    && u in st.userSessions && st.userSessions[u].socketId == sid
    && sid in st.socketRooms && st.socketRooms[sid] == st.userSessions[u].joinedRooms
    && st' == st.(userSessions := st.userSessions[u := st.userSessions[u].(joinedRooms := st.userSessions[u].joinedRooms - {room})],
                  socketRooms := st.socketRooms[sid := st.socketRooms[sid] - {room}],
                  roomParticipants := LeaveRoomMembers(st.roomParticipants, room, u),
                  typingUsers := ClearTyping(st.typingUsers, room, u))
  }

  lemma LeaveKeepsIndexes(st: State, st': State, u: UserId, sid: SocketId, room: ConvId)
    requires Consistent(st) && LeaveStep(st, st', u, sid, room)
    ensures SessionsIndexed(st') && SocketsIndexed(st')
  {
    assert SocketsIndexed(st') by {
      forall s | s in st'.socketToUser
        ensures st'.socketRooms[s] == st'.userSessions[st'.socketToUser[s]].joinedRooms
      {
        if s != sid {
          assert st.socketToUser[s] != u;
        }
      }
    }
  }

  lemma LeaveKeepsRooms(st: State, st': State, u: UserId, sid: SocketId, room: ConvId)
    requires Consistent(st) && LeaveStep(st, st', u, sid, room)
    ensures RoomsWellFormed(st') && RoomsMirrorSessions(st')
  {
    assert RoomsWellFormed(st');
    LeaveKeepsMirror(st, st', u, sid, room);
  }

  lemma LeaveKeepsMirror(st: State, st': State, u: UserId, sid: SocketId, room: ConvId)
    requires Consistent(st) && LeaveStep(st, st', u, sid, room)
    ensures RoomsMirrorSessions(st')
  {
    assert forall k, v :: k in st'.roomParticipants && v in st'.roomParticipants[k] ==>
      v in st'.userSessions && k in st'.userSessions[v].joinedRooms;
    forall v, k | v in st'.userSessions && k in st'.userSessions[v].joinedRooms
      ensures k in st'.roomParticipants && v in st'.roomParticipants[k]
    {
      if k == room {
        assert v != u;
        assert v in Without(st.roomParticipants[room], u);
      }
    }
  }

  lemma LeaveKeepsTyping(st: State, st': State, u: UserId, sid: SocketId, room: ConvId)
    requires Consistent(st) && LeaveStep(st, st', u, sid, room)
    ensures TypingWellFormed(st')
  {
  }

  lemma LeaveShape(st: State, st': State, u: UserId, sid: SocketId, room: ConvId)
    requires Consistent(st) && LeaveStep(st, st', u, sid, room)
    ensures Consistent(st')
  {
    LeaveKeepsIndexes(st, st', u, sid, room);
    LeaveKeepsRooms(st, st', u, sid, room);
    LeaveKeepsTyping(st, st', u, sid, room);
  }

  lemma LeavePreserves(st: State, db: Db, c: Client, room: ConvId)
    requires Consistent(st) && Registered(st, c)
    ensures var st' := HandleLeaveRoom(st, db, c, room).state;
            Consistent(st') && Registered(st', c)
  {
    var st' := HandleLeaveRoom(st, db, c, room).state;
    RegisteredSession(st, c);
    assert st' == st.(userSessions := st.userSessions[c.userId := st.userSessions[c.userId].(joinedRooms := st.userSessions[c.userId].joinedRooms - {room})],
                      socketRooms := st.socketRooms[c.socketId := st.socketRooms[c.socketId] - {room}],
                      roomParticipants := LeaveRoomMembers(st.roomParticipants, room, c.userId),
                      typingUsers := ClearTyping(st.typingUsers, room, c.userId));
    LeaveShape(st, st', c.userId, c.socketId, room);
  }

  /** Clearing a typing timer never breaks the invariant. */
  lemma ClearTypingShape(st: State, room: ConvId, u: UserId)
    requires Consistent(st)
    ensures Consistent(st.(typingUsers := ClearTyping(st.typingUsers, room, u)))
  {
  }

  lemma SendPreserves(st: State, db: Db, c: Client, input: Outgoing, id: MsgId, now: int)
    requires Consistent(st) && id !in db.messages
    ensures Consistent(HandleSendMessage(st, db, c, input, id, now).state)
  {
    var st' := HandleSendMessage(st, db, c, input, id, now).state;
    assert st' == st || st' == st.(typingUsers := ClearTyping(st.typingUsers, input.conversationId, c.userId));
    ClearTypingShape(st, input.conversationId, c.userId);
  }

  lemma StatusUpdatePreserves(st: State, db: Db, c: Client, id: MsgId, status: string, now: int)
    requires Consistent(st)
    ensures Consistent(HandleMessageStatusUpdate(st, db, c, id, status, now).state)
  {
  }

  /** Marking a user typing in a room the user's session has joined keeps
      the invariant. */
  lemma AddTypingShape(st: State, room: ConvId, u: UserId)
    requires Consistent(st) && u in st.userSessions && room in st.userSessions[u].joinedRooms
    ensures Consistent(st.(typingUsers := st.typingUsers[room := (if room in st.typingUsers then st.typingUsers[room] else {}) + {u}]))
  {
    var t := st.typingUsers[room := (if room in st.typingUsers then st.typingUsers[room] else {}) + {u}];
    var st' := st.(typingUsers := t);
    assert SessionsIndexed(st') && SocketsIndexed(st') && RoomsWellFormed(st') && RoomsMirrorSessions(st');
    forall k | k in t
      ensures t[k] != {} && forall v :: v in t[k] ==> v in st.userSessions && k in st.userSessions[v].joinedRooms
    {
      if k != room {
        assert t[k] == st.typingUsers[k];
      }
    }
  }

  lemma TypingPreserves(st: State, db: Db, c: Client, room: ConvId, isTyping: bool)
    requires Consistent(st) && Registered(st, c)
    ensures Consistent(HandleTyping(st, db, c, room, isTyping).state)
  {
    var st' := HandleTyping(st, db, c, room, isTyping).state;
    if InRoom(st, c.socketId, room) {
      RegisteredSession(st, c);
      if isTyping {
        assert st' == st.(typingUsers := st.typingUsers[room := (if room in st.typingUsers then st.typingUsers[room] else {}) + {c.userId}]);
        AddTypingShape(st, room, c.userId);
      } else {
        assert st' == st.(typingUsers := ClearTyping(st.typingUsers, room, c.userId));
        ClearTypingShape(st, room, c.userId);
      }
    }
  }

  lemma TimerPreserves(st: State, db: Db, room: ConvId, u: UserId)
    requires Consistent(st) && room in st.typingUsers && u in st.typingUsers[room]
    ensures Consistent(TypingTimerFired(st, db, room, u).state)
  {
    ClearTypingShape(st, room, u);
  }

  lemma MarkSeenPreserves(st: State, db: Db, c: Client, room: ConvId, ids: seq<MsgId>, now: int)
    requires Consistent(st)
    ensures Consistent(HandleMarkMessagesAsSeen(st, db, c, room, ids, now).state)
  {
  }

  /** Changing only the presence fields of sessions keeps the invariant. */
  lemma PresenceShape(st: State, st': State)
    requires Consistent(st)
    requires st' == st.(userSessions := st'.userSessions)
    requires st'.userSessions.Keys == st.userSessions.Keys
    requires forall v :: v in st.userSessions ==>
               && st'.userSessions[v].userId == st.userSessions[v].userId
               && st'.userSessions[v].socketId == st.userSessions[v].socketId
               && st'.userSessions[v].joinedRooms == st.userSessions[v].joinedRooms
    ensures Consistent(st')
  {
    assert SessionsIndexed(st');
    assert SocketsIndexed(st');
    assert RoomsMirrorSessions(st');
    assert TypingWellFormed(st');
  }

  lemma UpdateOnlineStatusPreserves(st: State, db: Db, c: Client, isOnline: bool, now: int)
    requires Consistent(st)
    ensures Consistent(HandleUpdateOnlineStatus(st, db, c, isOnline, now).state)
  {
    PresenceShape(st, HandleUpdateOnlineStatus(st, db, c, isOnline, now).state);
  }

  lemma GetOnlineUsersPreserves(st: State, db: Db, c: Client, room: ConvId)
    requires Consistent(st)
    ensures Consistent(HandleGetOnlineUsers(st, db, c, room).state)
  {
  }

  /** What leaving every room does to well-formed room lists: the lists
      that remain are well formed, lose `u` and keep everybody else. */
  ghost predicate RoomsAfterLeave(rooms: map<ConvId, seq<UserId>>, rooms': map<ConvId, seq<UserId>>, u: UserId) {
    && (forall k :: k in rooms' ==> |rooms'[k]| > 0 && NoDup(rooms'[k]))
    && (forall k, v :: k in rooms' && v in rooms'[k] ==> k in rooms && v in rooms[k] && v != u)
    && (forall k, v :: k in rooms && v in rooms[k] && v != u ==> k in rooms' && v in rooms'[k])
  }

  lemma LeaveEverywhereFacts(rooms: map<ConvId, seq<UserId>>, u: UserId)
    requires forall k :: k in rooms ==> |rooms[k]| > 0 && NoDup(rooms[k])
    ensures RoomsAfterLeave(rooms, LeaveEverywhere(rooms, u), u)
  {
    var rooms' := LeaveEverywhere(rooms, u);
    forall k | k in rooms' ensures |rooms'[k]| > 0 && NoDup(rooms'[k]) {
      if u !in rooms[k] {
        assert rooms'[k] == rooms[k];
      }
    }
    forall k, v | k in rooms && v in rooms[k] && v != u ensures k in rooms' && v in rooms'[k] {
      assert v in Without(rooms[k], u);
    }
  }

  /** What clearing `u` from every typing map does to non-empty maps. */
  ghost predicate TypingAfterClear(typing: map<ConvId, set<UserId>>, typing': map<ConvId, set<UserId>>, u: UserId) {
    forall k :: k in typing' ==> k in typing && typing'[k] == typing[k] - {u} && typing'[k] != {}
  }

  lemma ClearTypingEverywhereFacts(typing: map<ConvId, set<UserId>>, u: UserId)
    requires forall k :: k in typing ==> typing[k] != {}
    ensures TypingAfterClear(typing, ClearTypingEverywhere(typing, u), u)
  {
  }

  /** The registry after the live socket `sid` disconnects. */
  ghost predicate DisconnectStep(st: State, st': State, sid: SocketId) {
    && sid in st.socketToUser
    && var u := st.socketToUser[sid];
       && st'.userSessions == st.userSessions - {u}
       && st'.socketToUser == st.socketToUser - {sid}
       && st'.socketRooms == st.socketRooms - {sid}
       && RoomsAfterLeave(st.roomParticipants, st'.roomParticipants, u)
       && TypingAfterClear(st.typingUsers, st'.typingUsers, u)
  }

  lemma DisconnectKeepsIndexes(st: State, st': State, sid: SocketId)
    requires Consistent(st) && DisconnectStep(st, st', sid)
    ensures SessionsIndexed(st') && SocketsIndexed(st')
  {
    var u := st.socketToUser[sid];
    assert st.userSessions[u].socketId == sid;
    assert SocketsIndexed(st') by {
      forall s | s in st'.socketToUser
        ensures st'.socketToUser[s] in st'.userSessions
      {
        assert st.userSessions[st.socketToUser[s]].socketId == s;
      }
    }
  }

  lemma DisconnectKeepsRooms(st: State, st': State, sid: SocketId)
    requires Consistent(st) && DisconnectStep(st, st', sid)
    ensures RoomsWellFormed(st') && RoomsMirrorSessions(st')
  {
    var u := st.socketToUser[sid];
    forall v, k | v in st'.userSessions && k in st'.userSessions[v].joinedRooms
      ensures k in st'.roomParticipants && v in st'.roomParticipants[k]
    {
      assert v != u && k in st.userSessions[v].joinedRooms;
      assert k in st.roomParticipants && v in st.roomParticipants[k];
    }
  }

  lemma DisconnectKeepsTyping(st: State, st': State, sid: SocketId)
    requires Consistent(st) && DisconnectStep(st, st', sid)
    ensures TypingWellFormed(st')
  {
  }

  /** A socket the registry does not map only loses its transport rooms. */
  lemma StaleDisconnectPreserves(st: State, st': State, sid: SocketId)
    requires Consistent(st) && sid !in st.socketToUser
    requires st' == st.(socketRooms := st.socketRooms - {sid})
    ensures Consistent(st')
  {
    assert SocketsIndexed(st');
  }

  lemma DisconnectPreserves(st: State, db: Db, sid: SocketId, now: int)
    requires Consistent(st)
    ensures Consistent(HandleDisconnection(st, db, sid, now).state)
  {
    var st' := HandleDisconnection(st, db, sid, now).state;
    if sid in st.socketToUser {
      var u := st.socketToUser[sid];
      assert st'.roomParticipants == LeaveEverywhere(st.roomParticipants, u);
      assert st'.typingUsers == ClearTypingEverywhere(st.typingUsers, u);
      LeaveEverywhereFacts(st.roomParticipants, u);
      ClearTypingEverywhereFacts(st.typingUsers, u);
      DisconnectKeepsIndexes(st, st', sid);
      DisconnectKeepsRooms(st, st', sid);
      DisconnectKeepsTyping(st, st', sid);
    } else {
      StaleDisconnectPreserves(st, st', sid);
    }
  }
}
