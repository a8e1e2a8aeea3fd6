/** Sequences of socket events and what holds after any of them, plus the
    two ways the registry leaves its invariant when a user is on two
    sockets at once. */
module SocketRuns {
  import opened Ids
  import opened Collections
  import opened Wrappers
  import opened Messages
  import opened Store
  import opened SocketManager
  import opened SocketInvariants

  /** One event the manager reacts to. */
  datatype Command =
    | Connect(client: Client, now: int)
    | JoinRoom(client: Client, room: ConvId)
    | LeaveRoom(client: Client, room: ConvId)
    | SendMessage(client: Client, input: Outgoing, id: MsgId, now: int)
    | StatusUpdate(client: Client, id: MsgId, status: string, now: int)
    | Typing(client: Client, room: ConvId, isTyping: bool)
    | TypingTimeout(room: ConvId, user: UserId)
    | MarkSeen(client: Client, room: ConvId, ids: seq<MsgId>, now: int)
    | UpdateOnlineStatus(client: Client, isOnline: bool, now: int)
    | GetOnlineUsers(client: Client, room: ConvId)
    | Disconnect(socketId: SocketId, now: int)

  /** When the event can arrive with every user on at most one socket: a
      connection comes on a fresh socket for a user without a live session,
      the other socket events come from a live socket, a message gets a
      fresh id and a timer fires only while it is pending. */
  predicate Admissible(st: State, db: Db, cmd: Command) {
    match cmd
    case Connect(c, _) => c.userId !in st.userSessions && c.socketId !in st.socketToUser
    case SendMessage(c, _, id, _) => Registered(st, c) && id !in db.messages
    case TypingTimeout(room, u) => room in st.typingUsers && u in st.typingUsers[room]
    case Disconnect(_, _) => true
    case _ => Registered(st, cmd.client)
  }

  function Apply(st: State, db: Db, cmd: Command): Step
    requires Admissible(st, db, cmd)
  {
    match cmd
    case Connect(c, now) => HandleConnection(st, db, c, now)
    case JoinRoom(c, room) => HandleJoinRoom(st, db, c, room)
    case LeaveRoom(c, room) => HandleLeaveRoom(st, db, c, room)
    case SendMessage(c, input, id, now) => HandleSendMessage(st, db, c, input, id, now)
    case StatusUpdate(c, id, status, now) => HandleMessageStatusUpdate(st, db, c, id, status, now)
    case Typing(c, room, isTyping) => HandleTyping(st, db, c, room, isTyping)
    case TypingTimeout(room, u) => TypingTimerFired(st, db, room, u)
    case MarkSeen(c, room, ids, now) => HandleMarkMessagesAsSeen(st, db, c, room, ids, now)
    case UpdateOnlineStatus(c, isOnline, now) => HandleUpdateOnlineStatus(st, db, c, isOnline, now)
    case GetOnlineUsers(c, room) => HandleGetOnlineUsers(st, db, c, room)
    case Disconnect(sid, now) => HandleDisconnection(st, db, sid, now)
  }

  /** Every event of the sequence is admissible where it arrives. */
  predicate AdmissibleRun(st: State, db: Db, cmds: seq<Command>)
    decreases |cmds|
  {
    cmds == [] ||
    (Admissible(st, db, cmds[0]) &&
     var s := Apply(st, db, cmds[0]);
     AdmissibleRun(s.state, s.db, cmds[1..]))
  }

  /** The registry and store after the events, in order. */
  function Run(st: State, db: Db, cmds: seq<Command>): (State, Db)
    requires AdmissibleRun(st, db, cmds)
    decreases |cmds|
  {
    if cmds == [] then (st, db)
    else
      var s := Apply(st, db, cmds[0]);
      Run(s.state, s.db, cmds[1..])
  }

  lemma ApplyKeepsConsistent(st: State, db: Db, cmd: Command)
    requires Consistent(st) && Admissible(st, db, cmd)
    ensures Consistent(Apply(st, db, cmd).state)
  {
    if cmd.Connect? || cmd.JoinRoom? || cmd.LeaveRoom? || cmd.Disconnect? {
      MembershipEventKeepsConsistent(st, db, cmd);
    } else if cmd.SendMessage? || cmd.StatusUpdate? || cmd.MarkSeen? {
      MessageEventKeepsConsistent(st, db, cmd);
    } else if cmd.Typing? || cmd.TypingTimeout? {
      TypingEventKeepsConsistent(st, db, cmd);
    } else {
      PresenceEventKeepsConsistent(st, db, cmd);
    }
  }

  /** The events that change who is in which room. */
  lemma MembershipEventKeepsConsistent(st: State, db: Db, cmd: Command)
    requires Consistent(st) && Admissible(st, db, cmd)
    requires cmd.Connect? || cmd.JoinRoom? || cmd.LeaveRoom? || cmd.Disconnect?
    ensures Consistent(Apply(st, db, cmd).state)
  {
    match cmd
    case Connect(c, now) => ConnectPreserves(st, db, c, now);
    case JoinRoom(c, room) => JoinPreserves(st, db, c, room);
    case LeaveRoom(c, room) => LeavePreserves(st, db, c, room);
    case Disconnect(sid, now) => DisconnectPreserves(st, db, sid, now);
  }

  /** The events that store or update messages. */
  lemma MessageEventKeepsConsistent(st: State, db: Db, cmd: Command)
    requires Consistent(st) && Admissible(st, db, cmd)
    requires cmd.SendMessage? || cmd.StatusUpdate? || cmd.MarkSeen?
    ensures Consistent(Apply(st, db, cmd).state)
  {
    match cmd
    case SendMessage(c, input, id, now) => SendPreserves(st, db, c, input, id, now);
    case StatusUpdate(c, id, status, now) => StatusUpdatePreserves(st, db, c, id, status, now);
    case MarkSeen(c, room, ids, now) => MarkSeenPreserves(st, db, c, room, ids, now);
  }

  /** The typing events and their timers. */
  lemma TypingEventKeepsConsistent(st: State, db: Db, cmd: Command)
    requires Consistent(st) && Admissible(st, db, cmd)
    requires cmd.Typing? || cmd.TypingTimeout?
    ensures Consistent(Apply(st, db, cmd).state)
  {
    match cmd
    case Typing(c, room, isTyping) => TypingPreserves(st, db, c, room, isTyping);
    case TypingTimeout(room, u) => TimerPreserves(st, db, room, u);
  }

  /** The presence events. */
  lemma PresenceEventKeepsConsistent(st: State, db: Db, cmd: Command)
    requires Consistent(st) && Admissible(st, db, cmd)
    requires cmd.UpdateOnlineStatus? || cmd.GetOnlineUsers?
    ensures Consistent(Apply(st, db, cmd).state)
  {
    match cmd
    case UpdateOnlineStatus(c, isOnline, now) => UpdateOnlineStatusPreserves(st, db, c, isOnline, now);
    case GetOnlineUsers(c, room) => GetOnlineUsersPreserves(st, db, c, room);
  }

  lemma {:induction false} RunKeepsConsistent(st: State, db: Db, cmds: seq<Command>)
    requires Consistent(st) && AdmissibleRun(st, db, cmds)
    ensures Consistent(Run(st, db, cmds).0)
    decreases |cmds|
  {
    if cmds != [] {
      ApplyKeepsConsistent(st, db, cmds[0]);
      var s := Apply(st, db, cmds[0]);
      RunKeepsConsistent(s.state, s.db, cmds[1..]);
    }
  }

  /** From a fresh server, with one socket per user, the members the
      registry lists for a room are exactly the users whose session joined
      it. */
  lemma ReachableMembership(db: Db, cmds: seq<Command>, room: ConvId, u: UserId)
    requires AdmissibleRun(Initial, db, cmds)
    ensures var st := Run(Initial, db, cmds).0;
            (room in st.roomParticipants && u in st.roomParticipants[room])
            <==> (u in st.userSessions && room in st.userSessions[u].joinedRooms)
  {
    InitialConsistent();
    RunKeepsConsistent(Initial, db, cmds);
    MembershipMirror(Run(Initial, db, cmds).0, room, u);
  }

  /** In a consistent registry a send from a socket in the room, with a type
      the schema accepts, stores the message, and it is delivered to exactly
      the other users whose session has joined the room. */
  lemma SendDeliversToJoinedMembers(st: State, db: Db, c: Client, input: Outgoing, id: MsgId, now: int, v: UserId)
    requires Consistent(st) && id !in db.messages
    requires InRoom(st, c.socketId, input.conversationId)
    requires SocketMessage(st, c, input, now).Some?
    ensures id in HandleSendMessage(st, db, c, input, id, now).db.messages
    ensures var m := HandleSendMessage(st, db, c, input, id, now).db.messages[id];
            HasUser(m.deliveredTo, v) <==>
              v != c.userId && v in st.userSessions && input.conversationId in st.userSessions[v].joinedRooms
  {
    MembershipMirror(st, input.conversationId, v);
  }

  /** A second connection of the same user overwrites the session; the
      first socket's disconnect then deletes the session of the socket that
      is still connected, and leaves that socket mapped to a user without a
      session. */
  lemma MultiDeviceOverwrite(st: State, db: Db, u: UserId, s1: SocketId, s2: SocketId,
                             info: UserInfo, t1: int, t2: int, t3: int)
    requires s1 != s2
    ensures var a := HandleConnection(st, db, Client(s1, u, info), t1);
            var b := HandleConnection(a.state, a.db, Client(s2, u, info), t2);
            var d := HandleDisconnection(b.state, b.db, s1, t3);
            && !Consistent(b.state)
            && u !in d.state.userSessions
            && s2 in d.state.socketToUser && d.state.socketToUser[s2] == u
            && !Consistent(d.state)
            && (u in db.users ==> !d.db.users[u].isOnline)
  {
    var a := HandleConnection(st, db, Client(s1, u, info), t1);
    var b := HandleConnection(a.state, a.db, Client(s2, u, info), t2);
    assert b.state.socketToUser[s1] == u && b.state.userSessions[u].socketId == s2;
    assert !SocketsIndexed(b.state);
    SharedUserDisconnect(b.state, b.db, u, s1, s2, t3);
  }

  /** Closing one of two sockets mapped to the same user removes that
      user's session while the other socket stays mapped to the user. */
  lemma SharedUserDisconnect(st: State, db: Db, u: UserId, s1: SocketId, s2: SocketId, now: int)
    requires s1 != s2 && u in st.userSessions
    requires s1 in st.socketToUser && st.socketToUser[s1] == u
    requires s2 in st.socketToUser && st.socketToUser[s2] == u
    ensures var d := HandleDisconnection(st, db, s1, now);
            && u !in d.state.userSessions
            && s2 in d.state.socketToUser && d.state.socketToUser[s2] == u
            && !Consistent(d.state)
            && (u in db.users ==> !d.db.users[u].isOnline)
  {
    var d := HandleDisconnection(st, db, s1, now);
    assert d.state.socketToUser == st.socketToUser - {s1};
    assert s2 in d.state.socketToUser && d.state.socketToUser[s2] !in d.state.userSessions;
    assert !SocketsIndexed(d.state);
  }

  /** A participant whose socket has no session still joins the room's
      members, so the registry lists a user it holds no session for. */
  lemma JoinWithoutSessionStillTracksMember(st: State, db: Db, c: Client, room: ConvId)
    requires IsParticipant(db, room, c.userId) && c.userId !in st.userSessions
    ensures var st' := HandleJoinRoom(st, db, c, room).state;
            && room in st'.roomParticipants && c.userId in st'.roomParticipants[room]
            && c.userId !in st'.userSessions
            && !RoomsMirrorSessions(st')
  {
  }
}
