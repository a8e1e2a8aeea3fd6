/** The process-wide facade other modules use to reach the socket manager.
    Until a manager is installed every query answers "nobody" and every
    notification is dropped. */
module SocketService {
  import opened Ids
  import opened Wrappers
  import opened SocketManager
  import opened SocketInvariants

  datatype Service = Service(manager: Option<State>)

  const Unset := Service(None)

  function SetSocketManager(svc: Service, st: State): (r: Service)
    ensures r.manager == Some(st)
  {
    Service(Some(st))
  }

  /** `isUserOnline`: false without a manager. */
  function IsUserOnline(svc: Service, u: UserId): (r: bool)
    ensures r <==> svc.manager.Some? && u in svc.manager.value.userSessions
  {
    svc.manager.Some? && SocketManager.IsUserOnline(svc.manager.value, u)
  }

  /** `getUserSocketId`: undefined without a manager. */
  function GetUserSocketId(svc: Service, u: UserId): (r: Option<SocketId>)
    ensures r.Some? <==> IsUserOnline(svc, u)
    ensures r.Some? ==> r.value == svc.manager.value.userSessions[u].socketId
  {
    if svc.manager.None? then None else SocketManager.GetUserSocketId(svc.manager.value, u)
  }

  /** `getOnlineParticipants`: the members the manager tracks for the room,
      in insertion order; empty without a manager or for an untracked room. */
  function GetOnlineParticipants(svc: Service, conv: ConvId): (r: seq<UserId>)
    ensures svc.manager.None? || conv !in svc.manager.value.roomParticipants ==> r == []
    ensures forall v :: v in r <==>
              svc.manager.Some? && conv in svc.manager.value.roomParticipants
              && v in svc.manager.value.roomParticipants[conv]
  {
    if svc.manager.None? then [] else Members(svc.manager.value, conv)
  }

  /** `notifyNewMessage`: a "newMessage" event to the user's socket. */
  function NotifyNewMessage(svc: Service, u: UserId, payload: string): (r: set<Emit>)
    ensures r == {} <==> !IsUserOnline(svc, u)
    ensures forall e :: e in r ==> e.event == Custom("newMessage", payload)
                                   && e.target == ToSocket(svc.manager.value.userSessions[u].socketId)
  {
    if svc.manager.None? then {} else NotifyUser(svc.manager.value, u, "newMessage", payload)
  }

  /** `notifyConversationUpdate`: a "conversationUpdated" event to the room. */
  function NotifyConversationUpdate(svc: Service, conv: ConvId, payload: string): (r: set<Emit>)
    ensures svc.manager.None? <==> r == {}
    ensures forall e :: e in r ==> e == Emit(ToRoom(conv), Custom("conversationUpdated", payload))
  {
    if svc.manager.None? then {} else NotifyRoom(conv, "conversationUpdated", payload)
  }

  /** With no manager installed nothing is online and nothing is sent. */
  lemma UnsetAnswersNobody(u: UserId, conv: ConvId, payload: string)
    ensures !IsUserOnline(Unset, u) && GetUserSocketId(Unset, u) == None
    ensures GetOnlineParticipants(Unset, conv) == []
    ensures NotifyNewMessage(Unset, u, payload) == {} && NotifyConversationUpdate(Unset, conv, payload) == {}
  {
  }

  /** Once the manager is installed the facade answers with its registry:
      with one socket per user, the online participants of a room are
      exactly the users whose session joined it, and each has a socket. */
  lemma InstalledParticipantsHaveSockets(st: State, conv: ConvId, v: UserId)
    requires Consistent(st)
    ensures var svc := SetSocketManager(Unset, st);
            (v in GetOnlineParticipants(svc, conv) <==> v in st.userSessions && conv in st.userSessions[v].joinedRooms)
            && (v in GetOnlineParticipants(svc, conv) ==> GetUserSocketId(svc, v).Some?)
  {
    MembershipMirror(st, conv, v);
  }
}
