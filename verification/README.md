# WhatsApp-clone chat backend, modelled in Dafny

This project models the core of a chat backend written in TypeScript on
Express, Socket.IO and Mongoose. The core has six parts:

- **The socket session registry.** Users connect over a socket, join
  conversation rooms, send messages, report delivery and read receipts,
  type, and disconnect. The registry keeps five maps: user to session,
  socket to user, room to members, room to typing users, and socket to
  the rooms the transport has it in.
- **The message delivery lifecycle.** A message goes from `sent` through
  `delivered` to `seen`, and keeps `deliveredTo` and `seenBy` receipt
  lists. Five different code paths update them.
- **The REST controllers.** These are the message controller (send, send
  with media, page, status update, forward, edit, delete, details), the
  conversation controller (create, add or remove participants, group
  info), and the OTP login controller (generate, verify, resend).
- **The helpers.** Validation covers e-mail, phone, OTP and sanitising.
  The chat utilities cover names, delivery statistics, content checks,
  typing keys, file extensions, search text and edit/delete rights. The
  upload filter covers the category, the allow-list, the file URL and the
  limits.
- **The authentication chains.** There is a Bearer-token chain for HTTP
  and a handshake-token chain for the socket.
- **The `socketService` facade** in front of the socket manager.

Every handler is a pure function:

- A socket handler maps (registry `State`, store `Db`, input) to a
  `Step`. A `Step` holds the new registry, the new store and the set of
  emitted events.
- A REST handler maps (store, input) to an `HttpResult`: either the status
  and the new store, or the status and the error message.

The database, the clock, `Math.random`, JWT verification, the mailer and
Mongo queries whose order matters are not modelled directly. They become
parameters: `now`, a draw `k`, a `Verifier` map, `emailSent`, the result
of a `findOne`, and the listing a query returns.

Modules:

- `Ids`, `Wrappers`, `Collections` and `Strings` are shared vocabulary:
  identifiers, `Option`, duplicate-free sequences, and JavaScript
  `trim`/`toLowerCase`/`indexOf`.
- `Messages` is the message schema.
- `Store` is the database.
- `Delivery` holds the receipt updates.
- `Pagination` holds the page arithmetic of `getMessages`.
- `SocketManager`, `SocketInvariants` and `SocketRuns` are the socket
  handlers, the registry invariant, and whole event sequences.
- `SocketService` is the facade.
- `MessageController`, `ConversationController` and `AuthController` are
  the REST controllers.
- `ChatUtils`, `Validation` and `Upload` are the helpers.
- `HttpAuth` and `SocketAuth` are the authentication chains.

The central invariant is `SocketInvariants.Consistent`. It has five parts:

- Sessions and sockets index each other.
- Every socket's room set equals its session's joined rooms.
- Room member lists are non-empty and duplicate-free.
- A user is a member of a room exactly when the user's session has joined
  it.
- Every typing user has joined the room they type in.

Every socket handler except a connection preserves the invariant. A
connection preserves it when neither the user nor the socket is
registered yet. A second connection by a user who already has a session
breaks it (`SocketRuns.MultiDeviceOverwrite`). Every run of events whose
connections are fresh in that sense keeps the invariant.

## Model

| member | source | states |
|---|---|---|
| Messages.ParseMessageType | src/model/messages.ts:15-19 | a message type is accepted exactly when it is one of text, image, video, audio, file, and reads back to that name |
| Messages.TypeNameRoundTrip | src/model/messages.ts:15-19 | every message type's stored name reads back to the same type |
| Messages.ParseStatus | src/model/messages.ts:42-46 | a status is accepted exactly when it is sent, delivered or seen |
| Messages.StatusNameRoundTrip | src/model/messages.ts:42-46 | every status's stored name reads back to the same status |
| Messages.Create | src/model/messages.ts:3-83 | a document is created exactly when the draft satisfies the schema's required fields and enums; it then starts as sent, with empty receipts, not deleted |
| Messages.AbsentTypeCreatesText | src/model/messages.ts:15-19 | a draft without a type is created exactly as the same draft typed "text", the schema default |
| Messages.Receipts | src/model/messages.ts:47-70 | one receipt per listed user, all with the same timestamp; a user holds a receipt exactly when listed |
| Store.SetPresence | src/socket/socketManager.ts:72-75 | only the one user's `isOnline`/`lastSeen` change; conversations, messages and every other user are untouched |
| Store.SetLastMessage | src/socket/socketManager.ts:290-294 | only the one conversation's last message and time change |
| Delivery.SocketDelivered | src/socket/socketManager.ts:372-385 | adds the reader's delivery receipt exactly when absent (then exactly one), never moves the status backwards, leaves the seen list and the content alone |
| Delivery.SocketSeen | src/socket/socketManager.ts:386-410 | adds seen and delivery receipts exactly when the reader has not seen the message; status only rises; content unchanged |
| Delivery.RestDelivered | src/controller/messageController.ts:455-471 | the reader holds a delivery receipt afterwards; the status becomes delivered only from sent; the seen list is untouched |
| Delivery.RestSeen | src/controller/messageController.ts:472-499 | the reader holds a seen receipt and the status is seen; a repeated read only sets the status; a first read does what the socket path does |
| Delivery.BulkSeen | src/controller/messageController.ts:352-368 | a reader who had not seen the message gets exactly one seen receipt and status seen, and the delivery list is untouched |
| Delivery.DeliverToOthers | src/controller/messageController.ts:111-122 | when anyone other than the sender is a member, every such member gets a delivery receipt and the status becomes delivered; otherwise the message is unchanged |
| Delivery.FreshDeliveredToOthers | src/controller/messageController.ts:111-122 | on a fresh message the receipts are exactly the other members, the status is delivered when there is one and sent otherwise, and it agrees with the receipts |
| Delivery.SocketDeliveredIdempotent | src/socket/socketManager.ts:372-385 | a second socket delivery report by the same user changes nothing |
| Delivery.SocketSeenIdempotent | src/socket/socketManager.ts:386-410 | a second socket seen report by the same user changes nothing |
| Delivery.RestDeliveredIdempotent | src/controller/messageController.ts:455-471 | repeating the REST delivered update gives the same message |
| Delivery.RestSeenIdempotent | src/controller/messageController.ts:472-499 | repeating the REST seen update gives the same message |
| Delivery.UpdatesPreserveStatusMatch | src/socket/socketManager.ts:370-410 | every one of the five update paths keeps the status in step with the receipt lists |
| Delivery.BulkSeenThenSocketSeenLeavesDeliveredUnset | src/socket/socketManager.ts:386-410 | after a page read marks a message seen, a socket seen report does not add the missing delivery receipt: the message is seen by a user it was never delivered to |
| Delivery.BulkSeenThenRestSeenLeavesDeliveredUnset | src/controller/messageController.ts:472-499 | the same gap on the REST seen path |
| Delivery.DeliveredVariantsDiffer | src/controller/messageController.ts:455-471 | for a sent message that already lists the reader as delivered, the socket path keeps it sent while the REST path makes it delivered |
| Pagination.OrDefault | src/controller/messageController.ts:295-296 | a missing or zero query value falls back to the default, as `parseInt(x) \|\| d` does |
| Pagination.Window | src/controller/messageController.ts:335-337 | the page holds the listing's entries from `skip` on, at most `\|limit\|` of them, in order |
| Pagination.Skip | src/controller/messageController.ts:297 | `(page - 1) * limit`; Pagination.PagesArePrefix shows that page n starts where the first n - 1 pages end |
| Pagination.TotalPages | src/controller/messageController.ts:378 | `Math.ceil(total / limit)`: the fewest pages of `limit` that cover the total |
| Pagination.PagesArePrefix | src/controller/messageController.ts:335-337 | the first n pages concatenated are the first n*limit entries of the listing |
| Pagination.PagesCoverListing | src/controller/messageController.ts:378 | the advertised page count, read in order, returns exactly the whole listing |
| Pagination.HasMoreIffBeforeLastPage | src/controller/messageController.ts:378-380 | `hasMore` is true exactly when the page is before the last page |
| Pagination.HasMore | src/controller/messageController.ts:380 | `skip + returned < total`; Pagination.HasMoreIffBeforeLastPage relates it to the page count |
| SocketManager.AddMember | src/socket/socketManager.ts:180-183 | the room's member list gains the user, keeps everyone else, and stays duplicate-free |
| SocketManager.GetUserSocketId | src/socket/socketManager.ts:801-803 | a socket id is returned exactly for an online user, and it is that session's socket |
| SocketManager.NotifyUser | src/socket/socketManager.ts:805-814 | an online user gets exactly one event on their socket; an offline user gets nothing |
| SocketManager.OnlineList | src/socket/socketManager.ts:753-782 | lists exactly the given members that have sessions |
| SocketManager.TypingList | src/socket/socketManager.ts:656-690 | lists exactly the room's typing users that have sessions, with their names |
| SocketManager.ContactIds | src/socket/socketManager.ts:692-712 | exactly the other users sharing a conversation with the user |
| SocketManager.StatusBroadcast | src/socket/socketManager.ts:692-726 | every online contact, and only contacts, is told the user's new status |
| SocketManager.ClearTyping | src/socket/socketManager.ts:642-654 | removes the user from one room's typing set and drops the set when it empties; other rooms are untouched |
| SocketManager.HandleConnection | src/socket/socketManager.ts:52-90 | a new session with no rooms replaces any old one for the user; the socket is indexed; the user is marked online; contacts are told |
| SocketManager.HandleJoinRoom | src/socket/socketManager.ts:145-206 | an unknown room or a non-participant gets an error and nothing changes; a participant's socket joins the room, only the caller's session records it, the user becomes a room member, other sockets' rooms and other rooms' members are unchanged, and the events are exactly: userJoinedRoom to the rest of the room, joinedRoom to the caller, and the room's online list after the join to the room |
| SocketManager.LeaveRoomMembers | src/socket/socketManager.ts:217-235 | the user leaves the room's member list; an emptied room is dropped; other rooms are untouched |
| SocketManager.HandleLeaveRoom | src/socket/socketManager.ts:208-254 | the socket is no longer in the room; the caller's session loses only that room; other sessions, other sockets' rooms and other rooms' members are unchanged; the user stops typing there; the events are exactly userLeftRoom to the rest of the room and leftRoom to the caller |
| SocketManager.SocketMessage | src/socket/socketManager.ts:276-319 | the stored message has the sender, room, trimmed text and media fields of the input, with delivery receipts for exactly the joined others |
| SocketManager.HandleSendMessage | src/socket/socketManager.ts:256-349 | a socket outside the room gets "You must join the room first" and nothing changes; a type the schema refuses gets "Failed to send message" and nothing changes; otherwise the message is stored as SocketMessage describes and nothing else is added, it becomes the conversation's last message, users are untouched, the sender stops typing in the room, the room receives the record as first saved, and exactly the other online members' sockets get messageDelivered |
| SocketManager.DeliveredNotes | src/socket/socketManager.ts:331-342 | one messageDelivered to the socket of every other member that has a session, and no other event |
| SocketManager.BroadcastPrecedesReceipts | src/socket/socketManager.ts:296-329 | the broadcast record is the stored one with status sent and no delivery receipts |
| SocketManager.HandleMessageStatusUpdate | src/socket/socketManager.ts:351-432 | unknown id: error; own message: nothing; delivered or seen from another user: the socket update of that message only; other status strings: nothing; the sender is notified only of a change |
| SocketManager.HandleTyping | src/socket/socketManager.ts:434-478 | outside the room nothing happens; otherwise the user is added to or removed from that room's typing set only, and the room is told the new list |
| SocketManager.TypingTimerFired | src/socket/socketManager.ts:463-466 | the three-second timer removes the user from the room's typing set and tells the room |
| SocketManager.HandleMarkMessagesAsSeen | src/socket/socketManager.ts:480-546 | a non-participant changes nothing; only listed, unseen messages of the room from other senders become seen; every online sender with a message among the listed ones gets messagesMarkedAsSeen, each sender is told only about their own messages, and nobody else is told |
| SocketManager.SeenNotes | src/socket/socketManager.ts:516-541 | one messagesMarkedAsSeen to each online sender that has a listed message, naming only that sender's messages, and no other event |
| SocketManager.HandleUpdateOnlineStatus | src/socket/socketManager.ts:548-577 | only the user's session presence and stored presence change, and contacts are told |
| SocketManager.HandleGetOnlineUsers | src/socket/socketManager.ts:579-589 | the asking socket alone receives the room's online members, or an empty list for an unknown room |
| SocketManager.ClearTypingEverywhere | src/socket/socketManager.ts:598-604 | the user is removed from every typing set, and emptied sets are dropped |
| SocketManager.LeaveEverywhere | src/socket/socketManager.ts:606-619 | the user is removed from every room member list, and emptied rooms are dropped |
| SocketManager.TypingNotes | src/socket/socketManager.ts:598-604 | each room the user was typing in hears one typingUpdate computed after the user is cleared, listing only the remaining typists that have a session; no other room hears one |
| SocketManager.HandleDisconnection | src/socket/socketManager.ts:591-639 | an unknown socket only loses its room set; a known one also removes the user's session and socket mapping, clears the user from every typing set and room exactly as ClearTypingEverywhere and LeaveEverywhere describe, marks the user offline, and emits exactly the typing updates, the userLeftRoom notices and the offline broadcast |
| SocketInvariants.MembershipMirror | src/socket/socketManager.ts:21-25 | in a consistent registry, room membership and a session's joined rooms say the same thing |
| SocketInvariants.InitialConsistent | src/socket/socketManager.ts:21-25 | the empty registry is consistent |
| SocketInvariants.ConnectPreserves | src/socket/socketManager.ts:52-90 | a fresh connection keeps the registry consistent and registers the client |
| SocketInvariants.JoinPreserves | src/socket/socketManager.ts:145-206 | joining keeps the registry consistent |
| SocketInvariants.LeavePreserves | src/socket/socketManager.ts:208-254 | leaving keeps the registry consistent |
| SocketInvariants.SendPreserves | src/socket/socketManager.ts:256-349 | sending keeps the registry consistent |
| SocketInvariants.StatusUpdatePreserves | src/socket/socketManager.ts:351-432 | a status update keeps the registry consistent |
| SocketInvariants.TypingPreserves | src/socket/socketManager.ts:434-478 | typing keeps the registry consistent |
| SocketInvariants.TimerPreserves | src/socket/socketManager.ts:463-466 | the typing timeout keeps the registry consistent |
| SocketInvariants.MarkSeenPreserves | src/socket/socketManager.ts:480-546 | marking seen keeps the registry consistent |
| SocketInvariants.UpdateOnlineStatusPreserves | src/socket/socketManager.ts:548-577 | a presence update keeps the registry consistent |
| SocketInvariants.GetOnlineUsersPreserves | src/socket/socketManager.ts:579-589 | the online-users query keeps the registry consistent |
| SocketInvariants.DisconnectPreserves | src/socket/socketManager.ts:591-639 | a disconnection, of a known or an unknown socket, keeps the registry consistent |
| SocketRuns.ApplyKeepsConsistent | src/socket/socketManager.ts:92-143 | every event the socket wiring dispatches keeps the registry consistent |
| SocketRuns.RunKeepsConsistent | src/socket/socketManager.ts:92-143 | any sequence of admissible events keeps the registry consistent |
| SocketRuns.ReachableMembership | src/socket/socketManager.ts:21-25 | in every registry reachable from the empty one, room membership mirrors the sessions' joined rooms |
| SocketRuns.SendDeliversToJoinedMembers | src/socket/socketManager.ts:256-319 | in a consistent registry, a send from a socket in the room with a type the schema accepts stores the message, and it is delivered to exactly the other users whose sessions have joined the room |
| SocketRuns.MultiDeviceOverwrite | src/socket/socketManager.ts:52-90 | a second socket for the same user breaks the invariant, and closing the first socket then removes the session and marks the user offline while the second socket is still open |
| SocketRuns.SharedUserDisconnect | src/socket/socketManager.ts:591-639 | closing one of two sockets mapped to the same user deletes the user's session while the other socket stays mapped to the user, so the registry is left inconsistent |
| SocketRuns.JoinWithoutSessionStillTracksMember | src/socket/socketManager.ts:174-183 | a participant whose session is missing is still added to the room's members, so the mirror breaks |
| SocketService.SetSocketManager | src/services/socketService.ts:6-8 | the facade answers for the installed manager |
| SocketService.IsUserOnline | src/services/socketService.ts:36-40 | true exactly when a manager is installed and the user has a session |
| SocketService.GetUserSocketId | src/services/socketService.ts:43-47 | a socket id exactly for an online user, and it is that session's socket |
| SocketService.GetOnlineParticipants | src/services/socketService.ts:50-57 | exactly the room's tracked members, and nobody without a manager |
| SocketService.NotifyNewMessage | src/services/socketService.ts:15-19 | emits a newMessage event exactly when the user is online |
| SocketService.NotifyConversationUpdate | src/services/socketService.ts:22-33 | emits one conversationUpdated event to the room exactly when a manager is installed |
| SocketService.UnsetAnswersNobody | src/services/socketService.ts:36-57 | before a manager is installed nobody is online and nothing is emitted |
| SocketService.InstalledParticipantsHaveSockets | src/services/socketService.ts:50-57 | over a consistent registry every online participant has a socket id |
| MessageController.SendContentError | src/controller/messageController.ts:19-87 | with a missing type read as "text": passes exactly when text messages carry non-blank text, other types carry a media URL, and any reply is a message of the same conversation; each failure gives its own message |
| MessageController.AbsentTypeIsText | src/controller/messageController.ts:19-28 | a body without a type is checked and stored exactly as the same body with type "text" |
| MessageController.SendMessage | src/controller/messageController.ts:15-148 | 404, 403, then the content error as 400, then 500 when the schema refuses the type; a participant whose content passes gets success exactly when the schema accepts the type; on success the new message is stored, it is the conversation's last message, and nothing else changes |
| MessageController.SendDeliversToOtherParticipants | src/controller/messageController.ts:111-122 | a sent message holds delivery receipts for exactly the other participants, and its status matches its receipts |
| MessageController.RestMessageShape | src/controller/messageController.ts:90-122 | the record a REST send builds has the caller as sender, the trimmed text, the requested type or "text", no seen receipts, and delivery receipts for exactly the other participants |
| MessageController.InferredType | src/controller/messageController.ts:202-213 | the type inferred from a media type is a valid non-text message type |
| MessageController.InferredTypeMatchesCategory | src/controller/messageController.ts:197-213 | the inferred type is the one for the upload category the file is filed under |
| MessageController.SendMediaMessage | src/controller/messageController.ts:151-288 | 400 without a file, 404, 403, 400 for a foreign reply; on success only the new message is added, and the conversation's last message is updated |
| MessageController.MediaMessageStoresItsFile | src/controller/messageController.ts:196-262 | a participant's upload is stored with a URL that reads back to its category and file name, its original name and size, and delivery receipts for exactly the other participants |
| MessageController.UpdateMessageStatus | src/controller/messageController.ts:394-515 | 400 for a status other than delivered or seen; 404; 403 for a non-participant; the sender's own message is unchanged; otherwise only that message takes the REST update |
| MessageController.UpdateMessageStatusIdempotent | src/controller/messageController.ts:455-499 | repeating the same status update leaves the store as it was after the first |
| MessageController.MarkPageSeen | src/controller/messageController.ts:344-368 | exactly the page's messages from others that the reader had not seen become seen, and nothing else changes |
| MessageController.GetMessages | src/controller/messageController.ts:291-391 | 404, 403, 500 for a negative skip; otherwise the page in oldest-first order, read by the caller, with the pagination figures |
| MessageController.ReadPageContents | src/controller/messageController.ts:335-383 | the returned page is the listing window, reversed, and the store differs only by the page's seen marks |
| MessageController.ReadPageIsSeen | src/controller/messageController.ts:344-368 | after a page is read, every message on it from someone else is seen by the reader |
| MessageController.EditMessage | src/controller/messageController.ts:623-699 | 400 for blank text, 404, 403 for someone else's message, 400 for a non-text message or one older than 24 hours; on success only the message's text (trimmed) and edit time change |
| MessageController.EditStoresTrimmedText | src/controller/messageController.ts:668-680 | an edit stores trimmed, non-blank text, and editing again with the stored text changes nothing but the edit time |
| MessageController.DeleteMessage | src/controller/messageController.ts:702-765 | 404, 403 for someone else's message, 400 for deleting for everyone after one hour; otherwise only that message is marked deleted, with its deletion time and the placeholder text |
| MessageController.DeleteKindsAgree | src/controller/messageController.ts:719-751 | "for everyone" and "for me" produce the same store, and a deleted message drops out of every later listing |
| MessageController.ForwardCopy | src/controller/messageController.ts:580-600 | a forward copy has the original's content, points back to it, belongs to the forwarder and target conversation, and starts sent with no receipts |
| MessageController.ForwardMessage | src/controller/messageController.ts:518-620 | 400 without targets, 404 without the original, 403 without access to it or to any target; on success 201 with exactly one copy per listed target |
| MessageController.ForwardSucceedsIffDistinctParticipantTargets | src/controller/messageController.ts:565-577 | forwarding succeeds exactly when the distinct target list names only conversations the forwarder belongs to |
| MessageController.GetMessageDetails | src/controller/messageController.ts:768-818 | the message is returned exactly when it exists and the caller participates in its conversation; otherwise 404 or 403 |
| MessageController.DetailsAndForwardShareAccess | src/controller/messageController.ts:551-562 | the details endpoint refuses exactly the callers that forwarding refuses for lack of access to the original |
| ConversationController.CreateError | src/controller/conversationController.ts:23-79 | creation passes validation exactly when participants are given, distinct and known; a direct chat names exactly one other; a group has a name and at least two others |
| ConversationController.NewConversation | src/controller/conversationController.ts:81-111 | the creator comes first among the participants; a group gets the creator as admin and its info; a direct chat gets neither |
| ConversationController.CreateConversation | src/controller/conversationController.ts:14-135 | 400 for a validation failure; an existing direct chat between the two is returned with 200; otherwise 201 with the new conversation stored |
| ConversationController.CreatedKeepsAdminIsMember | src/controller/conversationController.ts:104-111 | a created conversation's admin is one of its participants |
| ConversationController.DirectChatNotDuplicated | src/controller/conversationController.ts:84-100 | asking again for a direct chat that exists returns it and stores nothing new |
| ConversationController.CreatedParticipantsDistinctIff | src/controller/conversationController.ts:81-105 | the stored participants are distinct exactly when the creator did not list themself |
| ConversationController.AddParticipants | src/controller/conversationController.ts:207-311 | 400, 404, 400 for a direct chat, 403 for non-members, 400 for unknown users exactly when some listed id is duplicated or unknown, 400 when every listed user is already a member, and success when at least one is new; on success only the new users are appended |
| ConversationController.AddKeepsAdminIsMember | src/controller/conversationController.ts:275-291 | adding participants keeps the admin a participant |
| ConversationController.RemoveParticipant | src/controller/conversationController.ts:314-374 | 404, 400 for a direct chat, 403 unless admin or self-removal, and success for an admin or a self-removal in a group; on success the user is gone, and a departing admin hands over to the first remaining participant |
| ConversationController.RemoveKeepsAdminIsMember | src/controller/conversationController.ts:352-359 | while participants remain, removal keeps the admin a participant |
| ConversationController.LastAdminLeavingKeepsStaleAdmin | src/controller/conversationController.ts:352-359 | when the only participant, the admin, leaves, the group is kept empty with the departed user still recorded as admin |
| ConversationController.UpdateGroupInfo | src/controller/conversationController.ts:447-506 | 404, 400 for a direct chat, 403 for a non-admin; otherwise only the given fields change |
| ConversationController.UpdateGroupInfoIdempotent | src/controller/conversationController.ts:483-486 | an empty update changes nothing, and repeating an update changes nothing more |
| ConversationController.UpdateKeepsAdminIsMember | src/controller/conversationController.ts:483-486 | updating group info keeps the admin a participant |
| ConversationController.ReadingPageLowersUnread | src/controller/conversationController.ts:168-172 | reading a page removes exactly the page's messages from the unread count that the conversation list shows |
| ConversationController.MarkPageSeenUnread | src/controller/conversationController.ts:168-172 | after a page read, none of the page's messages counts as unread for the reader |
| AuthController.DefaultName | backend/src/controller/authController.ts:45 | the default name is the part of the e-mail before the first '@' |
| AuthController.GenerateError | backend/src/controller/authController.ts:12-29 | generation proceeds exactly when an e-mail is given and well formed |
| AuthController.IssueCode | backend/src/controller/authController.ts:38-57 | only the requester's account changes: it is created with the code, or its code and expiry are replaced |
| AuthController.GenerateOtpHandler | backend/src/controller/authController.ts:8-85 | 400 for a missing or bad e-mail; otherwise the code is stored, and the reply is 200 when mailed or 500 when not; no token is signed |
| AuthController.GenerateOtpAsWritten | backend/src/controller/authController.ts:38-57 | the handler as written: an unknown e-mail builds an account with an empty phone, which the user schema refuses |
| AuthController.NewEmailNeverRegisters | backend/src/controller/authController.ts:43-57 | as written, a first request from any well-formed new address stores nothing and answers 500, and a code then sent for that address meets "User not found" |
| AuthController.NewEmailRegisters | backend/src/controller/authController.ts:41-57 | with the account created, a new address gets an account holding the issued code |
| AuthController.VerifyOtp | backend/src/controller/authController.ts:88-194 | 400, 404, 400 with no pending code, expiry clears the code, 400 for a wrong code; a token is signed exactly when the code matches and has not expired, and the code is then consumed |
| AuthController.ExpiredRetryFindsNoOtp | backend/src/controller/authController.ts:122-133 | after an expiry reply, any retry finds no pending code |
| AuthController.VerifiedCodeIsConsumed | backend/src/controller/authController.ts:143-149 | a code that logged in once cannot log in again |
| AuthController.IssuedCodeLogsIn | backend/src/controller/authController.ts:32-57 | the issued code logs in within its expiry window, and any other code is refused |
| AuthController.DefaultCodeLastsTenMinutes | backend/src/controller/authController.ts:35-36 | with no configured expiry, the code logs in exactly within 600000 ms of issue |
| AuthController.ResendOtp | backend/src/controller/authController.ts:197-259 | 400 without an e-mail, 404 for an unknown account, otherwise a new code replaces the old; never signs a token |
| AuthController.ResendReplacesCode | backend/src/controller/authController.ts:222-231 | after a resend the old code is refused and the new one logs in |
| ChatUtils.GenerateConversationName | src/utils/chatUtils.ts:6-18 | anything but a two-person chat is "Group Chat"; otherwise the other person's name, or "Unknown User" |
| ChatUtils.FirstOther | src/utils/chatUtils.ts:11-13 | `find` for the first participant who is not the caller: none exactly when every participant is the caller, otherwise the earliest one that is not |
| ChatUtils.DirectChatTitle | src/utils/chatUtils.ts:6-18 | a direct chat is titled with the other person's name whichever order they are listed in |
| ChatUtils.CalculateDeliveryStats | src/utils/chatUtils.ts:100-112 | counts the receipts; the total excludes the sender; pending never goes below zero |
| ChatUtils.SentMessageHasNonePending | src/utils/chatUtils.ts:100-112 | a message just sent through the REST path has nobody pending |
| ChatUtils.ValidateMessageContent | src/utils/chatUtils.ts:114-151 | an unknown type is invalid; text needs non-blank text of at most 4096 UTF-16 units; media needs a URL |
| ChatUtils.ValidContentPassesSendChecks | src/utils/chatUtils.ts:114-151 | content the helper accepts also passes the send handler's content checks |
| ChatUtils.GenerateTypingKey | src/utils/chatUtils.ts:153-156 | the key is "typing:" followed by the conversation, ':' and the user |
| ChatUtils.TypingKeyRoundTrip | src/utils/chatUtils.ts:153-156 | a typing key reads back to its conversation and user when the conversation id has no ':' |
| ChatUtils.TypingKeyInjective | src/utils/chatUtils.ts:153-156 | distinct conversation and user pairs give distinct keys |
| ChatUtils.GetFileExtension | src/utils/chatUtils.ts:169-172 | the lowercase text after the last '.', or the whole lowered string without one |
| ChatUtils.ExtensionOfFileName | src/utils/chatUtils.ts:169-172 | a name ending in ".ext" yields ext in lowercase |
| ChatUtils.SupportedExtensionsAreLowercase | src/utils/chatUtils.ts:174-206 | every supported extension is lowercase and has no '.' |
| ChatUtils.UppercaseNotSupported | src/utils/chatUtils.ts:174-206 | an extension holding an uppercase letter is never supported, since the match is exact |
| ChatUtils.IsSupportedFileType | src/utils/chatUtils.ts:174-206 | exact membership in the 22 listed extensions; ChatUtils.SupportedExtensionsAreLowercase and ChatUtils.UppercaseNotSupported relate it to what GetFileExtension yields |
| ChatUtils.GenerateSearchableText | src/utils/chatUtils.ts:208-221 | empty when the message has neither text nor file name (the other cases are stated by SearchableTextIsSanitized) |
| ChatUtils.SearchableTextIsSanitized | src/utils/chatUtils.ts:208-221 | the search text is SanitizeInput of the text and file name joined by a space, or of whichever one is present |
| ChatUtils.SanitizedPiece | src/utils/chatUtils.ts:211-219 | a lowercased piece followed by a space trims to SanitizeInput of the piece |
| ChatUtils.SearchableTextIsNormalised | src/utils/chatUtils.ts:208-221 | the search text is already trimmed and lowercase |
| ChatUtils.CanEditIffEditSucceeds | src/utils/chatUtils.ts:223-237 | the helper allows an edit exactly when the edit handler accepts it |
| ChatUtils.CanEditMessage | src/utils/chatUtils.ts:223-237 | the sender, a text message, at most 24 hours old; ChatUtils.CanEditIffEditSucceeds ties it to the edit handler |
| ChatUtils.CanDeleteIffDeleteSucceeds | src/utils/chatUtils.ts:239-255 | the helper allows a delete exactly when the delete handler accepts it; deleting for everyone implies deleting is allowed |
| ChatUtils.CanDeleteMessage | src/utils/chatUtils.ts:239-245 | the sender only; ChatUtils.CanDeleteIffDeleteSucceeds ties it to the delete handler |
| ChatUtils.CanDeleteForEveryone | src/utils/chatUtils.ts:247-255 | a sender who may delete, at most one hour after sending; ChatUtils.CanDeleteIffDeleteSucceeds ties it to the delete handler |
| Validation.ValidateEmailIff | src/utils/validation.ts:1-4 | the scan accepts exactly the strings the e-mail regular expression matches |
| Validation.ValidateEmail | src/utils/validation.ts:1-4 | the scan for one '@', no whitespace, and an inner '.' after the '@'; Validation.ValidateEmailIff and Validation.SplitValidates relate it to the regular expression |
| Validation.SplitValidates | src/utils/validation.ts:1-4 | any local@name.top made of runs without space or '@' is accepted |
| Validation.ValidatePhoneIff | src/utils/validation.ts:10-14 | a phone matches with or without one leading '+', and at least ten digits, spaces, dashes or parentheses |
| Validation.ValidatePhone | src/utils/validation.ts:10-14 | an optional '+' and then at least ten digits, whitespace, dashes or parentheses; Validation.ValidatePhoneIff spells out both matches |
| Strings.TrimStartAppendWhitespace | src/utils/chatUtils.ts:211-219 | a whitespace character appended to a string that is not all whitespace survives left-trimming; an all-whitespace string still trims to nothing |
| Strings.TrimDropsTrailingWhitespace | src/utils/chatUtils.ts:211-219 | a trailing whitespace character does not change the trimmed string |
| Strings.Trim | src/controller/messageController.ts:57 | JavaScript `trim`: the result is the input with its leading and trailing whitespace runs removed, and it neither starts nor ends with whitespace |
| Strings.ToLower | src/utils/chatUtils.ts:170 | `toLowerCase` on ASCII: same length, each character lowercased in place |
| Validation.SanitizeInput | src/utils/validation.ts:16-18 | the result is the input with its leading and trailing whitespace runs cut off, each remaining character lowercased; it neither starts nor ends with whitespace and has no capital letters |
| Validation.SanitizeIdempotent | src/utils/validation.ts:16-18 | sanitising twice is sanitising once |
| Validation.DecimalRoundTrip | src/utils/validation.ts:20-22 | reading a printed number back gives the number |
| Validation.DecimalLength | src/utils/validation.ts:20-22 | a number in [10^(k-1), 10^k) prints with k digits |
| Validation.GenerateOtp | src/utils/validation.ts:20-22 | every draw gives six digits that read back to 100000 plus the draw |
| Validation.GenerateOtpInjective | src/utils/validation.ts:20-22 | different draws give different codes |
| Validation.ValidateOtp | src/utils/validation.ts:6-8 | exactly six ASCII digits; Validation.GenerateOtp and Validation.ValidCodeIsGenerated relate it to generated codes |
| Validation.DecimalStringOfValue | src/utils/validation.ts:20-22 | printing the value of a digit string without a leading zero gives the string back, and the value has that many digits |
| Validation.ValidCodeIsGenerated | src/utils/validation.ts:6-8 | every accepted code that does not start with '0' is the generated code of exactly one draw, the value minus 100000 |
| Validation.IsOtpExpired | src/utils/validation.ts:24-26 | expired strictly after the expiry instant; AuthController.VerifyOtp and AuthController.IssuedCodeLogsIn use it |
| Upload.GetFileCategory | backend/src/config/multer.ts:22-28 | image, video and audio types go to their directories; everything else goes to files |
| Upload.FileFilter | backend/src/config/multer.ts:44-87 | a file is accepted exactly when its media type is on the 24-entry allow-list; otherwise it is rejected with the named type |
| Upload.DocumentTypesAreFiles | backend/src/config/multer.ts:22-28 | every application/ or text/ type is filed under files |
| Upload.GetFileUrl | backend/src/config/multer.ts:99-105 | the URL starts with /api/media/files/ and names the category and file |
| Upload.FileUrlRoundTrip | backend/src/config/multer.ts:99-105 | a file URL reads back to its category and file name |
| Upload.AdmitsIffOneAllowedFile | backend/src/config/multer.ts:89-97 | a request is admitted exactly when it has at most one file, of an allowed type and at most 52428800 bytes |
| HttpAuth.BearerToken | src/middleware/auth.ts:17-21 | a token exists exactly when the header starts with "Bearer ", and the header is that prefix followed by the token |
| HttpAuth.BearerTokenRoundTrip | src/middleware/auth.ts:17-21 | the token of "Bearer " + t is t |
| HttpAuth.AuthenticateToken | src/middleware/auth.ts:10-76 | 401 with no token, 500 with no secret, 403 for a token that does not verify, 401 for an unknown user; otherwise the request continues with the token's user |
| HttpAuth.AuthenticateIffProves | src/middleware/auth.ts:41-61 | the request continues as user u exactly when the token proves u |
| HttpAuth.OptionalAuth | src/middleware/auth.ts:78-121 | the request always continues, and any attached user is one the token proves |
| HttpAuth.OptionalAgreesWithStrict | src/middleware/auth.ts:78-121 | the optional chain attaches a user exactly when the strict chain would let the request through, and it is the same user |
| SocketAuth.HandshakeToken | src/middleware/socketAuth.ts:16 | the auth token when it is truthy, otherwise the query token |
| SocketAuth.SocketAuthenticate | src/middleware/socketAuth.ts:10-55 | rejects in order: token required, secret not configured, invalid or expired token, user not found; otherwise accepts the token's user |
| SocketAuth.AuthTokenTakesPrecedence | src/middleware/socketAuth.ts:16 | a non-empty auth token is used whatever the query holds |
| SocketAuth.SocketAgreesWithHttp | src/middleware/socketAuth.ts:18-50 | for a non-empty token the socket accepts exactly when the HTTP chain lets the request through, with the same user and the same rejection text |

## Left out

- I/O, concurrency and await interleaving: every handler is one atomic step, and concurrent handlers racing on the same maps are not modelled.
- Emit order and payload formatting: emits are a set of (target, event) pairs. `console.log` is omitted. Socket.IO's own rooms are replaced by the registry's `socketRooms` map.
- Mongo failures: the 500 catch-alls, the socket "Authentication failed" branch, and `findById` throwing inside the inner try are not modelled. Every store operation succeeds.
- Query results whose order or population the model cannot compute are parameters: the sorted message listing of `getMessages` (`IsListing` says which messages it holds), the `findOne` of an existing direct chat, the JWT verification (`Verifier` map), the mail send result, the configured secret, the clock and the random draw.
- `getUserConversations` and `getConversationDetails`: only the unread count they report is modelled (`ReadingPageLowersUnread`), not the populated listing.
- ChatUtils `formatFileSize`, `formatConversationResponse`, `formatMessageResponse`, `canUserAccessConversation`, `isGroupAdmin` and `getOnlineParticipants` are response formatting or one-line store queries that the handlers already model.
- Multer disk storage, `getFilePath`, `deleteFile`, and the order in which multer reports a limit error versus a filter error are file-system behaviour.
- `logout` and `getProfile` in the auth controller are not modelled.
- `OTP_EXPIRY_MINUTES` is an optional integer. An unparsable value, which makes `parseInt` return NaN and the expiry an invalid date, is not modelled.
- Strings.ToLower: lowercases ASCII letters only; Unicode case mapping is not modelled.
- Validation.IsOtpExpired carries no contract of its own and has no partner definition; it is used through AuthController.VerifyOtp.
- MessageController.ForwardMessage: returns the copies keyed by target conversation. Saving them under ids the database draws, and updating each target's `lastMessage`, are not modelled.
- SocketRuns.RunKeepsConsistent: admits a connection only for a user and socket that are not registered yet. The second-device case breaks the invariant, as SocketRuns.MultiDeviceOverwrite shows.
- SocketManager.HandleSendMessage: broadcasts the message as it was before delivery receipts were added, as the handler does; the stored copy carries the receipts.
- The source marks a message seen without adding a delivery receipt on the page-read path. The model follows the code, so "seen implies delivered" does not hold. Delivery.BulkSeenThenSocketSeenLeavesDeliveredUnset and Delivery.BulkSeenThenRestSeenLeavesDeliveredUnset state the gap.
- cleanupService, mediaController and the rate limits and express-validator chains in security.ts are not part of this model.

## Findings

| source | as written | input that shows it | evidently intended | confidence | as-written member | corrected member |
|---|---|---|---|---|---|---|
| backend/src/controller/authController.ts:43-49 | a new account is built with `phone: ""`, but the user schema (backend/src/model/users.ts:10-14) marks `phone` as required, and Mongoose rejects an empty string for a required field, so `save()` throws and the handler answers 500 | the first OTP request from "new@example.com" | the account is created with the code and the code is mailed | medium, not executed | AuthController.GenerateOtpAsWritten, AuthController.NewEmailNeverRegisters | AuthController.GenerateOtpHandler, AuthController.NewEmailRegisters |
