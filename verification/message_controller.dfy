/** The REST handlers on messages. Each handler takes the store and the
    authenticated caller, and answers with a status and either the updated
    store or an error message; the checks run in the source's order, and
    the first failing one decides the answer. A save that the schema
    refuses answers 500. */
module MessageController {
  import opened Ids
  import opened Wrappers
  import opened Collections
  import opened Strings
  import opened Messages
  import opened Store
  import opened Pagination
  import opened Upload
  import Delivery

  /** Milliseconds in an hour. */
  const HourMs := 3600000
  /** A message may be edited up to this age. */
  const EditWindowMs := 24 * HourMs
  /** A message may be deleted for everyone up to this age. */
  const DeleteForEveryoneWindowMs := HourMs
  /** The text a deleted message keeps. */
  const DeletedText := "This message was deleted"

  const NotParticipant := "You are not a participant in this conversation"

  // ----- sendMessage -----

  /** The body of `POST /messages/:conversationId`. */
  datatype SendBody = SendBody(
    text: Option<string>,
    messageType: Option<string>,
    mediaUrl: Option<string>,
    fileName: Option<string>,
    fileSize: Option<int>,
    repliedTo: Option<MsgId>,
    forwardedFrom: Option<MsgId>)

  /** The type `sendMessage` works with: the body's `messageType`, or
      "text" when the body leaves it out. */
  function SendType(b: SendBody): string {
    b.messageType.GetOr("text")
  }

  /** The content checks of `sendMessage`, in order; `None` when they pass.
      A body without a type is checked as a text message. Whether the type
      is one of the schema's names is not checked here: an unknown type is
      refused by the save that follows. */
  function SendContentError(db: Db, conv: ConvId, b: SendBody): (r: Option<string>)
    ensures r.None? <==>
      && (SendType(b) == "text" ==> Truthy(b.text) && !IsBlank(b.text.value))
      && (SendType(b) != "text" ==> Truthy(b.mediaUrl))
      && (Truthy(b.repliedTo) ==> b.repliedTo.value in db.messages
                                  && db.messages[b.repliedTo.value].conversationId == conv)
    ensures SendType(b) == "text" && (!Truthy(b.text) || IsBlank(b.text.value)) ==>
              r == Some("Text content is required for text messages")
    ensures SendType(b) != "text" && !Truthy(b.mediaUrl) ==>
              r == Some("Media URL is required for non-text messages")
    ensures r.Some? && r != Some("Text content is required for text messages")
                    && r != Some("Media URL is required for non-text messages") ==>
              r == Some("Replied message not found in this conversation")
  {
    if SendType(b) == "text" && (!Truthy(b.text) || IsBlank(b.text.value)) then
      Some("Text content is required for text messages")
    else if SendType(b) != "text" && !Truthy(b.mediaUrl) then
      Some("Media URL is required for non-text messages")
    else if Truthy(b.repliedTo) && !(b.repliedTo.value in db.messages
                                     && db.messages[b.repliedTo.value].conversationId == conv) then
      Some("Replied message not found in this conversation")
    else None
  }

  /** Leaving the type out is the same as sending "text": the checks and the
      stored record agree on both bodies. */
  lemma AbsentTypeIsText(db: Db, u: UserId, conv: ConvId, b: SendBody, now: int)
    requires b.messageType.None?
    requires conv in db.conversations
    ensures SendContentError(db, conv, b) == SendContentError(db, conv, b.(messageType := Some("text")))
    ensures NewRestMessage(db, u, conv, b, now) == NewRestMessage(db, u, conv, b.(messageType := Some("text")), now)
  {
    var t := b.(messageType := Some("text"));
    assert SendType(b) == SendType(t);
    var text := if b.text.Some? then Some(Trim(b.text.value)) else None;
    AbsentTypeCreatesText(Draft(conv, u, b.messageType, text, b.mediaUrl, b.fileName, b.fileSize,
                                b.repliedTo, b.forwardedFrom), now);
  }

  /** The record `sendMessage` stores, or `None` when the schema refuses
      the type: "sent" with trimmed text, then auto-delivered to the other
      participants. */
  function NewRestMessage(db: Db, u: UserId, conv: ConvId, b: SendBody, now: int): (r: Option<Message>)
    requires conv in db.conversations
    ensures r.Some? <==> ParseMessageType(SendType(b)).Some?
  {
    var text := if b.text.Some? then Some(Trim(b.text.value)) else None;
    var created := Create(Draft(conv, u, b.messageType, text, b.mediaUrl, b.fileName, b.fileSize,
                                b.repliedTo, b.forwardedFrom), now);
    if created.None? then None
    else Some(Delivery.DeliverToOthers(created.value, db.conversations[conv].participants, u, now))
  }

  /** `sendMessage`: 404, 403, then the content checks (400), then the save
      (500 when the schema refuses the type). On success the new record is
      stored under the fresh id `id` and becomes the conversation's last
      message; nothing else changes. */
  function SendMessage(db: Db, u: UserId, conv: ConvId, b: SendBody, id: MsgId, now: int): (r: HttpResult<Db>)
    requires id !in db.messages
    ensures conv !in db.conversations ==> r == Failure(404, "Conversation not found")
    ensures conv in db.conversations && !IsParticipant(db, conv, u) ==> r == Failure(403, NotParticipant)
    ensures IsParticipant(db, conv, u) && SendContentError(db, conv, b).Some? ==>
              r == Failure(400, SendContentError(db, conv, b).value)
    ensures IsParticipant(db, conv, u) && SendContentError(db, conv, b).None? ==>
              (r.Success? <==> NewRestMessage(db, u, conv, b, now).Some?)
    ensures IsParticipant(db, conv, u) && SendContentError(db, conv, b).None? && NewRestMessage(db, u, conv, b, now).None? ==>
              r == Failure(500, "Internal server error")
    ensures r.Success? ==>
      && r.status == 201 && IsParticipant(db, conv, u)
      && NewRestMessage(db, u, conv, b, now).Some?
      && r.value == SetLastMessage(db.(messages := db.messages[id := NewRestMessage(db, u, conv, b, now).value]), conv, id, now)
  {
    if conv !in db.conversations then Failure(404, "Conversation not found")
    else if !IsParticipant(db, conv, u) then Failure(403, NotParticipant)
    else if SendContentError(db, conv, b).Some? then Failure(400, SendContentError(db, conv, b).value)
    else
      var m := NewRestMessage(db, u, conv, b, now);
      if m.None? then Failure(500, "Internal server error")
      else Success(201, SetLastMessage(db.(messages := db.messages[id := m.value]), conv, id, now))
  }

  /** What a successful REST send stores: the caller's message with trimmed
      text and the requested type, unseen, with a delivery receipt for
      exactly the other participants, "delivered" when there is at least
      one and "sent" otherwise; the status agrees with the receipts. */
  lemma SendDeliversToOtherParticipants(db: Db, u: UserId, conv: ConvId, b: SendBody, id: MsgId, now: int)
    requires id !in db.messages
    requires SendMessage(db, u, conv, b, id, now).Success?
    ensures var db' := SendMessage(db, u, conv, b, id, now).value;
      && id in db'.messages && db'.messages.Keys == db.messages.Keys + {id}
      && (forall k :: k in db.messages ==> db'.messages[k] == db.messages[k])
      && db'.conversations[conv].lastMessage == Some(id)
      && RestRecord(db'.messages[id], db.conversations[conv].participants, u, conv, b)
  {
    RestMessageShape(db, u, conv, b, now);
  }

  /** The record a REST send builds from the body for the participants
      `ps`. */
  ghost predicate RestRecord(m: Message, ps: seq<UserId>, u: UserId, conv: ConvId, b: SendBody) {
    && m.sender == u && m.conversationId == conv
    && m.text == (if b.text.Some? then Some(Trim(b.text.value)) else None)
    && TypeName(m.messageType) == SendType(b)
    && m.seenBy == [] && !m.deleted
    && (forall v :: HasUser(m.deliveredTo, v) <==> v in ps && v != u)
    && (m.status == Delivered <==> exists v :: v in ps && v != u)
    && (m.status != Delivered ==> m.status == Sent)
    && StatusMatchesReceipts(m)
  }

  /** The record `sendMessage` builds, whenever the schema takes the type. */
  lemma RestMessageShape(db: Db, u: UserId, conv: ConvId, b: SendBody, now: int)
    requires conv in db.conversations && NewRestMessage(db, u, conv, b, now).Some?
    ensures RestRecord(NewRestMessage(db, u, conv, b, now).value, db.conversations[conv].participants, u, conv, b)
  {
    var ps := db.conversations[conv].participants;
    var text := if b.text.Some? then Some(Trim(b.text.value)) else None;
    var created := Create(Draft(conv, u, b.messageType, text, b.mediaUrl, b.fileName, b.fileSize,
                                b.repliedTo, b.forwardedFrom), now).value;
    var m := Delivery.DeliverToOthers(created, ps, u, now);
    assert NewRestMessage(db, u, conv, b, now).value == m;
    Delivery.FreshDeliveredToOthers(created, ps, u, now);
  }

  // ----- sendMessageWithMedia -----

  /** The body fields `sendMessageWithMedia` reads next to the file. */
  datatype MediaBody = MediaBody(text: Option<string>, messageType: Option<string>, repliedTo: Option<MsgId>)

  /** The message type read off the file's media type when the body gives
      none. */
  function InferredType(mimetype: string): (r: string)
    ensures ParseMessageType(r).Some? && r != "text"
  {
    if StartsWith(mimetype, "image/") then "image"
    else if StartsWith(mimetype, "video/") then "video"
    else if StartsWith(mimetype, "audio/") then "audio"
    else "file"
  }

  /** The inferred type is the one of the directory the file is filed in. */
  lemma InferredTypeMatchesCategory(mimetype: string)
    ensures InferredType(mimetype) == CategoryMessageType(GetFileCategory(mimetype))
  {
  }

  /** The type the media message is built with: the body's when truthy. */
  function MediaType(b: MediaBody, file: StoredFile): string {
    if Truthy(b.messageType) then b.messageType.value else InferredType(file.mimetype)
  }

  /** The record `sendMessageWithMedia` stores, or `None` when the schema
      refuses the type: the file's public URL, original name and size, the
      trimmed text or "", then auto-delivered to the other participants. */
  function NewMediaMessage(db: Db, u: UserId, conv: ConvId, b: MediaBody, file: StoredFile, now: int): Option<Message>
    requires conv in db.conversations
  {
    var text := if b.text.Some? then Trim(b.text.value) else "";
    var url := GetFileUrl(file.filename, GetFileCategory(file.mimetype));
    var created := Create(Draft(conv, u, Some(MediaType(b, file)), Some(text), Some(url), Some(file.originalName),
                                Some(file.size), b.repliedTo, None), now);
    if created.None? then None
    else Some(Delivery.DeliverToOthers(created.value, db.conversations[conv].participants, u, now))
  }

  /** `sendMessageWithMedia`: 400 without a file, 404, 403, 400 for a reply
      to a message of another conversation, then the save (500 when the
      schema refuses the type). On success the new record is stored under
      the fresh id `id` and becomes the conversation's last message. */
  function SendMediaMessage(db: Db, u: UserId, conv: ConvId, b: MediaBody, file: Option<StoredFile>,
                            id: MsgId, now: int): (r: HttpResult<Db>)
    requires id !in db.messages
    ensures file.None? ==> r == Failure(400, "No file uploaded")
    ensures file.Some? && conv !in db.conversations ==> r == Failure(404, "Conversation not found")
    ensures file.Some? && conv in db.conversations && !IsParticipant(db, conv, u) ==> r == Failure(403, NotParticipant)
    ensures file.Some? && IsParticipant(db, conv, u) && Truthy(b.repliedTo)
            && !(b.repliedTo.value in db.messages && db.messages[b.repliedTo.value].conversationId == conv) ==>
              r == Failure(400, "Replied message not found in this conversation")
    ensures r.Success? ==>
      && r.status == 201 && file.Some? && IsParticipant(db, conv, u)
      && NewMediaMessage(db, u, conv, b, file.value, now).Some?
      && r.value == SetLastMessage(db.(messages := db.messages[id := NewMediaMessage(db, u, conv, b, file.value, now).value]),
                                   conv, id, now)
  {
    if file.None? then Failure(400, "No file uploaded")
    else if conv !in db.conversations then Failure(404, "Conversation not found")
    else if !IsParticipant(db, conv, u) then Failure(403, NotParticipant)
    else if Truthy(b.repliedTo) && !(b.repliedTo.value in db.messages
                                     && db.messages[b.repliedTo.value].conversationId == conv) then
      Failure(400, "Replied message not found in this conversation")
    else
      var m := NewMediaMessage(db, u, conv, b, file.value, now);
      if m.None? then Failure(500, "Internal server error")
      else Success(201, SetLastMessage(db.(messages := db.messages[id := m.value]), conv, id, now))
  }

  /** What a successful media send stores: a message whose URL reads back
      as the file's directory and stored name, carrying the original name
      and size, typed after the file when the body gives no type, and
      delivered to exactly the other participants. Once the checks before
      the save pass, only a type outside the enum can make it fail. */
  lemma MediaMessageStoresItsFile(db: Db, u: UserId, conv: ConvId, b: MediaBody, file: StoredFile, id: MsgId, now: int)
    requires id !in db.messages
    requires IsParticipant(db, conv, u)
    requires !Truthy(b.repliedTo) || (b.repliedTo.value in db.messages
                                     && db.messages[b.repliedTo.value].conversationId == conv)
    requires !Truthy(b.messageType) || ParseMessageType(b.messageType.value).Some?
    ensures SendMediaMessage(db, u, conv, b, Some(file), id, now).Success?
    ensures var db' := SendMediaMessage(db, u, conv, b, Some(file), id, now).value;
      && id in db'.messages
      && var m := db'.messages[id];
         && m.mediaUrl.Some? && ParseFileUrl(m.mediaUrl.value) == Some((GetFileCategory(file.mimetype), file.filename))
         && m.fileName == Some(file.originalName) && m.fileSize == Some(file.size)
         && (!Truthy(b.messageType) ==> TypeName(m.messageType) == CategoryMessageType(GetFileCategory(file.mimetype)))
         && (forall v :: HasUser(m.deliveredTo, v) <==> v in db.conversations[conv].participants && v != u)
         && StatusMatchesReceipts(m)
  {
    FileUrlRoundTrip(file.filename, GetFileCategory(file.mimetype));
    InferredTypeMatchesCategory(file.mimetype);
    var db' := SendMediaMessage(db, u, conv, b, Some(file), id, now).value;
    var m := db'.messages[id];
    var ps := db.conversations[conv].participants;
    if exists v :: v in ps && v != u {
      var v :| v in ps && v != u;
      assert HasUser(m.deliveredTo, v);
    }
  }

  // ----- updateMessageStatus -----

  /** `updateMessageStatus`: 400 for a status other than "delivered" or
      "seen", 404 for an unknown message or conversation, 403 for a
      non-participant, 400 for the caller's own message; otherwise the REST
      variant of the lifecycle step. */
  function UpdateMessageStatus(db: Db, u: UserId, id: MsgId, status: Option<string>, now: int): (r: HttpResult<Db>)
    ensures !(status == Some("delivered") || status == Some("seen")) ==>
              r == Failure(400, "Invalid status. Must be \"delivered\" or \"seen\"")
    ensures (status == Some("delivered") || status == Some("seen")) && id !in db.messages ==>
              r == Failure(404, "Message not found")
    ensures r.Success? ==>
      && id in db.messages
      && var m := db.messages[id];
         && IsParticipant(db, m.conversationId, u) && m.sender != u && r.status == 200
         && r.value == db.(messages := db.messages[id := if status == Some("delivered")
                                                          then Delivery.RestDelivered(m, u, now)
                                                          else Delivery.RestSeen(m, u, now)])
    ensures id in db.messages && (status == Some("delivered") || status == Some("seen")) ==>
      var m := db.messages[id];
      && (m.conversationId !in db.conversations ==> r == Failure(404, "Conversation not found"))
      && (m.conversationId in db.conversations && !IsParticipant(db, m.conversationId, u) ==> r == Failure(403, NotParticipant))
      && (IsParticipant(db, m.conversationId, u) && m.sender == u ==>
            r == Failure(400, "Cannot update status of your own messages"))
      && (IsParticipant(db, m.conversationId, u) && m.sender != u ==> r.Success?)
  {
    if !(status == Some("delivered") || status == Some("seen")) then
      Failure(400, "Invalid status. Must be \"delivered\" or \"seen\"")
    else if id !in db.messages then Failure(404, "Message not found")
    else
      var m := db.messages[id];
      if m.conversationId !in db.conversations then Failure(404, "Conversation not found")
      else if !IsParticipant(db, m.conversationId, u) then Failure(403, NotParticipant)
      else if m.sender == u then Failure(400, "Cannot update status of your own messages")
      else
        var m' := if status == Some("delivered") then Delivery.RestDelivered(m, u, now) else Delivery.RestSeen(m, u, now);
        Success(200, db.(messages := db.messages[id := m']))
  }

  /** Repeating a successful status update leaves the store as the first
      one did. */
  lemma UpdateMessageStatusIdempotent(db: Db, u: UserId, id: MsgId, status: Option<string>, t1: int, t2: int)
    requires UpdateMessageStatus(db, u, id, status, t1).Success?
    ensures var once := UpdateMessageStatus(db, u, id, status, t1).value;
            UpdateMessageStatus(once, u, id, status, t2) == Success(200, once)
  {
    var m := db.messages[id];
    var once := UpdateMessageStatus(db, u, id, status, t1).value;
    if status == Some("delivered") {
      Delivery.RestDeliveredIdempotent(m, u, t1, t2);
    } else {
      Delivery.RestSeenIdempotent(m, u, t1, t2);
    }
    assert once.messages[id := once.messages[id]] == once.messages;
  }

  // ----- getMessages -----

  /** `listing` is the store's answer to "the conversation's messages that
      are not deleted, newest first": every such message once, and nothing
      else. */
  ghost predicate IsListing(db: Db, conv: ConvId, listing: seq<MsgId>) {
    && NoDup(listing)
    && (forall i :: 0 <= i < |listing| ==>
          listing[i] in db.messages && db.messages[listing[i]].conversationId == conv && !db.messages[listing[i]].deleted)
    && (forall k :: k in db.messages && db.messages[k].conversationId == conv && !db.messages[k].deleted ==> k in listing)
    && (forall i, j :: 0 <= i < j < |listing| ==> db.messages[listing[j]].createdAt <= db.messages[listing[i]].createdAt)
  }

  datatype PageInfo = PageInfo(currentPage: int, totalPages: int, totalMessages: nat, hasMore: bool)

  /** The answer of `getMessages`: the page oldest first, its metadata and
      the store after the page was marked seen. */
  datatype MessagePage = MessagePage(db: Db, messages: seq<MsgId>, pagination: PageInfo)

  /** The store after `updateMany` marks the unseen messages of the page seen
      by `u`. */
  function MarkPageSeen(msgs: map<MsgId, Message>, page: seq<MsgId>, u: UserId, now: int): (r: map<MsgId, Message>)
    ensures r.Keys == msgs.Keys
    ensures forall k :: k in msgs ==>
      r[k] == if k in page && UnreadBy(msgs[k], u) then Delivery.BulkSeen(msgs[k], u, now) else msgs[k]
  {
    map k | k in msgs :: if k in page && UnreadBy(msgs[k], u) then Delivery.BulkSeen(msgs[k], u, now) else msgs[k]
  }

  /** The page answered for a non-negative skip: the window of the listing,
      oldest first, with its metadata, and the store after marking it seen. */
  function ReadPage(db: Db, u: UserId, listing: seq<MsgId>, p: int, l: int, now: int): MessagePage
    requires Skip(p, l) >= 0 && l != 0
  {
    var skip := Skip(p, l);
    var window := Window(listing, skip, l);
    MessagePage(db.(messages := MarkPageSeen(db.messages, window, u, now)), Reverse(window),
                PageInfo(p, TotalPages(|listing|, l), |listing|, HasMore(skip, |window|, |listing|)))
  }

  /** `getMessages`: 404, 403, then page and limit default to 1 and 50; a
      negative skip is refused by the store (500). Otherwise the answer is
      the page at `(page - 1) * limit`. */
  function GetMessages(db: Db, u: UserId, conv: ConvId, page: Option<int>, limit: Option<int>,
                       listing: seq<MsgId>, now: int): (r: HttpResult<MessagePage>)
    requires IsListing(db, conv, listing)
    ensures conv !in db.conversations ==> r == Failure(404, "Conversation not found")
    ensures conv in db.conversations && !IsParticipant(db, conv, u) ==> r == Failure(403, NotParticipant)
    ensures IsParticipant(db, conv, u) && Skip(OrDefault(page, 1), OrDefault(limit, 50)) < 0 ==>
              r == Failure(500, "Internal server error")
    ensures IsParticipant(db, conv, u) && Skip(OrDefault(page, 1), OrDefault(limit, 50)) >= 0 ==>
              r == Success(200, ReadPage(db, u, listing, OrDefault(page, 1), OrDefault(limit, 50), now))
  {
    var p := OrDefault(page, 1);
    var l := OrDefault(limit, 50);
    if conv !in db.conversations then Failure(404, "Conversation not found")
    else if !IsParticipant(db, conv, u) then Failure(403, NotParticipant)
    else if Skip(p, l) < 0 then Failure(500, "Internal server error")
    else Success(200, ReadPage(db, u, listing, p, l, now))
  }

  /** A page holds the listing's window at the skip, oldest first, reports
      the listing's size and page count, and marks seen exactly the unseen
      messages of the window. */
  lemma ReadPageContents(db: Db, u: UserId, listing: seq<MsgId>, p: int, l: int, now: int)
    requires Skip(p, l) >= 0 && l != 0
    ensures var r := ReadPage(db, u, listing, p, l, now);
            var skip := Skip(p, l);
            && |r.messages| == Min(|listing| - Min(skip, |listing|), Abs(l))
            && (forall i :: 0 <= i < |r.messages| ==> r.messages[i] == listing[skip + |r.messages| - 1 - i])
            && r.pagination == PageInfo(p, TotalPages(|listing|, l), |listing|, HasMore(skip, |r.messages|, |listing|))
            && r.db == db.(messages := MarkPageSeen(db.messages, r.messages, u, now))
  {
    var window := Window(listing, Skip(p, l), l);
    ReverseSameElements(window);
    SameElementsMarkSame(db.messages, window, Reverse(window), u, now);
  }

  /** Reversing keeps the elements. */
  lemma ReverseSameElements<T>(xs: seq<T>)
    ensures forall k :: k in xs <==> k in Reverse(xs)
  {
    var ys := Reverse(xs);
    forall k | k in xs ensures k in ys {
      var i :| 0 <= i < |xs| && xs[i] == k;
      assert ys[|xs| - 1 - i] == k;
    }
    forall k | k in ys ensures k in xs {
      var i :| 0 <= i < |ys| && ys[i] == k;
      assert xs[|xs| - 1 - i] == k;
    }
  }

  /** Marking a page seen depends only on which messages the page holds. */
  lemma SameElementsMarkSame(msgs: map<MsgId, Message>, a: seq<MsgId>, b: seq<MsgId>, u: UserId, now: int)
    requires forall k :: k in a <==> k in b
    ensures MarkPageSeen(msgs, a, u, now) == MarkPageSeen(msgs, b, u, now)
  {
  }

  /** The elements of `xs` in reverse order. */
  function Reverse<T>(xs: seq<T>): (r: seq<T>)
    ensures |r| == |xs|
    ensures forall i :: 0 <= i < |xs| ==> r[i] == xs[|xs| - 1 - i]
  {
    if xs == [] then [] else Reverse(xs[1..]) + [xs[0]]
  }

  /** After a page is read, the caller has seen every message on it that
      someone else sent, and nothing outside the page changed. */
  lemma ReadPageIsSeen(db: Db, u: UserId, conv: ConvId, page: Option<int>, limit: Option<int>,
                       listing: seq<MsgId>, now: int, k: MsgId)
    requires IsListing(db, conv, listing)
    requires GetMessages(db, u, conv, page, limit, listing, now).Success?
    requires k in db.messages
    ensures var r := GetMessages(db, u, conv, page, limit, listing, now).value;
            && (k in r.messages && db.messages[k].sender != u ==> HasUser(r.db.messages[k].seenBy, u))
            && (k !in r.messages ==> r.db.messages[k] == db.messages[k])
  {
    ReadPageContents(db, u, listing, OrDefault(page, 1), OrDefault(limit, 50), now);
  }

  // ----- editMessage -----

  /** `editMessage`: 400 for missing or blank text, 404, 403 for a message
      of someone else, 400 for a non-text message, 400 past 24 hours;
      otherwise the trimmed text is stored and `editedAt` set. */
  function EditMessage(db: Db, u: UserId, id: MsgId, text: Option<string>, now: int): (r: HttpResult<Db>)
    ensures !Truthy(text) || IsBlank(text.value) ==> r == Failure(400, "Message text is required")
    ensures Truthy(text) && !IsBlank(text.value) && id !in db.messages ==> r == Failure(404, "Message not found")
    ensures r.Success? ==>
      && Truthy(text) && !IsBlank(text.value) && id in db.messages && r.status == 200
      && var m := db.messages[id];
         && m.sender == u && m.messageType == Text && now - m.createdAt <= EditWindowMs
         && r.value == db.(messages := db.messages[id := m.(text := Some(Trim(text.value)), editedAt := Some(now))])
    ensures Truthy(text) && !IsBlank(text.value) && id in db.messages ==>
      var m := db.messages[id];
      && (m.sender != u ==> r == Failure(403, "You can only edit your own messages"))
      && (m.sender == u && m.messageType != Text ==> r == Failure(400, "Only text messages can be edited"))
      && (m.sender == u && m.messageType == Text && now - m.createdAt > EditWindowMs ==>
            r == Failure(400, "Messages older than 24 hours cannot be edited"))
      && (m.sender == u && m.messageType == Text && now - m.createdAt <= EditWindowMs ==> r.Success?)
  {
    if !Truthy(text) || IsBlank(text.value) then Failure(400, "Message text is required")
    else if id !in db.messages then Failure(404, "Message not found")
    else
      var m := db.messages[id];
      if m.sender != u then Failure(403, "You can only edit your own messages")
      else if m.messageType != Text then Failure(400, "Only text messages can be edited")
      else if now - m.createdAt > EditWindowMs then Failure(400, "Messages older than 24 hours cannot be edited")
      else Success(200, db.(messages := db.messages[id := m.(text := Some(Trim(text.value)), editedAt := Some(now))]))
  }

  /** An edited text needs no further trimming, and editing again with the
      stored text changes nothing but `editedAt`. */
  lemma EditStoresTrimmedText(db: Db, u: UserId, id: MsgId, text: Option<string>, t1: int, t2: int)
    requires EditMessage(db, u, id, text, t1).Success?
    requires t2 - db.messages[id].createdAt <= EditWindowMs
    ensures var db1 := EditMessage(db, u, id, text, t1).value;
            var stored := db1.messages[id].text;
            && stored.Some? && Trim(stored.value) == stored.value && !IsBlank(stored.value)
            && EditMessage(db1, u, id, stored, t2) == Success(200, db1.(messages := db1.messages[id := db1.messages[id].(editedAt := Some(t2))]))
  {
    var db1 := EditMessage(db, u, id, text, t1).value;
    TrimIdempotent(text.value);
    var stored := db1.messages[id].text.value;
    assert stored != [];
  }

  // ----- deleteMessage -----

  /** `deleteMessage`: 404, 403 for a message of someone else, and for
      delete-for-everyone 400 past one hour; both kinds of delete then mark
      the message deleted and replace its text. */
  function DeleteMessage(db: Db, u: UserId, id: MsgId, forEveryone: bool, now: int): (r: HttpResult<Db>)
    ensures id !in db.messages ==> r == Failure(404, "Message not found")
    ensures id in db.messages && db.messages[id].sender != u ==> r == Failure(403, "You can only delete your own messages")
    ensures id in db.messages && db.messages[id].sender == u ==>
      var m := db.messages[id];
      && (forEveryone && now - m.createdAt > DeleteForEveryoneWindowMs ==>
            r == Failure(400, "Messages older than 1 hour cannot be deleted for everyone"))
      && (!forEveryone || now - m.createdAt <= DeleteForEveryoneWindowMs ==>
            r == Success(200, db.(messages := db.messages[id := m.(deleted := true, deletedAt := Some(now),
                                                                    text := Some(DeletedText))])))
  {
    if id !in db.messages then Failure(404, "Message not found")
    else
      var m := db.messages[id];
      if m.sender != u then Failure(403, "You can only delete your own messages")
      else if forEveryone && now - m.createdAt > DeleteForEveryoneWindowMs then
        Failure(400, "Messages older than 1 hour cannot be deleted for everyone")
      else Success(200, db.(messages := db.messages[id := m.(deleted := true, deletedAt := Some(now), text := Some(DeletedText))]))
  }

  /** The two kinds of delete store the same record whenever both succeed,
      and a deleted message no longer belongs to any listing. */
  lemma DeleteKindsAgree(db: Db, u: UserId, id: MsgId, now: int, conv: ConvId, listing: seq<MsgId>)
    requires DeleteMessage(db, u, id, true, now).Success?
    ensures DeleteMessage(db, u, id, false, now) == DeleteMessage(db, u, id, true, now)
    ensures IsListing(DeleteMessage(db, u, id, false, now).value, conv, listing) ==> id !in listing
  {
  }

  // ----- forwardMessage -----

  /** The copy `forwardMessage` stores in one target conversation: the
      original's content, sent by the caller, pointing back at the original,
      and "sent" with no receipts (a forward is never auto-delivered). */
  function ForwardCopy(original: Message, originalId: MsgId, conv: ConvId, u: UserId, now: int): (r: Message)
    ensures r.conversationId == conv && r.sender == u && r.forwardedFrom == Some(originalId)
    ensures r.messageType == original.messageType && r.text == original.text && r.mediaUrl == original.mediaUrl
    ensures r.fileName == original.fileName && r.fileSize == original.fileSize
    ensures r.status == Sent && r.deliveredTo == [] && r.seenBy == [] && r.repliedTo == None && !r.deleted
    ensures StatusMatchesReceipts(r)
  {
    Message(conv, u, original.messageType, original.text, original.mediaUrl, original.fileName, original.fileSize,
            None, Some(originalId), Sent, [], [], None, false, None, now)
  }

  /** The conversations `u` takes part in. */
  function ConversationsOf(db: Db, u: UserId): set<ConvId> {
    set c | c in db.conversations.Keys && IsParticipant(db, c, u)
  }

  /** The target conversations the store finds: listed ones the caller
      takes part in, each once. */
  function Targets(db: Db, u: UserId, convIds: seq<ConvId>): set<ConvId> {
    Found(convIds, ConversationsOf(db, u))
  }

  /** `forwardMessage`: 400 without a non-empty id list, 404 for an unknown
      original, 403 when the caller cannot see the original, 403 unless the
      store finds as many target conversations as ids were given. The
      answer maps each target to its copy. */
  function ForwardMessage(db: Db, u: UserId, id: MsgId, convIds: Option<seq<ConvId>>, now: int): (r: HttpResult<map<ConvId, Message>>)
    ensures convIds.None? || convIds.value == [] ==> r == Failure(400, "Conversation IDs are required")
    ensures convIds.Some? && convIds.value != [] && id !in db.messages ==> r == Failure(404, "Original message not found")
    ensures convIds.Some? && convIds.value != [] && id in db.messages
            && !IsParticipant(db, db.messages[id].conversationId, u) ==>
              r == Failure(403, "You do not have access to this message")
    ensures r.Success? ==>
      && convIds.Some? && id in db.messages && IsParticipant(db, db.messages[id].conversationId, u)
      && r.status == 201
      && r.value.Keys == Targets(db, u, convIds.value)
      && |r.value.Keys| == |convIds.value|
      && forall c :: c in r.value ==> r.value[c] == ForwardCopy(db.messages[id], id, c, u, now)
  {
    if convIds.None? || convIds.value == [] then Failure(400, "Conversation IDs are required")
    else if id !in db.messages then Failure(404, "Original message not found")
    else if !IsParticipant(db, db.messages[id].conversationId, u) then Failure(403, "You do not have access to this message")
    else
      var targets := Targets(db, u, convIds.value);
      if |targets| != |convIds.value| then
        Failure(403, "You are not a participant in one or more target conversations")
      else Success(201, map c | c in targets :: ForwardCopy(db.messages[id], id, c, u, now))
  }

  /** Once the first three checks pass, the forward succeeds exactly when
      the ids are distinct and the caller takes part in every one of them;
      a repeated id is refused like a foreign one. */
  lemma ForwardSucceedsIffDistinctParticipantTargets(db: Db, u: UserId, id: MsgId, convIds: seq<ConvId>, now: int)
    requires convIds != [] && id in db.messages && IsParticipant(db, db.messages[id].conversationId, u)
    ensures ForwardMessage(db, u, id, Some(convIds), now).Success? <==>
              NoDup(convIds) && forall c :: c in convIds ==> IsParticipant(db, c, u)
  {
    FoundAllIff(convIds, ConversationsOf(db, u));
  }

  // ----- getMessageDetails -----

  /** `getMessageDetails`: 404 for an unknown message, 403 unless the
      caller takes part in its conversation (a conversation that no longer
      exists counts as no access); otherwise the record. */
  function GetMessageDetails(db: Db, u: UserId, id: MsgId): (r: HttpResult<Message>)
    ensures id !in db.messages ==> r == Failure(404, "Message not found")
    ensures id in db.messages && !IsParticipant(db, db.messages[id].conversationId, u) ==>
              r == Failure(403, "You do not have access to this message")
    ensures r.Success? <==> id in db.messages && IsParticipant(db, db.messages[id].conversationId, u)
    ensures r.Success? ==> r == Success(200, db.messages[id])
  {
    if id !in db.messages then Failure(404, "Message not found")
    else if !IsParticipant(db, db.messages[id].conversationId, u) then
      Failure(403, "You do not have access to this message")
    else Success(200, db.messages[id])
  }

  /** Reading a message's details and forwarding it apply the same access
      rule: with a non-empty id list, each refuses with the same answer
      exactly when the other does at that step. */
  lemma DetailsAndForwardShareAccess(db: Db, u: UserId, id: MsgId, convIds: seq<ConvId>, now: int)
    requires convIds != []
    ensures GetMessageDetails(db, u, id).Failure? <==>
              ForwardMessage(db, u, id, Some(convIds), now) == Failure(404, "Original message not found")
              || ForwardMessage(db, u, id, Some(convIds), now) == Failure(403, "You do not have access to this message")
  {
  }
}
