/** The REST handlers on conversations: creating a direct or group chat,
    adding and removing group members with the hand-over of the admin role,
    editing a group's name, description and image, and the unread count
    the listings report. Checks run in the source's order; the first
    failing one decides the answer. */
module ConversationController {
  import opened Ids
  import opened Wrappers
  import opened Collections
  import opened Strings
  import opened Messages
  import opened Store
  import MessageController
  import Pagination

  // ----- The admin invariant -----

  /** A group names an admin, and the admin is one of its participants. */
  predicate AdminIsMember(c: Conversation) {
    c.isGroup ==> c.groupAdmin.Some? && c.groupAdmin.value in c.participants
  }

  /** `conversation.groupAdmin?.toString() === userId`. */
  predicate IsAdmin(c: Conversation, u: UserId) {
    c.groupAdmin == Some(u)
  }

  // ----- createConversation -----

  /** The body of `POST /conversations`; `participants` lists the other
      members, the creator is added by the handler. */
  datatype CreateBody = CreateBody(
    participants: Option<seq<UserId>>,
    isGroup: bool,
    groupName: Option<string>,
    groupDescription: Option<string>,
    groupImage: Option<string>)

  /** The answer of a successful create: the store and the id of the
      conversation returned. */
  datatype Created = Created(db: Db, conversation: ConvId)

  /** `c` matches `{ participants: { $all: [a, b], $size: 2 }, isGroup: false }`. */
  predicate DirectBetween(c: Conversation, a: UserId, b: UserId) {
    !c.isGroup && |c.participants| == 2 && a in c.participants && b in c.participants
  }

  /** `found` is a correct answer of the store's `findOne` for a direct chat
      between `a` and `b`: some matching conversation, or none when there
      is no match. */
  predicate FindsDirect(db: Db, a: UserId, b: UserId, found: Option<ConvId>) {
    match found
    case Some(c) => c in db.conversations && DirectBetween(db.conversations[c], a, b)
    case None => forall c :: c in db.conversations ==> !DirectBetween(db.conversations[c], a, b)
  }

  /** The lookup answer the handler is given is correct whenever it asks. */
  predicate DirectLookup(db: Db, u: UserId, b: CreateBody, found: Option<ConvId>) {
    b.participants.Some? && |b.participants.value| == 1 ==> FindsDirect(db, u, b.participants.value[0], found)
  }

  /** The validation of `createConversation`, in order; `None` when it passes. */
  function CreateError(db: Db, b: CreateBody): (r: Option<string>)
    ensures r.None? <==>
      && b.participants.Some? && b.participants.value != []
      && (!b.isGroup ==> |b.participants.value| == 1)
      && (b.isGroup ==> Truthy(b.groupName) && !IsBlank(b.groupName.value) && |b.participants.value| >= 2)
      && NoDup(b.participants.value)
      && (forall v :: v in b.participants.value ==> v in db.users)
  {
    FoundAllIff(b.participants.GetOr([]), db.users.Keys);
    if b.participants.None? || b.participants.value == [] then Some("Participants are required")
    else if !b.isGroup && |b.participants.value| != 1 then
      Some("One-on-one chat requires exactly one other participant")
    else if b.isGroup && (!Truthy(b.groupName) || IsBlank(b.groupName.value)) then
      Some("Group name is required for group chats")
    else if b.isGroup && |b.participants.value| < 2 then
      Some("Group chat requires at least 2 other participants")
    else if |Found(b.participants.value, db.users.Keys)| != |b.participants.value| then
      Some("One or more participants not found")
    else None
  }

  /** The record a create stores: the creator first, then the listed ids;
      the group fields and the admin (the creator) only for a group. */
  function NewConversation(u: UserId, b: CreateBody): (c: Conversation)
    requires b.participants.Some?
    ensures c.participants == [u] + b.participants.value
    ensures c.isGroup == b.isGroup
    ensures c.groupAdmin == (if b.isGroup then Some(u) else None)
    ensures !b.isGroup ==> c.groupName.None? && c.groupDescription.None? && c.groupImage.None?
    ensures b.isGroup ==> c.groupName == b.groupName && c.groupDescription == b.groupDescription
                          && c.groupImage == b.groupImage
    ensures c.lastMessage.None? && c.lastMessageTime.None?
  {
    if b.isGroup then
      Conversation([u] + b.participants.value, true, b.groupName, b.groupDescription, b.groupImage,
                   Some(u), None, None)
    else
      Conversation([u] + b.participants.value, false, None, None, None, None, None, None)
  }

  /** `createConversation`: 400 for the validation failures; for a direct
      chat that already exists, 200 with that chat and the store untouched;
      otherwise 201 with a new conversation stored under the fresh id `id`. */
  function CreateConversation(db: Db, u: UserId, b: CreateBody, found: Option<ConvId>, id: ConvId): (r: HttpResult<Created>)
    requires id !in db.conversations
    requires DirectLookup(db, u, b, found)
    ensures CreateError(db, b).Some? ==> r == Failure(400, CreateError(db, b).value)
    ensures CreateError(db, b).None? && !b.isGroup && found.Some? ==> r == Success(200, Created(db, found.value))
    ensures CreateError(db, b).None? && (b.isGroup || found.None?) ==>
              && r.Success? && r.status == 201 && r.value.conversation == id
              && r.value.db == db.(conversations := db.conversations[id := NewConversation(u, b)])
  {
    var err := CreateError(db, b);
    if err.Some? then Failure(400, err.value)
    else if !b.isGroup && found.Some? then Success(200, Created(db, found.value))
    else Success(201, Created(db.(conversations := db.conversations[id := NewConversation(u, b)]), id))
  }

  /** A new group keeps the admin invariant: its creator is its admin and
      its first participant. */
  lemma CreatedKeepsAdminIsMember(db: Db, u: UserId, b: CreateBody, found: Option<ConvId>, id: ConvId)
    requires id !in db.conversations && DirectLookup(db, u, b, found)
    requires CreateConversation(db, u, b, found, id).Success?
    ensures var r := CreateConversation(db, u, b, found, id).value;
            r.conversation in r.db.conversations && AdminIsMember(r.db.conversations[r.conversation])
  {
  }

  /** A direct chat with `v` that already exists is never duplicated: the
      handler either refuses or returns an existing chat between the two
      and leaves the store as it was. */
  lemma DirectChatNotDuplicated(db: Db, u: UserId, v: UserId, found: Option<ConvId>, id: ConvId,
                                name: Option<string>, description: Option<string>, image: Option<string>, c: ConvId)
    requires id !in db.conversations
    requires c in db.conversations && DirectBetween(db.conversations[c], u, v)
    requires FindsDirect(db, u, v, found)
    ensures var r := CreateConversation(db, u, CreateBody(Some([v]), false, name, description, image), found, id);
            r.Failure? || (r.status == 200 && r.value.db == db && found.Some?
                           && DirectBetween(db.conversations[r.value.conversation], u, v))
  {
  }

  /** The stored participants repeat nobody exactly when the creator did
      not list themself. */
  lemma CreatedParticipantsDistinctIff(db: Db, u: UserId, b: CreateBody, found: Option<ConvId>, id: ConvId)
    requires id !in db.conversations && DirectLookup(db, u, b, found)
    requires CreateConversation(db, u, b, found, id).status == 201
    ensures NoDup(CreateConversation(db, u, b, found, id).value.db.conversations[id].participants)
            <==> u !in b.participants.value
  {
    var ids := b.participants.value;
    var ps := [u] + ids;
    assert ps[1..] == ids;
    if u in ids {
      var j :| 0 <= j < |ids| && ids[j] == u;
      assert ps[0] == ps[j + 1];
    }
  }

  // ----- addParticipants -----

  /** The request names somebody, and the caller may add to the group: the
      checks `addParticipants` makes before it looks the ids up. */
  predicate CanAdd(db: Db, u: UserId, conv: ConvId, ids: Option<seq<UserId>>) {
    && ids.Some? && ids.value != [] && conv in db.conversations && db.conversations[conv].isGroup
    && (IsAdmin(db.conversations[conv], u) || IsParticipant(db, conv, u))
  }

  /** `addParticipants`: 400 for an empty list, 404, 400 for a direct chat,
      403 unless the caller is the admin or a participant, 400 when the
      store does not find every listed id once, 400 when every listed id
      is already a member. Otherwise the ids not yet present are appended
      in the order given; nothing else changes. */
  function AddParticipants(db: Db, u: UserId, conv: ConvId, ids: Option<seq<UserId>>): (r: HttpResult<Db>)
    ensures ids.None? || ids.value == [] ==> r == Failure(400, "Participants are required")
    ensures ids.Some? && ids.value != [] && conv !in db.conversations ==> r == Failure(404, "Conversation not found")
    ensures ids.Some? && ids.value != [] && conv in db.conversations && !db.conversations[conv].isGroup ==>
              r == Failure(400, "Can only add participants to group chats")
    ensures ids.Some? && ids.value != [] && conv in db.conversations && db.conversations[conv].isGroup
            && !IsAdmin(db.conversations[conv], u) && !IsParticipant(db, conv, u) ==>
              r == Failure(403, "You are not authorized to add participants")
    ensures r.Success? ==>
              && ids.Some? && conv in db.conversations && r.status == 200 && conv in r.value.conversations
              && var c := db.conversations[conv];
                 var ps := r.value.conversations[conv].participants;
                 && c.isGroup && (IsAdmin(c, u) || IsParticipant(db, conv, u))
                 && NoDup(ids.value) && (forall v :: v in ids.value ==> v in db.users)
                 && (exists v :: v in ids.value && v !in c.participants)
                 && |c.participants| < |ps| && ps[..|c.participants|] == c.participants
                 && (forall v :: v in ps <==> v in c.participants || v in ids.value)
                 && (NoDup(c.participants) ==> NoDup(ps))
                 && r.value == db.(conversations := db.conversations[conv := c.(participants := ps)])
    ensures r.Failure? && r.status == 400 && r.message == "One or more participants not found" ==>
              ids.Some? && !(NoDup(ids.value) && forall v :: v in ids.value ==> v in db.users)
    ensures CanAdd(db, u, conv, ids) ==>
              (!(NoDup(ids.value) && forall v :: v in ids.value ==> v in db.users)
               <==> r == Failure(400, "One or more participants not found"))
    ensures CanAdd(db, u, conv, ids) && NoDup(ids.value) && (forall v :: v in ids.value ==> v in db.users) ==>
              && ((forall v :: v in ids.value ==> v in db.conversations[conv].participants)
                  ==> r == Failure(400, "All participants are already in the group"))
              && ((exists v :: v in ids.value && v !in db.conversations[conv].participants)
                  ==> r.Success?)
  {
    if ids.None? || ids.value == [] then Failure(400, "Participants are required")
    else if conv !in db.conversations then Failure(404, "Conversation not found")
    else
      var c := db.conversations[conv];
      if !c.isGroup then Failure(400, "Can only add participants to group chats")
      else if !IsAdmin(c, u) && !IsParticipant(db, conv, u) then
        Failure(403, "You are not authorized to add participants")
      else if |Found(ids.value, db.users.Keys)| != |ids.value| then
        FoundAllIff(ids.value, db.users.Keys);
        Failure(400, "One or more participants not found")
      else
        FoundAllIff(ids.value, db.users.Keys);
        var toAdd := Missing(ids.value, c.participants);
        if toAdd == [] then Failure(400, "All participants are already in the group")
        else
          assert toAdd[0] in ids.value && toAdd[0] !in c.participants;
          var ps := c.participants + toAdd;
          assert ps[..|c.participants|] == c.participants;
          NoDupAppend(c.participants, toAdd);
          Success(200, db.(conversations := db.conversations[conv := c.(participants := ps)]))
  }

  /** Two lists without repeats and without common values concatenate to a
      list without repeats. */
  lemma NoDupAppend<T>(xs: seq<T>, ys: seq<T>)
    requires forall v :: v in ys ==> v !in xs
    ensures NoDup(xs) && NoDup(ys) ==> NoDup(xs + ys)
  {
    if NoDup(xs) && NoDup(ys) {
      var zs := xs + ys;
      forall i, j | 0 <= i < j < |zs| ensures zs[i] != zs[j] {
        if j >= |xs| && i < |xs| {
          assert zs[j] in ys;
        }
        else if i >= |xs| {
          assert zs[i] == ys[i - |xs|] && zs[j] == ys[j - |xs|];
        }
      }
    }
  }

  /** Adding members keeps the admin invariant. */
  lemma AddKeepsAdminIsMember(db: Db, u: UserId, conv: ConvId, ids: Option<seq<UserId>>)
    requires conv in db.conversations && AdminIsMember(db.conversations[conv])
    requires AddParticipants(db, u, conv, ids).Success?
    ensures AdminIsMember(AddParticipants(db, u, conv, ids).value.conversations[conv])
  {
  }

  // ----- removeParticipant -----

  /** `removeParticipant`: 404, 400 for a direct chat, 403 unless the caller
      is the admin or removes themself. Otherwise every occurrence of `pid`
      is dropped, and when the admin leaves and members remain, the first
      remaining member becomes admin; nothing else changes. */
  function RemoveParticipant(db: Db, u: UserId, conv: ConvId, pid: UserId): (r: HttpResult<Db>)
    ensures conv !in db.conversations ==> r == Failure(404, "Conversation not found")
    ensures conv in db.conversations && !db.conversations[conv].isGroup ==>
              r == Failure(400, "Can only remove participants from group chats")
    ensures conv in db.conversations && db.conversations[conv].isGroup
            && !IsAdmin(db.conversations[conv], u) && pid != u ==>
              r == Failure(403, "Only group admin can remove participants")
    ensures conv in db.conversations && db.conversations[conv].isGroup
            && (IsAdmin(db.conversations[conv], u) || pid == u) ==>
              r.Success?
    ensures r.Success? ==>
              && conv in db.conversations && r.status == 200 && conv in r.value.conversations
              && var c := db.conversations[conv];
                 var c' := r.value.conversations[conv];
                 && c.isGroup && (IsAdmin(c, u) || pid == u)
                 && (forall v :: v in c'.participants <==> v in c.participants && v != pid)
                 && (NoDup(c.participants) ==> NoDup(c'.participants))
                 && (pid == u && IsAdmin(c, u) && c'.participants != [] ==> c'.groupAdmin == Some(c'.participants[0]))
                 && (!(pid == u && IsAdmin(c, u)) || c'.participants == [] ==> c'.groupAdmin == c.groupAdmin)
                 && r.value == db.(conversations := db.conversations[conv := c.(participants := c'.participants,
                                                                                 groupAdmin := c'.groupAdmin)])
  {
    if conv !in db.conversations then Failure(404, "Conversation not found")
    else
      var c := db.conversations[conv];
      if !c.isGroup then Failure(400, "Can only remove participants from group chats")
      else if !IsAdmin(c, u) && pid != u then Failure(403, "Only group admin can remove participants")
      else
        var ps := Without(c.participants, pid);
        var admin := if pid == u && IsAdmin(c, u) && |ps| > 0 then Some(ps[0]) else c.groupAdmin;
        Success(200, db.(conversations := db.conversations[conv := c.(participants := ps, groupAdmin := admin)]))
  }

  /** Removing a member keeps the admin invariant as long as somebody is
      left: the admin can only be removed by leaving, and then hands over. */
  lemma RemoveKeepsAdminIsMember(db: Db, u: UserId, conv: ConvId, pid: UserId)
    requires conv in db.conversations && AdminIsMember(db.conversations[conv])
    requires RemoveParticipant(db, u, conv, pid).Success?
    requires RemoveParticipant(db, u, conv, pid).value.conversations[conv].participants != []
    ensures AdminIsMember(RemoveParticipant(db, u, conv, pid).value.conversations[conv])
  {
    var c := db.conversations[conv];
    var c' := RemoveParticipant(db, u, conv, pid).value.conversations[conv];
    if !(pid == u && IsAdmin(c, u)) {
      assert c.groupAdmin.value != pid;
      assert c.groupAdmin.value in c'.participants;
    }
  }

  /** When the admin is the last member and leaves, the group is left empty
      with the departed user still named as admin. */
  lemma LastAdminLeavingKeepsStaleAdmin(db: Db, u: UserId, conv: ConvId)
    requires conv in db.conversations && db.conversations[conv].isGroup
    requires db.conversations[conv].groupAdmin == Some(u) && db.conversations[conv].participants == [u]
    ensures var r := RemoveParticipant(db, u, conv, u);
            && r.Success? && r.value.conversations[conv].participants == []
            && r.value.conversations[conv].groupAdmin == Some(u)
            && !AdminIsMember(r.value.conversations[conv])
  {
    assert Without([u], u) == [];
  }

  // ----- updateGroupInfo -----

  /** A field of the `updateGroupInfo` body: `None` when the key is absent,
      `Some(None)` for an explicit `null`, `Some(Some(s))` for a string. */
  type FieldUpdate = Option<Option<string>>

  /** The stored value after applying an optional update. */
  function Apply(update: FieldUpdate, current: Option<string>): Option<string> {
    if update.Some? then update.value else current
  }

  /** `updateGroupInfo`: 404, 400 for a direct chat, 403 unless the caller
      is the admin. Otherwise each provided field is stored and every other
      field of every record is left alone. */
  function UpdateGroupInfo(db: Db, u: UserId, conv: ConvId, name: FieldUpdate, description: FieldUpdate,
                           image: FieldUpdate): (r: HttpResult<Db>)
    ensures conv !in db.conversations ==> r == Failure(404, "Conversation not found")
    ensures conv in db.conversations && !db.conversations[conv].isGroup ==>
              r == Failure(400, "Can only update group chat information")
    ensures conv in db.conversations && db.conversations[conv].isGroup && !IsAdmin(db.conversations[conv], u) ==>
              r == Failure(403, "Only group admin can update group information")
    ensures conv in db.conversations && db.conversations[conv].isGroup && IsAdmin(db.conversations[conv], u) ==>
              && r.Success? && r.status == 200
              && r.value.messages == db.messages && r.value.users == db.users
              && r.value.conversations.Keys == db.conversations.Keys
              && (forall c :: c in db.conversations && c != conv ==> r.value.conversations[c] == db.conversations[c])
              && var before := db.conversations[conv];
                 var after := r.value.conversations[conv];
                 && (name.Some? ==> after.groupName == name.value)
                 && (name.None? ==> after.groupName == before.groupName)
                 && (description.Some? ==> after.groupDescription == description.value)
                 && (description.None? ==> after.groupDescription == before.groupDescription)
                 && (image.Some? ==> after.groupImage == image.value)
                 && (image.None? ==> after.groupImage == before.groupImage)
                 && after == before.(groupName := after.groupName, groupDescription := after.groupDescription,
                                     groupImage := after.groupImage)
  {
    if conv !in db.conversations then Failure(404, "Conversation not found")
    else
      var c := db.conversations[conv];
      if !c.isGroup then Failure(400, "Can only update group chat information")
      else if !IsAdmin(c, u) then Failure(403, "Only group admin can update group information")
      else
        var c' := c.(groupName := Apply(name, c.groupName), groupDescription := Apply(description, c.groupDescription),
                     groupImage := Apply(image, c.groupImage));
        Success(200, db.(conversations := db.conversations[conv := c']))
  }

  /** An update that provides no field leaves the store as it was, and
      applying the same update twice is the same as applying it once. */
  lemma UpdateGroupInfoIdempotent(db: Db, u: UserId, conv: ConvId, name: FieldUpdate, description: FieldUpdate,
                                  image: FieldUpdate)
    requires UpdateGroupInfo(db, u, conv, name, description, image).Success?
    ensures UpdateGroupInfo(db, u, conv, None, None, None).value == db
    ensures var once := UpdateGroupInfo(db, u, conv, name, description, image).value;
            UpdateGroupInfo(once, u, conv, name, description, image) == Success(200, once)
  {
    var c := db.conversations[conv];
    assert db.conversations[conv := c] == db.conversations;
    var once := UpdateGroupInfo(db, u, conv, name, description, image).value;
    assert once.conversations[conv := once.conversations[conv]] == once.conversations;
  }

  /** Editing group info keeps the admin invariant. */
  lemma UpdateKeepsAdminIsMember(db: Db, u: UserId, conv: ConvId, name: FieldUpdate, description: FieldUpdate,
                                 image: FieldUpdate)
    requires conv in db.conversations && AdminIsMember(db.conversations[conv])
    requires UpdateGroupInfo(db, u, conv, name, description, image).Success?
    ensures AdminIsMember(UpdateGroupInfo(db, u, conv, name, description, image).value.conversations[conv])
  {
  }

  // ----- Unread counts -----

  /** The messages `countDocuments({ conversationId, sender: { $ne: u },
      seenBy: { $not: { $elemMatch: { user: u } } } })` counts. Deleted
      messages are not excluded. */
  function UnreadIds(db: Db, conv: ConvId, u: UserId): set<MsgId> {
    set k | k in db.messages && db.messages[k].conversationId == conv && UnreadBy(db.messages[k], u)
  }

  /** The `unreadCount` reported with a conversation. */
  function UnreadCount(db: Db, conv: ConvId, u: UserId): nat {
    |UnreadIds(db, conv, u)|
  }

  /** Reading a page of messages removes exactly that page's messages from
      the unread ones, so the unread count never rises and falls by the
      number of unread messages the page held. */
  lemma ReadingPageLowersUnread(db: Db, u: UserId, conv: ConvId, listing: seq<MsgId>, p: int, l: int, now: int)
    requires Pagination.Skip(p, l) >= 0 && l != 0
    ensures var r := MessageController.ReadPage(db, u, listing, p, l, now);
            && UnreadIds(r.db, conv, u) == UnreadIds(db, conv, u) - Elems(r.messages)
            && UnreadCount(r.db, conv, u) == UnreadCount(db, conv, u) - |UnreadIds(db, conv, u) * Elems(r.messages)|
  {
    var r := MessageController.ReadPage(db, u, listing, p, l, now);
    MessageController.ReadPageContents(db, u, listing, p, l, now);
    MarkPageSeenUnread(db, conv, u, r.messages, now);
    DifferenceCard(UnreadIds(db, conv, u), Elems(r.messages));
  }

  /** Marking a page seen removes exactly the page from the unread messages. */
  lemma MarkPageSeenUnread(db: Db, conv: ConvId, u: UserId, page: seq<MsgId>, now: int)
    ensures UnreadIds(db.(messages := MessageController.MarkPageSeen(db.messages, page, u, now)), conv, u)
            == UnreadIds(db, conv, u) - Elems(page)
  {
    var db' := db.(messages := MessageController.MarkPageSeen(db.messages, page, u, now));
    forall k | k in db.messages && k in page && UnreadBy(db.messages[k], u)
      ensures !UnreadBy(db'.messages[k], u)
    {
      assert HasUser(db'.messages[k].seenBy, u);
    }
  }

  lemma DifferenceCard<T>(a: set<T>, b: set<T>)
    ensures |a - b| == |a| - |a * b|
  {
    assert a == (a - b) + a * b && (a - b) * (a * b) == {};
  }
}
