/** The persisted message record: its two enumerations with their
    defaults, the per-user receipt lists and the record defaults applied
    when a message is created. */
module Messages {
  import opened Ids
  import opened Wrappers

  datatype MessageType = Text | Image | Video | Audio | File

  function TypeName(t: MessageType): string {
    match t
    case Text => "text"
    case Image => "image"
    case Video => "video"
    case Audio => "audio"
    case File => "file"
  }

  /** The schema's enum check on `messageType`: a string outside the enum
      makes the save fail validation. */
  function ParseMessageType(s: string): (r: Option<MessageType>)
    ensures r.Some? <==> s in {"text", "image", "video", "audio", "file"}
    ensures r.Some? ==> TypeName(r.value) == s
  {
    if s == "text" then Some(Text)
    else if s == "image" then Some(Image)
    else if s == "video" then Some(Video)
    else if s == "audio" then Some(Audio)
    else if s == "file" then Some(File)
    else None
  }

  lemma TypeNameRoundTrip(t: MessageType)
    ensures ParseMessageType(TypeName(t)) == Some(t)
  {
  }

  datatype Status = Sent | Delivered | Seen

  function StatusName(s: Status): string {
    match s
    case Sent => "sent"
    case Delivered => "delivered"
    case Seen => "seen"
  }

  /** The schema's enum check on `status`. */
  function ParseStatus(s: string): (r: Option<Status>)
    ensures r.Some? <==> s in {"sent", "delivered", "seen"}
    ensures r.Some? ==> StatusName(r.value) == s
  {
    if s == "sent" then Some(Sent)
    else if s == "delivered" then Some(Delivered)
    else if s == "seen" then Some(Seen)
    else None
  }

  lemma StatusNameRoundTrip(s: Status)
    ensures ParseStatus(StatusName(s)) == Some(s)
  {
  }

  /** Position of a status in the lifecycle sent -> delivered -> seen. */
  function Rank(s: Status): nat {
    match s
    case Sent => 0
    case Delivered => 1
    case Seen => 2
  }

  /** One `{ user, deliveredAt }` or `{ user, seenAt }` entry. */
  datatype Receipt = Receipt(user: UserId, at: int)

  /** `list.some(d => d.user === u)`. */
  predicate HasUser(rs: seq<Receipt>, u: UserId) {
    exists i :: 0 <= i < |rs| && rs[i].user == u
  }

  /** How many entries of `rs` name `u`. */
  function Occurrences(rs: seq<Receipt>, u: UserId): (n: nat)
    ensures n == 0 <==> !HasUser(rs, u)
    ensures n <= |rs|
  {
    if rs == [] then 0
    else
      var rest := Occurrences(rs[1..], u);
      assert forall i :: 1 <= i < |rs| ==> rs[i] == rs[1..][i - 1];
      (if rs[0].user == u then 1 else 0) + rest
  }

  lemma {:induction false} OccurrencesAppend(rs: seq<Receipt>, x: Receipt, u: UserId)
    ensures Occurrences(rs + [x], u) == Occurrences(rs, u) + (if x.user == u then 1 else 0)
  {
    if rs != [] {
      assert (rs + [x])[1..] == rs[1..] + [x];
      OccurrencesAppend(rs[1..], x, u);
    }
  }

  /** One receipt per listed user, all stamped `at`, in list order. */
  function Receipts(us: seq<UserId>, at: int): (r: seq<Receipt>)
    ensures |r| == |us|
    ensures forall i :: 0 <= i < |us| ==> r[i] == Receipt(us[i], at)
    ensures forall v :: HasUser(r, v) <==> v in us
  {
    if us == [] then []
    else
      var rest := Receipts(us[1..], at);
      assert forall v :: v in us <==> v == us[0] || v in us[1..];
      assert forall i :: 1 <= i < |us| ==> ([Receipt(us[0], at)] + rest)[i] == rest[i - 1];
      [Receipt(us[0], at)] + rest
  }

  datatype Message = Message(
    conversationId: ConvId,
    sender: UserId,
    messageType: MessageType,
    text: Option<string>,
    mediaUrl: Option<string>,
    fileName: Option<string>,
    fileSize: Option<int>,
    repliedTo: Option<MsgId>,
    forwardedFrom: Option<MsgId>,
    status: Status,
    deliveredTo: seq<Receipt>,
    seenBy: seq<Receipt>,
    editedAt: Option<int>,
    deleted: bool,
    deletedAt: Option<int>,
    createdAt: int)

  /** The fields a handler passes to `new Message({...})`; `messageType` is
      the raw string (absent means the schema default). */
  datatype Draft = Draft(
    conversationId: ConvId,
    sender: UserId,
    messageType: Option<string>,
    text: Option<string>,
    mediaUrl: Option<string>,
    fileName: Option<string>,
    fileSize: Option<int>,
    repliedTo: Option<MsgId>,
    forwardedFrom: Option<MsgId>)

  /** Whether the schema accepts the draft's `messageType`. */
  predicate ValidDraft(d: Draft) {
    d.messageType.None? || ParseMessageType(d.messageType.value).Some?
  }

  /** Building and validating a new record at time `now`: the schema
      defaults apply (type "text", status "sent", no receipts, not deleted,
      never edited), and a `messageType` outside the enum is refused. */
  function Create(d: Draft, now: int): (r: Option<Message>)
    ensures r.Some? <==> ValidDraft(d)
    ensures r.Some? ==>
      && r.value.conversationId == d.conversationId && r.value.sender == d.sender
      && TypeName(r.value.messageType) == d.messageType.GetOr("text")
      && r.value.text == d.text && r.value.mediaUrl == d.mediaUrl
      && r.value.fileName == d.fileName && r.value.fileSize == d.fileSize
      && r.value.repliedTo == d.repliedTo && r.value.forwardedFrom == d.forwardedFrom
      && r.value.status == Sent && r.value.deliveredTo == [] && r.value.seenBy == []
      && r.value.editedAt == None && !r.value.deleted && r.value.deletedAt == None
      && r.value.createdAt == now
  {
    var t := if d.messageType.None? then Some(Text) else ParseMessageType(d.messageType.value);
    if t.None? then None
    else Some(Message(d.conversationId, d.sender, t.value, d.text, d.mediaUrl, d.fileName,
                      d.fileSize, d.repliedTo, d.forwardedFrom, Sent, [], [], None, false, None, now))
  }

  /** The schema default: a draft without a type is created exactly as the
      same draft typed "text". */
  lemma AbsentTypeCreatesText(d: Draft, now: int)
    requires d.messageType.None?
    ensures Create(d, now) == Create(d.(messageType := Some("text")), now)
  {
    assert ParseMessageType("text") == Some(Text);
  }

  /** The message is unread by `u`: someone else sent it and `u` has no
      seen receipt on it. */
  predicate UnreadBy(m: Message, u: UserId) {
    m.sender != u && !HasUser(m.seenBy, u)
  }

  /** The overall status agrees with the receipt lists: "sent" exactly when
      nobody has received or seen the message, "seen" exactly when somebody
      has seen it. */
  predicate StatusMatchesReceipts(m: Message) {
    && (m.status == Sent <==> m.deliveredTo == [] && m.seenBy == [])
    && (m.status == Seen <==> m.seenBy != [])
  }
}
