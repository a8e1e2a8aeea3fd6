/** The stateless helpers of the chat layer: naming a conversation,
    delivery statistics, content validation, the typing-indicator key,
    file-extension handling, the search text of a message, and the
    permission checks for editing and deleting. */
module ChatUtils {
  import opened Ids
  import opened Wrappers
  import opened Collections
  import opened Strings
  import opened Messages
  import opened Store
  import MessageController
  import Delivery
  import Inputs = Validation

  // ----- generateConversationName -----

  /** A populated participant: its id and its optional display name. */
  datatype Participant = Participant(id: UserId, name: Option<string>)

  /** `participants.find(p => p._id.toString() !== u)`. */
  function FirstOther(ps: seq<Participant>, u: UserId): (r: Option<Participant>)
    ensures r.None? <==> forall i :: 0 <= i < |ps| ==> ps[i].id == u
    ensures r.Some? ==> exists i :: 0 <= i < |ps| && ps[i] == r.value && r.value.id != u
                                    && forall j :: 0 <= j < i ==> ps[j].id == u
  {
    if ps == [] then None
    else if ps[0].id != u then Some(ps[0])
    else
      var r := FirstOther(ps[1..], u);
      if r.Some? then
        var i :| 0 <= i < |ps[1..]| && ps[1..][i] == r.value && r.value.id != u
                 && forall j :: 0 <= j < i ==> ps[1..][j].id == u;
        assert ps[i + 1] == r.value;
        Some(r.value)
      else
        assert forall i :: 1 <= i < |ps| ==> ps[i].id == ps[1..][i - 1].id;
        None
  }

  /** The title of a conversation for `u`: the other member's name for a
      two-person list, "Unknown User" when the other has no name or there
      is no other, and "Group Chat" for any other size. */
  function GenerateConversationName(ps: seq<Participant>, u: UserId): (r: string)
    ensures |ps| != 2 ==> r == "Group Chat"
    ensures |ps| == 2 && FirstOther(ps, u).Some? && Truthy(FirstOther(ps, u).value.name) ==>
              r == FirstOther(ps, u).value.name.value
    ensures |ps| == 2 && !(FirstOther(ps, u).Some? && Truthy(FirstOther(ps, u).value.name)) ==>
              r == "Unknown User"
  {
    if |ps| == 2 then
      var other := FirstOther(ps, u);
      if other.Some? && Truthy(other.value.name) then other.value.name.value else "Unknown User"
    else "Group Chat"
  }

  /** In a direct chat the title is the name of the member who is not the
      viewer, whichever position either holds; a chat with oneself has no
      other member and is titled "Unknown User". */
  lemma DirectChatTitle(me: Participant, other: Participant, name: string)
    requires other.id != me.id && name != []
    requires other.name == Some(name)
    ensures GenerateConversationName([me, other], me.id) == name
    ensures GenerateConversationName([other, me], me.id) == name
    ensures GenerateConversationName([me, me], me.id) == "Unknown User"
  {
    assert FirstOther([me, other], me.id) == Some(other) by {
      assert FirstOther([me, other][1..], me.id) == Some(other);
    }
    assert FirstOther([me, me], me.id).None? by {
      assert FirstOther([me, me][1..], me.id).None?;
    }
  }

  // ----- calculateDeliveryStats -----

  datatype DeliveryStats = DeliveryStats(delivered: nat, seen: nat, pending: nat, total: int)

  /** The receipt counts of a message in a conversation of `n` members: the
      sender is not counted, and the pending count never goes below zero. */
  function CalculateDeliveryStats(m: Message, n: int): (r: DeliveryStats)
    ensures r.delivered == |m.deliveredTo| && r.seen == |m.seenBy|
    ensures r.total == n - 1
    ensures r.delivered <= r.total ==> r.pending == r.total - r.delivered
    ensures r.delivered >= r.total ==> r.pending == 0
  {
    var pending := n - 1 - |m.deliveredTo|;
    DeliveryStats(|m.deliveredTo|, |m.seenBy|, if pending > 0 then pending else 0, n - 1)
  }

  /** A message just sent over REST into a conversation that lists each
      member once, the sender among them, has nobody pending. */
  lemma SentMessageHasNonePending(db: Db, u: UserId, conv: ConvId, b: MessageController.SendBody, now: int)
    requires conv in db.conversations
    requires NoDup(db.conversations[conv].participants) && u in db.conversations[conv].participants
    requires MessageController.NewRestMessage(db, u, conv, b, now).Some?
    ensures var ps := db.conversations[conv].participants;
            var stats := CalculateDeliveryStats(MessageController.NewRestMessage(db, u, conv, b, now).value, |ps|);
            stats.pending == 0 && stats.total == stats.delivered
  {
    var ps := db.conversations[conv].participants;
    var others := Without(ps, u);
    WithoutMemberLength(ps, u);
    var created := Create(Draft(conv, u, b.messageType, if b.text.Some? then Some(Trim(b.text.value)) else None,
                                b.mediaUrl, b.fileName, b.fileSize, b.repliedTo, b.forwardedFrom), now);
    var m := Delivery.DeliverToOthers(created.value, ps, u, now);
    if |others| > 0 {
      assert m.deliveredTo == Receipts(others, now);
    } else {
      assert |ps| == 1;
      assert m == created.value;
    }
  }

  /** Dropping a member that occurs once shortens the list by one. */
  lemma WithoutMemberLength<T(!new)>(xs: seq<T>, u: T)
    requires NoDup(xs) && u in xs
    ensures |Without(xs, u)| == |xs| - 1
  {
    var r := Without(xs, u);
    ElemsCard(xs);
    ElemsCard(r);
    assert Elems(r) == Elems(xs) - {u};
  }

  // ----- validateMessageContent -----

  /** The longest text a message may carry, in UTF-16 code units. */
  const MaxTextLength := 4096

  datatype Validation = Valid | Invalid(error: string)

  /** `validateMessageContent`: a text message needs non-blank text of at
      most 4096 UTF-16 code units; a media message needs a media URL; any
      other type is refused. */
  function ValidateMessageContent(messageType: string, text: Option<string>, mediaUrl: Option<string>): (r: Validation)
    ensures messageType == "text" ==>
              (r.Valid? <==> Truthy(text) && !IsBlank(text.value) && Utf16Length(text.value) <= MaxTextLength)
    ensures messageType in {"image", "video", "audio", "file"} ==> (r.Valid? <==> Truthy(mediaUrl))
    ensures r.Valid? ==> ParseMessageType(messageType).Some?
    ensures ParseMessageType(messageType).None? ==> r == Invalid("Invalid message type")
    ensures messageType == "text" && !Truthy(text) ==> r == Invalid("Text content is required for text messages")
  {
    if messageType == "text" then
      if !Truthy(text) || IsBlank(text.value) then Invalid("Text content is required for text messages")
      else if Utf16Length(text.value) > MaxTextLength then Invalid("Message text is too long (max 4096 characters)")
      else Valid
    else if messageType in {"image", "video", "audio", "file"} then
      if !Truthy(mediaUrl) then Invalid("Media URL is required for media messages") else Valid
    else Invalid("Invalid message type")
  }

  /** Content that passes validation also passes the content checks of
      `sendMessage` for a message that replies to nothing. */
  lemma ValidContentPassesSendChecks(db: Db, conv: ConvId, messageType: string, text: Option<string>,
                                     mediaUrl: Option<string>, fileName: Option<string>, fileSize: Option<int>,
                                     forwardedFrom: Option<MsgId>)
    requires ValidateMessageContent(messageType, text, mediaUrl).Valid?
    ensures MessageController.SendContentError(db, conv, MessageController.SendBody(
              text, Some(messageType), mediaUrl, fileName, fileSize, None, forwardedFrom)).None?
  {
  }

  // ----- generateTypingKey -----

  const TypingPrefix := "typing:"

  /** `typing:<conversation>:<user>`. */
  function GenerateTypingKey(conv: ConvId, u: UserId): (r: string)
    ensures |r| == |TypingPrefix| + |conv| + 1 + |u|
    ensures StartsWith(r, TypingPrefix)
  {
    TypingPrefix + conv + ":" + u
  }

  /** Reads a typing key back into its conversation and user. */
  function ParseTypingKey(key: string): Option<(ConvId, UserId)> {
    if !StartsWith(key, TypingPrefix) then None
    else
      var rest := key[|TypingPrefix|..];
      var i := IndexOf(rest, ':');
      if i == |rest| then None else Some((rest[..i], rest[i + 1..]))
  }

  /** A conversation id without ':' (as every database object id) is read
      back from its key, and so is the user. */
  lemma TypingKeyRoundTrip(conv: ConvId, u: UserId)
    requires ':' !in conv
    ensures ParseTypingKey(GenerateTypingKey(conv, u)) == Some((conv, u))
  {
    var rest := GenerateTypingKey(conv, u)[|TypingPrefix|..];
    assert rest == conv + ":" + u;
    IndexOfAfter(conv, ':', u);
    assert rest[..|conv|] == conv;
    assert rest[|conv| + 1..] == u;
  }

  /** Distinct (conversation, user) pairs get distinct keys. */
  lemma TypingKeyInjective(c1: ConvId, u1: UserId, c2: ConvId, u2: UserId)
    requires ':' !in c1 && ':' !in c2
    requires GenerateTypingKey(c1, u1) == GenerateTypingKey(c2, u2)
    ensures c1 == c2 && u1 == u2
  {
    TypingKeyRoundTrip(c1, u1);
    TypingKeyRoundTrip(c2, u2);
  }

  // ----- getFileExtension / isSupportedFileType -----

  /** Where the last '.'-separated piece of `s` starts: just past the last
      '.', or 0 when there is none. */
  function LastPieceStart(s: string): (i: nat)
    ensures i <= |s| && (i == 0 || s[i - 1] == '.')
    ensures '.' !in s[i..]
  {
    if s == [] then 0
    else if s[|s| - 1] == '.' then |s|
    else
      var init := s[..|s| - 1];
      var i := LastPieceStart(init);
      assert s[i..] == init[i..] + [s[|s| - 1]];
      i
  }

  /** `url.split(".").pop()?.toLowerCase() || ""`: the lowercased text
      after the last '.', or the whole lowercased string without one. */
  function GetFileExtension(url: string): (r: string)
    ensures '.' !in r
    ensures '.' !in url ==> r == ToLower(url)
  {
    var i := LastPieceStart(url);
    var r := ToLower(url[i..]);
    assert forall k :: 0 <= k < |r| ==> r[k] != '.' by {
      forall k | 0 <= k < |r| ensures r[k] != '.' {
        assert url[i..][k] != '.';
      }
    }
    r
  }

  /** The extension of `name.ext` is the lowercased `ext`, whatever `name`
      holds. */
  lemma ExtensionOfFileName(name: string, ext: string)
    requires '.' !in ext
    ensures GetFileExtension(name + "." + ext) == ToLower(ext)
  {
    var s := name + "." + ext;
    var i := LastPieceStart(s);
    var j := |name| + 1;
    assert s[j..] == ext;
    NoDotFrom(s, i);
    NoDotFrom(s, j);
    assert s[j - 1] == '.';
  }

  /** A suffix without '.' has no '.' at any of its positions in `s`. */
  lemma NoDotFrom(s: string, i: nat)
    requires i <= |s| && '.' !in s[i..]
    ensures forall p :: i <= p < |s| ==> s[p] != '.'
  {
    forall p | i <= p < |s| ensures s[p] != '.' {
      assert s[p] == s[i..][p - i];
    }
  }

  /** The extensions accepted for media messages. */
  const SupportedExtensions: seq<string> := [
    "jpg", "jpeg", "png", "gif", "webp",
    "mp4", "avi", "mov", "wmv", "flv",
    "mp3", "wav", "ogg", "aac",
    "pdf", "doc", "docx", "txt", "xls", "xlsx", "ppt", "pptx"]

  /** Exact, case-sensitive membership in the list. */
  predicate IsSupportedFileType(ext: string) {
    ext in SupportedExtensions
  }

  /** Lowercase ASCII letters and digits only. */
  predicate LowerAlnum(e: string) {
    forall i :: 0 <= i < |e| ==> 'a' <= e[i] <= 'z' || '0' <= e[i] <= '9'
  }

  /** Every listed extension is lowercase and has no '.', so it is what
      `GetFileExtension` yields for a file named with it in any case. */
  lemma SupportedExtensionsAreLowercase(e: string)
    requires IsSupportedFileType(e)
    ensures ToLower(e) == e && '.' !in e
  {
    assert forall i :: 0 <= i < |SupportedExtensions| ==> LowerAlnum(SupportedExtensions[i]);
    assert LowerAlnum(e);
  }

  /** Matching is case-sensitive: an extension holding an uppercase letter
      is never supported, though `GetFileExtension` lowercases what it
      reads from a file name. */
  lemma UppercaseNotSupported(e: string, i: nat)
    requires i < |e| && 'A' <= e[i] <= 'Z'
    ensures !IsSupportedFileType(e)
  {
    assert forall j :: 0 <= j < |SupportedExtensions| ==> LowerAlnum(SupportedExtensions[j]);
    forall j | 0 <= j < |SupportedExtensions| ensures SupportedExtensions[j] != e {
      var x := SupportedExtensions[j];
      if |x| == |e| {
        assert x[i] != e[i];
      }
    }
  }

  // ----- generateSearchableText -----

  /** The text indexed for search: the lowercased text and file name, each
      followed by a space where present, with the ends trimmed. */
  function GenerateSearchableText(text: Option<string>, fileName: Option<string>): (r: string)
    ensures !Truthy(text) && !Truthy(fileName) ==> r == ""
  {
    var a := if Truthy(text) then ToLower(text.value) + " " else "";
    var b := if Truthy(fileName) then ToLower(fileName.value) + " " else "";
    assert !Truthy(text) && !Truthy(fileName) ==> Trim(a + b) == [] by {
      if !Truthy(text) && !Truthy(fileName) {
        assert a + b == [];
      }
    }
    Trim(a + b)
  }

  /** The search text is already normalised: trimming it or lowercasing it
      again changes nothing. */
  lemma SearchableTextIsNormalised(text: Option<string>, fileName: Option<string>)
    ensures var r := GenerateSearchableText(text, fileName);
            Trim(r) == r && ToLower(r) == r
  {
    var a := if Truthy(text) then ToLower(text.value) + " " else "";
    var b := if Truthy(fileName) then ToLower(fileName.value) + " " else "";
    var s := a + b;
    assert GenerateSearchableText(text, fileName) == Trim(s);
    TrimIdempotent(s);
    if Truthy(text) { LoweredPiece(text.value); }
    if Truthy(fileName) { LoweredPiece(fileName.value); }
    LowerConcat(a, b);
    TrimLowerCommute(s);
  }

  /** The search text is the sanitised form of what it indexes: the text and
      file name joined by one space when both are present, or whichever one
      is present alone. */
  lemma SearchableTextIsSanitized(text: Option<string>, fileName: Option<string>)
    ensures var r := GenerateSearchableText(text, fileName);
            && (Truthy(text) && Truthy(fileName) ==>
                  r == Inputs.SanitizeInput(text.value + " " + fileName.value))
            && (Truthy(text) && !Truthy(fileName) ==> r == Inputs.SanitizeInput(text.value))
            && (!Truthy(text) && Truthy(fileName) ==> r == Inputs.SanitizeInput(fileName.value))
  {
    if Truthy(text) && Truthy(fileName) {
      var t, f := text.value, fileName.value;
      LowerConcat(t, " ");
      LowerConcat(t + " ", f);
      assert ToLower(" ") == " ";
      assert (ToLower(t) + " ") + (ToLower(f) + " ") == ToLower(t + " " + f) + " ";
      SanitizedPiece(t + " " + f);
    } else if Truthy(text) {
      assert (ToLower(text.value) + " ") + "" == ToLower(text.value) + " ";
      SanitizedPiece(text.value);
    } else if Truthy(fileName) {
      assert "" + (ToLower(fileName.value) + " ") == ToLower(fileName.value) + " ";
      SanitizedPiece(fileName.value);
    }
  }

  /** One lowercased piece followed by a space trims to the sanitised piece. */
  lemma SanitizedPiece(y: string)
    ensures Trim(ToLower(y) + " ") == Inputs.SanitizeInput(y)
  {
    LowerConcat(y, " ");
    assert ToLower(" ") == " ";
    TrimLowerCommute(y + " ");
    TrimDropsTrailingWhitespace(y, ' ');
    assert y + [' '] == y + " ";
  }

  /** A lowercased piece followed by a space is unchanged by lowercasing. */
  lemma LoweredPiece(t: string)
    ensures ToLower(ToLower(t) + " ") == ToLower(t) + " "
  {
    LowerConcat(ToLower(t), " ");
    LowerIdempotent(t);
  }

  // ----- canEditMessage / canDeleteMessage / canDeleteForEveryone -----

  /** Only the sender may edit, only text, and only within 24 hours
      (`(now - createdAt) / 3600000 > 24` is false exactly within
      24 * 3600000 ms). */
  predicate CanEditMessage(m: Message, u: UserId, now: int) {
    m.sender == u && m.messageType == Text && now - m.createdAt <= MessageController.EditWindowMs
  }

  /** Only the sender may delete. */
  predicate CanDeleteMessage(m: Message, u: UserId) {
    m.sender == u
  }

  /** The sender may delete for everyone within one hour. */
  predicate CanDeleteForEveryone(m: Message, u: UserId, now: int) {
    CanDeleteMessage(m, u) && now - m.createdAt <= MessageController.DeleteForEveryoneWindowMs
  }

  /** For a non-blank new text, the edit endpoint succeeds exactly when the
      helper allows the edit. */
  lemma CanEditIffEditSucceeds(db: Db, u: UserId, id: MsgId, text: string, now: int)
    requires id in db.messages && !IsBlank(text)
    ensures MessageController.EditMessage(db, u, id, Some(text), now).Success?
            <==> CanEditMessage(db.messages[id], u, now)
  {
    assert text != [];
  }

  /** Both delete endpoints succeed exactly when the matching helper
      allows the delete, and deleting for everyone is the stricter. */
  lemma CanDeleteIffDeleteSucceeds(db: Db, u: UserId, id: MsgId, now: int)
    requires id in db.messages
    ensures MessageController.DeleteMessage(db, u, id, false, now).Success? <==> CanDeleteMessage(db.messages[id], u)
    ensures MessageController.DeleteMessage(db, u, id, true, now).Success?
            <==> CanDeleteForEveryone(db.messages[id], u, now)
    ensures CanDeleteForEveryone(db.messages[id], u, now) ==> CanDeleteMessage(db.messages[id], u)
  {
  }
}
