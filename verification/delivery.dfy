/** The delivery-status lifecycle of one message, sent -> delivered -> seen,
    in its three variants: the socket `messageStatusUpdate` handler, the REST
    `updateMessageStatus` endpoint, and the bulk "mark as seen" update used by
    `markMessagesAsSeen` and by fetching a page of messages. */
module Delivery {
  import opened Ids
  import opened Collections
  import opened Messages

  /** The record after an update and whether the handler counted it as a change. */
  datatype Update = Update(message: Message, changed: bool)

  /** Only the status and the two receipt lists may differ. */
  predicate SameContent(m: Message, m': Message) {
    m' == m.(status := m'.status, deliveredTo := m'.deliveredTo, seenBy := m'.seenBy)
  }

  /** Socket "delivered": the caller is appended to `deliveredTo` unless
      already there, and only then is a "sent" message promoted. */
  function SocketDelivered(m: Message, u: UserId, now: int): (r: Update)
    ensures r.changed <==> !HasUser(m.deliveredTo, u)
    ensures !r.changed ==> r.message == m
    ensures HasUser(r.message.deliveredTo, u)
    ensures Occurrences(r.message.deliveredTo, u) == (if r.changed then 1 else Occurrences(m.deliveredTo, u))
    ensures r.message.seenBy == m.seenBy
    ensures SameContent(m, r.message)
    ensures Rank(m.status) <= Rank(r.message.status)
    ensures m.status == Seen ==> r.message.status == Seen
    ensures r.message.status == Delivered ==> m.status != Seen
  {
    if HasUser(m.deliveredTo, u) then Update(m, false)
    else
      OccurrencesAppend(m.deliveredTo, Receipt(u, now), u);
      var rs := m.deliveredTo + [Receipt(u, now)];
      assert rs[|rs| - 1].user == u;
      Update(m.(deliveredTo := rs, status := if m.status == Sent then Delivered else m.status), true)
  }

  /** Socket "seen": when the caller has not yet seen the message, it is
      appended to `seenBy`, backfilled into `deliveredTo` if missing, and the
      status becomes "seen"; otherwise nothing happens. */
  function SocketSeen(m: Message, u: UserId, now: int): (r: Update)
    ensures r.changed <==> !HasUser(m.seenBy, u)
    ensures !r.changed ==> r.message == m
    ensures r.changed ==> && HasUser(r.message.seenBy, u) && HasUser(r.message.deliveredTo, u)
                          && r.message.status == Seen
                          && Occurrences(r.message.seenBy, u) == 1
                          && Occurrences(r.message.deliveredTo, u) <= 1 + Occurrences(m.deliveredTo, u)
                          && (HasUser(m.deliveredTo, u) ==> r.message.deliveredTo == m.deliveredTo)
    ensures SameContent(m, r.message)
    ensures Rank(m.status) <= Rank(r.message.status)
  {
    if HasUser(m.seenBy, u) then Update(m, false)
    else
      OccurrencesAppend(m.seenBy, Receipt(u, now), u);
      OccurrencesAppend(m.deliveredTo, Receipt(u, now), u);
      var seen := m.seenBy + [Receipt(u, now)];
      assert seen[|seen| - 1].user == u;
      var delivered := if HasUser(m.deliveredTo, u) then m.deliveredTo else m.deliveredTo + [Receipt(u, now)];
      assert !HasUser(m.deliveredTo, u) ==> delivered[|delivered| - 1].user == u;
      Update(m.(seenBy := seen, deliveredTo := delivered, status := Seen), true)
  }

  /** REST "delivered": the caller is appended to `deliveredTo` unless
      already there, and a "sent" message becomes "delivered" whether or not
      the caller was new. */
  function RestDelivered(m: Message, u: UserId, now: int): (r: Message)
    ensures HasUser(r.seenBy, u) == HasUser(m.seenBy, u) && r.seenBy == m.seenBy
    ensures HasUser(r.deliveredTo, u)
    ensures Occurrences(r.deliveredTo, u) == (if HasUser(m.deliveredTo, u) then Occurrences(m.deliveredTo, u) else 1)
    ensures r.status == (if m.status == Sent then Delivered else m.status)
    ensures SameContent(m, r)
  {
    var delivered := if HasUser(m.deliveredTo, u) then m.deliveredTo else m.deliveredTo + [Receipt(u, now)];
    OccurrencesAppend(m.deliveredTo, Receipt(u, now), u);
    assert !HasUser(m.deliveredTo, u) ==> delivered[|delivered| - 1].user == u;
    m.(deliveredTo := delivered, status := if m.status == Sent then Delivered else m.status)
  }

  /** REST "seen": as the socket variant for the receipts, but the status is
      set to "seen" even when the caller had already seen the message. */
  function RestSeen(m: Message, u: UserId, now: int): (r: Message)
    ensures HasUser(r.seenBy, u) && r.status == Seen
    ensures HasUser(m.seenBy, u) ==> r == m.(status := Seen)
    ensures !HasUser(m.seenBy, u) ==> r == SocketSeen(m, u, now).message
    ensures SameContent(m, r)
  {
    if HasUser(m.seenBy, u) then m.(status := Seen)
    else SocketSeen(m, u, now).message
  }

  /** The bulk update `{ $addToSet: { seenBy: {user, seenAt} }, $set: { status: "seen" } }`
      applied to a message the caller has not seen: `deliveredTo` is left alone. */
  function BulkSeen(m: Message, u: UserId, now: int): (r: Message)
    requires !HasUser(m.seenBy, u)
    ensures HasUser(r.seenBy, u) && Occurrences(r.seenBy, u) == 1 && r.status == Seen
    ensures r.deliveredTo == m.deliveredTo
    ensures SameContent(m, r)
  {
    OccurrencesAppend(m.seenBy, Receipt(u, now), u);
    var seen := m.seenBy + [Receipt(u, now)];
    assert seen[|seen| - 1].user == u;
    m.(seenBy := seen, status := Seen)
  }

  /** The auto-delivery both send paths apply to a new message: every
      listed member other than the sender gets a receipt stamped `now`, in
      list order, and the message becomes "delivered" when there is at
      least one; with nobody else listed the message is left as it is. */
  function DeliverToOthers(m: Message, members: seq<UserId>, u: UserId, now: int): (r: Message)
    ensures (exists v :: v in members && v != u) ==>
      && (forall v :: HasUser(r.deliveredTo, v) <==> v in members && v != u)
      && r.status == Delivered
    ensures !(exists v :: v in members && v != u) ==> r == m
    ensures r.seenBy == m.seenBy && SameContent(m, r)
  {
    var others := Without(members, u);
    if |others| > 0 then
      assert HasUser(Receipts(others, now), others[0]);
      m.(deliveredTo := Receipts(others, now), status := Delivered)
    else
      assert others == [];
      m
  }

  /** Auto-delivery of a fresh message: the receipts are exactly the other
      members, the status is "delivered" when there is one and "sent"
      otherwise, and the status agrees with the receipts. */
  lemma FreshDeliveredToOthers(m: Message, members: seq<UserId>, u: UserId, now: int)
    requires m.status == Sent && m.deliveredTo == [] && m.seenBy == []
    ensures var r := DeliverToOthers(m, members, u, now);
      && (forall v :: HasUser(r.deliveredTo, v) <==> v in members && v != u)
      && (r.status == Delivered <==> exists v :: v in members && v != u)
      && (r.status != Delivered ==> r.status == Sent)
      && StatusMatchesReceipts(r)
  {
    var r := DeliverToOthers(m, members, u, now);
    if exists v :: v in members && v != u {
      var v :| v in members && v != u;
      assert HasUser(r.deliveredTo, v);
    }
  }

  // ----- Idempotence -----

  /** Repeating a socket "delivered" changes nothing, whatever the time. */
  lemma SocketDeliveredIdempotent(m: Message, u: UserId, t1: int, t2: int)
    ensures var once := SocketDelivered(m, u, t1).message;
            SocketDelivered(once, u, t2) == Update(once, false)
  {
  }

  /** Repeating a socket "seen" changes nothing, whatever the time. */
  lemma SocketSeenIdempotent(m: Message, u: UserId, t1: int, t2: int)
    ensures var once := SocketSeen(m, u, t1).message;
            SocketSeen(once, u, t2) == Update(once, false)
  {
  }

  /** Repeating a REST "delivered" yields the same record. */
  lemma RestDeliveredIdempotent(m: Message, u: UserId, t1: int, t2: int)
    ensures RestDelivered(RestDelivered(m, u, t1), u, t2) == RestDelivered(m, u, t1)
  {
  }

  /** Repeating a REST "seen" yields the same record. */
  lemma RestSeenIdempotent(m: Message, u: UserId, t1: int, t2: int)
    ensures RestSeen(RestSeen(m, u, t1), u, t2) == RestSeen(m, u, t1)
  {
  }

  // ----- The status invariant -----

  /** Every variant keeps the status in agreement with the receipt lists. */
  lemma UpdatesPreserveStatusMatch(m: Message, u: UserId, now: int)
    requires StatusMatchesReceipts(m)
    ensures StatusMatchesReceipts(SocketDelivered(m, u, now).message)
    ensures StatusMatchesReceipts(SocketSeen(m, u, now).message)
    ensures StatusMatchesReceipts(RestDelivered(m, u, now))
    ensures StatusMatchesReceipts(RestSeen(m, u, now))
    ensures !HasUser(m.seenBy, u) ==> StatusMatchesReceipts(BulkSeen(m, u, now))
  {
    assert HasUser(SocketDelivered(m, u, now).message.deliveredTo, u);
    assert HasUser(RestDelivered(m, u, now).deliveredTo, u);
    assert HasUser(RestSeen(m, u, now).seenBy, u);
  }

  // ----- Where "seen implies delivered" fails -----

  /** A message marked seen in bulk is not backfilled into `deliveredTo`,
      and a later socket "seen" from the same user is then a no-op, so the
      user is recorded as having seen but not received the message. */
  lemma BulkSeenThenSocketSeenLeavesDeliveredUnset(m: Message, u: UserId, t1: int, t2: int)
    requires !HasUser(m.seenBy, u) && !HasUser(m.deliveredTo, u)
    ensures var after := SocketSeen(BulkSeen(m, u, t1), u, t2);
            !after.changed && HasUser(after.message.seenBy, u) && !HasUser(after.message.deliveredTo, u)
  {
  }

  /** The same gap through the REST endpoint. */
  lemma BulkSeenThenRestSeenLeavesDeliveredUnset(m: Message, u: UserId, t1: int, t2: int)
    requires !HasUser(m.seenBy, u) && !HasUser(m.deliveredTo, u)
    ensures var after := RestSeen(BulkSeen(m, u, t1), u, t2);
            HasUser(after.seenBy, u) && !HasUser(after.deliveredTo, u)
  {
  }

  /** Where the two "delivered" variants part: a "sent" record that already
      lists the caller is promoted by REST but left alone by the socket. */
  lemma DeliveredVariantsDiffer(m: Message, u: UserId, now: int)
    requires m.status == Sent && HasUser(m.deliveredTo, u)
    ensures SocketDelivered(m, u, now).message.status == Sent
    ensures RestDelivered(m, u, now).status == Delivered
  {
  }
}
