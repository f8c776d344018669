/** The back end's notification handlers: the inbox (`get_notifications`),
    which adds a transient entry for every follow-up that is due, and the two
    ways of marking stored notifications read. */
module NotificationViews {
  import opened Basics
  import opened Models
  import opened Store
  import Text

  // ---------------------------------------------------------------------
  // The inbox

  /** A stored notification's primary key, or the lead of a transient
      follow-up entry. */
  datatype EntryId = StoredId(id: nat) | FollowUpId(lead: nat)

  datatype EntryMeta = StoredMeta(meta: Meta) | DueDate(due: Option<Date>)

  /** One element of the inbox response. */
  datatype Entry = Entry(id: EntryId, user: nat, message: string, lead: Option<nat>, kind: string,
                         isRead: bool, meta: EntryMeta)

  /** The `id` field as the client sees it. */
  function IdText(e: EntryId): string
  {
    match e
      case StoredId(n) => Text.NatDigits(n)
      case FollowUpId(k) => "dynamic_followup_" + Text.NatDigits(k)
  }

  /** `Notification.objects.filter(user=u, is_read=False)`, newest first. */
  function Unread(ns: seq<Notification>, userId: nat): (r: seq<Notification>)
    ensures forall n :: n in r <==> n in ns && n.user == userId && !n.isRead
  {
    if ns == [] then []
    else
      var n := ns[0];
      assert ns == [n] + ns[1..];
      Unread(ns[1..], userId) + (if n.user == userId && !n.isRead then [n] else [])
  }

  /** Rows are numbered in creation order, so `-created_at` lists them by
      descending id. */
  lemma {:induction false} UnreadNewestFirst(ns: seq<Notification>, userId: nat, offset: nat)
    requires forall i :: 0 <= i < |ns| ==> ns[i].id == offset + i + 1
    ensures forall i, j :: 0 <= i < j < |Unread(ns, userId)| ==> Unread(ns, userId)[i].id > Unread(ns, userId)[j].id
    ensures forall i :: 0 <= i < |Unread(ns, userId)| ==> Unread(ns, userId)[i].id > offset
  {
    if ns != [] {
      UnreadNewestFirst(ns[1..], userId, offset + 1);
    }
  }

  /** `Lead.objects.filter(assigned_to=u, follow_up_date__lte=today,
      status__in=ACTIVE_WORKLOAD_STATUSES)`: soft-deleted leads are not
      excluded. */
  predicate Due(l: Lead, userId: nat, today: Date)
  {
    l.assignedTo == Some(userId) && l.followUp.Some? && DateLeq(l.followUp.value, today) &&
    l.status in ActiveWorkloadStatuses
  }

  function DueLeads(leads: seq<Lead>, userId: nat, today: Date): (r: seq<Lead>)
    ensures forall l :: l in r <==> l in leads && Due(l, userId, today)
  {
    if leads == [] then []
    else
      var l := leads[0];
      assert leads == [l] + leads[1..];
      (if Due(l, userId, today) then [l] else []) + DueLeads(leads[1..], userId, today)
  }

  /** `NotificationSerializer` (the creation time is not modelled). */
  function StoredEntry(n: Notification): Entry
  {
    Entry(StoredId(n.id), n.user, n.message, n.lead, n.kind, n.isRead, StoredMeta(n.meta))
  }

  /** The transient entry of a due follow-up. */
  function FollowUpEntry(l: Lead, userId: nat): Entry
  {
    Entry(FollowUpId(l.id), userId, "Follow-up due for " + l.company, Some(l.id), "followup", false,
          DueDate(l.followUp))
  }

  function StoredEntries(ns: seq<Notification>): (r: seq<Entry>)
    ensures |r| == |ns|
    ensures forall i :: 0 <= i < |ns| ==> r[i] == StoredEntry(ns[i])
  {
    if ns == [] then [] else StoredEntries(ns[..|ns| - 1]) + [StoredEntry(ns[|ns| - 1])]
  }

  function FollowUpEntries(ls: seq<Lead>, userId: nat): (r: seq<Entry>)
    ensures |r| == |ls|
    ensures forall i :: 0 <= i < |ls| ==> r[i] == FollowUpEntry(ls[i], userId)
  {
    if ls == [] then [] else FollowUpEntries(ls[..|ls| - 1], userId) + [FollowUpEntry(ls[|ls| - 1], userId)]
  }

  /** The response of `get_notifications`: the stored unread notifications,
      then one transient entry per due lead. */
  function Inbox(ns: seq<Notification>, leads: seq<Lead>, userId: nat, today: Date): seq<Entry>
  {
    StoredEntries(Unread(ns, userId)) + FollowUpEntries(DueLeads(leads, userId, today), userId)
  }

  /** `get_notifications`: serialize the stored part, then append an entry per
      due lead. */
  method GetNotifications(db: Crm, user: Personnel, today: Date) returns (data: seq<Entry>)
    requires db.Valid()
    ensures data == Inbox(db.notifications, db.leads, user.id, today)
  {
    data := StoredEntries(Unread(db.notifications, user.id));
    var followUps := DueLeads(db.leads, user.id, today);
    var i := 0;
    while i < |followUps|
      invariant 0 <= i <= |followUps|
      invariant data == StoredEntries(Unread(db.notifications, user.id)) + FollowUpEntries(followUps[..i], user.id)
    {
      var lead := followUps[i];
      data := data + [FollowUpEntry(lead, user.id)];
      FollowUpSnoc(StoredEntries(Unread(db.notifications, user.id)), followUps, i, user.id);
      i := i + 1;
    }
    assert followUps[..i] == followUps;
  }

  lemma FollowUpSnoc(stored: seq<Entry>, ls: seq<Lead>, i: nat, userId: nat)
    requires i < |ls|
    ensures stored + FollowUpEntries(ls[..i + 1], userId) == stored + FollowUpEntries(ls[..i], userId) + [FollowUpEntry(ls[i], userId)]
  {
    assert ls[..i + 1][..i] == ls[..i];
  }

  lemma StoredEntriesMembers(ns: seq<Notification>)
    ensures forall n :: n in ns ==> StoredEntry(n) in StoredEntries(ns)
    ensures forall e :: e in StoredEntries(ns) ==> e.id.StoredId? && exists n :: n in ns && e == StoredEntry(n)
  {
    var r := StoredEntries(ns);
    forall n | n in ns ensures StoredEntry(n) in r {
      var i :| 0 <= i < |ns| && ns[i] == n;
      assert r[i] == StoredEntry(n);
    }
    forall e | e in r ensures e.id.StoredId? && exists n :: n in ns && e == StoredEntry(n) {
      var i :| 0 <= i < |r| && r[i] == e;
      assert ns[i] in ns;
    }
  }

  lemma FollowUpEntriesMembers(ls: seq<Lead>, userId: nat)
    ensures forall l :: l in ls ==> FollowUpEntry(l, userId) in FollowUpEntries(ls, userId)
    ensures forall e :: e in FollowUpEntries(ls, userId) ==>
      e.id.FollowUpId? && exists l :: l in ls && e == FollowUpEntry(l, userId)
  {
    var r := FollowUpEntries(ls, userId);
    forall l | l in ls ensures FollowUpEntry(l, userId) in r {
      var i :| 0 <= i < |ls| && ls[i] == l;
      assert r[i] == FollowUpEntry(l, userId);
    }
    forall e | e in r ensures e.id.FollowUpId? && exists l :: l in ls && e == FollowUpEntry(l, userId) {
      var i :| 0 <= i < |r| && r[i] == e;
      assert ls[i] in ls;
    }
  }

  /** Everything in the inbox is unread and addressed to the user; its stored
      entries are exactly the user's unread notifications and its transient
      ones exactly the due leads. */
  lemma InboxContents(ns: seq<Notification>, leads: seq<Lead>, userId: nat, today: Date)
    ensures forall e :: e in Inbox(ns, leads, userId, today) ==> !e.isRead && e.user == userId
    ensures forall n :: StoredEntry(n) in Inbox(ns, leads, userId, today) <==> n in ns && n.user == userId && !n.isRead
    ensures forall e :: e in Inbox(ns, leads, userId, today) && e.id.StoredId? ==>
      exists n :: n in ns && n.user == userId && !n.isRead && e == StoredEntry(n)
    ensures forall l :: l in leads && Due(l, userId, today) ==> FollowUpEntry(l, userId) in Inbox(ns, leads, userId, today)
    ensures forall e :: e in Inbox(ns, leads, userId, today) && e.id.FollowUpId? ==>
      exists l :: l in leads && Due(l, userId, today) && e == FollowUpEntry(l, userId)
  {
    StoredEntriesMembers(Unread(ns, userId));
    FollowUpEntriesMembers(DueLeads(leads, userId, today), userId);
  }

  // ---------------------------------------------------------------------
  // Marking read

  /** How `mark_notification_read` reads its URL segment: a `dynamic` prefix,
      a decimal primary key, or something the id lookup rejects. Python's
      `int()` also takes surrounding blanks, a sign and underscores; those
      forms are not modelled. */
  datatype ParsedId = Dynamic | Numeric(n: nat) | Malformed

  predicate Numeral(s: string)
  {
    |s| > 0 && forall i :: 0 <= i < |s| ==> Text.IsDigit(s[i])
  }

  function ParseId(s: string): ParsedId
  {
    if Text.StartsWith(s, "dynamic") then Dynamic
    else if Numeral(s) then Numeric(Text.DigitsValue(s))
    else Malformed
  }

  /** Every id the inbox hands out parses back to what it names. */
  lemma ParseIdText(e: EntryId)
    ensures ParseId(IdText(e)) == (match e case StoredId(n) => Numeric(n) case FollowUpId(_) => Dynamic)
  {
    match e
      case StoredId(n) =>
        var s := Text.NatDigits(n);
        assert !Text.StartsWith(s, "dynamic") by {
          if |s| >= 7 {
            assert Text.IsDigit(s[0]);
            assert s[..7][0] == s[0];
          }
        }
        Text.DigitsRoundTrip(n);
      case FollowUpId(k) =>
        var s := "dynamic_followup_" + Text.NatDigits(k);
        assert s[..7] == "dynamic";
  }

  datatype ReadResponse = Acknowledged | MarkedRead | NotificationNotFound | ServerError

  /** `Notification.objects.get(id=id, user=u)`: the row index, if the id is a
      row of that user. */
  function OwnedIndex(ns: seq<Notification>, userId: nat, id: nat): (r: Option<nat>)
    requires NotificationIds(ns)
    ensures r.Some? ==> r.value < |ns| && ns[r.value].id == id && ns[r.value].user == userId
    ensures r.None? <==> forall i :: 0 <= i < |ns| ==> !(ns[i].id == id && ns[i].user == userId)
  {
    if 1 <= id <= |ns| && ns[id - 1].user == userId then Some(id - 1) else None
  }

  /** The reply of `mark_notification_read` for an id segment. */
  function ReadReply(ns: seq<Notification>, userId: nat, idText: string): ReadResponse
    requires NotificationIds(ns)
  {
    match ParseId(idText)
      case Dynamic => Acknowledged
      case Malformed => ServerError
      case Numeric(n) => if OwnedIndex(ns, userId, n).Some? then MarkedRead else NotificationNotFound
  }

  /** `mark_notification_read`. A dynamic id is acknowledged with no change;
      an id that is not a number makes the lookup raise (a server error); a
      row of another user or no row at all is a 404; otherwise that row, read
      or not, is saved with `is_read` set. */
  method MarkNotificationRead(db: Crm, user: Personnel, idText: string) returns (resp: ReadResponse)
    requires db.Valid()
    modifies db`notifications
    ensures db.Valid()
    ensures resp == ReadReply(old(db.notifications), user.id, idText)
    ensures resp == MarkedRead ==>
      var k := ParseId(idText).n - 1;
      db.notifications == old(db.notifications)[k := old(db.notifications)[k].(isRead := true)]
    ensures resp != MarkedRead ==> db.notifications == old(db.notifications)
  {
    if Text.StartsWith(idText, "dynamic") {
      return Acknowledged;
    }
    if !Numeral(idText) {
      return ServerError;
    }
    var id := Text.DigitsValue(idText);
    var found := OwnedIndex(db.notifications, user.id, id);
    if found.None? {
      return NotificationNotFound;
    }
    var k := found.value;
    db.notifications := db.notifications[k := db.notifications[k].(isRead := true)];
    resp := MarkedRead;
  }

  /** The notifications after a successful mark: only that row changes. */
  function MarkRead(ns: seq<Notification>, k: nat): seq<Notification>
    requires k < |ns|
  {
    ns[k := ns[k].(isRead := true)]
  }

  /** Marking row `k` read takes exactly that row out of every unread list. */
  lemma MarkReadUnread(ns: seq<Notification>, k: nat, v: nat)
    requires NotificationIds(ns) && k < |ns|
    ensures forall m :: m in Unread(MarkRead(ns, k), v) <==> m in Unread(ns, v) && m.id != k + 1
  {
    var after := MarkRead(ns, k);
    forall m ensures m in after && m.user == v && !m.isRead <==> m in ns && m.user == v && !m.isRead && m.id != k + 1 {
      if m in after && !m.isRead {
        var j :| 0 <= j < |after| && after[j] == m;
        assert j != k;
        assert ns[j] == m;
      }
      if m in ns && m.id != k + 1 {
        var j :| 0 <= j < |ns| && ns[j] == m;
        assert after[j] == m;
      }
    }
  }

  /** Marking a stored inbox entry read succeeds and takes exactly that entry
      out of the user's unread list; a transient entry is acknowledged. */
  lemma MarkInboxEntry(ns: seq<Notification>, leads: seq<Lead>, userId: nat, today: Date, e: Entry)
    requires NotificationIds(ns)
    requires e in Inbox(ns, leads, userId, today)
    ensures e.id.FollowUpId? ==> ReadReply(ns, userId, IdText(e.id)) == Acknowledged
    ensures e.id.StoredId? ==> ReadReply(ns, userId, IdText(e.id)) == MarkedRead
    ensures e.id.StoredId? ==>
      1 <= e.id.id <= |ns| &&
      forall n :: n in Unread(MarkRead(ns, e.id.id - 1), userId) <==> n in Unread(ns, userId) && n.id != e.id.id
  {
    ParseIdText(e.id);
    InboxContents(ns, leads, userId, today);
    if e.id.StoredId? {
      var n :| n in ns && n.user == userId && !n.isRead && e == StoredEntry(n);
      var j :| 0 <= j < |ns| && ns[j] == n;
      assert OwnedIndex(ns, userId, n.id) == Some(j);
      MarkReadUnread(ns, j, userId);
    }
  }

  /** `filter(user=u, is_read=False).update(is_read=True)`. */
  function AllRead(ns: seq<Notification>, userId: nat): (r: seq<Notification>)
    ensures |r| == |ns|
    ensures forall i :: 0 <= i < |ns| ==>
      r[i] == (if ns[i].user == userId && !ns[i].isRead then ns[i].(isRead := true) else ns[i])
  {
    if ns == [] then []
    else
      var n := ns[0];
      [if n.user == userId && !n.isRead then n.(isRead := true) else n] + AllRead(ns[1..], userId)
  }

  /** `mark_all_read`. */
  method MarkAllRead(db: Crm, user: Personnel)
    requires db.Valid()
    modifies db`notifications
    ensures db.Valid()
    ensures db.notifications == AllRead(old(db.notifications), user.id)
  {
    db.notifications := AllRead(db.notifications, user.id);
  }

  /** After marking all read the user has no unread notification, nobody
      else's unread list changes, and marking all read again changes nothing. */
  lemma {:induction false} AllReadUnread(ns: seq<Notification>, userId: nat, v: nat)
    ensures Unread(AllRead(ns, userId), v) == (if v == userId then [] else Unread(ns, v))
    ensures AllRead(AllRead(ns, userId), userId) == AllRead(ns, userId)
  {
    if ns != [] {
      AllReadUnread(ns[1..], userId, v);
      assert AllRead(ns, userId)[1..] == AllRead(ns[1..], userId);
    }
  }
}
