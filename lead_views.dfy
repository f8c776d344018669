/** The back end's request handlers that change leads and personnel: bulk
    status change, bulk soft deletion, logging a communication, creating a
    lead and deactivating a user. Each handler takes the authenticated user
    and the decoded request fields; responses are reduced to their kind. */
module LeadViews {
  import opened Basics
  import opened Models
  import opened Store
  import Scoring
  import Serializers
  import Text
  import AssignmentService

  // ---------------------------------------------------------------------
  // Bulk operations

  /** A row the bulk handlers act on: its id was sent, and the caller may
      edit it (`Lead.objects.filter(id__in=...)` keeps deleted rows). */
  predicate Requested(l: Lead, ids: seq<int>, u: Personnel)
  {
    l.id as int in ids && CanBeEditedBy(l, u)
  }

  /** How many rows of `leads` are requested. */
  function RequestedCount(leads: seq<Lead>, ids: seq<int>, u: Personnel): (n: nat)
    ensures n <= |leads|
  {
    if leads == [] then 0
    else RequestedCount(leads[..|leads| - 1], ids, u) + (if Requested(leads[|leads| - 1], ids, u) then 1 else 0)
  }

  /** The count is the size of the edit-permitted part of the queryset. */
  lemma {:induction false} RequestedCountIsFilter(leads: seq<Lead>, ids: seq<int>, u: Personnel)
    ensures RequestedCount(leads, ids, u) == |Filter(leads, (l: Lead) => Requested(l, ids, u))|
  {
    if leads != [] {
      var init := leads[..|leads| - 1];
      RequestedCountIsFilter(init, ids, u);
      assert init + [leads[|leads| - 1]] == leads;
      FilterSnoc(init, leads[|leads| - 1], (l: Lead) => Requested(l, ids, u));
    }
  }

  datatype BulkResponse = MissingInput | Done(count: nat)

  /** A row after `lead.status = status`, the optional progress, and `save()`. */
  function StatusWritten(l: Lead, status: string, progress: Option<int>): Lead
  {
    Save(if progress.Some? then l.(status := status, progress := progress.value) else l.(status := status))
  }

  function StatusRow(l: Lead, ids: seq<int>, u: Personnel, status: string, progress: Option<int>): Lead
  {
    if Requested(l, ids, u) then StatusWritten(l, status, progress) else l
  }

  /** The written row has the new status and differs in nothing but status
      and progress; for a live lead with a mapped status the supplied
      progress is overwritten by the map, and only for a deleted lead or an
      unmapped status does it survive. */
  lemma StatusWrittenFacts(l: Lead, status: string, progress: Option<int>)
    ensures StatusWritten(l, status, progress) ==
      l.(status := status, progress := StatusWritten(l, status, progress).progress)
    ensures !l.isDeleted && status in StatusChoices ==>
      StatusWritten(l, status, progress).progress == ProgressFor(status).value
    ensures (l.isDeleted || status !in StatusChoices) ==>
      StatusWritten(l, status, progress).progress == (if progress.Some? then progress.value else l.progress)
  {
  }

  /** `bulk_status_update`: without ids or without a status nothing happens;
      otherwise every requested row is written and counted. */
  method BulkStatusUpdate(db: Crm, user: Personnel, ids: seq<int>, status: Option<string>, progress: Option<int>)
    returns (resp: BulkResponse)
    requires db.Valid()
    modifies db`leads
    ensures db.Valid()
    ensures |db.leads| == |old(db.leads)|
    ensures ids == [] || !Supplied(status) ==> resp == MissingInput && db.leads == old(db.leads)
    ensures ids != [] && Supplied(status) ==>
      resp == Done(RequestedCount(old(db.leads), ids, user)) &&
      forall k :: 0 <= k < |db.leads| ==> db.leads[k] == StatusRow(old(db.leads)[k], ids, user, status.value, progress)
  {
    if ids == [] || !Supplied(status) {
      return MissingInput;
    }
    var count := 0;
    var j := 0;
    while j < |db.leads|
      invariant db.Valid()
      invariant 0 <= j <= |db.leads| == |old(db.leads)|
      invariant forall k :: 0 <= k < j ==> db.leads[k] == StatusRow(old(db.leads)[k], ids, user, status.value, progress)
      invariant forall k :: j <= k < |db.leads| ==> db.leads[k] == old(db.leads)[k]
      invariant count == RequestedCount(old(db.leads)[..j], ids, user)
    {
      assert old(db.leads)[..j + 1][..j] == old(db.leads)[..j];
      var lead := db.leads[j];
      if Requested(lead, ids, user) {
        var _ := db.SaveLead(if progress.Some? then lead.(status := status.value, progress := progress.value)
                             else lead.(status := status.value));
        count := count + 1;
      }
      j := j + 1;
    }
    assert old(db.leads)[..j] == old(db.leads);
    resp := Done(count);
  }

  function DeleteRow(l: Lead, ids: seq<int>, u: Personnel): Lead
  {
    if Requested(l, ids, u) then SoftDelete(l) else l
  }

  /** `bulk_delete`: without ids nothing happens; otherwise every requested
      row is soft-deleted and counted, rows that were already deleted
      included. */
  method BulkDelete(db: Crm, user: Personnel, ids: seq<int>) returns (resp: BulkResponse)
    requires db.Valid()
    modifies db`leads
    ensures db.Valid()
    ensures |db.leads| == |old(db.leads)|
    ensures ids == [] ==> resp == MissingInput && db.leads == old(db.leads)
    ensures ids != [] ==>
      resp == Done(RequestedCount(old(db.leads), ids, user)) &&
      forall k :: 0 <= k < |db.leads| ==> db.leads[k] == DeleteRow(old(db.leads)[k], ids, user)
  {
    if ids == [] {
      return MissingInput;
    }
    var count := 0;
    var j := 0;
    while j < |db.leads|
      invariant db.Valid()
      invariant 0 <= j <= |db.leads| == |old(db.leads)|
      invariant forall k :: 0 <= k < j ==> db.leads[k] == DeleteRow(old(db.leads)[k], ids, user)
      invariant forall k :: j <= k < |db.leads| ==> db.leads[k] == old(db.leads)[k]
      invariant count == RequestedCount(old(db.leads)[..j], ids, user)
    {
      assert old(db.leads)[..j + 1][..j] == old(db.leads)[..j];
      if Requested(db.leads[j], ids, user) {
        db.SoftDeleteLead(j + 1);
        count := count + 1;
      }
      j := j + 1;
    }
    assert old(db.leads)[..j] == old(db.leads);
    resp := Done(count);
  }

  /** After a bulk deletion, no requested row is reachable by anyone, and a
      repeated request changes nothing yet reports the same count. */
  lemma {:induction false} BulkDeleteRepeat(before: seq<Lead>, after: seq<Lead>, ids: seq<int>, u: Personnel, v: Personnel)
    requires |after| == |before|
    requires forall k :: 0 <= k < |before| ==> after[k] == DeleteRow(before[k], ids, u)
    ensures forall k :: 0 <= k < |before| && Requested(before[k], ids, u) ==> !InAccessibleQuery(after[k], v)
    ensures forall k :: 0 <= k < |after| ==> DeleteRow(after[k], ids, u) == after[k]
    ensures RequestedCount(after, ids, u) == RequestedCount(before, ids, u)
  {
    if before != [] {
      var n := |before| - 1;
      assert forall k :: 0 <= k < n ==> after[..n][k] == DeleteRow(before[..n][k], ids, u);
      BulkDeleteRepeat(before[..n], after[..n], ids, u, v);
      assert Requested(after[n], ids, u) == Requested(before[n], ids, u);
    }
  }

  // ---------------------------------------------------------------------
  // Logging a communication

  /** The `next_followup` field: absent or empty, a `%Y-%m-%d` date, or a
      string `strptime` refuses. */
  datatype FollowUpInput = NoFollowUp | Unparsable | OnDate(date: Date)

  datatype LogResponse = LeadNotFound | NoAccess | ServerError | Logged(lead: Lead)

  /** The in-memory lead after the view's own updates: last contact today,
      the new status if one was sent, the follow-up date, and the automatic
      move of a new lead to "contacted" (with progress 25) after any contact
      other than an e-mail when no status was sent. */
  function Contacted(l: Lead, kind: string, newStatus: Option<string>, followUp: FollowUpInput, today: Date): Lead
  {
    var touched := l.(lastContact := Some(today));
    var restated := if Supplied(newStatus) then touched.(status := newStatus.value) else touched;
    var scheduled := if followUp.OnDate? then restated.(followUp := Some(followUp.date)) else restated;
    if !Supplied(newStatus) && scheduled.status == "new" && kind != "email" then
      scheduled.(status := "contacted", progress := 25)
    else scheduled
  }

  /** The row `log_communication` writes for the lead `l` that had `count`
      communications before. */
  function LoggedRow(l: Lead, count: nat, kind: string, newStatus: Option<string>, followUp: FollowUpInput, today: Date): Lead
  {
    Save(Contacted(Scored(l, count + 1, today), kind, newStatus, followUp, today))
  }

  /** The effect on the row: the last contact is today, a sent status is
      taken, a new lead contacted by anything but e-mail becomes
      "contacted" at 25, and the fields the view does not touch keep their
      values. The score is taken before the last contact moves to today. */
  lemma LoggedRowFacts(l: Lead, count: nat, kind: string, newStatus: Option<string>, followUp: FollowUpInput, today: Date)
    ensures LoggedRow(l, count, kind, newStatus, followUp, today).lastContact == Some(today)
    ensures LoggedRow(l, count, kind, newStatus, followUp, today).qualityScore == Scoring.Score(l, count + 1, today)
    ensures Supplied(newStatus) ==> LoggedRow(l, count, kind, newStatus, followUp, today).status == newStatus.value
    ensures !Supplied(newStatus) && l.status == "new" && kind != "email" ==>
      LoggedRow(l, count, kind, newStatus, followUp, today).status == "contacted" &&
      LoggedRow(l, count, kind, newStatus, followUp, today).progress == 25
    ensures !Supplied(newStatus) && (l.status != "new" || kind == "email") ==>
      LoggedRow(l, count, kind, newStatus, followUp, today).status == l.status
    ensures followUp.OnDate? ==> LoggedRow(l, count, kind, newStatus, followUp, today).followUp == Some(followUp.date)
    ensures !followUp.OnDate? ==> LoggedRow(l, count, kind, newStatus, followUp, today).followUp == l.followUp
    ensures LoggedRow(l, count, kind, newStatus, followUp, today) ==
      l.(lastContact := Some(today), qualityScore := Scoring.Score(l, count + 1, today),
         status := LoggedRow(l, count, kind, newStatus, followUp, today).status,
         followUp := LoggedRow(l, count, kind, newStatus, followUp, today).followUp,
         progress := LoggedRow(l, count, kind, newStatus, followUp, today).progress)
  {
  }

  /** A sent status the save override cannot map leaves the progress the
      hook's save derived from the old status: the hook remaps the in-memory
      instance before the view changes its status. */
  lemma UnmappedStatusKeepsOldProgress(l: Lead, count: nat, kind: string, s: string, followUp: FollowUpInput, today: Date)
    requires s != "" && s !in StatusChoices && !l.isDeleted && l.status in StatusChoices
    ensures LoggedRow(l, count, kind, Some(s), followUp, today).progress == ProgressFor(l.status).value
  {
  }

  /** `log_communication`. A missing lead gives 404 and a lead the caller may
      not view 403, both before anything is written. A request without a
      type or a note (`None`) then fails: the communication row cannot be
      inserted with a null column, and nothing is written. Otherwise the
      communication row is created (with its hook, which writes the score
      and may notify the assignee); an unparsable follow-up date then
      fails the request with the communication already stored, and
      otherwise the updated lead is saved. */
  method LogCommunication(db: Crm, user: Personnel, leadId: Option<int>, kind: Option<string>, note: Option<string>,
                          newStatus: Option<string>, followUp: FollowUpInput, today: Date)
    returns (resp: LogResponse)
    requires db.Valid()
    modifies db`leads, db`communications, db`notifications
    ensures db.Valid()
    ensures resp.LeadNotFound? <==> leadId.None? || LeadIndex(old(db.leads), leadId.value).None?
    ensures resp.NoAccess? <==>
      leadId.Some? && LeadIndex(old(db.leads), leadId.value).Some? && !CanBeViewedBy(old(db.leads)[leadId.value - 1], user)
    ensures resp.LeadNotFound? || resp.NoAccess? || kind.None? || note.None? ==>
      db.leads == old(db.leads) && db.communications == old(db.communications) && db.notifications == old(db.notifications)
    ensures resp.ServerError? <==>
      !resp.LeadNotFound? && !resp.NoAccess? && (kind.None? || note.None? || followUp == Unparsable)
    ensures resp.Logged? ==> kind.Some? && note.Some?
    ensures (resp.ServerError? || resp.Logged?) && kind.Some? && note.Some? ==>
      ContactStored(old(db.communications), old(db.notifications), db.communications, db.notifications,
        old(db.leads)[leadId.value - 1], user, kind.value, note.value, today) &&
      RowWritten(old(db.leads), db.leads, old(db.leads)[leadId.value - 1],
        CommunicationCount(old(db.communications), leadId.value), kind.value, newStatus, followUp, today, resp)
  {
    if leadId.None? || LeadIndex(db.leads, leadId.value).None? {
      return LeadNotFound;
    }
    var lead := db.leads[leadId.value - 1];
    assert lead.id == leadId.value;
    if !CanBeViewedBy(lead, user) {
      return NoAccess;
    }
    if kind.None? || note.None? {
      return ServerError;
    }
    resp := RecordContact(db, lead, user, kind.value, note.value, newStatus, followUp, today);
  }

  /** The rows a contact with the lead `l` adds: one communication, and its
      hook's notification of the assignee. */
  predicate ContactStored(communications: seq<Communication>, notifications: seq<Notification>,
                          communications': seq<Communication>, notifications': seq<Notification>,
                          l: Lead, user: Personnel, kind: string, note: string, today: Date)
  {
    communications' == communications + [Communication(|communications| + 1, l.id, kind, note, user.id, today)] &&
    notifications' == notifications +
      ActivityNotices(|notifications| + 1, l.id, l.assignedTo, l.company, kind, user, |communications| + 1)
  }

  /** What a contact with the lead `l`, which had `count` communications,
      does to the lead table: either only the score written (the follow-up
      date did not parse) or the whole updated row saved. */
  predicate RowWritten(leads: seq<Lead>, leads': seq<Lead>, l: Lead, count: nat, kind: string,
                       newStatus: Option<string>, followUp: FollowUpInput, today: Date, resp: LogResponse)
    requires 1 <= l.id <= |leads|
  {
    (resp.ServerError? ==>
      leads' == leads[l.id - 1 := leads[l.id - 1].(qualityScore := Scored(l, count + 1, today).qualityScore)]) &&
    (resp.Logged? ==>
      resp.lead == LoggedRow(l, count, kind, newStatus, followUp, today) && leads' == leads[l.id - 1 := resp.lead])
  }

  /** The part of `log_communication` after the checks, for the stored lead `lead`. */
  method RecordContact(db: Crm, lead: Lead, user: Personnel, kind: string, note: string,
                       newStatus: Option<string>, followUp: FollowUpInput, today: Date)
    returns (resp: LogResponse)
    requires db.Valid() && 1 <= lead.id <= |db.leads| && db.leads[lead.id - 1] == lead
    modifies db`leads, db`communications, db`notifications
    ensures db.Valid()
    ensures resp.ServerError? <==> followUp == Unparsable
    ensures resp.ServerError? || resp.Logged?
    ensures ContactStored(old(db.communications), old(db.notifications), db.communications, db.notifications,
      lead, user, kind, note, today)
    ensures RowWritten(old(db.leads), db.leads, lead, CommunicationCount(old(db.communications), lead.id),
      kind, newStatus, followUp, today, resp)
  {
    ghost var stored, count := db.leads, CommunicationCount(db.communications, lead.id);
    var inMemory := db.CreateCommunication(lead, kind, note, user, today);
    resp := SaveContact(db, stored, lead, count, inMemory, kind, newStatus, followUp, today);
  }

  /** The view's own updates on the in-memory lead, then `lead.save()`; an
      unparsable follow-up date raises before the save. Here `stored` is the
      lead table before the communication's hook wrote the score. */
  method SaveContact(db: Crm, ghost stored: seq<Lead>, ghost l: Lead, ghost count: nat, inMemory: Lead, kind: string,
                     newStatus: Option<string>, followUp: FollowUpInput, today: Date)
    returns (resp: LogResponse)
    requires db.Valid() && 1 <= l.id <= |stored| && inMemory == Scored(l, count + 1, today)
    requires db.leads == stored[l.id - 1 := stored[l.id - 1].(qualityScore := inMemory.qualityScore)]
    modifies db`leads
    ensures db.Valid()
    ensures resp.ServerError? <==> followUp == Unparsable
    ensures resp.ServerError? || resp.Logged?
    ensures RowWritten(stored, db.leads, l, count, kind, newStatus, followUp, today, resp)
  {
    if followUp == Unparsable {
      return ServerError;
    }
    var saved := db.SaveLead(Contacted(inMemory, kind, newStatus, followUp, today));
    resp := Logged(saved);
    assert db.leads == stored[l.id - 1 := saved];
  }

  // ---------------------------------------------------------------------
  // Creating a lead

  datatype CreateResponse =
    | UnknownReference
    | Invalid(error: Serializers.LeadError)
    | WrongDivision
    | Created(lead: Lead)

  /** The product and assignee ids of the request name rows (otherwise the
      related fields refuse the request before `validate` runs). */
  predicate ReferencesResolve(products: seq<Product>, personnel: seq<Personnel>, draft: Lead)
    requires ProductIds(products) && PersonnelIds(personnel)
  {
    (draft.product.None? || ProductById(products, draft.product.value).Some?) &&
    (draft.assignedTo.None? || PersonById(personnel, draft.assignedTo.value).Some?)
  }

  function DraftProduct(products: seq<Product>, draft: Lead): Option<Product>
    requires ProductIds(products)
  {
    if draft.product.Some? then ProductById(products, draft.product.value) else None
  }

  /** The verdict of the create serializer on `draft`. */
  function CreateCheck(db_products: seq<Product>, leads: seq<Lead>, draft: Lead): Serializers.Checked
    requires ProductIds(db_products)
  {
    Serializers.Validate(Serializers.CreateAttrs(draft, DraftProduct(db_products, draft)), None, leads)
  }

  /** Someone outside the view-all roles may create leads only in their own division. */
  predicate DivisionAllowed(user: Personnel, draft: Lead)
  {
    CanViewAllLeads(user) || user.division == Some(draft.division)
  }

  /** `create_lead` for the request that describes `draft` (its id is
      ignored). After validation, a caller outside the view-all roles gets
      403 for another division's lead. The created row records its creator,
      and an assignee given at creation gets an "Initial assignment" row and
      its notification. */
  method CreateLead(db: Crm, user: Personnel, draft: Lead, today: Date) returns (resp: CreateResponse)
    requires db.Valid()
    modifies db`leads, db`assignments, db`notifications
    ensures db.Valid()
    ensures !ReferencesResolve(db.products, db.personnel, draft) ==> resp == UnknownReference
    ensures ReferencesResolve(db.products, db.personnel, draft) && CreateCheck(db.products, old(db.leads), draft).Rejected? ==>
      resp == Invalid(CreateCheck(db.products, old(db.leads), draft).error)
    ensures resp == WrongDivision <==>
      ReferencesResolve(db.products, db.personnel, draft) && CreateCheck(db.products, old(db.leads), draft).Accepted? &&
      !DivisionAllowed(user, draft)
    ensures !resp.Created? ==>
      db.leads == old(db.leads) && db.assignments == old(db.assignments) && db.notifications == old(db.notifications)
    ensures resp.Created? ==>
      resp.lead == Save(draft.(id := |old(db.leads)| + 1, createdBy := Some(user.id))) &&
      db.leads == old(db.leads) + [resp.lead] && DivisionAllowed(user, draft)
    ensures resp.Created? && draft.assignedTo.Some? ==>
      db.assignments == old(db.assignments) +
        [Assignment(|old(db.assignments)| + 1, resp.lead.id, None, draft.assignedTo.value, Some(user.id), "Initial assignment", today)] &&
      db.notifications == old(db.notifications) +
        [Notification(|old(db.notifications)| + 1, draft.assignedTo.value, AssignmentMessage(draft.company), Some(resp.lead.id),
          "assignment", false, AssignmentRef(|old(db.assignments)| + 1))]
    ensures resp.Created? && draft.assignedTo.None? ==>
      db.assignments == old(db.assignments) && db.notifications == old(db.notifications)
  {
    if !ReferencesResolve(db.products, db.personnel, draft) {
      return UnknownReference;
    }
    var verdict := CreateCheck(db.products, db.leads, draft);
    if verdict.Rejected? {
      return Invalid(verdict.error);
    }
    if !DivisionAllowed(user, draft) {
      return WrongDivision;
    }
    var lead := db.InsertLead(draft.(createdBy := Some(user.id)));
    if lead.assignedTo.Some? {
      db.CreateAssignment(lead, None, lead.assignedTo.value, Some(user.id), "Initial assignment", today);
    }
    resp := Created(lead);
  }

  /** A lead that is created never repeats a company already stored (after
      stripping and up to case), and when its status is a known one it
      starts with that status's progress. */
  lemma CreatedLeadIsNew(products: seq<Product>, leads: seq<Lead>, draft: Lead)
    requires ProductIds(products)
    requires CreateCheck(products, leads, draft).Accepted? && draft.company != ""
    ensures forall i :: 0 <= i < |leads| ==>
      Text.Lower(leads[i].company) != Text.Lower(Text.Trim(draft.company, Text.Py))
    ensures !draft.isDeleted && draft.status in StatusChoices ==>
      Save(draft).progress == ProgressFor(draft.status).value
  {
  }

  // ---------------------------------------------------------------------
  // Deactivating personnel

  datatype PersonnelResponse = AdminOnly | UserNotFound | CannotDeleteSelf | Deactivated

  function Deactivate(p: Personnel): Personnel
  {
    p.(isActivePersonnel := false, isActive := false)
  }

  /** `delete_personnel`: admins only, then 404 for an unknown id, then the
      caller's own account is refused; otherwise the account is disabled
      for login and for assignment, and nothing is deleted. */
  method DeletePersonnel(db: Crm, user: Personnel, userId: int) returns (resp: PersonnelResponse)
    requires db.Valid()
    modifies db`personnel
    ensures db.Valid()
    ensures !CanViewAllLeads(user) ==> resp == AdminOnly
    ensures CanViewAllLeads(user) && PersonById(old(db.personnel), userId).None? ==> resp == UserNotFound
    ensures resp == CannotDeleteSelf <==>
      CanViewAllLeads(user) && PersonById(old(db.personnel), userId).Some? && userId == user.id
    ensures resp == Deactivated <==>
      CanViewAllLeads(user) && PersonById(old(db.personnel), userId).Some? && userId != user.id
    ensures resp != Deactivated ==> db.personnel == old(db.personnel)
    ensures resp == Deactivated ==> db.personnel == old(db.personnel)[userId - 1 := Deactivate(old(db.personnel)[userId - 1])]
  {
    if !CanViewAllLeads(user) {
      return AdminOnly;
    }
    var person := PersonById(db.personnel, userId);
    if person.None? {
      return UserNotFound;
    }
    if person.value.id == user.id {
      return CannotDeleteSelf;
    }
    db.personnel := db.personnel[userId - 1 := Deactivate(person.value)];
    resp := Deactivated;
  }

  /** A deactivated account can no longer log in, and is no candidate for
      the bulk-assignment strategies that draw on the active pool. */
  lemma DeactivatedIsOut(p: Personnel, personnel: seq<Personnel>, username: string, password: string,
                          authenticate: (string, string) -> Option<Personnel>)
    requires username != "" && password != "" && authenticate(username, password) == Some(Deactivate(p))
    ensures Serializers.ValidateLogin(Some(username), Some(password), authenticate) ==
      Serializers.LoginRejected(Serializers.AccountDisabled)
    ensures Deactivate(p) !in AssignmentService.ActivePool(personnel)
  {
  }
}
