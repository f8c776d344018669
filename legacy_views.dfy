/** The views of the earlier back end that change leads: every one of them
    keeps the personnel `workload` counters in step by hand. The model's
    central invariant is `CountersMatch`: each counter equals the number of
    leads assigned to its person. Every view below keeps it. */
module LegacyViews {
  import opened Basics
  import opened LegacyModels
  import Models
  import LeadViews
  import AssignmentService

  // ---------------------------------------------------------------------
  // Tables

  /** Lead rows are kept in id order, with ids from 1 below the next id
      the table hands out. */
  predicate LeadKeys(leads: seq<Lead>, next: nat)
  {
    (forall i :: 0 <= i < |leads| ==> 1 <= leads[i].id < next) &&
    (forall i, j :: 0 <= i < j < |leads| ==> leads[i].id < leads[j].id)
  }

  /** Every assignee is a personnel row. */
  predicate AssigneesExist(leads: seq<Lead>, n: nat)
  {
    forall i :: 0 <= i < |leads| ==> (leads[i].assignedTo.Some? ==> 1 <= leads[i].assignedTo.value <= n)
  }

  /** Two personnel tables that differ at most in their counters. */
  predicate OnlyWorkloads(a: seq<Person>, b: seq<Person>)
  {
    |a| == |b| && forall i :: 0 <= i < |a| ==> b[i] == a[i].(workload := b[i].workload)
  }

  /** `Lead.objects.get(id=...)`: the row holding the id, if any. */
  function LeadIndex(leads: seq<Lead>, id: Option<int>): (r: Option<nat>)
    ensures r.Some? ==> id.Some? && r.value < |leads| && leads[r.value].id == id.value
    ensures r.None? <==> id.None? || forall i :: 0 <= i < |leads| ==> leads[i].id != id.value
  {
    if id.None? || leads == [] then None
    else if leads[|leads| - 1].id == id.value then Some(|leads| - 1)
    else LeadIndex(leads[..|leads| - 1], id)
  }

  /** `Personnel.objects.get(id=...)`. */
  function PersonById(personnel: seq<Person>, id: Option<int>): (r: Option<Person>)
    requires PersonIds(personnel)
    ensures r.Some? <==> id.Some? && 1 <= id.value <= |personnel|
    ensures r.Some? ==> r.value == personnel[id.value - 1] && r.value.id == id.value
    ensures r.None? ==> forall i :: 0 <= i < |personnel| ==> Some(personnel[i].id as int) != id
  {
    if id.Some? && 1 <= id.value <= |personnel| then Some(personnel[id.value - 1]) else None
  }

  /** Rows whose lead is not `id`: what the `CASCADE` on the lead leaves. */
  function AssignmentsWithout(t: seq<Assignment>, id: nat): (r: seq<Assignment>)
    ensures forall a :: a in r <==> a in t && a.lead != id
  {
    if t == [] then []
    else AssignmentsWithout(t[..|t| - 1], id) + (if t[|t| - 1].lead == id then [] else [t[|t| - 1]])
  }

  function CommunicationsWithout(t: seq<Communication>, id: nat): (r: seq<Communication>)
    ensures forall c :: c in r <==> c in t && c.lead != id
  {
    if t == [] then []
    else CommunicationsWithout(t[..|t| - 1], id) + (if t[|t| - 1].lead == id then [] else [t[|t| - 1]])
  }

  class LegacyDb {
    var leads: seq<Lead>
    var personnel: seq<Person>
    var assignments: seq<Assignment>
    var communications: seq<Communication>
    var nextLeadId: nat

    ghost predicate Valid()
      reads this
    {
      PersonIds(personnel) && nextLeadId >= 1 && LeadKeys(leads, nextLeadId) &&
      AssigneesExist(leads, |personnel|) && CountersNonNegative(personnel)
    }

    constructor (staff: seq<Person>)
      requires PersonIds(staff) && CountersNonNegative(staff)
      ensures Valid()
      ensures personnel == staff && leads == [] && assignments == [] && communications == [] && nextLeadId == 1
    {
      personnel := staff;
      leads := [];
      assignments := [];
      communications := [];
      nextLeadId := 1;
    }

    /** `serializer.save()` of a new lead: it gets the next id. */
    method InsertLead(l: Lead) returns (lead: Lead)
      requires Valid()
      requires l.assignedTo.Some? ==> 1 <= l.assignedTo.value <= |personnel|
      modifies this`leads, this`nextLeadId
      ensures Valid()
      ensures lead == l.(id := old(nextLeadId)) && leads == old(leads) + [lead]
      ensures nextLeadId == old(nextLeadId) + 1
    {
      lead := l.(id := nextLeadId);
      ghost var before := leads;
      leads := leads + [lead];
      assert forall i :: 0 <= i < |before| ==> leads[i] == before[i];
      nextLeadId := nextLeadId + 1;
    }

    /** `lead.save()` of a row whose assignee stays the same. */
    method SaveLead(k: nat, l: Lead)
      requires Valid() && k < |leads| && l.id == leads[k].id && l.assignedTo == leads[k].assignedTo
      modifies this`leads
      ensures Valid()
      ensures leads == old(leads)[k := l]
      ensures old(CountersMatch(personnel, leads)) ==> CountersMatch(personnel, leads)
    {
      if CountersMatch(personnel, leads) {
        forall i | 0 <= i < |personnel| ensures personnel[i].workload == Assigned(leads[k := l], i + 1) {
          AssignedUpdate(leads, k, l, i + 1);
        }
      }
      leads := leads[k := l];
    }

    /** `lead.save()` of a row with a new assignee, then the old holder's
        counter down by one (not below 0) and the new holder's up by one,
        each on its current row. */
    method MoveLead(k: nat, l: Lead)
      requires Valid() && k < |leads| && l.id == leads[k].id
      requires l.assignedTo.Some? ==> 1 <= l.assignedTo.value <= |personnel|
      modifies this`leads, this`personnel
      ensures Valid()
      ensures leads == old(leads)[k := l]
      ensures personnel == Transfer(old(personnel), old(leads)[k].assignedTo, l.assignedTo)
      ensures OnlyWorkloads(old(personnel), personnel)
      ensures old(CountersMatch(personnel, leads)) ==> CountersMatch(personnel, leads)
    {
      var from := leads[k].assignedTo;
      TransferKeepsNonNegative(personnel, from, l.assignedTo);
      if CountersMatch(personnel, leads) {
        TransferKeepsCounters(personnel, leads, k, l);
      }
      leads := leads[k := l];
      if from.Some? {
        personnel := Decremented(personnel, from.value);
      }
      if l.assignedTo.Some? {
        personnel := Incremented(personnel, l.assignedTo.value);
      }
    }

    /** `assigned_to.workload += 1; save()`. */
    method Increment(pid: nat)
      requires Valid() && 1 <= pid <= |personnel|
      modifies this`personnel
      ensures Valid()
      ensures personnel == Incremented(old(personnel), pid)
    {
      personnel := Incremented(personnel, pid);
    }

    /** `workload = max(0, workload - 1); save()`. */
    method Decrement(pid: nat)
      requires Valid() && 1 <= pid <= |personnel|
      modifies this`personnel
      ensures Valid()
      ensures personnel == Decremented(old(personnel), pid)
    {
      personnel := Decremented(personnel, pid);
    }

    /** `lead.delete()`, with the lead's assignments and communications. */
    method RemoveLead(k: nat)
      requires Valid() && k < |leads|
      modifies this`leads, this`assignments, this`communications
      ensures Valid()
      ensures leads == old(leads[..k] + leads[k + 1..])
      ensures assignments == AssignmentsWithout(old(assignments), old(leads)[k].id)
      ensures communications == CommunicationsWithout(old(communications), old(leads)[k].id)
    {
      var id := leads[k].id;
      ghost var before := leads;
      leads := leads[..k] + leads[k + 1..];
      assert forall i :: 0 <= i < |leads| ==> leads[i] == before[if i < k then i else i + 1];
      assignments := AssignmentsWithout(assignments, id);
      communications := CommunicationsWithout(communications, id);
    }

    method AddAssignment(a: Assignment)
      modifies this`assignments
      ensures assignments == old(assignments) + [a]
    {
      assignments := assignments + [a];
    }

    method AddCommunication(c: Communication)
      modifies this`communications
      ensures communications == old(communications) + [c]
    {
      communications := communications + [c];
    }
  }

  /** What a legacy view answers. */
  datatype Response =
    | BadRequest
    | Forbidden
    | NotFound
    | ServerError
    | LeadBody(lead: Lead)
    | Removed
    | AssignedCount(count: nat)

  /** What the lead serializer accepts: a valid payload whose assignee, if
      any, is a personnel row. */
  predicate Acceptable(personnel: seq<Person>, validated: Option<Lead>)
  {
    validated.Some? &&
    (validated.value.assignedTo.Some? ==> 1 <= validated.value.assignedTo.value <= |personnel|)
  }

  // ---------------------------------------------------------------------
  // create_lead, update_lead, delete_lead

  /** `create_lead`. An invalid payload gets 400; a user who cannot see all
      leads gets 403 for a division other than their own; otherwise the lead
      is stored under the next id, and when it has an assignee an "Initial
      assignment" record is written and the assignee's counter rises. */
  method CreateLead(db: LegacyDb, user: Person, validated: Option<Lead>) returns (resp: Response)
    requires db.Valid()
    modifies db
    ensures db.Valid()
    ensures old(CountersMatch(db.personnel, db.leads)) ==> CountersMatch(db.personnel, db.leads)
    ensures resp == BadRequest <==> !Acceptable(old(db.personnel), validated)
    ensures resp == Forbidden <==>
      Acceptable(old(db.personnel), validated) && !CanViewAllLeads(user) && Some(validated.value.division) != user.division
    ensures !resp.LeadBody? ==> unchanged(db)
    ensures resp.LeadBody? ==>
      resp.lead == validated.value.(id := old(db.nextLeadId)) &&
      db.leads == old(db.leads) + [resp.lead] &&
      db.communications == old(db.communications) &&
      (resp.lead.assignedTo.None? ==> db.personnel == old(db.personnel) && db.assignments == old(db.assignments)) &&
      (resp.lead.assignedTo.Some? ==>
        db.personnel == Incremented(old(db.personnel), resp.lead.assignedTo.value) &&
        db.assignments == old(db.assignments) + [Assignment(resp.lead.id, None, resp.lead.assignedTo.value, user.id, "Initial assignment")])
  {
    if !Acceptable(db.personnel, validated) {
      return BadRequest;
    }
    if !CanViewAllLeads(user) && Some(validated.value.division) != user.division {
      return Forbidden;
    }
    ghost var matched := CountersMatch(db.personnel, db.leads);
    ghost var before := db.leads;
    var lead := db.InsertLead(validated.value);
    if matched {
      InsertKeepsCounters(db.personnel, before, lead);
    }
    if lead.assignedTo.Some? {
      db.AddAssignment(Assignment(lead.id, None, lead.assignedTo.value, user.id, "Initial assignment"));
      db.Increment(lead.assignedTo.value);
    }
    resp := LeadBody(lead);
  }

  /** `update_lead`. 404 for a missing lead, 403 when the user may not edit
      it, 400 for a payload the serializer refuses; otherwise the edited lead
      is saved, and when its assignee changed the counters move from the old
      holder to the new one, with a "Lead edited" record when there is a new
      assignee. Removing the assignee is the intended behaviour: the old
      holder's counter drops and no record is written, where the code as
      written fails first (`UnassignAsWritten`). */
  method UpdateLead(db: LegacyDb, user: Person, leadId: int, patched: Option<Lead>) returns (resp: Response)
    requires db.Valid()
    modifies db
    ensures db.Valid()
    ensures old(CountersMatch(db.personnel, db.leads)) ==> CountersMatch(db.personnel, db.leads)
    ensures resp == NotFound <==> LeadIndex(old(db.leads), Some(leadId)).None?
    ensures resp == Forbidden <==>
      LeadIndex(old(db.leads), Some(leadId)).Some? && !CanBeEditedBy(old(db.leads)[LeadIndex(old(db.leads), Some(leadId)).value], user)
    ensures resp == BadRequest <==>
      LeadIndex(old(db.leads), Some(leadId)).Some? && CanBeEditedBy(old(db.leads)[LeadIndex(old(db.leads), Some(leadId)).value], user) &&
      !Acceptable(old(db.personnel), patched)
    ensures !resp.LeadBody? ==> unchanged(db)
    ensures resp.LeadBody? ==>
      var k := LeadIndex(old(db.leads), Some(leadId)).value;
      var from := old(db.leads)[k].assignedTo;
      resp.lead == patched.value.(id := leadId) &&
      db.leads == old(db.leads)[k := resp.lead] &&
      db.personnel == (if from == resp.lead.assignedTo then old(db.personnel) else Transfer(old(db.personnel), from, resp.lead.assignedTo)) &&
      db.communications == old(db.communications) &&
      db.assignments == old(db.assignments) +
        (if from != resp.lead.assignedTo && resp.lead.assignedTo.Some?
         then [Assignment(leadId, from, resp.lead.assignedTo.value, user.id, "Lead edited")] else [])
  {
    var found := LeadIndex(db.leads, Some(leadId));
    if found.None? {
      return NotFound;
    }
    var k := found.value;
    var lead := db.leads[k];
    if !CanBeEditedBy(lead, user) {
      return Forbidden;
    }
    if !Acceptable(db.personnel, patched) {
      return BadRequest;
    }
    var oldAssignedTo := lead.assignedTo;
    var saved := patched.value.(id := lead.id);
    if oldAssignedTo == saved.assignedTo {
      db.SaveLead(k, saved);
    } else {
      db.MoveLead(k, saved);
      if saved.assignedTo.Some? {
        db.AddAssignment(Assignment(saved.id, oldAssignedTo, saved.assignedTo.value, user.id, "Lead edited"));
      }
    }
    resp := LeadBody(saved);
  }

  /** What `update_lead` does as written when an edit removes the assignee:
      the lead is saved, then the assignment record with no target is refused
      by the schema and the request fails before either counter is touched. */
  function UnassignAsWritten(personnel: seq<Person>, leads: seq<Lead>, k: nat, l: Lead): (r: (seq<Person>, seq<Lead>))
    requires k < |leads|
    ensures r.0 == personnel && r.1 == leads[k := l]
  {
    (personnel, leads[k := l])
  }

  /** Unassigning by edit as written leaves the old holder's counter one
      above the number of leads they still hold. */
  lemma UnassignDrift(personnel: seq<Person>, leads: seq<Lead>, k: nat, l: Lead)
    requires CountersMatch(personnel, leads) && k < |leads|
    requires leads[k].assignedTo.Some? && 1 <= leads[k].assignedTo.value <= |personnel|
    requires l.assignedTo.None?
    ensures UnassignAsWritten(personnel, leads, k, l).0[leads[k].assignedTo.value - 1].workload ==
            Assigned(UnassignAsWritten(personnel, leads, k, l).1, leads[k].assignedTo.value) + 1
    ensures !CountersMatch(UnassignAsWritten(personnel, leads, k, l).0, UnassignAsWritten(personnel, leads, k, l).1)
  {
    AssignedUpdate(leads, k, l, leads[k].assignedTo.value);
  }

  /** `delete_lead`. 404 for a missing lead, 403 when the user may not edit
      it; otherwise the holder's counter drops (not below 0) and the lead is
      deleted with its assignments and communications. */
  method DeleteLead(db: LegacyDb, user: Person, leadId: int) returns (resp: Response)
    requires db.Valid()
    modifies db
    ensures db.Valid()
    ensures old(CountersMatch(db.personnel, db.leads)) ==> CountersMatch(db.personnel, db.leads)
    ensures resp == NotFound <==> LeadIndex(old(db.leads), Some(leadId)).None?
    ensures resp == Forbidden <==>
      LeadIndex(old(db.leads), Some(leadId)).Some? && !CanBeEditedBy(old(db.leads)[LeadIndex(old(db.leads), Some(leadId)).value], user)
    ensures resp != Removed ==> unchanged(db)
    ensures resp == Removed ==>
      var k := LeadIndex(old(db.leads), Some(leadId)).value;
      db.leads == old(db.leads[..k] + db.leads[k + 1..]) &&
      (forall l :: l in db.leads <==> l in old(db.leads) && l.id != leadId) &&
      db.personnel == Transfer(old(db.personnel), old(db.leads)[k].assignedTo, None) &&
      db.assignments == AssignmentsWithout(old(db.assignments), leadId) &&
      db.communications == CommunicationsWithout(old(db.communications), leadId)
  {
    var found := LeadIndex(db.leads, Some(leadId));
    if found.None? {
      return NotFound;
    }
    var k := found.value;
    var lead := db.leads[k];
    if !CanBeEditedBy(lead, user) {
      return Forbidden;
    }
    ghost var before := db.leads;
    if CountersMatch(db.personnel, db.leads) {
      RemoveKeepsCounters(db.personnel, db.leads, k);
    }
    if lead.assignedTo.Some? {
      db.Decrement(lead.assignedTo.value);
    }
    db.RemoveLead(k);
    RemovedMembers(before, db.nextLeadId, k);
    resp := Removed;
  }

  /** Ids are unique, so removing row `k` removes exactly the lead of that
      id. */
  lemma RemovedMembers(leads: seq<Lead>, next: nat, k: nat)
    requires LeadKeys(leads, next) && k < |leads|
    ensures forall l :: l in leads[..k] + leads[k + 1..] <==> l in leads && l.id != leads[k].id
  {
    var rest := leads[..k] + leads[k + 1..];
    forall l ensures l in rest <==> l in leads && l.id != leads[k].id {
      if l in leads && l.id != leads[k].id {
        var j :| 0 <= j < |leads| && leads[j] == l;
        assert rest[if j < k then j else j - 1] == l;
      }
      if l in rest {
        var j :| 0 <= j < |rest| && rest[j] == l;
        assert l == leads[if j < k then j else j + 1];
      }
    }
  }

  // ---------------------------------------------------------------------
  // log_communication

  /** The lead `log_communication` saves: last contact today, a sent status
      with its progress from the fixed map, the follow-up date, and the move
      of a new lead to "contacted" at 25 after any contact other than an
      e-mail when no status was sent. */
  function LoggedLead(l: Lead, kind: string, newStatus: Option<string>, followUp: LeadViews.FollowUpInput, today: Models.Date): Lead
  {
    var touched := l.(lastContact := Some(today));
    var restated := if Supplied(newStatus) then touched.(status := newStatus.value, progress := StatusProgress(newStatus.value)) else touched;
    var scheduled := if followUp.OnDate? then restated.(followUp := Some(followUp.date)) else restated;
    if !Supplied(newStatus) && scheduled.status == "new" && kind != "email" then
      scheduled.(status := "contacted", progress := 25)
    else scheduled
  }

  /** The effect on the row: only the last contact, the status, the
      progress and the follow-up date can change; a sent status always comes
      with its mapped progress; and the assignee never changes, so the
      counters are left alone. */
  lemma LoggedLeadFacts(l: Lead, kind: string, newStatus: Option<string>, followUp: LeadViews.FollowUpInput, today: Models.Date)
    ensures LoggedLead(l, kind, newStatus, followUp, today).lastContact == Some(today)
    ensures Supplied(newStatus) ==>
      LoggedLead(l, kind, newStatus, followUp, today).status == newStatus.value &&
      LoggedLead(l, kind, newStatus, followUp, today).progress == StatusProgress(newStatus.value)
    ensures !Supplied(newStatus) && l.status == "new" && kind != "email" ==>
      LoggedLead(l, kind, newStatus, followUp, today).status == "contacted" &&
      LoggedLead(l, kind, newStatus, followUp, today).progress == 25
    ensures !Supplied(newStatus) && (l.status != "new" || kind == "email") ==>
      LoggedLead(l, kind, newStatus, followUp, today).status == l.status &&
      LoggedLead(l, kind, newStatus, followUp, today).progress == l.progress
    ensures followUp.OnDate? ==> LoggedLead(l, kind, newStatus, followUp, today).followUp == Some(followUp.date)
    ensures !followUp.OnDate? ==> LoggedLead(l, kind, newStatus, followUp, today).followUp == l.followUp
    ensures LoggedLead(l, kind, newStatus, followUp, today) ==
      l.(lastContact := Some(today),
         status := LoggedLead(l, kind, newStatus, followUp, today).status,
         progress := LoggedLead(l, kind, newStatus, followUp, today).progress,
         followUp := LoggedLead(l, kind, newStatus, followUp, today).followUp)
  {
  }

  /** `log_communication`. 404 for a missing lead, 403 when the user may not
      view it; a request without a type or a note (`None`) then fails with
      nothing written, since neither column takes a null. Otherwise the
      communication is stored, then an unparsable follow-up date fails the
      request with the communication kept, and otherwise the updated lead
      is saved. */
  method LogCommunication(db: LegacyDb, user: Person, leadId: Option<int>, kind: Option<string>, note: Option<string>,
                          newStatus: Option<string>, followUp: LeadViews.FollowUpInput, today: Models.Date)
    returns (resp: Response)
    requires db.Valid()
    modifies db
    ensures db.Valid()
    ensures old(CountersMatch(db.personnel, db.leads)) ==> CountersMatch(db.personnel, db.leads)
    ensures db.personnel == old(db.personnel) && db.assignments == old(db.assignments)
    ensures resp == NotFound <==> LeadIndex(old(db.leads), leadId).None?
    ensures resp == Forbidden <==>
      LeadIndex(old(db.leads), leadId).Some? && !CanBeViewedBy(old(db.leads)[LeadIndex(old(db.leads), leadId).value], user)
    ensures resp == NotFound || resp == Forbidden ==> unchanged(db)
    ensures resp == ServerError <==>
      resp != NotFound && resp != Forbidden && (kind.None? || note.None? || followUp.Unparsable?)
    ensures resp == ServerError ==> db.leads == old(db.leads)
    ensures resp == ServerError && (kind.None? || note.None?) ==> db.communications == old(db.communications)
    ensures resp == NotFound || resp == Forbidden || resp == ServerError || resp.LeadBody?
    ensures (resp == ServerError || resp.LeadBody?) && kind.Some? && note.Some? ==>
      db.communications == old(db.communications) + [Communication(leadId.value, kind.value, note.value, user.id, today)]
    ensures resp.LeadBody? ==>
      var k := LeadIndex(old(db.leads), leadId).value;
      !followUp.Unparsable? && kind.Some? && note.Some? &&
      resp.lead == LoggedLead(old(db.leads)[k], kind.value, newStatus, followUp, today) &&
      db.leads == old(db.leads)[k := resp.lead]
  {
    var found := LeadIndex(db.leads, leadId);
    if found.None? {
      return NotFound;
    }
    var k := found.value;
    var lead := db.leads[k];
    if !CanBeViewedBy(lead, user) {
      return Forbidden;
    }
    if kind.None? || note.None? {
      return ServerError;
    }
    db.AddCommunication(Communication(lead.id, kind.value, note.value, user.id, today));
    lead := lead.(lastContact := Some(today));
    if Supplied(newStatus) {
      lead := lead.(status := newStatus.value, progress := StatusProgress(newStatus.value));
    }
    match followUp {
      case Unparsable =>
        return ServerError;
      case OnDate(d) =>
        lead := lead.(followUp := Some(d));
      case NoFollowUp =>
    }
    if !Supplied(newStatus) && lead.status == "new" && kind.value != "email" {
      lead := lead.(status := "contacted", progress := 25);
    }
    db.SaveLead(k, lead);
    resp := LeadBody(lead);
  }

  // ---------------------------------------------------------------------
  // reassign_lead

  /** The `name` of the old holder, or "Unassigned". */
  function HolderName(personnel: seq<Person>, holder: Option<nat>): string
    requires holder.Some? ==> 1 <= holder.value <= |personnel|
  {
    if holder.Some? then Name(personnel[holder.value - 1]) else "Unassigned"
  }

  /** `reassign_lead`. 404 when the lead or the new assignee does not exist,
      403 when the user may not edit the lead; otherwise the lead gets the new
      assignee, the counters move, and an assignment record and a
      "reassignment" communication naming both holders and the reason are
      written. The counters are moved on the current rows: as written the
      view saves two objects loaded beforehand (`StaleTransfer`). */
  method ReassignLead(db: LegacyDb, user: Person, leadId: Option<int>, assigneeId: Option<int>, reason: string, today: Models.Date)
    returns (resp: Response)
    requires db.Valid()
    modifies db
    ensures db.Valid()
    ensures old(CountersMatch(db.personnel, db.leads)) ==> CountersMatch(db.personnel, db.leads)
    ensures resp == NotFound <==>
      LeadIndex(old(db.leads), leadId).None? || PersonById(old(db.personnel), assigneeId).None?
    ensures resp == Forbidden <==>
      LeadIndex(old(db.leads), leadId).Some? && PersonById(old(db.personnel), assigneeId).Some? &&
      !CanBeEditedBy(old(db.leads)[LeadIndex(old(db.leads), leadId).value], user)
    ensures !resp.LeadBody? ==> unchanged(db)
    ensures resp.LeadBody? ==>
      var k := LeadIndex(old(db.leads), leadId).value;
      var to := assigneeId.value;
      var from := old(db.leads)[k].assignedTo;
      resp.lead == old(db.leads)[k].(assignedTo := Some(to)) &&
      db.leads == old(db.leads)[k := resp.lead] &&
      db.personnel == Transfer(old(db.personnel), from, Some(to)) &&
      db.assignments == old(db.assignments) + [Assignment(resp.lead.id, from, to, user.id, reason)] &&
      db.communications == old(db.communications) +
        [Communication(resp.lead.id, "reassignment",
           AssignmentService.ReassignmentNote(HolderName(old(db.personnel), from), Name(old(db.personnel)[to - 1]), reason),
           user.id, today)]
  {
    var found := LeadIndex(db.leads, leadId);
    if found.None? {
      return NotFound;
    }
    var newAssignee := PersonById(db.personnel, assigneeId);
    if newAssignee.None? {
      return NotFound;
    }
    var k := found.value;
    var lead := db.leads[k];
    if !CanBeEditedBy(lead, user) {
      return Forbidden;
    }
    var to := newAssignee.value;
    var oldAssignee := lead.assignedTo;
    var fromName := HolderName(db.personnel, oldAssignee);
    var saved := lead.(assignedTo := Some(to.id));
    db.MoveLead(k, saved);
    db.AddAssignment(Assignment(saved.id, oldAssignee, to.id, user.id, reason));
    db.AddCommunication(Communication(saved.id, "reassignment",
      AssignmentService.ReassignmentNote(fromName, Name(to), reason), user.id, today));
    resp := LeadBody(saved);
  }

  // ---------------------------------------------------------------------
  // bulk_assign

  /** `is_active_personnel=True`, and the user's own division unless the
      user sees all leads. */
  predicate InPool(p: Person, u: Person)
  {
    p.isActivePersonnel && (CanViewAllLeads(u) || p.division == u.division)
  }

  /** The ids among the first `n` personnel rows that may receive leads, in
      table order. */
  function PoolUpTo(personnel: seq<Person>, u: Person, n: nat): (r: seq<nat>)
    requires n <= |personnel|
    ensures forall x :: x in r <==> 1 <= x <= n && InPool(personnel[x - 1], u)
    ensures forall i :: 0 <= i < |r| ==> 1 <= r[i] <= n
  {
    if n == 0 then []
    else PoolUpTo(personnel, u, n - 1) + (if InPool(personnel[n - 1], u) then [n] else [])
  }

  function Pool(personnel: seq<Person>, u: Person): (r: seq<nat>)
    ensures forall x :: x in r <==> 1 <= x <= |personnel| && InPool(personnel[x - 1], u)
    ensures forall i :: 0 <= i < |r| ==> 1 <= r[i] <= |personnel|
  {
    PoolUpTo(personnel, u, |personnel|)
  }

  /** Membership of the pool does not depend on the counters. */
  lemma {:induction false} PoolIgnoresWorkloads(a: seq<Person>, b: seq<Person>, u: Person, n: nat)
    requires OnlyWorkloads(a, b) && n <= |a|
    ensures PoolUpTo(a, u, n) == PoolUpTo(b, u, n)
  {
    if n > 0 {
      PoolIgnoresWorkloads(a, b, u, n - 1);
      assert InPool(a[n - 1], u) == InPool(b[n - 1], u);
    }
  }

  /** `personnel.filter(division=d)`, in the pool's order. */
  function DivisionPool(personnel: seq<Person>, pool: seq<nat>, d: string): (r: seq<nat>)
    requires forall i :: 0 <= i < |pool| ==> 1 <= pool[i] <= |personnel|
    ensures forall x :: x in r <==> x in pool && personnel[x - 1].division == Some(d)
    ensures forall i :: 0 <= i < |r| ==> 1 <= r[i] <= |personnel|
  {
    if pool == [] then []
    else
      var x := pool[|pool| - 1];
      DivisionPool(personnel, pool[..|pool| - 1], d) + (if personnel[x - 1].division == Some(d) then [x] else [])
  }

  lemma {:induction false} DivisionPoolIgnoresWorkloads(a: seq<Person>, b: seq<Person>, pool: seq<nat>, d: string)
    requires OnlyWorkloads(a, b) && forall i :: 0 <= i < |pool| ==> 1 <= pool[i] <= |a|
    ensures DivisionPool(a, pool, d) == DivisionPool(b, pool, d)
  {
    if pool != [] {
      DivisionPoolIgnoresWorkloads(a, b, pool[..|pool| - 1], d);
    }
  }

  /** The position, among the first `n` ids, of a person of least
      workload, the earliest among equals. */
  function LeastUpTo(personnel: seq<Person>, ids: seq<nat>, n: nat): (r: Option<nat>)
    requires n <= |ids| && forall i :: 0 <= i < |ids| ==> 1 <= ids[i] <= |personnel|
    ensures r.Some? <==> n > 0
    ensures r.Some? ==> r.value < n
    ensures r.Some? ==> forall i :: 0 <= i < n ==> personnel[ids[r.value] - 1].workload <= personnel[ids[i] - 1].workload
  {
    if n == 0 then None
    else
      var best := LeastUpTo(personnel, ids, n - 1);
      if best.None? || personnel[ids[n - 1] - 1].workload < personnel[ids[best.value] - 1].workload
      then Some(n - 1) else best
  }

  /** `order_by('workload').first()`: a person of least workload; none for
      an empty pool. */
  function LeastLoaded(personnel: seq<Person>, ids: seq<nat>): (r: Option<nat>)
    requires forall i :: 0 <= i < |ids| ==> 1 <= ids[i] <= |personnel|
    ensures r.Some? <==> ids != []
    ensures r.Some? ==> r.value in ids && 1 <= r.value <= |personnel|
    ensures r.Some? ==> forall i :: 0 <= i < |ids| ==> personnel[r.value - 1].workload <= personnel[ids[i] - 1].workload
  {
    match LeastUpTo(personnel, ids, |ids|)
      case None => None
      case Some(j) => Some(ids[j])
  }

  /** A lead `bulk_assign` takes: accessible to the user, and unassigned
      when the scope says so. */
  predicate Chosen(l: Lead, u: Person, scope: string)
  {
    InAccessibleQuery(l, u) && (scope == "unassigned" ==> l.assignedTo.None?)
  }

  /** The rows among the first `n` that the bulk assignment takes, in table
      order. */
  function SelectionUpTo(leads: seq<Lead>, u: Person, scope: string, n: nat): (r: seq<nat>)
    requires n <= |leads|
    ensures forall k :: 0 <= k < n ==> (k in r <==> Chosen(leads[k], u, scope))
    ensures forall i :: 0 <= i < |r| ==> r[i] < n
    ensures forall i, j :: 0 <= i < j < |r| ==> r[i] < r[j]
  {
    if n == 0 then []
    else SelectionUpTo(leads, u, scope, n - 1) + (if Chosen(leads[n - 1], u, scope) then [n - 1] else [])
  }

  function Selection(leads: seq<Lead>, u: Person, scope: string): (r: seq<nat>)
    ensures forall k :: 0 <= k < |leads| ==> (k in r <==> Chosen(leads[k], u, scope))
    ensures forall i :: 0 <= i < |r| ==> r[i] < |leads|
    ensures forall i, j :: 0 <= i < j < |r| ==> r[i] < r[j]
  {
    SelectionUpTo(leads, u, scope, |leads|)
  }

  const Strategies: seq<string> := ["manual", "round-robin", "workload", "division"]

  /** Where the `i`th selected lead went under each strategy: all to the
      manual assignee; to the pool in turn; to someone of the pool; to
      someone of the pool in the lead's division, or nowhere when the pool
      has nobody there. Nothing else of the lead changes. */
  predicate Placed(strategy: string, manualId: Option<int>, pool: seq<nat>, personnel: seq<Person>, i: nat, before: Lead, after: Lead)
    requires forall i :: 0 <= i < |pool| ==> 1 <= pool[i] <= |personnel|
  {
    after == before.(assignedTo := after.assignedTo) &&
    if strategy == "manual" then manualId.Some? && after.assignedTo.Some? && after.assignedTo.value == manualId.value
    else if strategy == "round-robin" then |pool| > 0 && after.assignedTo == Some(pool[i % |pool|])
    else if strategy == "workload" then after.assignedTo.Some? && after.assignedTo.value in pool
    else if strategy == "division" then
      if DivisionPool(personnel, pool, before.division) == [] then after == before
      else after.assignedTo.Some? && after.assignedTo.value in DivisionPool(personnel, pool, before.division)
    else false
  }

  /** The reason written on the assignment records of each strategy. */
  function BulkReason(strategy: string): string
  {
    if strategy == "manual" then "Bulk manual assignment"
    else if strategy == "round-robin" then "Round-robin assignment"
    else if strategy == "workload" then "Workload-based assignment"
    else "Division expertise assignment"
  }

  /** The settings under which the first selected lead already fails: a
      manual id that names no row, or an empty pool under round robin
      (`i % 0`) or the workload strategy (`None.workload`). None of them
      depends on the counters, so no later lead can fail instead. */
  predicate Fails(strategy: string, manualId: Option<int>, pool: seq<nat>, personnel: seq<Person>)
    requires PersonIds(personnel)
  {
    (strategy == "manual" && PersonById(personnel, manualId).None?) ||
    ((strategy == "round-robin" || strategy == "workload") && pool == [])
  }

  /** The assignment records written for the lead that went from `before`
      to `after`: none when the division strategy skips it, otherwise one
      from the old assignee to the new, by the user `userId`, with the strategy's reason. */
  function RecordOf(strategy: string, pool: seq<nat>, personnel: seq<Person>, before: Lead, after: Lead, userId: nat)
    : (r: seq<Assignment>)
    requires forall i :: 0 <= i < |pool| ==> 1 <= pool[i] <= |personnel|
    ensures |r| <= 1
  {
    if strategy == "division" && DivisionPool(personnel, pool, before.division) == [] then []
    else match after.assignedTo
      case None => []
      case Some(to) => [Assignment(before.id, before.assignedTo, to, userId, BulkReason(strategy))]
  }

  /** The records that the first `n` selected leads wrote after the old
      rows `assignments0`: the old rows are kept and, under every strategy
      but the division one (which skips leads), one record per lead in
      selection order, from the lead's old assignee to its new one, by the
      user `userId`, with the strategy's reason. */
  predicate RecordsWritten(strategy: string, leads0: seq<Lead>, sel: seq<nat>, n: nat,
                           leads: seq<Lead>, userId: nat, assignments0: seq<Assignment>, assignments: seq<Assignment>)
    requires n <= |sel| && |leads| == |leads0| && forall j :: 0 <= j < |sel| ==> sel[j] < |leads0|
  {
    |assignments0| <= |assignments| &&
    assignments[..|assignments0|] == assignments0 &&
    (strategy != "division" ==>
      |assignments| == |assignments0| + n &&
      forall j :: 0 <= j < n ==>
        leads[sel[j]].assignedTo.Some? &&
        assignments[|assignments0| + j] ==
          Assignment(leads0[sel[j]].id, leads0[sel[j]].assignedTo, leads[sel[j]].assignedTo.value, userId, BulkReason(strategy)))
  }

  /** Placing the `i`th selected lead as the strategy says, with the record
      of `RecordOf`, extends the written records by one lead. */
  lemma RecordsStep(strategy: string, manualId: Option<int>, pool: seq<nat>, personnel: seq<Person>,
                    leads0: seq<Lead>, sel: seq<nat>, i: nat, leads: seq<Lead>, userId: nat, x: Lead,
                    assignments0: seq<Assignment>, records: seq<Assignment>, after: seq<Assignment>)
    requires forall j :: 0 <= j < |pool| ==> 1 <= pool[j] <= |personnel|
    requires i < |sel| && |leads| == |leads0| && forall j :: 0 <= j < |sel| ==> sel[j] < |leads0|
    requires forall a, b :: 0 <= a < b < |sel| ==> sel[a] < sel[b]
    requires RecordsWritten(strategy, leads0, sel, i, leads, userId, assignments0, records)
    requires Placed(strategy, manualId, pool, personnel, i, leads0[sel[i]], x)
    requires after == records + RecordOf(strategy, pool, personnel, leads0[sel[i]], x, userId)
    ensures RecordsWritten(strategy, leads0, sel, i + 1, leads[sel[i] := x], userId, assignments0, after)
  {
    var next := leads[sel[i] := x];
    assert after[..|assignments0|] == records[..|assignments0|];
    if strategy != "division" {
      forall j | 0 <= j < i + 1
        ensures next[sel[j]].assignedTo.Some? &&
          after[|assignments0| + j] ==
            Assignment(leads0[sel[j]].id, leads0[sel[j]].assignedTo, next[sel[j]].assignedTo.value, userId, BulkReason(strategy))
      {
        if j < i {
          assert sel[j] < sel[i];
        }
      }
    }
  }

  /** One lead of the bulk assignment: its row moves to the assignee and an
      assignment record is written. */
  method AssignOne(db: LegacyDb, user: Person, k: nat, to: nat, reason: string)
    requires db.Valid() && k < |db.leads| && 1 <= to <= |db.personnel|
    modifies db`leads, db`personnel, db`assignments
    ensures db.Valid()
    ensures db.leads == old(db.leads)[k := old(db.leads)[k].(assignedTo := Some(to))]
    ensures OnlyWorkloads(old(db.personnel), db.personnel)
    ensures db.assignments == old(db.assignments) + [Assignment(old(db.leads)[k].id, old(db.leads)[k].assignedTo, to, user.id, reason)]
    ensures old(CountersMatch(db.personnel, db.leads)) ==> CountersMatch(db.personnel, db.leads)
  {
    var lead := db.leads[k];
    db.MoveLead(k, lead.(assignedTo := Some(to)));
    db.AddAssignment(Assignment(lead.id, lead.assignedTo, to, user.id, reason));
  }

  /** The assignee the strategy picks for the `i`th selected lead `l`
      when nothing fails: the manual row, the pool in turn, a least loaded
      member of the pool, or of the pool's members in the lead's division
      (nobody when there are none). */
  function Target(strategy: string, manualId: Option<int>, pool: seq<nat>, personnel: seq<Person>, i: nat, l: Lead)
    : (r: Option<nat>)
    requires PersonIds(personnel) && strategy in Strategies && !Fails(strategy, manualId, pool, personnel)
    requires forall j :: 0 <= j < |pool| ==> 1 <= pool[j] <= |personnel|
    ensures r.Some? ==> 1 <= r.value <= |personnel|
    ensures r.None? <==> strategy == "division" && DivisionPool(personnel, pool, l.division) == []
    ensures r.Some? ==> Placed(strategy, manualId, pool, personnel, i, l, l.(assignedTo := r))
    ensures r.Some? && strategy == "workload" ==>
      forall j :: 0 <= j < |pool| ==> personnel[r.value - 1].workload <= personnel[pool[j] - 1].workload
    ensures r.Some? && strategy == "division" ==>
      var local := DivisionPool(personnel, pool, l.division);
      forall j :: 0 <= j < |local| ==> personnel[r.value - 1].workload <= personnel[local[j] - 1].workload
  {
    if strategy == "manual" then Some(PersonById(personnel, manualId).value.id)
    else if strategy == "round-robin" then Some(pool[i % |pool|])
    else if strategy == "workload" then LeastLoaded(personnel, pool)
    else LeastLoaded(personnel, DivisionPool(personnel, pool, l.division))
  }

  /** The body of the bulk loop for the `i`th selected lead, row `k`: it is
      placed as the strategy says, or the request fails (`placed` false).
      The failing settings are tested first; each is the one its branch
      meets before any write, except the workload strategy, which saves the
      lead unassigned and drops its old holder's counter first. */
  method PlaceLead(db: LegacyDb, user: Person, strategy: string, manualId: Option<int>, pool: seq<nat>, i: nat, k: nat)
    returns (placed: bool)
    requires db.Valid() && k < |db.leads| && strategy in Strategies
    requires forall j :: 0 <= j < |pool| ==> 1 <= pool[j] <= |db.personnel|
    modifies db`leads, db`personnel, db`assignments
    ensures db.Valid()
    ensures old(CountersMatch(db.personnel, db.leads)) ==> CountersMatch(db.personnel, db.leads)
    ensures OnlyWorkloads(old(db.personnel), db.personnel)
    ensures |db.leads| == |old(db.leads)|
    ensures db.leads == old(db.leads)[k := old(db.leads)[k].(assignedTo := db.leads[k].assignedTo)]
    ensures placed ==> Placed(strategy, manualId, pool, old(db.personnel), i, old(db.leads)[k], db.leads[k])
    ensures |db.assignments| == |old(db.assignments)| || |db.assignments| == |old(db.assignments)| + 1
    ensures placed && strategy != "division" ==> |db.assignments| == |old(db.assignments)| + 1
    ensures placed <==> !Fails(strategy, manualId, pool, old(db.personnel))
    ensures placed ==>
      db.assignments == old(db.assignments) + RecordOf(strategy, pool, old(db.personnel), old(db.leads)[k], db.leads[k], user.id)
    ensures !placed ==> db.assignments == old(db.assignments)
    ensures !placed && strategy != "workload" ==> db.leads == old(db.leads) && db.personnel == old(db.personnel)
    ensures !placed && strategy == "workload" ==>
      db.leads == old(db.leads)[k := old(db.leads)[k].(assignedTo := None)] &&
      db.personnel == Transfer(old(db.personnel), old(db.leads)[k].assignedTo, None)
  {
    var lead := db.leads[k];
    if Fails(strategy, manualId, pool, db.personnel) {
      if strategy == "workload" {
        db.MoveLead(k, lead.(assignedTo := None));
      }
      return false;
    }
    placed := true;
    var to := Target(strategy, manualId, pool, db.personnel, i, lead);
    if to.Some? {
      AssignOne(db, user, k, to.value, BulkReason(strategy));
    } else {
      assert db.leads == old(db.leads)[k := old(db.leads)[k]];
    }
  }


  /** The rows of the selection before position `i` are placed. */
  predicate PlacedUpTo(strategy: string, manualId: Option<int>, pool: seq<nat>, personnel: seq<Person>,
                        leads0: seq<Lead>, sel: seq<nat>, i: nat, leads: seq<Lead>)
    requires forall j :: 0 <= j < |pool| ==> 1 <= pool[j] <= |personnel|
    requires i <= |sel| && |leads| == |leads0| && forall j :: 0 <= j < |sel| ==> sel[j] < |leads0|
  {
    forall j :: 0 <= j < i ==> Placed(strategy, manualId, pool, personnel, j, leads0[sel[j]], leads[sel[j]])
  }

  /** Only assignees change, only on selected rows, and only on those
      before position `i`. */
  predicate OnlyAssigneesMoved(leads0: seq<Lead>, sel: seq<nat>, i: nat, leads: seq<Lead>)
    requires i <= |sel| && forall j :: 0 <= j < |sel| ==> sel[j] < |leads0|
  {
    |leads| == |leads0| &&
    (forall k :: 0 <= k < |leads0| ==> leads[k] == leads0[k].(assignedTo := leads[k].assignedTo)) &&
    (forall k :: 0 <= k < |leads0| && k !in sel ==> leads[k] == leads0[k]) &&
    (forall j :: i <= j < |sel| ==> leads[sel[j]] == leads0[sel[j]])
  }

  lemma PlacedStep(strategy: string, manualId: Option<int>, pool: seq<nat>, personnel0: seq<Person>, personnel: seq<Person>,
                   leads0: seq<Lead>, sel: seq<nat>, i: nat, leads: seq<Lead>, x: Lead)
    requires OnlyWorkloads(personnel0, personnel)
    requires forall j :: 0 <= j < |pool| ==> 1 <= pool[j] <= |personnel0|
    requires i < |sel| && |leads| == |leads0| && forall j :: 0 <= j < |sel| ==> sel[j] < |leads0|
    requires forall a, b :: 0 <= a < b < |sel| ==> sel[a] < sel[b]
    requires PlacedUpTo(strategy, manualId, pool, personnel0, leads0, sel, i, leads)
    requires Placed(strategy, manualId, pool, personnel, i, leads0[sel[i]], x)
    ensures PlacedUpTo(strategy, manualId, pool, personnel0, leads0, sel, i + 1, leads[sel[i] := x])
  {
    DivisionPoolIgnoresWorkloads(personnel0, personnel, pool, leads0[sel[i]].division);
    forall j | 0 <= j < i + 1
      ensures Placed(strategy, manualId, pool, personnel0, j, leads0[sel[j]], leads[sel[i] := x][sel[j]])
    {
      if j < i {
        assert sel[j] < sel[i];
      }
    }
  }

  lemma OnlyAssigneesStep(leads0: seq<Lead>, sel: seq<nat>, i: nat, leads: seq<Lead>, x: Lead)
    requires i < |sel| && forall j :: 0 <= j < |sel| ==> sel[j] < |leads0|
    requires forall a, b :: 0 <= a < b < |sel| ==> sel[a] < sel[b]
    requires OnlyAssigneesMoved(leads0, sel, i, leads)
    requires x == leads0[sel[i]].(assignedTo := x.assignedTo)
    ensures OnlyAssigneesMoved(leads0, sel, i + 1, leads[sel[i] := x])
  {
    var after := leads[sel[i] := x];
    forall j | i + 1 <= j < |sel| ensures after[sel[j]] == leads0[sel[j]] {
      assert sel[i] < sel[j];
    }
  }

  /** What the bulk loop keeps after the first `i` selected leads, against
      the tables `leads0`, `personnel0` and `assignments0` it started from:
      counters that matched still match, only counters and the assignees of
      those leads changed, each of them is placed, and their records follow
      the old ones in order. */
  predicate BulkProgress(strategy: string, manualId: Option<int>, pool: seq<nat>, sel: seq<nat>, userId: nat,
                         leads0: seq<Lead>, personnel0: seq<Person>, assignments0: seq<Assignment>, i: nat,
                         leads: seq<Lead>, personnel: seq<Person>, assignments: seq<Assignment>)
    requires forall j :: 0 <= j < |pool| ==> 1 <= pool[j] <= |personnel0|
    requires i <= |sel| && forall j :: 0 <= j < |sel| ==> sel[j] < |leads0|
  {
    (CountersMatch(personnel0, leads0) ==> CountersMatch(personnel, leads)) &&
    OnlyWorkloads(personnel0, personnel) &&
    OnlyAssigneesMoved(leads0, sel, i, leads) &&
    PlacedUpTo(strategy, manualId, pool, personnel0, leads0, sel, i, leads) &&
    |assignments0| <= |assignments| <= |assignments0| + i &&
    (strategy != "division" ==> |assignments| == |assignments0| + i) &&
    RecordsWritten(strategy, leads0, sel, i, leads, userId, assignments0, assignments)
  }

  /** One turn of the bulk loop when no lead can fail: the `i`th selected
      lead is placed and its record is appended to those before it. */
  method PlaceNext(db: LegacyDb, user: Person, strategy: string, manualId: Option<int>, pool: seq<nat>, sel: seq<nat>, i: nat,
                   ghost leads0: seq<Lead>, ghost personnel0: seq<Person>, ghost assignments0: seq<Assignment>)
    requires db.Valid() && strategy in Strategies && i < |sel|
    requires PersonIds(personnel0) && !Fails(strategy, manualId, pool, personnel0)
    requires forall j :: 0 <= j < |pool| ==> 1 <= pool[j] <= |personnel0|
    requires forall j :: 0 <= j < |sel| ==> sel[j] < |leads0|
    requires forall a, b :: 0 <= a < b < |sel| ==> sel[a] < sel[b]
    requires BulkProgress(strategy, manualId, pool, sel, user.id, leads0, personnel0, assignments0, i,
                          db.leads, db.personnel, db.assignments)
    modifies db`leads, db`personnel, db`assignments
    ensures db.Valid()
    ensures BulkProgress(strategy, manualId, pool, sel, user.id, leads0, personnel0, assignments0, i + 1,
                         db.leads, db.personnel, db.assignments)
  {
    var k := sel[i];
    ghost var before, staff, records := db.leads, db.personnel, db.assignments;
    assert before[k] == leads0[k];
    assert !Fails(strategy, manualId, pool, staff);
    var placed := PlaceLead(db, user, strategy, manualId, pool, i, k);
    OnlyAssigneesStep(leads0, sel, i, before, db.leads[k]);
    PlacedStep(strategy, manualId, pool, personnel0, staff, leads0, sel, i, before, db.leads[k]);
    assert db.leads == before[k := db.leads[k]];
    RecordsStep(strategy, manualId, pool, staff, leads0, sel, i, before, user.id, db.leads[k],
                assignments0, records, db.assignments);
  }

  /** The loop of `bulk_assign` over the selected rows `sel` when no lead
      can fail: every lead is placed and the records are written in order. */
  method PlaceAll(db: LegacyDb, user: Person, strategy: string, manualId: Option<int>, pool: seq<nat>, sel: seq<nat>)
    requires db.Valid() && strategy in Strategies && (sel == [] || !Fails(strategy, manualId, pool, db.personnel))
    requires forall j :: 0 <= j < |pool| ==> 1 <= pool[j] <= |db.personnel|
    requires forall j :: 0 <= j < |sel| ==> sel[j] < |db.leads|
    requires forall a, b :: 0 <= a < b < |sel| ==> sel[a] < sel[b]
    modifies db`leads, db`personnel, db`assignments
    ensures db.Valid()
    ensures BulkProgress(strategy, manualId, pool, sel, user.id, old(db.leads), old(db.personnel), old(db.assignments), |sel|,
                         db.leads, db.personnel, db.assignments)
  {
    ghost var leads0, personnel0, assignments0 := db.leads, db.personnel, db.assignments;
    var i := 0;
    while i < |sel|
      invariant 0 <= i <= |sel|
      invariant db.Valid()
      invariant BulkProgress(strategy, manualId, pool, sel, user.id, leads0, personnel0, assignments0, i,
                             db.leads, db.personnel, db.assignments)
    {
      PlaceNext(db, user, strategy, manualId, pool, sel, i, leads0, personnel0, assignments0);
      i := i + 1;
    }
  }

  /** The loop of `bulk_assign` over the selected rows `sel`: it stops at
      the first lead that fails (`done` false), which can only be the
      first one, and writes the records of the leads it placed. */
  method AssignSelected(db: LegacyDb, user: Person, strategy: string, manualId: Option<int>, pool: seq<nat>, sel: seq<nat>)
    returns (done: bool)
    requires db.Valid() && strategy in Strategies
    requires forall j :: 0 <= j < |pool| ==> 1 <= pool[j] <= |db.personnel|
    requires forall j :: 0 <= j < |sel| ==> sel[j] < |db.leads|
    requires forall a, b :: 0 <= a < b < |sel| ==> sel[a] < sel[b]
    modifies db`leads, db`personnel, db`assignments
    ensures db.Valid()
    ensures old(CountersMatch(db.personnel, db.leads)) ==> CountersMatch(db.personnel, db.leads)
    ensures OnlyWorkloads(old(db.personnel), db.personnel)
    ensures OnlyAssigneesMoved(old(db.leads), sel, |sel|, db.leads)
    ensures done ==> PlacedUpTo(strategy, manualId, pool, old(db.personnel), old(db.leads), sel, |sel|, db.leads)
    ensures |old(db.assignments)| <= |db.assignments| <= |old(db.assignments)| + |sel|
    ensures done && strategy != "division" ==> |db.assignments| == |old(db.assignments)| + |sel|
    ensures done <==> sel == [] || !Fails(strategy, manualId, pool, old(db.personnel))
    ensures done ==>
      RecordsWritten(strategy, old(db.leads), sel, |sel|, db.leads, user.id, old(db.assignments),
                     db.assignments)
    ensures !done ==> db.assignments == old(db.assignments)
    ensures !done && strategy != "workload" ==> db.leads == old(db.leads) && db.personnel == old(db.personnel)
    ensures !done && strategy == "workload" ==>
      db.leads == old(db.leads)[sel[0] := old(db.leads)[sel[0]].(assignedTo := None)] &&
      db.personnel == Transfer(old(db.personnel), old(db.leads)[sel[0]].assignedTo, None)
  {
    if sel != [] && Fails(strategy, manualId, pool, db.personnel) {
      ghost var leads0 := db.leads;
      var placed := PlaceLead(db, user, strategy, manualId, pool, 0, sel[0]);
      OnlyAssigneesStep(leads0, sel, 0, leads0, db.leads[sel[0]]);
      return false;
    }
    PlaceAll(db, user, strategy, manualId, pool, sel);
    done := true;
  }

  /** `bulk_assign`. 403 for a user who cannot manage leads, 400 when nothing
      is selected, and an unknown strategy fails on the first lead before any
      write. Otherwise the selected leads are assigned one at a time; a
      lead whose division has nobody in the pool is skipped under the
      division strategy. A manual assignee that does not exist, an empty pool
      under round-robin (a division by zero) and an empty pool under the
      workload strategy (after the lead was saved unassigned) fail the request
      with the leads handled so far kept. The count reported is the number
      selected, skipped leads included. */
  method BulkAssign(db: LegacyDb, user: Person, strategy: string, scope: string, manualId: Option<int>) returns (resp: Response)
    requires db.Valid()
    modifies db`leads, db`personnel, db`assignments
    ensures db.Valid()
    ensures old(CountersMatch(db.personnel, db.leads)) ==> CountersMatch(db.personnel, db.leads)
    ensures resp == Forbidden <==> !CanManageLeads(user)
    ensures resp == BadRequest <==> CanManageLeads(user) && Selection(old(db.leads), user, scope) == []
    ensures CanManageLeads(user) && Selection(old(db.leads), user, scope) != [] && strategy !in Strategies ==>
      resp == ServerError
    ensures resp == Forbidden || resp == BadRequest || strategy !in Strategies ==>
      db.leads == old(db.leads) && db.personnel == old(db.personnel) && db.assignments == old(db.assignments)
    ensures resp.AssignedCount? || resp == ServerError || resp == Forbidden || resp == BadRequest
    ensures OnlyWorkloads(old(db.personnel), db.personnel)
    ensures OnlyAssigneesMoved(old(db.leads), Selection(old(db.leads), user, scope), |Selection(old(db.leads), user, scope)|, db.leads)
    ensures |old(db.assignments)| <= |db.assignments| <= |old(db.assignments)| + |Selection(old(db.leads), user, scope)|
    ensures resp == ServerError <==>
      CanManageLeads(user) && Selection(old(db.leads), user, scope) != [] &&
      (strategy !in Strategies || Fails(strategy, manualId, Pool(old(db.personnel), user), old(db.personnel)))
    ensures resp == ServerError ==> db.assignments == old(db.assignments)
    ensures resp == ServerError && strategy != "workload" ==> db.leads == old(db.leads) && db.personnel == old(db.personnel)
    ensures resp == ServerError && strategy == "workload" ==>
      var k := Selection(old(db.leads), user, scope)[0];
      db.leads == old(db.leads)[k := old(db.leads)[k].(assignedTo := None)] &&
      db.personnel == Transfer(old(db.personnel), old(db.leads)[k].assignedTo, None)
    ensures resp.AssignedCount? ==>
      RecordsWritten(strategy, old(db.leads),
                     Selection(old(db.leads), user, scope), |Selection(old(db.leads), user, scope)|, db.leads, user.id,
                     old(db.assignments), db.assignments)
    ensures resp.AssignedCount? ==>
      resp.count == |Selection(old(db.leads), user, scope)| &&
      PlacedUpTo(strategy, manualId, Pool(old(db.personnel), user), old(db.personnel), old(db.leads),
                 Selection(old(db.leads), user, scope), |Selection(old(db.leads), user, scope)|, db.leads) &&
      (strategy != "division" ==> |db.assignments| == |old(db.assignments)| + |Selection(old(db.leads), user, scope)|)
  {
    if !CanManageLeads(user) {
      return Forbidden;
    }
    var sel := Selection(db.leads, user, scope);
    if sel == [] {
      return BadRequest;
    }
    var pool := Pool(db.personnel, user);
    if strategy !in Strategies {
      // no branch binds an assignee, so the first lead fails
      return ServerError;
    }
    var done := AssignSelected(db, user, strategy, manualId, pool, sel);
    resp := if done then AssignedCount(|sel|) else ServerError;
  }
}
