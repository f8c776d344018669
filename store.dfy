/** The back end's database: one sequence per table, rows numbered from 1 in
    insertion order (nothing is ever hard-deleted). The post-save hooks of
    the Communication and Assignment models run inside the methods that
    create those rows, as Django runs them inside `objects.create`. */
module Store {
  import opened Basics
  import opened Models
  import Scoring

  datatype Communication = Communication(id: nat, lead: nat, kind: string, note: string, user: nat, date: Date)

  datatype Assignment = Assignment(
    id: nat, lead: nat, fromPersonnel: Option<nat>, toPersonnel: nat, assignedBy: Option<nat>, reason: string, date: Date)

  /** The `meta_data` dictionary of a notification. */
  datatype Meta = NoMeta | CommunicationRef(communicationId: nat) | AssignmentRef(assignmentId: nat)

  datatype Notification = Notification(
    id: nat, user: nat, message: string, lead: Option<nat>, kind: string, isRead: bool, meta: Meta)

  /** A daily snapshot; the pipeline value is in hundredths. */
  datatype Snapshot = Snapshot(
    date: Date, totalLeads: nat, pipelineValue: int, avgQuality: int, stages: Tally, divisions: Tally)

  // ---------------------------------------------------------------------
  // Row numbering

  predicate LeadIds(t: seq<Lead>) { forall i :: 0 <= i < |t| ==> t[i].id == i + 1 }
  predicate PersonnelIds(t: seq<Personnel>) { forall i :: 0 <= i < |t| ==> t[i].id == i + 1 }
  predicate ProductIds(t: seq<Product>) { forall i :: 0 <= i < |t| ==> t[i].id == i + 1 }
  predicate CommunicationIds(t: seq<Communication>) { forall i :: 0 <= i < |t| ==> t[i].id == i + 1 }
  predicate AssignmentIds(t: seq<Assignment>) { forall i :: 0 <= i < |t| ==> t[i].id == i + 1 }
  predicate NotificationIds(t: seq<Notification>) { forall i :: 0 <= i < |t| ==> t[i].id == i + 1 }

  lemma LeadIdsUpdate(t: seq<Lead>, k: nat, l: Lead)
    requires LeadIds(t) && k < |t| && l.id == t[k].id
    ensures LeadIds(t[k := l])
  {
  }

  lemma NotificationIdsAppend(t: seq<Notification>, extra: seq<Notification>)
    requires NotificationIds(t)
    requires forall i :: 0 <= i < |extra| ==> extra[i].id == |t| + i + 1
    ensures NotificationIds(t + extra)
  {
  }

  /** The unique constraint on the snapshot date. */
  predicate UniqueDates(t: seq<Snapshot>)
  {
    forall i, j :: 0 <= i < j < |t| ==> t[i].date != t[j].date
  }

  /** `Personnel.objects.get(id=id)`, `None` for DoesNotExist. */
  function PersonById(t: seq<Personnel>, id: int): (r: Option<Personnel>)
    requires PersonnelIds(t)
    ensures r.Some? ==> r.value in t && r.value.id == id
    ensures r.None? <==> forall i :: 0 <= i < |t| ==> t[i].id != id
  {
    if 1 <= id <= |t| then Some(t[id - 1]) else None
  }

  /** `Lead.objects.get(id=id)` (deleted leads included), as a row index. */
  function LeadIndex(t: seq<Lead>, id: int): (r: Option<nat>)
    requires LeadIds(t)
    ensures r.Some? ==> r.value < |t| && t[r.value].id == id
    ensures r.None? <==> forall i :: 0 <= i < |t| ==> t[i].id != id
  {
    if 1 <= id <= |t| then Some(id - 1) else None
  }

  /** `Product.objects.get(pk=id)` as done by a primary-key field. */
  function ProductById(t: seq<Product>, id: int): (r: Option<Product>)
    requires ProductIds(t)
    ensures r.Some? ==> r.value in t && r.value.id == id
    ensures r.None? <==> forall i :: 0 <= i < |t| ==> t[i].id != id
  {
    if 1 <= id <= |t| then Some(t[id - 1]) else None
  }

  /** `lead.communications.count()`: the rows whose lead is `leadId`. */
  function CommunicationCount(t: seq<Communication>, leadId: nat): (n: nat)
    ensures n <= |t|
  {
    if t == [] then 0
    else CommunicationCount(t[..|t| - 1], leadId) + (if t[|t| - 1].lead == leadId then 1 else 0)
  }

  lemma CommunicationCountSnoc(t: seq<Communication>, c: Communication, leadId: nat)
    ensures CommunicationCount(t + [c], leadId) == CommunicationCount(t, leadId) + (if c.lead == leadId then 1 else 0)
  {
    assert (t + [c])[..|t|] == t;
  }

  // ---------------------------------------------------------------------
  // What the hooks insert

  function ActivityMessage(kind: string, company: string, author: Personnel): string
  {
    "New " + CommunicationTypeDisplay(kind) + " logged on " + company + " by " + Name(author)
  }

  /** The notifications a new communication of `kind` by `author` on the lead
      `leadId` (assigned to `assignee`) creates: one "activity" notification
      for the assignee, when there is one and it is not the author. */
  function ActivityNotices(nextId: nat, leadId: nat, assignee: Option<nat>, company: string, kind: string, author: Personnel,
                           communicationId: nat): (r: seq<Notification>)
    ensures |r| <= 1
    ensures |r| == 1 <==> assignee.Some? && assignee.value != author.id
    ensures |r| == 1 ==> r[0].id == nextId && r[0].user == assignee.value && r[0].kind == "activity"
    ensures |r| == 1 ==> !r[0].isRead && r[0].lead == Some(leadId) && r[0].meta == CommunicationRef(communicationId)
  {
    if assignee.Some? && assignee.value != author.id then
      [Notification(nextId, assignee.value, ActivityMessage(kind, company, author), Some(leadId),
        "activity", false, CommunicationRef(communicationId))]
    else []
  }

  /** The in-memory lead after the communication hook has scored it with
      `count` communications and saved it (the save override remaps progress
      on the instance too). */
  function Scored(l: Lead, count: nat, today: Date): Lead
  {
    Save(l.(qualityScore := Scoring.Score(l, count, today)))
  }

  /** On a saved lead the hook changes the score and nothing else. */
  lemma ScoredSaved(l: Lead, count: nat, today: Date)
    requires Save(l) == l
    ensures Scored(l, count, today) == l.(qualityScore := Scoring.Score(l, count, today))
  {
    SaveIgnoresQualityScore(l, Scoring.Score(l, count, today));
  }

  function AssignmentMessage(company: string): string
  {
    "You have been assigned new lead: " + company
  }

  // ---------------------------------------------------------------------
  // The tables

  class Crm {
    var leads: seq<Lead>
    var personnel: seq<Personnel>
    var products: seq<Product>
    var communications: seq<Communication>
    var assignments: seq<Assignment>
    var notifications: seq<Notification>
    var snapshots: seq<Snapshot>

    ghost predicate Valid()
      reads this
    {
      LeadIds(leads) && PersonnelIds(personnel) && ProductIds(products) &&
      CommunicationIds(communications) && AssignmentIds(assignments) &&
      NotificationIds(notifications) && UniqueDates(snapshots)
    }

    constructor ()
      ensures Valid()
      ensures leads == [] && personnel == [] && products == [] && communications == []
      ensures assignments == [] && notifications == [] && snapshots == []
    {
      leads, personnel, products := [], [], [];
      communications, assignments, notifications, snapshots := [], [], [], [];
    }

    /** `lead.save()` for an instance of an existing row: the override remaps
        progress, every field is written, and the Lead post-save hook does
        nothing. */
    method SaveLead(l: Lead) returns (saved: Lead)
      requires Valid() && 1 <= l.id <= |leads|
      modifies this`leads
      ensures saved == Save(l)
      ensures leads == old(leads)[l.id - 1 := saved]
      ensures Valid()
    {
      saved := Save(l);
      leads := leads[l.id - 1 := saved];
    }

    /** A new row: the next id, progress remapped by the save override. */
    method InsertLead(l: Lead) returns (created: Lead)
      requires Valid()
      modifies this`leads
      ensures created == Save(l.(id := |old(leads)| + 1))
      ensures leads == old(leads) + [created]
      ensures Valid()
    {
      created := Save(l.(id := |leads| + 1));
      leads := leads + [created];
    }

    /** `soft_delete()` on the stored row. */
    method SoftDeleteLead(id: nat)
      requires Valid() && 1 <= id <= |leads|
      modifies this`leads
      ensures leads == old(leads)[id - 1 := SoftDelete(old(leads)[id - 1])]
      ensures Valid()
    {
      leads := leads[id - 1 := SoftDelete(leads[id - 1])];
    }

    /** `Communication.objects.create(lead=lead, ...)`: the row, then its
        post-save hook. */
    method CreateCommunication(lead: Lead, kind: string, note: string, author: Personnel, today: Date)
      returns (inMemory: Lead)
      requires Valid() && 1 <= lead.id <= |leads|
      modifies this`communications, this`leads, this`notifications
      ensures communications == old(communications) + [Communication(|old(communications)| + 1, lead.id, kind, note, author.id, today)]
      ensures CommunicationCount(communications, lead.id) == CommunicationCount(old(communications), lead.id) + 1
      ensures inMemory == Scored(lead, CommunicationCount(old(communications), lead.id) + 1, today)
      ensures leads == old(leads)[lead.id - 1 := old(leads)[lead.id - 1].(qualityScore := inMemory.qualityScore)]
      ensures notifications == old(notifications) +
        ActivityNotices(|old(notifications)| + 1, lead.id, lead.assignedTo, lead.company, kind, author, |old(communications)| + 1)
      ensures Valid()
    {
      var c := Communication(|communications| + 1, lead.id, kind, note, author.id, today);
      CommunicationCountSnoc(communications, c, lead.id);
      communications := communications + [c];
      inMemory := CommunicationSaved(lead, c, author, today);
    }

    /** The post-save hook of a newly created communication `c` on the
        in-memory `lead`: the score is recomputed from the lead's current
        `last_contact` and a count that includes `c`, only `quality_score` is
        written to the stored row, and the in-memory instance is left saved
        (progress remapped). Then the assignee is notified, unless the
        assignee wrote `c`. */
    method CommunicationSaved(lead: Lead, c: Communication, author: Personnel, today: Date) returns (inMemory: Lead)
      requires Valid() && 1 <= lead.id <= |leads|
      modifies this`leads, this`notifications
      ensures inMemory == Scored(lead, CommunicationCount(communications, lead.id), today)
      ensures leads == old(leads)[lead.id - 1 := old(leads)[lead.id - 1].(qualityScore := inMemory.qualityScore)]
      ensures notifications == old(notifications) + ActivityNotices(|old(notifications)| + 1, lead.id, lead.assignedTo, lead.company, c.kind, author, c.id)
      ensures Valid()
    {
      var score := Scoring.Score(lead, CommunicationCount(communications, lead.id), today);
      inMemory := Save(lead.(qualityScore := score));
      WriteQualityScore(lead.id, score);
      InsertNotifications(ActivityNotices(|notifications| + 1, lead.id, lead.assignedTo, lead.company, c.kind, author, c.id));
    }

    /** `save(update_fields=['quality_score'])`: only that column of the row is written. */
    method WriteQualityScore(id: nat, score: int)
      requires Valid() && 1 <= id <= |leads|
      modifies this`leads
      ensures leads == old(leads)[id - 1 := old(leads)[id - 1].(qualityScore := score)]
      ensures Valid()
    {
      LeadIdsUpdate(leads, id - 1, leads[id - 1].(qualityScore := score));
      leads := leads[id - 1 := leads[id - 1].(qualityScore := score)];
    }

    /** `Notification.objects.create(...)` for each of `extra`, numbered in turn. */
    method InsertNotifications(extra: seq<Notification>)
      requires Valid()
      requires forall i :: 0 <= i < |extra| ==> extra[i].id == |notifications| + i + 1
      modifies this`notifications
      ensures notifications == old(notifications) + extra
      ensures Valid()
    {
      NotificationIdsAppend(notifications, extra);
      notifications := notifications + extra;
    }

    /** `Assignment.objects.create(...)` with its post-save hook: exactly one
        "assignment" notification to the new assignee. */
    method CreateAssignment(lead: Lead, from: Option<nat>, to: nat, assignedBy: Option<nat>, reason: string, today: Date)
      requires Valid()
      modifies this`assignments, this`notifications
      ensures assignments == old(assignments) + [Assignment(|old(assignments)| + 1, lead.id, from, to, assignedBy, reason, today)]
      ensures notifications == old(notifications) +
        [Notification(|old(notifications)| + 1, to, AssignmentMessage(lead.company), Some(lead.id), "assignment", false,
          AssignmentRef(|old(assignments)| + 1))]
      ensures Valid()
    {
      var a := Assignment(|assignments| + 1, lead.id, from, to, assignedBy, reason, today);
      assignments := assignments + [a];
      notifications := notifications +
        [Notification(|notifications| + 1, to, AssignmentMessage(lead.company), Some(lead.id), "assignment", false, AssignmentRef(a.id))];
    }
  }

  /** The hook's score counts the communication just created, so a lead that
      is scored this way always has at least 10 engagement points. */
  lemma NewCommunicationIsCounted(t: seq<Communication>, c: Communication)
    ensures CommunicationCount(t + [c], c.lead) >= 1
    ensures Scoring.Engagement(CommunicationCount(t + [c], c.lead)) >= 10
  {
    CommunicationCountSnoc(t, c, c.lead);
  }
}
