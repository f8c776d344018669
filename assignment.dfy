/** The assignment service: reassigning one lead with its audit rows, and
    bulk assignment by one of four strategies. */
module AssignmentService {
  import opened Basics
  import opened Models
  import opened Store
  import Scoring

  /** `old_assignee.name if old_assignee else 'Unassigned'`. */
  function PersonName(personnel: seq<Personnel>, id: Option<nat>): string
    requires PersonnelIds(personnel)
  {
    if id.None? then "Unassigned"
    else match PersonById(personnel, id.value)
      case Some(p) => Name(p)
      case None => "Unassigned"
  }

  function ReassignmentNote(fromName: string, toName: string, reason: string): string
  {
    "Lead reassigned from " + fromName + " to " + toName + ". Reason: " + reason
  }

  /** `assign_lead`: the lead is saved with its new assignee, then one
      Assignment (old assignee to new) and one "reassignment" Communication by
      `assignedBy` are created, each with its post-save hook. The returned
      instance is the in-memory lead after the communication hook, which
      scores it with the new communication counted. */
  method AssignLead(db: Crm, lead: Lead, to: Personnel, assignedBy: Personnel, reason: string, today: Date)
    returns (updated: Lead)
    requires db.Valid() && 1 <= lead.id <= |db.leads|
    modifies db`leads, db`assignments, db`communications, db`notifications
    ensures db.Valid()
    ensures updated == Save(lead.(assignedTo := Some(to.id))).(qualityScore := updated.qualityScore)
    ensures updated.qualityScore ==
      Scoring.Score(Save(lead.(assignedTo := Some(to.id))), CommunicationCount(old(db.communications), lead.id) + 1, today)
    ensures updated.id == lead.id && updated.assignedTo == Some(to.id)
    ensures db.leads == old(db.leads)[lead.id - 1 := updated]
    ensures db.assignments == old(db.assignments) +
      [Assignment(|old(db.assignments)| + 1, lead.id, lead.assignedTo, to.id, Some(assignedBy.id), reason, today)]
    ensures db.communications == old(db.communications) +
      [Communication(|old(db.communications)| + 1, lead.id, "reassignment",
        ReassignmentNote(PersonName(db.personnel, lead.assignedTo), Name(to), reason), assignedBy.id, today)]
    ensures db.notifications == old(db.notifications) +
      [Notification(|old(db.notifications)| + 1, to.id, AssignmentMessage(lead.company), Some(lead.id), "assignment", false,
        AssignmentRef(|old(db.assignments)| + 1))] +
      ActivityNotices(|old(db.notifications)| + 2, lead.id, Some(to.id), lead.company, "reassignment", assignedBy,
        |old(db.communications)| + 1)
  {
    var oldAssignee := lead.assignedTo;
    var saved := db.SaveLead(lead.(assignedTo := Some(to.id)));
    SaveIdempotent(lead.(assignedTo := Some(to.id)));
    var note := ReassignmentNote(PersonName(db.personnel, oldAssignee), Name(to), reason);
    updated := RecordReassignment(db, saved, oldAssignee, to, assignedBy, reason, note, today);
  }

  /** The audit rows of a reassignment of the stored, saved lead `saved` from
      `from` to `to`, with their hooks; `note` is the text of the
      communication. The row ends up equal to the returned instance, whose
      score the communication's hook computed with the new row counted. */
  method RecordReassignment(db: Crm, saved: Lead, from: Option<nat>, to: Personnel, assignedBy: Personnel, reason: string,
                            note: string, today: Date)
    returns (updated: Lead)
    requires db.Valid() && 1 <= saved.id <= |db.leads| && db.leads[saved.id - 1] == saved && Save(saved) == saved
    requires saved.assignedTo == Some(to.id)
    modifies db`leads, db`assignments, db`communications, db`notifications
    ensures db.Valid()
    ensures updated == saved.(qualityScore := updated.qualityScore)
    ensures updated.qualityScore == Scoring.Score(saved, CommunicationCount(old(db.communications), saved.id) + 1, today)
    ensures db.leads == old(db.leads)[saved.id - 1 := updated]
    ensures db.assignments == old(db.assignments) +
      [Assignment(|old(db.assignments)| + 1, saved.id, from, to.id, Some(assignedBy.id), reason, today)]
    ensures db.communications == old(db.communications) +
      [Communication(|old(db.communications)| + 1, saved.id, "reassignment", note, assignedBy.id, today)]
    ensures db.notifications == old(db.notifications) +
      [Notification(|old(db.notifications)| + 1, to.id, AssignmentMessage(saved.company), Some(saved.id), "assignment", false,
        AssignmentRef(|old(db.assignments)| + 1))] +
      ActivityNotices(|old(db.notifications)| + 2, saved.id, Some(to.id), saved.company, "reassignment", assignedBy,
        |old(db.communications)| + 1)
  {
    db.CreateAssignment(saved, from, to.id, Some(assignedBy.id), reason, today);
    updated := ReassignmentContact(db, saved, assignedBy, note, today);
  }

  /** The communication row of a reassignment, with its hook, on the stored,
      saved lead `saved`: the hook's score, computed with the new row
      counted, is the only change to the row. */
  method ReassignmentContact(db: Crm, saved: Lead, assignedBy: Personnel, note: string, today: Date)
    returns (updated: Lead)
    requires db.Valid() && 1 <= saved.id <= |db.leads| && db.leads[saved.id - 1] == saved && Save(saved) == saved
    modifies db`leads, db`communications, db`notifications
    ensures db.Valid()
    ensures updated == saved.(qualityScore := updated.qualityScore)
    ensures updated.qualityScore == Scoring.Score(saved, CommunicationCount(old(db.communications), saved.id) + 1, today)
    ensures db.leads == old(db.leads)[saved.id - 1 := updated]
    ensures db.communications == old(db.communications) +
      [Communication(|old(db.communications)| + 1, saved.id, "reassignment", note, assignedBy.id, today)]
    ensures db.notifications == old(db.notifications) +
      ActivityNotices(|old(db.notifications)| + 1, saved.id, saved.assignedTo, saved.company, "reassignment", assignedBy,
        |old(db.communications)| + 1)
  {
    ghost var count := CommunicationCount(db.communications, saved.id);
    ScoredSaved(saved, count + 1, today);
    updated := db.CreateCommunication(saved, "reassignment", note, assignedBy, today);
  }

  /** A reassignment by someone other than the new assignee notifies the new
      assignee twice (assignment and activity); by the new assignee, once. */
  lemma ReassignmentNotices(nextId: nat, leadId: nat, company: string, to: Personnel, assignedBy: Personnel, communicationId: nat)
    ensures |ActivityNotices(nextId, leadId, Some(to.id), company, "reassignment", assignedBy, communicationId)| ==
      (if to.id == assignedBy.id then 0 else 1)
  {
  }

  // ---------------------------------------------------------------------
  // Bulk assignment

  /** The candidate pool: active personnel, in table order. */
  function ActivePool(personnel: seq<Personnel>): (pool: seq<Personnel>)
    ensures |pool| <= |personnel|
    ensures forall p :: p in pool <==> p in personnel && p.isActivePersonnel
  {
    if personnel == [] then []
    else (if personnel[0].isActivePersonnel then [personnel[0]] else []) + ActivePool(personnel[1..])
  }

  /** The pool narrowed to one division (`personnel.filter(division=...)`), in order. */
  function DivisionPool(pool: seq<Personnel>, division: string): (r: seq<Personnel>)
    ensures |r| <= |pool|
    ensures forall p :: p in r <==> p in pool && p.division == Some(division)
  {
    if pool == [] then []
    else (if pool[0].division == Some(division) then [pool[0]] else []) + DivisionPool(pool[1..], division)
  }

  /** `a` comes no later than `b` in the order by (workload, id). */
  predicate LighterOrEqual(a: Personnel, b: Personnel, leads: seq<Lead>)
  {
    Workload(leads, a.id) < Workload(leads, b.id) ||
    (Workload(leads, a.id) == Workload(leads, b.id) && a.id <= b.id)
  }

  /** `order_by('annotated_workload', 'id').first()`. */
  function Lightest(cands: seq<Personnel>, leads: seq<Lead>): (r: Personnel)
    requires cands != []
    ensures r in cands
    ensures forall i :: 0 <= i < |cands| ==> LighterOrEqual(r, cands[i], leads)
  {
    if |cands| == 1 then cands[0]
    else
      var rest := Lightest(cands[1..], leads);
      assert forall i :: 1 <= i < |cands| ==> cands[i] == cands[1..][i - 1];
      if LighterOrEqual(cands[0], rest, leads) then cands[0] else rest
  }

  datatype Pick = Pick(assignee: Personnel, reason: string)

  /** The branch of the loop body that picks the assignee of the `i`-th lead,
      `lead`, from the tables as they are at that point. */
  function Choose(strategy: string, manualId: Option<int>, personnel: seq<Personnel>, leads: seq<Lead>, lead: Lead, i: nat)
    : (r: Option<Pick>)
    requires PersonnelIds(personnel)
    ensures NeverAssigns(strategy, manualId, personnel) ==> r.None?
    ensures strategy == "manual" && manualId.Some? && manualId.value != 0 ==>
      r == (match PersonById(personnel, manualId.value)
              case Some(p) => Some(Pick(p, "Bulk manual assignment"))
              case None => None)
    ensures strategy == "round-robin" ==>
      r == (if ActivePool(personnel) == [] then None
            else Some(Pick(ActivePool(personnel)[i % |ActivePool(personnel)|], "Round-robin assignment")))
    ensures strategy == "workload" ==>
      (r.None? <==> ActivePool(personnel) == []) &&
      (r.Some? ==>
         r.value.assignee in ActivePool(personnel) &&
         forall k :: 0 <= k < |ActivePool(personnel)| ==> LighterOrEqual(r.value.assignee, ActivePool(personnel)[k], leads))
    ensures strategy == "division" ==>
      var cands := DivisionPool(ActivePool(personnel), lead.division);
      (r.None? <==> cands == []) &&
      (r.Some? ==>
         r.value.assignee in cands && r.value.assignee.division == Some(lead.division) &&
         forall k :: 0 <= k < |cands| ==> LighterOrEqual(r.value.assignee, cands[k], leads))
    ensures r.Some? && strategy != "manual" ==> r.value.assignee.isActivePersonnel && r.value.assignee in personnel
  {
    var pool := ActivePool(personnel);
    if strategy == "manual" && manualId.Some? && manualId.value != 0 then
      match PersonById(personnel, manualId.value)
        case Some(p) => Some(Pick(p, "Bulk manual assignment"))
        case None => None
    else if strategy == "round-robin" then
      if pool != [] then
        assert pool[i % |pool|] in pool;
        Some(Pick(pool[i % |pool|], "Round-robin assignment")) else None
    else if strategy == "workload" then
      if pool != [] then Some(Pick(Lightest(pool, leads), "Workload-based assignment")) else None
    else if strategy == "division" then
      var cands := DivisionPool(pool, lead.division);
      if cands != [] then Some(Pick(Lightest(cands, leads), "Division expertise assignment")) else None
    else None
  }

  predicate KnownStrategy(strategy: string)
  {
    strategy == "manual" || strategy == "round-robin" || strategy == "workload" || strategy == "division"
  }

  /** The manual strategy with an id that names a row. */
  predicate ManualTarget(strategy: string, manualId: Option<int>, personnel: seq<Personnel>)
    requires PersonnelIds(personnel)
  {
    strategy == "manual" && manualId.Some? && manualId.value != 0 && PersonById(personnel, manualId.value).Some?
  }

  /** The settings under which no lead can receive an assignee: an unknown
      strategy, a manual one without a valid id, or an empty pool for round
      robin and workload. */
  predicate NeverAssigns(strategy: string, manualId: Option<int>, personnel: seq<Personnel>)
    requires PersonnelIds(personnel)
  {
    !KnownStrategy(strategy) ||
    (strategy == "manual" && (manualId.None? || manualId.value == 0 || PersonById(personnel, manualId.value).None?)) ||
    ((strategy == "round-robin" || strategy == "workload") && ActivePool(personnel) == [])
  }

  /** Round robin or workload with someone in the pool, or manual with an id
      that names a row: every lead receives an assignee. */
  predicate AlwaysAssigns(strategy: string, manualId: Option<int>, personnel: seq<Personnel>)
    requires PersonnelIds(personnel)
  {
    ManualTarget(strategy, manualId, personnel) ||
    ((strategy == "round-robin" || strategy == "workload") && ActivePool(personnel) != [])
  }

  /** What the strategy promises about `assignee`, the assignee given to the
      `k`-th lead: the `k`-th member of the pool in rotation, the manual
      choice, or an active member of the table. */
  predicate FollowsStrategy(strategy: string, manualId: Option<int>, personnel: seq<Personnel>, k: nat, assignee: Option<nat>)
    requires PersonnelIds(personnel)
  {
    (strategy == "round-robin" && ActivePool(personnel) != [] ==>
       assignee == Some(ActivePool(personnel)[k % |ActivePool(personnel)|].id)) &&
    (ManualTarget(strategy, manualId, personnel) ==> assignee.Some? && assignee.value == manualId.value) &&
    (strategy == "workload" && ActivePool(personnel) != [] ==>
       assignee.Some? && PersonById(personnel, assignee.value).Some? && PersonById(personnel, assignee.value).value.isActivePersonnel)
  }

  /** The choice made for the `i`-th lead keeps the strategy's promise, and is
      made exactly when the settings allow one. */
  lemma ChooseFollowsStrategy(strategy: string, manualId: Option<int>, personnel: seq<Personnel>, leads: seq<Lead>, lead: Lead, i: nat)
    requires PersonnelIds(personnel)
    ensures AlwaysAssigns(strategy, manualId, personnel) ==> Choose(strategy, manualId, personnel, leads, lead, i).Some?
    ensures NeverAssigns(strategy, manualId, personnel) ==> Choose(strategy, manualId, personnel, leads, lead, i).None?
    ensures Choose(strategy, manualId, personnel, leads, lead, i).Some? ==>
      FollowsStrategy(strategy, manualId, personnel, i, Some(Choose(strategy, manualId, personnel, leads, lead, i).value.assignee.id))
  {
    var r := Choose(strategy, manualId, personnel, leads, lead, i);
    if r.Some? && strategy == "workload" {
      ActiveMemberHasId(personnel, r.value.assignee);
    }
  }

  predicate DistinctIds(ids: seq<nat>)
  {
    forall a, b :: 0 <= a < b < |ids| ==> ids[a] != ids[b]
  }

  /** `bulk_assign` over the leads of `ids` (the queryset, loaded once before
      the loop; each lead is read from its row when its turn comes, which no
      earlier step writes). The result counts the leads that received an
      assignee, each of which got exactly one Assignment row. */
  method BulkAssign(db: Crm, ids: seq<nat>, strategy: string, assignedBy: Personnel, manualId: Option<int>, today: Date)
    returns (count: nat)
    requires db.Valid() && DistinctIds(ids)
    requires forall k :: 0 <= k < |ids| ==> 1 <= ids[k] <= |db.leads|
    modifies db`leads, db`assignments, db`communications, db`notifications
    ensures db.Valid()
    ensures count <= |ids|
    ensures |db.leads| == |old(db.leads)|
    ensures |db.assignments| == |old(db.assignments)| + count
    ensures |db.communications| == |old(db.communications)| + count
    ensures forall j :: 0 <= j < |db.leads| && j + 1 !in ids ==> db.leads[j] == old(db.leads)[j]
    ensures NeverAssigns(strategy, manualId, db.personnel) || ids == [] ==>
      count == 0 && db.leads == old(db.leads) && db.assignments == old(db.assignments) &&
      db.communications == old(db.communications) && db.notifications == old(db.notifications)
    ensures AlwaysAssigns(strategy, manualId, db.personnel) ==> count == |ids|
    ensures Followed(strategy, manualId, db.personnel, ids, db.leads, |ids|)
  {
    count := 0;
    if |ids| == 0 {
      return;
    }
    ghost var leads0, assignments0, communications0, notifications0 :=
      db.leads, db.assignments, db.communications, db.notifications;
    var i := 0;
    while i < |ids|
      invariant 0 <= i <= |ids|
      invariant db.Valid()
      invariant BulkKept(strategy, manualId, db.personnel, ids, i, count,
                         leads0, assignments0, communications0, notifications0,
                         db.leads, db.assignments, db.communications, db.notifications)
    {
      count := BulkTurn(db, ids, strategy, assignedBy, manualId, today, i, count,
                        leads0, assignments0, communications0, notifications0);
      i := i + 1;
    }
  }

  /** What the loop of `bulk_assign` keeps after the first `i` ids, `count`
      of which were assigned, against the tables it started from: one
      Assignment and one communication per assigned lead; the rows of other
      ids and of the ids still to come as they were; nothing changed under
      settings that never assign, every lead so far assigned under settings
      that always do; and each lead so far placed as the strategy says. */
  predicate BulkKept(strategy: string, manualId: Option<int>, personnel: seq<Personnel>, ids: seq<nat>, i: nat, count: nat,
                     leads0: seq<Lead>, assignments0: seq<Assignment>, communications0: seq<Communication>,
                     notifications0: seq<Notification>, leads: seq<Lead>, assignments: seq<Assignment>,
                     communications: seq<Communication>, notifications: seq<Notification>)
    requires PersonnelIds(personnel) && i <= |ids|
    requires forall k :: 0 <= k < |ids| ==> 1 <= ids[k] <= |leads0|
  {
    count <= i && |leads| == |leads0| &&
    |assignments| == |assignments0| + count && |communications| == |communications0| + count &&
    (forall j :: 0 <= j < |leads| && j + 1 !in ids ==> leads[j] == leads0[j]) &&
    (forall k :: i <= k < |ids| ==> leads[ids[k] - 1] == leads0[ids[k] - 1]) &&
    (NeverAssigns(strategy, manualId, personnel) ==>
      count == 0 && leads == leads0 && assignments == assignments0 &&
      communications == communications0 && notifications == notifications0) &&
    (AlwaysAssigns(strategy, manualId, personnel) ==> count == i) &&
    Followed(strategy, manualId, personnel, ids, leads, i)
  }

  /** The turn of the loop for `ids[i]`: `count'` counts it when it was
      assigned. */
  method BulkTurn(db: Crm, ids: seq<nat>, strategy: string, assignedBy: Personnel, manualId: Option<int>, today: Date,
                  i: nat, count: nat, ghost leads0: seq<Lead>, ghost assignments0: seq<Assignment>,
                  ghost communications0: seq<Communication>, ghost notifications0: seq<Notification>)
    returns (count': nat)
    requires db.Valid() && DistinctIds(ids) && i < |ids|
    requires forall k :: 0 <= k < |ids| ==> 1 <= ids[k] <= |leads0|
    requires BulkKept(strategy, manualId, db.personnel, ids, i, count, leads0, assignments0, communications0, notifications0,
                      db.leads, db.assignments, db.communications, db.notifications)
    modifies db`leads, db`assignments, db`communications, db`notifications
    ensures db.Valid()
    ensures BulkKept(strategy, manualId, db.personnel, ids, i + 1, count', leads0, assignments0, communications0, notifications0,
                     db.leads, db.assignments, db.communications, db.notifications)
  {
    ghost var leads, assignments, communications, notifications :=
      db.leads, db.assignments, db.communications, db.notifications;
    var lead := db.leads[ids[i] - 1];
    assert lead.id == ids[i];
    var didAssign := AssignStep(db, lead, strategy, manualId, assignedBy, i, today);
    BulkKeptStep(strategy, manualId, db.personnel, ids, i, count, leads0, assignments0, communications0, notifications0,
                 leads, assignments, communications, notifications,
                 db.leads, db.assignments, db.communications, db.notifications, didAssign);
    count' := if didAssign then count + 1 else count;
  }

  /** A turn that writes the row of `ids[i]` as the strategy promises, and
      adds one Assignment and one communication exactly when it assigns,
      keeps the loop's facts for one more id. */
  lemma BulkKeptStep(strategy: string, manualId: Option<int>, personnel: seq<Personnel>, ids: seq<nat>, i: nat, count: nat,
                     leads0: seq<Lead>, assignments0: seq<Assignment>, communications0: seq<Communication>,
                     notifications0: seq<Notification>, leads: seq<Lead>, assignments: seq<Assignment>,
                     communications: seq<Communication>, notifications: seq<Notification>, leads': seq<Lead>,
                     assignments': seq<Assignment>, communications': seq<Communication>, notifications': seq<Notification>,
                     didAssign: bool)
    requires PersonnelIds(personnel) && DistinctIds(ids) && i < |ids|
    requires forall k :: 0 <= k < |ids| ==> 1 <= ids[k] <= |leads0|
    requires BulkKept(strategy, manualId, personnel, ids, i, count, leads0, assignments0, communications0, notifications0,
                      leads, assignments, communications, notifications)
    requires AlwaysAssigns(strategy, manualId, personnel) ==> didAssign
    requires NeverAssigns(strategy, manualId, personnel) ==> !didAssign
    requires |leads'| == |leads| && forall j :: 0 <= j < |leads| && j != ids[i] - 1 ==> leads'[j] == leads[j]
    requires FollowsStrategy(strategy, manualId, personnel, i, leads'[ids[i] - 1].assignedTo)
    requires |assignments'| == |assignments| + (if didAssign then 1 else 0)
    requires |communications'| == |communications| + (if didAssign then 1 else 0)
    requires !didAssign ==>
      leads' == leads && assignments' == assignments && communications' == communications && notifications' == notifications
    ensures BulkKept(strategy, manualId, personnel, ids, i + 1, if didAssign then count + 1 else count,
                     leads0, assignments0, communications0, notifications0,
                     leads', assignments', communications', notifications')
  {
    FollowedStep(strategy, manualId, personnel, ids, leads, leads', i);
    assert ids[i] in ids;
    forall k | i + 1 <= k < |ids| ensures leads'[ids[k] - 1] == leads0[ids[k] - 1] {
      assert ids[k] != ids[i];
    }
  }

  /** One turn of the loop: the assignee for `lead` is chosen from the tables
      as they stand, and, when there is one, the lead is assigned. */
  method AssignStep(db: Crm, lead: Lead, strategy: string, manualId: Option<int>, assignedBy: Personnel, i: nat, today: Date)
    returns (didAssign: bool)
    requires db.Valid() && 1 <= lead.id <= |db.leads| && db.leads[lead.id - 1] == lead
    modifies db`leads, db`assignments, db`communications, db`notifications
    ensures db.Valid()
    ensures didAssign == Choose(strategy, manualId, db.personnel, old(db.leads), lead, i).Some?
    ensures AlwaysAssigns(strategy, manualId, db.personnel) ==> didAssign
    ensures NeverAssigns(strategy, manualId, db.personnel) ==> !didAssign
    ensures |db.leads| == |old(db.leads)|
    ensures forall j :: 0 <= j < |db.leads| && j != lead.id - 1 ==> db.leads[j] == old(db.leads)[j]
    ensures FollowsStrategy(strategy, manualId, db.personnel, i, db.leads[lead.id - 1].assignedTo)
    ensures |db.assignments| == |old(db.assignments)| + (if didAssign then 1 else 0)
    ensures |db.communications| == |old(db.communications)| + (if didAssign then 1 else 0)
    ensures !didAssign ==>
      db.leads == old(db.leads) && db.assignments == old(db.assignments) &&
      db.communications == old(db.communications) && db.notifications == old(db.notifications)
  {
    var pick := Choose(strategy, manualId, db.personnel, db.leads, lead, i);
    ChooseFollowsStrategy(strategy, manualId, db.personnel, db.leads, lead, i);
    didAssign := pick.Some?;
    if didAssign {
      var _ := AssignLead(db, lead, pick.value.assignee, assignedBy, pick.value.reason, today);
    }
  }

  /** The leads of the first `n` ids got assignees as the strategy promises. */
  predicate Followed(strategy: string, manualId: Option<int>, personnel: seq<Personnel>, ids: seq<nat>, leads: seq<Lead>, n: nat)
    requires PersonnelIds(personnel) && n <= |ids|
    requires forall k :: 0 <= k < |ids| ==> 1 <= ids[k] <= |leads|
  {
    forall k :: 0 <= k < n ==> FollowsStrategy(strategy, manualId, personnel, k, leads[ids[k] - 1].assignedTo)
  }

  /** Writing the row of `ids[i]` as the strategy promises extends the
      promise to one more lead and leaves the rows of the other ids as they
      were. */
  lemma FollowedStep(strategy: string, manualId: Option<int>, personnel: seq<Personnel>, ids: seq<nat>,
                     before: seq<Lead>, after: seq<Lead>, i: nat)
    requires PersonnelIds(personnel) && DistinctIds(ids) && i < |ids|
    requires forall k :: 0 <= k < |ids| ==> 1 <= ids[k] <= |before|
    requires |after| == |before|
    requires forall j :: 0 <= j < |before| && j != ids[i] - 1 ==> after[j] == before[j]
    requires Followed(strategy, manualId, personnel, ids, before, i)
    requires FollowsStrategy(strategy, manualId, personnel, i, after[ids[i] - 1].assignedTo)
    ensures Followed(strategy, manualId, personnel, ids, after, i + 1)
    ensures forall k :: 0 <= k < |ids| && k != i ==> after[ids[k] - 1] == before[ids[k] - 1]
  {
    forall k | 0 <= k < |ids| && k != i ensures after[ids[k] - 1] == before[ids[k] - 1] {
      assert ids[k] != ids[i];
    }
  }

  /** A member of the table is the row its id names. */
  lemma ActiveMemberHasId(personnel: seq<Personnel>, p: Personnel)
    requires PersonnelIds(personnel) && p in personnel
    ensures PersonById(personnel, p.id) == Some(p)
  {
  }
}
