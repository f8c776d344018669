/** The back end's entities and the rules attached to them: roles and the
    visibility and edit permissions, the status-to-progress map applied on
    save, soft deletion, avatar initials and the derived workload. */
module Models {
  import opened Basics
  import Text

  // ---------------------------------------------------------------------
  // Calendar dates

  datatype Date = Date(year: int, month: int, day: int)

  /** A date `datetime.date` can hold (month lengths are not checked). */
  predicate ValidDate(d: Date)
  {
    1 <= d.year <= 9999 && 1 <= d.month <= 12 && 1 <= d.day <= 31
  }

  /** Chronological order of dates (field by field). */
  predicate DateLeq(a: Date, b: Date)
  {
    a.year < b.year || (a.year == b.year && (a.month < b.month || (a.month == b.month && a.day <= b.day)))
  }

  /** Days since 1970-01-01 in the proleptic Gregorian calendar. */
  function DayNumber(d: Date): int
  {
    var y := if d.month <= 2 then d.year - 1 else d.year;
    var era := y / 400;
    var yoe := y - era * 400;
    var mp := if d.month > 2 then d.month - 3 else d.month + 9;
    var doy := (153 * mp + 2) / 5 + d.day - 1;
    var doe := yoe * 365 + yoe / 4 - yoe / 100 + doy;
    era * 146097 + doe - 719468
  }

  /** `(later - earlier).days`. */
  function DaysBetween(later: Date, earlier: Date): int
  {
    DayNumber(later) - DayNumber(earlier)
  }

  /** The epoch is day 0; 2000 is a leap year and 2100 is not. */
  lemma DayNumberLandmarks()
    ensures DayNumber(Date(1970, 1, 1)) == 0
    ensures DayNumber(Date(2000, 2, 28)) == 11015 && DayNumber(Date(2000, 3, 1)) == 11017
    ensures DayNumber(Date(2100, 2, 28)) == 47540 && DayNumber(Date(2100, 3, 1)) == 47541
  {
    assert 1999 / 400 == 4 && 2000 / 400 == 5 && 2099 / 400 == 5 && 2100 / 400 == 5;
  }

  // ---------------------------------------------------------------------
  // Entities

  /** A user of the system. Ids are positive; `team` is a team's id. */
  datatype Personnel = Personnel(
    id: nat,
    username: string,
    firstName: string,
    lastName: string,
    avatar: string,
    role: string,
    division: Option<string>,
    team: Option<nat>,
    isActive: bool,
    isActivePersonnel: bool)

  datatype Product = Product(id: nat, division: string)

  /** A lead. `dealValue` is in hundredths of the currency unit (the column
      has two decimal places); `assignedTo`, `product`, `team` and
      `createdBy` are ids. */
  datatype Lead = Lead(
    id: nat,
    company: string,
    contactName: string,
    position: string,
    email: string,
    phone: string,
    followUp: Option<Date>,
    status: string,
    priority: string,
    division: string,
    dealValue: int,
    probability: int,
    lastContact: Option<Date>,
    assignedTo: Option<nat>,
    product: Option<nat>,
    team: Option<nat>,
    progress: int,
    createdBy: Option<nat>,
    isDeleted: bool,
    qualityScore: int)

  const StatusChoices: seq<string> :=
    ["new", "contacted", "qualified", "proposal", "negotiation", "hot", "won", "lost", "inactive"]

  /** The statuses counted as open work. */
  const ActiveWorkloadStatuses: seq<string> :=
    ["new", "contacted", "qualified", "proposal", "negotiation", "hot"]

  const DivisionChoices: seq<string> := ["tech", "actuarial", "capital"]

  /** `get_status_display()`: the label of a status choice, the raw value otherwise. */
  function StatusDisplay(s: string): string
  {
    match s
      case "new" => "New"
      case "contacted" => "Contacted"
      case "qualified" => "Qualified"
      case "proposal" => "Proposal"
      case "negotiation" => "Negotiation"
      case "hot" => "Hot"
      case "won" => "Won"
      case "lost" => "Lost"
      case "inactive" => "Inactive"
      case _ => s
  }

  /** `get_communication_type_display()`. */
  function CommunicationTypeDisplay(t: string): string
  {
    match t
      case "call" => "Phone Call"
      case "email" => "Email"
      case "meeting" => "Meeting"
      case "demo" => "Demo/Presentation"
      case "proposal" => "Proposal Sent"
      case "followup" => "Follow-up"
      case "reassignment" => "Reassignment"
      case _ => t
  }

  // ---------------------------------------------------------------------
  // Roles and permissions

  predicate CanManageLeads(u: Personnel)
  {
    u.role in ["admin", "manager", "executive"]
  }

  predicate CanViewAllLeads(u: Personnel)
  {
    u.role in ["admin", "executive"]
  }

  /** Seeing every lead is a special case of managing leads. */
  lemma ViewAllImpliesManage(u: Personnel)
    ensures CanViewAllLeads(u) ==> CanManageLeads(u)
    ensures CanManageLeads(u) && !CanViewAllLeads(u) <==> u.role == "manager"
  {
  }

  /** Python truthiness of a foreign-key id. */
  predicate Truthy(id: Option<nat>)
  {
    id.Some? && id.value != 0
  }

  /** Both sides belong to the same team. */
  predicate SameTeam(l: Lead, u: Personnel)
  {
    Truthy(l.team) && Truthy(u.team) && l.team == u.team
  }

  predicate SameDivision(l: Lead, u: Personnel)
  {
    u.division == Some(l.division)
  }

  predicate AssignedTo(l: Lead, u: Personnel)
  {
    l.assignedTo == Some(u.id)
  }

  predicate CanBeViewedBy(l: Lead, u: Personnel)
  {
    if CanViewAllLeads(u) then true
    else if SameTeam(l, u) then true
    else if CanManageLeads(u) then SameDivision(l, u)
    else AssignedTo(l, u)
  }

  predicate CanBeEditedBy(l: Lead, u: Personnel)
  {
    if CanViewAllLeads(u) then true
    else if CanManageLeads(u) && SameTeam(l, u) then true
    else if CanManageLeads(u) then SameDivision(l, u)
    else AssignedTo(l, u)
  }

  /** Editing is the more restrictive rule; the two differ only for an agent
      on the lead's team. */
  lemma EditImpliesView(l: Lead, u: Personnel)
    ensures CanBeEditedBy(l, u) ==> CanBeViewedBy(l, u)
    ensures CanBeViewedBy(l, u) && !CanBeEditedBy(l, u) ==> !CanManageLeads(u) && SameTeam(l, u)
  {
  }

  /** The query behind `get_accessible_leads` as a condition on one row. */
  predicate InAccessibleQuery(l: Lead, u: Personnel)
  {
    !l.isDeleted &&
    if CanViewAllLeads(u) then true
    else if CanManageLeads(u) then
      if Truthy(u.team) then u.division == Some(l.division) || l.team == u.team
      else u.division == Some(l.division)
    else
      if Truthy(u.team) then l.assignedTo == Some(u.id) || l.team == u.team
      else l.assignedTo == Some(u.id)
  }

  function AccessibleLeads(leads: seq<Lead>, u: Personnel): seq<Lead>
  {
    Filter(leads, (l: Lead) => InAccessibleQuery(l, u))
  }

  /** No deleted lead is accessible, and the view-all roles get every other lead. */
  lemma AccessibleExcludesDeleted(leads: seq<Lead>, u: Personnel)
    ensures forall l :: l in AccessibleLeads(leads, u) ==> !l.isDeleted
    ensures CanViewAllLeads(u) ==> AccessibleLeads(leads, u) == Filter(leads, (l: Lead) => !l.isDeleted)
  {
    if CanViewAllLeads(u) {
      FilterExt(leads, (l: Lead) => InAccessibleQuery(l, u), (l: Lead) => !l.isDeleted);
    }
  }

  /** For a lead that is not deleted, the query and the per-lead view rule agree. */
  lemma AccessibleIffViewable(leads: seq<Lead>, u: Personnel, l: Lead)
    requires !l.isDeleted
    ensures l in AccessibleLeads(leads, u) <==> l in leads && CanBeViewedBy(l, u)
  {
    FilterMember(leads, (x: Lead) => InAccessibleQuery(x, u), l);
  }

  // ---------------------------------------------------------------------
  // Saving and deleting

  /** The progress a status implies on save, when the status is mapped. */
  function ProgressFor(status: string): (r: Option<int>)
    ensures r.Some? <==> status in StatusChoices
    ensures r.Some? ==> 0 <= r.value <= 100
  {
    match status
      case "new" => Some(10)
      case "contacted" => Some(25)
      case "qualified" => Some(50)
      case "proposal" => Some(75)
      case "negotiation" => Some(90)
      case "hot" => Some(95)
      case "won" => Some(100)
      case "lost" => Some(0)
      case "inactive" => Some(0)
      case _ => None
  }

  /** A later stage of the open pipeline never implies less progress. */
  lemma ProgressFollowsPipeline(i: nat, j: nat)
    requires i <= j < 7
    ensures ProgressFor(StatusChoices[i]).value <= ProgressFor(StatusChoices[j]).value
  {
  }

  /** `Lead.save()` on an instance: a lead that is not deleted and has a mapped
      status takes that status's progress; nothing else changes. */
  function Save(l: Lead): (r: Lead)
    ensures r == l.(progress := r.progress)
    ensures !l.isDeleted && ProgressFor(l.status).Some? ==> r.progress == ProgressFor(l.status).value
    ensures l.isDeleted || ProgressFor(l.status).None? ==> r == l
  {
    if !l.isDeleted && ProgressFor(l.status).Some? then l.(progress := ProgressFor(l.status).value) else l
  }

  /** Saving twice is saving once, and a saved lead with a known status has
      progress between 0 and 100. */
  lemma SaveIdempotent(l: Lead)
    ensures Save(Save(l)) == Save(l)
    ensures !l.isDeleted && l.status in StatusChoices ==> 0 <= Save(l).progress <= 100
  {
  }

  /** Writing the quality score of a saved lead leaves it saved: the save
      override looks only at status and the deleted flag. */
  lemma SaveIgnoresQualityScore(l: Lead, q: int)
    ensures Save(l.(qualityScore := q)) == Save(l).(qualityScore := q)
    ensures Save(l) == l ==> Save(l.(qualityScore := q)) == l.(qualityScore := q)
  {
  }

  /** `soft_delete()`: the first call marks the lead deleted, inactive and at 0
      progress; a deleted lead is left as it is. */
  function SoftDelete(l: Lead): (r: Lead)
    ensures r.isDeleted
    ensures !l.isDeleted ==> r == l.(isDeleted := true, status := "inactive", progress := 0)
    ensures l.isDeleted ==> r == l
  {
    if l.isDeleted then l else l.(isDeleted := true, status := "inactive", progress := 0)
  }

  /** Deleting twice is deleting once, a later save leaves a deleted lead's
      progress at 0, and no one can reach it through the accessible query. */
  lemma SoftDeleteIdempotent(l: Lead, u: Personnel)
    ensures SoftDelete(SoftDelete(l)) == SoftDelete(l)
    ensures Save(SoftDelete(l)) == SoftDelete(l)
    ensures !InAccessibleQuery(SoftDelete(l), u)
  {
  }

  // ---------------------------------------------------------------------
  // Derived values

  /** `get_full_name() or username`. */
  function Name(p: Personnel): string
  {
    var full := Text.Trim(p.firstName + " " + p.lastName, Text.Py);
    if full != "" then full else p.username
  }

  function AvatarFrom(avatar: string, firstName: string, lastName: string, username: string): (r: string)
    ensures avatar != "" ==> r == avatar
    ensures avatar == "" && (firstName != "" || lastName != "") ==>
      r == Text.Upper((if firstName != "" then [firstName[0]] else []) + (if lastName != "" then [lastName[0]] else []))
    ensures avatar == "" && firstName == "" && lastName == "" ==>
      r == Text.Upper(username[..if |username| < 2 then |username| else 2])
    ensures avatar == "" ==> 1 <= |r| <= 2 || (r == "" && firstName == "" && lastName == "" && username == "")
  {
    if avatar != "" then avatar
    else
      var initials := (if firstName != "" then [firstName[0]] else []) + (if lastName != "" then [lastName[0]] else []);
      var upper := Text.Upper(initials);
      if upper != "" then upper else Text.Upper(username[..if |username| < 2 then |username| else 2])
  }

  /** `get_avatar()`. */
  function Avatar(p: Personnel): string
  {
    AvatarFrom(p.avatar, p.firstName, p.lastName, p.username)
  }

  /** A lead that counts toward a person's workload. */
  predicate CountsAsWork(l: Lead, personId: nat)
  {
    l.assignedTo == Some(personId) && !l.isDeleted && l.status in ActiveWorkloadStatuses
  }

  /** The `workload` property: open, non-deleted leads assigned to the person. */
  function Workload(leads: seq<Lead>, personId: nat): (n: nat)
    ensures n <= |leads|
  {
    if leads == [] then 0
    else (if CountsAsWork(leads[0], personId) then 1 else 0) + Workload(leads[1..], personId)
  }

  /** The workload is the count of the rows that satisfy the condition. */
  lemma {:induction false} WorkloadIsCount(leads: seq<Lead>, personId: nat)
    ensures Workload(leads, personId) == CountWhere(leads, (l: Lead) => CountsAsWork(l, personId))
  {
    if leads != [] {
      WorkloadIsCount(leads[1..], personId);
    }
  }

  /** Adding a lead raises the workload by one exactly when the lead is open,
      not deleted and assigned to the person: won, lost and inactive leads
      never count. */
  lemma WorkloadSnoc(leads: seq<Lead>, l: Lead, personId: nat)
    ensures Workload(leads + [l], personId) ==
      Workload(leads, personId) + (if CountsAsWork(l, personId) then 1 else 0)
    ensures l.status in ["won", "lost", "inactive"] || l.isDeleted ==> Workload(leads + [l], personId) == Workload(leads, personId)
  {
    WorkloadIsCount(leads + [l], personId);
    WorkloadIsCount(leads, personId);
    CountSnoc(leads, l, (x: Lead) => CountsAsWork(x, personId));
  }

  /** The workload is the number of leads whose row satisfies the condition. */
  lemma WorkloadIsMatchingLeads(leads: seq<Lead>, personId: nat)
    ensures Workload(leads, personId) == |Filter(leads, (l: Lead) => CountsAsWork(l, personId))|
    ensures Workload(leads, personId) <= |leads|
  {
    WorkloadIsCount(leads, personId);
    CountIsFilterLength(leads, (l: Lead) => CountsAsWork(l, personId));
  }

  /** Writing one row changes a person's workload only by what that row
      contributed before and after. */
  lemma WorkloadUpdate(leads: seq<Lead>, k: nat, l: Lead, personId: nat)
    requires k < |leads|
    ensures Workload(leads[k := l], personId) + (if CountsAsWork(leads[k], personId) then 1 else 0) ==
      Workload(leads, personId) + (if CountsAsWork(l, personId) then 1 else 0)
  {
    WorkloadIsCount(leads[k := l], personId);
    WorkloadIsCount(leads, personId);
    CountUpdate(leads, k, l, (x: Lead) => CountsAsWork(x, personId));
  }
}
