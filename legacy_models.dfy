/** The earlier schema: personnel carry an explicit `workload` counter that
    the views keep in step by hand, there are three roles, leads are deleted
    for good, and editing a lead needs the same right as seeing it. */
module LegacyModels {
  import opened Basics
  import Models
  import Text

  datatype Person = Person(
    id: nat,
    username: string,
    firstName: string,
    lastName: string,
    avatar: string,
    role: string,
    division: Option<string>,
    workload: int,
    isActivePersonnel: bool)

  datatype Lead = Lead(
    id: nat,
    company: string,
    division: string,
    status: string,
    progress: int,
    assignedTo: Option<nat>,
    followUp: Option<Models.Date>,
    lastContact: Option<Models.Date>)

  datatype Assignment = Assignment(lead: nat, fromPersonnel: Option<nat>, toPersonnel: nat, assignedBy: nat, reason: string)

  datatype Communication = Communication(lead: nat, kind: string, note: string, user: nat, date: Models.Date)

  // ---------------------------------------------------------------------
  // Roles and permissions

  predicate CanManageLeads(u: Person)
  {
    u.role in ["admin", "manager"]
  }

  predicate CanViewAllLeads(u: Person)
  {
    u.role == "admin"
  }

  /** Seeing everything is a special case of managing; a manager manages
      without seeing everything. */
  lemma ViewAllImpliesManage(u: Person)
    ensures CanViewAllLeads(u) ==> CanManageLeads(u)
    ensures CanManageLeads(u) && !CanViewAllLeads(u) <==> u.role == "manager"
  {
  }

  /** The query behind `get_accessible_leads` as a condition on one row: every
      lead for an admin, the manager's division (nothing when the manager has
      none), the agent's own leads. */
  predicate InAccessibleQuery(l: Lead, u: Person)
  {
    if CanViewAllLeads(u) then true
    else if CanManageLeads(u) then u.division == Some(l.division)
    else l.assignedTo == Some(u.id)
  }

  function AccessibleLeads(leads: seq<Lead>, u: Person): (r: seq<Lead>)
    ensures |r| <= |leads|
    ensures forall l :: l in r <==> l in leads && InAccessibleQuery(l, u)
  {
    if leads == [] then []
    else
      var l := leads[0];
      assert leads == [l] + leads[1..];
      (if InAccessibleQuery(l, u) then [l] else []) + AccessibleLeads(leads[1..], u)
  }

  predicate CanBeViewedBy(l: Lead, u: Person)
  {
    if CanViewAllLeads(u) then true
    else if CanManageLeads(u) then Some(l.division) == u.division
    else l.assignedTo == Some(u.id)
  }

  predicate CanBeEditedBy(l: Lead, u: Person)
  {
    if CanViewAllLeads(u) then true
    else if CanManageLeads(u) then Some(l.division) == u.division
    else l.assignedTo == Some(u.id)
  }

  /** The accessible query lists exactly the leads the user may see, and the
      edit right is the view right. */
  lemma AccessMatchesView(leads: seq<Lead>, u: Person)
    ensures forall l :: l in AccessibleLeads(leads, u) <==> l in leads && CanBeViewedBy(l, u)
    ensures forall l: Lead :: CanBeEditedBy(l, u) <==> CanBeViewedBy(l, u)
    ensures CanViewAllLeads(u) ==> AccessibleLeads(leads, u) == leads
  {
    if CanViewAllLeads(u) {
      AllAccessible(leads, u);
    }
  }

  lemma {:induction false} AllAccessible(leads: seq<Lead>, u: Person)
    requires CanViewAllLeads(u)
    ensures AccessibleLeads(leads, u) == leads
  {
    if leads != [] {
      AllAccessible(leads[1..], u);
      assert leads == [leads[0]] + leads[1..];
    }
  }

  /** `get_avatar`, which is the same rule as in the later schema. */
  function Avatar(p: Person): (r: string)
    ensures p.avatar != "" ==> r == p.avatar
    ensures p.avatar == "" && (p.firstName != "" || p.lastName != "") ==>
      r == Text.Upper((if p.firstName != "" then [p.firstName[0]] else []) + (if p.lastName != "" then [p.lastName[0]] else []))
    ensures p.avatar == "" && p.firstName == "" && p.lastName == "" ==>
      r == Text.Upper(p.username[..if |p.username| < 2 then |p.username| else 2])
  {
    Models.AvatarFrom(p.avatar, p.firstName, p.lastName, p.username)
  }

  /** The `name` property: `get_full_name() or username`. */
  function Name(p: Person): string
  {
    var full := Text.Trim(p.firstName + " " + p.lastName, Text.Py);
    if full != "" then full else p.username
  }

  // ---------------------------------------------------------------------
  // Progress

  /** The map `log_communication` applies with a new status; unknown
      statuses get 10. */
  function StatusProgress(status: string): (r: int)
    ensures 0 <= r <= 100
    ensures r == 100 <==> status == "won"
    ensures r == 0 <==> status in ["lost", "inactive"]
    ensures status !in Models.StatusChoices ==> r == 10
  {
    match status
      case "new" => 10
      case "contacted" => 25
      case "qualified" => 50
      case "proposal" => 70
      case "negotiation" => 85
      case "hot" => 90
      case "won" => 100
      case "lost" => 0
      case "inactive" => 0
      case _ => 10
  }

  /** The map rises along the pipeline new, contacted, qualified, proposal,
      negotiation, hot, won. */
  lemma ProgressAlongPipeline(i: nat, j: nat)
    requires i < j < 7
    ensures StatusProgress(Models.StatusChoices[i]) < StatusProgress(Models.StatusChoices[j])
  {
  }

  // ---------------------------------------------------------------------
  // The workload counter

  /** Number of leads assigned to person `pid`: what the counter stands for. */
  function Assigned(leads: seq<Lead>, pid: nat): nat
  {
    if leads == [] then 0
    else Assigned(leads[..|leads| - 1], pid) + (if leads[|leads| - 1].assignedTo == Some(pid) then 1 else 0)
  }

  /** Personnel rows are numbered from 1 in table order. */
  predicate PersonIds(t: seq<Person>)
  {
    forall i :: 0 <= i < |t| ==> t[i].id == i + 1
  }

  /** Every counter equals the number of leads assigned to its person. */
  predicate CountersMatch(personnel: seq<Person>, leads: seq<Lead>)
  {
    forall i :: 0 <= i < |personnel| ==> personnel[i].workload == Assigned(leads, i + 1)
  }

  predicate CountersNonNegative(personnel: seq<Person>)
  {
    forall i :: 0 <= i < |personnel| ==> personnel[i].workload >= 0
  }

  lemma {:induction false} AssignedUpdate(leads: seq<Lead>, k: nat, l: Lead, pid: nat)
    requires k < |leads|
    ensures Assigned(leads[k := l], pid) + (if leads[k].assignedTo == Some(pid) then 1 else 0) ==
            Assigned(leads, pid) + (if l.assignedTo == Some(pid) then 1 else 0)
  {
    var n := |leads| - 1;
    if k < n {
      AssignedUpdate(leads[..n], k, l, pid);
      assert leads[k := l][..n] == leads[..n][k := l];
    } else {
      assert leads[k := l][..n] == leads[..n];
    }
  }

  lemma {:induction false} AssignedAppend(leads: seq<Lead>, l: Lead, pid: nat)
    ensures Assigned(leads + [l], pid) == Assigned(leads, pid) + (if l.assignedTo == Some(pid) then 1 else 0)
  {
    assert (leads + [l])[..|leads|] == leads;
  }

  lemma {:induction false} AssignedRemove(leads: seq<Lead>, k: nat, pid: nat)
    requires k < |leads|
    ensures Assigned(leads[..k] + leads[k + 1..], pid) + (if leads[k].assignedTo == Some(pid) then 1 else 0) ==
            Assigned(leads, pid)
  {
    var n := |leads| - 1;
    if k < n {
      AssignedRemove(leads[..n], k, pid);
      assert leads[..n][..k] == leads[..k];
      assert (leads[..k] + leads[k + 1..])[..n - 1] == leads[..n][..k] + leads[..n][k + 1..];
    } else {
      assert leads[..k] + leads[k + 1..] == leads[..n];
    }
  }

  /** `max(0, workload - 1)` on the current row of `pid`. */
  function Decremented(personnel: seq<Person>, pid: nat): seq<Person>
    requires 1 <= pid <= |personnel|
  {
    var p := personnel[pid - 1];
    personnel[pid - 1 := p.(workload := if p.workload - 1 > 0 then p.workload - 1 else 0)]
  }

  function Incremented(personnel: seq<Person>, pid: nat): seq<Person>
    requires 1 <= pid <= |personnel|
  {
    var p := personnel[pid - 1];
    personnel[pid - 1 := p.(workload := p.workload + 1)]
  }

  /** A lead moves from `from` to `to`: the old holder's counter drops,
      floored at 0, then the new holder's current counter rises. */
  function Transfer(personnel: seq<Person>, from: Option<nat>, to: Option<nat>): seq<Person>
    requires from.Some? ==> 1 <= from.value <= |personnel|
    requires to.Some? ==> 1 <= to.value <= |personnel|
  {
    var dropped := if from.Some? then Decremented(personnel, from.value) else personnel;
    if to.Some? then Incremented(dropped, to.value) else dropped
  }

  /** Rewriting lead `k` with the counters moved along keeps every counter
      equal to its person's lead count, including when the lead stays with
      the same person. */
  lemma TransferKeepsCounters(personnel: seq<Person>, leads: seq<Lead>, k: nat, l: Lead)
    requires CountersMatch(personnel, leads) && k < |leads|
    requires leads[k].assignedTo.Some? ==> 1 <= leads[k].assignedTo.value <= |personnel|
    requires l.assignedTo.Some? ==> 1 <= l.assignedTo.value <= |personnel|
    ensures CountersMatch(Transfer(personnel, leads[k].assignedTo, l.assignedTo), leads[k := l])
    ensures |Transfer(personnel, leads[k].assignedTo, l.assignedTo)| == |personnel|
  {
    var after := Transfer(personnel, leads[k].assignedTo, l.assignedTo);
    forall i | 0 <= i < |personnel| ensures after[i].workload == Assigned(leads[k := l], i + 1) {
      AssignedUpdate(leads, k, l, i + 1);
      if leads[k].assignedTo == Some(i + 1) {
        AssignedUpdate(leads, k, leads[k].(assignedTo := None), i + 1);
      }
    }
  }

  lemma TransferKeepsNonNegative(personnel: seq<Person>, from: Option<nat>, to: Option<nat>)
    requires CountersNonNegative(personnel)
    requires from.Some? ==> 1 <= from.value <= |personnel|
    requires to.Some? ==> 1 <= to.value <= |personnel|
    ensures CountersNonNegative(Transfer(personnel, from, to))
    ensures PersonIds(personnel) ==> PersonIds(Transfer(personnel, from, to))
    ensures forall i :: 0 <= i < |personnel| ==>
      Transfer(personnel, from, to)[i] == personnel[i].(workload := Transfer(personnel, from, to)[i].workload)
  {
  }

  /** What `reassign_lead` and the legacy `bulk_assign` write as written: the
      old holder and the new one are two objects loaded before either save,
      so when they are the same person the second save overwrites the first
      with the stale counter plus one. */
  function StaleTransfer(personnel: seq<Person>, from: Option<nat>, to: nat): seq<Person>
    requires from.Some? ==> 1 <= from.value <= |personnel|
    requires 1 <= to <= |personnel|
  {
    var oldObject := if from.Some? then Some(personnel[from.value - 1]) else None;
    var newObject := personnel[to - 1];
    var afterOld :=
      if oldObject.Some?
      then personnel[from.value - 1 := oldObject.value.(workload := if oldObject.value.workload - 1 > 0 then oldObject.value.workload - 1 else 0)]
      else personnel;
    afterOld[to - 1 := newObject.(workload := newObject.workload + 1)]
  }

  /** With different holders the stale objects do no harm; with the same
      holder the counter ends one above its lead count. */
  lemma StaleTransferDrift(personnel: seq<Person>, leads: seq<Lead>, k: nat, to: nat)
    requires CountersMatch(personnel, leads) && k < |leads|
    requires leads[k].assignedTo.Some? ==> 1 <= leads[k].assignedTo.value <= |personnel|
    requires 1 <= to <= |personnel|
    ensures leads[k].assignedTo != Some(to) ==>
      StaleTransfer(personnel, leads[k].assignedTo, to) == Transfer(personnel, leads[k].assignedTo, Some(to))
    ensures leads[k].assignedTo == Some(to) ==>
      StaleTransfer(personnel, leads[k].assignedTo, to)[to - 1].workload ==
      Assigned(leads[k := leads[k].(assignedTo := Some(to))], to) + 1
  {
    if leads[k].assignedTo == Some(to) {
      assert leads[k := leads[k].(assignedTo := Some(to))] == leads;
    }
  }

  /** A concrete case: one lead held by person 1, reassigned to person 1. */
  lemma StaleTransferExample()
    ensures
      var p := Person(1, "amy", "Amy", "Lee", "", "agent", Some("tech"), 1, true);
      var l := Lead(1, "Acme", "tech", "new", 10, Some(1), None, None);
      CountersMatch([p], [l]) &&
      StaleTransfer([p], Some(1), 1)[0].workload == 2 &&
      Transfer([p], Some(1), Some(1))[0].workload == 1 &&
      Assigned([l], 1) == 1
  {
    var l := Lead(1, "Acme", "tech", "new", 10, Some(1), None, None);
    assert [l][..0] == [];
  }

  /** A new lead with an assignee adds one to that person's counter. */
  lemma InsertKeepsCounters(personnel: seq<Person>, leads: seq<Lead>, l: Lead)
    requires CountersMatch(personnel, leads)
    requires l.assignedTo.Some? ==> 1 <= l.assignedTo.value <= |personnel|
    ensures CountersMatch(if l.assignedTo.Some? then Incremented(personnel, l.assignedTo.value) else personnel, leads + [l])
  {
    var after := if l.assignedTo.Some? then Incremented(personnel, l.assignedTo.value) else personnel;
    forall i | 0 <= i < |personnel| ensures after[i].workload == Assigned(leads + [l], i + 1) {
      AssignedAppend(leads, l, i + 1);
    }
  }

  /** Deleting a lead takes one off its holder's counter. */
  lemma RemoveKeepsCounters(personnel: seq<Person>, leads: seq<Lead>, k: nat)
    requires CountersMatch(personnel, leads) && k < |leads|
    requires leads[k].assignedTo.Some? ==> 1 <= leads[k].assignedTo.value <= |personnel|
    ensures CountersMatch(Transfer(personnel, leads[k].assignedTo, None), leads[..k] + leads[k + 1..])
  {
    var after := Transfer(personnel, leads[k].assignedTo, None);
    forall i | 0 <= i < |personnel| ensures after[i].workload == Assigned(leads[..k] + leads[k + 1..], i + 1) {
      AssignedRemove(leads, k, i + 1);
    }
  }
}
