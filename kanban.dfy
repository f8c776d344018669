/** The Leads page: a Kanban board of seven status columns over the loaded
    leads, with drag-and-drop status changes applied optimistically and
    rolled back when the update request fails. */
module Kanban {
  import opened Basics
  import opened Client

  /** The column keys, in display order. */
  const Statuses: seq<string> := ["new", "contacted", "qualified", "proposal", "negotiation", "won", "lost"]

  lemma StatusesDistinct()
    ensures forall i, j :: 0 <= i < j < |Statuses| ==> Statuses[i] != Statuses[j]
  {
  }

  /** The request sent for an accepted drop: `updateLead(id, {status})`. */
  datatype StatusUpdate = StatusUpdate(leadKey: string, status: string)

  // ---------------------------------------------------------------------
  // Filtering and grouping

  /** The filter panel: "all" or one value, for status and for division. */
  datatype Filters = Filters(status: string, division: string)

  predicate MatchesStatus(l: Lead, f: Filters)
  {
    f.status == "all" || l.status == f.status
  }

  /** The division must be present and non-empty, and equal to the filter
      after lower-casing. */
  predicate MatchesDivision(l: Lead, f: Filters)
  {
    f.division == "all" || (TruthyStr(l.division) && Text.Lower(l.division.value) == f.division)
  }

  predicate Matches(l: Lead, f: Filters)
  {
    MatchesStatus(l, f) && MatchesDivision(l, f)
  }

  function FilteredLeads(leads: seq<Lead>, f: Filters): seq<Lead>
  {
    Filter(leads, l => Matches(l, f))
  }

  /** The cards shown in the column of `status`. */
  function GroupedLeads(filtered: seq<Lead>, status: string): seq<Lead>
  {
    Filter(filtered, HasStatus(status))
  }

  function HasStatus(status: string): Lead -> bool
  {
    (l: Lead) => l.status == status
  }

  function HasStatusIn(ks: seq<string>): Lead -> bool
  {
    (l: Lead) => l.status in ks
  }

  /** With both filters at "all" every lead is shown. */
  lemma FilterAllShowsEverything(leads: seq<Lead>)
    ensures FilteredLeads(leads, Filters("all", "all")) == leads
  {
    FilterAll(leads, l => Matches(l, Filters("all", "all")));
  }

  /** Otherwise the shown leads are the matching ones, in their original order,
      and no matching lead is dropped. */
  lemma FilteredLeadsSpec(leads: seq<Lead>, f: Filters)
    ensures IsSubseq(FilteredLeads(leads, f), leads)
    ensures forall l :: l in FilteredLeads(leads, f) <==> l in leads && Matches(l, f)
  {
    FilterIsSubseq(leads, l => Matches(l, f));
    forall l ensures l in FilteredLeads(leads, f) <==> l in leads && Matches(l, f) {
      FilterMember(leads, l => Matches(l, f), l);
    }
  }

  /** A column holds exactly the shown leads of its status, in order. */
  lemma GroupedLeadsSpec(filtered: seq<Lead>, status: string)
    ensures IsSubseq(GroupedLeads(filtered, status), filtered)
    ensures forall l :: l in GroupedLeads(filtered, status) <==> l in filtered && l.status == status
  {
    FilterIsSubseq(filtered, HasStatus(status));
    forall l ensures l in GroupedLeads(filtered, status) <==> l in filtered && l.status == status {
      FilterMember(filtered, HasStatus(status), l);
    }
  }

  /** A lead whose status is not a column key (for instance "hot") is on no column. */
  lemma UnlistedStatusOnNoColumn(filtered: seq<Lead>, l: Lead)
    requires l.status !in Statuses
    ensures forall s :: s in Statuses ==> l !in GroupedLeads(filtered, s)
  {
    forall s | s in Statuses ensures l !in GroupedLeads(filtered, s) {
      FilterMember(filtered, HasStatus(s), l);
    }
  }

  /** Total number of cards over the columns `ks`. */
  function ColumnTotal(filtered: seq<Lead>, ks: seq<string>): nat
  {
    if ks == [] then 0 else |GroupedLeads(filtered, ks[0])| + ColumnTotal(filtered, ks[1..])
  }

  lemma {:induction false} ColumnTotalIsListed(filtered: seq<Lead>, ks: seq<string>)
    requires forall i, j :: 0 <= i < j < |ks| ==> ks[i] != ks[j]
    ensures ColumnTotal(filtered, ks) == |Filter(filtered, HasStatusIn(ks))|
  {
    if ks == [] {
      FilterNone(filtered, HasStatusIn(ks));
    } else {
      var k, rest := ks[0], ks[1..];
      ColumnTotalIsListed(filtered, rest);
      assert k !in rest by {
        forall j | 0 <= j < |rest| ensures rest[j] != k {
          assert rest[j] == ks[j + 1];
        }
      }
      FilterDisjointUnion(filtered, HasStatus(k), HasStatusIn(rest), HasStatusIn(ks));
    }
  }

  /** The board shows every filtered lead with a listed status exactly once. */
  lemma BoardShowsListedLeadsOnce(leads: seq<Lead>, f: Filters)
    ensures ColumnTotal(FilteredLeads(leads, f), Statuses)
         == |Filter(FilteredLeads(leads, f), HasStatusIn(Statuses))|
  {
    StatusesDistinct();
    ColumnTotalIsListed(FilteredLeads(leads, f), Statuses);
  }

  // ---------------------------------------------------------------------
  // Drop resolution

  /** The lead whose card id is `key`. */
  function FindByKey(leads: seq<Lead>, key: string): (r: Option<Lead>)
    ensures r.Some? ==> r.value in leads && Key(r.value) == key
    ensures r.Some? ==> exists i :: 0 <= i < |leads| && leads[i] == r.value && forall j :: 0 <= j < i ==> Key(leads[j]) != key
    ensures r.None? <==> forall i :: 0 <= i < |leads| ==> Key(leads[i]) != key
  {
    First(leads, l => Key(l) == key)
  }

  /** The status a drop asks for: a column key as it is, or the current status
      of the card dropped upon; None when there is no target or the target is
      neither. */
  function ResolveTarget(leads: seq<Lead>, over: Option<string>): Option<string>
  {
    match over
      case None => None
      case Some(o) =>
        if o in Statuses then Some(o)
        else match FindByKey(leads, o)
          case None => None
          case Some(l) => Some(l.status)
  }

  /** The update a drop of the card `active` onto `over` sends, if any. */
  function DropRequest(leads: seq<Lead>, active: string, over: Option<string>): Option<StatusUpdate>
  {
    match ResolveTarget(leads, over)
      case None => None
      case Some(target) =>
        match FindByKey(leads, active)
          case None => None
          case Some(l) => if l.status == target then None else Some(StatusUpdate(active, target))
  }

  /** The list with the card `key` moved to `status`. */
  function SetStatus(leads: seq<Lead>, key: string, status: string): (r: seq<Lead>)
    ensures |r| == |leads|
  {
    seq(|leads|, i requires 0 <= i < |leads| =>
      if Key(leads[i]) == key then leads[i].(status := status) else leads[i])
  }

  /** Without a target, or with a target that is neither a column nor a card,
      a drop sends nothing. */
  lemma NoTargetNoRequest(leads: seq<Lead>, active: string, over: Option<string>)
    requires over.None? || (over.value !in Statuses && forall i :: 0 <= i < |leads| ==> Key(leads[i]) != over.value)
    ensures DropRequest(leads, active, over).None?
  {
  }

  /** Dropping onto a card asks for that card's status, even one without a column. */
  lemma CardTargetResolves(leads: seq<Lead>, o: string, i: nat)
    requires o !in Statuses && i < |leads| && Key(leads[i]) == o
    requires forall j :: 0 <= j < i ==> Key(leads[j]) != o
    ensures ResolveTarget(leads, Some(o)) == Some(leads[i].status)
  {
  }

  /** An unknown dragged card, or a drop onto its own status, sends nothing. */
  lemma SameStatusNoRequest(leads: seq<Lead>, active: string, over: Option<string>)
    requires ResolveTarget(leads, over).Some?
    requires FindByKey(leads, active).None? ||
             FindByKey(leads, active).value.status == ResolveTarget(leads, over).value
    ensures DropRequest(leads, active, over).None?
  {
  }

  /** An accepted drop asks to move the dragged card, and only to a status it
      does not have. */
  lemma RequestWellFormed(leads: seq<Lead>, active: string, over: Option<string>)
    requires DropRequest(leads, active, over).Some?
    ensures DropRequest(leads, active, over).value.leadKey == active
    ensures ResolveTarget(leads, over) == Some(DropRequest(leads, active, over).value.status)
    ensures FindByKey(leads, active).Some?
    ensures FindByKey(leads, active).value.status != DropRequest(leads, active, over).value.status
  {
  }

  /** Moving a card changes the status of that card and nothing else: the
      length, the order, the other leads and the card's other fields stay. */
  lemma SetStatusOnlyThatCard(leads: seq<Lead>, l: Lead, status: string)
    requires UniqueIds(leads) && l in leads
    ensures |SetStatus(leads, Key(l), status)| == |leads|
    ensures forall i :: 0 <= i < |leads| && leads[i].id != l.id ==> SetStatus(leads, Key(l), status)[i] == leads[i]
    ensures forall i :: 0 <= i < |leads| && leads[i].id == l.id ==>
      SetStatus(leads, Key(l), status)[i] == leads[i].(status := status) && leads[i] == l
  {
    var r := SetStatus(leads, Key(l), status);
    var k :| 0 <= k < |leads| && leads[k] == l;
    forall i | 0 <= i < |leads| && leads[i].id != l.id ensures r[i] == leads[i] {
      if Key(leads[i]) == Key(l) {
        KeyNamesId(leads[i], l);
      }
    }
    forall i | 0 <= i < |leads| && leads[i].id == l.id
      ensures r[i] == leads[i].(status := status) && leads[i] == l
    {
      assert i == k;
    }
  }

  // ---------------------------------------------------------------------
  // The page state

  /** The list with entries of the same id replaced (`handleLeadUpdated`). */
  function ReplaceById(leads: seq<Lead>, updated: Lead): (r: seq<Lead>)
    ensures |r| == |leads|
  {
    seq(|leads|, i requires 0 <= i < |leads| => if leads[i].id == updated.id then updated else leads[i])
  }

  /** The list without the entries of that id (`handleLeadDeleted`). */
  function RemoveById(leads: seq<Lead>, id: int): seq<Lead>
  {
    Filter(leads, (l: Lead) => l.id != id)
  }

  /** Updating replaces every entry with that id and only those; the updated
      lead is in the list afterwards exactly when its id was there before. */
  lemma ReplaceByIdSpec(leads: seq<Lead>, updated: Lead)
    ensures forall i :: 0 <= i < |leads| ==>
      ReplaceById(leads, updated)[i] == (if leads[i].id == updated.id then updated else leads[i])
    ensures updated in ReplaceById(leads, updated) <==> exists i :: 0 <= i < |leads| && leads[i].id == updated.id
  {
    var r := ReplaceById(leads, updated);
    if exists i :: 0 <= i < |leads| && leads[i].id == updated.id {
      var i :| 0 <= i < |leads| && leads[i].id == updated.id;
      assert r[i] == updated;
    }
  }

  lemma RemoveByIdSpec(leads: seq<Lead>, id: int)
    ensures IsSubseq(RemoveById(leads, id), leads)
    ensures forall l :: l in RemoveById(leads, id) <==> l in leads && l.id != id
  {
    FilterIsSubseq(leads, (l: Lead) => l.id != id);
    forall l ensures l in RemoveById(leads, id) <==> l in leads && l.id != id {
      FilterMember(leads, (l: Lead) => l.id != id, l);
    }
  }

  class Board {
    /** The loaded leads, in server order. */
    var leads: seq<Lead>
    /** The card being dragged. */
    var activeId: Option<string>
    /** The lead open in the detail modal. */
    var selected: Option<Lead>

    /** The page after the initial fetch. */
    constructor(loaded: seq<Lead>)
      ensures leads == loaded && activeId == None && selected == None
    {
      leads := loaded;
      activeId := None;
      selected := None;
    }

    method DragStart(active: string)
      modifies this`activeId
      ensures activeId == Some(active)
    {
      activeId := Some(active);
    }

    /** A drop of card `active` onto `over`. `updateSucceeds` is the outcome of
        the update request, when one is sent. */
    method DragEnd(active: string, over: Option<string>, updateSucceeds: bool) returns (sent: Option<StatusUpdate>)
      modifies this`activeId, this`leads
      ensures activeId == None
      ensures sent == DropRequest(old(leads), active, over)
      ensures sent.None? ==> leads == old(leads)
      ensures sent.Some? && updateSucceeds ==> leads == SetStatus(old(leads), active, sent.value.status)
      ensures sent.Some? && !updateSucceeds ==> leads == old(leads)
    {
      activeId := None;
      if over.None? {
        return None;
      }
      var newStatus := over.value;
      if newStatus !in Statuses {
        var overLead := FindByKey(leads, over.value);
        if overLead.Some? {
          newStatus := overLead.value.status;
        } else {
          return None;
        }
      }
      var lead := FindByKey(leads, active);
      if lead.None? || lead.value.status == newStatus {
        return None;
      }
      var oldLeads := leads;
      leads := SetStatus(leads, active, newStatus);
      sent := Some(StatusUpdate(active, newStatus));
      if !updateSucceeds {
        leads := oldLeads;
      }
    }

    method LeadCreated(l: Lead)
      modifies this`leads
      ensures leads == [l] + old(leads)
    {
      leads := [l] + leads;
    }

    method LeadClicked(l: Lead)
      modifies this`selected
      ensures selected == Some(l)
    {
      selected := Some(l);
    }

    method LeadUpdated(updated: Lead)
      modifies this`leads, this`selected
      ensures leads == ReplaceById(old(leads), updated)
      ensures selected == Some(updated)
    {
      leads := ReplaceById(leads, updated);
      selected := Some(updated);
    }

    method LeadDeleted(id: int)
      modifies this`leads, this`selected
      ensures leads == RemoveById(old(leads), id)
      ensures selected == None
    {
      leads := RemoveById(leads, id);
      selected := None;
    }
  }
}
