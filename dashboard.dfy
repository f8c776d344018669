/** The Dashboard page: quick-view cards whose counts come from the loaded
    leads, and the lists their clicks (and the division and personnel
    widgets) open in a modal. */
module Dashboard {
  import opened Basics
  import opened Client

  /** The leads response: an array of leads, or anything else. */
  datatype LeadsResponse = LeadArray(leads: seq<Lead>) | NotAnArray

  /** What a card counts (the predicate handed to `getCount`). */
  datatype Counter = StatusIs(status: string) | NotAssigned | HighPriority | Everything

  /** One quick-view card: its title, what it counts and the type its click sends. */
  datatype Card = Card(title: string, counter: Counter, clickType: string)

  /** The ten cards, in display order. */
  const Cards: seq<Card> := [
    Card("Hot Leads", StatusIs("hot"), "hot"),
    Card("Qualified", StatusIs("qualified"), "qualified"),
    Card("Proposal Sent", StatusIs("proposal"), "proposal"),
    Card("Negotiations", StatusIs("negotiation"), "negotiation"),
    Card("Contacted", StatusIs("contacted"), "contacted"),
    Card("Won Deals", StatusIs("won"), "won"),
    Card("Unassigned", NotAssigned, "unassigned"),
    Card("High Priority", HighPriority, "priority"),
    Card("Lost Deals", StatusIs("lost"), "lost"),
    Card("All Leads", Everything, "all")
  ]

  function LoadLeads(response: LeadsResponse): (r: seq<Lead>)
    ensures response.NotAnArray? ==> r == []
    ensures response.LeadArray? ==> r == response.leads
  {
    match response
      case LeadArray(ls) => ls
      case NotAnArray => []
  }

  function CounterHolds(c: Counter): Lead -> bool
  {
    match c
      case StatusIs(s) => (l: Lead) => l.status == s
      case NotAssigned => (l: Lead) => !TruthyNum(l.assignedTo)
      case HighPriority => (l: Lead) => l.priority == "high"
      case Everything => (l: Lead) => true
  }

  /** The number shown on a card. */
  function CardCount(leads: seq<Lead>, c: Counter): nat
  {
    match c
      case Everything => |leads|
      case _ => CountWhere(leads, CounterHolds(c))
  }

  /** The predicate behind each case of the click switch; None for the
      default case, which opens every lead. */
  function ClickFilter(clickType: string): Option<Lead -> bool>
  {
    if clickType in ["hot", "qualified", "contacted", "proposal", "negotiation", "won", "lost"] then
      Some((l: Lead) => l.status == clickType)
    else if clickType == "unassigned" then Some((l: Lead) => !TruthyNum(l.assignedTo))
    else if clickType == "priority" then Some((l: Lead) => l.priority == "high")
    else None
  }

  /** The list a card click opens. */
  function CardResults(leads: seq<Lead>, clickType: string): seq<Lead>
  {
    match ClickFilter(clickType)
      case None => leads
      case Some(p) => Filter(leads, p)
  }

  /** The list a division or personnel widget opens: strict equality of the
      field with the clicked value; any other widget type opens nothing. */
  function FilterResults(leads: seq<Lead>, filterType: string, value: JsValue): seq<Lead>
  {
    if filterType == "division" then Filter(leads, (l: Lead) => StrValue(l.division) == value)
    else if filterType == "personnel" then Filter(leads, (l: Lead) => NumValue(l.assignedTo) == value)
    else []
  }

  /** Every card shows the length of the list its click opens. */
  lemma CardCountMatchesList(leads: seq<Lead>, i: nat)
    requires i < |Cards|
    ensures CardCount(leads, Cards[i].counter) == |CardResults(leads, Cards[i].clickType)|
  {
    var c := Cards[i];
    if c.counter != Everything {
      var p := ClickFilter(c.clickType).value;
      CountIsFilterLength(leads, CounterHolds(c.counter));
      FilterExt(leads, CounterHolds(c.counter), p);
    }
  }

  /** A status card counts the loaded leads with that status. */
  lemma StatusCardCount(leads: seq<Lead>, s: string)
    ensures CardCount(leads, StatusIs(s)) == |Filter(leads, (l: Lead) => l.status == s)|
  {
    CountIsFilterLength(leads, CounterHolds(StatusIs(s)));
    FilterExt(leads, CounterHolds(StatusIs(s)), (l: Lead) => l.status == s);
  }

  /** A click opens the matching leads in their loaded order; an unknown type
      (including "new", which has no case) opens all of them. */
  lemma CardResultsSpec(leads: seq<Lead>, clickType: string)
    ensures IsSubseq(CardResults(leads, clickType), leads)
    ensures ClickFilter(clickType).None? ==> CardResults(leads, clickType) == leads
    ensures ClickFilter(clickType).Some? ==> forall l :: l in CardResults(leads, clickType) <==>
      l in leads && ClickFilter(clickType).value(l)
  {
    match ClickFilter(clickType)
      case None => SubseqRefl(leads);
      case Some(p) =>
        FilterIsSubseq(leads, p);
        forall l ensures l in Filter(leads, p) <==> l in leads && p(l) {
          FilterMember(leads, p, l);
        }
  }

  /** The unassigned card selects leads whose assignee is null or 0; the priority
      card selects priority "high". */
  lemma UnassignedAndPriority(leads: seq<Lead>)
    ensures forall l :: l in CardResults(leads, "unassigned") <==> l in leads && (l.assignedTo.None? || l.assignedTo == Some(0))
    ensures forall l :: l in CardResults(leads, "priority") <==> l in leads && l.priority == "high"
  {
    CardResultsSpec(leads, "unassigned");
    CardResultsSpec(leads, "priority");
  }

  lemma FilterResultsSpec(leads: seq<Lead>, filterType: string, value: JsValue)
    ensures IsSubseq(FilterResults(leads, filterType, value), leads)
    ensures filterType == "division" ==> forall l :: l in FilterResults(leads, filterType, value) <==>
      l in leads && StrValue(l.division) == value
    ensures filterType == "personnel" ==> forall l :: l in FilterResults(leads, filterType, value) <==>
      l in leads && NumValue(l.assignedTo) == value
    ensures filterType != "division" && filterType != "personnel" ==> FilterResults(leads, filterType, value) == []
  {
    if filterType == "division" {
      var p := (l: Lead) => StrValue(l.division) == value;
      FilterIsSubseq(leads, p);
      forall l ensures l in Filter(leads, p) <==> l in leads && p(l) {
        FilterMember(leads, p, l);
      }
    } else if filterType == "personnel" {
      var p := (l: Lead) => NumValue(l.assignedTo) == value;
      FilterIsSubseq(leads, p);
      forall l ensures l in Filter(leads, p) <==> l in leads && p(l) {
        FilterMember(leads, p, l);
      }
    }
  }

  class DashboardPage {
    var leads: seq<Lead>
    /** The list shown in the quick-view modal. */
    var filtered: seq<Lead>
    var modalTitle: string
    var modalOpen: bool

    constructor()
      ensures leads == [] && filtered == [] && modalTitle == "" && !modalOpen
    {
      leads := [];
      filtered := [];
      modalTitle := "";
      modalOpen := false;
    }

    /** Stores the fetched leads; a response that is not an array stores none. */
    method Loaded(response: LeadsResponse)
      modifies this`leads
      ensures leads == LoadLeads(response)
    {
      match response {
        case LeadArray(ls) => leads := ls;
        case NotAnArray => leads := [];
      }
    }

    method CardClick(clickType: string, title: string)
      modifies this`filtered, this`modalTitle, this`modalOpen
      ensures filtered == CardResults(leads, clickType)
      ensures modalTitle == title && modalOpen
    {
      filtered := CardResults(leads, clickType);
      modalTitle := title;
      modalOpen := true;
    }

    method FilterClick(filterType: string, value: JsValue, title: string)
      modifies this`filtered, this`modalTitle, this`modalOpen
      ensures filtered == FilterResults(leads, filterType, value)
      ensures modalTitle == title && modalOpen
    {
      filtered := FilterResults(leads, filterType, value);
      modalTitle := title;
      modalOpen := true;
    }
  }
}
