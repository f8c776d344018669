/** The back end's read-only report handlers: the follow-up calendar export
    (`export_calendar`) and the count and key logic of `get_analytics`. */
module ReportViews {
  import opened Basics
  import opened Models
  import Text
  import Analytics

  // ---------------------------------------------------------------------
  // Calendar export

  /** A stored follow-up date is a date Python can hold. */
  predicate FollowUpValid(l: Lead)
  {
    l.followUp.Some? ==> ValidDate(l.followUp.value)
  }

  predicate DatesValid(ls: seq<Lead>)
  {
    forall l :: l in ls ==> FollowUpValid(l)
  }

  /** `get_accessible_leads().filter(follow_up_date__isnull=False)`, in table order. */
  function CalendarLeads(leads: seq<Lead>, u: Personnel): (r: seq<Lead>)
    ensures forall l :: l in r <==> l in leads && InAccessibleQuery(l, u) && l.followUp.Some?
  {
    if leads == [] then []
    else
      var l := leads[0];
      assert leads == [l] + leads[1..];
      (if InAccessibleQuery(l, u) && l.followUp.Some? then [l] else []) + CalendarLeads(leads[1..], u)
  }

  /** `strftime('%Y%m%d')`; the year is not padded. */
  function DateStamp(d: Date): string
    requires ValidDate(d)
  {
    Text.Decimal(d.year) + Text.Pad2(d.month) + Text.Pad2(d.day)
  }

  function Description(l: Lead): string
  {
    "Contact: " + (if l.contactName == "" then "N/A" else l.contactName) +
    (if l.email != "" then " | Email: " + l.email else "") +
    " | Status: " + StatusDisplay(l.status)
  }

  /** The lines written for one lead. */
  function EventLines(l: Lead): seq<string>
    requires FollowUpValid(l)
  {
    ["BEGIN:VEVENT", "SUMMARY:Follow up: " + l.company] +
    (if l.followUp.Some? then ["DTSTART;VALUE=DATE:" + DateStamp(l.followUp.value)] else []) +
    ["DESCRIPTION:" + Description(l), "END:VEVENT"]
  }

  function EventsLines(ls: seq<Lead>): seq<string>
    requires DatesValid(ls)
  {
    if ls == [] then [] else EventsLines(ls[..|ls| - 1]) + EventLines(ls[|ls| - 1])
  }

  const HeaderLines: seq<string> :=
    ["BEGIN:VCALENDAR", "VERSION:2.0", "PRODID:-//Gralix//Lead Management System//EN", "CALSCALE:GREGORIAN"]

  const FooterLine: string := "END:VCALENDAR"

  function CalendarLines(ls: seq<Lead>): seq<string>
    requires DatesValid(ls)
  {
    HeaderLines + EventsLines(ls) + [FooterLine]
  }

  /** The body of the `.ics` response. */
  function CalendarText(ls: seq<Lead>): string
    requires DatesValid(ls)
  {
    Text.Lines(CalendarLines(ls))
  }

  /** The writes for one lead of `export_calendar`, as lines. */
  method WriteEvent(lead: Lead) returns (event: seq<string>)
    requires FollowUpValid(lead)
    ensures event == EventLines(lead)
  {
    event := ["BEGIN:VEVENT", "SUMMARY:Follow up: " + lead.company];
    if lead.followUp.Some? {
      var dtStart := DateStamp(lead.followUp.value);
      event := event + ["DTSTART;VALUE=DATE:" + dtStart];
    }
    event := event + ["DESCRIPTION:" + Description(lead), "END:VEVENT"];
  }

  /** `export_calendar`: the header write, then one event per lead of the
      query, then the footer, each line followed by a line feed. */
  method ExportCalendar(leads: seq<Lead>, user: Personnel) returns (body: string)
    requires DatesValid(leads)
    ensures DatesValid(CalendarLeads(leads, user))
    ensures body == CalendarText(CalendarLeads(leads, user))
  {
    var events := CalendarLeads(leads, user);
    body := Text.Lines(HeaderLines);
    var i := 0;
    assert HeaderLines + EventsLines(events[..0]) == HeaderLines;
    while i < |events|
      invariant 0 <= i <= |events|
      invariant body == Text.Lines(HeaderLines + EventsLines(events[..i]))
    {
      var lead := events[i];
      assert lead in leads;
      var event := WriteEvent(lead);
      Text.LinesAppend(HeaderLines + EventsLines(events[..i]), event);
      body := body + Text.Lines(event);
      EventsSnoc(events, i);
      i := i + 1;
    }
    assert events[..i] == events;
    Text.LinesAppend(HeaderLines + EventsLines(events), [FooterLine]);
    body := body + Text.Lines([FooterLine]);
  }

  lemma EventsSnoc(ls: seq<Lead>, i: nat)
    requires DatesValid(ls) && i < |ls|
    ensures DatesValid(ls[..i]) && DatesValid(ls[..i + 1])
    ensures HeaderLines + EventsLines(ls[..i + 1]) == HeaderLines + EventsLines(ls[..i]) + EventLines(ls[i])
  {
    assert ls[..i + 1][..i] == ls[..i];
    assert EventsLines(ls[..i + 1]) == EventsLines(ls[..i]) + EventLines(ls[i]);
  }

  /** The export opens with the header lines and closes with the footer line. */
  lemma CalendarFrame(ls: seq<Lead>)
    requires DatesValid(ls)
    ensures CalendarLines(ls)[0] == "BEGIN:VCALENDAR"
    ensures CalendarLines(ls)[|CalendarLines(ls)| - 1] == FooterLine
    ensures Text.StartsWith(CalendarText(ls), Text.Lines(HeaderLines))
    ensures |CalendarText(ls)| > |FooterLine| &&
      CalendarText(ls)[|CalendarText(ls)| - |FooterLine| - 1..] == FooterLine + "\n"
  {
    var events := Text.Lines(EventsLines(ls));
    Text.LinesAppend(HeaderLines, EventsLines(ls) + [FooterLine]);
    Text.LinesAppend(EventsLines(ls), [FooterLine]);
    assert HeaderLines + EventsLines(ls) + [FooterLine] == HeaderLines + (EventsLines(ls) + [FooterLine]);
    var head := Text.Lines(HeaderLines);
    var foot := Text.Lines([FooterLine]);
    assert foot == FooterLine + "\n";
    assert CalendarText(ls) == head + (events + foot);
    assert (head + (events + foot))[..|head|] == head;
    assert (head + (events + foot))[|head + events|..] == foot;
  }

  /** Number of lines equal to `x`. */
  function LineCount(ls: seq<string>, x: string): nat
  {
    if ls == [] then 0 else LineCount(ls[..|ls| - 1], x) + (if ls[|ls| - 1] == x then 1 else 0)
  }

  lemma {:induction false} LineCountAppend(a: seq<string>, b: seq<string>, x: string)
    ensures LineCount(a + b, x) == LineCount(a, x) + LineCount(b, x)
  {
    if b != [] {
      LineCountAppend(a, b[..|b| - 1], x);
      assert (a + b)[..|a + b| - 1] == a + b[..|b| - 1];
    } else {
      assert a + b == a;
    }
  }

  lemma {:induction false} LineCountNone(ls: seq<string>, x: string)
    requires forall i :: 0 <= i < |ls| ==> ls[i] != x
    ensures LineCount(ls, x) == 0
  {
    if ls != [] {
      LineCountNone(ls[..|ls| - 1], x);
    }
  }

  /** Each event holds exactly one `BEGIN:VEVENT` line. */
  lemma OneBegin(l: Lead)
    requires FollowUpValid(l)
    ensures LineCount(EventLines(l), "BEGIN:VEVENT") == 1
  {
    var ls := EventLines(l);
    var rest := ls[1..];
    forall i | 0 <= i < |rest| ensures rest[i] != "BEGIN:VEVENT" {
      assert rest[i][0] != 'B';
    }
    LineCountNone(rest, "BEGIN:VEVENT");
    LineCountAppend([ls[0]], rest, "BEGIN:VEVENT");
    assert [ls[0]] + rest == ls;
    assert [ls[0]][..0] == [];
  }

  lemma {:induction false} EventsBegin(ls: seq<Lead>)
    requires DatesValid(ls)
    ensures LineCount(EventsLines(ls), "BEGIN:VEVENT") == |ls|
  {
    if ls != [] {
      var init, last := ls[..|ls| - 1], ls[|ls| - 1];
      assert DatesValid(init) by {
        forall l | l in init ensures FollowUpValid(l) {
          assert l in ls;
        }
      }
      assert last in ls;
      EventsBegin(init);
      OneBegin(last);
      LineCountAppend(EventsLines(init), EventLines(last), "BEGIN:VEVENT");
    }
  }

  /** One `VEVENT` per lead of the query: when no text field holds a line
      feed, the body splits into the calendar's lines, and exactly `|ls|` of
      them open an event. */
  lemma CalendarEvents(ls: seq<Lead>)
    requires DatesValid(ls)
    ensures LineCount(CalendarLines(ls), "BEGIN:VEVENT") == |ls|
    ensures (forall i :: 0 <= i < |CalendarLines(ls)| ==> '\n' !in CalendarLines(ls)[i]) ==>
      Text.Split(CalendarText(ls), '\n') == CalendarLines(ls) + [""]
  {
    EventsBegin(ls);
    LineCountAppend(HeaderLines, EventsLines(ls), "BEGIN:VEVENT");
    LineCountAppend(HeaderLines + EventsLines(ls), [FooterLine], "BEGIN:VEVENT");
    forall i | 0 <= i < |HeaderLines| ensures HeaderLines[i] != "BEGIN:VEVENT" {
      assert HeaderLines[i][0] != 'B' || |HeaderLines[i]| != 12;
    }
    LineCountNone(HeaderLines, "BEGIN:VEVENT");
    assert LineCount([FooterLine], "BEGIN:VEVENT") == 0 by {
      assert [FooterLine][..0] == [];
    }
    if forall i :: 0 <= i < |CalendarLines(ls)| ==> '\n' !in CalendarLines(ls)[i] {
      Text.SplitLines(CalendarLines(ls));
    }
  }

  /** The `DTSTART` value of a four-digit year is eight digits that read back
      as the date. */
  lemma StampRoundTrip(d: Date)
    requires ValidDate(d) && 1000 <= d.year
    ensures |DateStamp(d)| == 8
    ensures forall i :: 0 <= i < 8 ==> Text.IsDigit(DateStamp(d)[i])
    ensures Text.DigitsValue(DateStamp(d)) == d.year * 10000 + d.month * 100 + d.day
  {
    var y, m, dd := Text.Decimal(d.year), Text.Pad2(d.month), Text.Pad2(d.day);
    Text.FourDigits(d.year);
    Text.DigitsRoundTrip(d.year);
    Text.Pad2RoundTrip(d.month);
    Text.Pad2RoundTrip(d.day);
    assert Text.Pow10(2) == 100;
    Text.DigitsValueAppend(y, m);
    var ym := d.year * 100 + d.month;
    assert Text.DigitsValue(y + m) == ym;
    Text.DigitsValueAppend(y + m, dd);
    assert Text.DigitsValue(y + m + dd) == ym * 100 + d.day;
  }

  // ---------------------------------------------------------------------
  // Analytics counts

  /** The leads the analytics cover: the accessible ones, narrowed to one
      division unless the `division` parameter is absent or `all`. */
  function AnalyticsLeads(leads: seq<Lead>, u: Personnel, division: Option<string>): (r: seq<Lead>)
    ensures forall l :: l in r <==>
      l in leads && InAccessibleQuery(l, u) && (division.None? || division.value == "all" || l.division == division.value)
  {
    if leads == [] then []
    else
      var l := leads[0];
      assert leads == [l] + leads[1..];
      (if InAccessibleQuery(l, u) && (division.None? || division.value == "all" || l.division == division.value)
       then [l] else []) + AnalyticsLeads(leads[1..], u, division)
  }

  /** `{row[key]: row['count'] for row in rows}` over a grouped count. */
  method TallyMap(rows: Tally) returns (m: map<string, nat>)
    requires DistinctKeys(rows)
    ensures forall k :: k in m <==> HasKey(rows, k)
    ensures forall k :: k in m ==> m[k] == Lookup(rows, k)
  {
    m := map[];
    var i := 0;
    while i < |rows|
      invariant 0 <= i <= |rows|
      invariant forall k :: k in m <==> exists j :: 0 <= j < i && rows[j].0 == k
      invariant forall k :: k in m ==> m[k] == Lookup(rows, k)
    {
      LookupIndex(rows, i);
      m := m[rows[i].0 := rows[i].1];
      i := i + 1;
    }
    forall k ensures k in m <==> HasKey(rows, k) {
      HasKeyIndex(rows, k);
    }
  }

  /** `status_counts`: one entry per status row of the query, then
      `setdefault(s, 0)` for every status choice. */
  method StatusCounts(ls: seq<Lead>) returns (counts: map<string, nat>)
    ensures forall k :: k in counts <==> k in StatusChoices || k in Analytics.Statuses(ls)
    ensures forall k :: k in counts ==> counts[k] == Occurrences(Analytics.Statuses(ls), k)
  {
    var statuses := Analytics.Statuses(ls);
    TallyFacts(statuses);
    counts := TallyMap(TallyOf(statuses));
    var i := 0;
    while i < |StatusChoices|
      invariant 0 <= i <= |StatusChoices|
      invariant forall k :: k in counts <==> k in statuses || k in StatusChoices[..i]
      invariant forall k :: k in counts ==> counts[k] == Occurrences(statuses, k)
    {
      var s := StatusChoices[i];
      if s !in counts {
        OccurrencesAbsent(statuses, s);
        counts := counts[s := 0];
      }
      assert StatusChoices[..i + 1] == StatusChoices[..i] + [s];
      i := i + 1;
    }
    assert StatusChoices[..i] == StatusChoices;
  }

  lemma {:induction false} OccurrencesAbsent(ks: seq<string>, k: string)
    requires k !in ks
    ensures Occurrences(ks, k) == 0
  {
    if ks != [] {
      assert ks[..|ks| - 1] <= ks;
      OccurrencesAbsent(ks[..|ks| - 1], k);
    }
  }

  /** The integer columns of a `division_performance` entry. */
  datatype DivisionStats = DivisionStats(count: nat, totalCount: nat, wonCount: nat, lostCount: nat)

  /** Which leads of a division a column counts. */
  datatype Slice = AllStatuses | Open | Only(status: string)

  predicate InSlice(l: Lead, s: Slice)
  {
    match s
      case AllStatuses => true
      case Open => l.status != "lost" && l.status != "inactive"
      case Only(st) => l.status == st
  }

  function CountIn(ls: seq<Lead>, division: string, s: Slice): nat
  {
    if ls == [] then 0
    else
      var l := ls[|ls| - 1];
      CountIn(ls[..|ls| - 1], division, s) + (if l.division == division && InSlice(l, s) then 1 else 0)
  }

  /** The aggregate row of one division. */
  function DivisionRow(ls: seq<Lead>, division: string): DivisionStats
  {
    DivisionStats(CountIn(ls, division, Open), CountIn(ls, division, AllStatuses),
                  CountIn(ls, division, Only("won")), CountIn(ls, division, Only("lost")))
  }

  /** A column counts a subset of another when its slice is narrower; open
      and lost leads are disjoint. */
  lemma {:induction false} SliceBounds(ls: seq<Lead>, division: string)
    ensures CountIn(ls, division, Only("won")) <= CountIn(ls, division, Open)
    ensures CountIn(ls, division, Open) + CountIn(ls, division, Only("lost")) <= CountIn(ls, division, AllStatuses)
    ensures CountIn(ls, division, AllStatuses) == Occurrences(Analytics.Divisions(ls), division)
  {
    if ls != [] {
      SliceBounds(ls[..|ls| - 1], division);
      assert Analytics.Divisions(ls)[..|ls| - 1] == Analytics.Divisions(ls[..|ls| - 1]);
    }
  }

  /** A division with no lead has the all-zero entry that `setdefault` puts in. */
  lemma {:induction false} EmptyDivision(ls: seq<Lead>, division: string)
    requires division !in Analytics.Divisions(ls)
    ensures DivisionRow(ls, division) == DivisionStats(0, 0, 0, 0)
  {
    SliceBounds(ls, division);
    OccurrencesAbsent(Analytics.Divisions(ls), division);
  }

  /** The loop over the grouped division rows of `get_analytics`: each row
      gets the aggregate columns of its division. */
  method DivisionRows(ls: seq<Lead>, rows: Tally) returns (perf: map<string, DivisionStats>)
    ensures forall k :: k in perf <==> HasKey(rows, k)
    ensures forall k :: k in perf ==> perf[k] == DivisionRow(ls, k)
  {
    perf := map[];
    var i := 0;
    while i < |rows|
      invariant 0 <= i <= |rows|
      invariant forall k :: k in perf <==> exists j :: 0 <= j < i && rows[j].0 == k
      invariant forall k :: k in perf ==> perf[k] == DivisionRow(ls, k)
    {
      perf := perf[rows[i].0 := DivisionRow(ls, rows[i].0)];
      i := i + 1;
    }
    forall k ensures k in perf <==> HasKey(rows, k) {
      HasKeyIndex(rows, k);
    }
  }

  /** `division_performance`: one entry per division row of the query, then
      `setdefault` with zeros for every division choice. */
  method DivisionPerformance(ls: seq<Lead>) returns (perf: map<string, DivisionStats>)
    ensures forall k :: k in perf <==> k in DivisionChoices || k in Analytics.Divisions(ls)
    ensures forall k :: k in perf ==> perf[k] == DivisionRow(ls, k)
  {
    var divisions := Analytics.Divisions(ls);
    TallyFacts(divisions);
    perf := DivisionRows(ls, TallyOf(divisions));
    var i := 0;
    while i < |DivisionChoices|
      invariant 0 <= i <= |DivisionChoices|
      invariant forall k :: k in perf <==> k in divisions || k in DivisionChoices[..i]
      invariant forall k :: k in perf ==> perf[k] == DivisionRow(ls, k)
    {
      var d := DivisionChoices[i];
      if d !in perf {
        EmptyDivision(ls, d);
        perf := perf[d := DivisionStats(0, 0, 0, 0)];
      }
      assert DivisionChoices[..i + 1] == DivisionChoices[..i] + [d];
      i := i + 1;
    }
    assert DivisionChoices[..i] == DivisionChoices;
  }

  /** Won leads as a percentage of all leads, 0 when there are none. */
  function ConversionRate(won: nat, total: nat): real
  {
    if total > 0 then won as real / total as real * 100.0 else 0.0
  }

  lemma ConversionBounds(won: nat, total: nat)
    requires won <= total
    ensures total == 0 ==> ConversionRate(won, total) == 0.0
    ensures 0.0 <= ConversionRate(won, total) <= 100.0
    ensures ConversionRate(won, total) == 100.0 <==> total > 0 && won == total
  {
    if total > 0 {
      var q := won as real / total as real;
      assert q * total as real == won as real;
      assert q <= 1.0;
    }
  }

  /** Whether the lead `l` is assigned to (`assignee`) or was created by
      (otherwise) the person `id`. */
  predicate Linked(l: Lead, id: nat, assignee: bool)
  {
    if assignee then l.assignedTo == Some(id) else l.createdBy == Some(id)
  }

  /** `filter(assigned_to=user).count()` or `filter(created_by=user).count()`
      over the leads `ls`. */
  function UserCount(ls: seq<Lead>, id: nat, assignee: bool): (r: nat)
    ensures r <= |ls|
  {
    if ls == [] then 0
    else UserCount(ls[..|ls| - 1], id, assignee) + (if Linked(ls[|ls| - 1], id, assignee) then 1 else 0)
  }

  /** The positions among the first `n` of `ls` that are linked to the person
      `id`. */
  function LinkedRows(ls: seq<Lead>, id: nat, assignee: bool, n: nat): set<nat>
    requires n <= |ls|
  {
    set i | 0 <= i < n && Linked(ls[i], id, assignee)
  }

  /** The user's count is the number of rows of `ls` linked to the user. */
  lemma UserCountIsRows(ls: seq<Lead>, id: nat, assignee: bool)
    ensures UserCount(ls, id, assignee) == |set i | 0 <= i < |ls| && Linked(ls[i], id, assignee)|
  {
    UserCountUpTo(ls, id, assignee, |ls|);
    assert ls[..|ls|] == ls;
  }

  lemma {:induction false} UserCountUpTo(ls: seq<Lead>, id: nat, assignee: bool, n: nat)
    requires n <= |ls|
    ensures UserCount(ls[..n], id, assignee) == |LinkedRows(ls, id, assignee, n)|
  {
    if n > 0 {
      assert ls[..n][..n - 1] == ls[..n - 1];
      UserCountUpTo(ls, id, assignee, n - 1);
      var before := LinkedRows(ls, id, assignee, n - 1);
      if Linked(ls[n - 1], id, assignee) {
        assert LinkedRows(ls, id, assignee, n) == before + {n - 1} && n - 1 !in before;
      } else {
        assert LinkedRows(ls, id, assignee, n) == before;
      }
    }
  }

  datatype AnalyticsCounts = AnalyticsCounts(
    totalLeads: nat, statusCounts: map<string, nat>, divisionPerformance: map<string, DivisionStats>,
    conversionRate: real, userAssigned: nat, userCreated: nat)

  /** The count and key parts of `get_analytics`, with the user's own
      counts of `user_stats`. */
  method GetAnalytics(leads: seq<Lead>, user: Personnel, division: Option<string>) returns (r: AnalyticsCounts)
    ensures r.totalLeads == |AnalyticsLeads(leads, user, division)|
    ensures forall s :: s in StatusChoices ==> s in r.statusCounts
    ensures forall k :: k in r.statusCounts ==> r.statusCounts[k] == Occurrences(Analytics.Statuses(AnalyticsLeads(leads, user, division)), k)
    ensures forall d :: d in DivisionChoices ==> d in r.divisionPerformance
    ensures forall k :: k in r.divisionPerformance ==> r.divisionPerformance[k] == DivisionRow(AnalyticsLeads(leads, user, division), k)
    ensures r.conversionRate == ConversionRate(r.statusCounts["won"], r.totalLeads)
    ensures r.userAssigned == UserCount(AnalyticsLeads(leads, user, division), user.id, true) <= r.totalLeads
    ensures r.userCreated == UserCount(AnalyticsLeads(leads, user, division), user.id, false) <= r.totalLeads
  {
    var ls := AnalyticsLeads(leads, user, division);
    var statusCounts := StatusCounts(ls);
    var divisionPerformance := DivisionPerformance(ls);
    var won := statusCounts["won"];
    r := AnalyticsCounts(|ls|, statusCounts, divisionPerformance, ConversionRate(won, |ls|),
                         UserCount(ls, user.id, true), UserCount(ls, user.id, false));
  }

  /** The status counts of the analytics sum to the number of leads covered,
      so the conversion rate is a percentage. */
  lemma WonWithinTotal(ls: seq<Lead>)
    ensures Occurrences(Analytics.Statuses(ls), "won") <= |ls|
  {
    TallyFacts(Analytics.Statuses(ls));
    var t := TallyOf(Analytics.Statuses(ls));
    LookupAtMostTotal(t, "won");
  }

  lemma {:induction false} LookupAtMostTotal(t: Tally, k: string)
    ensures Lookup(t, k) <= Total(t)
  {
    if t != [] {
      LookupAtMostTotal(t[1..], k);
    }
  }
}
