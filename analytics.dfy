/** The daily analytics snapshot (`AnalyticsService.capture_daily_snapshot`):
    aggregates over the leads that are not deleted, stored once per date. */
module Analytics {
  import opened Basics
  import opened Models
  import opened Store

  // ---------------------------------------------------------------------
  // Aggregates over `Lead.objects.filter(is_deleted=False)`

  /** The leads that are not deleted, in table order. */
  function LiveLeads(leads: seq<Lead>): (r: seq<Lead>)
    ensures |r| <= |leads|
    ensures forall l :: l in r <==> l in leads && !l.isDeleted
  {
    if leads == [] then []
    else
      var last := leads[|leads| - 1];
      LiveLeads(leads[..|leads| - 1]) + (if last.isDeleted then [] else [last])
  }

  /** `values('status')` of some leads. */
  function Statuses(ls: seq<Lead>): (r: seq<string>)
    ensures |r| == |ls|
    ensures forall i :: 0 <= i < |ls| ==> r[i] == ls[i].status
  {
    if ls == [] then [] else Statuses(ls[..|ls| - 1]) + [ls[|ls| - 1].status]
  }

  /** `values('division')` of some leads. */
  function Divisions(ls: seq<Lead>): (r: seq<string>)
    ensures |r| == |ls|
    ensures forall i :: 0 <= i < |ls| ==> r[i] == ls[i].division
  {
    if ls == [] then [] else Divisions(ls[..|ls| - 1]) + [ls[|ls| - 1].division]
  }

  /** `Sum('deal_value')`, in hundredths; `or 0` when there are no rows. */
  function PipelineValue(ls: seq<Lead>): int
  {
    if ls == [] then 0 else PipelineValue(ls[..|ls| - 1]) + ls[|ls| - 1].dealValue
  }

  function QualitySum(ls: seq<Lead>): int
  {
    if ls == [] then 0 else QualitySum(ls[..|ls| - 1]) + ls[|ls| - 1].qualityScore
  }

  /** Python's `int(x)` of a quotient: truncation toward zero. */
  function TruncDiv(a: int, b: nat): int
    requires b > 0
  {
    if a >= 0 then a / b else -((-a) / b)
  }

  /** `int(Avg('quality_score') or 0)`. */
  function AverageQuality(ls: seq<Lead>): int
  {
    if ls == [] then 0 else TruncDiv(QualitySum(ls), |ls|)
  }

  /** The snapshot the service writes for `today`. */
  function SnapshotOf(leads: seq<Lead>, today: Date): Snapshot
  {
    var live := LiveLeads(leads);
    Snapshot(today, |live|, PipelineValue(live), AverageQuality(live),
             TallyOf(Statuses(live)), TallyOf(Divisions(live)))
  }

  /** The totals: the count is that of the leads not deleted, both
      distributions have distinct keys and sum to it, each records every
      status (division) that occurs with its multiplicity and no other key;
      with no live lead every figure is 0 and the distributions are empty. */
  lemma SnapshotCounts(leads: seq<Lead>, today: Date)
    ensures SnapshotOf(leads, today).date == today
    ensures SnapshotOf(leads, today).totalLeads == |LiveLeads(leads)|
    ensures Total(SnapshotOf(leads, today).stages) == SnapshotOf(leads, today).totalLeads
    ensures Total(SnapshotOf(leads, today).divisions) == SnapshotOf(leads, today).totalLeads
    ensures DistinctKeys(SnapshotOf(leads, today).stages) && DistinctKeys(SnapshotOf(leads, today).divisions)
    ensures forall k :: Lookup(SnapshotOf(leads, today).stages, k) == Occurrences(Statuses(LiveLeads(leads)), k)
    ensures forall k :: HasKey(SnapshotOf(leads, today).stages, k) <==> exists l :: l in LiveLeads(leads) && l.status == k
    ensures forall k :: HasKey(SnapshotOf(leads, today).divisions, k) <==> exists l :: l in LiveLeads(leads) && l.division == k
    ensures LiveLeads(leads) == [] ==>
      SnapshotOf(leads, today).pipelineValue == 0 && SnapshotOf(leads, today).avgQuality == 0 &&
      SnapshotOf(leads, today).stages == [] && SnapshotOf(leads, today).divisions == []
  {
    var live := LiveLeads(leads);
    TallyFacts(Statuses(live));
    TallyFacts(Divisions(live));
    forall k ensures k in Statuses(live) <==> exists l :: l in live && l.status == k {
      if k in Statuses(live) {
        var i :| 0 <= i < |live| && Statuses(live)[i] == k;
        assert live[i] in live;
      }
    }
    forall k ensures k in Divisions(live) <==> exists l :: l in live && l.division == k {
      if k in Divisions(live) {
        var i :| 0 <= i < |live| && Divisions(live)[i] == k;
        assert live[i] in live;
      }
    }
  }

  lemma {:induction false} QualitySumBounds(ls: seq<Lead>)
    requires forall i :: 0 <= i < |ls| ==> 0 <= ls[i].qualityScore <= 100
    ensures 0 <= QualitySum(ls) <= 100 * |ls|
  {
    if ls != [] {
      QualitySumBounds(ls[..|ls| - 1]);
    }
  }

  /** Scores lie in 0..100, and so does their truncated average. */
  lemma AverageBounds(ls: seq<Lead>)
    requires forall i :: 0 <= i < |ls| ==> 0 <= ls[i].qualityScore <= 100
    ensures 0 <= AverageQuality(ls) <= 100
  {
    if ls != [] {
      QualitySumBounds(ls);
      assert QualitySum(ls) / |ls| <= 100 * |ls| / |ls|;
    }
  }

  /** Soft-deleting a live lead removes exactly it from the snapshot count;
      any other row write leaves the count as it is. */
  lemma {:induction false} LiveCountUpdate(leads: seq<Lead>, k: nat, l: Lead)
    requires k < |leads|
    ensures |LiveLeads(leads[k := l])| + (if leads[k].isDeleted then 0 else 1) ==
            |LiveLeads(leads)| + (if l.isDeleted then 0 else 1)
  {
    var n := |leads| - 1;
    if k < n {
      LiveCountUpdate(leads[..n], k, l);
      assert leads[k := l][..n] == leads[..n][k := l];
      assert leads[k := l][n] == leads[n];
    } else {
      assert leads[k := l][..n] == leads[..n];
    }
  }

  lemma SoftDeleteLeavesSnapshot(leads: seq<Lead>, k: nat, today: Date)
    requires k < |leads| && !leads[k].isDeleted
    ensures SnapshotOf(leads[k := SoftDelete(leads[k])], today).totalLeads == SnapshotOf(leads, today).totalLeads - 1
  {
    LiveCountUpdate(leads, k, SoftDelete(leads[k]));
  }

  // ---------------------------------------------------------------------
  // `DailySnapshot.objects.update_or_create(date=today, defaults=...)`

  /** The row holding date `d`, if any. */
  function DateIndex(t: seq<Snapshot>, d: Date): (r: Option<nat>)
    ensures r.Some? ==> r.value < |t| && t[r.value].date == d
    ensures r.None? <==> forall i :: 0 <= i < |t| ==> t[i].date != d
  {
    if t == [] then None
    else if t[|t| - 1].date == d then Some(|t| - 1)
    else DateIndex(t[..|t| - 1], d)
  }

  /** Update the row of that date, or create one. */
  function Upserted(t: seq<Snapshot>, s: Snapshot): seq<Snapshot>
  {
    match DateIndex(t, s.date)
      case Some(i) => t[i := s]
      case None => t + [s]
  }

  /** One row per date is kept, the written row is the only one of its date,
      the rows of other dates are untouched, and the table grows exactly when
      the date is new. */
  lemma UpsertFacts(t: seq<Snapshot>, s: Snapshot)
    requires UniqueDates(t)
    ensures UniqueDates(Upserted(t, s))
    ensures s in Upserted(t, s)
    ensures forall i :: 0 <= i < |Upserted(t, s)| && Upserted(t, s)[i].date == s.date ==> Upserted(t, s)[i] == s
    ensures forall x: Snapshot :: x.date != s.date ==> (x in Upserted(t, s) <==> x in t)
    ensures |Upserted(t, s)| == |t| + (if DateIndex(t, s.date).Some? then 0 else 1)
  {
    var r := Upserted(t, s);
    match DateIndex(t, s.date)
      case Some(i) =>
        assert r[i] == s;
        forall x: Snapshot | x.date != s.date ensures x in r <==> x in t {
          if x in t {
            var j :| 0 <= j < |t| && t[j] == x;
            assert r[j] == x;
          }
        }
      case None =>
        assert r[|t|] == s;
  }

  /** Re-running on the same date replaces that day's row: the table is as
      if only the second run had happened. */
  lemma UpsertAgain(t: seq<Snapshot>, s1: Snapshot, s2: Snapshot)
    requires UniqueDates(t) && s1.date == s2.date
    ensures Upserted(Upserted(t, s1), s2) == Upserted(t, s2)
  {
    var r := Upserted(t, s1);
    UpsertFacts(t, s1);
    match DateIndex(t, s1.date)
      case Some(i) =>
        assert DateIndex(r, s2.date) == Some(i);
      case None =>
        assert DateIndex(r, s2.date) == Some(|t|);
        assert r[..|t|] == t;
  }

  /** `capture_daily_snapshot()`. */
  method CaptureDailySnapshot(db: Crm, today: Date) returns (snapshot: Snapshot)
    requires db.Valid()
    modifies db`snapshots
    ensures db.Valid()
    ensures snapshot == SnapshotOf(db.leads, today)
    ensures db.snapshots == Upserted(old(db.snapshots), snapshot)
  {
    snapshot := SnapshotOf(db.leads, today);
    UpsertFacts(db.snapshots, snapshot);
    db.snapshots := Upserted(db.snapshots, snapshot);
  }
}
