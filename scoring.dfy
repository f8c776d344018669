/** The lead quality score: points for completeness, deal value and
    engagement, minus a decay for each full week since the last contact,
    clamped to 0..100. The clock and the communication count are parameters. */
module Scoring {
  import opened Basics
  import opened Models

  /** 10 points each for an email, a phone number, and a contact name together
      with a position. */
  function Completeness(l: Lead): (pts: int)
    ensures 0 <= pts <= 30
    ensures pts == 30 <==> l.email != "" && l.phone != "" && l.contactName != "" && l.position != ""
    ensures pts == 0 <==> l.email == "" && l.phone == "" && (l.contactName == "" || l.position == "")
  {
    (if l.email != "" then 10 else 0) +
    (if l.phone != "" then 10 else 0) +
    (if l.contactName != "" && l.position != "" then 10 else 0)
  }

  /** 20 points for a positive deal value. */
  function DealPoints(l: Lead): (pts: int)
    ensures pts == 0 || pts == 20
    ensures pts == 20 <==> l.dealValue > 0
  {
    if l.dealValue > 0 then 20 else 0
  }

  /** 10 points per communication, at most 50. */
  function Engagement(count: nat): (pts: int)
    ensures 0 <= pts <= 50
    ensures count <= 5 ==> pts == 10 * count
    ensures count >= 5 ==> pts == 50
  {
    if count * 10 < 50 then count * 10 else 50
  }

  /** 5 points per full week (floor division, as in Python) between the last
      contact and today. */
  function Decay(days: int): (d: int)
    ensures days >= 0 ==> 0 <= d && d <= days
    ensures 0 <= days < 7 ==> d == 0
  {
    (days / 7) * 5
  }

  /** The score before clamping. */
  function RawScore(l: Lead, count: nat, today: Date): int
  {
    Completeness(l) + DealPoints(l) + Engagement(count) -
    (if l.lastContact.Some? then Decay(DaysBetween(today, l.lastContact.value)) else 0)
  }

  function Clamp(x: int): (r: int)
    ensures 0 <= r <= 100
    ensures 0 <= x <= 100 ==> r == x
    ensures x < 0 ==> r == 0
    ensures x > 100 ==> r == 100
  {
    if x < 0 then 0 else if x > 100 then 100 else x
  }

  /** `LeadScoringService.calculate_score`, for a lead with `count`
      communications evaluated on the date `today`. */
  function Score(l: Lead, count: nat, today: Date): (r: int)
    ensures 0 <= r <= 100
  {
    Clamp(RawScore(l, count, today))
  }

  /** Without a last contact nothing decays and no clamping is needed at the
      top: the score is the sum of the three parts. */
  lemma ScoreWithoutContact(l: Lead, count: nat, today: Date)
    requires l.lastContact.None?
    ensures Score(l, count, today) == Completeness(l) + DealPoints(l) + Engagement(count)
  {
  }

  /** Every part at its maximum and contact within the week gives 100. */
  lemma PerfectScore(l: Lead, count: nat, today: Date)
    requires l.email != "" && l.phone != "" && l.contactName != "" && l.position != ""
    requires l.dealValue > 0 && count >= 5
    requires l.lastContact.Some? && 0 <= DaysBetween(today, l.lastContact.value) < 7
    ensures Score(l, count, today) == 100
  {
  }

  /** More communications never lower the score. */
  lemma ScoreMonotoneInCount(l: Lead, c1: nat, c2: nat, today: Date)
    requires c1 <= c2
    ensures Score(l, c1, today) <= Score(l, c2, today)
  {
  }

  lemma DecayMonotone(d1: int, d2: int)
    requires d1 <= d2
    ensures Decay(d1) <= Decay(d2)
  {
    var q1, q2 := d1 / 7, d2 / 7;
    assert q1 * 7 <= d1 && d2 < q2 * 7 + 7;
    assert q1 * 7 < q2 * 7 + 7;
    assert q1 <= q2;
  }

  /** Time passing without contact never raises the score. */
  lemma ScoreAntitoneInTime(l: Lead, count: nat, t1: Date, t2: Date)
    requires DayNumber(t1) <= DayNumber(t2)
    ensures Score(l, count, t2) <= Score(l, count, t1)
  {
    if l.lastContact.Some? {
      DecayMonotone(DaysBetween(t1, l.lastContact.value), DaysBetween(t2, l.lastContact.value));
    }
  }

  /** A last contact dated after today (a partial week in the future) adds
      5 points rather than subtracting, because the week count rounds down. */
  lemma FutureContactAddsPoints()
    ensures Decay(-1) == -5
    ensures Decay(-7) == -5
    ensures Decay(-8) == -10
  {
  }
}
