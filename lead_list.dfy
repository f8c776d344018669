/** The quick-view modal's search box: a case-insensitive substring search
    over company and contact name. */
module LeadList {
  import opened Basics
  import opened Client
  import Text

  /** The term occurs in the company, or in the contact name when there is one. */
  predicate Hit(l: Lead, term: string)
  {
    Text.Contains(Text.Lower(l.company), Text.Lower(term)) ||
    (l.contactName.Some? && Text.Contains(Text.Lower(l.contactName.value), Text.Lower(term)))
  }

  function SearchResults(leads: seq<Lead>, term: string): seq<Lead>
  {
    Filter(leads, (l: Lead) => Hit(l, term))
  }

  /** The count in the modal header, which ignores the search. */
  function HeaderCount(leads: seq<Lead>, term: string): (n: nat)
    ensures n >= |SearchResults(leads, term)|
  {
    |leads|
  }

  /** An empty search shows every lead in order. */
  lemma EmptyTermShowsAll(leads: seq<Lead>)
    ensures SearchResults(leads, "") == leads
  {
    forall l: Lead ensures Hit(l, "") {
      assert Text.OccursAt(Text.Lower(l.company), Text.Lower(""), 0);
    }
    FilterAll(leads, (l: Lead) => Hit(l, ""));
  }

  /** The results are the leads in which the term occurs, in their original order. */
  lemma SearchResultsSpec(leads: seq<Lead>, term: string)
    ensures IsSubseq(SearchResults(leads, term), leads)
    ensures forall l :: l in SearchResults(leads, term) <==> l in leads && Hit(l, term)
  {
    FilterIsSubseq(leads, (l: Lead) => Hit(l, term));
    forall l ensures l in SearchResults(leads, term) <==> l in leads && Hit(l, term) {
      FilterMember(leads, (l: Lead) => Hit(l, term), l);
    }
  }

  /** Without a contact name, only the company can match. */
  lemma NullContactMatchesCompanyOnly(l: Lead, term: string)
    requires l.contactName.None?
    ensures Hit(l, term) <==> exists i :: Text.OccursAt(Text.Lower(l.company), Text.Lower(term), i)
  {
  }

  /** Matching ignores the case of ASCII letters in the term. */
  lemma SearchIgnoresTermCase(l: Lead, term: string)
    ensures Hit(l, term) == Hit(l, Text.Lower(term))
  {
    LowerIdempotent(term);
  }

  lemma LowerIdempotent(s: string)
    ensures Text.Lower(Text.Lower(s)) == Text.Lower(s)
  {
  }
}
