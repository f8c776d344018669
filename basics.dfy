/** Generic helpers shared by every module: an Option type, order-preserving
    filters (the `filter` of JavaScript arrays and of Django querysets), the
    subsequence relation, and tallies of keys (SQL GROUP BY ... COUNT). */
module Basics {

  datatype Option<+T> = None | Some(value: T)

  /** A request field that may be left out altogether (partial updates). */
  datatype Field<+T> = Absent | Given(value: T)

  /** Python truthiness of an optional string: present and not empty. */
  predicate Supplied(f: Option<string>)
  {
    f.Some? && f.value != ""
  }

  /** The elements of `s` that satisfy `p`, in their original order. */
  function Filter<T>(s: seq<T>, p: T -> bool): (r: seq<T>)
    ensures |r| <= |s|
    ensures forall x :: x in r ==> x in s && p(x)
  {
    if s == [] then []
    else if p(s[0]) then [s[0]] + Filter(s[1..], p)
    else Filter(s[1..], p)
  }

  /** `a` can be obtained from `b` by deleting elements. */
  predicate IsSubseq<T(==)>(a: seq<T>, b: seq<T>)
    decreases |b|
  {
    if a == [] then true
    else if b == [] then false
    else if a[0] == b[0] then IsSubseq(a[1..], b[1..])
    else IsSubseq(a, b[1..])
  }

  lemma {:induction false} SubseqRefl<T>(s: seq<T>)
    ensures IsSubseq(s, s)
  {
    if s != [] {
      SubseqRefl(s[1..]);
    }
  }

  lemma {:induction false} FilterIsSubseq<T>(s: seq<T>, p: T -> bool)
    ensures IsSubseq(Filter(s, p), s)
  {
    if s != [] {
      FilterIsSubseq(s[1..], p);
      if !p(s[0]) {
        SubseqSkip(Filter(s[1..], p), s[0], s[1..]);
      }
    }
  }

  lemma {:induction false} SubseqSkip<T>(a: seq<T>, x: T, b: seq<T>)
    requires IsSubseq(a, b)
    ensures IsSubseq(a, [x] + b)
    decreases |b|, 1
  {
    var xb := [x] + b;
    assert xb[1..] == b;
    if a != [] && a[0] == x {
      // a[1..] is a subsequence of b because a is
      SubseqTail(a, b);
    }
  }

  lemma {:induction false} SubseqTail<T>(a: seq<T>, b: seq<T>)
    requires a != [] && IsSubseq(a, b)
    ensures IsSubseq(a[1..], b)
    decreases |b|, 0
  {
    if a[0] == b[0] {
      SubseqSkip(a[1..], b[0], b[1..]);
      assert [b[0]] + b[1..] == b;
    } else {
      SubseqTail(a, b[1..]);
      SubseqSkip(a[1..], b[0], b[1..]);
      assert [b[0]] + b[1..] == b;
    }
  }

  /** An element survives the filter exactly when it is present and satisfies p. */
  lemma {:induction false} FilterMember<T>(s: seq<T>, p: T -> bool, x: T)
    ensures x in Filter(s, p) <==> x in s && p(x)
  {
    if s != [] {
      FilterMember(s[1..], p, x);
      assert s == [s[0]] + s[1..];
    }
  }

  /** A filter whose predicate holds everywhere returns the whole sequence. */
  lemma {:induction false} FilterAll<T>(s: seq<T>, p: T -> bool)
    requires forall i :: 0 <= i < |s| ==> p(s[i])
    ensures Filter(s, p) == s
  {
    if s != [] {
      FilterAll(s[1..], p);
      assert [s[0]] + s[1..] == s;
    }
  }

  /** A filter whose predicate holds nowhere returns nothing. */
  lemma {:induction false} FilterNone<T>(s: seq<T>, p: T -> bool)
    requires forall i :: 0 <= i < |s| ==> !p(s[i])
    ensures Filter(s, p) == []
  {
    if s != [] {
      FilterNone(s[1..], p);
    }
  }

  lemma {:induction false} FilterAppend<T>(a: seq<T>, b: seq<T>, p: T -> bool)
    ensures Filter(a + b, p) == Filter(a, p) + Filter(b, p)
  {
    if a == [] {
      assert a + b == b;
    } else {
      assert (a + b)[1..] == a[1..] + b;
      FilterAppend(a[1..], b, p);
    }
  }

  /** The count of a filter grows by one exactly at the elements that satisfy p. */
  lemma FilterSnoc<T>(s: seq<T>, x: T, p: T -> bool)
    ensures |Filter(s + [x], p)| == |Filter(s, p)| + (if p(x) then 1 else 0)
  {
    FilterAppend(s, [x], p);
  }

  /** Two predicates that agree on the elements of s select the same elements. */
  lemma {:induction false} FilterExt<T>(s: seq<T>, p: T -> bool, q: T -> bool)
    requires forall i :: 0 <= i < |s| ==> p(s[i]) == q(s[i])
    ensures Filter(s, p) == Filter(s, q)
  {
    if s != [] {
      FilterExt(s[1..], p, q);
    }
  }

  /** Filtering twice is filtering by the conjunction. */
  lemma {:induction false} FilterFilter<T>(s: seq<T>, p: T -> bool, q: T -> bool)
    ensures Filter(Filter(s, p), q) == Filter(s, x => p(x) && q(x))
  {
    if s != [] {
      FilterFilter(s[1..], p, q);
      if p(s[0]) {
        assert Filter(s, p) == [s[0]] + Filter(s[1..], p);
        assert ([s[0]] + Filter(s[1..], p))[1..] == Filter(s[1..], p);
      }
    }
  }

  /** Position of the first element satisfying p (JavaScript `findIndex`). */
  function FirstIndex<T>(s: seq<T>, p: T -> bool): (r: Option<nat>)
    ensures r.None? <==> forall i :: 0 <= i < |s| ==> !p(s[i])
    ensures r.Some? ==> r.value < |s| && p(s[r.value])
    ensures r.Some? ==> forall j :: 0 <= j < r.value ==> !p(s[j])
  {
    if s == [] then None
    else if p(s[0]) then Some(0)
    else match FirstIndex(s[1..], p)
      case None => None
      case Some(i) => Some(i + 1)
  }

  /** The first element satisfying p (JavaScript `find`, Django `.first()`). */
  function First<T>(s: seq<T>, p: T -> bool): (r: Option<T>)
    ensures r.None? <==> forall i :: 0 <= i < |s| ==> !p(s[i])
    ensures r.Some? ==> r.value in s && p(r.value)
    ensures r.Some? ==> exists i :: 0 <= i < |s| && s[i] == r.value && forall j :: 0 <= j < i ==> !p(s[j])
  {
    match FirstIndex(s, p)
      case None => None
      case Some(i) => Some(s[i])
  }

  /** With disjoint predicates p and q, the selection by "p or q" has the two
      sizes added. */
  lemma {:induction false} FilterDisjointUnion<T>(s: seq<T>, p: T -> bool, q: T -> bool, pq: T -> bool)
    requires forall i :: 0 <= i < |s| ==> !(p(s[i]) && q(s[i]))
    requires forall i :: 0 <= i < |s| ==> pq(s[i]) == (p(s[i]) || q(s[i]))
    ensures |Filter(s, pq)| == |Filter(s, p)| + |Filter(s, q)|
  {
    if s != [] {
      FilterDisjointUnion(s[1..], p, q, pq);
    }
  }

  /** Number of elements satisfying p. */
  function CountWhere<T>(s: seq<T>, p: T -> bool): (n: nat)
    ensures n <= |s|
    ensures n == 0 <==> forall i :: 0 <= i < |s| ==> !p(s[i])
  {
    if s == [] then 0
    else (if p(s[0]) then 1 else 0) + CountWhere(s[1..], p)
  }

  lemma {:induction false} CountIsFilterLength<T>(s: seq<T>, p: T -> bool)
    ensures CountWhere(s, p) == |Filter(s, p)|
  {
    if s != [] {
      CountIsFilterLength(s[1..], p);
    }
  }

  // ---------------------------------------------------------------------
  // Tallies: the rows of `values(key).annotate(count=Count('id'))`, turned
  // into a dictionary, as an association list in first-appearance order.

  type Tally = seq<(string, nat)>

  predicate HasKey(t: Tally, k: string)
  {
    t != [] && (t[0].0 == k || HasKey(t[1..], k))
  }

  /** No key appears in two entries. */
  predicate DistinctKeys(t: Tally)
  {
    t == [] || (!HasKey(t[1..], t[0].0) && DistinctKeys(t[1..]))
  }

  function Lookup(t: Tally, k: string): (n: nat)
  {
    if t == [] then 0
    else if t[0].0 == k then t[0].1
    else Lookup(t[1..], k)
  }

  function Total(t: Tally): nat
  {
    if t == [] then 0 else t[0].1 + Total(t[1..])
  }

  lemma {:induction false} HasKeyIndex(t: Tally, k: string)
    ensures HasKey(t, k) <==> exists j :: 0 <= j < |t| && t[j].0 == k
  {
    if t != [] {
      HasKeyIndex(t[1..], k);
      if HasKey(t[1..], k) {
        var j :| 0 <= j < |t[1..]| && t[1..][j].0 == k;
        assert t[j + 1].0 == k;
      }
      if exists j :: 0 <= j < |t| && t[j].0 == k {
        var j :| 0 <= j < |t| && t[j].0 == k;
        if j > 0 {
          assert t[1..][j - 1].0 == k;
        }
      }
    }
  }

  /** With distinct keys, each entry is what its key looks up. */
  lemma {:induction false} LookupIndex(t: Tally, j: nat)
    requires DistinctKeys(t) && j < |t|
    ensures Lookup(t, t[j].0) == t[j].1
  {
    if j > 0 {
      HasKeyIndex(t[1..], t[0].0);
      assert t[1..][j - 1] == t[j];
      LookupIndex(t[1..], j - 1);
    }
  }

  /** Adds one to the entry of k, creating the entry when k is new. */
  function Bump(t: Tally, k: string): (r: Tally)
    ensures |r| == |t| || |r| == |t| + 1
    ensures forall i :: 0 <= i < |t| ==> r[i].0 == t[i].0
  {
    if t == [] then [(k, 1)]
    else if t[0].0 == k then [(k, t[0].1 + 1)] + t[1..]
    else [t[0]] + Bump(t[1..], k)
  }

  /** Counts each distinct key of ks. */
  function TallyOf(ks: seq<string>): Tally
  {
    if ks == [] then [] else Bump(TallyOf(ks[..|ks| - 1]), ks[|ks| - 1])
  }

  /** Bumping k adds k to the keys and no other key. */
  lemma {:induction false} BumpKeys(t: Tally, k: string)
    ensures forall j :: HasKey(Bump(t, k), j) <==> HasKey(t, j) || j == k
  {
    if t != [] && t[0].0 != k {
      BumpKeys(t[1..], k);
      assert Bump(t, k)[1..] == Bump(t[1..], k);
    } else if t != [] {
      assert Bump(t, k)[1..] == t[1..];
    }
  }

  lemma {:induction false} BumpTotal(t: Tally, k: string)
    ensures Total(Bump(t, k)) == Total(t) + 1
  {
    if t != [] && t[0].0 != k {
      BumpTotal(t[1..], k);
      assert Bump(t, k)[1..] == Bump(t[1..], k);
    }
  }

  lemma {:induction false} BumpLookup(t: Tally, k: string)
    ensures forall j :: Lookup(Bump(t, k), j) == Lookup(t, j) + (if j == k then 1 else 0)
  {
    if t != [] && t[0].0 != k {
      BumpLookup(t[1..], k);
      assert Bump(t, k)[1..] == Bump(t[1..], k);
    } else if t != [] {
      assert Bump(t, k)[1..] == t[1..];
    }
  }

  lemma {:induction false} BumpDistinct(t: Tally, k: string)
    requires DistinctKeys(t)
    ensures DistinctKeys(Bump(t, k))
  {
    if t != [] && t[0].0 != k {
      BumpDistinct(t[1..], k);
      BumpKeys(t[1..], k);
      assert Bump(t, k)[1..] == Bump(t[1..], k);
    } else if t != [] {
      assert Bump(t, k)[1..] == t[1..];
    }
  }

  /** Number of times k occurs in ks. */
  function Occurrences(ks: seq<string>, k: string): nat
  {
    if ks == [] then 0
    else Occurrences(ks[..|ks| - 1], k) + (if ks[|ks| - 1] == k then 1 else 0)
  }

  /** The tally has distinct keys, exactly the keys of ks, entries that sum to
      |ks|, and records for every key its multiplicity in ks. */
  lemma {:induction false} TallyFacts(ks: seq<string>)
    ensures DistinctKeys(TallyOf(ks))
    ensures Total(TallyOf(ks)) == |ks|
    ensures forall k :: Lookup(TallyOf(ks), k) == Occurrences(ks, k)
    ensures forall k :: HasKey(TallyOf(ks), k) <==> k in ks
  {
    if ks != [] {
      var init, last := ks[..|ks| - 1], ks[|ks| - 1];
      TallyFacts(init);
      BumpDistinct(TallyOf(init), last);
      BumpTotal(TallyOf(init), last);
      BumpLookup(TallyOf(init), last);
      BumpKeys(TallyOf(init), last);
      assert init + [last] == ks;
    }
  }

  lemma {:induction false} CountSnoc<T>(s: seq<T>, x: T, p: T -> bool)
    ensures CountWhere(s + [x], p) == CountWhere(s, p) + (if p(x) then 1 else 0)
  {
    if s == [] {
      assert s + [x] == [x];
    } else {
      assert (s + [x])[1..] == s[1..] + [x];
      CountSnoc(s[1..], x, p);
    }
  }

  /** Overwriting one element changes the count by what leaves and what enters. */
  lemma {:induction false} CountUpdate<T>(s: seq<T>, k: nat, x: T, p: T -> bool)
    requires k < |s|
    ensures CountWhere(s[k := x], p) + (if p(s[k]) then 1 else 0) == CountWhere(s, p) + (if p(x) then 1 else 0)
  {
    if k == 0 {
      assert s[k := x][1..] == s[1..];
    } else {
      assert s[k := x][1..] == s[1..][k - 1 := x];
      CountUpdate(s[1..], k - 1, x, p);
    }
  }
}
