/**
  The therapist directory: the seed therapists whose city contains the
  search term, compared after lowering both, and a no-results message when
  none does.
 */
module Therapists {
  import opened Types
  import opened Seqs
  import opened Text

  /** The therapists whose lowered city contains `needle`, in input order. */
  function CityContains(ts: seq<Therapist>, needle: string): (r: seq<Therapist>)
    ensures forall t :: t in r <==> t in ts && Includes(Lower(t.city), needle)
    ensures forall t: Therapist :: Includes(Lower(t.city), needle) ==> multiset(r)[t] == multiset(ts)[t]
    ensures Subsequence(r, ts)
  {
    Filter((t: Therapist) => Includes(Lower(t.city), needle), ts)
  }

  /** The case-insensitive city filter. */
  function FilterByCity(ts: seq<Therapist>, term: string): (r: seq<Therapist>)
    ensures forall t :: t in r <==> t in ts && Includes(Lower(t.city), Lower(term))
    ensures forall t: Therapist :: Includes(Lower(t.city), Lower(term)) ==> multiset(r)[t] == multiset(ts)[t]
    ensures Subsequence(r, ts)
  {
    CityContains(ts, Lower(term))
  }

  /** The no-results message is shown instead of the grid of `directory` (the seed therapists on the page). */
  predicate NoResults(directory: seq<Therapist>, term: string) {
    |FilterByCity(directory, term)| == 0
  }

  /** The empty term, the initial one, lists everybody in order. */
  lemma EmptyTermKeepsAll(ts: seq<Therapist>)
    ensures FilterByCity(ts, "") == ts
  {
    forall k | 0 <= k < |ts| ensures Includes(Lower(ts[k].city), Lower("")) {
      assert OccursAt(Lower(ts[k].city), Lower(""), 0);
    }
    FilterKeepsAll((t: Therapist) => Includes(Lower(t.city), Lower("")), ts);
  }

  /** The case the term is typed in does not change the list, whatever letters are typed in which case. */
  lemma CaseOfTermIrrelevant(ts: seq<Therapist>, a: string, b: string)
    requires SameUpToCase(a, b)
    ensures FilterByCity(ts, a) == FilterByCity(ts, b)
  {
    LowerIdentifiesCaseVariants(a, b);
  }

  lemma LowerAppend(a: string, b: string)
    ensures Lower(a + b) == Lower(a) + Lower(b)
  {
  }

  /** Containing a longer needle means containing its prefix. */
  lemma IncludesPrefix(hay: string, a: string, b: string)
    requires Includes(hay, a + b)
    ensures Includes(hay, a)
  {
    var i :| OccursAt(hay, a + b, i);
    assert hay[i..i + |a|] == (a + b)[..|a|];
    assert OccursAt(hay, a, i);
  }

  /** Typing more of the term never brings a therapist back. */
  lemma NarrowingTermNarrowsList(ts: seq<Therapist>, term: string, more: string)
    ensures forall t :: t in FilterByCity(ts, term + more) ==> t in FilterByCity(ts, term)
  {
    LowerAppend(term, more);
    forall t | t in FilterByCity(ts, term + more) ensures t in FilterByCity(ts, term) {
      IncludesPrefix(Lower(t.city), Lower(term), Lower(more));
    }
  }

  /** The no-results message appears exactly when no city of the directory contains the term. */
  lemma NoResultsIffNoCityMatches(directory: seq<Therapist>, term: string)
    ensures NoResults(directory, term) <==> forall t :: t in directory ==> !Includes(Lower(t.city), Lower(term))
  {
    var r := FilterByCity(directory, term);
    if |r| > 0 {
      assert r[0] in r;
    }
  }
}
