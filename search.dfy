/**
 * The search box of the CV list (streamlit_app.py:432-437): a
 * case-insensitive substring match on the filename or the candidate name.
 */
module Search {
  import opened Text
  import opened CvStore

  /** `term.lower() in cv[1].lower() or term.lower() in (cv[5] or "").lower()`. */
  predicate Matches(c: Cv, term: string)
    ensures Matches(c, term) ==> |term| <= |c.filename| || |term| <= |c.candidateName|
  {
    IsSubstring(Lower(term), Lower(c.filename)) || IsSubstring(Lower(term), Lower(c.candidateName))
  }

  /** `a` is `b` with some elements left out, the rest in their order. */
  predicate IsSubsequence(a: seq<Cv>, b: seq<Cv>)
    decreases |b|
  {
    a == [] || (b != [] && ((a[0] == b[0] && IsSubsequence(a[1..], b[1..])) || IsSubsequence(a, b[1..])))
  }

  /** The list comprehension of streamlit_app.py:433-435. */
  function KeepMatching(cvs: seq<Cv>, term: string): (r: seq<Cv>)
    ensures IsSubsequence(r, cvs)
    ensures forall c :: c in r <==> c in cvs && Matches(c, term)
    ensures forall c :: multiset(r)[c] == if Matches(c, term) then multiset(cvs)[c] else 0
    decreases |cvs|
  {
    if cvs == [] then []
    else
      assert cvs == [cvs[0]] + cvs[1..];
      if Matches(cvs[0], term) then [cvs[0]] + KeepMatching(cvs[1..], term)
      else KeepMatching(cvs[1..], term)
  }

  /** `filtered_cvs`: the whole list for an empty term, else the matching CVs in list order. */
  function FilterCvs(cvs: seq<Cv>, term: string): (r: seq<Cv>)
    ensures term == [] ==> r == cvs
    ensures IsSubsequence(r, cvs)
    ensures forall c :: c in r <==> c in cvs && Matches(c, term)
    ensures forall c :: multiset(r)[c] == if Matches(c, term) then multiset(cvs)[c] else 0
  {
    if term == [] then
      EmptyTermMatchesAll(cvs);
      cvs
    else KeepMatching(cvs, term)
  }

  /** The empty term is in every name, so the guard on it changes no result. */
  lemma {:induction false} EmptyTermMatchesAll(cvs: seq<Cv>)
    ensures KeepMatching(cvs, "") == cvs
    decreases |cvs|
  {
    if cvs != [] {
      EmptyIsSubstring(Lower(cvs[0].filename));
      assert Lower("") == "";
      EmptyTermMatchesAll(cvs[1..]);
      assert cvs == [cvs[0]] + cvs[1..];
    }
  }

  /** The search ignores the case of the term. */
  lemma MatchIgnoresCase(c: Cv, term: string)
    ensures Matches(c, term) <==> Matches(c, Lower(term))
  {
    LowerIdempotent(term);
  }

  lemma LowerIdempotent(s: string)
    ensures Lower(Lower(s)) == Lower(s)
  {
  }
}
