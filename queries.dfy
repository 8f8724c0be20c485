/**
  The three queries the interactive program runs over stored vacancies:
  keyword filtering of descriptions, salary-range filtering, and the top-N
  ranking by salary.
*/
module Queries {
  import Seqs
  import Ranking
  import Text
  import V = Vacancy

  // ---------------------------------------------------------------------
  // Keyword filter: `keyword.lower() in v.description.lower()`.

  /** The test the keyword filter applies to each vacancy. */
  function MentionsKeyword(keyword: string): V.Vacancy -> bool {
    (v: V.Vacancy) => Text.Contains(Text.Lower(v.description), Text.Lower(keyword))
  }

  /**
    Keeps exactly the vacancies whose description contains the keyword,
    ignoring case, with their multiplicities and in their original order.
  */
  function FilterByKeyword(vs: seq<V.Vacancy>, keyword: string): (r: seq<V.Vacancy>)
    ensures forall v :: v in r <==> v in vs && Text.Contains(Text.Lower(v.description), Text.Lower(keyword))
    ensures forall v :: multiset(r)[v] ==
              if Text.Contains(Text.Lower(v.description), Text.Lower(keyword)) then multiset(vs)[v] else 0
    ensures Seqs.IsSubsequence(r, vs)
  {
    Seqs.FilterIsSubsequence(vs, MentionsKeyword(keyword));
    Seqs.FilterCounts(vs, MentionsKeyword(keyword));
    Seqs.Filter(vs, MentionsKeyword(keyword))
  }

  /** The empty keyword is part of every description, so nothing is dropped. */
  lemma EmptyKeywordKeepsAll(vs: seq<V.Vacancy>)
    ensures FilterByKeyword(vs, "") == vs
  {
    forall i | 0 <= i < |vs|
      ensures MentionsKeyword("")(vs[i])
    {
      assert Text.OccursAt(Text.Lower(vs[i].description), "", 0);
    }
    Seqs.FilterKeepsAll(vs, MentionsKeyword(""));
  }

  // ---------------------------------------------------------------------
  // Salary-range filter: `min_salary <= v._get_numeric_salary() <= max_salary`.

  /** The test the range filter applies: the one numeric salary lies inside the bounds. */
  function InSalaryRange(lo: int, hi: int): V.Vacancy -> bool {
    (v: V.Vacancy) => lo <= V.NumericSalary(v) <= hi
  }

  /**
    Keeps exactly the vacancies whose numeric salary lies between the bounds,
    both included, in their original order. This is containment of one
    number, not overlap of two intervals.
  */
  function FilterBySalaryRange(vs: seq<V.Vacancy>, lo: int, hi: int): (r: seq<V.Vacancy>)
    ensures forall v :: v in r <==> v in vs && lo <= V.NumericSalary(v) <= hi
    ensures forall v :: multiset(r)[v] == if lo <= V.NumericSalary(v) <= hi then multiset(vs)[v] else 0
    ensures Seqs.IsSubsequence(r, vs)
  {
    Seqs.FilterIsSubsequence(vs, InSalaryRange(lo, hi));
    Seqs.FilterCounts(vs, InSalaryRange(lo, hi));
    Seqs.Filter(vs, InSalaryRange(lo, hi))
  }

  /** Bounds given the wrong way round select nothing. */
  lemma InvertedRangeIsEmpty(vs: seq<V.Vacancy>, lo: int, hi: int)
    requires lo > hi
    ensures FilterBySalaryRange(vs, lo, hi) == []
  {
    Seqs.FilterKeepsNone(vs, InSalaryRange(lo, hi));
  }

  /** A vacancy without a salary counts as earning 0 and passes only ranges that contain 0. */
  lemma UnspecifiedSalaryInRange(vs: seq<V.Vacancy>, lo: int, hi: int, v: V.Vacancy)
    requires v in vs && v.salary == V.Unspecified
    ensures v in FilterBySalaryRange(vs, lo, hi) <==> lo <= 0 <= hi
  {
  }

  // ---------------------------------------------------------------------
  // Ranking: `sorted(vacancies, reverse=True)[:n]`. Python's sort uses `<`,
  // which compares numeric salaries only, and `reverse=True` keeps ties in
  // input order.

  /**
    `sorted(vs, reverse=True)`: a permutation of `vs`, highest numeric salary
    first.
  */
  function SortBySalaryDesc(vs: seq<V.Vacancy>): (r: seq<V.Vacancy>)
    ensures multiset(r) == multiset(vs)
    ensures forall i, j :: 0 <= i < j < |r| ==> V.NumericSalary(r[i]) >= V.NumericSalary(r[j])
  {
    var r := Ranking.SortDesc(vs, V.NumericSalary);
    assert Ranking.SortedDesc(r, V.NumericSalary);
    r
  }

  /** The test that picks out the vacancies earning exactly `k`. */
  function EarnsExactly(k: int): V.Vacancy -> bool {
    Ranking.KeyIs(V.NumericSalary, k)
  }

  /**
    Stability: for every salary value, the vacancies earning it appear in the
    sorted list exactly in their input order.
  */
  lemma SortIsStable(vs: seq<V.Vacancy>, k: int)
    ensures Seqs.Filter(SortBySalaryDesc(vs), EarnsExactly(k)) == Seqs.Filter(vs, EarnsExactly(k))
  {
    Ranking.SortIsStable(vs, V.NumericSalary, k);
  }

  /** Sorting is idempotent. */
  lemma SortIdempotent(vs: seq<V.Vacancy>)
    ensures SortBySalaryDesc(SortBySalaryDesc(vs)) == SortBySalaryDesc(vs)
  {
    Ranking.SortOfSorted(SortBySalaryDesc(vs), V.NumericSalary);
  }

  /**
    `sorted(vs, reverse=True)[:n]`: for `n >= 0` the `min(n, |vs|)` best paid
    vacancies, best first, and none of those left out earns more than any
    kept; a negative `n` drops the `-n` lowest paid instead.
  */
  function TopN(vs: seq<V.Vacancy>, n: int): (r: seq<V.Vacancy>)
    ensures n >= 0 ==> |r| == Seqs.Min(n, |vs|)
    ensures n < 0 ==> |r| == if |vs| + n < 0 then 0 else |vs| + n
    ensures forall i, j :: 0 <= i < j < |r| ==> V.NumericSalary(r[i]) >= V.NumericSalary(r[j])
    ensures multiset(r) <= multiset(vs)
    ensures r == SortBySalaryDesc(vs)[..|r|]
    ensures forall i, j :: 0 <= i < |r| <= j < |vs| ==>
              V.NumericSalary(r[i]) >= V.NumericSalary(SortBySalaryDesc(vs)[j])
  {
    var r := Ranking.Top(vs, V.NumericSalary, n);
    assert Ranking.SortedDesc(r, V.NumericSalary);
    r
  }

  /** Asking for at least as many as there are gives the whole sorted list. */
  lemma TopNOfAll(vs: seq<V.Vacancy>, n: int)
    requires n >= |vs|
    ensures TopN(vs, n) == SortBySalaryDesc(vs)
  {
    assert |multiset(SortBySalaryDesc(vs))| == |multiset(vs)|;
  }

  /** Among vacancies earning the same, the top-N keeps the earliest ones, in input order. */
  lemma TopNIsStable(vs: seq<V.Vacancy>, n: int, k: int)
    ensures Seqs.IsPrefix(Seqs.Filter(TopN(vs, n), EarnsExactly(k)), Seqs.Filter(vs, EarnsExactly(k)))
  {
    var sorted := SortBySalaryDesc(vs);
    var r := TopN(vs, n);
    Seqs.PrefixSplit(r, sorted);
    Seqs.FilterAppend(r, sorted[|r|..], EarnsExactly(k));
    Seqs.PrefixOfAppend(Seqs.Filter(r, EarnsExactly(k)), Seqs.Filter(sorted[|r|..], EarnsExactly(k)));
    SortIsStable(vs, k);
  }
}
