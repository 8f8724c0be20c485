/**
  Stable sorting by a numeric key, highest first, as Python's
  `sorted(xs, key=..., reverse=True)` does it: ties keep their input order.
*/
module Ranking {
  import Seqs

  /** Non-increasing key from front to back. */
  predicate SortedDesc<T>(s: seq<T>, key: T -> nat) {
    forall i, j :: 0 <= i < j < |s| ==> key(s[i]) >= key(s[j])
  }

  /** Places `x` after every element whose key is at least as large. */
  function Insert<T>(x: T, s: seq<T>, key: T -> nat): (r: seq<T>)
    ensures multiset(r) == multiset(s) + multiset{x}
  {
    if s == [] then [x]
    else if key(s[0]) >= key(x) then
      assert s == [s[0]] + s[1..];
      [s[0]] + Insert(x, s[1..], key)
    else [x] + s
  }

  lemma {:induction false} InsertKeepsSorted<T>(x: T, s: seq<T>, key: T -> nat)
    requires SortedDesc(s, key)
    ensures SortedDesc(Insert(x, s, key), key)
    decreases |s|
  {
    if s == [] {
    } else if key(s[0]) >= key(x) {
      var rest := Insert(x, s[1..], key);
      SortedTail(s, key);
      InsertKeepsSorted(x, s[1..], key);
      forall j | 0 <= j < |rest|
        ensures key(s[0]) >= key(rest[j])
      {
        assert rest[j] in multiset(rest);
        assert rest[j] == x || rest[j] in s[1..];
      }
      SortedCons(s[0], rest, key);
    } else {
      forall j | 0 <= j < |s|
        ensures key(x) >= key(s[j])
      {
        assert key(s[0]) >= key(s[j]);
      }
      SortedCons(x, s, key);
    }
  }

  /** An element no smaller than anything in a sorted list can go in front. */
  lemma SortedCons<T>(y: T, s: seq<T>, key: T -> nat)
    requires SortedDesc(s, key)
    requires forall j :: 0 <= j < |s| ==> key(y) >= key(s[j])
    ensures SortedDesc([y] + s, key)
  {
    var r := [y] + s;
    forall i, j | 0 <= i < j < |r|
      ensures key(r[i]) >= key(r[j])
    {
      assert r[j] == s[j - 1];
      if i > 0 {
        assert r[i] == s[i - 1];
      }
    }
  }

  /**
    The stable descending sort: each element in turn goes after all earlier
    ones whose key is at least as large.
  */
  function SortDesc<T>(s: seq<T>, key: T -> nat): (r: seq<T>)
    ensures multiset(r) == multiset(s)
    ensures SortedDesc(r, key)
  {
    if s == [] then []
    else
      var init := s[..|s| - 1];
      assert s == init + [s[|s| - 1]];
      var sorted := SortDesc(init, key);
      InsertKeepsSorted(s[|s| - 1], sorted, key);
      Insert(s[|s| - 1], sorted, key)
  }

  /** The test that picks out the elements whose key is exactly `k`. */
  function KeyIs<T>(key: T -> nat, k: int): T -> bool {
    x => key(x) == k
  }

  lemma {:induction false} InsertIsStable<T(!new)>(x: T, s: seq<T>, key: T -> nat, k: int)
    requires SortedDesc(s, key)
    ensures Seqs.Filter(Insert(x, s, key), KeyIs(key, k))
         == Seqs.Filter(s, KeyIs(key, k)) + (if key(x) == k then [x] else [])
    decreases |s|
  {
    if s == [] {
      Seqs.FilterSingle(x, KeyIs(key, k));
      assert Insert(x, s, key) == [x];
    } else if key(s[0]) >= key(x) {
      SortedTail(s, key);
      InsertIsStable(x, s[1..], key, k);
      Seqs.ConsSplit(s);
      Seqs.FilterConsShift(s[0], Insert(x, s[1..], key), s[1..], KeyIs(key, k),
                           if key(x) == k then [x] else []);
    } else {
      InsertInFrontStable(x, s, key, k);
    }
  }

  /** The step of `InsertIsStable` where `x` goes in front of everything. */
  lemma InsertInFrontStable<T(!new)>(x: T, s: seq<T>, key: T -> nat, k: int)
    requires SortedDesc(s, key) && s != [] && key(s[0]) < key(x)
    ensures Seqs.Filter(Insert(x, s, key), KeyIs(key, k))
         == Seqs.Filter(s, KeyIs(key, k)) + (if key(x) == k then [x] else [])
  {
    var p := KeyIs(key, k);
    var own := if key(x) == k then [x] else [];
    Seqs.FilterSingle(x, p);
    calc {
      Seqs.Filter(Insert(x, s, key), p);
      Seqs.Filter([x] + s, p);
      { Seqs.FilterAppend([x], s, p); }
      own + Seqs.Filter(s, p);
    }
    if key(x) == k {
      forall i | 0 <= i < |s|
        ensures !p(s[i])
      {
        assert key(s[i]) <= key(s[0]);
      }
      Seqs.FilterKeepsNone(s, p);
      Seqs.AppendEmpty(own);
    } else {
      Seqs.AppendEmpty(Seqs.Filter(s, p));
    }
  }

  /** Dropping the first element keeps a list sorted. */
  lemma SortedTail<T>(s: seq<T>, key: T -> nat)
    requires s != [] && SortedDesc(s, key)
    ensures SortedDesc(s[1..], key)
  {
    var rest := s[1..];
    forall i, j | 0 <= i < j < |rest|
      ensures key(rest[i]) >= key(rest[j])
    {
      assert rest[i] == s[i + 1] && rest[j] == s[j + 1];
    }
  }

  /** Dropping the last element keeps a list sorted. */
  lemma SortedInit<T>(s: seq<T>, key: T -> nat)
    requires s != [] && SortedDesc(s, key)
    ensures SortedDesc(s[..|s| - 1], key)
    ensures forall i :: 0 <= i < |s| - 1 ==> key(s[i]) >= key(s[|s| - 1])
  {
    var init := s[..|s| - 1];
    forall i, j | 0 <= i < j < |init|
      ensures key(init[i]) >= key(init[j])
    {
      assert init[i] == s[i] && init[j] == s[j];
    }
  }

  /** Stability: for every key value, its elements keep their input order. */
  lemma {:induction false} SortIsStable<T(!new)>(s: seq<T>, key: T -> nat, k: int)
    ensures Seqs.Filter(SortDesc(s, key), KeyIs(key, k)) == Seqs.Filter(s, KeyIs(key, k))
    decreases |s|
  {
    if s != [] {
      var p := KeyIs(key, k);
      var init, last := s[..|s| - 1], s[|s| - 1];
      assert init + [last] == s;
      var sorted := SortDesc(init, key);
      var own := if key(last) == k then [last] else [];
      calc {
        Seqs.Filter(SortDesc(s, key), p);
        Seqs.Filter(Insert(last, sorted, key), p);
        { InsertIsStable(last, sorted, key, k); }
        Seqs.Filter(sorted, p) + own;
        { SortIsStable(init, key, k); }
        Seqs.Filter(init, p) + own;
        { Seqs.FilterSingle(last, p); }
        Seqs.Filter(init, p) + Seqs.Filter([last], p);
        { Seqs.FilterAppend(init, [last], p); }
        Seqs.Filter(s, p);
      }
    }
  }

  /** An element whose key is no larger than any in `s` goes last. */
  lemma {:induction false} InsertAtEnd<T>(x: T, s: seq<T>, key: T -> nat)
    requires forall i :: 0 <= i < |s| ==> key(s[i]) >= key(x)
    ensures Insert(x, s, key) == s + [x]
    decreases |s|
  {
    if s != [] {
      var rest := s[1..];
      assert forall i :: 0 <= i < |rest| ==> key(rest[i]) >= key(x) by {
        forall i | 0 <= i < |rest|
          ensures key(rest[i]) >= key(x)
        {
          assert rest[i] == s[i + 1];
        }
      }
      InsertAtEnd(x, rest, key);
      Seqs.ConsSplit(s);
      Seqs.AppendAssoc([s[0]], rest, [x]);
    }
  }

  /** Sorting what is already sorted changes nothing. */
  lemma {:induction false} SortOfSorted<T>(s: seq<T>, key: T -> nat)
    requires SortedDesc(s, key)
    ensures SortDesc(s, key) == s
    decreases |s|
  {
    if s != [] {
      var init, last := s[..|s| - 1], s[|s| - 1];
      SortedInit(s, key);
      SortOfSorted(init, key);
      assert SortDesc(s, key) == Insert(last, init, key);
      InsertAtEnd(last, init, key);
      assert init + [last] == s;
    }
  }

  /**
    `sorted(s, reverse=True)[:n]`: a front part of the sorted list; nothing
    left out has a larger key than anything kept.
  */
  function Top<T>(s: seq<T>, key: T -> nat, n: int): (r: seq<T>)
    ensures n >= 0 ==> |r| == Seqs.Min(n, |s|)
    ensures n < 0 ==> |r| == if |s| + n < 0 then 0 else |s| + n
    ensures SortedDesc(r, key)
    ensures multiset(r) <= multiset(s)
    ensures r == SortDesc(s, key)[..|r|]
    ensures forall i, j :: 0 <= i < |r| <= j < |s| ==> key(r[i]) >= key(SortDesc(s, key)[j])
  {
    var r := Seqs.Take(SortDesc(s, key), n);
    TopFacts(s, key, r);
    r
  }

  lemma TopFacts<T>(s: seq<T>, key: T -> nat, r: seq<T>)
    requires Seqs.IsPrefix(r, SortDesc(s, key))
    ensures |SortDesc(s, key)| == |s|
    ensures SortedDesc(r, key)
    ensures multiset(r) <= multiset(s)
    ensures forall i, j :: 0 <= i < |r| <= j < |s| ==> key(r[i]) >= key(SortDesc(s, key)[j])
  {
    var sorted := SortDesc(s, key);
    assert |multiset(sorted)| == |multiset(s)|;
    Seqs.PrefixMultiset(r, sorted);
    SortedPrefix(r, sorted, key);
  }

  /** A front part of a sorted list is sorted and dominates the rest. */
  lemma SortedPrefix<T>(r: seq<T>, sorted: seq<T>, key: T -> nat)
    requires Seqs.IsPrefix(r, sorted) && SortedDesc(sorted, key)
    ensures SortedDesc(r, key)
    ensures forall i, j :: 0 <= i < |r| <= j < |sorted| ==> key(r[i]) >= key(sorted[j])
  {
    forall i, j | 0 <= i < j < |r|
      ensures key(r[i]) >= key(r[j])
    {
      assert r[i] == sorted[i] && r[j] == sorted[j];
    }
    forall i, j | 0 <= i < |r| <= j < |sorted|
      ensures key(r[i]) >= key(sorted[j])
    {
      assert r[i] == sorted[i];
    }
  }
}
