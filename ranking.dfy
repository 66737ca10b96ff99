/**
 * The "Top Country" rows of `print_stats`:
 * `sorted(by_country.items(), key=count, reverse=True)[:5]`.
 */
module Ranking {
  import opened Counting

  /** A `(country, count)` pair of `by_country.items()`. */
  type Entry = (string, nat)

  /** How many countries `print_stats` shows. */
  const TopN: nat := 5

  ghost predicate NonIncreasing(s: seq<Entry>) {
    forall i, j :: 0 <= i < j < |s| ==> s[i].1 >= s[j].1
  }

  /** Places `x` before the first entry whose count is not larger, so that ties keep their input order. */
  function Insert(x: Entry, s: seq<Entry>): seq<Entry> {
    if s == [] || s[0].1 <= x.1 then [x] + s
    else [s[0]] + Insert(x, s[1..])
  }

  /** Inserting adds exactly `x`. */
  lemma {:induction false} InsertMultiset(x: Entry, s: seq<Entry>)
    ensures multiset(Insert(x, s)) == multiset(s) + multiset{x}
  {
    if s != [] && s[0].1 > x.1 {
      var t := s[1..];
      assert s == [s[0]] + t;
      InsertMultiset(x, t);
      assert Insert(x, s) == [s[0]] + Insert(x, t);
    }
  }

  /** Inserting into a list sorted by count keeps it sorted. */
  lemma {:induction false} InsertSorted(x: Entry, s: seq<Entry>)
    requires NonIncreasing(s)
    ensures NonIncreasing(Insert(x, s))
  {
    if s == [] || s[0].1 <= x.1 {
      assert forall k :: 0 <= k < |s| ==> s[k].1 <= s[0].1;
      ConsSorted(x, s);
    } else {
      var t := s[1..];
      InsertSorted(x, t);
      InsertMultiset(x, t);
      forall k | 0 <= k < |t + [x]| ensures (t + [x])[k].1 <= s[0].1 {
        if k < |t| {
          assert (t + [x])[k] == s[k + 1];
        }
      }
      BoundedElements(Insert(x, t), t + [x], s[0].1);
      ConsSorted(s[0], Insert(x, t));
    }
  }

  /** A sorted list stays sorted under a head no smaller than any of its counts. */
  lemma ConsSorted(y: Entry, s: seq<Entry>)
    requires NonIncreasing(s)
    requires forall k :: 0 <= k < |s| ==> s[k].1 <= y.1
    ensures NonIncreasing([y] + s)
  {
    var r := [y] + s;
    forall i, j | 0 <= i < j < |r| ensures r[i].1 >= r[j].1 {
      assert r[j] == s[j - 1];
      if i > 0 {
        assert r[i] == s[i - 1];
      }
    }
  }

  /** Every element of `t` comes from `s`, so it is bounded wherever `s` is. */
  lemma BoundedElements(t: seq<Entry>, s: seq<Entry>, bound: nat)
    requires multiset(t) <= multiset(s)
    requires forall k :: 0 <= k < |s| ==> s[k].1 <= bound
    ensures forall k :: 0 <= k < |t| ==> t[k].1 <= bound
  {
    forall k | 0 <= k < |t| ensures t[k].1 <= bound {
      assert t[k] in multiset(t);
      assert t[k] in s;
    }
  }

  /** The stable sort by count, largest first. */
  function SortByCount(s: seq<Entry>): (r: seq<Entry>)
    ensures NonIncreasing(r)
    ensures multiset(r) == multiset(s)
  {
    if s == [] then []
    else
      assert s == [s[0]] + s[1..];
      InsertSorted(s[0], SortByCount(s[1..]));
      InsertMultiset(s[0], SortByCount(s[1..]));
      Insert(s[0], SortByCount(s[1..]))
  }

  /** The entries of `s` whose count is `v`, in their order in `s`. */
  function WithCount(s: seq<Entry>, v: nat): seq<Entry> {
    if s == [] then []
    else (if s[0].1 == v then [s[0]] else []) + WithCount(s[1..], v)
  }

  /** Inserting `x` puts it ahead of every entry of `s` with the same count and moves no entry past another. */
  lemma {:induction false} InsertStable(x: Entry, s: seq<Entry>, v: nat)
    ensures WithCount(Insert(x, s), v) == (if x.1 == v then [x] else []) + WithCount(s, v)
  {
    var here: seq<Entry> := if x.1 == v then [x] else [];
    if s == [] || s[0].1 <= x.1 {
      var r := [x] + s;
      assert r[0] == x && r[1..] == s;
      assert WithCount(r, v) == here + WithCount(s, v);
    } else {
      var t := s[1..];
      var first: seq<Entry> := if s[0].1 == v then [s[0]] else [];
      InsertStable(x, t, v);
      var r := [s[0]] + Insert(x, t);
      assert r[0] == s[0] && r[1..] == Insert(x, t);
      assert WithCount(r, v) == first + (here + WithCount(t, v));
      assert WithCount(s, v) == first + WithCount(t, v);
      // `s[0]` beats `x`, so at most one of them has the count `v`.
      assert first == [] || here == [];
    }
  }

  /**
   * Python's `sorted` is stable: for every count, the entries with that
   * count come out in the order they went in.
   */
  lemma {:induction false} SortStable(s: seq<Entry>, v: nat)
    ensures WithCount(SortByCount(s), v) == WithCount(s, v)
  {
    if s != [] {
      SortStable(s[1..], v);
      InsertStable(s[0], SortByCount(s[1..]), v);
    }
  }

  /**
   * The countries `print_stats` lists: as many as there are, up to five,
   * drawn from the input, largest count first, and none left out with a
   * larger count than one shown.
   */
  function TopCountries(items: seq<Entry>): (r: seq<Entry>)
    ensures |r| == Min(TopN, |items|)
    ensures NonIncreasing(r)
    ensures multiset(r) <= multiset(items)
    ensures forall x :: x in items && x !in r ==> forall i :: 0 <= i < |r| ==> x.1 <= r[i].1
    ensures forall v :: WithCount(r, v) <= WithCount(items, v)
  {
    var sorted := SortByCount(items);
    var n := Min(TopN, |sorted|);
    TopOfSorted(items, sorted, n);
    TopKeepsTies(items, n);
    sorted[..n]
  }

  /**
   * Cutting the stable sort after `n` rows keeps, for every count, the
   * entries with that count that came first in the input.
   */
  lemma TopKeepsTies(items: seq<Entry>, n: nat)
    requires n <= |SortByCount(items)|
    ensures forall v :: WithCount(SortByCount(items)[..n], v) <= WithCount(items, v)
  {
    forall v ensures WithCount(SortByCount(items)[..n], v) <= WithCount(items, v) {
      WithCountPrefix(SortByCount(items), n, v);
      SortStable(items, v);
    }
  }

  /** The entries of a prefix with a given count are a prefix of those of the whole. */
  lemma {:induction false} WithCountPrefix(s: seq<Entry>, n: nat, v: nat)
    requires n <= |s|
    ensures WithCount(s[..n], v) <= WithCount(s, v)
  {
    if n > 0 {
      var head: seq<Entry> := if s[0].1 == v then [s[0]] else [];
      WithCountPrefix(s[1..], n - 1, v);
      assert s[..n][0] == s[0] && s[..n][1..] == s[1..][..n - 1];
      assert WithCount(s[..n], v) == head + WithCount(s[1..][..n - 1], v);
      assert WithCount(s, v) == head + WithCount(s[1..], v);
    }
  }

  lemma TopOfSorted(items: seq<Entry>, sorted: seq<Entry>, n: nat)
    requires NonIncreasing(sorted) && multiset(sorted) == multiset(items)
    requires n <= |sorted|
    ensures |sorted| == |items|
    ensures multiset(sorted[..n]) <= multiset(items)
    ensures forall x :: x in items && x !in sorted[..n] ==>
              forall i :: 0 <= i < n ==> x.1 <= sorted[..n][i].1
  {
    assert |sorted| == |multiset(sorted)| == |items|;
    var top, rest := sorted[..n], sorted[n..];
    assert sorted == top + rest;
    forall x: Entry | x in items && x !in top
      ensures forall i :: 0 <= i < n ==> x.1 <= top[i].1
    {
      assert x in multiset(sorted);
      var j :| 0 <= j < |sorted| && sorted[j] == x;
      assert j >= n;
    }
  }
}
