/** `ORDER BY <text column>` over a set of row ids. Ties in the sort key
    are broken by ascending id, the same convention `Tables.LeastKey`
    follows for a SELECT without ORDER BY. Text is compared by character
    code; the database collation is not modelled. */
module Ordering {
  import opened Tables
  import opened Text

  /** The ids of a set in ascending order. */
  function Ascending(ids: set<int>): (r: seq<int>)
    ensures |r| == |ids|
    ensures forall i :: 0 <= i < |r| ==> r[i] in ids
    ensures forall x :: x in ids ==> x in r
    decreases ids
  {
    if ids == {} then []
    else
      var k := LeastKey(ids);
      [k] + Ascending(ids - {k})
  }

  /** No id appears twice. */
  predicate Distinct(r: seq<int>) {
    forall i, j :: 0 <= i < j < |r| ==> r[i] != r[j]
  }

  /** Every id is smaller than the ids after it. */
  predicate StrictlyAscending(r: seq<int>) {
    forall i, j :: 0 <= i < j < |r| ==> r[i] < r[j]
  }

  lemma {:induction false} AscendingIsSorted(ids: set<int>)
    ensures StrictlyAscending(Ascending(ids))
    decreases ids
  {
    if ids != {} {
      var k := LeastKey(ids);
      var rest := Ascending(ids - {k});
      AscendingIsSorted(ids - {k});
      BelowRest(ids, k, rest);
      ConsAscending(k, rest);
    }
  }

  lemma BelowRest(ids: set<int>, k: int, rest: seq<int>)
    requires k in ids && forall j :: j in ids ==> k <= j
    requires forall i :: 0 <= i < |rest| ==> rest[i] in ids - {k}
    ensures forall i :: 0 <= i < |rest| ==> k < rest[i]
  {
  }

  lemma ConsAscending(k: int, rest: seq<int>)
    requires StrictlyAscending(rest)
    requires forall i :: 0 <= i < |rest| ==> k < rest[i]
    ensures StrictlyAscending([k] + rest)
  {
    var r := [k] + rest;
    forall i, j | 0 <= i < j < |r| ensures r[i] < r[j] {
      if i == 0 {
        assert r[j] == rest[j - 1];
      } else {
        assert r[i] == rest[i - 1] && r[j] == rest[j - 1];
      }
    }
  }

  /** Insert `x` in front of the first element that sorts after it: by key,
      and by id among equal keys. */
  function Insert(x: int, xs: seq<int>, key: int -> string): (r: seq<int>)
    ensures multiset(r) == multiset(xs) + multiset{x}
  {
    if xs == [] then [x]
    else if LexLe(key(x), key(xs[0])) && !(LexLe(key(xs[0]), key(x)) && xs[0] < x) then [x] + xs
    else
      assert xs == [xs[0]] + xs[1..];
      [xs[0]] + Insert(x, xs[1..], key)
  }

  /** Insertion sort by `key`. */
  function SortBy(xs: seq<int>, key: int -> string): (r: seq<int>)
    ensures multiset(r) == multiset(xs)
  {
    if xs == [] then []
    else
      assert xs == [xs[0]] + xs[1..];
      Insert(xs[0], SortBy(xs[1..], key), key)
  }

  /** Neighbours are in key order. */
  predicate Sorted(r: seq<int>, key: int -> string) {
    forall i :: 0 < i < |r| ==> LexLe(key(r[i - 1]), key(r[i]))
  }

  lemma {:induction false} InsertSorted(x: int, xs: seq<int>, key: int -> string)
    requires Sorted(xs, key)
    ensures Sorted(Insert(x, xs, key), key)
    ensures |Insert(x, xs, key)| == |xs| + 1
    ensures xs != [] ==> Insert(x, xs, key)[0] == x || Insert(x, xs, key)[0] == xs[0]
  {
    if xs != [] {
      var r := Insert(x, xs, key);
      if !(LexLe(key(x), key(xs[0])) && !(LexLe(key(xs[0]), key(x)) && xs[0] < x)) {
        var tail := xs[1..];
        assert Sorted(tail, key) by {
          forall i | 0 < i < |tail| ensures LexLe(key(tail[i - 1]), key(tail[i])) {
            assert tail[i - 1] == xs[i] && tail[i] == xs[i + 1];
          }
        }
        InsertSorted(x, tail, key);
        var t := Insert(x, tail, key);
        assert r == [xs[0]] + t;
        LexLeTotal(key(x), key(xs[0]));
        forall i | 0 < i < |r| ensures LexLe(key(r[i - 1]), key(r[i])) {
          if i == 1 {
            if tail != [] {
              assert xs[1] == tail[0];
            }
          } else {
            assert r[i - 1] == t[i - 2] && r[i] == t[i - 1];
          }
        }
      }
    }
  }

  lemma {:induction false} SortBySorted(xs: seq<int>, key: int -> string)
    ensures Sorted(SortBy(xs, key), key)
    ensures |SortBy(xs, key)| == |xs|
  {
    if xs != [] {
      SortBySorted(xs[1..], key);
      InsertSorted(xs[0], SortBy(xs[1..], key), key);
    }
  }

  /** The rows of `ids` listed `ORDER BY key`. */
  function OrderBy(ids: set<int>, key: int -> string): (r: seq<int>)
    ensures |r| == |ids|
  {
    AscendingIsSorted(ids);
    SortBySorted(Ascending(ids), key);
    SortBy(Ascending(ids), key)
  }

  /** The listing holds every id of the set exactly once, in key order. */
  lemma OrderByListing(ids: set<int>, key: int -> string)
    ensures var r := OrderBy(ids, key);
            && (forall x :: x in r <==> x in ids)
            && Distinct(r)
            && Sorted(r, key)
  {
    var a := Ascending(ids);
    var r := OrderBy(ids, key);
    AscendingIsSorted(ids);
    SortBySorted(a, key);
    assert multiset(r) == multiset(a);
    forall x ensures x in r <==> x in ids {
      assert x in r <==> x in multiset(r);
      assert x in a <==> x in multiset(a);
    }
    DistinctOfMultiset(a, r);
  }

  /** Rearranging a list without repeats gives a list without repeats. */
  lemma DistinctOfMultiset(a: seq<int>, r: seq<int>)
    requires StrictlyAscending(a)
    requires multiset(r) == multiset(a)
    ensures Distinct(r)
  {
    forall x | x in multiset(a) ensures multiset(a)[x] == 1 {
      CountOnce(a, x);
    }
    forall i, j | 0 <= i < j < |r| ensures r[i] != r[j] {
      assert r[i] in multiset(a);
      if r[i] == r[j] {
        TwiceCounted(r, i, j);
        assert false;
      }
    }
  }

  lemma {:induction false} CountOnce(a: seq<int>, x: int)
    requires StrictlyAscending(a)
    requires x in multiset(a)
    ensures multiset(a)[x] == 1
    decreases |a|
  {
    assert a == [a[0]] + a[1..];
    if a[0] == x {
      assert x !in a[1..];
      assert multiset(a[1..])[x] == 0;
    } else {
      CountOnce(a[1..], x);
    }
  }

  lemma {:induction false} TwiceCounted(r: seq<int>, i: int, j: int)
    requires 0 <= i < j < |r| && r[i] == r[j]
    ensures multiset(r)[r[i]] >= 2
  {
    var x := r[i];
    assert r == r[..i] + [x] + r[i + 1..j] + [x] + r[j + 1..];
  }
}
