/** Stable sorting by an integer key, the shape of every `sort((a, b) => …)`
    comparator in the core (a key difference, negated for the other direction).
    `Array.prototype.sort` is stable, so equal keys keep their input order. */
module Sorting {
  import opened SeqUtil

  /** `a` may precede `b`: ascending or descending by `key`. */
  predicate InOrder<T>(key: T -> int, asc: bool, a: T, b: T) {
    if asc then key(a) <= key(b) else key(a) >= key(b)
  }

  /** Every earlier element may precede every later one. */
  ghost predicate SortedBy<T>(key: T -> int, asc: bool, s: seq<T>) {
    forall i, j :: 0 <= i < j < |s| ==> InOrder(key, asc, s[i], s[j])
  }

  /** Places `x` before the first element it may precede (so before its equals). */
  function Insert<T>(key: T -> int, asc: bool, x: T, s: seq<T>): (r: seq<T>)
    requires SortedBy(key, asc, s)
    ensures SortedBy(key, asc, r)
    ensures multiset(r) == multiset(s) + multiset{x}
    ensures |r| == |s| + 1
  {
    if |s| == 0 then [x]
    else if InOrder(key, asc, x, s[0]) then [x] + s
    else
      var rest := Insert(key, asc, x, s[1..]);
      assert s == [s[0]] + s[1..];
      HeadPrecedes(key, asc, x, s, rest);
      [s[0]] + rest
  }

  /** When `x` goes after the head, the head still precedes everything after it. */
  lemma HeadPrecedes<T>(key: T -> int, asc: bool, x: T, s: seq<T>, rest: seq<T>)
    requires |s| > 0 && SortedBy(key, asc, s) && !InOrder(key, asc, x, s[0])
    requires SortedBy(key, asc, rest)
    requires multiset(rest) == multiset(s[1..]) + multiset{x}
    ensures SortedBy(key, asc, [s[0]] + rest)
  {
    var r := [s[0]] + rest;
    forall k | 0 <= k < |rest| ensures InOrder(key, asc, s[0], rest[k]) {
      assert rest[k] in multiset(rest);
      if rest[k] != x {
        assert rest[k] in multiset(s[1..]);
        var m :| 0 <= m < |s[1..]| && s[1..][m] == rest[k];
        assert s[m + 1] == rest[k];
      }
    }
    forall i, j | 0 <= i < j < |r| ensures InOrder(key, asc, r[i], r[j]) {
      if i == 0 {
        assert r[j] == rest[j - 1];
      } else {
        assert r[i] == rest[i - 1] && r[j] == rest[j - 1];
      }
    }
  }

  /** Inserting into a list that `x` may precede puts `x` in front. */
  lemma InsertFront<T>(key: T -> int, asc: bool, x: T, s: seq<T>)
    requires SortedBy(key, asc, s)
    requires |s| == 0 || InOrder(key, asc, x, s[0])
    ensures Insert(key, asc, x, s) == [x] + s
  {
  }

  /** Insertion sort by `key`, ascending when `asc`, otherwise descending. */
  function SortBy<T>(key: T -> int, asc: bool, s: seq<T>): (r: seq<T>)
    ensures SortedBy(key, asc, r)
    ensures multiset(r) == multiset(s)
    ensures |r| == |s|
  {
    if |s| == 0 then []
    else
      assert s == [s[0]] + s[1..];
      Insert(key, asc, s[0], SortBy(key, asc, s[1..]))
  }

  /** Sorting preserves membership in both directions. */
  lemma SortBySameElements<T>(key: T -> int, asc: bool, s: seq<T>)
    ensures forall x :: x in SortBy(key, asc, s) <==> x in s
  {
    var r := SortBy(key, asc, s);
    assert forall x :: x in r <==> x in multiset(r);
    assert forall x :: x in s <==> x in multiset(s);
  }

  /** Sorting a list that is already in order changes nothing. */
  lemma {:induction false} SortSortedIdentity<T>(key: T -> int, asc: bool, s: seq<T>)
    requires SortedBy(key, asc, s)
    ensures SortBy(key, asc, s) == s
  {
    if |s| > 0 {
      assert SortedBy(key, asc, s[1..]);
      SortSortedIdentity(key, asc, s[1..]);
      if |s| > 1 {
        assert s[1..][0] == s[1];
      }
      InsertFront(key, asc, s[0], s[1..]);
      assert s == [s[0]] + s[1..];
    }
  }

  /** Filtering a list with a given head. */
  lemma FilterCons<T(!new)>(f: T -> bool, a: T, t: seq<T>)
    ensures Filter(f, [a] + t) == (if f(a) then [a] else []) + Filter(f, t)
  {
    assert ([a] + t)[1..] == t;
  }

  /** The elements whose key is `k`. */
  function KeyIs<T>(key: T -> int, k: int): T -> bool {
    (x: T) => key(x) == k
  }

  /** Insertion passes only over elements with a different key, so among
      equal keys the inserted element comes first. */
  lemma {:induction false} InsertKeepsTies<T(!new)>(key: T -> int, asc: bool, x: T, s: seq<T>, k: int)
    requires SortedBy(key, asc, s)
    ensures Filter(KeyIs(key, k), Insert(key, asc, x, s))
            == (if key(x) == k then [x] else []) + Filter(KeyIs(key, k), s)
  {
    var f := KeyIs(key, k);
    if |s| == 0 {
      FilterCons(f, x, []);
    } else if InOrder(key, asc, x, s[0]) {
      FilterCons(f, x, s);
    } else {
      var rest := Insert(key, asc, x, s[1..]);
      assert SortedBy(key, asc, s[1..]);
      InsertKeepsTies(key, asc, x, s[1..], k);
      FilterCons(f, s[0], rest);
      FilterCons(f, s[0], s[1..]);
      assert s == [s[0]] + s[1..];
    }
  }

  /** The sort is stable: the elements with any one key keep their input order. */
  lemma {:induction false} SortByStable<T(!new)>(key: T -> int, asc: bool, s: seq<T>, k: int)
    ensures Filter(KeyIs(key, k), SortBy(key, asc, s)) == Filter(KeyIs(key, k), s)
  {
    if |s| > 0 {
      SortByStable(key, asc, s[1..], k);
      InsertKeepsTies(key, asc, s[0], SortBy(key, asc, s[1..]), k);
      FilterCons(KeyIs(key, k), s[0], s[1..]);
      assert s == [s[0]] + s[1..];
    }
  }
}
