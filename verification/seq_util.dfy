/** Sequence helpers shared by every filter, deduplication and batching step. */
module SeqUtil {

  /** `a` is obtained from `b` by deleting elements (order kept). */
  ghost predicate IsSubsequence<T>(a: seq<T>, b: seq<T>)
    decreases |b|
  {
    && |a| <= |b|
    && (|a| == 0
        || (a[0] == b[0] && IsSubsequence(a[1..], b[1..]))
        || IsSubsequence(a, b[1..]))
  }

  /** Every element of a subsequence is an element of the whole. */
  lemma {:induction false} SubsequenceIn<T>(a: seq<T>, b: seq<T>)
    requires IsSubsequence(a, b)
    ensures forall x :: x in a ==> x in b
    decreases |b|
  {
    if |a| > 0 {
      if a[0] == b[0] && IsSubsequence(a[1..], b[1..]) {
        SubsequenceIn(a[1..], b[1..]);
        assert forall x :: x in a ==> x == a[0] || x in a[1..];
      } else {
        SubsequenceIn(a, b[1..]);
      }
      assert forall x :: x in b[1..] ==> x in b;
    }
  }

  /** A subsequence is a sub-multiset. */
  lemma {:induction false} SubsequenceMultiset<T>(a: seq<T>, b: seq<T>)
    requires IsSubsequence(a, b)
    ensures multiset(a) <= multiset(b)
    decreases |b|
  {
    if |a| > 0 {
      assert b == [b[0]] + b[1..];
      if a[0] == b[0] && IsSubsequence(a[1..], b[1..]) {
        SubsequenceMultiset(a[1..], b[1..]);
        assert a == [a[0]] + a[1..];
      } else {
        SubsequenceMultiset(a, b[1..]);
      }
    }
  }

  /** No element occurs twice. */
  ghost predicate Distinct<T>(s: seq<T>) {
    forall i, j :: 0 <= i < j < |s| ==> s[i] != s[j]
  }

  /** The elements of `s` that satisfy `f`, in their original order (`Array.prototype.filter`). */
  function Filter<T(!new)>(f: T -> bool, s: seq<T>): (r: seq<T>)
    ensures |r| <= |s|
    ensures forall x :: x in r <==> x in s && f(x)
    ensures forall i :: 0 <= i < |r| ==> f(r[i])
  {
    if |s| == 0 then []
    else
      var rest := Filter(f, s[1..]);
      assert s == [s[0]] + s[1..];
      if f(s[0]) then [s[0]] + rest else rest
  }

  /** A filter deletes elements and keeps the order of the rest. */
  lemma {:induction false} FilterSubsequence<T(!new)>(f: T -> bool, s: seq<T>)
    ensures multiset(Filter(f, s)) <= multiset(s)
    ensures IsSubsequence(Filter(f, s), s)
  {
    if |s| > 0 {
      FilterSubsequence(f, s[1..]);
      var rest := Filter(f, s[1..]);
      assert s == [s[0]] + s[1..];
      if f(s[0]) {
        assert ([s[0]] + rest)[1..] == rest;
      }
    }
  }

  /** Number of elements of `s` that satisfy `f` (`filter(f).length`). */
  function Count<T(!new)>(f: T -> bool, s: seq<T>): (n: nat)
    ensures n <= |s|
    ensures n == |Filter(f, s)|
    ensures n > 0 <==> exists x :: x in s && f(x)
  {
    if |s| == 0 then 0
    else
      assert s[0] in s;
      (if f(s[0]) then 1 else 0) + Count(f, s[1..])
  }

  /** Filtering with a predicate every element already satisfies is the identity. */
  lemma {:induction false} FilterAllPass<T(!new)>(f: T -> bool, s: seq<T>)
    requires forall x :: x in s ==> f(x)
    ensures Filter(f, s) == s
  {
    if |s| > 0 {
      assert s[0] in s;
      FilterAllPass(f, s[1..]);
      assert s == [s[0]] + s[1..];
    }
  }

  /** Filtering with a predicate no element satisfies leaves nothing. */
  lemma {:induction false} FilterNonePass<T(!new)>(f: T -> bool, s: seq<T>)
    requires forall x :: x in s ==> !f(x)
    ensures Filter(f, s) == []
  {
    if |s| > 0 {
      assert s[0] in s;
      assert forall x :: x in s[1..] ==> x in s;
      FilterNonePass(f, s[1..]);
    }
  }

  /** Filtering distributes over concatenation. */
  lemma {:induction false} FilterAppend<T(!new)>(f: T -> bool, a: seq<T>, b: seq<T>)
    ensures Filter(f, a + b) == Filter(f, a) + Filter(f, b)
  {
    if |a| > 0 {
      assert (a + b)[0] == a[0];
      assert (a + b)[1..] == a[1..] + b;
      FilterAppend(f, a[1..], b);
      if f(a[0]) {
        assert Filter(f, a + b) == [a[0]] + Filter(f, a[1..] + b);
        assert Filter(f, a) == [a[0]] + Filter(f, a[1..]);
      } else {
        assert Filter(f, a + b) == Filter(f, a[1..] + b);
      }
    } else {
      assert a + b == b;
    }
  }

  /** Filtering four pieces one after another filters each piece. */
  lemma FilterAppend4<T(!new)>(f: T -> bool, a: seq<T>, b: seq<T>, c: seq<T>, d: seq<T>)
    ensures Filter(f, a + b + c + d) == Filter(f, a) + Filter(f, b) + Filter(f, c) + Filter(f, d)
  {
    FilterAppend(f, a + b + c, d);
    FilterAppend(f, a + b, c);
    FilterAppend(f, a, b);
  }

  /** Predicates that agree on the elements of `s` filter it alike. */
  lemma {:induction false} FilterEquivalent<T(!new)>(f: T -> bool, g: T -> bool, s: seq<T>)
    requires forall x :: x in s ==> f(x) == g(x)
    ensures Filter(f, s) == Filter(g, s)
  {
    if |s| > 0 {
      assert s[0] in s;
      assert forall x :: x in s[1..] ==> x in s;
      FilterEquivalent(f, g, s[1..]);
    }
  }

  /** Filtering twice with the same predicate is filtering once. */
  lemma FilterIdempotent<T(!new)>(f: T -> bool, s: seq<T>)
    ensures Filter(f, Filter(f, s)) == Filter(f, s)
  {
    FilterAllPass(f, Filter(f, s));
  }

  /** Filtering keeps a distinct sequence distinct. */
  lemma {:induction false} FilterDistinct<T(!new)>(f: T -> bool, s: seq<T>)
    requires Distinct(s)
    ensures Distinct(Filter(f, s))
  {
    if |s| > 0 {
      FilterDistinct(f, s[1..]);
      var rest := Filter(f, s[1..]);
      if f(s[0]) {
        var r := [s[0]] + rest;
        forall i, j | 0 <= i < j < |r| ensures r[i] != r[j] {
          if i == 0 {
            assert r[j] in rest;
            assert r[j] in s[1..];
            var k :| 0 <= k < |s[1..]| && s[1..][k] == r[j];
            assert s[k + 1] == r[j];
          } else {
            assert r[i] == rest[i - 1] && r[j] == rest[j - 1];
          }
        }
      }
    }
  }

  /** First occurrences of the elements of `s`, in first-occurrence order
      (`Array.from(new Set(s))`). */
  function Dedup<T(==,!new)>(s: seq<T>): (r: seq<T>)
    ensures forall x :: x in r <==> x in s
    ensures Distinct(r)
    ensures |r| <= |s|
  {
    if |s| == 0 then []
    else
      var d := Dedup(s[..|s| - 1]);
      var x := s[|s| - 1];
      assert s == s[..|s| - 1] + [x];
      if x in d then d else d + [x]
  }

  /** Indexing past the first part of a concatenation indexes the second part. */
  lemma AppendIndex<T>(a: seq<T>, b: seq<T>)
    ensures forall i :: 0 <= i < |b| ==> (a + b)[|a| + i] == b[i]
    ensures forall i :: 0 <= i < |a| ==> (a + b)[i] == a[i]
  {
  }

  /** Of four pieces, when all but one are empty the concatenation is that one. */
  lemma OnlyOneNonEmpty<T>(a: seq<T>, b: seq<T>, c: seq<T>, d: seq<T>)
    ensures a + [] + [] + [] == a
    ensures [] + b + [] + [] == b
    ensures [] + [] + c + [] == c
    ensures [] + [] + [] + d == d
  {
  }

  /** Every earlier element is related by `lt` to every later one. */
  ghost predicate Ordered<T>(lt: (T, T) -> bool, s: seq<T>) {
    forall i, j :: 0 <= i < j < |s| ==> lt(s[i], s[j])
  }

  /** Putting in front an element related to every later one keeps the order. */
  lemma ConsOrdered<T>(lt: (T, T) -> bool, x: T, s: seq<T>)
    requires Ordered(lt, s)
    requires forall y :: y in s ==> lt(x, y)
    ensures Ordered(lt, [x] + s)
  {
    var r := [x] + s;
    forall i, j | 0 <= i < j < |r| ensures lt(r[i], r[j]) {
      assert r[j] == s[j - 1];
      if i > 0 {
        assert r[i] == s[i - 1];
      }
    }
  }

  /** Filtering keeps every ordering relation that held between earlier and later elements. */
  lemma {:induction false} FilterKeepsOrder<T(!new)>(f: T -> bool, lt: (T, T) -> bool, s: seq<T>)
    requires Ordered(lt, s)
    ensures Ordered(lt, Filter(f, s))
  {
    if |s| > 0 {
      var t := s[1..];
      assert Ordered(lt, t) by {
        forall i, j | 0 <= i < j < |t| ensures lt(t[i], t[j]) {
          assert t[i] == s[i + 1] && t[j] == s[j + 1];
        }
      }
      FilterKeepsOrder(f, lt, t);
      var rest := Filter(f, t);
      if f(s[0]) {
        forall y | y in rest ensures lt(s[0], y) {
          var k :| 0 <= k < |t| && t[k] == y;
          assert s[k + 1] == y;
        }
        ConsOrdered(lt, s[0], rest);
        assert Filter(f, s) == [s[0]] + rest;
      } else {
        assert Filter(f, s) == rest;
      }
    }
  }

  /** Position of the first occurrence of `x` in `s`. */
  function FirstIndex<T(==)>(s: seq<T>, x: T): (k: nat)
    requires x in s
    ensures k < |s| && s[k] == x
    ensures forall j :: 0 <= j < k ==> s[j] != x
  {
    if s[0] == x then 0 else 1 + FirstIndex(s[1..], x)
  }

  /** Appending leaves the first occurrence of an element already present where it was. */
  lemma FirstIndexSnoc<T>(s: seq<T>, y: T, x: T)
    requires x in s
    ensures FirstIndex(s + [y], x) == FirstIndex(s, x)
  {
    var k := FirstIndex(s, x);
    var t := s + [y];
    assert t[k] == x;
    var k2 := FirstIndex(t, x);
    assert k2 <= k;
    assert s[k2] == x;
  }

  /** Deduplication lists elements in the order of their first occurrences. */
  lemma {:induction false} DedupFirstOccurrenceOrder<T(!new)>(s: seq<T>)
    ensures forall i, j :: 0 <= i < j < |Dedup(s)| ==> FirstIndex(s, Dedup(s)[i]) < FirstIndex(s, Dedup(s)[j])
  {
    if |s| > 0 {
      var init := s[..|s| - 1];
      var x := s[|s| - 1];
      var d := Dedup(init);
      DedupFirstOccurrenceOrder(init);
      assert s == init + [x];
      forall y | y in d ensures FirstIndex(s, y) == FirstIndex(init, y) {
        FirstIndexSnoc(init, x, y);
      }
      if x !in d {
        assert x !in init;
        assert FirstIndex(s, x) == |s| - 1;
        var r := d + [x];
        forall i, j | 0 <= i < j < |r| ensures FirstIndex(s, r[i]) < FirstIndex(s, r[j]) {
          assert r[i] in d;
          assert FirstIndex(s, r[i]) == FirstIndex(init, r[i]) < |init|;
          if j == |r| - 1 {
            assert r[j] == x;
          } else {
            assert r[j] in d;
          }
        }
      }
    }
  }

  /** A distinct sequence has as many elements as its set. */
  lemma {:induction false} DistinctCardinality<T>(s: seq<T>)
    requires Distinct(s)
    ensures |set x | x in s| == |s|
  {
    if |s| > 0 {
      var t := s[1..];
      DistinctCardinality(t);
      assert forall i :: 0 <= i < |t| ==> t[i] == s[i + 1];
      assert s[0] !in t;
      assert (set x | x in s) == (set x | x in t) + {s[0]};
    }
  }

  /** Deduplication keeps exactly one entry per distinct element. */
  lemma DedupCardinality<T(!new)>(s: seq<T>)
    ensures |Dedup(s)| == |set x | x in s|
  {
    var d := Dedup(s);
    DistinctCardinality(d);
    assert (set x | x in d) == (set x | x in s);
  }

  /** Number of batches of at most `size` elements needed for `len` elements. */
  function NumBatches(len: nat, size: nat): nat
    requires size > 0
    decreases len
  {
    if len == 0 then 0 else if len <= size then 1 else 1 + NumBatches(len - size, size)
  }

  /** Positions of `s` whose element satisfies `f`. */
  ghost function IndicesWhere<T>(f: T -> bool, s: seq<T>): set<int> {
    set i | 0 <= i < |s| && f(s[i])
  }

  /** Positions from `k` on whose element satisfies `f`. */
  ghost function IndicesFrom<T>(f: T -> bool, s: seq<T>, k: nat): set<int> {
    set i | k <= i < |s| && f(s[i])
  }

  /** Counting the suffix from `k` counts the positions from `k` on. */
  lemma {:induction false} CountSuffix<T(!new)>(f: T -> bool, s: seq<T>, k: nat)
    requires k <= |s|
    ensures Count(f, s[k..]) == |IndicesFrom(f, s, k)|
    decreases |s| - k
  {
    if k < |s| {
      CountSuffix(f, s, k + 1);
      assert s[k..][1..] == s[k + 1..];
      var head: set<int> := if f(s[k]) then {k} else {};
      assert IndicesFrom(f, s, k) == head + IndicesFrom(f, s, k + 1);
      assert k !in IndicesFrom(f, s, k + 1);
    } else {
      assert IndicesFrom(f, s, k) == {};
    }
  }

  /** The count equals the number of positions whose element satisfies `f`. */
  lemma CountIsIndexCount<T(!new)>(f: T -> bool, s: seq<T>)
    ensures Count(f, s) == |IndicesWhere(f, s)|
  {
    CountSuffix(f, s, 0);
    assert s[0..] == s;
    assert IndicesFrom(f, s, 0) == IndicesWhere(f, s);
  }

  /** At least two satisfying positions give two ordered ones. */
  lemma TwoIndices<T>(f: T -> bool, s: seq<T>)
    requires |IndicesWhere(f, s)| >= 2
    ensures exists i, j :: 0 <= i < j < |s| && f(s[i]) && f(s[j])
  {
    var idx := IndicesWhere(f, s);
    var i :| i in idx;
    assert |idx - {i}| >= 1;
    var j :| j in idx - {i};
    if i < j {
      assert 0 <= i < j < |s| && f(s[i]) && f(s[j]);
    } else {
      assert 0 <= j < i < |s| && f(s[j]) && f(s[i]);
    }
  }

  /** Two predicates that never hold together count at most the whole sequence. */
  lemma {:induction false} CountDisjoint<T(!new)>(f: T -> bool, g: T -> bool, s: seq<T>)
    requires forall x :: x in s ==> !(f(x) && g(x))
    ensures Count(f, s) + Count(g, s) <= |s|
  {
    if |s| > 0 {
      assert s[0] in s;
      assert forall x :: x in s[1..] ==> x in s;
      CountDisjoint(f, g, s[1..]);
    }
  }

  /** A predicate implied by another counts at least as many elements. */
  lemma {:induction false} CountMonotone<T(!new)>(f: T -> bool, g: T -> bool, s: seq<T>)
    requires forall x :: x in s ==> f(x) ==> g(x)
    ensures Count(f, s) <= Count(g, s)
  {
    if |s| > 0 {
      assert s[0] in s;
      assert forall x :: x in s[1..] ==> x in s;
      CountMonotone(f, g, s[1..]);
    }
  }

  /** When `f` splits into the disjoint cases `g` and `h`, their counts add up to its count. */
  lemma {:induction false} CountPartition<T(!new)>(f: T -> bool, g: T -> bool, h: T -> bool, s: seq<T>)
    requires forall x :: x in s ==> (f(x) <==> g(x) || h(x)) && !(g(x) && h(x))
    ensures Count(g, s) + Count(h, s) == Count(f, s)
  {
    if |s| > 0 {
      assert s[0] in s;
      assert forall x :: x in s[1..] ==> x in s;
      CountPartition(f, g, h, s[1..]);
    }
  }
}
