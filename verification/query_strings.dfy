/** `toQueryString`: an object's non-empty entries written as URL search
    parameters in sorted key order. */
module QueryStrings {
  import opened SeqUtil
  import opened Strings
  import opened SearchParams
  /** The keys of a query object, in entry order. */
  function Keys(query: Params): (r: seq<string>)
    ensures |r| == |query|
    ensures forall i :: 0 <= i < |r| ==> r[i] == query[i].0
  {
    if |query| == 0 then [] else [query[0].0] + Keys(query[1..])
  }

  /** An object's keys are distinct. */
  ghost predicate DistinctKeys(query: Params) {
    forall i, j :: 0 <= i < j < |query| ==> query[i].0 != query[j].0
  }

  /** `query[k]`: the value of key `k` (`""` for a key that is not present). */
  function Lookup(query: Params, k: string): string {
    if |query| == 0 then ""
    else if query[0].0 == k then query[0].1
    else Lookup(query[1..], k)
  }

  /** In an object, a key's value is the one paired with it. */
  lemma {:induction false} LookupPair(query: Params, k: string, v: string)
    requires DistinctKeys(query)
    requires (k, v) in query
    ensures Lookup(query, k) == v
  {
    if query[0] != (k, v) {
      assert query[0].0 != k by {
        var i :| 0 <= i < |query| && query[i] == (k, v);
        assert i > 0;
      }
      assert (k, v) in query[1..];
      LookupPair(query[1..], k, v);
    }
  }

  /** The pairs the loop sets for `keys`: each key with its value, in key
      order, skipping empty values. */
  function NonEmptyPairs(keys: seq<string>, query: Params): (r: Params)
    ensures forall i :: 0 <= i < |r| ==> r[i].0 in keys && r[i].1 == Lookup(query, r[i].0) && r[i].1 != ""
  {
    if |keys| == 0 then []
    else
      var rest := NonEmptyPairs(keys[1..], query);
      var v := Lookup(query, keys[0]);
      if v == "" then rest else [(keys[0], v)] + rest
  }

  /** The pairs' keys appear in `keys` in the same order. */
  lemma {:induction false} NonEmptyPairsOrder(keys: seq<string>, query: Params)
    ensures IsSubsequence(Keys(NonEmptyPairs(keys, query)), keys)
  {
    if |keys| > 0 {
      NonEmptyPairsOrder(keys[1..], query);
      var rest := NonEmptyPairs(keys[1..], query);
      if Lookup(query, keys[0]) != "" {
        var r := [(keys[0], Lookup(query, keys[0]))] + rest;
        assert Keys(r)[1..] == Keys(rest);
      }
    }
  }

  /** The loop of `toQueryString`: for each key, skip an empty value, else
      `set` it on the parameters. */
  function SetEach(params: Params, keys: seq<string>, query: Params): Params
    decreases |keys|
  {
    if |keys| == 0 then params
    else
      var v := Lookup(query, keys[0]);
      SetEach(if v == "" then params else Set(params, keys[0], v), keys[1..], query)
  }

  /** Setting a name that is absent appends the pair. */
  lemma SetAbsent(ps: Params, k: string, v: string)
    requires !Has(ps, k)
    ensures Set(ps, k, v) == ps + [(k, v)]
  {
  }

  /** A name is present after appending a pair exactly when it was before or is the pair's. */
  lemma HasSnoc(ps: Params, k: string, v: string, k2: string)
    ensures Has(ps + [(k, v)], k2) <==> Has(ps, k2) || k2 == k
  {
    if Has(ps, k2) {
      var i :| 0 <= i < |ps| && ps[i].0 == k2;
      assert (ps + [(k, v)])[i].0 == k2;
    }
    if k2 == k {
      assert (ps + [(k, v)])[|ps|].0 == k2;
    }
  }

  /** None of `keys` is set in `params`. */
  ghost predicate NoneSet(params: Params, keys: seq<string>) {
    forall k :: k in keys ==> !Has(params, k)
  }

  /** The later keys of a distinct sequence are distinct and differ from the first. */
  lemma DistinctTail(keys: seq<string>)
    requires |keys| > 0 && Distinct(keys)
    ensures Distinct(keys[1..]) && keys[0] !in keys[1..]
  {
    assert forall i :: 0 <= i < |keys[1..]| ==> keys[1..][i] == keys[i + 1];
  }

  /** The later keys are still unset after the first key's pair is appended. */
  lemma RestUnset(params: Params, keys: seq<string>, v: string)
    requires |keys| > 0 && Distinct(keys)
    requires NoneSet(params, keys)
    ensures NoneSet(params + [(keys[0], v)], keys[1..])
  {
    DistinctTail(keys);
    forall k | k in keys[1..] ensures !Has(params + [(keys[0], v)], k) {
      assert k in keys;
      HasSnoc(params, keys[0], v, k);
    }
  }

  /** Dropping the first key keeps the others unset. */
  lemma NoneSetTail(params: Params, keys: seq<string>)
    requires |keys| > 0 && NoneSet(params, keys)
    ensures NoneSet(params, keys[1..]) && !Has(params, keys[0])
  {
    assert keys[0] in keys;
    forall k | k in keys[1..] ensures !Has(params, k) {
      assert k in keys;
    }
  }

  /** With distinct keys none of which is set yet, every `set` appends. */
  lemma {:induction false} SetEachAppends(params: Params, keys: seq<string>, query: Params)
    requires Distinct(keys)
    requires NoneSet(params, keys)
    ensures SetEach(params, keys, query) == params + NonEmptyPairs(keys, query)
    decreases |keys|
  {
    if |keys| > 0 {
      DistinctTail(keys);
      NoneSetTail(params, keys);
      if Lookup(query, keys[0]) == "" {
        SetEachAppends(params, keys[1..], query);
      } else {
        SetEachAppendsStep(params, keys, query);
      }
    } else {
      assert params + [] == params;
    }
  }

  /** The step of `SetEachAppends` for a first key with a non-empty value. */
  lemma {:induction false} SetEachAppendsStep(params: Params, keys: seq<string>, query: Params)
    requires |keys| > 0 && Distinct(keys)
    requires NoneSet(params, keys)
    requires Lookup(query, keys[0]) != ""
    ensures SetEach(params, keys, query) == params + NonEmptyPairs(keys, query)
    decreases |keys|, 0
  {
    var k0, v := keys[0], Lookup(query, keys[0]);
    var pair := [(k0, v)];
    SetAbsent(params, k0, v);
    assert SetEach(params, keys, query) == SetEach(params + pair, keys[1..], query);
    assert NonEmptyPairs(keys, query) == pair + NonEmptyPairs(keys[1..], query);
    RestUnset(params, keys, v);
    DistinctTail(keys);
    SetEachAppends(params + pair, keys[1..], query);
    AppendAssoc(params, pair, NonEmptyPairs(keys[1..], query));
  }

  lemma AppendAssoc<T>(a: seq<T>, b: seq<T>, c: seq<T>)
    ensures a + b + c == a + (b + c)
  {
  }

  /** `toQueryString`: the non-empty entries in sorted key order, serialised. */
  function ToQueryString(query: Params, enc: string -> string): (qs: string)
    requires DistinctKeys(query)
    ensures qs == Serialize(NonEmptyPairs(SortStrings(Keys(query)), query), enc)
  {
    var keys := SortStrings(Keys(query));
    StrictlySortedDistinct(keys);
    assert NoneSet([], keys);
    SetEachAppends([], keys, query);
    assert [] + NonEmptyPairs(keys, query) == NonEmptyPairs(keys, query);
    Serialize(SetEach([], keys, query), enc)
  }

  /** The pairs written are sorted by key, and hold exactly the query's
      non-empty entries. */
  lemma QueryStringPairs(query: Params)
    requires DistinctKeys(query)
    ensures var pairs := NonEmptyPairs(SortStrings(Keys(query)), query);
            && StrictlySorted(Keys(pairs))
            && forall k, v :: (k, v) in pairs <==> (k, v) in query && v != ""
  {
    var keys := SortStrings(Keys(query));
    var pairs := NonEmptyPairs(keys, query);
    NonEmptyPairsOrder(keys, query);
    SortedSubsequence(Keys(pairs), keys);
    forall k, v ensures (k, v) in pairs <==> (k, v) in query && v != "" {
      if (k, v) in pairs {
        var i :| 0 <= i < |pairs| && pairs[i] == (k, v);
        assert k in Keys(query);
        var j :| 0 <= j < |query| && query[j].0 == k;
        LookupPair(query, k, query[j].1);
        assert query[j] == (k, v);
      }
      if (k, v) in query && v != "" {
        LookupPair(query, k, v);
        var j :| 0 <= j < |query| && query[j] == (k, v);
        assert Keys(query)[j] == k;
        NonEmptyPairsComplete(keys, query, k);
      }
    }
  }

  /** A key with a non-empty value is among the pairs written for it. */
  lemma {:induction false} NonEmptyPairsComplete(keys: seq<string>, query: Params, k: string)
    requires k in keys && Lookup(query, k) != ""
    ensures (k, Lookup(query, k)) in NonEmptyPairs(keys, query)
  {
    if keys[0] != k {
      NonEmptyPairsComplete(keys[1..], query, k);
    }
  }

  lemma StrictlySortedDistinct(s: seq<string>)
    requires StrictlySorted(s)
    ensures Distinct(s)
  {
    forall i, j | 0 <= i < j < |s| ensures s[i] != s[j] {
      LessIrreflexive(s[i]);
    }
  }

  /** A subsequence of a strictly sorted sequence is strictly sorted. */
  lemma {:induction false} SortedSubsequence(a: seq<string>, b: seq<string>)
    requires IsSubsequence(a, b) && StrictlySorted(b)
    ensures StrictlySorted(a)
    decreases |b|
  {
    if |a| > 0 {
      assert StrictlySorted(b[1..]);
      if a[0] == b[0] && IsSubsequence(a[1..], b[1..]) {
        SortedSubsequence(a[1..], b[1..]);
        SubsequenceIn(a[1..], b[1..]);
        forall j | 0 < j < |a| ensures Less(a[0], a[j]) {
          assert a[j] in a[1..];
        }
      } else {
        SortedSubsequence(a, b[1..]);
      }
    }
  }

  /** The query string does not depend on the order in which the entries were
      written: two objects with the same entries give the same string. */
  lemma QueryStringOrderIndependent(q1: Params, q2: Params, enc: string -> string)
    requires DistinctKeys(q1) && DistinctKeys(q2)
    requires forall e :: e in q1 <==> e in q2
    ensures ToQueryString(q1, enc) == ToQueryString(q2, enc)
  {
    var k1 := SortStrings(Keys(q1));
    var k2 := SortStrings(Keys(q2));
    forall k ensures k in Keys(q1) <==> k in Keys(q2) {
      if k in Keys(q1) {
        var i :| 0 <= i < |q1| && q1[i].0 == k;
        assert q1[i] in q2;
      }
      if k in Keys(q2) {
        var i :| 0 <= i < |q2| && q2[i].0 == k;
        assert q2[i] in q1;
      }
    }
    StrictlySortedUnique(k1, k2);
    SameLookups(q1, q2, k1);
  }

  /** Objects with the same entries write the same pairs. */
  lemma {:induction false} SameLookups(q1: Params, q2: Params, keys: seq<string>)
    requires DistinctKeys(q1) && DistinctKeys(q2)
    requires forall e :: e in q1 <==> e in q2
    ensures NonEmptyPairs(keys, q1) == NonEmptyPairs(keys, q2)
  {
    if |keys| > 0 {
      SameLookups(q1, q2, keys[1..]);
      LookupAgrees(q1, q2, keys[0]);
    }
  }

  lemma LookupAgrees(q1: Params, q2: Params, k: string)
    requires DistinctKeys(q1) && DistinctKeys(q2)
    requires forall e :: e in q1 <==> e in q2
    ensures Lookup(q1, k) == Lookup(q2, k)
  {
    if exists i :: 0 <= i < |q1| && q1[i].0 == k {
      var i :| 0 <= i < |q1| && q1[i].0 == k;
      LookupPair(q1, k, q1[i].1);
      LookupPair(q2, k, q1[i].1);
    } else {
      LookupAbsent(q1, k);
      assert forall i :: 0 <= i < |q2| ==> q2[i].0 != k by {
        forall i | 0 <= i < |q2| ensures q2[i].0 != k {
          assert q2[i] in q1;
        }
      }
      LookupAbsent(q2, k);
    }
  }

  lemma {:induction false} LookupAbsent(query: Params, k: string)
    requires forall i :: 0 <= i < |query| ==> query[i].0 != k
    ensures Lookup(query, k) == ""
  {
    if |query| > 0 {
      LookupAbsent(query[1..], k);
    }
  }

}
