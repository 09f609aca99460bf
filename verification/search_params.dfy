/** A model of the `URLSearchParams` operations the core uses: an ordered list
    of name/value pairs with `getAll`, `delete`, `set` and serialisation. The
    percent-encoding of names and values is an uninterpreted `enc`. */
module SearchParams {
  import opened Wrappers
  import opened Strings
  import opened SeqUtil

  type Params = seq<(string, string)>

  /** `getAll(k)`: the values of name `k`, in order. */
  function Values(ps: Params, k: string): seq<string> {
    if |ps| == 0 then []
    else (if ps[0].0 == k then [ps[0].1] else []) + Values(ps[1..], k)
  }

  /** `get(k)`: the first value of name `k`, `None` (`null`) when there is none. */
  function Get(ps: Params, k: string): (r: Option<string>)
    ensures r.None? <==> Values(ps, k) == []
    ensures r.Some? ==> r.value == Values(ps, k)[0]
  {
    if |ps| == 0 then None
    else if ps[0].0 == k then Some(ps[0].1)
    else Get(ps[1..], k)
  }

  /** `has(k)`. */
  predicate Has(ps: Params, k: string) {
    exists i | 0 <= i < |ps| :: ps[i].0 == k
  }

  lemma {:induction false} ValuesAppend(a: Params, b: Params, k: string)
    ensures Values(a + b, k) == Values(a, k) + Values(b, k)
  {
    if |a| == 0 {
      assert a + b == b;
    } else {
      assert (a + b)[1..] == a[1..] + b;
      ValuesAppend(a[1..], b, k);
    }
  }

  lemma {:induction false} ValuesEmptyIffAbsent(ps: Params, k: string)
    ensures Values(ps, k) == [] <==> !Has(ps, k)
  {
    if |ps| > 0 {
      ValuesEmptyIffAbsent(ps[1..], k);
      if Has(ps[1..], k) {
        var i :| 0 <= i < |ps[1..]| && ps[1..][i].0 == k;
        assert ps[i + 1].0 == k;
      }
      if Has(ps, k) && ps[0].0 != k {
        var i :| 0 <= i < |ps| && ps[i].0 == k;
        assert ps[1..][i - 1].0 == k;
      }
    }
  }

  /** The pairs not named `k`. */
  function NameIsNot(k: string): ((string, string)) -> bool {
    (p: (string, string)) => p.0 != k
  }

  /** `delete(k)`: every pair named `k` removed, the rest kept in order. */
  function Delete(ps: Params, k: string): (r: Params)
    ensures |r| <= |ps|
    ensures Values(r, k) == []
    ensures forall k2 :: k2 != k ==> Values(r, k2) == Values(ps, k2)
  {
    if |ps| == 0 then []
    else if ps[0].0 == k then Delete(ps[1..], k)
    else
      var rest := Delete(ps[1..], k);
      assert ([ps[0]] + rest)[1..] == rest;
      [ps[0]] + rest
  }

  /** The position of the first pair named `k`. */
  function FirstNamed(ps: Params, k: string): (i: nat)
    requires Has(ps, k)
    ensures i < |ps| && ps[i].0 == k
    ensures forall j :: 0 <= j < i ==> ps[j].0 != k
  {
    if ps[0].0 == k then 0
    else
      assert Has(ps[1..], k) by {
        var i :| 0 <= i < |ps| && ps[i].0 == k;
        assert ps[1..][i - 1].0 == k;
      }
      1 + FirstNamed(ps[1..], k)
  }

  /** The first pair named `k` gets value `v`, later ones are removed, and every
      other pair is kept. */
  function ReplaceFirst(ps: Params, k: string, v: string): (r: Params)
    requires Has(ps, k)
    ensures Values(r, k) == [v]
    ensures forall k2 :: k2 != k ==> Values(r, k2) == Values(ps, k2)
  {
    if ps[0].0 == k then
      var rest := Delete(ps[1..], k);
      assert ([(k, v)] + rest)[1..] == rest;
      [(k, v)] + rest
    else
      assert Has(ps[1..], k) by {
        var i :| 0 <= i < |ps| && ps[i].0 == k;
        assert ps[1..][i - 1].0 == k;
      }
      var rest := ReplaceFirst(ps[1..], k, v);
      assert ([ps[0]] + rest)[1..] == rest;
      [ps[0]] + rest
  }

  /** The replacement stands where the first pair named `k` stood: the pairs
      before it are untouched and after it only the other names remain. */
  lemma {:induction false} ReplaceFirstSplits(ps: Params, k: string, v: string)
    requires Has(ps, k)
    ensures var i := FirstNamed(ps, k);
            ReplaceFirst(ps, k, v) == ps[..i] + [(k, v)] + Delete(ps[i + 1..], k)
  {
    var i := FirstNamed(ps, k);
    if ps[0].0 == k {
      assert i == 0 && ps[..i] == [] && ps[i + 1..] == ps[1..];
    } else {
      var tail := ps[1..];
      assert Has(tail, k) by {
        var j :| 0 <= j < |ps| && ps[j].0 == k;
        assert tail[j - 1].0 == k;
      }
      assert i == FirstNamed(tail, k) + 1;
      ReplaceFirstSplits(tail, k, v);
      ConsPlace(ps, (k, v), ReplaceFirst(tail, k, v), i, Delete(ps[i + 1..], k));
    }
  }

  /** Putting the head back in front of a split tail splits the whole sequence
      one position further on. */
  lemma ConsPlace<T>(s: seq<T>, x: T, rest: seq<T>, i: nat, d: seq<T>)
    requires 1 <= i < |s|
    requires rest == s[1..][..i - 1] + [x] + d
    ensures [s[0]] + rest == s[..i] + [x] + d
  {
    assert s[..i] == [s[0]] + s[1..][..i - 1];
  }

  /** The same placement, read position by position. */
  lemma ReplaceFirstInPlace(ps: Params, k: string, v: string)
    requires Has(ps, k)
    ensures var r := ReplaceFirst(ps, k, v);
            var i := FirstNamed(ps, k);
            && |r| > i && r[..i] == ps[..i] && r[i] == (k, v) && r[i + 1..] == Delete(ps[i + 1..], k)
  {
    ReplaceFirstSplits(ps, k, v);
    var i := FirstNamed(ps, k);
    var r := ReplaceFirst(ps, k, v);
    assert r[..i] == ps[..i];
    assert r[i + 1..] == Delete(ps[i + 1..], k);
  }

  /** `set(k, v)`: the pair lands where the first pair named `k` stood, or at the
      end when there is none; later pairs named `k` go, and every other pair
      stays in order. Afterwards `k` has the single value `v` and every other
      name keeps its values. */
  function Set(ps: Params, k: string, v: string): (r: Params)
    ensures !Has(ps, k) ==> r == ps + [(k, v)]
    ensures Has(ps, k) ==>
              var i := FirstNamed(ps, k);
              && |r| > i && r[..i] == ps[..i] && r[i] == (k, v) && r[i + 1..] == Delete(ps[i + 1..], k)
    ensures Delete(r, k) == Delete(ps, k)
    ensures Values(r, k) == [v]
    ensures forall k2 :: k2 != k ==> Values(r, k2) == Values(ps, k2)
  {
    if Has(ps, k) then
      ReplaceKeepsOthers(ps, k, v);
      ReplaceFirstInPlace(ps, k, v);
      ReplaceFirst(ps, k, v)
    else
      AppendAbsent(ps, k, v);
      DeleteAppend(ps, [(k, v)], k);
      assert [(k, v)][1..] == [];
      ps + [(k, v)]
  }

  /** Replacing the first pair named `k` leaves the pairs of other names as they were. */
  lemma {:induction false} ReplaceKeepsOthers(ps: Params, k: string, v: string)
    requires Has(ps, k)
    ensures Delete(ReplaceFirst(ps, k, v), k) == Delete(ps, k)
  {
    if ps[0].0 == k {
      var rest := Delete(ps[1..], k);
      assert ([(k, v)] + rest)[1..] == rest;
      DeleteIdempotent(ps[1..], k);
    } else {
      assert Has(ps[1..], k) by {
        var i :| 0 <= i < |ps| && ps[i].0 == k;
        assert ps[1..][i - 1].0 == k;
      }
      ReplaceKeepsOthers(ps[1..], k, v);
      var rest := ReplaceFirst(ps[1..], k, v);
      assert ([ps[0]] + rest)[1..] == rest;
    }
  }

  /** Deleting distributes over concatenation. */
  lemma {:induction false} DeleteAppend(a: Params, b: Params, k: string)
    ensures Delete(a + b, k) == Delete(a, k) + Delete(b, k)
  {
    if |a| == 0 {
      assert a + b == b;
    } else {
      assert (a + b)[0] == a[0];
      assert (a + b)[1..] == a[1..] + b;
      DeleteAppend(a[1..], b, k);
    }
  }

  /** `delete(k)` is the filter keeping the pairs of other names: a
      subsequence, so the remaining pairs keep their order. */
  lemma {:induction false} DeleteIsFilter(ps: Params, k: string)
    ensures Delete(ps, k) == Filter(NameIsNot(k), ps)
    ensures IsSubsequence(Delete(ps, k), ps)
  {
    if |ps| > 0 {
      DeleteIsFilter(ps[1..], k);
    }
    FilterSubsequence(NameIsNot(k), ps);
  }

  /** Deleting twice is deleting once. */
  lemma DeleteIdempotent(ps: Params, k: string)
    ensures Delete(Delete(ps, k), k) == Delete(ps, k)
  {
    DeleteIsFilter(ps, k);
    DeleteIsFilter(Delete(ps, k), k);
    FilterIdempotent(NameIsNot(k), ps);
  }

  /** Reading a name right after setting it gives the value set. */
  lemma GetAfterSet(ps: Params, k: string, v: string)
    ensures Get(Set(ps, k, v), k) == Some(v)
  {
  }

  /** Setting one name leaves `get` of every other name unchanged. */
  lemma GetOtherAfterSet(ps: Params, k: string, v: string, k2: string)
    requires k2 != k
    ensures Get(Set(ps, k, v), k2) == Get(ps, k2)
  {
    assert Values(Set(ps, k, v), k2) == Values(ps, k2);
  }

  /** Appending a pair whose name is absent gives that name the single value. */
  lemma AppendAbsent(ps: Params, k: string, v: string)
    requires !Has(ps, k)
    ensures Values(ps + [(k, v)], k) == [v]
    ensures forall k2 :: k2 != k ==> Values(ps + [(k, v)], k2) == Values(ps, k2)
  {
    ValuesEmptyIffAbsent(ps, k);
    forall k2 ensures Values(ps + [(k, v)], k2) == Values(ps, k2) + Values([(k, v)], k2) {
      ValuesAppend(ps, [(k, v)], k2);
    }
    assert forall k2 :: Values([(k, v)], k2) == (if k2 == k then [v] else []) + Values([], k2);
  }

  /** One serialised pair, `name=value`. */
  function Entry(p: (string, string), enc: string -> string): (e: string)
    ensures |e| > 0
  {
    enc(p.0) + "=" + enc(p.1)
  }

  /** `toString()`: the pairs joined by `&`. */
  function Serialize(ps: Params, enc: string -> string): (s: string)
    ensures s == "" <==> |ps| == 0
  {
    if |ps| == 0 then ""
    else if |ps| == 1 then Entry(ps[0], enc)
    else Entry(ps[0], enc) + "&" + Serialize(ps[1..], enc)
  }

  /** `path` alone when the query string is empty, else `path?query`. */
  function Href(path: string, qs: string): (h: string)
    ensures qs == "" ==> h == path
    ensures qs != "" ==> h == path + "?" + qs && StartsWith(h, path) && |h| == |path| + 1 + |qs|
  {
    if qs == "" then path
    else
      var h := path + "?" + qs;
      assert h[..|path|] == path;
      h
  }
}
