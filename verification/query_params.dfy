/** The URL update rule of the query-parameter hook: apply the updates, in
    entry order, to the current parameters and append the query to the base
    path. */
module QueryParams {
  import opened Wrappers
  import opened SearchParams
  import opened SeqUtil

  /** An update entry: a name and its new value, `None` for `null`. */
  type Update = (string, Option<string>)

  /** An update that removes its name: `null` or the empty string. */
  predicate Removes(u: Update) {
    u.1.None? || u.1.value == ""
  }

  /** One update applied: delete for `null`/`""`, otherwise set. The pairs of
      other names keep their order; a removal only drops pairs; a set pair
      takes the place of the first pair of its name, or goes last. */
  function ApplyOne(ps: Params, u: Update): (r: Params)
    ensures Removes(u) ==> Values(r, u.0) == [] && IsSubsequence(r, ps)
    ensures !Removes(u) ==> Values(r, u.0) == [u.1.value]
    ensures forall k :: k != u.0 ==> Values(r, k) == Values(ps, k)
    ensures Delete(r, u.0) == Delete(ps, u.0)
    ensures !Removes(u) && !Has(ps, u.0) ==> r == ps + [(u.0, u.1.value)]
    ensures !Removes(u) && Has(ps, u.0) ==>
              var i := FirstNamed(ps, u.0);
              |r| > i && r[..i] == ps[..i] && r[i] == (u.0, u.1.value)
  {
    if Removes(u) then
      DeleteIdempotent(ps, u.0);
      DeleteIsFilter(ps, u.0);
      Delete(ps, u.0)
    else Set(ps, u.0, u.1.value)
  }

  /** The updates applied left to right. */
  function ApplyAll(ps: Params, updates: seq<Update>): Params
    decreases |updates|
  {
    if |updates| == 0 then ps
    else ApplyOne(ApplyAll(ps, updates[..|updates| - 1]), updates[|updates| - 1])
  }

  /** The names of `updates`; an object's entries have distinct names. */
  ghost predicate DistinctNames(updates: seq<Update>) {
    forall i, j :: 0 <= i < j < |updates| ==> updates[i].0 != updates[j].0
  }

  /** A name no update mentions keeps exactly its current values. */
  lemma {:induction false} UntouchedKept(ps: Params, updates: seq<Update>, k: string)
    requires forall i :: 0 <= i < |updates| ==> updates[i].0 != k
    ensures Values(ApplyAll(ps, updates), k) == Values(ps, k)
    decreases |updates|
  {
    if |updates| > 0 {
      UntouchedKept(ps, updates[..|updates| - 1], k);
    }
  }

  /** After all updates, each updated name is absent when its value was `null`
      or empty, and otherwise holds exactly the new value. */
  lemma {:induction false} UpdatedNamesSet(ps: Params, updates: seq<Update>, i: nat)
    requires DistinctNames(updates)
    requires i < |updates|
    ensures Values(ApplyAll(ps, updates), updates[i].0)
            == if Removes(updates[i]) then [] else [updates[i].1.value]
    decreases |updates|
  {
    var n := |updates| - 1;
    var prev := ApplyAll(ps, updates[..n]);
    assert ApplyAll(ps, updates) == ApplyOne(prev, updates[n]);
    if i < n {
      assert DistinctNames(updates[..n]);
      UpdatedNamesSet(ps, updates[..n], i);
      assert updates[..n][i] == updates[i] && updates[i].0 != updates[n].0;
    }
  }

  /** `buildUrl`: the base path alone when no parameter remains, otherwise the
      base path, `?` and the serialised parameters. */
  function BuildUrl(basePath: string, current: Params, updates: seq<Update>, enc: string -> string)
    : (url: string)
    ensures |ApplyAll(current, updates)| == 0 ==> url == basePath
    ensures |ApplyAll(current, updates)| > 0 ==>
              url == basePath + "?" + Serialize(ApplyAll(current, updates), enc)
  {
    Href(basePath, Serialize(ApplyAll(current, updates), enc))
  }

  /** Removing the only parameter leaves the bare base path. */
  lemma RemovingLastParameter(basePath: string, k: string, v: string, enc: string -> string)
    ensures BuildUrl(basePath, [(k, v)], [(k, None)], enc) == basePath
  {
    var updates: seq<Update> := [(k, None)];
    assert updates[..0] == [];
    assert ApplyAll([(k, v)], updates) == ApplyOne([(k, v)], (k, None));
    assert Delete([(k, v)], k) == Delete([], k) == [];
  }
}
