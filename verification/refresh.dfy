/** The offline refresh: merge the top scorers into the market-value list,
    fetch per-player stats in batches of ten with a checkpoint after every
    batch and a pause between batches, then fold the cache into the players.
    Fetch outcomes are inputs; the file writes and the pause appear as a trace
    of effects. */
module Refresh {
  import opened Wrappers
  import opened Players
  import opened SeqUtil

  /** Players fetched per batch. */
  const Concurrency: nat := 10
  /** Pause between two batches, in milliseconds. */
  const BatchDelayMs: nat := 2000

  /** The player cache: stats per player id. */
  type Cache = map<string, StatsResult>

  /** What the batch loop does to the outside world, in order. */
  datatype Effect = SaveCache(snapshot: Cache) | Delay(ms: nat)

  // ---------------------------------------------------------------------------
  // Top-scorer merge

  /** The scorer merge: each scorer, in order, is appended when its id is not
      yet among the ids collected so far (market-value players and the scorers
      appended before it). The market-value list stays a prefix. */
  function MergeScorers(players: seq<Player>, scorers: seq<Player>): (r: seq<Player>)
    ensures players <= r
    ensures |r| <= |players| + |scorers|
    decreases |scorers|
  {
    if |scorers| == 0 then players
    else
      var m := MergeScorers(players, scorers[..|scorers| - 1]);
      var s := scorers[|scorers| - 1];
      if s.id in Ids(m) then m else m + [s]
  }

  /** The first scorer with id `id`, if any. */
  function FirstWithId(scorers: seq<Player>, id: string): (r: Option<Player>)
    ensures r.Some? ==> r.value in scorers && r.value.id == id
    ensures r.None? <==> forall s :: s in scorers ==> s.id != id
  {
    if |scorers| == 0 then None
    else if scorers[0].id == id then Some(scorers[0])
    else
      assert forall s :: s in scorers ==> s == scorers[0] || s in scorers[1..];
      FirstWithId(scorers[1..], id)
  }

  /** A reference for the scorers the merge appends, read front to back: each
      scorer whose id is neither in `seen` nor taken by an earlier scorer, in
      scorer order. */
  function FreshFirst(seen: seq<string>, scorers: seq<Player>): (r: seq<Player>)
    ensures |r| <= |scorers|
    decreases |scorers|
  {
    if |scorers| == 0 then []
    else if scorers[0].id in seen then FreshFirst(seen, scorers[1..])
    else [scorers[0]] + FreshFirst(seen + [scorers[0].id], scorers[1..])
  }

  /** Every element of `r` is the first scorer with its id, and that id is not in `seen`. */
  ghost predicate FirstFresh(seen: seq<string>, scorers: seq<Player>, r: seq<Player>) {
    forall x :: x in r ==> x.id !in seen && FirstWithId(scorers, x.id) == Some(x)
  }

  /** Every scorer's id is in `seen` or taken by an element of `r`. */
  ghost predicate CoversScorers(seen: seq<string>, scorers: seq<Player>, r: seq<Player>) {
    forall s :: s in scorers ==> s.id in seen || s.id in Ids(r)
  }

  /** The reference keeps the scorers' order, takes for each fresh id its first
      scorer, covers every scorer's id and never repeats an id. */
  lemma {:induction false} FreshFirstFacts(seen: seq<string>, scorers: seq<Player>)
    ensures var r := FreshFirst(seen, scorers);
            && IsSubsequence(r, scorers)
            && FirstFresh(seen, scorers, r)
            && CoversScorers(seen, scorers, r)
            && UniqueIds(r)
    decreases |scorers|
  {
    if |scorers| > 0 {
      var a := scorers[0];
      var tail := scorers[1..];
      assert forall t :: t in scorers ==> t == a || t in tail;
      if a.id in seen {
        FreshFirstFacts(seen, tail);
        FirstWithIdTail(scorers, seen, FreshFirst(seen, tail));
      } else {
        var seen2 := seen + [a.id];
        FreshFirstFacts(seen2, tail);
        var rest := FreshFirst(seen2, tail);
        FirstWithIdTail(scorers, seen2, rest);
        ConsFacts(seen, scorers, rest);
      }
    }
  }

  /** Ids outside `seen` that include the head's id resolve past the head. */
  lemma FirstWithIdTail(scorers: seq<Player>, seen: seq<string>, r: seq<Player>)
    requires |scorers| > 0 && scorers[0].id in seen
    requires FirstFresh(seen, scorers[1..], r)
    ensures FirstFresh(seen, scorers, r)
  {
  }

  /** Putting the head scorer in front of the rest of the reference. */
  lemma ConsFacts(seen: seq<string>, scorers: seq<Player>, rest: seq<Player>)
    requires |scorers| > 0 && scorers[0].id !in seen
    requires var seen2 := seen + [scorers[0].id];
             && IsSubsequence(rest, scorers[1..])
             && FirstFresh(seen2, scorers, rest)
             && CoversScorers(seen2, scorers[1..], rest)
             && UniqueIds(rest)
    ensures var r := [scorers[0]] + rest;
            && IsSubsequence(r, scorers)
            && FirstFresh(seen, scorers, r)
            && CoversScorers(seen, scorers, r)
            && UniqueIds(r)
  {
    var r := [scorers[0]] + rest;
    assert r[0] == scorers[0] && r[1..] == rest;
    ConsFirstFresh(seen, scorers, rest);
    ConsCovers(seen, scorers, rest);
    ConsUnique(seen, scorers, rest);
  }

  /** The head scorer is the first with its id, so it may lead the reference. */
  lemma ConsFirstFresh(seen: seq<string>, scorers: seq<Player>, rest: seq<Player>)
    requires |scorers| > 0 && scorers[0].id !in seen
    requires FirstFresh(seen + [scorers[0].id], scorers, rest)
    ensures FirstFresh(seen, scorers, [scorers[0]] + rest)
  {
    var a := scorers[0];
    forall x | x in [a] + rest ensures x.id !in seen && FirstWithId(scorers, x.id) == Some(x) {
      if x != a {
        assert x in rest;
        assert x.id !in seen + [a.id];
      }
    }
  }

  /** Every scorer's id is covered once the head's id is taken by the head. */
  lemma ConsCovers(seen: seq<string>, scorers: seq<Player>, rest: seq<Player>)
    requires |scorers| > 0
    requires CoversScorers(seen + [scorers[0].id], scorers[1..], rest)
    ensures CoversScorers(seen, scorers, [scorers[0]] + rest)
  {
    var a := scorers[0];
    assert Ids([a] + rest) == [a.id] + Ids(rest);
    forall t | t in scorers ensures t.id in seen || t.id in Ids([a] + rest) {
      if t != a {
        assert t in scorers[1..];
      }
    }
  }

  /** The head's id does not recur in the rest, so ids stay unique. */
  lemma ConsUnique(seen: seq<string>, scorers: seq<Player>, rest: seq<Player>)
    requires |scorers| > 0
    requires FirstFresh(seen + [scorers[0].id], scorers, rest)
    requires UniqueIds(rest)
    ensures UniqueIds([scorers[0]] + rest)
  {
    var a := scorers[0];
    var r := [a] + rest;
    forall i, j | 0 <= i < j < |r| ensures r[i].id != r[j].id {
      if i == 0 {
        assert r[j] == rest[j - 1];
        assert rest[j - 1].id !in seen + [a.id];
      } else {
        assert r[i] == rest[i - 1] && r[j] == rest[j - 1];
      }
    }
  }

  /** Appending one scorer to the input appends it to the reference exactly when
      its id is still fresh. */
  lemma {:induction false} FreshFirstSnoc(seen: seq<string>, s: seq<Player>, x: Player)
    ensures FreshFirst(seen, s + [x])
            == FreshFirst(seen, s)
               + (if x.id in seen || x.id in Ids(FreshFirst(seen, s)) then [] else [x])
    decreases |s|
  {
    if |s| == 0 {
      assert s + [x] == [x];
      assert [x][1..] == [];
    } else {
      var a := s[0];
      assert (s + [x])[0] == a && (s + [x])[1..] == s[1..] + [x];
      if a.id in seen {
        FreshFirstSnoc(seen, s[1..], x);
      } else {
        var seen2 := seen + [a.id];
        FreshFirstSnoc(seen2, s[1..], x);
        var rest := FreshFirst(seen2, s[1..]);
        assert ([a] + rest)[1..] == rest;
        assert Ids([a] + rest) == [a.id] + Ids(rest);
      }
    }
  }

  /** Ids of a concatenation. */
  lemma {:induction false} IdsAppend(a: seq<Player>, b: seq<Player>)
    ensures Ids(a + b) == Ids(a) + Ids(b)
  {
  }

  /** The merge is the market-value list followed by the reference: the new
      scorers in scorer order, each the first scorer with its id. */
  lemma {:induction false} MergeScorersIsFreshFirst(players: seq<Player>, scorers: seq<Player>)
    ensures MergeScorers(players, scorers) == players + FreshFirst(Ids(players), scorers)
    decreases |scorers|
  {
    var seen := Ids(players);
    if |scorers| == 0 {
    } else {
      var init := scorers[..|scorers| - 1];
      var s := scorers[|scorers| - 1];
      MergeScorersIsFreshFirst(players, init);
      assert scorers == init + [s];
      FreshFirstSnoc(seen, init, s);
      IdsAppend(players, FreshFirst(seen, init));
    }
  }

  /** Only scorers are appended, and only ones whose id the market-value list
      lacks; every scorer's id ends up in the result; ids unique before stay
      unique. */
  lemma MergeScorersFacts(players: seq<Player>, scorers: seq<Player>)
    ensures var r := MergeScorers(players, scorers);
            && (forall i :: |players| <= i < |r| ==> r[i] in scorers && r[i].id !in Ids(players))
            && (forall s :: s in scorers ==> s.id in Ids(r))
            && (UniqueIds(players) ==> UniqueIds(r))
            && r == players + FreshFirst(Ids(players), scorers)
  {
    MergeScorersIsFreshFirst(players, scorers);
    MergeScorersAppended(players, scorers);
    MergeScorersCovers(players, scorers);
    if UniqueIds(players) {
      MergeScorersUnique(players, scorers);
    }
  }

  /** Past the market-value prefix of `r` sit only scorers whose id that prefix lacks. */
  ghost predicate OnlyNewScorers(players: seq<Player>, scorers: seq<Player>, r: seq<Player>) {
    forall i :: |players| <= i < |r| ==> r[i] in scorers && r[i].id !in Ids(players)
  }

  /** The merge appends only scorers whose id the market-value list lacks. */
  lemma {:induction false} MergeScorersAppended(players: seq<Player>, scorers: seq<Player>)
    ensures OnlyNewScorers(players, scorers, MergeScorers(players, scorers))
    decreases |scorers|
  {
    if |scorers| > 0 {
      var init := scorers[..|scorers| - 1];
      MergeScorersAppended(players, init);
      var m := MergeScorers(players, init);
      var s := scorers[|scorers| - 1];
      var r := MergeScorers(players, scorers);
      forall i | |players| <= i < |r| ensures r[i] in scorers && r[i].id !in Ids(players) {
        if i < |m| {
          assert r[i] == m[i];
          assert m[i] in init;
        } else {
          assert r[i] == s;
          PrefixIdAbsent(players, m, s.id);
        }
      }
    }
  }

  /** An id missing from a list is missing from each of its prefixes. */
  lemma PrefixIdAbsent(players: seq<Player>, m: seq<Player>, id: string)
    requires players <= m && id !in Ids(m)
    ensures id !in Ids(players)
  {
    forall k | 0 <= k < |players| ensures Ids(players)[k] != id {
      assert Ids(m)[k] == m[k].id == players[k].id;
    }
  }

  /** Every scorer's id is in the result. */
  lemma {:induction false} MergeScorersCovers(players: seq<Player>, scorers: seq<Player>)
    ensures var r := MergeScorers(players, scorers);
            forall s :: s in scorers ==> s.id in Ids(r)
    decreases |scorers|
  {
    if |scorers| > 0 {
      var init := scorers[..|scorers| - 1];
      MergeScorersCovers(players, init);
      var m := MergeScorers(players, init);
      var s := scorers[|scorers| - 1];
      assert forall t :: t in scorers ==> t == s || t in init;
      if s.id !in Ids(m) {
        AppendFreshId(m, s);
      }
    }
  }

  /** Ids unique in the market-value list stay unique. */
  lemma {:induction false} MergeScorersUnique(players: seq<Player>, scorers: seq<Player>)
    requires UniqueIds(players)
    ensures UniqueIds(MergeScorers(players, scorers))
    decreases |scorers|
  {
    if |scorers| > 0 {
      var init := scorers[..|scorers| - 1];
      MergeScorersUnique(players, init);
      var m := MergeScorers(players, init);
      var s := scorers[|scorers| - 1];
      if s.id !in Ids(m) {
        AppendFreshId(m, s);
      }
    }
  }

  /** Appending a player with a new id keeps the ids unique and adds that id. */
  lemma AppendFreshId(m: seq<Player>, s: Player)
    requires s.id !in Ids(m)
    ensures Ids(m + [s]) == Ids(m) + [s.id]
    ensures UniqueIds(m) ==> UniqueIds(m + [s])
  {
    assert forall i :: 0 <= i < |m| ==> m[i].id in Ids(m);
  }

  /** A scorer already in the market-value list is never added again: merging
      only scorers that are already present leaves the list unchanged. */
  lemma {:induction false} MergeKnownScorers(players: seq<Player>, scorers: seq<Player>)
    requires forall s :: s in scorers ==> s.id in Ids(players)
    ensures MergeScorers(players, scorers) == players
    decreases |scorers|
  {
    if |scorers| > 0 {
      assert forall t :: t in scorers[..|scorers| - 1] ==> t in scorers;
      MergeKnownScorers(players, scorers[..|scorers| - 1]);
      assert scorers[|scorers| - 1] in scorers;
    }
  }

  // ---------------------------------------------------------------------------
  // Batched fetch with checkpoints

  /** The cache after recording the outcomes of `ids` one by one, left to
      right: a fulfilled fetch sets the entry, a rejected one leaves the cache
      as it is. */
  function CacheOf(ids: seq<string>, outcomes: seq<Outcome<StatsResult>>): (c: Cache)
    requires |ids| == |outcomes|
    ensures forall k :: k in c ==> k in ids
    decreases |ids|
  {
    if |ids| == 0 then map[]
    else
      var n := |ids| - 1;
      var c := CacheOf(ids[..n], outcomes[..n]);
      assert forall k :: k in ids[..n] ==> k in ids;
      match outcomes[n]
      case Ok(v) => c[ids[n] := v]
      case Fail => c
  }

  /** An id is cached exactly when one of its fetches was fulfilled. */
  lemma {:induction false} CacheOfKeys(ids: seq<string>, outcomes: seq<Outcome<StatsResult>>, k: string)
    requires |ids| == |outcomes|
    ensures k in CacheOf(ids, outcomes) <==> exists i :: 0 <= i < |ids| && ids[i] == k && outcomes[i].Ok?
    decreases |ids|
  {
    if |ids| > 0 {
      var n := |ids| - 1;
      CacheOfKeys(ids[..n], outcomes[..n], k);
      if exists i :: 0 <= i < |ids| && ids[i] == k && outcomes[i].Ok? {
        var i :| 0 <= i < |ids| && ids[i] == k && outcomes[i].Ok?;
        if i < n {
          assert ids[..n][i] == k && outcomes[..n][i].Ok?;
        }
      }
    }
  }

  /** A cached value is the result of the LAST fulfilled fetch of that id. */
  lemma {:induction false} CacheOfValue(ids: seq<string>, outcomes: seq<Outcome<StatsResult>>, k: string)
    requires |ids| == |outcomes|
    requires k in CacheOf(ids, outcomes)
    ensures exists i :: 0 <= i < |ids| && ids[i] == k && outcomes[i] == Ok(CacheOf(ids, outcomes)[k])
                        && forall j :: i < j < |ids| && ids[j] == k ==> outcomes[j].Fail?
    decreases |ids|
  {
    var n := |ids| - 1;
    var c := CacheOf(ids, outcomes);
    if ids[n] == k && outcomes[n].Ok? {
      assert outcomes[n] == Ok(c[k]);
    } else {
      var prev := CacheOf(ids[..n], outcomes[..n]);
      assert k in prev && c[k] == prev[k];
      CacheOfValue(ids[..n], outcomes[..n], k);
      var i :| 0 <= i < n && ids[..n][i] == k && outcomes[..n][i] == Ok(prev[k])
               && forall j :: i < j < n && ids[..n][j] == k ==> outcomes[..n][j].Fail?;
      assert ids[i] == k && outcomes[i] == Ok(c[k]);
      forall j | i < j < |ids| && ids[j] == k ensures outcomes[j].Fail? {
        if j < n {
          assert ids[..n][j] == k;
        }
      }
    }
  }

  /** Recording one more outcome extends the fold. */
  lemma CacheOfSnoc(ids: seq<string>, outcomes: seq<Outcome<StatsResult>>, j: nat)
    requires |ids| == |outcomes|
    requires j < |ids|
    ensures CacheOf(ids[..j + 1], outcomes[..j + 1])
            == match outcomes[j]
               case Ok(v) => CacheOf(ids[..j], outcomes[..j])[ids[j] := v]
               case Fail => CacheOf(ids[..j], outcomes[..j])
  {
    assert ids[..j + 1][..j] == ids[..j];
    assert outcomes[..j + 1][..j] == outcomes[..j];
  }

  /** End (exclusive) of batch `b` for `n` players. */
  function BatchEnd(b: nat, n: nat): nat {
    if (b + 1) * Concurrency <= n then (b + 1) * Concurrency else n
  }

  /** `n` players take `ceil(n / 10)` batches. */
  lemma {:induction false} BatchCount(n: nat)
    ensures NumBatches(n, Concurrency) == (n + Concurrency - 1) / Concurrency
  {
    if n > Concurrency {
      BatchCount(n - Concurrency);
    }
  }

  /** The batch starting at `b * 10` is the last one exactly when it reaches the end. */
  lemma {:induction false} BatchIndex(n: nat, b: nat)
    ensures b * Concurrency < n ==> b < NumBatches(n, Concurrency)
    ensures b * Concurrency < n <= (b + 1) * Concurrency ==> b + 1 == NumBatches(n, Concurrency)
  {
    if b > 0 && n > Concurrency {
      BatchIndex(n - Concurrency, b - 1);
    }
  }

  /** Records the outcomes of positions `from .. to` into `cache`, left to right. */
  method RecordBatch(ids: seq<string>, outcomes: seq<Outcome<StatsResult>>, cache0: Cache, from: nat, to: nat)
    returns (cache: Cache)
    requires |ids| == |outcomes|
    requires from <= to <= |ids|
    requires cache0 == CacheOf(ids[..from], outcomes[..from])
    ensures cache == CacheOf(ids[..to], outcomes[..to])
  {
    cache := cache0;
    var j := from;
    while j < to
      invariant from <= j <= to
      invariant cache == CacheOf(ids[..j], outcomes[..j])
    {
      CacheOfSnoc(ids, outcomes, j);
      match outcomes[j] {
        case Ok(v) => cache := cache[ids[j] := v];
        case Fail =>
      }
      j := j + 1;
    }
  }

  /** The first `b` checkpoints hold the cache at the end of each batch, and
      pauses sit at the odd positions of the trace. */
  ghost predicate TraceUpTo(effects: seq<Effect>, ids: seq<string>, outcomes: seq<Outcome<StatsResult>>, b: nat)
    requires |ids| == |outcomes|
  {
    && (forall e :: 0 <= e < |effects| ==> (effects[e].SaveCache? <==> e % 2 == 0))
    && (forall e :: 0 <= e < |effects| && e % 2 == 1 ==> effects[e] == Delay(BatchDelayMs))
    && (forall c :: 0 <= c < b && 2 * c < |effects| ==>
          effects[2 * c] == SaveCache(CacheOf(ids[..BatchEnd(c, |ids|)], outcomes[..BatchEnd(c, |ids|)])))
  }

  /** Appending batch `b`'s checkpoint, and possibly a pause, extends the trace by one batch. */
  lemma TraceStep(effects: seq<Effect>, step: seq<Effect>, ids: seq<string>, outcomes: seq<Outcome<StatsResult>>, b: nat)
    requires |ids| == |outcomes|
    requires TraceUpTo(effects, ids, outcomes, b) && |effects| == 2 * b
    requires step == [SaveCache(CacheOf(ids[..BatchEnd(b, |ids|)], outcomes[..BatchEnd(b, |ids|)]))]
             || step == [SaveCache(CacheOf(ids[..BatchEnd(b, |ids|)], outcomes[..BatchEnd(b, |ids|)])), Delay(BatchDelayMs)]
    ensures TraceUpTo(effects + step, ids, outcomes, b + 1)
  {
    var all := effects + step;
    forall c | 0 <= c < b + 1 && 2 * c < |all|
      ensures all[2 * c] == SaveCache(CacheOf(ids[..BatchEnd(c, |ids|)], outcomes[..BatchEnd(c, |ids|)]))
    {
      if c < b {
        assert all[2 * c] == effects[2 * c];
      } else {
        assert all[2 * c] == step[0];
      }
    }
  }

  /** The cache before the batch starting at `i`: every position before `i`,
      all of them once `i` is past the end. */
  ghost predicate CacheState(ids: seq<string>, outcomes: seq<Outcome<StatsResult>>, i: nat, cache: Cache)
    requires |ids| == |outcomes|
  {
    && (i <= |ids| ==> cache == CacheOf(ids[..i], outcomes[..i]))
    && (i > |ids| ==> cache == CacheOf(ids, outcomes))
  }

  /** The trace before batch `b`, which starts at `i = b * 10`: one checkpoint
      per batch done, with a pause after each but a final one. */
  ghost predicate TraceState(ids: seq<string>, outcomes: seq<Outcome<StatsResult>>, i: nat, b: nat,
                             effects: seq<Effect>)
    requires |ids| == |outcomes|
  {
    var n := |ids|;
    && i == b * Concurrency
    && (i < n ==> |effects| == 2 * b && b < NumBatches(n, Concurrency))
    && (i >= n ==> (b == 0 && |effects| == 0) || (b > 0 && |effects| == 2 * b - 1 && b == NumBatches(n, Concurrency)))
    && TraceUpTo(effects, ids, outcomes, b)
  }

  /** The batch loop's state before the batch starting at `i = b * 10`. */
  ghost predicate LoopState(ids: seq<string>, outcomes: seq<Outcome<StatsResult>>, i: nat, b: nat,
                            cache: Cache, effects: seq<Effect>)
    requires |ids| == |outcomes|
  {
    CacheState(ids, outcomes, i, cache) && TraceState(ids, outcomes, i, b, effects)
  }

  /** Recording the batch starting at `i` moves the cache on to the next batch. */
  method CacheBatch(ids: seq<string>, outcomes: seq<Outcome<StatsResult>>, i: nat, cache0: Cache)
    returns (cache: Cache)
    requires |ids| == |outcomes| && i < |ids|
    requires CacheState(ids, outcomes, i, cache0)
    ensures CacheState(ids, outcomes, i + Concurrency, cache)
    ensures cache == CacheOf(ids[..if i + Concurrency <= |ids| then i + Concurrency else |ids|],
                             outcomes[..if i + Concurrency <= |ids| then i + Concurrency else |ids|])
  {
    var n := |ids|;
    var end := if i + Concurrency <= n then i + Concurrency else n;
    cache := RecordBatch(ids, outcomes, cache0, i, end);
    if end == n {
      assert ids[..n] == ids && outcomes[..n] == outcomes;
    }
  }

  /** Saving batch `b`'s cache, and pausing unless it reached the end, moves the
      trace on to the next batch. */
  lemma TraceAdvance(ids: seq<string>, outcomes: seq<Outcome<StatsResult>>, i: nat, b: nat,
                     effects: seq<Effect>, step: seq<Effect>)
    requires |ids| == |outcomes| && i < |ids|
    requires TraceState(ids, outcomes, i, b, effects)
    requires var save := SaveCache(CacheOf(ids[..BatchEnd(b, |ids|)], outcomes[..BatchEnd(b, |ids|)]));
             step == if i + Concurrency < |ids| then [save, Delay(BatchDelayMs)] else [save]
    ensures TraceState(ids, outcomes, i + Concurrency, b + 1, effects + step)
  {
    var n := |ids|;
    BatchIndex(n, b);
    TraceStep(effects, step, ids, outcomes, b);
    assert i + Concurrency == (b + 1) * Concurrency;
    if i + Concurrency < n {
      BatchIndex(n, b + 1);
    }
  }

  /** One pass of the loop body: record the batch, save the cache, and pause
      unless the batch reached the end. */
  method OneBatch(ids: seq<string>, outcomes: seq<Outcome<StatsResult>>, i: nat, b: nat,
                  cache0: Cache, effects0: seq<Effect>)
    returns (cache: Cache, effects: seq<Effect>)
    requires |ids| == |outcomes| && i < |ids|
    requires LoopState(ids, outcomes, i, b, cache0, effects0)
    ensures LoopState(ids, outcomes, i + Concurrency, b + 1, cache, effects)
  {
    cache := CacheBatch(ids, outcomes, i, cache0);
    var checkpoint := [SaveCache(cache)];
    var step := if i + Concurrency < |ids| then checkpoint + [Delay(BatchDelayMs)] else checkpoint;
    TraceAdvance(ids, outcomes, i, b, effects0, step);
    effects := effects0 + step;
  }

  /** The trace of a whole run: one checkpoint per batch holding the cache at
      the end of that batch, a 2000 ms pause between two checkpoints, and
      nothing after the last checkpoint. */
  ghost predicate CheckpointTrace(ids: seq<string>, outcomes: seq<Outcome<StatsResult>>, effects: seq<Effect>)
    requires |ids| == |outcomes|
  {
    && |effects| == (if |ids| == 0 then 0 else 2 * NumBatches(|ids|, Concurrency) - 1)
    && (forall e :: 0 <= e < |effects| ==> (effects[e].SaveCache? <==> e % 2 == 0))
    && (forall e :: 0 <= e < |effects| && e % 2 == 1 ==> effects[e] == Delay(BatchDelayMs))
    && (forall b :: 0 <= b < NumBatches(|ids|, Concurrency) ==>
          effects[2 * b] == SaveCache(CacheOf(ids[..BatchEnd(b, |ids|)], outcomes[..BatchEnd(b, |ids|)])))
  }

  /** Leaving the loop: the state gives the full cache and the whole trace. */
  lemma LoopExit(ids: seq<string>, outcomes: seq<Outcome<StatsResult>>, i: nat, b: nat,
                 cache: Cache, effects: seq<Effect>)
    requires |ids| == |outcomes| && i >= |ids|
    requires LoopState(ids, outcomes, i, b, cache, effects)
    ensures cache == CacheOf(ids, outcomes)
    ensures CheckpointTrace(ids, outcomes, effects)
  {
    var n := |ids|;
    assert ids[..n] == ids && outcomes[..n] == outcomes;
    if n == 0 {
      assert NumBatches(n, Concurrency) == 0;
    }
  }

  /** The main batch loop: for `i = 0, 10, 20, …` below the player count, record
      the outcomes of players `i .. i + 10` into the cache (which starts empty),
      save the cache, and pause unless this was the last batch. */
  method RunBatches(ids: seq<string>, outcomes: seq<Outcome<StatsResult>>)
    returns (cache: Cache, effects: seq<Effect>)
    requires |ids| == |outcomes|
    ensures cache == CacheOf(ids, outcomes)
    ensures CheckpointTrace(ids, outcomes, effects)
  {
    var n := |ids|;
    cache := map[];
    effects := [];
    var i := 0;
    var b := 0;
    BatchIndex(n, 0);
    while i < n
      invariant LoopState(ids, outcomes, i, b, cache, effects)
      decreases n - i
    {
      cache, effects := OneBatch(ids, outcomes, i, b, cache, effects);
      i := i + Concurrency;
      b := b + 1;
    }
    LoopExit(ids, outcomes, i, b, cache, effects);
  }

  /** In a run's trace the checkpoints and pauses alternate, and the trace ends
      with a checkpoint: there is never a pause after the final batch. */
  lemma TraceEndsWithSave(ids: seq<string>, outcomes: seq<Outcome<StatsResult>>, effects: seq<Effect>)
    requires |ids| == |outcomes| && |ids| > 0
    requires CheckpointTrace(ids, outcomes, effects)
    ensures |effects| > 0 && effects[|effects| - 1].SaveCache?
    ensures forall e :: 0 <= e < |effects| - 1 ==> effects[e].SaveCache? != effects[e + 1].SaveCache?
  {
    BatchCount(|ids|);
  }

  /** The final checkpoint is the full cache: the snapshot after the last
      batch holds every fulfilled fetch. */
  lemma LastSnapshotIsFullCache(ids: seq<string>, outcomes: seq<Outcome<StatsResult>>, effects: seq<Effect>)
    requires |ids| == |outcomes| && |ids| > 0
    requires CheckpointTrace(ids, outcomes, effects)
    ensures |effects| > 0 && effects[|effects| - 1] == SaveCache(CacheOf(ids, outcomes))
  {
    var n := |ids|;
    BatchCount(n);
    var b := NumBatches(n, Concurrency) - 1;
    assert b == (n + 9) / 10 - 1;
    assert BatchEnd(b, n) == n;
    assert |effects| - 1 == 2 * b;
    assert ids[..n] == ids && outcomes[..n] == outcomes;
  }

  // ---------------------------------------------------------------------------
  // Cache-into-player merge

  /** One cache entry applied to a player: minutes, goals and assists replaced;
      total matches replaced only by a non-zero appearance count; club and
      league replaced only by non-empty text; the new-signing flag set or
      removed by the entry; everything else kept. */
  function MergeEntry(p: Player, e: StatsResult): (q: Player)
    ensures q.id == p.id && q.name == p.name && q.position == p.position
    ensures q.playedPosition == p.playedPosition && q.marketValue == p.marketValue
    ensures q.points == p.points && q.isOnLoan == p.isOnLoan
    ensures q.minutes == Some(e.minutes) && q.goals == e.goals && q.assists == e.assists
    ensures q.totalMatches == (if e.appearances != 0 then e.appearances else p.totalMatches)
    ensures q.club == (if e.club != "" then e.club else p.club)
    ensures q.league == (if e.league != "" then e.league else p.league)
    ensures q.isNewSigning == e.isNewSigning
  {
    p.(minutes := Some(e.minutes),
       totalMatches := if e.appearances != 0 then e.appearances else p.totalMatches,
       goals := e.goals,
       assists := e.assists,
       club := if e.club != "" then e.club else p.club,
       league := if e.league != "" then e.league else p.league,
       isNewSigning := e.isNewSigning)
  }

  /** Applying the same entry twice is applying it once. */
  lemma MergeEntryIdempotent(p: Player, e: StatsResult)
    ensures MergeEntry(MergeEntry(p, e), e) == MergeEntry(p, e)
  {
  }

  /** The final merge: each player with a cache entry takes it; the others are
      left as they are; count and order are kept. */
  function MergeCache(players: seq<Player>, cache: Cache): (r: seq<Player>)
    ensures |r| == |players|
    ensures Ids(r) == Ids(players)
    ensures forall i :: 0 <= i < |r| ==> r[i].isOnLoan == players[i].isOnLoan
    ensures forall i :: 0 <= i < |r| && players[i].id !in cache ==> r[i] == players[i]
    ensures forall i :: 0 <= i < |r| && players[i].id in cache ==> r[i] == MergeEntry(players[i], cache[players[i].id])
  {
    var r := seq(|players|, i requires 0 <= i < |players| =>
                 if players[i].id in cache then MergeEntry(players[i], cache[players[i].id]) else players[i]);
    assert forall i :: 0 <= i < |r| ==> r[i].id == players[i].id;
    r
  }

  /** Merging the same cache again changes nothing. */
  lemma MergeCacheIdempotent(players: seq<Player>, cache: Cache)
    ensures MergeCache(MergeCache(players, cache), cache) == MergeCache(players, cache)
  {
    var once := MergeCache(players, cache);
    var twice := MergeCache(once, cache);
    forall i | 0 <= i < |players| ensures twice[i] == once[i] {
      assert Ids(once)[i] == Ids(players)[i];
      if players[i].id in cache {
        MergeEntryIdempotent(players[i], cache[players[i].id]);
      }
    }
  }

  // ---------------------------------------------------------------------------
  // The whole run

  /** The refresh run: merge the scorers, fetch in batches into an empty cache
      (an existing cache file is never read), then merge the cache into every
      player. `fetch(i)` is the outcome of the i-th player's fetch. */
  method Run(mvPlayers: seq<Player>, scorers: seq<Player>, fetch: nat -> Outcome<StatsResult>)
    returns (output: seq<Player>, effects: seq<Effect>)
    ensures var merged := MergeScorers(mvPlayers, scorers);
            var outcomes := seq(|merged|, (i: int) requires 0 <= i < |merged| => fetch(i));
            && |output| == |merged|
            && Ids(output) == Ids(merged)
            && output == MergeCache(merged, CacheOf(Ids(merged), outcomes))
    ensures var merged := MergeScorers(mvPlayers, scorers);
            var outcomes := seq(|merged|, (i: int) requires 0 <= i < |merged| => fetch(i));
            CheckpointTrace(Ids(merged), outcomes, effects)
    ensures |effects| == 2 * NumBatches(|output|, Concurrency) - 1 || |output| == 0
  {
    var merged := MergeScorers(mvPlayers, scorers);
    var outcomes := seq(|merged|, (i: int) requires 0 <= i < |merged| => fetch(i));
    var cache;
    cache, effects := RunBatches(Ids(merged), outcomes);
    output := MergeCache(merged, cache);
  }
}
