/** The player-form endpoint: find a player by (normalised) name, list the
    players at least as expensive with fewer points, and enrich the target and
    that list with minutes in batches of twenty-five. The name normaliser, the
    scorer list per position type and the per-player fetches are inputs. */
module PlayerForm {
  import opened Wrappers
  import opened Players
  import opened SeqUtil
  import opened Strings

  /** Players enriched per batch. */
  const Concurrency: nat := 25

  /** Player `p` matches the search under the normaliser `norm`. */
  predicate NameMatches(p: Player, searchName: string, norm: string -> string) {
    Contains(norm(p.name), norm(searchName))
  }

  /** `findPlayerByName`: the first player whose normalised name contains the
      normalised search text, or nothing. */
  function FindPlayerByName(players: seq<Player>, searchName: string, norm: string -> string)
    : (r: Option<Player>)
    ensures r.None? <==> forall i :: 0 <= i < |players| ==> !NameMatches(players[i], searchName, norm)
    ensures r.Some? ==> exists i :: 0 <= i < |players| && players[i] == r.value
                                  && NameMatches(players[i], searchName, norm)
                                  && forall j :: 0 <= j < i ==> !NameMatches(players[j], searchName, norm)
  {
    if |players| == 0 then None
    else if NameMatches(players[0], searchName, norm) then Some(players[0])
    else
      var r := FindPlayerByName(players[1..], searchName, norm);
      if r.Some? then
        var i :| 0 <= i < |players[1..]| && players[1..][i] == r.value
                 && NameMatches(players[1..][i], searchName, norm)
                 && forall j :: 0 <= j < i ==> !NameMatches(players[1..][j], searchName, norm);
        assert players[i + 1] == r.value;
        r
      else r
  }

  /** The underperformer rule relative to `target`. */
  function UnderperformsRule(target: Player): Player -> bool {
    (p: Player) => p.name != target.name && p.marketValue >= target.marketValue && p.points < target.points
  }

  /** `findUnderperformers`: the players, in order, with another name, a value
      at least the target's and strictly fewer points. */
  function FindUnderperformers(players: seq<Player>, target: Player): (r: seq<Player>)
    ensures forall p :: p in r <==>
              (p in players && p.name != target.name && p.marketValue >= target.marketValue && p.points < target.points)
    ensures IsSubsequence(r, players)
  {
    FilterSubsequence(UnderperformsRule(target), players);
    Filter(UnderperformsRule(target), players)
  }

  /** The target itself is never among its underperformers. */
  lemma TargetNotUnderperformer(players: seq<Player>, target: Player)
    ensures target !in FindUnderperformers(players, target)
  {
  }

  /** One player after its fetch: a fulfilled fetch overwrites the minutes. */
  function Enriched(p: Player, o: Outcome<StatsResult>): (q: Player)
    ensures q.(minutes := p.minutes) == p
    ensures o.Fail? ==> q == p
    ensures o.Ok? ==> q.minutes == Some(o.value.minutes)
  {
    match o
    case Ok(s) => p.(minutes := Some(s.minutes))
    case Fail => p
  }

  /** Enriching with the same outcome twice is enriching once. */
  lemma EnrichedIdempotent(p: Player, o: Outcome<StatsResult>)
    ensures Enriched(Enriched(p, o), o) == Enriched(p, o)
  {
  }

  /** The enrichment loop: batches of twenty-five, each player updated with the
      outcome of its own fetch; `fetch(i)` is the outcome for position `i`. */
  method EnrichAll(list: seq<Player>, fetch: nat -> Outcome<StatsResult>) returns (r: seq<Player>)
    ensures |r| == |list|
    ensures forall i :: 0 <= i < |r| ==> r[i] == Enriched(list[i], fetch(i))
  {
    r := list;
    var i := 0;
    while i < |list|
      invariant 0 <= i
      invariant |r| == |list|
      invariant forall k :: 0 <= k < |r| && k < i ==> r[k] == Enriched(list[k], fetch(k))
      invariant forall k :: i <= k < |r| ==> r[k] == list[k]
      decreases |list| - i
    {
      var end := if i + Concurrency <= |list| then i + Concurrency else |list|;
      var j := i;
      while j < end
        invariant i <= j <= end
        invariant |r| == |list|
        invariant forall k :: 0 <= k < j ==> r[k] == Enriched(list[k], fetch(k))
        invariant forall k :: j <= k < |r| ==> r[k] == list[k]
      {
        r := r[j := Enriched(r[j], fetch(j))];
        j := j + 1;
      }
      i := i + Concurrency;
    }
  }

  /** The target and its underperformers enriched as one list, target first:
      the target takes fetch 0, the `i`-th underperformer fetch `i + 1`. */
  method EnrichTargetFirst(target: Player, under: seq<Player>, fetch: nat -> Outcome<StatsResult>)
    returns (t: Player, us: seq<Player>)
    ensures t == Enriched(target, fetch(0))
    ensures |us| == |under|
    ensures forall i :: 0 <= i < |under| ==> us[i] == Enriched(under[i], fetch(i + 1))
  {
    var all := [target] + under;
    var enriched := EnrichAll(all, fetch);
    t := enriched[0];
    us := enriched[1..];
    forall i | 0 <= i < |under| ensures us[i] == Enriched(under[i], fetch(i + 1)) {
      assert us[i] == enriched[i + 1];
      assert all[i + 1] == under[i];
    }
  }

  datatype Response =
    | BadRequest
    | NotFound(searchedName: string, totalPlayers: nat)
    | ServerError
    | Form(target: Player, underperformers: seq<Player>, totalPlayers: nat)

  /** The position type requested, `"forward"` when absent or empty. */
  function PositionType(param: Option<string>): string {
    if param.None? || param.value == "" then "forward" else param.value
  }

  /** `GET`: a missing or empty name is rejected; a failed scorer fetch is a
      server error; an unknown player is reported with the searched name and
      the number of players; otherwise the target and its underperformers,
      enriched with minutes. `fetches` is the number of per-player fetches
      issued. */
  method Get(nameParam: Option<string>, positionParam: Option<string>,
             topScorers: string -> Outcome<seq<Player>>, norm: string -> string,
             fetch: nat -> Outcome<StatsResult>)
    returns (r: Response, fetches: nat)
    ensures r.BadRequest? <==> nameParam.None? || nameParam.value == ""
    ensures r.ServerError? <==> !r.BadRequest? && topScorers(PositionType(positionParam)).Fail?
    ensures r.NotFound? <==>
              && !r.BadRequest? && !r.ServerError?
              && FindPlayerByName(topScorers(PositionType(positionParam)).value, nameParam.value, norm).None?
    ensures r.NotFound? ==> r.searchedName == nameParam.value
                            && r.totalPlayers == |topScorers(PositionType(positionParam)).value|
    ensures !r.Form? ==> fetches == 0
    ensures r.Form? ==>
              var players := topScorers(PositionType(positionParam)).value;
              var target := FindPlayerByName(players, nameParam.value, norm).value;
              var under := FindUnderperformers(players, target);
              && r.totalPlayers == |players|
              && fetches == 1 + |under|
              && r.target == Enriched(target, fetch(0))
              && |r.underperformers| == |under|
              && forall i :: 0 <= i < |under| ==> r.underperformers[i] == Enriched(under[i], fetch(i + 1))
  {
    fetches := 0;
    if nameParam.None? || nameParam.value == "" {
      r := BadRequest;
      return;
    }
    var name := nameParam.value;
    match topScorers(PositionType(positionParam)) {
      case Fail =>
        r := ServerError;
      case Ok(players) =>
        var target := FindPlayerByName(players, name, norm);
        if target.None? {
          r := NotFound(name, |players|);
        } else {
          var under := FindUnderperformers(players, target.value);
          var t, us := EnrichTargetFirst(target.value, under, fetch);
          fetches := 1 + |under|;
          r := Form(t, us, |players|);
        }
    }
  }
}
