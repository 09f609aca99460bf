/** The older bargain engine behind the overperformers endpoint: threshold 2,
    nominal `position` instead of the effective one, and central midfielders
    excluded by name. `outperforms(a, b)` ("a strictly outperforms b") is
    uninterpreted. */
module Overperformers {
  import opened Wrappers
  import opened Players
  import opened Positions
  import opened SeqUtil
  import opened Sorting
  import opened Dominance

  /** A candidate must outperform at least this many pricier peers. */
  const MinOutperformsCount: nat := 2

  /** Defensive and central-midfield labels, and players without minutes, never enter the pool. */
  predicate Excluded(p: Player) {
    IsDefensive(p.position) || p.position == "Central Midfield" || p.minutes.None?
  }

  /** `player` strictly outperforms the at-least-as-expensive peer `p`, whose
      position can underperform against the player's. */
  predicate OutperformsPeer(player: Player, p: Player, outperforms: (Player, Player) -> bool) {
    && p.id != player.id
    && p.marketValue >= player.marketValue
    && outperforms(player, p)
    && CanBeUnderperformerAgainst(p.position, player.position)
  }

  function PeerRule(player: Player, outperforms: (Player, Player) -> bool): Player -> bool {
    (p: Player) => OutperformsPeer(player, p, outperforms)
  }

  /** How many players of `pool` `player` outperforms: the number of positions holding such a peer. */
  function OutperformsCount(player: Player, pool: seq<Player>, outperforms: (Player, Player) -> bool)
    : (n: nat)
    ensures n == |IndicesWhere(PeerRule(player, outperforms), pool)|
    ensures n <= |pool|
  {
    CountIsIndexCount(PeerRule(player, outperforms), pool);
    Count(PeerRule(player, outperforms), pool)
  }

  function NotExcludedRule(): Player -> bool {
    (p: Player) => !Excluded(p)
  }

  function OutperformsCountRule(pool: seq<Player>, outperforms: (Player, Player) -> bool): Player -> nat {
    (p: Player) => OutperformsCount(p, pool, outperforms)
  }

  /** `findCandidates`: a player is a candidate, annotated with its count,
      exactly when it is not excluded and outperforms at least two other players. */
  function FindCandidates(players: seq<Player>, outperforms: (Player, Player) -> bool): (r: seq<Candidate>)
    ensures |r| <= |players|
    ensures forall c :: c in r <==>
              && c.player in players
              && !Excluded(c.player)
              && c.count == OutperformsCount(c.player, players, outperforms)
              && c.count >= MinOutperformsCount
  {
    var r := Select(players, NotExcludedRule(), OutperformsCountRule(players, outperforms), MinOutperformsCount);
    assert forall c :: c in r <==>
      && c.player in players && NotExcludedRule()(c.player)
      && c.count == OutperformsCountRule(players, outperforms)(c.player)
      && c.count >= MinOutperformsCount;
    r
  }

  /** No candidate is defensive, a central midfielder, or without minutes. */
  lemma CandidatesNeverExcluded(players: seq<Player>, outperforms: (Player, Player) -> bool, c: Candidate)
    requires c in FindCandidates(players, outperforms)
    ensures !IsDefensive(c.player.position) && c.player.position != "Central Midfield"
    ensures c.player.minutes.Some?
  {
  }

  /** A candidate outperforms at least two distinct positions of the list, none holding its own id. */
  lemma CandidateHasTwoVictims(players: seq<Player>, outperforms: (Player, Player) -> bool, c: Candidate)
    requires c in FindCandidates(players, outperforms)
    ensures exists i, j :: 0 <= i < j < |players|
              && OutperformsPeer(c.player, players[i], outperforms)
              && OutperformsPeer(c.player, players[j], outperforms)
  {
    var rule := PeerRule(c.player, outperforms);
    TwoIndices(rule, players);
    var i, j :| 0 <= i < j < |players| && rule(players[i]) && rule(players[j]);
    assert OutperformsPeer(c.player, players[i], outperforms);
    assert OutperformsPeer(c.player, players[j], outperforms);
  }

  /** `other` knocks `c` out: a distinct, no pricier candidate that strictly
      outperforms it, against whose position `c`'s can underperform. */
  predicate Beats(other: Candidate, c: Candidate, outperforms: (Player, Player) -> bool) {
    && other.player.id != c.player.id
    && CanBeUnderperformerAgainst(c.player.position, other.player.position)
    && other.player.marketValue <= c.player.marketValue
    && outperforms(other.player, c.player)
  }

  function BeatsRule(outperforms: (Player, Player) -> bool): (Candidate, Candidate) -> bool {
    (other: Candidate, c: Candidate) => Beats(other, c, outperforms)
  }

  /** `filterUndominated`: the candidates no candidate beats, as a subsequence of the input. */
  function FilterUndominatedCandidates(cands: seq<Candidate>, outperforms: (Player, Player) -> bool)
    : (r: seq<Candidate>)
    ensures IsSubsequence(r, cands)
    ensures forall c :: c in r ==> c in cands
    ensures forall c, other :: c in r && other in cands ==> !Beats(other, c, outperforms)
    ensures forall c :: c in cands && !Dominated(c, cands, BeatsRule(outperforms)) ==> c in r
  {
    var r := FilterUndominated(cands, BeatsRule(outperforms));
    assert forall c, other :: c in r && other in cands ==> !BeatsRule(outperforms)(other, c);
    r
  }

  /** Filtering the survivors again changes nothing. */
  lemma FilterUndominatedIdempotent(cands: seq<Candidate>, outperforms: (Player, Player) -> bool)
    ensures FilterUndominatedCandidates(FilterUndominatedCandidates(cands, outperforms), outperforms)
         == FilterUndominatedCandidates(cands, outperforms)
  {
    Dominance.FilterUndominatedIdempotent(cands, BeatsRule(outperforms));
  }

  function MarketValueOf(c: Candidate): int {
    c.player.marketValue
  }

  /** The endpoint's answer: the frontier ascending by value, or a server error
      when the player data cannot be loaded. */
  datatype Response = Overperformers(list: seq<Candidate>) | ServerError

  /** `GET`: the undominated candidates, sorted ascending by market value. */
  function Get(data: Outcome<seq<Player>>, outperforms: (Player, Player) -> bool): (r: Response)
    ensures data.Fail? <==> r.ServerError?
    ensures r.Overperformers? ==> SortedBy(MarketValueOf, true, r.list)
    ensures r.Overperformers? ==>
              multiset(r.list) == multiset(FilterUndominatedCandidates(FindCandidates(data.value, outperforms), outperforms))
    ensures r.Overperformers? ==> forall c :: c in r.list <==>
              c in FilterUndominatedCandidates(FindCandidates(data.value, outperforms), outperforms)
  {
    match data
    case Fail => ServerError
    case Ok(players) =>
      var frontier := FilterUndominatedCandidates(FindCandidates(players, outperforms), outperforms);
      SortBySameElements(MarketValueOf, true, frontier);
      Overperformers(SortBy(MarketValueOf, true, frontier))
  }
}
