/** The two-pass bargain / overpriced engine. `candidateOutperforms` picks the
    direction: true finds cheap players outperforming pricier peers (bargains),
    false finds expensive players outperformed by cheaper peers (overpriced).
    `outperforms(a, b)` ("a strictly outperforms b") and `isAttacking` are not
    defined in the code base's visible files and stay uninterpreted. */
module ValueAnalysis {
  import opened Wrappers
  import opened Players
  import opened Positions
  import opened SeqUtil
  import opened Sorting
  import opened Dominance

  /** The effective position: the most-played position when it is non-empty,
      otherwise the nominal one. */
  function Pos(p: Player): (r: string)
    ensures r == p.position || (p.playedPosition == Some(r) && r != "")
    ensures p.playedPosition.Some? && p.playedPosition.value != "" ==> r == p.playedPosition.value
  {
    if p.playedPosition.Some? && p.playedPosition.value != "" then p.playedPosition.value else p.position
  }

  /** A candidate must compare against at least this many peers. */
  const MinComparisonCount: nat := 3

  /** Whether `player` compares against peer `p` in the given direction. */
  predicate ComparesAgainst(player: Player, p: Player, candidateOutperforms: bool,
                            outperforms: (Player, Player) -> bool)
  {
    && p.id != player.id
    && if candidateOutperforms then
         && p.marketValue >= player.marketValue
         && outperforms(player, p)
         && CanBeUnderperformerAgainst(Pos(p), Pos(player))
       else
         && p.marketValue <= player.marketValue
         && outperforms(p, player)
         && CanBeOutperformerAgainst(Pos(p), Pos(player))
  }

  function CompareRule(player: Player, candidateOutperforms: bool, outperforms: (Player, Player) -> bool)
    : Player -> bool
  {
    (p: Player) => ComparesAgainst(player, p, candidateOutperforms, outperforms)
  }

  function SameId(id: string): Player -> bool {
    (p: Player) => p.id == id
  }

  /** How many players of `pool` `player` compares against. It is the number of
      positions of `pool` that hold such a peer, it never counts an entry with
      the player's own id, and so it is below the pool size when the player is
      in the pool. */
  function CountComparisons(player: Player, pool: seq<Player>, candidateOutperforms: bool,
                            outperforms: (Player, Player) -> bool): (n: nat)
    ensures n == |IndicesWhere(CompareRule(player, candidateOutperforms, outperforms), pool)|
    ensures n + Count(SameId(player.id), pool) <= |pool|
    ensures player in pool ==> n < |pool|
    ensures n > 0 <==> exists p :: p in pool && ComparesAgainst(player, p, candidateOutperforms, outperforms)
  {
    var rule := CompareRule(player, candidateOutperforms, outperforms);
    CountIsIndexCount(rule, pool);
    CountComparisonsSelf(player, pool, candidateOutperforms, outperforms);
    Count(rule, pool)
  }

  lemma CountComparisonsSelf(player: Player, pool: seq<Player>, candidateOutperforms: bool,
                             outperforms: (Player, Player) -> bool)
    ensures var rule := CompareRule(player, candidateOutperforms, outperforms);
            && Count(rule, pool) + Count(SameId(player.id), pool) <= |pool|
            && (player in pool ==> Count(rule, pool) < |pool|)
  {
    var rule := CompareRule(player, candidateOutperforms, outperforms);
    forall x | x in pool ensures !(rule(x) && SameId(player.id)(x)) {
      assert rule(x) ==> x.id != player.id;
    }
    CountDisjoint(rule, SameId(player.id), pool);
    assert SameId(player.id)(player);
  }

  /** Attacking effective position, defined minutes, and at least `minMinutes` when given. */
  predicate Eligible(p: Player, minMinutes: Option<int>, isAttacking: string -> bool) {
    && isAttacking(Pos(p))
    && p.minutes.Some?
    && (minMinutes.Some? ==> p.minutes.value >= minMinutes.value)
  }

  function EligibleRule(minMinutes: Option<int>, isAttacking: string -> bool): Player -> bool {
    (p: Player) => Eligible(p, minMinutes, isAttacking)
  }

  function CountRule(pool: seq<Player>, candidateOutperforms: bool, outperforms: (Player, Player) -> bool)
    : Player -> nat
  {
    (p: Player) => CountComparisons(p, pool, candidateOutperforms, outperforms)
  }

  /** Pass one over the whole list. */
  function Candidates(players: seq<Player>, candidateOutperforms: bool, minMinutes: Option<int>,
                      isAttacking: string -> bool, outperforms: (Player, Player) -> bool): seq<Candidate>
  {
    Select(players, EligibleRule(minMinutes, isAttacking),
           CountRule(players, candidateOutperforms, outperforms), MinComparisonCount)
  }

  /** Whether candidate `other` knocks `c` out of the frontier. Both directions
      use `CanBeUnderperformerAgainst`, with the roles swapped. */
  predicate Beats(other: Candidate, c: Candidate, candidateOutperforms: bool,
                  outperforms: (Player, Player) -> bool)
  {
    && other.player.id != c.player.id
    && if candidateOutperforms then
         && CanBeUnderperformerAgainst(Pos(c.player), Pos(other.player))
         && other.player.marketValue <= c.player.marketValue
         && outperforms(other.player, c.player)
       else
         && CanBeUnderperformerAgainst(Pos(other.player), Pos(c.player))
         && other.player.marketValue >= c.player.marketValue
         && outperforms(c.player, other.player)
  }

  function BeatsRule(candidateOutperforms: bool, outperforms: (Player, Player) -> bool)
    : (Candidate, Candidate) -> bool
  {
    (other: Candidate, c: Candidate) => Beats(other, c, candidateOutperforms, outperforms)
  }

  function MarketValueOf(c: Candidate): int {
    c.player.marketValue
  }

  /** Every pass-one candidate is eligible and carries its full-list count, which reaches the minimum. */
  lemma CandidatesFacts(players: seq<Player>, candidateOutperforms: bool, minMinutes: Option<int>,
                        isAttacking: string -> bool, outperforms: (Player, Player) -> bool)
    ensures forall c :: c in Candidates(players, candidateOutperforms, minMinutes, isAttacking, outperforms) ==>
              && c.player in players
              && Eligible(c.player, minMinutes, isAttacking)
              && c.count == CountComparisons(c.player, players, candidateOutperforms, outperforms)
              && c.count >= MinComparisonCount
  {
    var cands := Candidates(players, candidateOutperforms, minMinutes, isAttacking, outperforms);
    forall c | c in cands
      ensures && c.player in players
              && Eligible(c.player, minMinutes, isAttacking)
              && c.count == CountComparisons(c.player, players, candidateOutperforms, outperforms)
              && c.count >= MinComparisonCount
    {
      assert EligibleRule(minMinutes, isAttacking)(c.player);
      assert c.count == CountRule(players, candidateOutperforms, outperforms)(c.player);
    }
  }

  /** No survivor of the frontier is beaten by any candidate, in either direction. */
  lemma FrontierUnbeaten(cands: seq<Candidate>, candidateOutperforms: bool,
                         outperforms: (Player, Player) -> bool)
    ensures var frontier := FilterUndominated(cands, BeatsRule(candidateOutperforms, outperforms));
            forall c, other :: c in frontier && other in cands ==> !Beats(other, c, candidateOutperforms, outperforms)
  {
    var beats := BeatsRule(candidateOutperforms, outperforms);
    forall c, other | c in FilterUndominated(cands, beats) && other in cands
      ensures !Beats(other, c, candidateOutperforms, outperforms)
    {
      assert !beats(other, c);
    }
  }

  /** `findValueCandidates`: the undominated candidates sorted by market value. */
  function FindValueCandidates(players: seq<Player>, candidateOutperforms: bool, minMinutes: Option<int>,
                               sortAsc: bool, isAttacking: string -> bool,
                               outperforms: (Player, Player) -> bool): (r: seq<Candidate>)
    ensures forall c :: c in r ==>
              && c.player in players
              && isAttacking(Pos(c.player))
              && c.player.minutes.Some?
              && (minMinutes.Some? ==> c.player.minutes.value >= minMinutes.value)
              && c.count == CountComparisons(c.player, players, candidateOutperforms, outperforms)
              && c.count >= MinComparisonCount
    ensures var cands := Candidates(players, candidateOutperforms, minMinutes, isAttacking, outperforms);
            forall c :: c in r <==> c in cands && !Dominated(c, cands, BeatsRule(candidateOutperforms, outperforms))
    ensures var cands := Candidates(players, candidateOutperforms, minMinutes, isAttacking, outperforms);
            forall c, other :: c in r && other in cands ==> !Beats(other, c, candidateOutperforms, outperforms)
    ensures multiset(r) == multiset(FilterUndominated(Candidates(players, candidateOutperforms, minMinutes, isAttacking, outperforms),
                                                      BeatsRule(candidateOutperforms, outperforms)))
    ensures SortedBy(MarketValueOf, sortAsc, r)
    ensures |r| <= |players|
  {
    var cands := Candidates(players, candidateOutperforms, minMinutes, isAttacking, outperforms);
    var undominated := FilterUndominated(cands, BeatsRule(candidateOutperforms, outperforms));
    CandidatesFacts(players, candidateOutperforms, minMinutes, isAttacking, outperforms);
    FrontierUnbeaten(cands, candidateOutperforms, outperforms);
    SortBySameElements(MarketValueOf, sortAsc, undominated);
    SortBy(MarketValueOf, sortAsc, undominated)
  }

  /** Bargain mode: no returned player has a distinct candidate at most as
      expensive that strictly outperforms it from a position it can underperform against. */
  lemma BargainFrontier(players: seq<Player>, minMinutes: Option<int>, sortAsc: bool,
                        isAttacking: string -> bool, outperforms: (Player, Player) -> bool,
                        c: Candidate, other: Candidate)
    requires c in FindValueCandidates(players, true, minMinutes, sortAsc, isAttacking, outperforms)
    requires other in Candidates(players, true, minMinutes, isAttacking, outperforms)
    requires other.player.id != c.player.id
    ensures !(&& CanBeUnderperformerAgainst(Pos(c.player), Pos(other.player))
              && other.player.marketValue <= c.player.marketValue
              && outperforms(other.player, c.player))
  {
    assert !Beats(other, c, true, outperforms);
  }

  /** Overpriced mode: no returned player has a distinct candidate at least as
      expensive that it strictly outperforms, from a position that can underperform against it. */
  lemma OverpricedFrontier(players: seq<Player>, minMinutes: Option<int>, sortAsc: bool,
                           isAttacking: string -> bool, outperforms: (Player, Player) -> bool,
                           c: Candidate, other: Candidate)
    requires c in FindValueCandidates(players, false, minMinutes, sortAsc, isAttacking, outperforms)
    requires other in Candidates(players, false, minMinutes, isAttacking, outperforms)
    requires other.player.id != c.player.id
    ensures !(&& CanBeUnderperformerAgainst(Pos(other.player), Pos(c.player))
              && other.player.marketValue >= c.player.marketValue
              && outperforms(c.player, other.player))
  {
    assert !Beats(other, c, false, outperforms);
  }
}
