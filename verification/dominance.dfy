/** The two passes shared by every dominance engine: selecting players whose
    comparison count reaches a threshold, then keeping the candidates no other
    candidate beats. */
module Dominance {
  import opened SeqUtil
  import opened Players

  /** A player annotated with how many peers it compares against. */
  datatype Candidate = Candidate(player: Player, count: nat)

  /** Pass one: every eligible player whose count reaches `minCount`, in input
      order, annotated with that count. */
  function Select(players: seq<Player>, eligible: Player -> bool, count: Player -> nat, minCount: nat)
    : (r: seq<Candidate>)
    ensures |r| <= |players|
    ensures forall c :: c in r <==>
              c.player in players && eligible(c.player) && c.count == count(c.player) && c.count >= minCount
  {
    if |players| == 0 then []
    else
      var p := players[0];
      var rest := Select(players[1..], eligible, count, minCount);
      assert players == [p] + players[1..];
      if eligible(p) && count(p) >= minCount then [Candidate(p, count(p))] + rest else rest
  }

  /** Some candidate of `pool` beats `x`. */
  predicate Dominated<T(!new)>(x: T, pool: seq<T>, beats: (T, T) -> bool) {
    exists i | 0 <= i < |pool| :: beats(pool[i], x)
  }

  /** Pass two: the candidates no candidate of the same list beats, in order. */
  function FilterUndominated<T(!new)>(cands: seq<T>, beats: (T, T) -> bool): (r: seq<T>)
    ensures IsSubsequence(r, cands)
    ensures forall x :: x in r <==> x in cands && !Dominated(x, cands, beats)
    ensures forall x, o :: x in r && o in cands ==> !beats(o, x)
  {
    FilterSubsequence(x => !Dominated(x, cands, beats), cands);
    Filter(x => !Dominated(x, cands, beats), cands)
  }

  /** Survivors are not beaten by other survivors either, so a second pass keeps them all. */
  lemma FilterUndominatedIdempotent<T(!new)>(cands: seq<T>, beats: (T, T) -> bool)
    ensures FilterUndominated(FilterUndominated(cands, beats), beats) == FilterUndominated(cands, beats)
  {
    var r := FilterUndominated(cands, beats);
    assert forall x :: x in r ==> !Dominated(x, r, beats);
    FilterAllPass(x => !Dominated(x, r, beats), r);
  }
}
