/** The points-based underperformer endpoint: in value-descending order, an
    expensive player qualifies when some player placed after it has more points. */
module Underperformers {
  import opened Wrappers
  import opened Players
  import opened SeqUtil
  import opened Sorting

  /** Players valued below this are never candidates. */
  const MinMarketValue: int := 10_000_000
  /** At most this many players are returned. */
  const MaxResults: nat := 50

  function MarketValueOf(p: Player): int {
    p.marketValue
  }

  /** Position `i` of the value-descending list qualifies. */
  predicate QualifiesAt(sorted: seq<Player>, i: nat)
    requires i < |sorted|
  {
    && sorted[i].marketValue >= MinMarketValue
    && exists j | i < j < |sorted| :: sorted[j].points > sorted[i].points
  }

  /** The qualifying players among positions `from` onward, in order. */
  function Scan(sorted: seq<Player>, from: nat): (r: seq<Player>)
    requires from <= |sorted|
    ensures |r| <= |sorted| - from
    ensures forall x :: x in r <==> exists i :: from <= i < |sorted| && QualifiesAt(sorted, i) && sorted[i] == x
    ensures IsSubsequence(r, sorted[from..])
    decreases |sorted| - from
  {
    if from == |sorted| then []
    else
      var rest := Scan(sorted, from + 1);
      assert sorted[from..] == [sorted[from]] + sorted[from + 1..];
      if QualifiesAt(sorted, from) then
        assert ([sorted[from]] + rest)[1..] == rest;
        [sorted[from]] + rest
      else rest
  }

  /** The players in value-descending order (stable). */
  function ValueOrder(players: seq<Player>): seq<Player> {
    SortBy(MarketValueOf, false, players)
  }

  /** `findCandidates`: sort by value descending, then keep each player valued at
      least the minimum that some later player outscores. */
  function FindCandidates(players: seq<Player>): (r: seq<Player>)
    ensures forall x :: x in r ==> x in players && x.marketValue >= MinMarketValue
    ensures multiset(r) <= multiset(players)
    ensures SortedBy(MarketValueOf, false, r)
  {
    var sorted := ValueOrder(players);
    var r := Scan(sorted, 0);
    assert sorted[0..] == sorted;
    SubsequenceFacts(r, sorted);
    SortBySameElements(MarketValueOf, false, players);
    r
  }

  /** A player is a candidate exactly when it sits at a qualifying position of the value order. */
  lemma FindCandidatesIff(players: seq<Player>, x: Player)
    ensures x in FindCandidates(players) <==>
              exists i :: 0 <= i < |ValueOrder(players)| && QualifiesAt(ValueOrder(players), i)
                          && ValueOrder(players)[i] == x
  {
    assert ValueOrder(players)[0..] == ValueOrder(players);
  }

  /** A subsequence of a sorted list is sorted and a sub-multiset of it. */
  lemma SubsequenceFacts(a: seq<Player>, b: seq<Player>)
    requires IsSubsequence(a, b)
    ensures multiset(a) <= multiset(b)
    ensures SortedBy(MarketValueOf, false, b) ==> SortedBy(MarketValueOf, false, a)
  {
    SubsequenceMultiset(a, b);
    if SortedBy(MarketValueOf, false, b) {
      SubsequenceSorted(a, b);
    }
  }

  /** A subsequence of a value-descending list is value-descending. */
  lemma {:induction false} SubsequenceSorted(a: seq<Player>, b: seq<Player>)
    requires IsSubsequence(a, b) && SortedBy(MarketValueOf, false, b)
    ensures SortedBy(MarketValueOf, false, a)
    decreases |b|
  {
    if |a| > 0 {
      assert SortedBy(MarketValueOf, false, b[1..]);
      if a[0] == b[0] && IsSubsequence(a[1..], b[1..]) {
        SubsequenceSorted(a[1..], b[1..]);
        SubsequenceIn(a[1..], b[1..]);
        forall k | 0 < k < |a| ensures a[0].marketValue >= a[k].marketValue {
          assert a[k] == a[1..][k - 1];
          assert a[k] in a[1..];
          assert a[k] in b[1..];
          var m :| 0 <= m < |b[1..]| && b[1..][m] == a[k];
          assert b[m + 1] == a[k];
        }
        assert forall i, j :: 0 < i < j < |a| ==> a[i] == a[1..][i - 1] && a[j] == a[1..][j - 1];
      } else {
        SubsequenceSorted(a, b[1..]);
      }
    }
  }

  /** The last player of the value order never qualifies: nobody comes after it. */
  lemma LastNeverQualifies(sorted: seq<Player>)
    requires |sorted| > 0
    ensures !QualifiesAt(sorted, |sorted| - 1)
  {
  }

  /** The endpoint's answer. */
  datatype Response = Underperformers(list: seq<Player>) | BadRequest | ServerError

  /** The requested position type, `"cf"` when absent or empty. */
  function PositionType(param: Option<string>): string {
    if param.None? || param.value == "" then "cf" else param.value
  }

  predicate ValidPositionType(t: string) {
    t == "forward" || t == "cf" || t == "midfielder"
  }

  /** The rows whose position the type lists, in order. */
  function Kept(rows: seq<Player>, positions: seq<string>): (r: seq<Player>)
    ensures forall row :: row in r <==> row in rows && row.position in positions
  {
    Filter((p: Player) => p.position in positions, rows)
  }

  /** The kept rows converted to player stats, one for one and in order; every
      listed row's conversion is present. */
  function Convert(rows: seq<Player>, positions: seq<string>, toPlayerStats: Player -> Player)
    : (r: seq<Player>)
    ensures |r| == |Kept(rows, positions)|
    ensures forall i :: 0 <= i < |r| ==> r[i] == toPlayerStats(Kept(rows, positions)[i])
    ensures forall x :: x in r ==> exists row :: row in rows && row.position in positions && toPlayerStats(row) == x
    ensures forall row :: row in rows && row.position in positions ==> toPlayerStats(row) in r
  {
    var kept := Kept(rows, positions);
    var r := seq(|kept|, i requires 0 <= i < |kept| => toPlayerStats(kept[i]));
    assert forall i :: 0 <= i < |r| ==> kept[i] in kept;
    forall row | row in rows && row.position in positions ensures toPlayerStats(row) in r {
      var i :| 0 <= i < |kept| && kept[i] == row;
      assert r[i] == toPlayerStats(row);
    }
    r
  }

  /** The first `MaxResults` candidates: re-sorting an already value-descending
      list changes nothing, so this is a prefix of the candidates. */
  function TopResults(candidates: seq<Player>): (r: seq<Player>)
    requires SortedBy(MarketValueOf, false, candidates)
    ensures |candidates| <= MaxResults ==> r == candidates
    ensures |candidates| > MaxResults ==> r == candidates[..MaxResults]
    ensures SortedBy(MarketValueOf, false, r)
  {
    var sorted := SortBy(MarketValueOf, false, candidates);
    SortSortedIdentity(MarketValueOf, false, candidates);
    var n := if |sorted| < MaxResults then |sorted| else MaxResults;
    sorted[..n]
  }

  /** `GET`: reject an unknown position type before reading any data; otherwise
      keep the rows whose position the type lists, convert them, find the
      candidates and return at most 50 of them in value-descending order.
      `positionsOf` and `toPlayerStats` are uninterpreted. */
  function Get(positionParam: Option<string>, data: Outcome<seq<Player>>,
               positionsOf: string -> seq<string>, toPlayerStats: Player -> Player): (r: Response)
    ensures !ValidPositionType(PositionType(positionParam)) <==> r.BadRequest?
    ensures r.ServerError? <==> ValidPositionType(PositionType(positionParam)) && data.Fail?
    ensures r.Underperformers? ==>
              r.list == TopResults(FindCandidates(Convert(data.value, positionsOf(PositionType(positionParam)), toPlayerStats)))
    ensures r.Underperformers? ==>
              && |r.list| <= MaxResults
              && SortedBy(MarketValueOf, false, r.list)
              && (forall x :: x in r.list ==> x.marketValue >= MinMarketValue)
              && (forall x :: x in r.list ==>
                    exists row :: row in data.value
                      && row.position in positionsOf(PositionType(positionParam)) && toPlayerStats(row) == x)
  {
    var positionType := PositionType(positionParam);
    if !ValidPositionType(positionType) then BadRequest
    else match data
      case Fail => ServerError
      case Ok(rows) =>
        var players := Convert(rows, positionsOf(positionType), toPlayerStats);
        var cands := FindCandidates(players);
        var top := TopResults(cands);
        assert forall x :: x in top ==> x in cands;
        Underperformers(top)
  }

  /** The endpoint's list holds only players that qualify in the value order of
      the converted rows, and when there are at most `MaxResults` candidates it
      holds every one of them. */
  lemma GetListsQualifying(positionParam: Option<string>, data: Outcome<seq<Player>>,
                           positionsOf: string -> seq<string>, toPlayerStats: Player -> Player, x: Player)
    requires Get(positionParam, data, positionsOf, toPlayerStats).Underperformers?
    ensures var players := Convert(data.value, positionsOf(PositionType(positionParam)), toPlayerStats);
            var order := ValueOrder(players);
            var qualifies := exists i :: 0 <= i < |order| && QualifiesAt(order, i) && order[i] == x;
            && (x in Get(positionParam, data, positionsOf, toPlayerStats).list ==> qualifies)
            && (|FindCandidates(players)| <= MaxResults && qualifies ==>
                  x in Get(positionParam, data, positionsOf, toPlayerStats).list)
  {
    var players := Convert(data.value, positionsOf(PositionType(positionParam)), toPlayerStats);
    var cands := FindCandidates(players);
    var list := Get(positionParam, data, positionsOf, toPlayerStats).list;
    FindCandidatesIff(players, x);
    if x in list && |cands| > MaxResults {
      assert x in cands[..MaxResults];
      assert forall y :: y in cands[..MaxResults] ==> y in cands;
    }
  }
}
