/** The analysis-ready player record and the per-player stats result that the
    acquisition pipeline produces and caches. */
module Players {
  import opened Wrappers

  /** One player with static attributes and current-season output.
      `isNewSigning`/`isOnLoan` absent in the source read as `false` here: every
      reader of those fields only tests their truthiness. */
  datatype Player = Player(
    id: string,
    name: string,
    position: string,
    playedPosition: Option<string>,
    marketValue: int,
    minutes: Option<int>,
    goals: int,
    assists: int,
    points: int,
    totalMatches: int,
    league: string,
    club: string,
    isNewSigning: bool,
    isOnLoan: bool)

  /** Current-season stats for one player id, as stored in the player cache. */
  datatype StatsResult = StatsResult(
    minutes: int,
    appearances: int,
    goals: int,
    assists: int,
    club: string,
    league: string,
    isNewSigning: bool,
    isOnLoan: bool)

  /** The ids of `players`, in order. */
  function Ids(players: seq<Player>): (r: seq<string>)
    ensures |r| == |players|
    ensures forall i :: 0 <= i < |r| ==> r[i] == players[i].id
  {
    if |players| == 0 then [] else [players[0].id] + Ids(players[1..])
  }

  /** No id occurs twice. */
  ghost predicate UniqueIds(players: seq<Player>) {
    forall i, j :: 0 <= i < j < |players| ==> players[i].id != players[j].id
  }
}
