/** Per-player stats acquisition: the season rollover rule, aggregation of the
    performance feed over the current season, and assembly of the result from
    the profile page and the feed. Page and feed contents are inputs; the
    current date enters as `year` and zero-based `month`. */
module SeasonStats {
  import opened Wrappers
  import opened Players
  import opened SeqUtil
  import opened Strings

  /** The result for an empty id: zero counts, empty club and league, no flags. */
  const ZeroStats: StatsResult := StatsResult(0, 0, 0, 0, "", "", false, false)

  /** Months counted from year 0: January of `year` is `12 * year`. */
  function MonthIndex(year: int, month: int): int {
    12 * year + month
  }

  /** Season `s` runs from August of `s` to July of `s + 1`. */
  predicate InSeasonWindow(s: int, year: int, month: int) {
    MonthIndex(s, 7) <= MonthIndex(year, month) < MonthIndex(s + 1, 7)
  }

  /** The season id for a date (`month` zero-based, as `getMonth` gives it):
      the season whose August-to-July window holds the date. */
  function CurrentSeasonId(year: int, month: int): (s: int)
    requires 0 <= month < 12
    ensures InSeasonWindow(s, year, month)
    ensures s == year || s == year - 1
  {
    if month >= 7 then year else year - 1
  }

  /** A date lies in exactly one season window, so the id is that season. */
  lemma SeasonWindowUnique(s: int, year: int, month: int)
    requires 0 <= month < 12
    requires InSeasonWindow(s, year, month)
    ensures CurrentSeasonId(year, month) == s
  {
    var c := CurrentSeasonId(year, month);
    assert InSeasonWindow(c, year, month);
  }

  /** The month after `(year, month)`, December rolling into January. */
  function NextMonth(year: int, month: int): (r: (int, int))
    requires 0 <= month < 12
    ensures 0 <= r.1 < 12
    ensures MonthIndex(r.0, r.1) == MonthIndex(year, month) + 1
  {
    if month == 11 then (year + 1, 0) else (year, month + 1)
  }

  /** Moving on one month keeps the season id, except that it rises by one
      exactly when the new month is August. */
  lemma SeasonAdvances(year: int, month: int)
    requires 0 <= month < 12
    ensures var n := NextMonth(year, month);
            CurrentSeasonId(n.0, n.1) == CurrentSeasonId(year, month) + (if n.1 == 7 then 1 else 0)
  {
    var n := NextMonth(year, month);
    var s := CurrentSeasonId(year, month);
    var t := if n.1 == 7 then s + 1 else s;
    assert InSeasonWindow(t, n.0, n.1);
    SeasonWindowUnique(t, n.0, n.1);
  }

  /** One fixture of the feed; absent and null numbers are both `None`. */
  datatype Game = Game(seasonId: int, goals: Option<int>, assists: Option<int>, playedMinutes: Option<int>)

  /** Season totals of the feed. */
  datatype Totals = Totals(goals: int, assists: int, minutes: int, appearances: nat)

  function GoalsOf(g: Game): int { g.goals.GetOr(0) }
  function AssistsOf(g: Game): int { g.assists.GetOr(0) }
  function MinutesOf(g: Game): int { g.playedMinutes.GetOr(0) }

  function InSeason(season: int): Game -> bool {
    (g: Game) => g.seasonId == season
  }

  function Played(): Game -> bool {
    (g: Game) => MinutesOf(g) > 0
  }

  /** Sum of `f` over `games`, independent of any season filter. */
  function Sum(f: Game -> int, games: seq<Game>): int {
    if |games| == 0 then 0 else f(games[0]) + Sum(f, games[1..])
  }

  lemma {:induction false} SumAppend(f: Game -> int, a: seq<Game>, b: seq<Game>)
    ensures Sum(f, a + b) == Sum(f, a) + Sum(f, b)
  {
    if |a| > 0 {
      assert (a + b)[0] == a[0];
      assert (a + b)[1..] == a[1..] + b;
      SumAppend(f, a[1..], b);
      calc {
        Sum(f, a + b);
        f(a[0]) + Sum(f, a[1..] + b);
        f(a[0]) + Sum(f, a[1..]) + Sum(f, b);
      }
    } else {
      assert a + b == b;
    }
  }

  lemma FilterSnoc(p: Game -> bool, s: seq<Game>, g: Game)
    ensures Filter(p, s + [g]) == if p(g) then Filter(p, s) + [g] else Filter(p, s)
  {
    FilterAppend(p, s, [g]);
    assert Filter(p, [g]) == if p(g) then [g] else [];
  }

  lemma SumSnoc(f: Game -> int, s: seq<Game>, g: Game)
    ensures Sum(f, s + [g]) == Sum(f, s) + f(g)
  {
    SumAppend(f, s, [g]);
  }

  /** `aggregateSeasonStats`: a left fold over the feed that skips other
      seasons, adds goals, assists and minutes (missing as 0) and counts the
      fixtures with positive minutes. */
  function Aggregate(games: seq<Game>, season: int): (t: Totals)
    ensures t.appearances <= |games|
    decreases |games|
  {
    if |games| == 0 then Totals(0, 0, 0, 0)
    else
      AggregateStep(Aggregate(games[..|games| - 1], season), games[|games| - 1], season)
  }

  /** One step of the fold. */
  function AggregateStep(t: Totals, g: Game, season: int): (u: Totals)
    ensures u.appearances <= t.appearances + 1
  {
    if g.seasonId != season then t
    else
      var mins := MinutesOf(g);
      Totals(t.goals + GoalsOf(g), t.assists + AssistsOf(g), t.minutes + mins,
             if mins > 0 then t.appearances + 1 else t.appearances)
  }

  /** The four counters of the fold. */
  datatype Counter = Goals | Assists | Minutes | Appearances

  function CounterOf(t: Totals, k: Counter): int {
    match k
    case Goals => t.goals
    case Assists => t.assists
    case Minutes => t.minutes
    case Appearances => t.appearances
  }

  /** What one in-season fixture adds to counter `k`. */
  function Contribution(k: Counter): Game -> int {
    match k
    case Goals => GoalsOf
    case Assists => AssistsOf
    case Minutes => MinutesOf
    case Appearances => (g: Game) => if MinutesOf(g) > 0 then 1 else 0
  }

  /** Each counter of the fold is the sum of its contributions over the
      fixtures of the season. */
  lemma {:induction false} CounterIsSeasonSum(games: seq<Game>, season: int, k: Counter)
    ensures CounterOf(Aggregate(games, season), k) == Sum(Contribution(k), Filter(InSeason(season), games))
    decreases |games|
  {
    if |games| > 0 {
      var init := games[..|games| - 1];
      var g := games[|games| - 1];
      CounterIsSeasonSum(init, season, k);
      assert games == init + [g];
      AggregateSnoc(init, g, season);
      CounterStep(Aggregate(init, season), g, season, k);
      FilterSnoc(InSeason(season), init, g);
      if g.seasonId == season {
        SumSnoc(Contribution(k), Filter(InSeason(season), init), g);
      }
    }
  }

  /** One step of the fold adds an in-season fixture's contribution to every counter. */
  lemma CounterStep(t: Totals, g: Game, season: int, k: Counter)
    ensures CounterOf(AggregateStep(t, g, season), k)
            == CounterOf(t, k) + if g.seasonId == season then Contribution(k)(g) else 0
  {
  }

  /** Counting the fixtures with positive minutes is summing their 0/1 contributions. */
  lemma {:induction false} PlayedCountIsSum(s: seq<Game>)
    ensures Count(Played(), s) == Sum(Contribution(Appearances), s)
  {
    if |s| > 0 {
      PlayedCountIsSum(s[1..]);
    }
  }

  /** The fold's totals are the sums over the fixtures of the season, and the
      appearances are the number of those fixtures with positive minutes. */
  lemma AggregateIsSeasonSum(games: seq<Game>, season: int)
    ensures Aggregate(games, season).goals == Sum(GoalsOf, Filter(InSeason(season), games))
    ensures Aggregate(games, season).assists == Sum(AssistsOf, Filter(InSeason(season), games))
    ensures Aggregate(games, season).minutes == Sum(MinutesOf, Filter(InSeason(season), games))
    ensures Aggregate(games, season).appearances == Count(Played(), Filter(InSeason(season), games))
    ensures Aggregate(games, season).appearances <= |Filter(InSeason(season), games)|
  {
    CounterIsSeasonSum(games, season, Goals);
    CounterIsSeasonSum(games, season, Assists);
    CounterIsSeasonSum(games, season, Minutes);
    CounterIsSeasonSum(games, season, Appearances);
    PlayedCountIsSum(Filter(InSeason(season), games));
  }

  lemma AggregateSnoc(init: seq<Game>, g: Game, season: int)
    ensures Aggregate(init + [g], season) == AggregateStep(Aggregate(init, season), g, season)
  {
    assert (init + [g])[..|init|] == init;
  }

  /** Fixtures of other seasons contribute nothing, whatever their numbers. */
  lemma OtherSeasonsIgnored(games: seq<Game>, other: Game, season: int)
    requires other.seasonId != season
    ensures Aggregate(games + [other], season) == Aggregate(games, season)
  {
    AggregateSnoc(games, other, season);
  }

  /** The order of the feed does not matter: two feeds whose in-season fixtures
      agree give the same totals. */
  lemma SeasonFixturesDetermineTotals(a: seq<Game>, b: seq<Game>, season: int)
    requires Filter(InSeason(season), a) == Filter(InSeason(season), b)
    ensures Aggregate(a, season) == Aggregate(b, season)
  {
    AggregateIsSeasonSum(a, season);
    AggregateIsSeasonSum(b, season);
  }

  /** The text fields read from the profile page (before trimming). */
  datatype ProfilePage = ProfilePage(clubText: string, leagueText: string, ribbonText: string)

  /** How the performance-feed request settled: the request itself failed, the
      response was not OK, its body did not parse, or it parsed with an optional
      performance list. */
  datatype Feed = FeedRejected | FeedNotOk | FeedMalformed | FeedOk(performance: Option<seq<Game>>)

  /** `fetchPlayerMinutesRaw`: an empty id yields the zero stats without any
      fetch; a failed page or feed request, or an unparsable feed body, rejects;
      a non-OK feed yields zero counts with the page's club, league and flags;
      otherwise the season aggregates with the page's fields. `lower` is
      `toLowerCase`, left uninterpreted. */
  function FetchPlayerMinutesRaw(playerId: string, page: Outcome<ProfilePage>, feed: Feed,
                                 year: int, month: int, lower: string -> string): (r: Outcome<StatsResult>)
    requires 0 <= month < 12
    ensures playerId == "" ==> r == Ok(ZeroStats)
    ensures playerId != "" && (page.Fail? || feed.FeedRejected? || feed.FeedMalformed?) ==> r.Fail?
    ensures r.Ok? && playerId != "" ==>
              && r.value.club == Trim(page.value.clubText)
              && r.value.league == Trim(page.value.leagueText)
              && (r.value.isOnLoan <==> lower(Trim(page.value.ribbonText)) == "on loan")
              && (r.value.isNewSigning <==> lower(Trim(page.value.ribbonText)) in {"new arrival", "on loan"})
    ensures r.Ok? ==> (r.value.isOnLoan ==> r.value.isNewSigning)
    ensures playerId != "" && page.Ok? && feed.FeedNotOk? ==>
              r.Ok? && r.value.minutes == 0 && r.value.appearances == 0
              && r.value.goals == 0 && r.value.assists == 0
    ensures playerId != "" && page.Ok? && feed.FeedOk? ==>
              var t := Aggregate(feed.performance.GetOr([]), CurrentSeasonId(year, month));
              r.Ok? && r == Ok(StatsResult(t.minutes, t.appearances, t.goals, t.assists, r.value.club, r.value.league,
                                  r.value.isNewSigning, r.value.isOnLoan))
  {
    if playerId == "" then Ok(ZeroStats)
    else match page
      case Fail => Fail
      case Ok(pg) =>
        var club := Trim(pg.clubText);
        var league := Trim(pg.leagueText);
        var ribbon := lower(Trim(pg.ribbonText));
        var isOnLoan := ribbon == "on loan";
        var isNewSigning := ribbon == "new arrival" || isOnLoan;
        match feed
        case FeedRejected => Fail
        case FeedMalformed => Fail
        case FeedNotOk =>
          Ok(StatsResult(0, 0, 0, 0, club, league, isNewSigning, isOnLoan))
        case FeedOk(performance) =>
          var t := Aggregate(performance.GetOr([]), CurrentSeasonId(year, month));
          Ok(StatsResult(t.minutes, t.appearances, t.goals, t.assists, club, league, isNewSigning, isOnLoan))
  }
}
