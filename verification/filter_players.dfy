/** The league/club and top-five filters shared by the explorers. `lower` is
    `String.prototype.toLowerCase`, left uninterpreted. */
module FilterPlayers {
  import opened Players
  import opened SeqUtil
  import opened Strings

  /** League names the top-five filter accepts, exactly as written. */
  const Top5Leagues: seq<string> := ["Premier League", "LaLiga", "Bundesliga", "Serie A", "Ligue 1"]

  /** The league filter `"all"` means no league constraint. */
  const AllLeagues: string := "all"

  /** The club filter as compared: trimmed, then lower-cased. */
  function NormalizedClub(clubFilter: string, lower: string -> string): string {
    lower(Trim(clubFilter))
  }

  /** Player `p` passes the league and club filters. */
  predicate PassesLeagueAndClub(p: Player, leagueFilter: string, clubFilter: string, lower: string -> string) {
    var club := NormalizedClub(clubFilter, lower);
    && (leagueFilter == AllLeagues || p.league == leagueFilter)
    && (club == "" || Contains(lower(p.club), club))
  }

  function LeagueAndClubRule(leagueFilter: string, clubFilter: string, lower: string -> string): Player -> bool {
    (p: Player) => PassesLeagueAndClub(p, leagueFilter, clubFilter, lower)
  }

  /** `filterPlayersByLeagueAndClub`: the players, in order, in the chosen league
      (any league for `"all"`) whose lower-cased club contains the trimmed,
      lower-cased club filter (any club when that is empty). */
  function FilterByLeagueAndClub(players: seq<Player>, leagueFilter: string, clubFilter: string,
                                 lower: string -> string): (r: seq<Player>)
    ensures IsSubsequence(r, players)
    ensures multiset(r) <= multiset(players)
    ensures forall p :: p in r <==>
              (&& p in players
               && (leagueFilter == AllLeagues || p.league == leagueFilter)
               && (NormalizedClub(clubFilter, lower) == "" || Contains(lower(p.club), NormalizedClub(clubFilter, lower))))
  {
    FilterSubsequence(LeagueAndClubRule(leagueFilter, clubFilter, lower), players);
    Filter(LeagueAndClubRule(leagueFilter, clubFilter, lower), players)
  }

  /** Filtering twice by the same league and club is filtering once. */
  lemma LeagueAndClubIdempotent(players: seq<Player>, leagueFilter: string, clubFilter: string, lower: string -> string)
    ensures var once := FilterByLeagueAndClub(players, leagueFilter, clubFilter, lower);
            FilterByLeagueAndClub(once, leagueFilter, clubFilter, lower) == once
  {
    FilterIdempotent(LeagueAndClubRule(leagueFilter, clubFilter, lower), players);
  }

  /** With league `"all"` and an empty club filter nothing is removed, given
      that lower-casing the empty string gives the empty string. */
  lemma NoFilterIsIdentity(players: seq<Player>, lower: string -> string)
    requires lower("") == ""
    ensures FilterByLeagueAndClub(players, AllLeagues, "", lower) == players
  {
    assert Trim("") == "";
    FilterAllPass(LeagueAndClubRule(AllLeagues, "", lower), players);
  }

  /** A whitespace-only club filter behaves like an empty one. */
  lemma BlankClubFilterIgnored(players: seq<Player>, leagueFilter: string, clubFilter: string, lower: string -> string)
    requires lower("") == ""
    requires forall i :: 0 <= i < |clubFilter| ==> IsWhitespace(clubFilter[i])
    ensures FilterByLeagueAndClub(players, leagueFilter, clubFilter, lower)
            == FilterByLeagueAndClub(players, leagueFilter, "", lower)
  {
    TrimEmptyIffBlank(clubFilter);
    assert Trim("") == "";
    FilterEquivalent(LeagueAndClubRule(leagueFilter, clubFilter, lower), LeagueAndClubRule(leagueFilter, "", lower), players);
  }

  function Top5Rule(): Player -> bool {
    (p: Player) => p.league in Top5Leagues
  }

  /** `filterTop5`: the players, in order, whose league is one of the five names. */
  function FilterTop5(players: seq<Player>): (r: seq<Player>)
    ensures IsSubsequence(r, players)
    ensures multiset(r) <= multiset(players)
    ensures forall p :: p in r <==> p in players && p.league in Top5Leagues
  {
    FilterSubsequence(Top5Rule(), players);
    Filter(Top5Rule(), players)
  }

  /** Filtering to the top five twice is filtering once. */
  lemma Top5Idempotent(players: seq<Player>)
    ensures FilterTop5(FilterTop5(players)) == FilterTop5(players)
  {
    FilterIdempotent(Top5Rule(), players);
  }

  /** The two filters commute. */
  lemma FiltersCommute(players: seq<Player>, leagueFilter: string, clubFilter: string, lower: string -> string)
    ensures FilterTop5(FilterByLeagueAndClub(players, leagueFilter, clubFilter, lower))
            == FilterByLeagueAndClub(FilterTop5(players), leagueFilter, clubFilter, lower)
  {
    FilterCommute(Top5Rule(), LeagueAndClubRule(leagueFilter, clubFilter, lower), players);
  }

  lemma {:induction false} FilterCommute(f: Player -> bool, g: Player -> bool, s: seq<Player>)
    ensures Filter(f, Filter(g, s)) == Filter(g, Filter(f, s))
  {
    if |s| > 0 {
      FilterCommute(f, g, s[1..]);
      var x := s[0];
      var fs := Filter(f, s[1..]);
      var gs := Filter(g, s[1..]);
      if f(x) {
        assert ([x] + fs)[1..] == fs;
      }
      if g(x) {
        assert ([x] + gs)[1..] == gs;
      }
    }
  }
}
