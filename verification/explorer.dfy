/** The URL-derived state the two player explorers share: the sort key and
    direction, the league, club and top-five filters, and the sorted list. The
    URL's search parameters are a `Params` value. */
module Explorer {
  import opened Wrappers
  import opened Players
  import opened SeqUtil
  import opened Sorting
  import opened SearchParams
  import opened FilterPlayers

  datatype SortKey = ByValue | ByMins | ByGames | ByGa

  /** The key's name in the `sort` parameter. */
  function SortKeyName(k: SortKey): string {
    match k
    case ByValue => "value"
    case ByMins => "mins"
    case ByGames => "games"
    case ByGa => "ga"
  }

  /** `parseSortKey`: a recognised name selects its key; anything else, an
      absent parameter included, gives the page's `fallback`. */
  function ParseSortKey(v: Option<string>, fallback: SortKey): (k: SortKey)
    ensures (exists key :: v == Some(SortKeyName(key))) ==> v == Some(SortKeyName(k))
    ensures (forall key :: v != Some(SortKeyName(key))) ==> k == fallback
  {
    if v == Some("value") then ByValue
    else if v == Some("mins") then ByMins
    else if v == Some("games") then ByGames
    else if v == Some("ga") then ByGa
    else fallback
  }

  /** Writing a key's name into `sort` and parsing it back gives the key. */
  lemma ParseSortKeyRoundTrip(k: SortKey, fallback: SortKey)
    ensures ParseSortKey(Some(SortKeyName(k)), fallback) == k
  {
  }

  /** The number a key compares: G+A is goals plus assists; missing minutes read as 0. */
  function KeyOf(k: SortKey): Player -> int {
    match k
    case ByValue => (p: Player) => p.marketValue
    case ByMins => (p: Player) => p.minutes.GetOr(0)
    case ByGames => (p: Player) => p.totalMatches
    case ByGa => (p: Player) => p.goals + p.assists
  }

  /** `a || b` on an optional string: the fallback for absent or empty. */
  function OrElse(v: Option<string>, fallback: string): (r: string)
    ensures v.Some? && v.value != "" ==> r == v.value
    ensures v.None? || v.value == "" ==> r == fallback
  {
    if v.None? || v.value == "" then fallback else v.value
  }

  /** The league, club and top-five filters read from the URL. */
  datatype Filters = Filters(league: string, club: string, top5: bool)

  /** `league` defaults to `"all"`, `club` to empty; top five only for `top5=1`. */
  function ParseFilters(ps: Params): (f: Filters)
    ensures f.league != ""
    ensures Get(ps, "league").None? || Get(ps, "league") == Some("") ==> f.league == AllLeagues
    ensures Get(ps, "league").Some? && Get(ps, "league").value != "" ==> f.league == Get(ps, "league").value
    ensures Get(ps, "club").Some? ==> f.club == Get(ps, "club").value
    ensures Get(ps, "club").None? ==> f.club == ""
    ensures f.top5 <==> Get(ps, "top5") == Some("1")
  {
    Filters(OrElse(Get(ps, "league"), AllLeagues), OrElse(Get(ps, "club"), ""), Get(ps, "top5") == Some("1"))
  }

  /** Ascending only for `dir=asc`; descending otherwise. */
  function IsAsc(ps: Params): bool {
    Get(ps, "dir") == Some("asc")
  }

  /** Player `p` passes the page's league, club and top-five filters. */
  predicate PassesFilters(p: Player, f: Filters, lower: string -> string) {
    && PassesLeagueAndClub(p, f.league, f.club, lower)
    && (f.top5 ==> p.league in Top5Leagues)
  }

  /** The league/club filter, then the top-five filter when it is on. */
  function BaseList(players: seq<Player>, f: Filters, lower: string -> string): (r: seq<Player>)
    ensures multiset(r) <= multiset(players)
    ensures forall p :: p in r <==> p in players && PassesFilters(p, f, lower)
  {
    var list := FilterByLeagueAndClub(players, f.league, f.club, lower);
    if f.top5 then FilterTop5(list) else list
  }

  /** A copy of `list` sorted by the key, descending unless `asc`; equal keys
      keep their order. */
  function SortList(list: seq<Player>, k: SortKey, asc: bool): (r: seq<Player>)
    ensures SortedBy(KeyOf(k), asc, r)
    ensures multiset(r) == multiset(list)
    ensures |r| == |list|
  {
    SortBy(KeyOf(k), asc, list)
  }

  /** Parameters other than the ones the filters read leave the filters alone. */
  lemma FiltersIgnoreOtherNames(ps: Params, k: string, v: string)
    requires k != "league" && k != "club" && k != "top5"
    ensures ParseFilters(Set(ps, k, v)) == ParseFilters(ps)
  {
    GetOtherAfterSet(ps, k, v, "league");
    GetOtherAfterSet(ps, k, v, "club");
    GetOtherAfterSet(ps, k, v, "top5");
  }
}
