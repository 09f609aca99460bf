/** The minutes-versus-value explorer: the player selected by name, the two
    comparison lists against that player, and the discovery list sorted by the
    chosen key (minutes by default). */
module MinutesValueView {
  import opened Wrappers
  import opened Players
  import opened SeqUtil
  import opened Sorting
  import opened SearchParams
  import opened FilterPlayers
  import opened Explorer

  /** The first player named exactly `name`, if any. */
  function FindByName(players: seq<Player>, name: string): (r: Option<Player>)
    ensures r.None? <==> forall i :: 0 <= i < |players| ==> players[i].name != name
    ensures r.Some? ==> exists i :: 0 <= i < |players| && players[i] == r.value
                                    && r.value.name == name
                                    && forall j :: 0 <= j < i ==> players[j].name != name
  {
    if |players| == 0 then None
    else if players[0].name == name then Some(players[0])
    else
      var r := FindByName(players[1..], name);
      assert forall i :: 0 < i < |players| ==> players[i] == players[1..][i - 1];
      r
  }

  /** The `name` parameter (empty when absent). */
  function UrlName(ps: Params): string {
    OrElse(Get(ps, "name"), "")
  }

  /** `selected`: nothing for an empty name, else the first player with exactly that name. */
  function Selected(players: seq<Player>, ps: Params): (r: Option<Player>)
    ensures UrlName(ps) == "" ==> r.None?
    ensures r.Some? ==> r.value in players && r.value.name == UrlName(ps) != ""
    ensures UrlName(ps) != "" && (exists p :: p in players && p.name == UrlName(ps)) ==> r.Some?
  {
    if UrlName(ps) == "" then None else FindByName(players, UrlName(ps))
  }

  /** Picking a player (`update({ name: p.name })`) selects a player of that
      name: `p` itself unless an earlier player shares its name. */
  lemma PickSelectsName(players: seq<Player>, ps: Params, p: Player)
    requires p in players && p.name != ""
    ensures var s := Selected(players, Set(ps, "name", p.name));
            s.Some? && s.value.name == p.name
  {
    GetAfterSet(ps, "name", p.name);
  }

  /** `q` is another player valued at least as highly as `sel`. */
  predicate Rival(q: Player, sel: Player) {
    q.id != sel.id && q.marketValue >= sel.marketValue
  }

  /** Both players have a minute count; a comparison with an absent
      (`undefined`) count is false whichever way it goes. */
  predicate BothTimed(q: Player, sel: Player) {
    q.minutes.Some? && sel.minutes.Some?
  }

  /** `q.minutes <= sel.minutes`. */
  predicate NoMoreMinutes(q: Player, sel: Player) {
    BothTimed(q, sel) && q.minutes.value <= sel.minutes.value
  }

  /** `q.minutes > sel.minutes`. */
  predicate MoreMinutes(q: Player, sel: Player) {
    BothTimed(q, sel) && q.minutes.value > sel.minutes.value
  }

  function LessRule(sel: Player): Player -> bool {
    (q: Player) => Rival(q, sel) && NoMoreMinutes(q, sel)
  }

  function MoreRule(sel: Player): Player -> bool {
    (q: Player) => Rival(q, sel) && MoreMinutes(q, sel)
  }

  /** Rivals whose minutes can be compared with the selection's. */
  function TimedRivalRule(sel: Player): Player -> bool {
    (q: Player) => Rival(q, sel) && BothTimed(q, sel)
  }

  /** `playingLess`: with no selection, nothing; else the other players valued
      at least as highly who played no more minutes, in list order. */
  function PlayingLess(players: seq<Player>, sel: Option<Player>): (r: seq<Player>)
    ensures sel.None? ==> r == []
    ensures sel.Some? ==> forall q :: q in r <==> q in players && Rival(q, sel.value) && NoMoreMinutes(q, sel.value)
    ensures IsSubsequence(r, players)
  {
    match sel
    case None => []
    case Some(s) => FilterSubsequence(LessRule(s), players); Filter(LessRule(s), players)
  }

  /** `playingMore`: with no selection, nothing; else the other players valued
      at least as highly who played more minutes, in list order. */
  function PlayingMore(players: seq<Player>, sel: Option<Player>): (r: seq<Player>)
    ensures sel.None? ==> r == []
    ensures sel.Some? ==> forall q :: q in r <==> q in players && Rival(q, sel.value) && MoreMinutes(q, sel.value)
    ensures IsSubsequence(r, players)
  {
    match sel
    case None => []
    case Some(s) => FilterSubsequence(MoreRule(s), players); Filter(MoreRule(s), players)
  }

  /** The two lists share no player and together hold exactly the rivals whose
      minutes compare with the selection's, so their lengths add up to the
      number of those rivals. A rival without minutes is in neither list, and a
      selection without minutes has both lists empty. The selected player is in
      neither. */
  lemma ComparisonPartition(players: seq<Player>, sel: Player)
    ensures var less := PlayingLess(players, Some(sel));
            var more := PlayingMore(players, Some(sel));
            && (forall q :: !(q in less && q in more))
            && (forall q :: q in less || q in more <==> q in players && Rival(q, sel) && BothTimed(q, sel))
            && |less| + |more| == Count(TimedRivalRule(sel), players)
            && (sel.minutes.None? ==> less == [] && more == [])
            && sel !in less && sel !in more
  {
    CountPartition(TimedRivalRule(sel), LessRule(sel), MoreRule(sel), players);
    if sel.minutes.None? {
      FilterNonePass(LessRule(sel), players);
      FilterNonePass(MoreRule(sel), players);
    }
  }

  datatype Tab = LessTab | MoreTab

  /** The comparison tab: `tab=more` shows the second list, anything else the first. */
  function ParseTab(v: Option<string>): (t: Tab)
    ensures t == MoreTab <==> v == Some("more")
  {
    if v == Some("more") then MoreTab else LessTab
  }

  /** `results`: the list of the current tab for the selected player. */
  function Results(players: seq<Player>, ps: Params): (r: seq<Player>)
    ensures Selected(players, ps).None? ==> r == []
    ensures Selected(players, ps).Some? ==>
              forall q :: q in r ==> q in players && Rival(q, Selected(players, ps).value)
    ensures Get(ps, "tab") == Some("more") ==> r == PlayingMore(players, Selected(players, ps))
    ensures Get(ps, "tab") != Some("more") ==> r == PlayingLess(players, Selected(players, ps))
  {
    var sel := Selected(players, ps);
    match ParseTab(Get(ps, "tab"))
    case LessTab => PlayingLess(players, sel)
    case MoreTab => PlayingMore(players, sel)
  }

  /** `sortedPlayers`: the players passing the league, club and top-five
      filters, sorted by the `sort` key (minutes when unrecognised), descending
      unless `dir=asc`. */
  function SortedPlayers(players: seq<Player>, ps: Params, lower: string -> string): (r: seq<Player>)
    ensures multiset(r) == multiset(BaseList(players, ParseFilters(ps), lower))
    ensures SortedBy(KeyOf(ParseSortKey(Get(ps, "sort"), ByMins)), IsAsc(ps), r)
    ensures forall p :: p in r <==> p in players && PassesFilters(p, ParseFilters(ps), lower)
  {
    var list := BaseList(players, ParseFilters(ps), lower);
    var r := SortList(list, ParseSortKey(Get(ps, "sort"), ByMins), IsAsc(ps));
    assert forall p :: p in r <==> p in multiset(r);
    assert forall p :: p in list <==> p in multiset(list);
    r
  }

  /** Selecting a player changes only the comparison, never the discovery list. */
  lemma SelectionKeepsDiscoveryList(players: seq<Player>, ps: Params, name: string, lower: string -> string)
    ensures SortedPlayers(players, Set(ps, "name", name), lower) == SortedPlayers(players, ps, lower)
  {
    assert "name"[0] == 'n' && "league"[0] == 'l' && "club"[0] == 'c' && "top5"[0] == 't';
    assert "sort"[0] == 's' && "dir"[0] == 'd';
    FiltersIgnoreOtherNames(ps, "name", name);
    GetOtherAfterSet(ps, "name", name, "sort");
    GetOtherAfterSet(ps, "name", name, "dir");
    SamePartsSameList(players, Set(ps, "name", name), ps, lower);
  }

  /** The discovery list depends only on the filters, the sort key and the direction. */
  lemma SamePartsSameList(players: seq<Player>, a: Params, b: Params, lower: string -> string)
    requires ParseFilters(a) == ParseFilters(b)
    requires Get(a, "sort") == Get(b, "sort") && IsAsc(a) == IsAsc(b)
    ensures SortedPlayers(players, a, lower) == SortedPlayers(players, b, lower)
  {
  }
}
