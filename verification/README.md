# squadstat core, modelled in Dafny

squadstat is a football-statistics site. It reads player data (market values,
minutes, goals, assists, positions) and derives curated views from it:

- **value analysis**: bargains and overpriced players, from pairwise "outperforms" comparisons;
- **overperformers** and **underperformers**;
- **player form**: one player against those valued more highly;
- **two player explorers**, whose state lives in URL search parameters;
- **discovery presets**: curated links to those explorers;
- **a sitemap**.

An offline script refreshes the minutes of every player in batches. Two API
routes fetch minutes and form on demand.

This project models that core as pure Dafny functions and a few methods. It
proves what the code promises. One module corresponds to each source file:

- `Positions`: position classes and ranks, and the two "can be compared against" rules.
- `Dominance`, `ValueAnalysis`, `Overperformers`, `Underperformers`:
  - candidate selection by comparison count;
  - the undominated frontier;
  - the market-value sort.
- `SeasonStats`:
  - the season rollover;
  - aggregation of the performance feed;
  - assembly of the per-player stats result.
- `Refresh`: the offline refresh script. It merges the scorers, fetches in batches of ten with a checkpoint after each batch, then merges the cache.
- `MinutesBatch`, `PlayerForm`: the two API routes that fetch on demand.
- `FilterPlayers`: the league, club and top-five filters.
- `SearchParams`, `QueryParams`: URL search parameters, and the `buildUrl` update rule.
- `Explorer`, `PlayersView`, `MinutesValueView`: the URL-derived state of the two explorers.
- `QueryStrings`, `DiscoveryPresets`, `Sitemap`:
  - the preset catalogue;
  - the canonical query string;
  - the sitemap entries.
- `Format`: the expected-return label of an injured player.
- `SiteConfig`: the site URL normalisation.

Shared modules provide building blocks:

- `Wrappers`: `Option`, and `Outcome`, which is a settled promise;
- `SeqUtil`: filter, subsequence, dedup, batch counting and counting;
- `Sorting`: a stable insertion sort by an integer key, standing in for the stable `Array.prototype.sort`;
- `Strings`: JS `trim`, decimal rendering, and code-point string order;
- `Players`: the player record and the stats result.

Several things become parameters:

- Helpers whose code is not part of this model: `strictlyOutperforms`, `isAttackingPosition`, `POSITION_MAP`, `toPlayerStats`, `normalizeForSearch`, `toLowerCase`, the `URLSearchParams` value encoder, and `absoluteUrl`.
- Each network fetch becomes an outcome, `Ok(value)` or `Fail`, indexed by the order in which the fetch is issued.
- The current date becomes numbers: a year and a zero-based month (0 to 11, as `getMonth` returns it), or a day count.

## Model

| member | source | states |
|---|---|---|
| Positions.Rank | lib/positions.ts:3-17 | Every rank lies in 1..5. A position missing from the class table ranks 1. |
| Positions.DefensiveRanksLowest | lib/positions.ts:18-34 | Every defensive position is outside the class table, so it has class "other" and rank 1. |
| Positions.RulesDifferOnlyForDefenders | lib/positions.ts:36-45 | Whenever a candidate may underperform a target, the target may outperform the candidate. The reverse fails only for a defensive candidate against a non-defensive target of rank 1. |
| Positions.Reflexive | lib/positions.ts:36-45 | Every position can both underperform and outperform itself. |
| Positions.AtLeastOneHolds | lib/positions.ts:36-45 | For any two positions, at least one of the two comparison rules holds. |
| Positions.Asymmetry | lib/positions.ts:36-45 | Concrete pairs show the two rules are not converses. A centre-back may outperform a centre-forward, but cannot underperform one. |
| Dominance.Select | lib/value-analysis.ts:52-60 | A player is selected exactly when it is eligible and its comparison count reaches the minimum. The count carried along is that count. |
| Dominance.FilterUndominated | lib/value-analysis.ts:62-73 | The result is an order-preserving subsequence. It keeps exactly the candidates no other candidate beats, so nothing in the pool beats a kept candidate. |
| Dominance.FilterUndominatedIdempotent | lib/value-analysis.ts:62-73 | Taking the undominated frontier twice equals taking it once. |
| ValueAnalysis.Pos | lib/value-analysis.ts:12-14 | The played position is used when present and non-empty. Otherwise the listed position is used. |
| ValueAnalysis.CountComparisons | lib/value-analysis.ts:19-35 | The count is the number of pool entries the player compares against. Entries with the player's own id never count, so a player in the pool counts fewer than the pool size. The count is positive exactly when some comparable entry exists. |
| ValueAnalysis.CountComparisonsSelf | lib/value-analysis.ts:19-35 | Entries with the player's own id never count, whatever the comparison says. |
| ValueAnalysis.CandidatesFacts | lib/value-analysis.ts:42-60 | Every candidate comes from the input list, is eligible, and reaches at least three comparisons. |
| ValueAnalysis.FrontierUnbeaten | lib/value-analysis.ts:62-73 | No candidate beats a member of the frontier. |
| ValueAnalysis.FindValueCandidates | lib/value-analysis.ts:42-76 | Results are eligible candidates with at least three comparisons. The result has the same multiset as the undominated frontier, sorted by market value in the requested direction. |
| ValueAnalysis.BargainFrontier | lib/value-analysis.ts:62-73 | No bargain has another candidate, from a position it can underperform against, that costs no more and strictly outperforms it. |
| ValueAnalysis.OverpricedFrontier | lib/value-analysis.ts:62-73 | No overpriced player has another candidate at least as expensive that it strictly outperforms, from a position that can underperform against it. |
| Overperformers.OutperformsCount | app/api/overperformers/route.ts:15-20 | The count is the number of pool entries the player outperforms, and never more than the pool size. |
| Overperformers.FindCandidates | app/api/overperformers/route.ts:8-28 | A candidate is a non-excluded player that outperforms at least two others, carried with that count. |
| Overperformers.CandidatesNeverExcluded | app/api/overperformers/route.ts:12-13 | Candidates are never defensive, never central midfielders, and always have minutes. |
| Overperformers.CandidateHasTwoVictims | app/api/overperformers/route.ts:15-22 | Every candidate outperforms two distinct entries of the list. |
| Overperformers.FilterUndominatedCandidates | app/api/overperformers/route.ts:30-40 | The result is a subsequence. No candidate beats a kept one, and every undominated candidate is kept. |
| Overperformers.FilterUndominatedIdempotent | app/api/overperformers/route.ts:30-40 | Filtering twice equals filtering once. |
| Overperformers.Get | app/api/overperformers/route.ts:42-52 | A failed load is a server error. Otherwise the list is a permutation of the undominated candidates, sorted by ascending market value. |
| Underperformers.Scan | app/api/underperformers/route.ts:12-27 | The scan keeps, in order, exactly the players worth at least ten million that have a player later in the value order with more points. |
| Underperformers.FindCandidates | app/api/underperformers/route.ts:12-27 | Candidates come from the input, are worth at least ten million, and are sorted by descending value. |
| Underperformers.FindCandidatesIff | app/api/underperformers/route.ts:12-27 | A player is a candidate exactly when it qualifies at some position of the value order. |
| Underperformers.LastNeverQualifies | app/api/underperformers/route.ts:16-24 | The last player of the value order never qualifies, because nobody comes after it. |
| Underperformers.Convert | app/api/underperformers/route.ts:39-42 | The i-th entry is the conversion of the i-th row whose position the type lists. Every listed row is converted, and nothing else is. |
| Underperformers.TopResults | app/api/underperformers/route.ts:45 | Re-sorting the value-descending candidates changes nothing, so the result is the whole list when it has at most fifty entries, and its first fifty otherwise. |
| Underperformers.Get | app/api/underperformers/route.ts:29-51 | An unknown position type is a bad request. A failed load is a server error. Otherwise the list is the first fifty candidates found among the converted rows of the requested positions. Each is worth at least ten million, and the list is sorted by descending value. |
| Underperformers.GetListsQualifying | app/api/underperformers/route.ts:12-51 | Every listed player qualifies in the value order of the converted rows. When there are at most fifty candidates, every qualifying player is listed. |
| Sorting.SortSortedIdentity | app/api/underperformers/route.ts:45 | Sorting a list that is already in order returns it unchanged. |
| Sorting.SortByStable | app/api/underperformers/route.ts:13 | The sort is stable: the players sharing any one key keep their input order. |
| SeasonStats.CurrentSeasonId | lib/fetch-player-minutes.ts:23-28 | The season id is the season whose August-to-July window contains the date. It is the current year or the year before. |
| SeasonStats.SeasonWindowUnique | lib/fetch-player-minutes.ts:23-28 | A date lies in exactly one season window, so any season whose window holds the date is the id. |
| SeasonStats.SeasonAdvances | lib/fetch-player-minutes.ts:23-28 | From one month to the next the id stays the same, except that it rises by one exactly when the new month is August. |
| SeasonStats.AggregateIsSeasonSum | lib/fetch-player-minutes.ts:38-52 | Goals, assists and minutes are the sums over the fixtures of the season, with missing values read as zero. Appearances count those fixtures with positive minutes. |
| SeasonStats.CounterIsSeasonSum | lib/fetch-player-minutes.ts:38-52 | Each counter of the fold is the sum of its per-fixture contributions over the season's fixtures. |
| SeasonStats.OtherSeasonsIgnored | lib/fetch-player-minutes.ts:42 | A fixture of another season leaves the totals unchanged. |
| SeasonStats.SeasonFixturesDetermineTotals | lib/fetch-player-minutes.ts:38-52 | Two feeds with the same in-season fixtures give the same totals. |
| SeasonStats.FetchPlayerMinutesRaw | lib/fetch-player-minutes.ts:55-85 | An empty id gives the zero stats. A failed page, a failed feed request or an unparsable feed rejects. A non-OK feed gives zero counts. Otherwise the result holds the season totals with the page's trimmed club and league. The loan flag is set for "on loan" and implies the new-signing flag. |
| Refresh.MergeScorers | scripts/refresh-minutes-value.ts:27-35 | The market-value list is a prefix of the result, and the result grows by at most the number of scorers. |
| Refresh.MergeScorersFacts | scripts/refresh-minutes-value.ts:27-35 | Only scorers with an id not yet present are appended. Ids stay unique. The result is the market-value list followed by the front-to-back reference `FreshFirst`. |
| Refresh.MergeScorersIsFreshFirst | scripts/refresh-minutes-value.ts:27-35 | The merge equals the market-value list followed by the new scorers, read front to back with a growing set of seen ids. |
| Refresh.FreshFirstFacts | scripts/refresh-minutes-value.ts:29-35 | The appended scorers keep their scorer order. Each is the first scorer with its id, and that id was not in the list. Every scorer's id ends up present, and no appended id repeats. |
| Refresh.MergeKnownScorers | scripts/refresh-minutes-value.ts:27-35 | Scorers already in the list add nothing. |
| Refresh.CacheOfKeys | scripts/refresh-minutes-value.ts:42-51 | An id is cached exactly when one of its fetches was fulfilled. |
| Refresh.CacheOfValue | scripts/refresh-minutes-value.ts:47-51 | A cached value is the result of the last fulfilled fetch of that id: every later fetch of the id failed. |
| Refresh.BatchCount | scripts/refresh-minutes-value.ts:42-52 | n players take ceil(n / 10) batches. |
| Refresh.RecordBatch | scripts/refresh-minutes-value.ts:46-51 | Recording a batch extends the cache fold by exactly that batch's outcomes. |
| Refresh.RunBatches | scripts/refresh-minutes-value.ts:42-58 | The final cache records every fulfilled fetch. Checkpoints and 2000 ms pauses alternate, with no pause after the last batch. Each checkpoint holds the cache as of the end of its batch. |
| Refresh.TraceEndsWithSave | scripts/refresh-minutes-value.ts:42-58 | In a run's trace, checkpoints and pauses alternate and the last effect is a checkpoint: no pause follows the final batch. |
| Refresh.LastSnapshotIsFullCache | scripts/refresh-minutes-value.ts:42-58 | In any run trace, the last effect is a checkpoint of the complete cache, holding every fulfilled fetch. |
| Refresh.MergeEntry | scripts/refresh-minutes-value.ts:61-76 | Minutes, goals, assists and the new-signing flag come from the cache entry. Appearances, club and league come from it only when non-zero or non-empty. Every other field is kept. |
| Refresh.MergeEntryIdempotent | scripts/refresh-minutes-value.ts:61-76 | Applying an entry twice equals applying it once. |
| Refresh.MergeCache | scripts/refresh-minutes-value.ts:61-76 | The merge keeps length, ids and loan flags. Players without an entry are unchanged, and players with one take it. |
| Refresh.MergeCacheIdempotent | scripts/refresh-minutes-value.ts:61-76 | Merging the same cache twice equals merging it once. |
| Refresh.Run | scripts/refresh-minutes-value.ts:27-81 | The output is the scorer-merged list with the cache of its batched fetches merged in. The effect trace has one checkpoint per batch, each holding the cache as of the end of its batch, with 2000 ms pauses between checkpoints. |
| MinutesBatch.MinutesOf | app/api/player-minutes/batch/route.ts:11-21 | The result has exactly one key per requested id. |
| MinutesBatch.LastOccurrenceWins | app/api/player-minutes/batch/route.ts:11-21 | The value under an id is the outcome of that id's last request: the fetched value, or the fallback when the fetch failed. |
| MinutesBatch.FetchAll | app/api/player-minutes/batch/route.ts:11-21 | Batches of fifty record the same map as one left-to-right pass. |
| MinutesBatch.Post | app/api/player-minutes/batch/route.ts:4-27 | A body that does not parse is a server error. A non-array `playerIds` is a bad request. Otherwise the answer maps every requested id to its fetched value or the fallback. |
| PlayerForm.FindPlayerByName | app/api/player-form/route.ts:23-26 | The result is none exactly when no normalised name contains the normalised search. Otherwise it is the first player whose name does. |
| PlayerForm.FindUnderperformers | app/api/player-form/route.ts:28-35 | The result keeps, in order, the players with another name, a market value at least the target's, and strictly fewer points. |
| PlayerForm.TargetNotUnderperformer | app/api/player-form/route.ts:28-35 | The target is never among its own underperformers. |
| PlayerForm.Enriched | app/api/player-form/route.ts:63-74 | A fulfilled fetch replaces only the minutes. A failed one changes nothing. |
| PlayerForm.EnrichedIdempotent | app/api/player-form/route.ts:63-74 | Enriching twice with the same outcome equals enriching once. |
| PlayerForm.EnrichTargetFirst | app/api/player-form/route.ts:63-74 | The target is enriched with the first fetch, and the i-th underperformer with fetch i + 1. |
| PlayerForm.EnrichAll | app/api/player-form/route.ts:63-74 | Batches of twenty-five give the same result as enriching each player with its own fetch. |
| PlayerForm.Get | app/api/player-form/route.ts:39-85 | A missing or empty name is a bad request. A failed scorer load is a server error. An unmatched name is not found, with the searched name echoed. Otherwise the response holds the target and its enriched underperformers. No fetch is issued unless a form is returned. |
| FilterPlayers.FilterByLeagueAndClub | lib/filter-players.ts:3-14 | The result is a subsequence. A player passes exactly when the league filter is "all" or equals its league, and its lowered club contains the trimmed, lowered club filter. |
| FilterPlayers.LeagueAndClubIdempotent | lib/filter-players.ts:3-14 | Filtering twice equals filtering once. |
| FilterPlayers.NoFilterIsIdentity | lib/filter-players.ts:3-14 | League "all" with an empty club keeps every player. |
| FilterPlayers.BlankClubFilterIgnored | lib/filter-players.ts:8-11 | A club filter that trims to empty is ignored. |
| FilterPlayers.FilterTop5 | lib/filter-players.ts:16-18 | The result keeps, in order, exactly the players of the five listed leagues. |
| FilterPlayers.Top5Idempotent | lib/filter-players.ts:16-18 | Filtering twice equals filtering once. |
| FilterPlayers.FiltersCommute | lib/filter-players.ts:3-18 | The top-five filter and the league/club filter commute. |
| SiteConfig.StripTrailingSlashes | lib/site-config.ts:13 | The result is a prefix of the input followed only by slashes, and does not end with a slash. |
| SiteConfig.WithProtocol | lib/site-config.ts:9-11 | The result starts with a protocol. A string that already has `http://` or `https://` is kept. Any other string gets `https://` in front. |
| SiteConfig.NormalizeSiteUrl | lib/site-config.ts:3-14 | Absent or blank input gives the default site URL. Otherwise the result is the trimmed input with the protocol added and trailing slashes removed. The result never ends with a slash. |
| SiteConfig.BlankGivesDefault | lib/site-config.ts:4-7 | Whitespace-only input gives the default URL. |
| SiteConfig.CanonicalUrlUnchanged | lib/site-config.ts:3-14 | A trimmed URL with a protocol and no trailing slash is returned unchanged. |
| SearchParams.Delete | lib/hooks/use-query-params.ts:13 | After `delete(k)`, k has no values. Every other name keeps its values. |
| SearchParams.DeleteIsFilter | lib/hooks/use-query-params.ts:13 | `delete(k)` keeps exactly the pairs of other names, in their order. |
| SearchParams.Set | lib/hooks/use-query-params.ts:14 | After `set(k, v)`, k's only value is v. The pair takes the place of the first pair named k, or goes last when there is none. Later pairs named k are dropped, and the pairs of other names keep their order. |
| SearchParams.ReplaceFirstSplits | lib/hooks/use-query-params.ts:14 | `set(k, v)` on a name already present splits the pairs at the first pair named k. The pairs before it stay as they were, the new pair takes its place, and after it only the pairs of other names follow, in order. |
| SearchParams.ReplaceKeepsOthers | lib/hooks/use-query-params.ts:14 | Replacing the first pair named k leaves the pairs of other names exactly as they were. |
| SearchParams.GetAfterSet | lib/hooks/use-query-params.ts:14 | `get(k)` after `set(k, v)` is v. |
| SearchParams.GetOtherAfterSet | lib/hooks/use-query-params.ts:14 | `set(k, v)` leaves `get` of every other name unchanged. |
| SearchParams.Href | lib/hooks/use-query-params.ts:18-19 | An empty query gives the bare path. Otherwise the result is the path, a `?`, and the query. |
| QueryParams.ApplyOne | lib/hooks/use-query-params.ts:12-16 | A null or empty update removes the name and only drops pairs. Any other update sets it to that one value, in the place of the first pair of that name, or last. The pairs of other names keep their values and their order. |
| QueryParams.UntouchedKept | lib/hooks/use-query-params.ts:12-16 | Names not mentioned in the updates keep their values. |
| QueryParams.UpdatedNamesSet | lib/hooks/use-query-params.ts:12-16 | With distinct update names, each updated name ends removed or set to exactly its value. |
| QueryParams.BuildUrl | lib/hooks/use-query-params.ts:10-21 | With no parameters left the URL is the base path. Otherwise it is the base path, a `?`, and the serialised parameters. |
| QueryParams.RemovingLastParameter | lib/hooks/use-query-params.ts:10-21 | Removing the only parameter gives the bare base path. |
| Explorer.ParseSortKey | app/players/PlayersUI.tsx:163-166 | A recognised name selects its key. Anything else, absence included, gives the page's default (goals plus assists here, minutes on the minutes-value page). |
| Explorer.ParseSortKeyRoundTrip | app/players/PlayersUI.tsx:163-166 | Parsing a key's name gives the key back. |
| Explorer.ParseFilters | app/players/PlayersUI.tsx:203-208 | The league is the parameter when that is non-empty, and "all" when it is absent or empty. The club is the parameter, or empty when absent. The top-five filter is on exactly for `top5=1`. |
| Explorer.BaseList | app/players/PlayersUI.tsx:226-229 | A player is listed exactly when it passes the league, club and top-five filters. The list is a sub-multiset of the input. |
| Explorer.FiltersIgnoreOtherNames | app/players/PlayersUI.tsx:203-208 | Setting any other parameter leaves the filters unchanged. |
| PlayersView.ParseSigningFilter | app/players/PlayersUI.tsx:168-171 | `transfer` and `loan` select their filter. Anything else selects none. |
| PlayersView.ParseSigningRoundTrip | app/players/PlayersUI.tsx:168-171 | Parsing a filter's name gives the filter back. |
| PlayersView.Listed | app/players/PlayersUI.tsx:225-229 | A player is listed exactly when it passes the page filters and the signing filter. |
| PlayersView.SortedPlayers | app/players/PlayersUI.tsx:225-240 | The result is a permutation of the listed players, sorted by the chosen key (goals plus assists by default), descending unless `dir=asc`. Transfer mode shows only new signings; loan mode shows only loans. |
| PlayersView.SigningCountsOf | app/players/PlayersUI.tsx:215-223 | The counts are the numbers of new signings and of loans among the players passing the page filters. |
| PlayersView.CountsIgnoreSigningFilter | app/players/PlayersUI.tsx:215-223 | Choosing a signing filter never changes the counts. |
| PlayersView.CountMatchesFilteredList | app/players/PlayersUI.tsx:215-240 | The count on the active signing button equals the length of the list shown. |
| PlayersView.LoansAmongNewSignings | app/players/PlayersUI.tsx:215-223 | When every loan is a new signing, the loan count never exceeds the new-signing count. |
| MinutesValueView.FindByName | app/minutes-value/MinutesValueUI.tsx:339-342 | The result is none exactly when no player has the name. Otherwise it is the first player that does. |
| MinutesValueView.Selected | app/minutes-value/MinutesValueUI.tsx:326-342 | An empty name selects nothing. A selection is a listed player with that name. A name that some player has always selects. |
| MinutesValueView.PickSelectsName | app/minutes-value/MinutesValueUI.tsx:344-346 | Picking a player selects a player of that name. |
| MinutesValueView.PlayingLess | app/minutes-value/MinutesValueUI.tsx:353-358 | With a selection, the result keeps, in order, exactly the other players worth at least as much with no more minutes. A player with no minute count, or a selection without one, never qualifies. |
| MinutesValueView.PlayingMore | app/minutes-value/MinutesValueUI.tsx:360-365 | With a selection, the result keeps, in order, exactly the other players worth at least as much with more minutes. A player with no minute count, or a selection without one, never qualifies. |
| MinutesValueView.ComparisonPartition | app/minutes-value/MinutesValueUI.tsx:353-365 | The two lists are disjoint. Together they hold exactly the rivals whose minutes compare with the selection's, so their lengths add up to that count. A rival without minutes is in neither list. A selection without minutes leaves both lists empty, and the selected player is in neither. |
| MinutesValueView.ParseTab | app/minutes-value/MinutesValueUI.tsx:329 | The second tab shows exactly for `tab=more`. |
| MinutesValueView.Results | app/minutes-value/MinutesValueUI.tsx:367 | With no selection the result is empty. Otherwise it is the list of the chosen tab, made only of rivals. |
| MinutesValueView.SortedPlayers | app/minutes-value/MinutesValueUI.tsx:376-389 | The result is a permutation of the filtered players, sorted by the chosen key (minutes by default). |
| MinutesValueView.SelectionKeepsDiscoveryList | app/minutes-value/MinutesValueUI.tsx:344-389 | Selecting a player never changes the sorted list. |
| DiscoveryPresets.CatalogSize | lib/discovery-presets.ts:27-231 | The catalogue has twenty presets. |
| DiscoveryPresets.CatalogSlugsDistinct | lib/discovery-presets.ts:27-231 | Preset slugs are distinct. |
| DiscoveryPresets.GroupsWellFormed | lib/discovery-presets.ts:27-231 | Each group lies in its own section and links to that section's page. Its query keys are distinct. |
| DiscoveryPresets.CatalogWellFormed | lib/discovery-presets.ts:27-231 | Every preset links to its section's page, and its query keys are distinct. |
| DiscoveryPresets.BySection | lib/discovery-presets.ts:233-235 | The result keeps, in catalogue order, exactly the presets of the section. |
| DiscoveryPresets.BySectionIsGroup | lib/discovery-presets.ts:27-235 | Each section's presets are exactly its group, in order. |
| DiscoveryPresets.CatalogGroupedBySection | lib/discovery-presets.ts:20-235 | Concatenating the sections in display order gives back the whole catalogue. |
| DiscoveryPresets.TargetHref | lib/discovery-presets.ts:250-253 | The link is the source path, followed by `?` and the canonical query string when that string is non-empty. |
| DiscoveryPresets.EmptyQueryLinksToPage | lib/discovery-presets.ts:237-253 | A preset whose query values are all empty links to its bare page. |
| QueryStrings.ToQueryString | lib/discovery-presets.ts:237-248 | The query string serialises the non-empty entries, keys in sorted order. |
| QueryStrings.QueryStringPairs | lib/discovery-presets.ts:237-248 | The serialised keys are strictly sorted. A pair is serialised exactly when it is in the query with a non-empty value. |
| QueryStrings.QueryStringOrderIndependent | lib/discovery-presets.ts:237-248 | Two queries with the same entries in any order give the same string. |
| QueryStrings.SetEachAppends | lib/discovery-presets.ts:239-246 | Setting distinct fresh keys one by one appends exactly the non-empty pairs. |
| Sitemap.CorePriority | app/sitemap.ts:24 | The root has priority 1.0, `/discover` 0.9, and the other core routes 0.8, all above the curated 0.7. |
| Sitemap.CuratedPaths | app/sitemap.ts:18-27 | The curated paths are distinct. They are exactly the preset links that are not core routes, in order of first appearance. |
| Sitemap.SitemapEntries | app/sitemap.ts:20-35 | The core routes come first, in order, with their priorities. The curated paths follow, each with priority 0.7. |
| Sitemap.EntryCount | app/sitemap.ts:18-35 | The sitemap has seven entries plus one per distinct non-core preset link. |
| Sitemap.AllLeaguesPresetNotCurated | lib/discovery-presets.ts:201-209 | The all-leagues team-form preset links to `/team-form`, a core route, so it adds no curated entry. |
| Format.MonthName | lib/format.ts:3-13 | Months 1..12 give their three-letter name. Any other month renders as "undefined". |
| Format.JoinSplit | lib/format.ts:7 | Joining the pieces of a split gives the string back. |
| Format.SplitJoin | lib/format.ts:7 | Splitting a join of separator-free pieces gives the pieces back. |
| Format.ToNumberRoundTrip | lib/format.ts:7 | A rendered number reads back as itself. |
| Format.ParseDate | lib/format.ts:6-8 | A date parses exactly when the string is non-empty and its first three `/`-parts are positive numbers. The result is those three numbers, in order. |
| Format.ParseDateRoundTrip | lib/format.ts:6-8 | `d/m/y` with positive parts parses back to (d, m, y). |
| Format.Weeks | lib/format.ts:16 | For positive days, the week count is the least w with days ≤ 7w. |
| Format.FormatReturnInfo | lib/format.ts:5-18 | There is a label exactly when the date parses. The return is imminent exactly up to fourteen days. The label is the date when the day is today or past, or beyond sixty days. It is `{days}d` up to two weeks, and `~{weeks}w` (3 to 9 weeks) up to sixty days. |

## Left out

- The repository describes the refresh as merging with the existing cache file. The script builds a fresh empty cache (scripts/refresh-minutes-value.ts:38), and the model follows the script.
- The value-analysis threshold is three comparisons (lib/value-analysis.ts:16). The overperformer threshold is two (app/api/overperformers/route.ts:22). The model keeps both.
- `TOP_5_LEAGUES` spells "LaLiga", while a team-form preset uses "La Liga". The model keeps both spellings as written.
- Network requests, page scraping (cheerio), JSON parsing, file reads and writes, and `setTimeout` delays are left out. Fetches are `Outcome` inputs. File saves and delays are recorded as effects in a trace.
- `Promise.allSettled` runs each batch concurrently. The model records the settled outcomes left to right, which is the order the code writes them in.
- Floating point is left out. Market values, minutes and counts are integers. Sitemap priorities are in tenths (10, 9, 8, 7 for 1.0, 0.9, 0.8, 0.7).
- Sitemap `lastModified` and `changeFrequency` come from the clock and a constant, so they are left out.
- The following helpers are parameters, because their code is not part of this model:
  - `strictlyOutperforms` and `isAttackingPosition`;
  - `POSITION_MAP` (positionsOf) and `toPlayerStats`;
  - `normalizeForSearch` and `toLowerCase`;
  - the `URLSearchParams` value encoder;
  - `absoluteUrl`, which needs `new URL`.
- Unicode case folding and NFD normalisation are part of those helpers and are not modelled.
- Strings compare by code point, while JavaScript compares UTF-16 code units. The two orders differ only for characters outside the Basic Multilingual Plane.
- Format.ToNumber: only reads surrounding whitespace, blank strings and decimal digit runs. It reads as NaN several forms that `Number` accepts: decimals, exponents, signs, `Infinity`, and hex (`0x`), binary (`0b`) and octal (`0o`) literals. So a date such as `Infinity/1/2025` gets a label in the source but none in the model. No date string of the form `d/m/y` with plain numbers is affected.
- Format.FormatReturnInfo: the day count until the date is an input. The `new Date` arithmetic and local-midnight rounding are left out, and so is day/month overflow normalisation.
- `Object.keys` enumerates integer-like keys first. The preset queries have no such keys, so insertion order is modelled as given.
- The URL state of a page is the `Params` value the code reads. Re-parsing a URL the page itself wrote is assumed to give back the same parameters.
- `window.history.pushState` and `router.push` are navigation effects and are left out. `buildUrl` is modelled.
- `getSiteUrl`, `getSiteOrigin` and `absoluteUrl` read the environment, so only `normalizeSiteUrl` is modelled.
- The explorers' league option lists, debounced inputs and the rest of the rendering are presentation and are left out.
- The `name` search in the minutes-value page matches names exactly. The player-form route uses the normaliser and a substring match. Both behaviours are modelled as written.
- Explorer.KeyOf: reads a missing minute count as 0. In the source, `b.minutes - a.minutes` is NaN when either count is undefined, and the sort then treats the pair as a tie. That comparator is inconsistent, so the position of such players is left to the engine. The model fixes one consistent order instead.
- PlayersView.SortedPlayers: sorted by `Explorer.KeyOf`, so under the minutes key players without a minute count sort as if they had 0 (see the line above).
- MinutesValueView.SortedPlayers: sorted by `Explorer.KeyOf`, so under the minutes key players without a minute count sort as if they had 0 (see the line above).
- A missing minute count is the absent field, which is `undefined` in the source. A JSON `null` would compare as 0 there. The model does not tell the two apart.
- The player-form response shares player objects with the loaded list, and the enrichment mutates them. Object aliasing is not modelled: enrichment produces new values.
- The batch route writes the fetched value or 0 per id. The model takes the value type and the fallback as parameters.
- Preset titles, navigation labels and descriptions are display text. They are left out of the `Preset` record, which keeps the slug, section, source path and query.
- The `{ label, imminent }` field `label` is named `text`, because `label` is a reserved word in Dafny.
