/** The discovery preset catalog, its per-section view, and the
    construction of a preset's target link: query keys in sorted order,
    empty values left out, `?` only when a query remains. */
module DiscoveryPresets {
  import opened SeqUtil
  import opened Strings
  import opened SearchParams
  import opened QueryStrings

  datatype Section = PlayersSection | ValueAnalysisSection | InjuredSection | TeamFormSection

  /** The section's identifier as it appears in URLs. */
  function SectionName(s: Section): string {
    match s
    case PlayersSection => "players"
    case ValueAnalysisSection => "value-analysis"
    case InjuredSection => "injured"
    case TeamFormSection => "team-form"
  }

  /** The section's display label. */
  function SectionLabel(s: Section): string {
    match s
    case PlayersSection => "Player Explorer"
    case ValueAnalysisSection => "Value Analysis"
    case InjuredSection => "Injury Impact"
    case TeamFormSection => "Team Value vs Table"
  }

  /** The order in which sections are listed. */
  const SectionOrder: seq<Section> := [PlayersSection, ValueAnalysisSection, InjuredSection, TeamFormSection]

  /** A preset: a named link into one explorer page with a fixed query.
      `query` lists the query object's entries in their written order. */
  datatype Preset = Preset(
    slug: string,
    section: Section,
    sourcePath: string,
    query: Params)

  /** The player explorer presets. */
  const PlayersPresets: seq<Preset> := [
      Preset("top-valued-loan-players", PlayersSection, "/players", [("signing", "loan"), ("sort", "value")]),
      Preset("highest-scoring-loan-players", PlayersSection, "/players", [("signing", "loan"), ("sort", "ga")]),
      Preset("top-valued-new-signings", PlayersSection, "/players", [("signing", "transfer"), ("sort", "value")]),
      Preset("highest-scoring-new-signings", PlayersSection, "/players", [("signing", "transfer"), ("sort", "ga")]),
      Preset("top-5-most-valuable-players", PlayersSection, "/players", [("top5", "1"), ("sort", "value")]),
      Preset("top-5-most-productive-players", PlayersSection, "/players", [("top5", "1"), ("sort", "ga")])
    ]

  /** The value analysis presets. */
  const ValueAnalysisPresets: seq<Preset> := [
      Preset("most-overpriced-players", ValueAnalysisSection, "/value-analysis", [("mode", "ga")]),
      Preset("best-bargain-players", ValueAnalysisSection, "/value-analysis", [("mode", "ga"), ("dTab", "bargains")]),
      Preset("top-5-overpriced-players", ValueAnalysisSection, "/value-analysis", [("mode", "ga"), ("dTop5", "1")]),
      Preset("top-5-bargain-players", ValueAnalysisSection, "/value-analysis", [("mode", "ga"), ("dTab", "bargains"), ("dTop5", "1")]),
      Preset("expensive-players-with-fewest-minutes", ValueAnalysisSection, "/value-analysis", [("mode", "mins")]),
      Preset("expensive-players-fewest-minutes-no-injuries", ValueAnalysisSection, "/value-analysis", [("mode", "mins"), ("noInj", "1")])
    ]

  /** The injury impact presets. */
  const InjuredPresets: seq<Preset> := [
      Preset("highest-value-injured-players", InjuredSection, "/injured", [("tab", "players")]),
      Preset("clubs-with-biggest-injury-losses", InjuredSection, "/injured", [("tab", "teams")]),
      Preset("clubs-with-most-injuries", InjuredSection, "/injured", [("tab", "teams"), ("tSort", "count")]),
      Preset("most-expensive-injury-types", InjuredSection, "/injured", [("tab", "injuries")]),
      Preset("most-common-injury-types", InjuredSection, "/injured", [("tab", "injuries"), ("iSort", "count")])
    ]

  /** The team value vs table presets. */
  const TeamFormPresets: seq<Preset> := [
      Preset("value-vs-table-all-leagues", TeamFormSection, "/team-form", []),
      Preset("value-vs-table-premier-league", TeamFormSection, "/team-form", [("league", "Premier League")]),
      Preset("value-vs-table-laliga", TeamFormSection, "/team-form", [("league", "La Liga")])
    ]

  /** The catalog, in declared order. */
  const Catalog: seq<Preset> := PlayersPresets + ValueAnalysisPresets + InjuredPresets + TeamFormPresets

  lemma CatalogSize()
    ensures |Catalog| == 20
  {
  }

  /** No two presets share a slug. */
  lemma CatalogSlugsDistinct()
    ensures forall i, j :: 0 <= i < j < |Catalog| ==> Catalog[i].slug != Catalog[j].slug
  {
  }

  /** The presets of one declared group all belong to `section`, link to its
      page and name no query key twice. */
  ghost predicate GroupWellFormed(group: seq<Preset>, section: Section) {
    forall i :: 0 <= i < |group| ==> PresetWellFormed(group[i], section)
  }

  /** One preset belongs to `section`, links to its page and names no query key twice. */
  ghost predicate PresetWellFormed(p: Preset, section: Section) {
    && p.section == section
    && p.sourcePath == "/" + SectionName(section)
    && DistinctKeys(p.query)
  }

  lemma PlayersWellFormed()
    ensures GroupWellFormed(PlayersPresets, PlayersSection)
  {
    assert "/" + SectionName(PlayersSection) == "/players";
    assert PresetWellFormed(PlayersPresets[0], PlayersSection);
    assert PresetWellFormed(PlayersPresets[1], PlayersSection);
    assert PresetWellFormed(PlayersPresets[2], PlayersSection);
    assert PresetWellFormed(PlayersPresets[3], PlayersSection);
    assert PresetWellFormed(PlayersPresets[4], PlayersSection);
    assert PresetWellFormed(PlayersPresets[5], PlayersSection);
  }

  lemma ValueAnalysisWellFormed()
    ensures GroupWellFormed(ValueAnalysisPresets, ValueAnalysisSection)
  {
    assert "/" + SectionName(ValueAnalysisSection) == "/value-analysis";
    assert PresetWellFormed(ValueAnalysisPresets[0], ValueAnalysisSection);
    assert PresetWellFormed(ValueAnalysisPresets[1], ValueAnalysisSection);
    assert PresetWellFormed(ValueAnalysisPresets[2], ValueAnalysisSection);
    assert PresetWellFormed(ValueAnalysisPresets[3], ValueAnalysisSection);
    assert PresetWellFormed(ValueAnalysisPresets[4], ValueAnalysisSection);
    assert PresetWellFormed(ValueAnalysisPresets[5], ValueAnalysisSection);
  }

  lemma InjuredWellFormed()
    ensures GroupWellFormed(InjuredPresets, InjuredSection)
  {
    assert "/" + SectionName(InjuredSection) == "/injured";
    assert PresetWellFormed(InjuredPresets[0], InjuredSection);
    assert PresetWellFormed(InjuredPresets[1], InjuredSection);
    assert PresetWellFormed(InjuredPresets[2], InjuredSection);
    assert PresetWellFormed(InjuredPresets[3], InjuredSection);
    assert PresetWellFormed(InjuredPresets[4], InjuredSection);
  }

  lemma TeamFormWellFormed()
    ensures GroupWellFormed(TeamFormPresets, TeamFormSection)
  {
    assert "/" + SectionName(TeamFormSection) == "/team-form";
    assert PresetWellFormed(TeamFormPresets[0], TeamFormSection);
    assert PresetWellFormed(TeamFormPresets[1], TeamFormSection);
    assert PresetWellFormed(TeamFormPresets[2], TeamFormSection);
  }

  lemma GroupsWellFormed()
    ensures GroupWellFormed(PlayersPresets, PlayersSection)
    ensures GroupWellFormed(ValueAnalysisPresets, ValueAnalysisSection)
    ensures GroupWellFormed(InjuredPresets, InjuredSection)
    ensures GroupWellFormed(TeamFormPresets, TeamFormSection)
  {
    PlayersWellFormed();
    ValueAnalysisWellFormed();
    InjuredWellFormed();
    TeamFormWellFormed();
  }

  /** Every preset links to the page of its own section and names no query
      key twice. */
  lemma CatalogWellFormed()
    ensures forall p :: p in Catalog ==> p.sourcePath == "/" + SectionName(p.section) && DistinctKeys(p.query)
  {
    GroupsWellFormed();
    forall p | p in Catalog ensures p.sourcePath == "/" + SectionName(p.section) && DistinctKeys(p.query) {
      var i :| 0 <= i < |Catalog| && Catalog[i] == p;
      if i < 6 {
        assert p == PlayersPresets[i];
      } else if i < 12 {
        assert p == ValueAnalysisPresets[i - 6];
      } else if i < 17 {
        assert p == InjuredPresets[i - 12];
      } else {
        assert p == TeamFormPresets[i - 17];
      }
    }
  }

  function SectionRule(section: Section): Preset -> bool {
    (p: Preset) => p.section == section
  }

  /** `getDiscoveryPresetsBySection`: the section's presets in catalog order. */
  function BySection(section: Section): (r: seq<Preset>)
    ensures IsSubsequence(r, Catalog)
    ensures forall p :: p in r <==> p in Catalog && p.section == section
  {
    FilterSubsequence(SectionRule(section), Catalog);
    Filter(SectionRule(section), Catalog)
  }

  /** The group declared for a section. */
  function GroupOf(section: Section): seq<Preset> {
    match section
    case PlayersSection => PlayersPresets
    case ValueAnalysisSection => ValueAnalysisPresets
    case InjuredSection => InjuredPresets
    case TeamFormSection => TeamFormPresets
  }

  /** Filtering a group by its own section keeps it whole; by another section, empties it. */
  lemma GroupFilter(group: seq<Preset>, own: Section, section: Section)
    requires GroupWellFormed(group, own)
    ensures Filter(SectionRule(section), group) == if own == section then group else []
  {
    if own == section {
      FilterAllPass(SectionRule(section), group);
    } else {
      FilterNonePass(SectionRule(section), group);
    }
  }

  /** Four groups laid out in section order: filtering their concatenation by a
      section gives back that section's group. */
  lemma {:induction false} FilterGrouped(a: seq<Preset>, b: seq<Preset>, c: seq<Preset>, d: seq<Preset>,
                                         section: Section)
    requires GroupWellFormed(a, PlayersSection) && GroupWellFormed(b, ValueAnalysisSection)
    requires GroupWellFormed(c, InjuredSection) && GroupWellFormed(d, TeamFormSection)
    ensures Filter(SectionRule(section), a + b + c + d) == match section
                                                         case PlayersSection => a
                                                         case ValueAnalysisSection => b
                                                         case InjuredSection => c
                                                         case TeamFormSection => d
  {
    FilterAppend4(SectionRule(section), a, b, c, d);
    GroupFilter(a, PlayersSection, section);
    GroupFilter(b, ValueAnalysisSection, section);
    GroupFilter(c, InjuredSection, section);
    GroupFilter(d, TeamFormSection, section);
    OnlyOneNonEmpty(a, b, c, d);
  }

  /** Each section's presets are exactly its declared group: the catalog is
      grouped by section in the listing order. */
  lemma BySectionIsGroup(section: Section)
    ensures BySection(section) == GroupOf(section)
  {
    GroupsWellFormed();
    FilterGrouped(PlayersPresets, ValueAnalysisPresets, InjuredPresets, TeamFormPresets, section);
  }

  /** Listing the sections in order and their presets one after another gives
      the catalog back. */
  lemma CatalogGroupedBySection()
    ensures BySection(SectionOrder[0]) + BySection(SectionOrder[1])
            + BySection(SectionOrder[2]) + BySection(SectionOrder[3]) == Catalog
  {
    BySectionIsGroup(PlayersSection);
    BySectionIsGroup(ValueAnalysisSection);
    BySectionIsGroup(InjuredSection);
    BySectionIsGroup(TeamFormSection);
  }

  /** `getPresetTargetHref`: the source path, followed by `?` and the query
      string when that is not empty. */
  function TargetHref(p: Preset, enc: string -> string): (h: string)
    requires DistinctKeys(p.query)
    ensures var qs := ToQueryString(p.query, enc);
            && (qs == "" ==> h == p.sourcePath)
            && (qs != "" ==> h == p.sourcePath + "?" + qs)
  {
    Href(p.sourcePath, ToQueryString(p.query, enc))
  }

  /** A preset whose query has only empty values links to its page alone. */
  lemma EmptyQueryLinksToPage(p: Preset, enc: string -> string)
    requires DistinctKeys(p.query)
    requires forall i :: 0 <= i < |p.query| ==> p.query[i].1 == ""
    ensures TargetHref(p, enc) == p.sourcePath
  {
    QueryStringPairs(p.query);
  }
}
