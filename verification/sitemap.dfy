/** The sitemap: one entry per core route, then one per distinct preset
    link that is not already a core route. `absoluteUrl` (joining a path to
    the site origin) is left uninterpreted; the clock-valued `lastModified`
    and the constant `changeFrequency` are left out. */
module Sitemap {
  import opened SeqUtil
  import opened QueryStrings
  import opened DiscoveryPresets

  /** The core routes, in listing order. */
  const CoreRoutes: seq<string> := ["/", "/discover", "/form", "/team-form", "/players", "/value-analysis", "/injured"]

  /** Priorities are in tenths: 1, 0.9, 0.8 and 0.7 are 10, 9, 8 and 7. */
  const CuratedPriority: nat := 7

  /** The home page ranks first, the discovery hub second, the other core routes third. */
  function CorePriority(path: string): (p: nat)
    ensures path == "/" ==> p == 10
    ensures path == "/discover" ==> p == 9
    ensures path != "/" && path != "/discover" ==> p == 8
    ensures p > CuratedPriority
  {
    if path == "/" then 10 else if path == "/discover" then 9 else 8
  }

  datatype Entry = Entry(url: string, priority: nat)

  /** Every preset's target link, in catalog order. */
  function Hrefs(presets: seq<Preset>, enc: string -> string): (r: seq<string>)
    requires forall p :: p in presets ==> DistinctKeys(p.query)
    ensures |r| == |presets|
    ensures forall i :: 0 <= i < |r| ==> r[i] == TargetHref(presets[i], enc)
  {
    seq(|presets|, i requires 0 <= i < |presets| => assert presets[i] in presets; TargetHref(presets[i], enc))
  }

  function NotCore(): string -> bool {
    (h: string) => h !in CoreRoutes
  }

  /** `h` comes first among the preset links where `g` is concerned: both
      occur, and `h` occurs first. */
  predicate FirstBefore(hrefs: seq<string>, h: string, g: string) {
    h in hrefs && g in hrefs && FirstIndex(hrefs, h) < FirstIndex(hrefs, g)
  }

  /** The curated paths: the preset links without repeats, in the order of
      their first occurrence, minus the core routes. */
  function CuratedPaths(presets: seq<Preset>, enc: string -> string): (r: seq<string>)
    requires forall p :: p in presets ==> DistinctKeys(p.query)
    ensures Distinct(r)
    ensures forall h :: h in r <==> h in Hrefs(presets, enc) && h !in CoreRoutes
    ensures forall i, j :: 0 <= i < j < |r| ==> FirstBefore(Hrefs(presets, enc), r[i], r[j])
  {
    var hrefs := Hrefs(presets, enc);
    var d := Dedup(hrefs);
    DedupFirstOccurrenceOrder(hrefs);
    var lt := (h: string, g: string) => FirstBefore(hrefs, h, g);
    FilterKeepsOrder(NotCore(), lt, d);
    FilterDistinct(NotCore(), d);
    Filter(NotCore(), d)
  }

  /** One entry per core route, in listing order, with its priority. */
  function CoreEntries(absoluteUrl: string -> string): (r: seq<Entry>)
    ensures |r| == |CoreRoutes|
    ensures forall i :: 0 <= i < |CoreRoutes| ==> r[i] == Entry(absoluteUrl(CoreRoutes[i]), CorePriority(CoreRoutes[i]))
  {
    seq(|CoreRoutes|, i requires 0 <= i < |CoreRoutes| => Entry(absoluteUrl(CoreRoutes[i]), CorePriority(CoreRoutes[i])))
  }

  /** One entry per curated path, in order, at the curated priority. */
  function CuratedEntries(curated: seq<string>, absoluteUrl: string -> string): (r: seq<Entry>)
    ensures |r| == |curated|
    ensures forall i :: 0 <= i < |curated| ==> r[i] == Entry(absoluteUrl(curated[i]), CuratedPriority)
  {
    seq(|curated|, i requires 0 <= i < |curated| => Entry(absoluteUrl(curated[i]), CuratedPriority))
  }

  /** `sitemap`: the core entries, then the curated ones. */
  function SitemapEntries(presets: seq<Preset>, enc: string -> string, absoluteUrl: string -> string)
    : (r: seq<Entry>)
    requires forall p :: p in presets ==> DistinctKeys(p.query)
    ensures |r| == |CoreRoutes| + |CuratedPaths(presets, enc)|
    ensures forall i :: 0 <= i < |CoreRoutes| ==> r[i] == Entry(absoluteUrl(CoreRoutes[i]), CorePriority(CoreRoutes[i]))
    ensures var curated := CuratedPaths(presets, enc);
            forall i :: 0 <= i < |curated| ==> r[|CoreRoutes| + i] == Entry(absoluteUrl(curated[i]), CuratedPriority)
  {
    var core := CoreEntries(absoluteUrl);
    var curated := CuratedEntries(CuratedPaths(presets, enc), absoluteUrl);
    AppendIndex(core, curated);
    core + curated
  }

  /** The sitemap has seven core entries plus one per distinct preset link that
      is not a core route. */
  lemma EntryCount(presets: seq<Preset>, enc: string -> string, absoluteUrl: string -> string)
    requires forall p :: p in presets ==> DistinctKeys(p.query)
    ensures |SitemapEntries(presets, enc, absoluteUrl)|
            == 7 + |set h | h in Hrefs(presets, enc) && h !in CoreRoutes|
  {
    var hrefs := Hrefs(presets, enc);
    var curated := CuratedPaths(presets, enc);
    DistinctCardinality(curated);
    SameMembersSameSet(curated, hrefs, CoreRoutes);
  }

  /** A sequence holding exactly the elements of `hrefs` outside `core` has their set as its set. */
  lemma SameMembersSameSet(curated: seq<string>, hrefs: seq<string>, core: seq<string>)
    requires forall h :: h in curated <==> h in hrefs && h !in core
    ensures (set h | h in curated) == (set h | h in hrefs && h !in core)
  {
  }

  /** The all-leagues team-form preset links to `/team-form` alone, a core
      route, so it adds no entry of its own. */
  lemma AllLeaguesPresetNotCurated(presets: seq<Preset>, enc: string -> string)
    requires forall p :: p in presets ==> DistinctKeys(p.query)
    ensures TargetHref(TeamFormPresets[0], enc) == "/team-form"
    ensures "/team-form" !in CuratedPaths(presets, enc)
  {
    EmptyQueryLinksToPage(TeamFormPresets[0], enc);
  }
}
