/**
  Platform resolution (`map_platforms`): every configured platform is paired
  with the first catalog asset its selector picks, or the whole call yields one
  tagged error.
 */
module Resolver {
  import opened Wrappers
  import opened Dicts
  import opened Config
  import opened Catalog
  import opened Collect

  datatype MapError = ParseError | BothNameAndRegex | NeitherNameNorRegex | NoMatchForAsset

  /** `matches(pattern, s)`: `re.compile(pattern).match(s)` is not `None`. The
      regular-expression engine is not modelled: the predicate is the engine's
      answer, anchored at the start of `s`, with whatever `$`, `\b` or lookahead
      assertions the pattern holds. */
  type Matcher = (string, string) -> bool

  /** How a platform picks its asset. */
  datatype Selector = ByName(name: string) | ByRegex(pattern: string)

  /** Exactly one of `name` and `regex` must be truthy. */
  function SelectorOf(cfg: PlatformConfig): (r: Result<Selector, MapError>)
    ensures Truthy(cfg.name) && Truthy(cfg.regex) ==> r == Failure(BothNameAndRegex)
    ensures !Truthy(cfg.name) && !Truthy(cfg.regex) ==> r == Failure(NeitherNameNorRegex)
    ensures Truthy(cfg.name) && !Truthy(cfg.regex) ==> r == Success(ByName(cfg.name.value))
    ensures !Truthy(cfg.name) && Truthy(cfg.regex) ==> r == Success(ByRegex(cfg.regex.value))
  {
    if Truthy(cfg.name) && Truthy(cfg.regex) then Failure(BothNameAndRegex)
    else if !Truthy(cfg.name) && !Truthy(cfg.regex) then Failure(NeitherNameNorRegex)
    else if Truthy(cfg.name) then Success(ByName(cfg.name.value))
    else Success(ByRegex(cfg.regex.value))
  }

  /** The test an asset name must pass for a selector. */
  predicate Meets(matches: Matcher, sel: Selector, assetName: string) {
    match sel
    case ByName(n) => assetName == n
    case ByRegex(p) => matches(p, assetName)
  }

  /** Entry `j` is the first catalog entry, in catalog order, whose name meets `sel`. */
  ghost predicate IsFirstMatch(matches: Matcher, catalog: seq<(string, Asset)>, sel: Selector, j: nat) {
    j < |catalog| && Meets(matches, sel, catalog[j].0) &&
    forall k :: 0 <= k < j ==> !Meets(matches, sel, catalog[k].0)
  }

  /** The linear scan of the catalog. */
  function FirstMatch(matches: Matcher, catalog: seq<(string, Asset)>, sel: Selector): (r: Option<nat>)
    ensures r.Some? ==> IsFirstMatch(matches, catalog, sel, r.value)
    ensures r.None? ==> forall k :: 0 <= k < |catalog| ==> !Meets(matches, sel, catalog[k].0)
    decreases |catalog|
  {
    if catalog == [] then None
    else if Meets(matches, sel, catalog[0].0) then Some(0)
    else match FirstMatch(matches, catalog[1..], sel)
      case None => None
      case Some(j) => Some(j + 1)
  }

  /** The entry one platform resolves to: the asset of the first catalog entry
      its selector meets, paired with the platform's own config. */
  function ResolveOne(matches: Matcher, catalog: seq<(string, Asset)>, cfg: PlatformConfig): Result<(Asset, PlatformConfig), MapError> {
    match SelectorOf(cfg)
    case Failure(e) => Failure(e)
    case Success(sel) =>
      match FirstMatch(matches, catalog, sel)
      case None => Failure(NoMatchForAsset)
      case Some(j) => Success((catalog[j].1, cfg))
  }

  /** One platform's outcome: the two selector errors, `NoMatchForAsset`
      exactly when no catalog entry meets the selector, and otherwise the asset
      of the first entry that does, with the platform's config. */
  lemma ResolveOneSpec(matches: Matcher, catalog: seq<(string, Asset)>, cfg: PlatformConfig)
    ensures var r := ResolveOne(matches, catalog, cfg);
      (Truthy(cfg.name) && Truthy(cfg.regex) ==> r == Failure(BothNameAndRegex)) &&
      (!Truthy(cfg.name) && !Truthy(cfg.regex) ==> r == Failure(NeitherNameNorRegex)) &&
      (SelectorOf(cfg).Success? ==> r.Success? || r == Failure(NoMatchForAsset)) &&
      (SelectorOf(cfg).Success? ==>
        (r == Failure(NoMatchForAsset) <==> forall k :: 0 <= k < |catalog| ==> !Meets(matches, SelectorOf(cfg).value, catalog[k].0))) &&
      (r.Success? ==>
        SelectorOf(cfg).Success? &&
        exists j: nat :: IsFirstMatch(matches, catalog, SelectorOf(cfg).value, j) && r.value == (catalog[j].1, cfg))
  {
    var r := ResolveOne(matches, catalog, cfg);
    if SelectorOf(cfg).Success? {
      var sel := SelectorOf(cfg).value;
      var m := FirstMatch(matches, catalog, sel);
      if m.Some? {
        assert IsFirstMatch(matches, catalog, sel, m.value);
        assert r.value == (catalog[m.value].1, cfg);
      }
    }
  }

  /** `ResolveOne` for a fixed catalog, as the item function of the walk over
      the platforms. */
  function PlatformResolver(matches: Matcher, catalog: seq<(string, Asset)>): PlatformConfig -> Result<(Asset, PlatformConfig), MapError> {
    cfg => ResolveOne(matches, catalog, cfg)
  }

  /** The first match is unique, so the scan finds exactly it. */
  lemma FirstMatchIsUnique(matches: Matcher, catalog: seq<(string, Asset)>, sel: Selector, j: nat)
    requires IsFirstMatch(matches, catalog, sel, j)
    ensures FirstMatch(matches, catalog, sel) == Some(j)
  {
    var r := FirstMatch(matches, catalog, sel);
    assert r.Some?;
    assert !(r.value < j) && !(j < r.value);
  }

  /** The resolved platforms: platform -> (asset, platform config). */
  type Resolved = Dict<string, (Asset, PlatformConfig)>

  /** What `map_platforms(config, catalog)` returns. */
  function MapPlatformsSpec(matches: Matcher, config: OutputConfig, catalog: Catalog): Result<Resolved, MapError> {
    match config.platforms
    case None => Failure(ParseError)
    case Some(ps) => CollectAll(PlatformResolver(matches, catalog), ps)
  }

  /** `map_platforms`: nested loops filling `platform_entries` in place, with an
      early return on the first error. */
  method MapPlatforms(matches: Matcher, config: OutputConfig, catalog: Catalog) returns (r: Result<Resolved, MapError>)
    ensures r == MapPlatformsSpec(matches, config, catalog)
  {
    if config.platforms.None? {
      return Failure(ParseError);
    }
    var platforms := config.platforms.value;
    ghost var resolve := PlatformResolver(matches, catalog);
    var entries: Resolved := [];
    var i := 0;
    while i < |platforms|
      invariant 0 <= i <= |platforms|
      invariant CollectAll(resolve, platforms[..i]) == Success(entries)
    {
      var (platform, cfg) := platforms[i];
      CollectStep(resolve, platforms, i, entries);
      if Truthy(cfg.name) && Truthy(cfg.regex) {
        CollectFailureSticks(resolve, platforms, i + 1);
        return Failure(BothNameAndRegex);
      } else if !Truthy(cfg.name) && !Truthy(cfg.regex) {
        CollectFailureSticks(resolve, platforms, i + 1);
        return Failure(NeitherNameNorRegex);
      }
      // The source runs one of two identical scans, testing `asset_name == name`
      // or `regex.match(asset_name)`; `Meets` is that test.
      var sel := if Truthy(cfg.name) then ByName(cfg.name.value) else ByRegex(cfg.regex.value);
      assert SelectorOf(cfg) == Success(sel);
      CollectKeyFresh(resolve, platforms, i, entries);
      var found := FindAsset(matches, catalog, sel);
      if found.Some? {
        PutSpec(entries, platform, (catalog[found.value].1, cfg));
        entries := Put(entries, platform, (catalog[found.value].1, cfg));
      }
      if platform in KeysOf(entries) {
        i := i + 1;
      } else {
        CollectFailureSticks(resolve, platforms, i + 1);
        return Failure(NoMatchForAsset);
      }
    }
    assert platforms[..i] == platforms;
    return Success(entries);
  }

  /** One of the two inner scans of `map_platforms`: the index of the first
      catalog entry, in catalog order, whose name meets the selector; the
      source's `break` ends the scan there. */
  method FindAsset(matches: Matcher, catalog: Catalog, sel: Selector) returns (found: Option<nat>)
    ensures found == FirstMatch(matches, catalog, sel)
  {
    var j := 0;
    while j < |catalog|
      invariant 0 <= j <= |catalog|
      invariant forall k :: 0 <= k < j ==> !Meets(matches, sel, catalog[k].0)
    {
      var assetName := catalog[j].0;
      if Meets(matches, sel, assetName) {
        FirstMatchIsUnique(matches, catalog, sel, j);
        return Some(j);
      }
      j := j + 1;
    }
    return None;
  }

  /** `ParseError` is returned exactly when `platforms` is missing. */
  lemma ParseErrorIffNoPlatforms(matches: Matcher, config: OutputConfig, catalog: Catalog)
    ensures MapPlatformsSpec(matches, config, catalog) == Failure(ParseError) <==> config.platforms.None?
  {
    if config.platforms.Some? && MapPlatformsSpec(matches, config, catalog).Failure? {
      var i := CollectFailure(PlatformResolver(matches, catalog), config.platforms.value);
      ResolveOneSpec(matches, catalog, config.platforms.value[i].1);
    }
  }

  /** On success the map has exactly the configured keys, in configuration
      order, and each value is (first catalog asset the selector meets, that
      platform's own config). */
  lemma MapPlatformsPairsFirstMatch(matches: Matcher, config: OutputConfig, catalog: Catalog)
    requires MapPlatformsSpec(matches, config, catalog).Success?
    ensures config.platforms.Some?
    ensures KeysOf(MapPlatformsSpec(matches, config, catalog).value) == KeysOf(config.platforms.value)
    ensures forall i :: 0 <= i < |config.platforms.value| ==>
      var cfg := config.platforms.value[i].1;
      var entry := MapPlatformsSpec(matches, config, catalog).value[i].1;
      SelectorOf(cfg).Success? &&
      exists j: nat :: IsFirstMatch(matches, catalog, SelectorOf(cfg).value, j) && entry == (catalog[j].1, cfg)
  {
    var ps := config.platforms.value;
    CollectValues(PlatformResolver(matches, catalog), ps);
    CollectKeys(PlatformResolver(matches, catalog), ps);
    forall i | 0 <= i < |ps|
      ensures var cfg := ps[i].1;
        var entry := MapPlatformsSpec(matches, config, catalog).value[i].1;
        SelectorOf(cfg).Success? &&
        exists j: nat :: IsFirstMatch(matches, catalog, SelectorOf(cfg).value, j) && entry == (catalog[j].1, cfg)
    {
      ResolveOneSpec(matches, catalog, ps[i].1);
    }
  }

  /** On failure with `platforms` present, some platform `i` fails, all before it
      resolve, and the error says why `i` failed: both selectors truthy, neither
      truthy, or no catalog asset meets the selector. */
  lemma MapPlatformsStopsAtFirstError(matches: Matcher, config: OutputConfig, catalog: Catalog) returns (i: nat)
    requires config.platforms.Some? && MapPlatformsSpec(matches, config, catalog).Failure?
    ensures i < |config.platforms.value|
    ensures forall k :: 0 <= k < i ==> ResolveOne(matches, catalog, config.platforms.value[k].1).Success?
    ensures var cfg := config.platforms.value[i].1;
      match MapPlatformsSpec(matches, config, catalog).error
      case ParseError => false
      case BothNameAndRegex => Truthy(cfg.name) && Truthy(cfg.regex)
      case NeitherNameNorRegex => !Truthy(cfg.name) && !Truthy(cfg.regex)
      case NoMatchForAsset =>
        SelectorOf(cfg).Success? && forall k :: 0 <= k < |catalog| ==> !Meets(matches, SelectorOf(cfg).value, catalog[k].0)
  {
    i := CollectFailure(PlatformResolver(matches, catalog), config.platforms.value);
    ResolveOneSpec(matches, catalog, config.platforms.value[i].1);
  }
}
