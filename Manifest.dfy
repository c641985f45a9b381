/**
  Building the manifest of one output (`generate_manifest_file`): one entry per
  resolved platform, in resolution order, each validated, given its format,
  digest and providers; then the document with its name and optional build
  metadata, rendered after the `dotslash` interpreter line.
 */
module Manifest {
  import opened Wrappers
  import opened Dicts
  import opened Formats
  import opened Config
  import opened Catalog
  import opened Resolver
  import opened Digest
  import opened Collect

  /** Where a consumer may fetch an artifact from. */
  datatype Provider =
    | HttpProvider(url: string)
    | ReleaseProvider(repo: string, tag: string, name: string)  // {"type": "github-release", ...}

  /** One platform's object. `format == None` means the key is not there. */
  datatype Entry = Entry(
    size: int,
    hash: string,
    digest: Option<string>,
    format: Option<string>,
    path: string,
    providers: seq<Provider>)

  /** The build metadata block, passed through unmodified. */
  datatype MetaValue = Text(text: string) | Object(fields: seq<(string, string)>)
  type BuildMetadata = seq<(string, MetaValue)>

  datatype Manifest = Manifest(name: string, platforms: Dict<string, Entry>, buildMetadata: Option<BuildMetadata>)

  /** Why no manifest is produced. The first four are the source's `return 1`;
      `IntegrityError` is the size-mismatch exception `compute_hash` raises, which ends the run. */
  datatype GenError =
    | MissingSize
    | MissingName
    | MissingPath
    | FormatNotInferred(assetName: string)
    | IntegrityError(assetName: string, expected: int, actual: nat)

  /** The call's fixed inputs: repository argument, tag, the call's own
      temporary directory and the two provider flags. */
  datatype Settings = Settings(repo: string, tag: string, tempDir: string, includeHttp: bool, includeRelease: bool)

  /** The `providers` list: the URL first when enabled, then the release
      reference when enabled. */
  function Providers(s: Settings, url: string, assetName: string): (ps: seq<Provider>)
    ensures |ps| == (if s.includeHttp then 1 else 0) + (if s.includeRelease then 1 else 0)
    ensures s.includeHttp ==> ps[0] == HttpProvider(url)
    ensures s.includeRelease ==> ps[|ps| - 1] == ReleaseProvider(s.repo, s.tag, assetName)
  {
    (if s.includeHttp then [HttpProvider(url)] else []) +
    (if s.includeRelease then [ReleaseProvider(s.repo, s.tag, assetName)] else [])
  }

  /** The key under which `compute_hash` is called for one asset. */
  function KeyFor(s: Settings, assetName: string, cfg: PlatformConfig, size: int): HashKey {
    HashKey(s.repo, s.tempDir, s.tag, assetName, HashAlgorithm(cfg), size)
  }

  /** The `format` value written into the entry, or `None` when the key is
      deleted because the chosen format is falsy. */
  function FormatKey(chosen: Option<string>): (r: Option<string>)
    ensures r.Some? ==> r == chosen && r.value != ""
    ensures Truthy(chosen) ==> r == chosen
    ensures !Truthy(chosen) ==> r.None?
  {
    if Truthy(chosen) then chosen else None
  }

  /** One platform's entry, checks in the source's order: size, name, path,
      format, then the digest (whose size check may raise). */
  function EntryFor(s: Settings, asset: Asset, cfg: PlatformConfig, fetch: Fetcher, hexDigest: HexDigest): Result<Entry, GenError>
  {
    if asset.size.None? then Failure(MissingSize)
    else if asset.name.None? then Failure(MissingName)
    else if !Truthy(cfg.path) then Failure(MissingPath)
    else
      var assetName := asset.name.value;
      var chosen :=
        if cfg.format.Given? then Success(cfg.format.value)
        else match GuessFormat(assetName)
          case None => Failure(FormatNotInferred(assetName))
          case Some(f) => Success(Some(Tag(f)));
      match chosen
      case Failure(e) => Failure(e)
      case Success(format) =>
        match FreshHash(fetch, hexDigest, KeyFor(s, assetName, cfg, asset.size.value))
        case SizeMismatch(expected, actual) => Failure(IntegrityError(assetName, expected, actual))
        case Digest(hex) =>
          Success(Entry(asset.size.value, HashAlgorithm(cfg), hex, FormatKey(format), cfg.path.value,
                        Providers(s, asset.url, assetName)))
  }

  /** What one entry is: each check's error in the source's order, the fatal
      error only on a size mismatch, and on success the declared size, the
      algorithm, the fresh digest, the path, the providers and the format: the
      `format` key's value when the key is present (deleted when falsy), the
      inferred tag otherwise. */
  lemma EntryForSpec(s: Settings, asset: Asset, cfg: PlatformConfig, fetch: Fetcher, hexDigest: HexDigest)
    ensures var r := EntryFor(s, asset, cfg, fetch, hexDigest);
      (asset.size.None? ==> r == Failure(MissingSize)) &&
      (asset.size.Some? && asset.name.None? ==> r == Failure(MissingName)) &&
      (asset.size.Some? && asset.name.Some? && !Truthy(cfg.path) ==> r == Failure(MissingPath)) &&
      ((asset.size.Some? && asset.name.Some? && Truthy(cfg.path) && cfg.format.Absent? &&
               GuessFormat(asset.name.value).None?) ==> r == Failure(FormatNotInferred(asset.name.value))) &&
      (r.Failure? && r.error.IntegrityError? ==>
        FreshHash(fetch, hexDigest, KeyFor(s, asset.name.value, cfg, asset.size.value)).SizeMismatch?) &&
      ((asset.size.Some? && asset.name.Some? && Truthy(cfg.path) &&
        (cfg.format.Given? || GuessFormat(asset.name.value).Some?) &&
        FreshHash(fetch, hexDigest, KeyFor(s, asset.name.value, cfg, asset.size.value)).SizeMismatch?) ==>
          r == Failure(IntegrityError(asset.name.value, asset.size.value, |fetch(s.repo, s.tag, asset.name.value)|))) &&
      (r.Success? ==>
        && asset.size.Some? && asset.name.Some? && Truthy(cfg.path)
        && r.value.size == asset.size.value
        && r.value.hash == HashAlgorithm(cfg)
        && FreshHash(fetch, hexDigest, KeyFor(s, asset.name.value, cfg, asset.size.value)) == Digest(r.value.digest)
        && r.value.path == cfg.path.value
        && r.value.providers == Providers(s, asset.url, asset.name.value)
        && r.value.format != Some("")
        && (cfg.format.Given? ==> r.value.format == FormatKey(cfg.format.value))
        && (cfg.format.Absent? ==>
              GuessFormat(asset.name.value).Some? && r.value.format == Some(Tag(GuessFormat(asset.name.value).value))))
  {
  }

  /** `EntryFor` for fixed settings and hash source, as the item function of
      the walk over the resolved platforms. */
  function EntryBuilder(s: Settings, fetch: Fetcher, hexDigest: HexDigest): ((Asset, PlatformConfig)) -> Result<Entry, GenError> {
    (p: (Asset, PlatformConfig)) => EntryFor(s, p.0, p.1, fetch, hexDigest)
  }

  /** The key `compute_hash` is called with for one platform: present when the
      checks before the call (size, name, path, format) pass, `None` when one
      of them returns first. */
  function HashKeyOf(s: Settings, asset: Asset, cfg: PlatformConfig): Option<HashKey> {
    if asset.size.None? || asset.name.None? || !Truthy(cfg.path) then None
    else if cfg.format.Absent? && GuessFormat(asset.name.value).None? then None
    else Some(KeyFor(s, asset.name.value, cfg, asset.size.value))
  }

  /** `compute_hash` is called exactly when the entry's checks pass; a platform
      that never reaches the call fails with a check's error, and one that does
      builds exactly when the call returns a digest. */
  lemma HashKeyOfSpec(s: Settings, asset: Asset, cfg: PlatformConfig, fetch: Fetcher, hexDigest: HexDigest)
    ensures HashKeyOf(s, asset, cfg).None? ==>
      EntryFor(s, asset, cfg, fetch, hexDigest).Failure? && !EntryFor(s, asset, cfg, fetch, hexDigest).error.IntegrityError?
    ensures HashKeyOf(s, asset, cfg).Some? ==>
      (EntryFor(s, asset, cfg, fetch, hexDigest).Success? <==> FreshHash(fetch, hexDigest, HashKeyOf(s, asset, cfg).value).Digest?)
  {
  }

  /** The `compute_hash` calls of the loop, in order: one per platform, until
      the first platform whose entry fails (before the call or by it). */
  function HashedKeys(s: Settings, fetch: Fetcher, hexDigest: HexDigest, entries: seq<(string, (Asset, PlatformConfig))>): seq<HashKey>
    decreases |entries|
  {
    if entries == [] then []
    else match HashKeyOf(s, entries[0].1.0, entries[0].1.1)
      case None => []
      case Some(k) =>
        if FreshHash(fetch, hexDigest, k).SizeMismatch? then [k]
        else [k] + HashedKeys(s, fetch, hexDigest, entries[1..])
  }

  /** The calls from platform `i` on. */
  lemma HashedKeysFrom(s: Settings, fetch: Fetcher, hexDigest: HexDigest, entries: seq<(string, (Asset, PlatformConfig))>, i: nat)
    requires i < |entries|
    ensures HashedKeys(s, fetch, hexDigest, entries[i..]) ==
      match HashKeyOf(s, entries[i].1.0, entries[i].1.1)
      case None => []
      case Some(k) =>
        if FreshHash(fetch, hexDigest, k).SizeMismatch? then [k]
        else [k] + HashedKeys(s, fetch, hexDigest, entries[i + 1..])
  {
    assert entries[i..][1..] == entries[i + 1..];
  }

  /** The loop makes at most one call per platform, and its `j`-th call is the
      `j`-th platform's: no platform is skipped. */
  lemma {:induction false} HashedKeysInOrder(s: Settings, fetch: Fetcher, hexDigest: HexDigest, entries: seq<(string, (Asset, PlatformConfig))>)
    ensures |HashedKeys(s, fetch, hexDigest, entries)| <= |entries|
    ensures forall j :: 0 <= j < |HashedKeys(s, fetch, hexDigest, entries)| ==>
      HashKeyOf(s, entries[j].1.0, entries[j].1.1) == Some(HashedKeys(s, fetch, hexDigest, entries)[j])
    decreases |entries|
  {
    if entries != [] {
      HashedKeysInOrder(s, fetch, hexDigest, entries[1..]);
      var ks := HashedKeys(s, fetch, hexDigest, entries);
      forall j | 0 <= j < |ks| ensures HashKeyOf(s, entries[j].1.0, entries[j].1.1) == Some(ks[j]) {
        if j > 0 {
          assert entries[1..][j - 1] == entries[j];
        }
      }
    }
  }

  /** When every platform reaches the call and no call raises, the loop calls
      once per platform. */
  lemma {:induction false} HashedKeysAll(s: Settings, fetch: Fetcher, hexDigest: HexDigest, entries: seq<(string, (Asset, PlatformConfig))>)
    requires forall i :: 0 <= i < |entries| ==>
      HashKeyOf(s, entries[i].1.0, entries[i].1.1).Some? &&
      FreshHash(fetch, hexDigest, HashKeyOf(s, entries[i].1.0, entries[i].1.1).value).Digest?
    ensures |HashedKeys(s, fetch, hexDigest, entries)| == |entries|
    decreases |entries|
  {
    if entries != [] {
      assert forall i :: 0 <= i < |entries[1..]| ==> entries[1..][i] == entries[i + 1];
      HashedKeysAll(s, fetch, hexDigest, entries[1..]);
    }
  }

  /** `if build_metadata:` — `None` and the empty dictionary are falsy. */
  predicate MetadataTruthy(meta: Option<BuildMetadata>) {
    meta.Some? && meta.value != []
  }

  /** The manifest `generate_manifest_file` serialises, or why there is none. */
  function BuildManifest(name: string, s: Settings, entries: Resolved, meta: Option<BuildMetadata>,
                         fetch: Fetcher, hexDigest: HexDigest): (r: Result<Manifest, GenError>)
    ensures r.Success? ==> r.value.name == name && KeysOf(r.value.platforms) == KeysOf(entries)
  {
    match CollectAll(EntryBuilder(s, fetch, hexDigest), entries)
    case Failure(e) => Failure(e)
    case Success(platforms) =>
      CollectKeys(EntryBuilder(s, fetch, hexDigest), entries);
      Success(Manifest(name, platforms, if MetadataTruthy(meta) then meta else None))
  }

  /** The first line of every manifest file. */
  const Shebang: string := "#!/usr/bin/env dotslash"

  /** `json.dumps(manifest, indent=2)`; the serialiser is not modelled. */
  type JsonWriter = Manifest -> string

  /** The file text: the interpreter line, a blank line, the JSON, a newline. */
  function Render(m: Manifest, toJson: JsonWriter): (text: string)
    ensures |text| == |Shebang| + 2 + |toJson(m)| + 1
    ensures text[..|Shebang|] == Shebang
    ensures text[|Shebang|..|Shebang| + 2] == "\n\n"
    ensures text[|Shebang| + 2..|text| - 1] == toJson(m)
    ensures text[|text| - 1] == '\n'
  {
    Shebang + "\n\n" + toJson(m) + "\n"
  }

  /** The format an entry takes when its checks pass: the `format` key's own
      value when present, otherwise the inferred tag. */
  function ChosenFormat(cfg: PlatformConfig, assetName: string): Option<string>
    requires cfg.format.Given? || GuessFormat(assetName).Some?
  {
    if cfg.format.Given? then cfg.format.value else Some(Tag(GuessFormat(assetName).value))
  }

  /** The entry of a platform whose checks all pass. */
  lemma EntryForSuccess(s: Settings, asset: Asset, cfg: PlatformConfig, fetch: Fetcher, hexDigest: HexDigest)
    requires asset.size.Some? && asset.name.Some? && Truthy(cfg.path)
    requires cfg.format.Given? || GuessFormat(asset.name.value).Some?
    requires FreshHash(fetch, hexDigest, KeyFor(s, asset.name.value, cfg, asset.size.value)).Digest?
    ensures EntryFor(s, asset, cfg, fetch, hexDigest) ==
      Success(Entry(asset.size.value, HashAlgorithm(cfg),
                    FreshHash(fetch, hexDigest, KeyFor(s, asset.name.value, cfg, asset.size.value)).hex,
                    FormatKey(ChosenFormat(cfg, asset.name.value)), cfg.path.value,
                    Providers(s, asset.url, asset.name.value)))
  {
  }

  /** The text `generate_manifest_file` returns, or why it returns none. */
  function RenderResult(r: Result<Manifest, GenError>, toJson: JsonWriter): Result<string, GenError> {
    match r
    case Success(m) => Success(Render(m, toJson))
    case Failure(e) => Failure(e)
  }

  /** The body of the per-platform loop of `generate_manifest_file`: validate,
      choose the format, hash, build the providers, delete a falsy `format`. */
  method BuildEntry(s: Settings, asset: Asset, cfg: PlatformConfig, cache: DigestCache) returns (r: Result<Entry, GenError>)
    requires cache.Valid()
    modifies cache
    ensures cache.Valid()
    ensures r == EntryFor(s, asset, cfg, cache.fetch, cache.hexDigest)
    ensures HashKeyOf(s, asset, cfg).None? ==> cache.cache == old(cache.cache) && cache.fetches == old(cache.fetches)
    ensures HashKeyOf(s, asset, cfg).Some? ==>
      var k := HashKeyOf(s, asset, cfg).value;
      && cache.cache == MemoStep(cache.fetch, cache.hexDigest, old(cache.cache), k)
      && cache.fetches == old(cache.fetches) + (if k in old(cache.cache) then 0 else 1)
  {
    var hashAlgo := HashAlgorithm(cfg);
    if asset.size.None? {
      return Failure(MissingSize);
    }
    var size := asset.size.value;
    if asset.name.None? {
      return Failure(MissingName);
    }
    var assetName := asset.name.value;
    if !Truthy(cfg.path) {
      return Failure(MissingPath);
    }
    var path := cfg.path.value;
    var format: Option<string>;
    if cfg.format.Given? {
      // An explicit `"format": null` means no packaging; inference is skipped.
      format := cfg.format.value;
    } else {
      var guessed := GuessFormat(assetName);
      if guessed.None? {
        return Failure(FormatNotInferred(assetName));
      }
      format := Some(Tag(guessed.value));
    }
    var hashed := cache.ComputeHash(HashKey(s.repo, s.tempDir, s.tag, assetName, hashAlgo, size));
    if hashed.SizeMismatch? {
      return Failure(IntegrityError(assetName, hashed.expected, hashed.actual));
    }
    var providers: seq<Provider> := [];
    if s.includeHttp {
      providers := providers + [HttpProvider(asset.url)];
    }
    if s.includeRelease {
      providers := providers + [ReleaseProvider(s.repo, s.tag, assetName)];
    }
    var entry := Entry(size, hashAlgo, hashed.hex, format, path, providers);
    if !Truthy(format) {
      entry := entry.(format := None);  // del artifact_entry["format"]
    }
    assert format == ChosenFormat(cfg, assetName);
    assert entry == Entry(size, hashAlgo, hashed.hex, FormatKey(format), path, Providers(s, asset.url, assetName));
    EntryForSuccess(s, asset, cfg, cache.fetch, cache.hexDigest);
    return Success(entry);
  }

  /** The loop of `generate_manifest_file` inserting each platform's entry
      into `platforms`, in resolution order; an entry's error returns at once. */
  method BuildPlatforms(s: Settings, entries: Resolved, cache: DigestCache) returns (r: Result<Dict<string, Entry>, GenError>)
    requires cache.Valid()
    modifies cache
    ensures cache.Valid()
    ensures r == CollectAll(EntryBuilder(s, cache.fetch, cache.hexDigest), entries)
    ensures cache.cache == MemoAll(cache.fetch, cache.hexDigest, old(cache.cache), HashedKeys(s, cache.fetch, cache.hexDigest, entries))
    ensures cache.fetches == old(cache.fetches) + Downloads(cache.fetch, cache.hexDigest, old(cache.cache), HashedKeys(s, cache.fetch, cache.hexDigest, entries))
  {
    var platforms: Dict<string, Entry> := [];
    ghost var build := EntryBuilder(s, cache.fetch, cache.hexDigest);
    ghost var calls := HashedKeys(s, cache.fetch, cache.hexDigest, entries);
    ghost var c0, f0 := cache.cache, cache.fetches;
    var i := 0;
    while i < |entries|
      invariant 0 <= i <= |entries|
      invariant cache.Valid()
      invariant CollectAll(build, entries[..i]) == Success(platforms)
      invariant MemoAll(cache.fetch, cache.hexDigest, c0, calls) ==
        MemoAll(cache.fetch, cache.hexDigest, cache.cache, HashedKeys(s, cache.fetch, cache.hexDigest, entries[i..]))
      invariant f0 + Downloads(cache.fetch, cache.hexDigest, c0, calls) ==
        cache.fetches + Downloads(cache.fetch, cache.hexDigest, cache.cache, HashedKeys(s, cache.fetch, cache.hexDigest, entries[i..]))
    {
      var (platformName, (asset, cfg)) := entries[i];
      HashedKeysFrom(s, cache.fetch, cache.hexDigest, entries, i);
      HashKeyOfSpec(s, asset, cfg, cache.fetch, cache.hexDigest);
      var built := BuildEntry(s, asset, cfg, cache);
      CollectNext(build, entries, i, platforms, built);
      if built.Failure? {
        return Failure(built.error);
      }
      platforms := Put(platforms, platformName, built.value);
      i := i + 1;
    }
    assert entries[..i] == entries;
    assert entries[i..] == [];
    return Success(platforms);
  }

  /** `generate_manifest_file`: the platforms, then the document with the
      output's name and, when truthy, the build metadata, rendered. `tempDir`
      in `s` stands for the call's fresh temporary directory. */
  method GenerateManifest(name: string, s: Settings, entries: Resolved, meta: Option<BuildMetadata>,
                          cache: DigestCache, toJson: JsonWriter) returns (r: Result<string, GenError>)
    requires cache.Valid()
    modifies cache
    ensures cache.Valid()
    ensures r == RenderResult(BuildManifest(name, s, entries, meta, cache.fetch, cache.hexDigest), toJson)
    ensures cache.cache == MemoAll(cache.fetch, cache.hexDigest, old(cache.cache), HashedKeys(s, cache.fetch, cache.hexDigest, entries))
    ensures cache.fetches == old(cache.fetches) + Downloads(cache.fetch, cache.hexDigest, old(cache.cache), HashedKeys(s, cache.fetch, cache.hexDigest, entries))
  {
    var built := BuildPlatforms(s, entries, cache);
    if built.Failure? {
      return Failure(built.error);
    }
    var manifest := Manifest(name, built.value, None);
    if MetadataTruthy(meta) {
      manifest := manifest.(buildMetadata := meta);
    }
    return Success(Render(manifest, toJson));
  }

  /** A built manifest has the output's name, exactly the resolved platform
      keys in order, each with the entry its asset and config give, and the
      build metadata only when it is truthy. */
  lemma ManifestShape(name: string, s: Settings, entries: Resolved, meta: Option<BuildMetadata>, fetch: Fetcher, hexDigest: HexDigest)
    requires BuildManifest(name, s, entries, meta, fetch, hexDigest).Success?
    ensures var m := BuildManifest(name, s, entries, meta, fetch, hexDigest).value;
      && m.name == name
      && KeysOf(m.platforms) == KeysOf(entries)
      && (forall i :: 0 <= i < |entries| ==>
            EntryFor(s, entries[i].1.0, entries[i].1.1, fetch, hexDigest) == Success(m.platforms[i].1))
      && m.buildMetadata == (if MetadataTruthy(meta) then meta else None)
  {
    CollectValues(EntryBuilder(s, fetch, hexDigest), entries);
    CollectKeys(EntryBuilder(s, fetch, hexDigest), entries);
  }

  /** Atomic per output: any platform's failure means no manifest at all. */
  lemma ManifestAllOrNothing(name: string, s: Settings, entries: Resolved, meta: Option<BuildMetadata>, fetch: Fetcher, hexDigest: HexDigest)
    ensures BuildManifest(name, s, entries, meta, fetch, hexDigest).Success? <==>
      forall i :: 0 <= i < |entries| ==> EntryFor(s, entries[i].1.0, entries[i].1.1, fetch, hexDigest).Success?
  {
    CollectSuccess(EntryBuilder(s, fetch, hexDigest), entries);
  }

  /** A failed output carries the error of the FIRST platform whose entry
      fails; every platform before it built. */
  lemma ManifestFirstError(name: string, s: Settings, entries: Resolved, meta: Option<BuildMetadata>, fetch: Fetcher, hexDigest: HexDigest) returns (i: nat)
    requires BuildManifest(name, s, entries, meta, fetch, hexDigest).Failure?
    ensures i < |entries|
    ensures forall k :: 0 <= k < i ==> EntryFor(s, entries[k].1.0, entries[k].1.1, fetch, hexDigest).Success?
    ensures EntryFor(s, entries[i].1.0, entries[i].1.1, fetch, hexDigest) ==
      Failure(BuildManifest(name, s, entries, meta, fetch, hexDigest).error)
  {
    i := CollectFailure(EntryBuilder(s, fetch, hexDigest), entries);
  }

  /** A size mismatch on any platform that passes its checks aborts the whole
      output: with the integrity error naming that asset, its declared and its
      downloaded size when every earlier platform built, and otherwise with an
      earlier platform's error. */
  lemma SizeMismatchAborts(name: string, s: Settings, entries: Resolved, meta: Option<BuildMetadata>,
                           fetch: Fetcher, hexDigest: HexDigest, i: nat)
    requires i < |entries|
    requires var (asset, cfg) := entries[i].1;
      asset.size.Some? && asset.name.Some? && Truthy(cfg.path) &&
      (cfg.format.Given? || GuessFormat(asset.name.value).Some?) &&
      FreshHash(fetch, hexDigest, KeyFor(s, asset.name.value, cfg, asset.size.value)).SizeMismatch?
    ensures BuildManifest(name, s, entries, meta, fetch, hexDigest).Failure?
    ensures (forall k :: 0 <= k < i ==> EntryFor(s, entries[k].1.0, entries[k].1.1, fetch, hexDigest).Success?) ==>
      var asset := entries[i].1.0;
      BuildManifest(name, s, entries, meta, fetch, hexDigest).error ==
        IntegrityError(asset.name.value, asset.size.value, |fetch(s.repo, s.tag, asset.name.value)|)
  {
    ManifestAllOrNothing(name, s, entries, meta, fetch, hexDigest);
    var (asset, cfg) := entries[i].1;
    EntryForSpec(s, asset, cfg, fetch, hexDigest);
    assert EntryFor(s, asset, cfg, fetch, hexDigest).Failure?;
    if forall k :: 0 <= k < i ==> EntryFor(s, entries[k].1.0, entries[k].1.1, fetch, hexDigest).Success? {
      var j := ManifestFirstError(name, s, entries, meta, fetch, hexDigest);
      assert j == i;
    }
  }

  /** With the HTTP provider on and the release provider off, every entry's
      providers list is exactly the asset's URL. */
  lemma HttpOnlyProviders(name: string, s: Settings, entries: Resolved, meta: Option<BuildMetadata>, fetch: Fetcher, hexDigest: HexDigest)
    requires s.includeHttp && !s.includeRelease
    requires BuildManifest(name, s, entries, meta, fetch, hexDigest).Success?
    ensures var m := BuildManifest(name, s, entries, meta, fetch, hexDigest).value;
      forall i :: 0 <= i < |m.platforms| ==> m.platforms[i].1.providers == [HttpProvider(entries[i].1.0.url)]
  {
    ManifestShape(name, s, entries, meta, fetch, hexDigest);
    forall i | 0 <= i < |entries| {
      EntryForSpec(s, entries[i].1.0, entries[i].1.1, fetch, hexDigest);
    }
  }

  /** A platform whose `format` key is present but falsy (`null` or `""`) has
      no `format` key in its entry; a present truthy one is copied verbatim. */
  lemma ExplicitFormatVerbatim(name: string, s: Settings, entries: Resolved, meta: Option<BuildMetadata>, fetch: Fetcher, hexDigest: HexDigest)
    requires BuildManifest(name, s, entries, meta, fetch, hexDigest).Success?
    ensures var m := BuildManifest(name, s, entries, meta, fetch, hexDigest).value;
      forall i :: 0 <= i < |entries| && entries[i].1.1.format.Given? ==>
        m.platforms[i].1.format == (if Truthy(entries[i].1.1.format.value) then entries[i].1.1.format.value else None)
  {
    ManifestShape(name, s, entries, meta, fetch, hexDigest);
    forall i | 0 <= i < |entries| {
      EntryForSpec(s, entries[i].1.0, entries[i].1.1, fetch, hexDigest);
    }
  }

  /** The digest cache across one output: a successful output calls
      `compute_hash` once per platform, in order, and downloads each distinct
      key not already cached exactly once; any output downloads at most once
      per platform. */
  lemma ManifestDownloads(name: string, s: Settings, entries: Resolved, meta: Option<BuildMetadata>,
                          fetch: Fetcher, hexDigest: HexDigest, c: Memo)
    ensures Downloads(fetch, hexDigest, c, HashedKeys(s, fetch, hexDigest, entries)) <= |entries|
    ensures BuildManifest(name, s, entries, meta, fetch, hexDigest).Success? ==>
      var calls := HashedKeys(s, fetch, hexDigest, entries);
      && |calls| == |entries|
      && (forall i :: 0 <= i < |entries| ==> Some(calls[i]) == HashKeyOf(s, entries[i].1.0, entries[i].1.1))
      && Downloads(fetch, hexDigest, c, calls) == |MissingKeys(calls, c)|
  {
    var calls := HashedKeys(s, fetch, hexDigest, entries);
    HashedKeysInOrder(s, fetch, hexDigest, entries);
    DownloadsAtMost(fetch, hexDigest, c, calls);
    if BuildManifest(name, s, entries, meta, fetch, hexDigest).Success? {
      ManifestAllOrNothing(name, s, entries, meta, fetch, hexDigest);
      forall i | 0 <= i < |entries|
        ensures HashKeyOf(s, entries[i].1.0, entries[i].1.1).Some? &&
          FreshHash(fetch, hexDigest, HashKeyOf(s, entries[i].1.0, entries[i].1.1).value).Digest?
      {
        HashKeyOfSpec(s, entries[i].1.0, entries[i].1.1, fetch, hexDigest);
      }
      HashedKeysAll(s, fetch, hexDigest, entries);
      DownloadsOncePerKey(fetch, hexDigest, c, calls);
    }
  }
}
