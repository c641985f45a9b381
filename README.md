# dotslash-publish-release manifest generation, modelled in Dafny

`process_config.py` turns a release's uploaded assets and a JSON
configuration into DotSlash manifest files, one per output. This project
models that core and proves properties of it.

- **Format inference** (`guess_artifact_format_from_asset_name`):
  `Formats.GuessFormat` is the source's ordered chain of suffix tests.
  `Formats.Suffixes` is an independent table of the recognised suffixes.
  Lemmas prove that the chain picks the longest suffix it recognises.
- **The release catalog** (the uploaded-state dictionary comprehension of
  `get_release_assets`): in `Catalog.CatalogOf`, an asset inserted later
  under an existing name overwrites the value but keeps the original
  position, so the names stand in the order of their first upload.
- **Platform resolution** (`map_platforms`): `Resolver.MapPlatforms` is the
  nested-loop method with early returns. It is proved equal to the
  specification function `Resolver.MapPlatformsSpec`. `Resolver.FindAsset`
  is the inner scan with its `break`.
- **The memoised digest** (`compute_hash` under `functools.cache`):
  `Digest.DigestCache` is a class with a `map` cache keyed by all six
  arguments and a download counter. `Digest.HashChunks` is the 4096-byte read
  loop. `Digest.MemoAll` and `Digest.Downloads` give the table and the
  download count after a sequence of calls.
- **Manifest building** (`generate_manifest_file`): `Manifest.BuildEntry` is
  the per-platform body. `Manifest.BuildPlatforms` is the loop that fills
  `platforms`. `Manifest.GenerateManifest` assembles the document and renders
  it after the `#!/usr/bin/env dotslash` line. They are proved equal to the
  specification functions `Manifest.EntryFor` and `Manifest.BuildManifest`.
  `Manifest.HashedKeys` is the sequence of `compute_hash` calls the loop
  makes, which fixes what the cache and the download count become.

Python dictionaries keep insertion order, and the code iterates over them in
that order. `Dicts.Dict` models one as a sequence of (key, value) pairs with
distinct keys. `map_platforms` and the loop of `generate_manifest_file`
share one shape: walk a dictionary in order, stop at the first error,
otherwise insert each result under the same key. `Collect.CollectAll` states
that shape once, and its lemmas are proved once.

The collaborators are passed in as functions:
- the regular-expression engine (`Resolver.Matcher`, the answer of
  `re.compile(pattern).match(name)`, anchored at the start of the name);
- the download (`Digest.Fetcher`, giving the downloaded bytes);
- the hash algorithms with their hex encoding (`Digest.HexDigest`);
- the JSON serialiser (`Manifest.JsonWriter`).

Behaviour of the code that the model keeps:
- With both provider flags at their defaults, the code emits the URL
  provider and then the release provider.
- A `format` key present with the empty string is dropped from the entry,
  just like `null`.
- A present `format` value is copied without any check that it names a real
  format.
- An unsupported `hash` algorithm yields a `null` digest, and that `null` is
  memoised; it is not an error.
- The temporary directory is part of the memo key.

## Model

| member | source | states |
|---|---|---|
| Formats.Tag | process_config.py:453-468 | every inferred tag is a non-empty string, so an inferred format is never dropped from an entry |
| Formats.GuessFormat | process_config.py:452-471 | the chain of suffix tests; its partners, against the independent table `Formats.Suffixes`, are `Formats.GuessIsLongestMatch` and `Formats.GuessNoneIff` |
| Formats.SuffixSlice | process_config.py:453-467 | the backwards character test `EndsWith` is exactly `str.endswith`: the suffix fits and equals the name's last characters |
| Formats.NotBoth | process_config.py:453-467 | two suffixes that differ at some position counted from the end never both end one name |
| Formats.GuessIsLongestMatch | process_config.py:452-471 | whenever table entry i is the longest listed suffix ending the name, inference returns entry i's format; compound suffixes win over their tails |
| Formats.GuessNoneIff | process_config.py:469-471 | inference returns `None` exactly when no listed suffix ends the name |
| Formats.SameTail | process_config.py:453-467 | a common tail can be dropped from both sides of a suffix test |
| Formats.TailGz | process_config.py:453-462 | a name ending in `.gz` is `tar.gz` if its stem ends in `.tar`, otherwise `gz` |
| Formats.TailZst | process_config.py:455-464 | a name ending in `.zst` is `tar.zst` if its stem ends in `.tar`, otherwise `zst` |
| Formats.TailXz | process_config.py:457-466 | a name ending in `.xz` is `tar.xz` if its stem ends in `.tar`, otherwise `xz` |
| Config.HashAlgorithm | process_config.py:219 | the algorithm is the platform's `hash` value, and `blake3` when the key is absent |
| Config.Truthy | process_config.py:321-326 | Python truthiness of an optional string, as in `if name and name_regex`, `if not path` (:231) and `if not asset_format` (:241, :279): `None` and `""` are false; used by `Resolver.SelectorOf`, `Manifest.FormatKey` and `Manifest.EntryForSpec` |
| Dicts.Put | process_config.py:282 | dictionary assignment `d[k] = v`, keeping an existing key's position; its contract is `Dicts.PutSpec` |
| Dicts.IndexOf | process_config.py:338 | a reported position holds the key; no position is reported only when the key is absent |
| Dicts.Get | process_config.py:338 | lookup succeeds exactly for present keys and gives that key's value |
| Dicts.PutSpec | process_config.py:282 | assignment appends a new key, keeps an existing key's position, maps the key to the new value, and leaves every other position alone |
| Dicts.PutOther | process_config.py:449 | assigning one key does not change the lookup of any other key |
| Catalog.CatalogHoldsUploaded | process_config.py:449 | every catalog value is an uploaded asset whose name is its key |
| Catalog.CatalogStep | process_config.py:449 | one more asset changes the lookup of a name only when that asset is uploaded under the name, and then to that asset |
| Catalog.CatalogKeys | process_config.py:449 | a name is missing from the catalog exactly when no uploaded asset carries it |
| Catalog.CatalogKeepsLast | process_config.py:449 | the catalog value under a name is the last uploaded asset carrying it |
| Catalog.CatalogOf | process_config.py:449 | the uploaded-state comprehension, one insertion per listed asset; its contracts are the `Catalog` lemmas |
| Catalog.CatalogFirstUploadOrder | process_config.py:449 | catalog order is first-upload order: the name at an earlier position was uploaded before the name at any later position was uploaded at all |
| Collect.CollectAll | process_config.py:317-356 | the ordered, stop-at-first-error walk shared by `map_platforms` and the loop of `generate_manifest_file` (:217-282); its contracts are `Collect.CollectStep`, `CollectNext`, `CollectFailureSticks`, `CollectSuccess`, `CollectValues`, `CollectKeys`, `CollectKeyFresh` and `CollectFailure` |
| Collect.CollectStep | process_config.py:317-356 | one more platform either ends the walk with its error or inserts its result under its key |
| Collect.CollectNext | process_config.py:217-282 | after an item's outcome, a failure is the whole walk's result, and a success extends the collected dictionary by that item |
| Collect.CollectFailureSticks | process_config.py:325-354 | once a prefix of the walk fails, the whole walk fails with the same error |
| Collect.CollectSuccess | process_config.py:317-356 | the walk succeeds exactly when every item succeeds |
| Collect.CollectValues | process_config.py:317-356 | a successful walk has one pair per item, in order, with the item's key and its own result |
| Collect.CollectKeys | process_config.py:317-356 | a successful walk yields exactly the input keys, in order |
| Collect.CollectKeyFresh | process_config.py:338-339 | during the walk the next key is never already collected, so the membership test after a scan reflects only that scan |
| Collect.CollectFailure | process_config.py:325-354 | a failed walk reports the error of the first failing item, and every earlier item succeeded |
| Resolver.Meets | process_config.py:334-347 | the test a catalog name must pass: equality with `name`, or the engine's `regex.match` answer; the scans built on it are `Resolver.FirstMatch` and `Resolver.FindAsset` |
| Resolver.ResolveOne | process_config.py:319-354 | one platform's outcome; its contract is `Resolver.ResolveOneSpec` |
| Resolver.MapPlatformsSpec | process_config.py:299-356 | what `map_platforms` returns; its partners are `Resolver.ParseErrorIffNoPlatforms`, `Resolver.MapPlatformsPairsFirstMatch` and `Resolver.MapPlatformsStopsAtFirstError` |
| Resolver.SelectorOf | process_config.py:319-332 | both truthy gives `BothNameAndRegex`, neither gives `NeitherNameNorRegex`, otherwise the truthy one selects |
| Resolver.FirstMatch | process_config.py:334-349 | a reported index is the first catalog entry meeting the selector; none is reported only when no entry meets it |
| Resolver.FirstMatchIsUnique | process_config.py:334-349 | the scan finds exactly the first entry meeting the selector |
| Resolver.ResolveOneSpec | process_config.py:319-354 | a platform resolves to the two selector errors, to `NoMatchForAsset` exactly when no catalog entry meets its selector, or else to the first such entry's asset with its own config |
| Resolver.MapPlatforms | process_config.py:299-356 | the looping procedure returns exactly what the specification `MapPlatformsSpec` gives |
| Resolver.FindAsset | process_config.py:334-349 | either inner scan, by name (:334-337) or by regex (:346-349), with its `break`: it returns the first catalog index meeting the selector, and none when no entry does |
| Resolver.ParseErrorIffNoPlatforms | process_config.py:312-315 | `ParseError` is returned exactly when `platforms` is missing |
| Resolver.MapPlatformsPairsFirstMatch | process_config.py:317-356 | on success the map has exactly the configured keys in configuration order, each paired with the first catalog asset its selector meets and its own config |
| Resolver.MapPlatformsStopsAtFirstError | process_config.py:318-354 | on failure some platform fails, all before it resolved, and the error matches its cause: both selectors, neither, or no catalog asset meeting the selector |
| Digest.HashChunks | process_config.py:400-412 | the digest is the hash of the whole file, fed in order in non-empty pieces of at most 4096 bytes, all but the last exactly 4096 |
| Digest.FreshHash | process_config.py:373-412 | one uncached call: download, size comparison, then the digest of a supported algorithm or `None`; `Digest.DigestCache.ComputeHash` is proved to return it |
| Digest.MemoStep | process_config.py:359-398 | the memo table after one call: unchanged on a hit and on a size mismatch, the digest added on any other miss |
| Digest.MemoAll | process_config.py:359-412 | the memo table after a sequence of calls, in order |
| Digest.Downloads | process_config.py:359-383 | the downloads made by a sequence of calls: one per call whose key is not yet in the table |
| Digest.MemoAllGrows | process_config.py:359 | calls never change or drop an existing table entry, and add only keys they were called on |
| Digest.DownloadsAtMost | process_config.py:359-383 | a sequence of calls downloads at most once per call |
| Digest.DownloadsOncePerKey | process_config.py:359-412 | when no call raises, each distinct key not already cached is downloaded exactly once, however often it is asked for |
| Digest.DigestCache.constructor | process_config.py:359 | a new cache is empty, has made no downloads, and keeps its invariant |
| Digest.DigestCache.ComputeHash | process_config.py:359-412 | the result is a fresh call's. A hit downloads nothing and changes nothing. A miss downloads once, caches nothing on a size mismatch, and otherwise caches the digest, `None` included |
| Digest.RepeatedCall | process_config.py:359-412 | two identical calls agree, and the second downloads only if the first raised a size mismatch |
| Manifest.Providers | process_config.py:251-266 | the URL provider comes first when its flag is on, the release provider last when its flag is on, and the list has one element per enabled flag |
| Manifest.KeyFor | process_config.py:247-249 | the argument tuple of the `compute_hash` call: repository, temporary directory, tag, asset name, algorithm and declared size; `Manifest.HashKeyOfSpec` and `Manifest.EntryForSpec` state when and with what result it is called |
| Manifest.FormatKey | process_config.py:277-280 | a truthy chosen format is kept unchanged; a falsy one deletes the key, so a written format is never empty |
| Manifest.ChosenFormat | process_config.py:235-245 | the `format` key's own value when the key is present, otherwise the inferred tag; `Manifest.EntryForSuccess` states that the entry carries it |
| Manifest.EntryFor | process_config.py:217-280 | one platform's entry or error; its contracts are `Manifest.EntryForSpec` and `Manifest.EntryForSuccess` |
| Manifest.EntryForSpec | process_config.py:217-282 | an entry fails on missing size, missing name, missing or empty path, or an uninferable format, in that order; a platform that passes those checks and whose download has the wrong size fails with the integrity error naming the asset, its declared and its downloaded size, and that error arises only this way; a built entry has the size, the algorithm, the fresh digest, the path, the providers, and the given format (dropped when falsy) or the inferred tag |
| Manifest.EntryForSuccess | process_config.py:235-280 | when every check passes, the entry is determined: the format is the given value (dropped when falsy) or the inferred tag |
| Manifest.BuildEntry | process_config.py:217-280 | the per-platform body returns exactly `EntryFor` and keeps the digest cache valid; a platform that fails a check before `compute_hash` leaves the cache and the download count alone, otherwise the cache takes one `MemoStep` on the platform's key and the count grows by one on a miss |
| Manifest.BuildPlatforms | process_config.py:215-282 | the loop returns exactly the ordered walk of `EntryFor` over the resolved platforms, stopping at the first error; the cache afterwards is `MemoAll` over the loop's calls `HashedKeys`, and the download count grows by their `Downloads` |
| Manifest.BuildManifest | process_config.py:284-287 | a built manifest carries the output's name and exactly the resolved platform keys, in order |
| Manifest.MetadataTruthy | process_config.py:290 | `if build_metadata:`: absent and empty metadata are falsy; `Manifest.ManifestShape` states that the metadata appears exactly when it is truthy |
| Manifest.Render | process_config.py:293-296 | the file text is the `dotslash` interpreter line, a blank line, the serialised manifest and a final newline |
| Manifest.GenerateManifest | process_config.py:206-296 | the procedure returns exactly the rendered `BuildManifest`, or its error, keeps the digest cache valid, leaves it as `MemoAll` over the calls `HashedKeys`, and adds their `Downloads` to the count |
| Manifest.ManifestShape | process_config.py:282-291 | a built manifest has the name, the platform keys in order each with its own entry, and the build metadata only when it is truthy |
| Manifest.ManifestAllOrNothing | process_config.py:217-282 | a manifest is produced exactly when every platform's entry builds |
| Manifest.ManifestFirstError | process_config.py:217-249 | a failed manifest reports the first failing platform's error, and every earlier platform built |
| Manifest.SizeMismatchAborts | process_config.py:247-249 | a size mismatch on a platform that passes its checks means no manifest; when every earlier platform built, the error is the integrity error naming that asset, its declared and its downloaded size |
| Manifest.HttpOnlyProviders | process_config.py:251-266 | with only the URL provider enabled, every entry's providers list is exactly the asset's URL |
| Manifest.ExplicitFormatVerbatim | process_config.py:235-238 | a present `format` key is used without inference: a truthy value verbatim, a falsy one as no `format` key |
| Manifest.HashKeyOf | process_config.py:217-249 | the `compute_hash` key of a platform whose checks before the call pass |
| Manifest.HashKeyOfSpec | process_config.py:217-249 | a platform without a key fails with a check's error, never the size mismatch; a platform with one builds exactly when the call returns a digest |
| Manifest.HashedKeys | process_config.py:215-249 | the loop's `compute_hash` calls in order, up to the first failing platform |
| Manifest.HashedKeysFrom | process_config.py:215-249 | the calls from platform `i` on: none when its checks fail, only its own when the call raises, otherwise its own followed by those of the later platforms |
| Manifest.HashedKeysInOrder | process_config.py:215-249 | the loop calls at most once per platform, and its `j`-th call is the `j`-th platform's key |
| Manifest.HashedKeysAll | process_config.py:215-249 | when every platform reaches the call and none raises, there is one call per platform |
| Manifest.ManifestDownloads | process_config.py:215-249 | an output downloads at most once per platform; a successful one calls once per platform in order and downloads each distinct key not already cached exactly once, so two platforms on the same asset and algorithm share one download |
| Scenarios.RegexPicksLinux | process_config.py:345-349 | `^tool-linux` picks `tool-linux-x64.tar.gz` over the macOS asset when the engine matches it at the start of the name |
| Scenarios.EndAnchorSkipsChecksum | process_config.py:345-349 | with an engine for which `tool\.tar\.gz$` does not match `tool.tar.gz.sha256`, the earlier checksum asset is skipped and the archive is picked |
| Scenarios.CatalogOne | process_config.py:449 | a release with one uploaded asset has a one-entry catalog |
| Scenarios.ResolveByName | process_config.py:332-339 | a name selector resolves the platform to the uploaded asset of that name |
| Scenarios.BuildOne | process_config.py:215-291 | the one-platform manifest has the declared size, the algorithm, the file's digest, the inferred `tar.gz`, the path, and both providers in order |

## Left out

- The command line, the configuration download (`get_config`), the
  `gh release view` call, file writing, `chmod` and the upload step: these
  are process and network I/O around the core.
- `collect_build_metadata`: it reads environment variables and the clock.
  The build metadata is an opaque optional input.
- The BLAKE3 and SHA-256 algorithms and their hex encoding: they are
  foreign libraries, injected as one function from algorithm and bytes to a
  digest.
- The regular-expression engine: `re.compile(pattern).match(name)` is an
  injected predicate. Which names a pattern matches, including the effect of
  `$`, `\b` or a lookahead, is the engine's answer. The model proves the scans
  built on it for every such predicate.
- The temporary directory's freshness: `tempDir` in `Manifest.Settings` is an
  input of `Manifest.GenerateManifest`. In the source each
  `generate_manifest_file` call creates a fresh directory, so cache hits stay
  within one output; the model does not state or prove that.
- The temporary directory, `os.stat` and `gh release download`: the download
  is an injected function of (repository, tag, name). The directory path
  enters only as part of the memo key. The downloaded size is the length of
  the bytes.
- JSON serialisation: `json.dumps` is an injected function. Only the text
  around it is modelled.
- Catalog.CatalogOf: an uploaded asset whose `name` is `null` is dropped. In
  the source it would sit under a `None` key that no truthy name selector
  can equal and that `re.match` would reject with a type error.
- A missing `url` or `state` on an asset, which raises a lookup error in the
  source: assets always carry both in the model.
- A non-string `name`, `regex`, `path` or `hash` value in the configuration:
  the model's configuration fields are strings or absent.
- Config.HashAlgorithm: an explicit `"hash": null` is not represented. The
  source passes `None` to `compute_hash`, which returns a `null` digest, and
  writes `"hash": null` into the entry; the model has no such configuration.
- A non-string `format` value (`false`, `0`, a number or an object): the
  model's `format` key is a string or `null`. In the source a falsy one such
  as `false` or `0` deletes the key like `null` does, and a truthy one is
  copied into the entry as it is.
- The "no assets found" exception of `get_release_assets`: it is part of the
  listing call, not of the filter.
- Digest.DigestCache: the download is deterministic in the model, so a
  second miss on the same key fetches the same bytes.
- Exceptions other than the size mismatch (a failed download, a
  missing `url`) are not modelled.
