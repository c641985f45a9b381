/**
  Concrete runs of the model on small inputs: two regular-expression
  selectors, and one output built end to end from a one-asset release.
 */
module Scenarios {
  import opened Wrappers
  import opened Dicts
  import opened Formats
  import opened Config
  import opened Catalog
  import opened Resolver
  import opened Digest
  import opened Manifest
  import opened Collect

  /** The engine's answers for two patterns: `^tool-linux` matches every name
      starting with `tool-linux`, and `tool\.tar\.gz$` matches `tool.tar.gz`
      (with or without one trailing newline, where Python's `$` also matches). */
  function TwoPatterns(pattern: string, s: string): bool {
    (pattern == "^tool-linux" && |s| >= 10 && s[..10] == "tool-linux") ||
    (pattern == "tool\\.tar\\.gz$" && (s == "tool.tar.gz" || s == "tool.tar.gz\n"))
  }

  /** `^tool-linux` picks the Linux asset out of a Linux and a macOS asset,
      because `re.match` tests only from the start of the name. */
  lemma RegexPicksLinux(linux: Asset, mac: Asset)
    ensures ResolveOne(TwoPatterns, [("tool-linux-x64.tar.gz", linux), ("tool-macos.tar.gz", mac)],
                       PlatformConfig(None, Some("^tool-linux"), None, Some("tool"), Absent)) ==
      Success((linux, PlatformConfig(None, Some("^tool-linux"), None, Some("tool"), Absent)))
  {
    var catalog := [("tool-linux-x64.tar.gz", linux), ("tool-macos.tar.gz", mac)];
    assert catalog[0].0[..10] == "tool-linux";
    FirstMatchIsUnique(TwoPatterns, catalog, ByRegex("^tool-linux"), 0);
  }

  /** An end-anchored pattern skips an earlier checksum file whose name only
      starts like the archive's, and picks the archive. */
  lemma EndAnchorSkipsChecksum(sum: Asset, archive: Asset)
    ensures ResolveOne(TwoPatterns, [("tool.tar.gz.sha256", sum), ("tool.tar.gz", archive)],
                       PlatformConfig(None, Some("tool\\.tar\\.gz$"), None, Some("tool"), Absent)) ==
      Success((archive, PlatformConfig(None, Some("tool\\.tar\\.gz$"), None, Some("tool"), Absent)))
  {
    var catalog := [("tool.tar.gz.sha256", sum), ("tool.tar.gz", archive)];
    assert !TwoPatterns("tool\\.tar\\.gz$", catalog[0].0) by {
      assert |catalog[0].0| == 18;
    }
    FirstMatchIsUnique(TwoPatterns, catalog, ByRegex("tool\\.tar\\.gz$"), 1);
  }

  /** A fetch that returns 1024 zero bytes for every asset. */
  function KiB(repo: string, tag: string, name: string): Bytes {
    seq(1024, _ => 0 as bv8)
  }

  const LinuxAsset := Asset(Some("tool-linux.tar.gz"), "https://x/tool-linux.tar.gz", Some(1024), "uploaded")
  const LinuxConfig := PlatformConfig(Some("tool-linux.tar.gz"), None, Some("sha256"), Some("tool"), Absent)
  const Release := Settings("https://github.com/o/r", "v1", "/tmp/d", true, true)

  /** The catalog of a release with one uploaded asset. */
  lemma CatalogOne()
    ensures CatalogOf([LinuxAsset]) == [("tool-linux.tar.gz", LinuxAsset)]
  {
    assert CatalogOf([LinuxAsset][..0]) == [];
    assert Put([], "tool-linux.tar.gz", LinuxAsset) == [("tool-linux.tar.gz", LinuxAsset)];
  }

  /** The name selector resolves the platform to the one uploaded asset. */
  lemma ResolveByName()
    ensures MapPlatformsSpec(TwoPatterns, OutputConfig(Some([("linux-x64", LinuxConfig)])), CatalogOf([LinuxAsset])) ==
      Success([("linux-x64", (LinuxAsset, LinuxConfig))])
  {
    var asset, cfg := LinuxAsset, LinuxConfig;
    CatalogOne();
    var catalog := CatalogOf([asset]);
    FirstMatchIsUnique(TwoPatterns, catalog, ByName("tool-linux.tar.gz"), 0);
    assert ResolveOne(TwoPatterns, catalog, cfg) == Success((asset, cfg));
    var ps: Dict<string, PlatformConfig> := [("linux-x64", cfg)];
    assert ps[..0] == [];
    assert CollectAll(PlatformResolver(TwoPatterns, catalog), ps[..0]) == Success([]);
    assert Put([], "linux-x64", (asset, cfg)) == [("linux-x64", (asset, cfg))];
  }

  /** The entry built for that platform: the declared size, the algorithm, the
      digest of the fetched bytes, the inferred `tar.gz` format, the path and,
      with both providers on, the URL followed by the release reference. */
  lemma BuildOne(hexDigest: HexDigest)
    ensures BuildManifest("tool", Release, [("linux-x64", (LinuxAsset, LinuxConfig))], None, KiB, hexDigest) ==
      Success(Manifest("tool", [("linux-x64",
        Entry(1024, "sha256", Some(hexDigest("sha256", KiB("https://github.com/o/r", "v1", "tool-linux.tar.gz"))),
              Some("tar.gz"), "tool",
              [HttpProvider("https://x/tool-linux.tar.gz"), ReleaseProvider("https://github.com/o/r", "v1", "tool-linux.tar.gz")]))],
        None))
  {
    var asset, cfg, s := LinuxAsset, LinuxConfig, Release;
    var entries: Resolved := [("linux-x64", (asset, cfg))];
    assert entries[..0] == [];
    SuffixSlice("tool-linux.tar.gz", ".tar.gz");
    assert "tool-linux.tar.gz"[10..] == ".tar.gz";
    assert GuessFormat("tool-linux.tar.gz") == Some(TarGz);
    var data := KiB("https://github.com/o/r", "v1", "tool-linux.tar.gz");
    assert |data| == 1024;
    assert FreshHash(KiB, hexDigest, KeyFor(s, "tool-linux.tar.gz", cfg, 1024)) == Digest(Some(hexDigest("sha256", data)));
    EntryForSuccess(s, asset, cfg, KiB, hexDigest);
    var entry := Entry(1024, "sha256", Some(hexDigest("sha256", data)), Some("tar.gz"), "tool",
                       [HttpProvider("https://x/tool-linux.tar.gz"), ReleaseProvider("https://github.com/o/r", "v1", "tool-linux.tar.gz")]);
    assert ChosenFormat(cfg, "tool-linux.tar.gz") == Some("tar.gz");
    assert FormatKey(Some("tar.gz")) == Some("tar.gz");
    assert HashAlgorithm(cfg) == "sha256";
    assert Providers(s, asset.url, "tool-linux.tar.gz") == entry.providers;
    assert EntryFor(s, asset, cfg, KiB, hexDigest) == Success(entry);
    assert CollectAll(EntryBuilder(s, KiB, hexDigest), entries[..0]) == Success([]);
    assert Put([], "linux-x64", entry) == [("linux-x64", entry)];
    assert CollectAll(EntryBuilder(s, KiB, hexDigest), entries) == Success([("linux-x64", entry)]);
  }
}
