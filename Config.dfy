/**
  The parts of the JSON configuration the core reads: per output, an optional
  `platforms` dictionary; per platform, the selector (`name` or `regex`), the
  `hash` algorithm, the `path` and the optional `format` key.
 */
module Config {
  import opened Wrappers
  import opened Dicts

  /** The `format` key: absent, or present with a string or JSON `null`. The
      two are different: a present key switches inference off. */
  datatype FormatField = Absent | Given(value: Option<string>)

  /** One platform's configuration. `None` means the key is absent (or, for
      `name`, `regex` and `path`, JSON `null`). */
  datatype PlatformConfig = PlatformConfig(
    name: Option<string>,
    regex: Option<string>,
    hash: Option<string>,
    path: Option<string>,
    format: FormatField)

  /** One output's configuration: `platforms` may be missing. */
  datatype OutputConfig = OutputConfig(platforms: Option<Dict<string, PlatformConfig>>)

  /** Python truthiness of an optional string: `None` and `""` are false. */
  predicate Truthy(s: Option<string>) {
    s.Some? && s.value != ""
  }

  /** The hash algorithm named by a platform, `platform_config.get("hash", "blake3")`. */
  function HashAlgorithm(cfg: PlatformConfig): (algo: string)
    ensures cfg.hash.None? ==> algo == "blake3"
    ensures cfg.hash.Some? ==> algo == cfg.hash.value
  {
    cfg.hash.GetOr("blake3")
  }
}
