/**
  Inference of an artifact's packaging format from its file name
  (`guess_artifact_format_from_asset_name`): an ordered chain of suffix tests,
  first match wins.
 */
module Formats {
  import opened Wrappers

  /** The packaging tags a manifest may carry. */
  datatype Format = TarGz | TarZst | TarXz | Tar | Gz | Zst | Xz | Zip

  /** The tag written into the manifest for each format. */
  function Tag(f: Format): (t: string)
    ensures t != ""
  {
    match f
    case TarGz => "tar.gz"
    case TarZst => "tar.zst"
    case TarXz => "tar.xz"
    case Tar => "tar"
    case Gz => "gz"
    case Zst => "zst"
    case Xz => "xz"
    case Zip => "zip"
  }

  /** Python's `s.endswith(suffix)`, compared from the last character
      backwards (SuffixSlice shows it is the usual slice comparison). */
  predicate EndsWith(s: string, suffix: string)
    decreases |suffix|
  {
    |suffix| <= |s| &&
    (|suffix| == 0 ||
     (s[|s| - 1] == suffix[|suffix| - 1] && EndsWith(s[..|s| - 1], suffix[..|suffix| - 1])))
  }

  lemma {:induction false} SuffixSlice(s: string, suffix: string)
    ensures EndsWith(s, suffix) <==> |suffix| <= |s| && s[|s| - |suffix|..] == suffix
    decreases |suffix|
  {
    if |suffix| <= |s| && |suffix| > 0 {
      var s', x' := s[..|s| - 1], suffix[..|suffix| - 1];
      SuffixSlice(s', x');
      assert s[|s| - |suffix|..] == s'[|s'| - |x'|..] + [s[|s| - 1]];
      assert suffix == x' + [suffix[|suffix| - 1]];
    }
  }

  /** The suffix chain, exactly as the source tests it, top to bottom. */
  function GuessFormat(assetName: string): Option<Format> {
    if EndsWith(assetName, ".tar.gz") || EndsWith(assetName, ".tgz") then Some(TarGz)
    else if EndsWith(assetName, ".tar.zst") || EndsWith(assetName, ".tzst") then Some(TarZst)
    else if EndsWith(assetName, ".tar.xz") then Some(TarXz)
    else if EndsWith(assetName, ".tar") then Some(Tar)
    else if EndsWith(assetName, ".gz") then Some(Gz)
    else if EndsWith(assetName, ".zst") then Some(Zst)
    else if EndsWith(assetName, ".xz") then Some(Xz)
    else if EndsWith(assetName, ".zip") then Some(Zip)
    else None
  }

  /** The recognised suffixes and the format each one means, as a table: the
      reference against which the ordering of the chain is judged. */
  const Suffixes: seq<(string, Format)> :=
    [(".tar.gz", TarGz), (".tgz", TarGz), (".tar.zst", TarZst), (".tzst", TarZst),
     (".tar.xz", TarXz), (".tar", Tar), (".gz", Gz), (".zst", Zst), (".xz", Xz),
     (".zip", Zip)]

  /** Two suffixes that differ at the `k`-th character from the end cannot
      both end one name. */
  lemma NotBoth(s: string, x: string, y: string, k: nat)
    requires k < |y| <= |x| && x[|x| - 1 - k] != y[|y| - 1 - k]
    ensures !(EndsWith(s, x) && EndsWith(s, y))
  {
    SuffixSlice(s, x);
    SuffixSlice(s, y);
  }

  /** Entry `i` of the table is the longest listed suffix that ends `s`. */
  ghost predicate LongestMatch(s: string, i: nat) {
    i < |Suffixes| && EndsWith(s, Suffixes[i].0) &&
    forall j :: 0 <= j < |Suffixes| && EndsWith(s, Suffixes[j].0) ==> |Suffixes[j].0| <= |Suffixes[i].0|
  }

  /** The order of the chain makes it pick the longest listed suffix: compound
      suffixes such as `.tar.gz` win over their tails such as `.gz`. */
  lemma {:induction false} GuessIsLongestMatch(assetName: string, i: nat)
    requires LongestMatch(assetName, i)
    ensures GuessFormat(assetName) == Some(Suffixes[i].1)
  {
    var s := assetName;
    assert !EndsWith(s, Suffixes[0].0) ==> !EndsWith(s, ".tar.gz");
    if i == 2 {
      NotBoth(s, ".tar.zst", ".tar.gz", 0);
      NotBoth(s, ".tar.zst", ".tgz", 0);
    } else if i == 3 {
      NotBoth(s, ".tzst", ".tgz", 0);
      assert |Suffixes[0].0| > |Suffixes[3].0|;
    } else if i == 4 {
      NotBoth(s, ".tar.xz", ".tar.gz", 1);
      NotBoth(s, ".tar.xz", ".tgz", 1);
      NotBoth(s, ".tar.xz", ".tzst", 0);
      assert |Suffixes[2].0| > |Suffixes[4].0|;
    } else if i == 5 {
      NotBoth(s, ".tar", ".tgz", 0);
      assert |Suffixes[0].0| > |Suffixes[5].0|;
      assert |Suffixes[2].0| > |Suffixes[5].0|;
      assert |Suffixes[3].0| > |Suffixes[5].0|;
      assert |Suffixes[4].0| > |Suffixes[5].0|;
    } else if i == 6 {
      assert |Suffixes[0].0| > |Suffixes[6].0|;
      assert |Suffixes[1].0| > |Suffixes[6].0|;
      assert |Suffixes[2].0| > |Suffixes[6].0|;
      assert |Suffixes[3].0| > |Suffixes[6].0|;
      assert |Suffixes[4].0| > |Suffixes[6].0|;
      assert |Suffixes[5].0| > |Suffixes[6].0|;
    } else if i == 7 {
      NotBoth(s, ".zst", ".tgz", 0);
      NotBoth(s, ".zst", ".tar", 0);
      NotBoth(s, ".zst", ".gz", 0);
      assert |Suffixes[0].0| > |Suffixes[7].0|;
      assert |Suffixes[2].0| > |Suffixes[7].0|;
      assert |Suffixes[3].0| > |Suffixes[7].0|;
      assert |Suffixes[4].0| > |Suffixes[7].0|;
    } else if i == 8 {
      NotBoth(s, ".xz", ".gz", 1);
      assert |Suffixes[0].0| > |Suffixes[8].0|;
      assert |Suffixes[1].0| > |Suffixes[8].0|;
      assert |Suffixes[2].0| > |Suffixes[8].0|;
      assert |Suffixes[3].0| > |Suffixes[8].0|;
      assert |Suffixes[4].0| > |Suffixes[8].0|;
      assert |Suffixes[5].0| > |Suffixes[8].0|;
      assert |Suffixes[7].0| > |Suffixes[8].0|;
    } else if i == 9 {
      NotBoth(s, ".zip", ".tgz", 0);
      NotBoth(s, ".zip", ".tar", 0);
      NotBoth(s, ".zip", ".gz", 0);
      NotBoth(s, ".zip", ".zst", 0);
      NotBoth(s, ".zip", ".xz", 0);
      assert |Suffixes[0].0| > |Suffixes[9].0|;
      assert |Suffixes[2].0| > |Suffixes[9].0|;
      assert |Suffixes[3].0| > |Suffixes[9].0|;
      assert |Suffixes[4].0| > |Suffixes[9].0|;
    }
  }

  /** Inference finds nothing exactly when no listed suffix ends the name. */
  lemma GuessNoneIff(assetName: string)
    ensures GuessFormat(assetName).None? <==>
      forall i :: 0 <= i < |Suffixes| ==> !EndsWith(assetName, Suffixes[i].0)
  {
    var s := assetName;
    if GuessFormat(s).None? {
      forall i | 0 <= i < |Suffixes| ensures !EndsWith(s, Suffixes[i].0) {
        assert Suffixes[i].0 in [".tar.gz", ".tgz", ".tar.zst", ".tzst", ".tar.xz", ".tar", ".gz", ".zst", ".xz", ".zip"];
      }
    } else if EndsWith(s, ".tar.gz") { assert Suffixes[0].0 == ".tar.gz";
    } else if EndsWith(s, ".tgz") { assert Suffixes[1].0 == ".tgz";
    } else if EndsWith(s, ".tar.zst") { assert Suffixes[2].0 == ".tar.zst";
    } else if EndsWith(s, ".tzst") { assert Suffixes[3].0 == ".tzst";
    } else if EndsWith(s, ".tar.xz") { assert Suffixes[4].0 == ".tar.xz";
    } else if EndsWith(s, ".tar") { assert Suffixes[5].0 == ".tar";
    } else if EndsWith(s, ".gz") { assert Suffixes[6].0 == ".gz";
    } else if EndsWith(s, ".zst") { assert Suffixes[7].0 == ".zst";
    } else if EndsWith(s, ".xz") { assert Suffixes[8].0 == ".xz";
    } else { assert Suffixes[9].0 == ".zip";
    }
  }

  /** A common tail can be dropped from both sides of a suffix test. */
  lemma {:induction false} SameTail(a: string, b: string, c: string)
    ensures EndsWith(a + b, c + b) <==> EndsWith(a, c)
    decreases |b|
  {
    if b != [] {
      var b' := b[..|b| - 1];
      assert (a + b)[..|a + b| - 1] == a + b';
      assert (c + b)[..|c + b| - 1] == c + b';
      SameTail(a, b', c);
    } else {
      assert a + b == a && c + b == c;
    }
  }

  /** The bare compression suffixes give way to their `.tar` compounds: a
      name ending in `.gz` (below, also `.zst` and `.xz`) is a tarball exactly
      when the part before it ends in `.tar`. */
  lemma TailGz(stem: string)
    ensures GuessFormat(stem + ".gz") == if EndsWith(stem, ".tar") then Some(TarGz) else Some(Gz)
  {
    var n := stem + ".gz";
    assert EndsWith(n, ".tar.gz") <==> EndsWith(stem, ".tar") by {
      SameTail(stem, ".gz", ".tar");
      assert ".tar" + ".gz" == ".tar.gz";
    }
    if !EndsWith(stem, ".tar") {
      assert EndsWith(n, ".gz") by {
        SameTail(stem, ".gz", "");
        assert "" + ".gz" == ".gz";
      }
      assert !EndsWith(n, ".tgz") by { NotBoth(n, ".tgz", ".gz", 2); }
      assert !EndsWith(n, ".tar.zst") by { NotBoth(n, ".tar.zst", ".gz", 0); }
      assert !EndsWith(n, ".tzst") by { NotBoth(n, ".tzst", ".gz", 0); }
      assert !EndsWith(n, ".tar.xz") by { NotBoth(n, ".tar.xz", ".gz", 1); }
      assert !EndsWith(n, ".tar") by { NotBoth(n, ".tar", ".gz", 0); }
    }
  }

  lemma TailZst(stem: string)
    ensures GuessFormat(stem + ".zst") == if EndsWith(stem, ".tar") then Some(TarZst) else Some(Zst)
  {
    if EndsWith(stem, ".tar") {
      TailZstTar(stem);
    } else {
      TailZstBare(stem);
    }
  }

  lemma TailZstTar(stem: string)
    requires EndsWith(stem, ".tar")
    ensures GuessFormat(stem + ".zst") == Some(TarZst)
  {
    var n := stem + ".zst";
    SameTail(stem, ".zst", ".tar");
    assert ".tar" + ".zst" == ".tar.zst";
    NotBoth(n, ".tar.zst", ".tar.gz", 0);
    NotBoth(n, ".zst", ".tgz", 0);
  }

  lemma TailZstBare(stem: string)
    requires !EndsWith(stem, ".tar")
    ensures GuessFormat(stem + ".zst") == Some(Zst)
  {
    var n := stem + ".zst";
    assert EndsWith(n, ".zst") by {
      SameTail(stem, ".zst", "");
      assert "" + ".zst" == ".zst";
    }
    assert !EndsWith(n, ".tar.zst") by {
      SameTail(stem, ".zst", ".tar");
      assert ".tar" + ".zst" == ".tar.zst";
    }
    assert !EndsWith(n, ".tar.gz") by { NotBoth(n, ".tar.gz", ".zst", 0); }
    assert !EndsWith(n, ".tgz") by { NotBoth(n, ".tgz", ".zst", 0); }
    assert !EndsWith(n, ".tzst") by { NotBoth(n, ".tzst", ".zst", 3); }
    assert !EndsWith(n, ".tar.xz") by { NotBoth(n, ".tar.xz", ".zst", 0); }
    assert !EndsWith(n, ".tar") by { NotBoth(n, ".tar", ".zst", 0); }
    assert !EndsWith(n, ".gz") by { NotBoth(n, ".zst", ".gz", 0); }
  }

  lemma TailXz(stem: string)
    ensures GuessFormat(stem + ".xz") == if EndsWith(stem, ".tar") then Some(TarXz) else Some(Xz)
  {
    var n := stem + ".xz";
    assert EndsWith(n, ".tar.xz") <==> EndsWith(stem, ".tar") by {
      SameTail(stem, ".xz", ".tar");
      assert ".tar" + ".xz" == ".tar.xz";
    }
    assert !EndsWith(n, ".tar.gz") by { NotBoth(n, ".tar.gz", ".xz", 1); }
    assert !EndsWith(n, ".tgz") by { NotBoth(n, ".tgz", ".xz", 1); }
    assert !EndsWith(n, ".tar.zst") by { NotBoth(n, ".tar.zst", ".xz", 0); }
    assert !EndsWith(n, ".tzst") by { NotBoth(n, ".tzst", ".xz", 0); }
    if !EndsWith(stem, ".tar") {
      assert EndsWith(n, ".xz") by {
        SameTail(stem, ".xz", "");
        assert "" + ".xz" == ".xz";
      }
      assert !EndsWith(n, ".tar") by { NotBoth(n, ".tar", ".xz", 0); }
      assert !EndsWith(n, ".gz") by { NotBoth(n, ".gz", ".xz", 1); }
      assert !EndsWith(n, ".zst") by { NotBoth(n, ".zst", ".xz", 0); }
    }
  }
}
