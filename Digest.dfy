/**
  The memoised, size-checked digest of one release asset (`compute_hash`).
  The download, the file system and the hash algorithms are collaborators: a
  fetch function giving the downloaded bytes, and a function giving the
  lower-case hex digest of some bytes under an algorithm.
 */
module Digest {
  import opened Wrappers

  type Bytes = seq<bv8>

  /** Size of each read in the hashing loop. */
  const ChunkSize: nat := 4096

  /** (repository, tag, asset name) -> the bytes `gh release download` writes. */
  type Fetcher = (string, string, string) -> Bytes

  /** (algorithm, bytes) -> the lower-case hex digest of the bytes. */
  type HexDigest = (string, Bytes) -> string

  /** The six arguments of `compute_hash`, which `functools.cache` keys on. */
  datatype HashKey = HashKey(repo: string, tempDir: string, tag: string, name: string, algo: string, size: int)

  /** A digest (the JSON `null` of an unsupported algorithm is `None`), or the
      exception raised when the downloaded size differs from the declared one. */
  datatype HashResult = Digest(hex: Option<string>) | SizeMismatch(expected: int, actual: nat)

  predicate SupportedAlgorithm(algo: string) {
    algo == "blake3" || algo == "sha256"
  }

  /** What one uncached call of `compute_hash` produces: download, compare the
      size, then hash; any other algorithm falls off the end with `None`. */
  function FreshHash(fetch: Fetcher, hexDigest: HexDigest, k: HashKey): HashResult {
    var data := fetch(k.repo, k.tag, k.name);
    if |data| != k.size then SizeMismatch(k.size, |data|)
    else if SupportedAlgorithm(k.algo) then Digest(Some(hexDigest(k.algo, data)))
    else Digest(None)
  }

  /** The memo table of `functools.cache`: argument tuple -> returned digest. */
  type Memo = map<HashKey, Option<string>>

  /** The table after one call on `k`: a hit leaves it as it was; a miss adds
      the digest, but not the exception of a size mismatch. */
  function MemoStep(fetch: Fetcher, hexDigest: HexDigest, c: Memo, k: HashKey): Memo {
    if k in c then c
    else match FreshHash(fetch, hexDigest, k)
      case Digest(hex) => c[k := hex]
      case SizeMismatch(_, _) => c
  }

  /** The table after calls on `ks`, in order. */
  function MemoAll(fetch: Fetcher, hexDigest: HexDigest, c: Memo, ks: seq<HashKey>): Memo
    decreases |ks|
  {
    if ks == [] then c else MemoAll(fetch, hexDigest, MemoStep(fetch, hexDigest, c, ks[0]), ks[1..])
  }

  /** The downloads made by calls on `ks`, in order: one per miss. */
  function Downloads(fetch: Fetcher, hexDigest: HexDigest, c: Memo, ks: seq<HashKey>): nat
    decreases |ks|
  {
    if ks == [] then 0
    else (if ks[0] in c then 0 else 1) + Downloads(fetch, hexDigest, MemoStep(fetch, hexDigest, c, ks[0]), ks[1..])
  }

  /** Calls never change or drop an entry already in the table, and add only
      keys they were called on. */
  lemma {:induction false} MemoAllGrows(fetch: Fetcher, hexDigest: HexDigest, c: Memo, ks: seq<HashKey>)
    ensures forall k :: k in c ==> k in MemoAll(fetch, hexDigest, c, ks) && MemoAll(fetch, hexDigest, c, ks)[k] == c[k]
    ensures forall k :: k in MemoAll(fetch, hexDigest, c, ks) && k !in c ==> k in ks
    decreases |ks|
  {
    if ks != [] {
      MemoAllGrows(fetch, hexDigest, MemoStep(fetch, hexDigest, c, ks[0]), ks[1..]);
    }
  }

  /** Calls on `ks` download at most once each. */
  lemma {:induction false} DownloadsAtMost(fetch: Fetcher, hexDigest: HexDigest, c: Memo, ks: seq<HashKey>)
    ensures Downloads(fetch, hexDigest, c, ks) <= |ks|
    decreases |ks|
  {
    if ks != [] {
      DownloadsAtMost(fetch, hexDigest, MemoStep(fetch, hexDigest, c, ks[0]), ks[1..]);
    }
  }

  /** The distinct keys of `ks` not in the table `c`. */
  function MissingKeys(ks: seq<HashKey>, c: Memo): set<HashKey> {
    set k | k in ks && k !in c
  }

  /** The keys of `ks` missing from `c`: the first key when it is missing, and
      the rest's keys missing from the table that also holds the first. */
  lemma MissingSplit(ks: seq<HashKey>, c: Memo, c': Memo)
    requires ks != [] && c'.Keys == c.Keys + {ks[0]}
    ensures MissingKeys(ks, c) == MissingKeys(ks[1..], c') + (if ks[0] in c then {} else {ks[0]})
    ensures ks[0] !in MissingKeys(ks[1..], c')
  {
    assert ks == [ks[0]] + ks[1..];
  }

  /** When no call raises, each distinct key not yet in the table is downloaded
      exactly once, however often it is asked for. */
  lemma {:induction false} DownloadsOncePerKey(fetch: Fetcher, hexDigest: HexDigest, c: Memo, ks: seq<HashKey>)
    requires forall i :: 0 <= i < |ks| ==> FreshHash(fetch, hexDigest, ks[i]).Digest?
    ensures Downloads(fetch, hexDigest, c, ks) == |MissingKeys(ks, c)|
    decreases |ks|
  {
    if ks == [] {
      assert MissingKeys(ks, c) == {};
    } else {
      var k0, tail := ks[0], ks[1..];
      var c' := MemoStep(fetch, hexDigest, c, k0);
      assert c'.Keys == c.Keys + {k0} by {
        assert FreshHash(fetch, hexDigest, ks[0]).Digest?;
      }
      assert forall i :: 0 <= i < |tail| ==> FreshHash(fetch, hexDigest, tail[i]).Digest? by {
        assert forall i :: 0 <= i < |tail| ==> tail[i] == ks[i + 1];
      }
      DownloadsOncePerKey(fetch, hexDigest, c', tail);
      MissingSplit(ks, c, c');
      var rest := MissingKeys(tail, c');
      if k0 !in c {
        assert |rest + {k0}| == |rest| + 1;
      }
    }
  }

  /** The bytes of a list of chunks, one after the other. */
  function Concat(chunks: seq<Bytes>): Bytes
    decreases |chunks|
  {
    if chunks == [] then [] else Concat(chunks[..|chunks| - 1]) + chunks[|chunks| - 1]
  }

  /** The read loop: `for chunk in iter(lambda: f.read(4096), b""): hasher.update(chunk)`.
      The hasher's state is the bytes it has absorbed so far. The chunks fed are
      the whole file in order, each non-empty and at most 4096 bytes, every one
      but the last exactly 4096. */
  method HashChunks(algo: string, data: Bytes, hexDigest: HexDigest) returns (hex: string, ghost chunks: seq<Bytes>)
    ensures hex == hexDigest(algo, data)
    ensures Concat(chunks) == data
    ensures forall i :: 0 <= i < |chunks| ==> 0 < |chunks[i]| <= ChunkSize
    ensures forall i :: 0 <= i < |chunks| - 1 ==> |chunks[i]| == ChunkSize
  {
    var absorbed: Bytes := [];
    var pos := 0;
    chunks := [];
    while pos < |data|
      invariant 0 <= pos <= |data|
      invariant absorbed == data[..pos] == Concat(chunks)
      invariant forall i :: 0 <= i < |chunks| ==> 0 < |chunks[i]| <= ChunkSize
      invariant forall i :: 0 <= i < |chunks| - 1 ==> |chunks[i]| == ChunkSize
      invariant pos < |data| && chunks != [] ==> |chunks[|chunks| - 1]| == ChunkSize
    {
      var end := if pos + ChunkSize <= |data| then pos + ChunkSize else |data|;
      var chunk := data[pos..end];
      absorbed := absorbed + chunk;
      chunks := chunks + [chunk];
      assert data[..end] == data[..pos] + chunk;
      pos := end;
    }
    assert data[..pos] == data;
    hex := hexDigest(algo, absorbed);
  }

  /** `compute_hash` together with its `functools.cache`: a map from the full
      argument tuple to the returned digest, and a count of downloads. */
  class DigestCache {
    const fetch: Fetcher
    const hexDigest: HexDigest
    var cache: map<HashKey, Option<string>>
    var fetches: nat

    /** Every cached digest is what a fresh call would compute. */
    ghost predicate Valid()
      reads this
    {
      forall k :: k in cache ==> FreshHash(fetch, hexDigest, k) == Digest(cache[k])
    }

    constructor (fetch: Fetcher, hexDigest: HexDigest)
      ensures Valid()
      ensures this.fetch == fetch && this.hexDigest == hexDigest
      ensures cache == map[] && fetches == 0
    {
      this.fetch := fetch;
      this.hexDigest := hexDigest;
      cache := map[];
      fetches := 0;
    }

    /** A hit returns the cached digest without downloading. A miss downloads
        once; a size mismatch raises before hashing and caches nothing (the
        cache does not store exceptions); otherwise the digest, `None` for an
        unsupported algorithm included, is cached. Either way the result is
        what a fresh call computes. */
    method ComputeHash(k: HashKey) returns (r: HashResult)
      requires Valid()
      modifies this
      ensures Valid()
      ensures r == FreshHash(fetch, hexDigest, k)
      ensures k in old(cache) ==> cache == old(cache) && fetches == old(fetches)
      ensures k !in old(cache) ==> fetches == old(fetches) + 1
      ensures k !in old(cache) ==> cache == if r.Digest? then old(cache)[k := r.hex] else old(cache)
    {
      if k in cache {
        return Digest(cache[k]);
      }
      fetches := fetches + 1;
      var data := fetch(k.repo, k.tag, k.name);
      if |data| != k.size {
        return SizeMismatch(k.size, |data|);
      }
      var hex: Option<string>;
      if k.algo == "blake3" {
        var h, _ := HashChunks("blake3", data, hexDigest);
        hex := Some(h);
      } else if k.algo == "sha256" {
        var h, _ := HashChunks("sha256", data, hexDigest);
        hex := Some(h);
      } else {
        hex := None;
      }
      cache := cache[k := hex];
      r := Digest(hex);
    }
  }

  /** Two identical calls on a missing cache return the same digest; the second
      one downloads nothing unless the first raised a size mismatch. */
  method RepeatedCall(fetch: Fetcher, hexDigest: HexDigest, k: HashKey) returns (first: HashResult, second: HashResult, downloads: nat)
    ensures first == second == FreshHash(fetch, hexDigest, k)
    ensures downloads == if first.SizeMismatch? then 2 else 1
  {
    var c := new DigestCache(fetch, hexDigest);
    first := c.ComputeHash(k);
    second := c.ComputeHash(k);
    downloads := c.fetches;
  }
}
