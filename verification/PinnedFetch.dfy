/** Downloading a file pinned by its SHA-256 into a content-addressed cache. */
module PinnedFetch {

  // The hash, the name of a URL's asset and what the network answers are parameters; the cache directory, the
  // waits and the number of downloads are the state the program changes.

  import opened Wrappers

  type Bytes = seq<bv8>

  /** A file of the cache: an asset under its pin, or the partial file of a download. */
  datatype Path = Asset(pin: string, name: string) | Partial(pin: string, name: string, tag: nat)

  /**
    * What one request meets: a body with its Content-Length if that is a number, an HTTP error status, a
    * connection that breaks off after some bytes, or an error the download does not handle.
    */
  datatype Answer =
    | Body(bytes: Bytes, length: Option<nat>)
    | Status(code: nat)
    | Broken(bytes: Bytes)
    | Fault(bytes: Bytes)

  type Network = nat -> Answer
  type Hash = Bytes -> string

  datatype Pin = Pin(url: string, sha256: string)

  predicate IsPin(s: string) {
    |s| == 64 && forall k :: 0 <= k < |s| ==> '0' <= s[k] <= '9' || 'a' <= s[k] <= 'f'
  }

  /** A pin is the lower-case hexadecimal form of 32 bytes. */
  ghost predicate LowerHex64(s: string) {
    |s| == 64 && forall k :: 0 <= k < 64 ==> s[k] in "0123456789abcdef"
  }

  lemma {:induction false} PinExactly(s: string)
    ensures IsPin(s) <==> LowerHex64(s)
  {
    if |s| == 64 {
      forall k | 0 <= k < 64 ensures s[k] in "0123456789abcdef" <==> '0' <= s[k] <= '9' || 'a' <= s[k] <= 'f' {
        HexCharacter(s[k]);
      }
    }
  }

  lemma {:induction false} HexCharacter(c: char)
    ensures c in "0123456789abcdef" <==> '0' <= c <= '9' || 'a' <= c <= 'f'
  {
    if '0' <= c <= '9' {
      assert "0123456789abcdef"[c as int - '0' as int] == c;
    }
    if 'a' <= c <= 'f' {
      assert "0123456789abcdef"[c as int - 'a' as int + 10] == c;
    }
  }

  predicate Retryable(code: nat) {
    code >= 500 || code == 408 || code == 425 || code == 429
  }

  // ---- What an answer means for a pin ----

  /** A later attempt may not see this failure. */
  predicate Transient(a: Answer) {
    match a
    case Body(bytes, length) => length.Some? && length.value != |bytes|
    case Status(code) => code >= 500 || code in {408, 425, 429}
    case Broken(_) => true
    case Fault(_) => false
  }

  predicate Delivers(hash: Hash, a: Answer, pin: string) {
    a.Body? && !Transient(a) && hash(a.bytes) == pin
  }

  type Files = map<Path, Bytes>

  /** The asset is cached and its bytes hash to its pin. */
  predicate Verified(hash: Hash, files: Files, p: Path) {
    p.Asset? && p in files && hash(files[p]) == p.pin
  }

  /** The cache may only lose assets that did not verify, may only gain ones that do, and keeps its partial files. */
  ghost predicate Kept(hash: Hash, before: Files, after: Files) {
    && (forall p :: Verified(hash, before, p) ==> p in after && after[p] == before[p])
    && (forall p :: p in after && !(p in before && before[p] == after[p]) ==> Verified(hash, after, p))
    && (forall p: Path :: p.Partial? && p in before ==> p in after && after[p] == before[p])
  }

  lemma {:induction false} KeptTransitive(hash: Hash, a: Files, b: Files, c: Files)
    requires Kept(hash, a, b) && Kept(hash, b, c)
    ensures Kept(hash, a, c)
  {
    forall p | Verified(hash, a, p) ensures p in c && c[p] == a[p] {
      assert Verified(hash, b, p);
    }
    forall p | p in c && !(p in a && a[p] == c[p]) ensures Verified(hash, c, p) {
      if p in b && b[p] == c[p] {
        assert Verified(hash, b, p);
      }
    }
  }

  lemma {:induction false} KeptDropped(hash: Hash, files: Files, p: Path)
    requires p.Asset? && !Verified(hash, files, p)
    ensures Kept(hash, files, files - {p})
  {
  }

  lemma {:induction false} KeptReplaced(hash: Hash, files: Files, p: Path, bytes: Bytes)
    requires p.Asset? && !Verified(hash, files, p) && hash(bytes) == p.pin
    ensures Kept(hash, files, files[p := bytes]) && Verified(hash, files[p := bytes], p)
  {
    var after := files[p := bytes];
    assert Verified(hash, after, p);
    forall q | q in after && !(q in files && files[q] == after[q]) ensures Verified(hash, after, q) {
    }
  }

  /**
    * How a call that downloads ends: after n attempts, of which all but the last met transient failures.
    */
  ghost predicate Ends(hash: Hash, network: Network, from: nat, n: nat, pin: string, retries: nat, ok: bool) {
    && 1 <= n <= retries + 1
    && (forall i :: from <= i < from + n - 1 ==> Transient(network(i)))
    && ok == Delivers(hash, network(from + n - 1), pin)
    && (n <= retries ==> !Transient(network(from + n - 1)))
  }

  class Fetcher {
    const hash: Hash
    const nameOf: string -> Option<string>
    const network: Network
    var files: Files
    var waits: seq<real>
    var downloads: nat
    var tags: nat

    constructor (hash: Hash, nameOf: string -> Option<string>, network: Network, files: Files, tags: nat)
      requires forall p :: p in files && p.Partial? ==> p.tag < tags
      ensures this.hash == hash && this.nameOf == nameOf && this.network == network
      ensures this.files == files && waits == [] && downloads == 0 && this.tags == tags && Valid()
    {
      this.hash, this.nameOf, this.network := hash, nameOf, network;
      this.files, this.waits, this.downloads, this.tags := files, [], 0, tags;
    }

    /** A name for a partial file is never given out twice. */
    ghost predicate Valid() reads this {
      forall p :: p in files && p.Partial? ==> p.tag < tags
    }

    /** One request; what arrives is in the partial file even if the download fails. */
    method DownloadOnce(partial: Path) returns (done: bool, retry: bool)
      requires partial in files
      modifies this`files, this`downloads
      ensures downloads == old(downloads) + 1
      ensures files == if network(old(downloads)).Status? then old(files)
                       else old(files)[partial := network(old(downloads)).bytes]
      ensures retry == Transient(network(old(downloads)))
      ensures done == (network(old(downloads)).Body? && !retry)
    {
      var answer := network(downloads);
      downloads := downloads + 1;
      match answer
      case Body(bytes, length) =>
        files := files[partial := bytes];
        if length.Some? && |bytes| != length.value {
          return false, true;
        }
        return true, false;
      case Status(code) =>
        return false, Retryable(code);
      case Broken(bytes) =>
        files := files[partial := bytes];
        return false, true;
      case Fault(bytes) =>
        files := files[partial := bytes];
        return false, false;
    }

    /** One attempt: the partial file is checked and either replaces the asset or is removed. */
    method Attempt(cached: Path) returns (ok: bool, retry: bool)
      requires Valid() && cached.Asset?
      modifies this`files, this`downloads, this`tags
      ensures Valid() && downloads == old(downloads) + 1 && tags == old(tags) + 1
      ensures ok == Delivers(hash, network(old(downloads)), cached.pin)
      ensures retry == Transient(network(old(downloads)))
      ensures files == if ok then old(files)[cached := network(old(downloads)).bytes] else old(files)
    {
      var partial := Partial(cached.pin, cached.name, tags);
      assert partial !in files;
      tags := tags + 1;
      files := files[partial := []];
      var done;
      done, retry := DownloadOnce(partial);
      ok := done && hash(files[partial]) == cached.pin;
      if ok {
        files := (files - {partial})[cached := files[partial]];
      } else {
        files := files - {partial};
      }
    }

    ghost predicate Names(url: string, sha256: string) {
      LowerHex64(sha256) && nameOf(url).Some?
    }

    ghost function AssetOf(url: string, sha256: string): Path
      requires Names(url, sha256)
    {
      Asset(sha256, nameOf(url).value)
    }

    method CheckSha(sha256: string) returns (ok: bool)
      ensures ok == LowerHex64(sha256)
    {
      PinExactly(sha256);
      ok := IsPin(sha256);
    }

    /** The verified asset of a URL, from the cache or downloaded. */
    method Fetch(url: string, sha256: string, backoff: seq<real>) returns (r: Result<Path>)
      requires Valid()
      modifies this
      ensures Valid() && Kept(hash, old(files), files)
      ensures r.Ok? ==> Names(url, sha256) && r.value == AssetOf(url, sha256) && Verified(hash, files, r.value)
      // Without a download: a pin or a URL that is refused, or an asset that is already there.
      ensures !Names(url, sha256) || Verified(hash, old(files), AssetOf(url, sha256)) ==>
                && (r.Ok? <==> Names(url, sha256))
                && files == old(files) && downloads == old(downloads) && waits == old(waits)
      // With downloads: each but the first follows its wait, and the last one decides.
      ensures Names(url, sha256) && !Verified(hash, old(files), AssetOf(url, sha256)) ==>
                && downloads > old(downloads)
                && Ends(hash, network, old(downloads), downloads - old(downloads), sha256, |backoff|, r.Ok?)
                && waits == old(waits) + backoff[..downloads - old(downloads) - 1]
                && (r.Err? ==> files == old(files) - {AssetOf(url, sha256)})
                && (r.Ok? ==> files == old(files)[r.value := network(downloads - 1).bytes])
    {
      var pinned := CheckSha(sha256);
      if !pinned {
        return Err;
      }
      if nameOf(url).None? {
        return Err;
      }
      var cached := Asset(sha256, nameOf(url).value);
      if cached in files && hash(files[cached]) == sha256 {
        return Ok(cached);
      }
      var ok := Refetch(cached, backoff);
      return if ok then Ok(cached) else Err;
    }

    /** An asset that does not match its pin is removed and fetched again. */
    method Refetch(cached: Path, backoff: seq<real>) returns (ok: bool)
      requires Valid() && cached.Asset? && !Verified(hash, files, cached)
      modifies this
      ensures Valid() && Kept(hash, old(files), files) && downloads > old(downloads)
      ensures Ends(hash, network, old(downloads), downloads - old(downloads), cached.pin, |backoff|, ok)
      ensures waits == old(waits) + backoff[..downloads - old(downloads) - 1]
      ensures files == if ok then old(files)[cached := network(downloads - 1).bytes] else old(files) - {cached}
      ensures ok ==> Verified(hash, files, cached)
    {
      if cached in files {
        files := files - {cached};
      }
      assert files == old(files) - {cached};
      KeptDropped(hash, old(files), cached);
      ok := Download(cached, backoff);
      if ok {
        KeptReplaced(hash, old(files), cached, network(downloads - 1).bytes);
      }
    }

    /** Attempts with growing waits between them, until one delivers or cannot be helped by another. */
    method Download(cached: Path, backoff: seq<real>) returns (ok: bool)
      requires Valid() && cached.Asset?
      modifies this
      ensures Valid() && downloads > old(downloads)
      ensures Ends(hash, network, old(downloads), downloads - old(downloads), cached.pin, |backoff|, ok)
      ensures waits == old(waits) + backoff[..downloads - old(downloads) - 1]
      ensures files == if ok then old(files)[cached := network(downloads - 1).bytes] else old(files)
    {
      var attempts := |backoff| + 1;
      var attempt := 1;
      while attempt <= attempts
        invariant 1 <= attempt <= attempts + 1
        invariant Valid() && files == old(files) && downloads == old(downloads) + attempt - 1
        invariant forall i :: old(downloads) <= i < downloads ==> Transient(network(i))
        invariant waits == old(waits) + backoff[..Min(attempt - 1, |backoff|)]
      {
        var retry;
        ok, retry := Attempt(cached);
        if ok || !retry {
          return;
        }
        if attempt < attempts {
          WaitsGrow(old(waits), backoff, attempt);
          waits := waits + [backoff[attempt - 1]];
        }
        attempt := attempt + 1;
      }
      ok := false;
    }

    ghost predicate AllCached(pins: seq<Pin>, fs: Files) {
      forall k :: 0 <= k < |pins| ==>
        Names(pins[k].url, pins[k].sha256) && Verified(hash, fs, AssetOf(pins[k].url, pins[k].sha256))
    }

    lemma {:induction false} OneMoreCached(pins: seq<Pin>, k: nat, before: Files, after: Files)
      requires k < |pins| && AllCached(pins[..k], before) && Kept(hash, before, after)
      requires Names(pins[k].url, pins[k].sha256) && Verified(hash, after, AssetOf(pins[k].url, pins[k].sha256))
      ensures AllCached(pins[..k + 1], after)
    {
      forall i | 0 <= i < k
        ensures Verified(hash, after, AssetOf(pins[i].url, pins[i].sha256)) && Names(pins[i].url, pins[i].sha256) {
        assert pins[..k][i] == pins[i];
      }
    }

    lemma {:induction false} PruneKeepsPins(pins: seq<Pin>, before: Files, after: Files)
      requires AllCached(pins, before) && after == map p | p in before && p.pin in Hashes(pins) :: before[p]
      ensures AllCached(pins, after)
    {
    }

    /** Every pin of the registry into the cache; with `prune`, nothing else stays there. */
    method Prefetch(pins: seq<Pin>, backoff: seq<real>, prune: bool) returns (r: Result<nat>)
      requires Valid()
      modifies this
      ensures Valid()
      ensures r.Ok? ==> AllCached(pins, files)
      ensures r.Ok? && prune ==> forall p :: p in files ==> p.pin in Hashes(pins)
      ensures r.Ok? ==> exists full :: Kept(hash, old(files), full) && AllCached(pins, full) &&
                          if prune then Pruned(full, pins, files, r.value) else files == full && r.value == 0
      ensures r.Err? || !prune ==> Kept(hash, old(files), files)
    {
      var k := 0;
      while k < |pins|
        invariant 0 <= k <= |pins| && Valid() && Kept(hash, old(files), files)
        invariant AllCached(pins[..k], files)
      {
        ghost var before := files;
        var path := Fetch(pins[k].url, pins[k].sha256, backoff);
        KeptTransitive(hash, old(files), before, files);
        if path.Err? {
          return Err;
        }
        OneMoreCached(pins, k, before, files);
        k := k + 1;
      }
      assert pins[..k] == pins;
      var removed := 0;
      ghost var full := files;
      if prune {
        removed := Prune(Hashes(pins));
        PruneKeepsPins(pins, full, files);
        PrunedByHashes(full, pins, files);
      }
      r := Ok(removed);
    }

    /** Removes every entry no current pin names. */
    method Prune(keep: set<string>) returns (removed: nat)
      modifies this`files
      ensures files == map p | p in old(files) && p.pin in keep :: old(files)[p]
      ensures removed == |Entries(old(files)) - keep|
    {
      var entries := Entries(files) - keep;
      removed := |entries|;
      while entries != {}
        invariant entries <= Entries(old(files)) - keep
        invariant files == map p | p in old(files) && (p.pin in keep || p.pin in entries) :: old(files)[p]
        decreases entries
      {
        var entry :| entry in entries;
        files := map p | p in files && p.pin != entry :: files[p];
        entries := entries - {entry};
      }
    }
  }

  ghost predicate NamesHash(pins: seq<Pin>, h: string) {
    exists k :: 0 <= k < |pins| && pins[k].sha256 == h
  }

  /** Of `full` exactly the files under some pin's hash are left, and so many entries are gone. */
  ghost predicate Pruned(full: Files, pins: seq<Pin>, left: Files, removed: nat) {
    && left == (map p | p in full && NamesHash(pins, p.pin) :: full[p])
    && removed == |set p | p in full && !NamesHash(pins, p.pin) :: p.pin|
  }

  ghost predicate SameHashes(keep: set<string>, pins: seq<Pin>) {
    forall h :: h in keep <==> NamesHash(pins, h)
  }

  lemma {:induction false} PrunedByHashes(full: Files, pins: seq<Pin>, left: Files)
    requires left == map p | p in full && p.pin in Hashes(pins) :: full[p]
    ensures Pruned(full, pins, left, |Entries(full) - Hashes(pins)|)
  {
    HashesNamed(pins);
    SameLeft(full, Hashes(pins), pins);
    SameGone(full, Hashes(pins), pins);
  }

  lemma {:induction false} HashesNamed(pins: seq<Pin>)
    ensures SameHashes(Hashes(pins), pins)
  {
  }

  lemma {:induction false} SameLeft(full: Files, keep: set<string>, pins: seq<Pin>)
    requires SameHashes(keep, pins)
    ensures (map p | p in full && p.pin in keep :: full[p]) == map p | p in full && NamesHash(pins, p.pin) :: full[p]
  {
  }

  lemma {:induction false} SameGone(full: Files, keep: set<string>, pins: seq<Pin>)
    requires SameHashes(keep, pins)
    ensures Entries(full) - keep == set p | p in full && !NamesHash(pins, p.pin) :: p.pin
  {
  }

  function Hashes(pins: seq<Pin>): set<string> {
    set k | 0 <= k < |pins| :: pins[k].sha256
  }

  function Entries(files: Files): set<string> {
    set p | p in files :: p.pin
  }

  function Min(a: int, b: int): int {
    if a < b then a else b
  }

  lemma {:induction false} WaitsGrow(waits: seq<real>, backoff: seq<real>, k: int)
    requires 1 <= k <= |backoff|
    ensures waits + backoff[..k - 1] + [backoff[k - 1]] == waits + backoff[..k]
  {
  }

  /** One download, and one more for every wait that a transient failure uses up. */
  function Attempts(network: Network, from: nat, retries: nat): nat
    decreases retries
  {
    if retries == 0 || !Transient(network(from)) then 1 else 1 + Attempts(network, from + 1, retries - 1)
  }

  /** The network's answers alone decide how often a call downloads and whether it succeeds. */
  lemma {:induction false} EndsExactly(hash: Hash, network: Network, from: nat, n: nat, pin: string, retries: nat,
                                       ok: bool)
    ensures Ends(hash, network, from, n, pin, retries, ok)
            <==> n == Attempts(network, from, retries) && ok == Delivers(hash, network(from + n - 1), pin)
    decreases retries
  {
    if retries > 0 && Transient(network(from)) && n > 1 {
      EndsExactly(hash, network, from + 1, n - 1, pin, retries - 1, ok);
    }
  }
}
