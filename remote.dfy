/**
 * What the builders see of the outside world: the manifest each repository
 * publishes, the package registry's metadata documents and the PHP runtime
 * version, together with the per-package cache of registry records.
 */
module Remote {
  import opened Wrappers
  import opened Text
  import opened Json

  /**
   * The first version record the registry lists for a package (the newest).
   * `version` and `requirePhp` are its `version` and `require.php` members;
   * `otherFields` says whether it has any other member.
   */
  datatype PackageEntry = PackageEntry(version: Option<string>, requirePhp: Option<string>, otherFields: bool) {
    /** PHP `empty()` on the record: an array with no members at all. */
    predicate IsEmpty() {
      version.None? && requirePhp.None? && !otherFields
    }
  }

  /** `[]`, what the builders store when the registry gives nothing usable. */
  const NoEntry := PackageEntry(None, None, false)

  /** The `packages` member of a registry metadata document: package name to its version records. */
  type RegistryDoc = map<string, seq<PackageEntry>>

  /**
   * The outside world during one build.
   * `manifestAt(url)`: the decoded `singlePR` value of the manifest at `url`, or
   * None when the fetch fails, the text is not JSON, or `singlePR` is missing.
   * `registryAt(url)`: the registry document at `url`, or None when the fetch or the decoding fails.
   * `phpVersion`: what `phpversion()` returns.
   */
  datatype World = World(
    manifestAt: string -> Option<Json>,
    registryAt: string -> Option<RegistryDoc>,
    phpVersion: string)

  /** `$info['packages'][$package][0] ?? []` */
  function FirstEntry(doc: Option<RegistryDoc>, package: string): PackageEntry {
    if doc.Some? && package in doc.value && |doc.value[package]| > 0 then doc.value[package][0]
    else NoEntry
  }

  /** The registry cache and, for the proofs, the list of registry URLs fetched so far. */
  datatype Cache = Cache(entries: map<string, PackageEntry>, fetched: seq<string>)

  const EmptyCache := Cache(map[], [])

  /** `empty(self::$packagist[$package])`: nothing usable is cached for the package. */
  predicate NeedsFetch(c: Cache, package: string) {
    package !in c.entries || c.entries[package].IsEmpty()
  }

  datatype Lookup = Lookup(version: string, cache: Cache)

  /**
   * `getLatestFromPackagist`: fetch `url` only when nothing usable is cached for
   * the package, store the first record, and answer its `version` (or "").
   */
  function Latest(c: Cache, package: string, url: string, world: World): (r: Lookup)
    ensures package in r.cache.entries
    ensures r.version == r.cache.entries[package].version.GetOr("")
  {
    if NeedsFetch(c, package) then
      var e := FirstEntry(world.registryAt(url), package);
      Lookup(e.version.GetOr(""), Cache(c.entries[package := e], c.fetched + [url]))
    else
      Lookup(c.entries[package].version.GetOr(""), c)
  }

  /** A usable cached record is answered from the cache: no fetch, nothing changes. */
  lemma LatestCached(c: Cache, package: string, url: string, world: World)
    requires !NeedsFetch(c, package)
    ensures Latest(c, package, url, world) == Lookup(c.entries[package].version.GetOr(""), c)
  {
  }

  /** Missing or empty records are fetched: exactly one new fetch of `url`, other packages untouched. */
  lemma LatestFetches(c: Cache, package: string, url: string, world: World)
    requires NeedsFetch(c, package)
    ensures Latest(c, package, url, world).cache.fetched == c.fetched + [url]
    ensures Latest(c, package, url, world).cache.entries[package] == FirstEntry(world.registryAt(url), package)
    ensures forall p :: p != package && p in c.entries ==> Latest(c, package, url, world).cache.entries[p] == c.entries[p]
  {
  }

  /**
   * Asking twice: once the registry has answered a non-empty record, the second
   * call fetches nothing and answers the same version; an empty answer is fetched again.
   */
  lemma LatestTwice(c: Cache, package: string, url: string, world: World)
    ensures var first := Latest(c, package, url, world);
      var second := Latest(first.cache, package, url, world);
      (!first.cache.entries[package].IsEmpty() ==> second == first)
      && (first.cache.entries[package].IsEmpty() ==> second.cache.fetched == first.cache.fetched + [url])
  {
  }
}
