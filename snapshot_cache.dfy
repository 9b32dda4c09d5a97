/**
 * The snapshot cache as a value: a map from snapshot key to a bucket, which
 * maps a project name to the path and the commit resolved for it. The
 * program keeps this structure twice, as free functions over a dict in
 * src/ohdl/ohdl.py and as the class ShaCache in src/ohdl/sha_cache.py; both
 * are expressed with the operations below.
 *
 * The cache file is modelled as a stored copy of the map: writing it with
 * `str()` and reading it back with `eval()` is taken to reproduce the map.
 */
module SnapshotCache {
  import opened Wrappers
  import opened Dates

  type Path = string

  /** What a bucket keeps per project: its path and its resolved commit. */
  datatype Record = Record(path: string, sha: string)

  type Bucket = map<string, Record>

  type Cache = map<string, Bucket>

  /** The name of the cache file under the workspace root. */
  const CacheFileName: string := ".sha_cache"

  /** Python's `os.path.join(a, b)` on POSIX for two components. */
  function JoinPath(a: Path, b: Path): (p: Path)
    ensures |b| > 0 && b[0] == '/' ==> p == b
  {
    if |b| > 0 && b[0] == '/' then b
    else if a == "" || a[|a| - 1] == '/' then a + b
    else a + "/" + b
  }

  /** Where the cache file of a workspace lives. */
  function CachePath(ohDir: Path): (p: Path)
    ensures ohDir != "" && ohDir[|ohDir| - 1] != '/' ==> p == ohDir + "/" + CacheFileName
  {
    JoinPath(ohDir, CacheFileName)
  }

  /** A joined relative component ends the path, after the base it was joined to. */
  lemma JoinPathParts(a: Path, b: Path)
    ensures var p := JoinPath(a, b);
      !(|b| > 0 && b[0] == '/') ==> |p| >= |a| + |b| && p[|p| - |b|..] == b && p[..|a|] == a
  {
  }

  /** The cache file lies under the workspace root and is named `.sha_cache`. */
  lemma CachePathParts(ohDir: Path)
    ensures var p := CachePath(ohDir);
      |p| >= |ohDir| + |CacheFileName| && p[..|ohDir|] == ohDir && p[|p| - |CacheFileName|..] == CacheFileName
  {
    JoinPathParts(ohDir, CacheFileName);
  }

  /**
   * The snapshot key of a date window, `f'{since} to {until}'`: the
   * rendering of `since`, then " to ", then the rendering of `until`, so the
   * key can be cut back into its two renderings once the length of the
   * first one is known.
   */
  function EntryKey(since: Option<Stamp>, until: Option<Stamp>): (key: string)
    ensures |key| == |Show(since)| + 4 + |Show(until)|
    ensures key[..|Show(since)|] == Show(since)
    ensures key[|Show(since)|..|Show(since)| + 4] == " to "
    ensures key[|Show(since)| + 4..] == Show(until)
  {
    var key, n := Show(since) + " to " + Show(until), |Show(since)|;
    assert key == Show(since) + (" to " + Show(until));
    assert key[n..] == " to " + Show(until);
    assert key[n..][4..] == Show(until);
    key
  }

  /**
   * Two windows whose `since` dates render to the same width (as ISO dates
   * do) share a key only when both of their renderings agree.
   */
  lemma EntryKeyInjective(s1: Option<Stamp>, u1: Option<Stamp>, s2: Option<Stamp>, u2: Option<Stamp>)
    requires |Show(s1)| == |Show(s2)|
    requires EntryKey(s1, u1) == EntryKey(s2, u2)
    ensures Show(s1) == Show(s2) && Show(u1) == Show(u2)
  {
  }

  /** The commit recorded for `project` in bucket `entry`, or None when there is none. */
  function Lookup(c: Cache, entry: string, project: string): (sha: Option<string>)
    requires entry in c
    ensures sha.Some? <==> project in c[entry]
    ensures sha.Some? ==> sha.value == c[entry][project].sha
  {
    if project in c[entry] then Some(c[entry][project].sha) else None
  }

  /**
   * Records `sha` and `path` for `name` in bucket `entry`, replacing any
   * earlier record of that name; nothing else changes.
   */
  function Upsert(c: Cache, entry: string, name: string, path: string, sha: string): (c': Cache)
    requires entry in c
    ensures c'.Keys == c.Keys
    ensures c'[entry].Keys == c[entry].Keys + {name}
    ensures c'[entry][name] == Record(path, sha)
    ensures forall p :: p in c[entry] && p != name ==> c'[entry][p] == c[entry][p]
    ensures forall e :: e in c && e != entry ==> c'[e] == c[e]
  {
    c[entry := c[entry][name := Record(path, sha)]]
  }

  /** After an upsert, the lookup of that pair gives the new commit and every other lookup is as before. */
  lemma LookupAfterUpsert(c: Cache, entry: string, name: string, path: string, sha: string, e: string, p: string)
    requires entry in c && e in c
    ensures Lookup(Upsert(c, entry, name, path, sha), entry, name) == Some(sha)
    ensures (e, p) != (entry, name) ==> Lookup(Upsert(c, entry, name, path, sha), e, p) == Lookup(c, e, p)
  {
  }

  /** Adds an empty bucket `entry` when it is missing; a present bucket is kept as it is. */
  function EnsureBucket(c: Cache, entry: string): (c': Cache)
    ensures entry in c'
    ensures c'.Keys == c.Keys + {entry}
    ensures forall e :: e in c ==> c'[e] == c[e]
    ensures entry !in c ==> c'[entry] == map[]
  {
    if entry in c then c else c[entry := map[]]
  }

  /**
   * The cache after loading bucket `entry` from the file at `path`: the file's
   * map when the file exists, `current` otherwise, with the bucket ensured.
   */
  function Loaded(files: map<Path, Cache>, path: Path, current: Cache, entry: string): (c: Cache)
    ensures entry in c
    ensures path in files ==> c.Keys == files[path].Keys + {entry}
    ensures path in files ==> forall e :: e in files[path] ==> c[e] == files[path][e]
    ensures path !in files ==> c.Keys == current.Keys + {entry}
    ensures path !in files ==> forall e :: e in current ==> c[e] == current[e]
    ensures entry !in (if path in files then files[path] else current) ==> c[entry] == map[]
  {
    EnsureBucket(if path in files then files[path] else current, entry)
  }

  /**
   * Saving a cache and loading it back reproduces every bucket, not only the
   * active one, whatever was in memory before, and adds only the requested
   * bucket if it was missing.
   */
  lemma SaveThenLoad(files: map<Path, Cache>, path: Path, c: Cache, current: Cache, entry: string)
    ensures Loaded(files[path := c], path, current, entry) == EnsureBucket(c, entry)
    ensures entry in c ==> Loaded(files[path := c], path, current, entry) == c
  {
  }

}
