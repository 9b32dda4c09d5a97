/**
 * The cache helpers and the commit lookup of src/ohdl/ohdl.py, as free
 * functions over the cache value. The dict that `_add_sha_cache` mutates is
 * held only by the caller's local variable, so the update is the new value
 * the caller assigns back.
 */
module Ohdl {
  import opened Wrappers
  import opened Dates
  import opened Gitee
  import opened SnapshotCache
  import opened Host

  /** The organisation whose repositories are queried. */
  const Organization: string := "openharmony"

  /**
   * `_load_or_init_sha_cache`: the stored cache when the cache file exists,
   * an empty one otherwise, always holding the bucket of the window; a
   * bucket already stored is kept as it is, and only a missing one is
   * created empty.
   */
  function LoadOrInitShaCache(files: map<Path, Cache>, ohPath: Path, since: Option<Stamp>, until: Option<Stamp>): (c: Cache)
    ensures EntryKey(since, until) in c
    ensures CachePath(ohPath) in files ==> c.Keys == files[CachePath(ohPath)].Keys + {EntryKey(since, until)}
    ensures CachePath(ohPath) in files ==>
              forall e :: e in files[CachePath(ohPath)] ==> c[e] == files[CachePath(ohPath)][e]
    ensures CachePath(ohPath) !in files ==> c == map[EntryKey(since, until) := map[]]
    ensures CachePath(ohPath) in files && EntryKey(since, until) !in files[CachePath(ohPath)] ==> c[EntryKey(since, until)] == map[]
  {
    Loaded(files, CachePath(ohPath), map[], EntryKey(since, until))
  }

  /**
   * `_save_sha_cache`: the whole cache, every bucket, overwrites the cache
   * file of the workspace; the write is logged and nothing else changes.
   */
  function SaveShaCache(w: World, ohPath: Path, c: Cache): (w': World)
    ensures CachePath(ohPath) in w'.files && w'.files[CachePath(ohPath)] == c
    ensures w'.files.Keys == w.files.Keys + {CachePath(ohPath)}
    ensures forall p :: p in w.files && p != CachePath(ohPath) ==> w'.files[p] == w.files[p]
    ensures w'.saved == w.saved + [CachePath(ohPath)]
    ensures w' == w.(files := w'.files, saved := w'.saved)
  {
    w.(files := w.files[CachePath(ohPath) := c], saved := w.saved + [CachePath(ohPath)])
  }

  /**
   * Saving and then loading again gives back every bucket that was saved,
   * adding only the bucket of the window if it was missing.
   */
  lemma SaveThenLoadOrInit(w: World, ohPath: Path, c: Cache, since: Option<Stamp>, until: Option<Stamp>)
    ensures LoadOrInitShaCache(SaveShaCache(w, ohPath, c).files, ohPath, since, until) == EnsureBucket(c, EntryKey(since, until))
  {
  }

  /**
   * `_get_sha_from_cache`: the commit stored for `project` in the bucket of
   * the window, None when the project has no record there. The bucket must
   * exist (the source raises KeyError otherwise).
   */
  function GetShaFromCache(c: Cache, project: string, since: Option<Stamp>, until: Option<Stamp>): (sha: Option<string>)
    requires EntryKey(since, until) in c
    ensures sha.Some? <==> project in c[EntryKey(since, until)]
    ensures sha.Some? ==> sha.value == c[EntryKey(since, until)][project].sha
  {
    Lookup(c, EntryKey(since, until), project)
  }

  /**
   * `_add_sha_cache`: records `sha` and `projectPath` for `projectName` in
   * the bucket of the window, replacing an earlier record; every other
   * project of that bucket and every other bucket is unchanged.
   */
  function AddShaCache(c: Cache, sha: string, projectName: string, projectPath: string, since: Option<Stamp>, until: Option<Stamp>): (c': Cache)
    requires EntryKey(since, until) in c
    ensures c'.Keys == c.Keys
    ensures GetShaFromCache(c', projectName, since, until) == Some(sha)
    ensures c'[EntryKey(since, until)][projectName] == Record(projectPath, sha)
    ensures c'[EntryKey(since, until)].Keys == c[EntryKey(since, until)].Keys + {projectName}
    ensures forall p :: p in c[EntryKey(since, until)] && p != projectName ==>
              c'[EntryKey(since, until)][p] == c[EntryKey(since, until)][p]
    ensures forall e :: e in c && e != EntryKey(since, until) ==> c'[e] == c[e]
  {
    Upsert(c, EntryKey(since, until), projectName, projectPath, sha)
  }

  /**
   * After an add, a lookup of the added project gives its sha, and a lookup
   * of any other project gives what it gave before.
   */
  lemma AddThenGet(c: Cache, sha: string, name: string, path: string, since: Option<Stamp>, until: Option<Stamp>, other: string)
    requires EntryKey(since, until) in c
    ensures GetShaFromCache(AddShaCache(c, sha, name, path, since, until), name, since, until) == Some(sha)
    ensures other != name ==>
              GetShaFromCache(AddShaCache(c, sha, name, path, since, until), other, since, until) == GetShaFromCache(c, other, since, until)
  {
  }

  /**
   * `_get_latest_commit_sha`: asks for the commits of `project` in the window
   * and gives the newest one; an empty list, a malformed reply or an empty
   * sha (falsy in Python) all give None.
   */
  function LatestCommitSha(env: Env, token: string, project: string, since: Option<Stamp>, until: Option<Stamp>): (sha: Option<string>)
    ensures var shas := GetCommitsSha(env.remote(Organization, project, CommitsParams(token, since, until)));
      && (sha.None? <==> shas == [] || shas[0] == "")
      && (sha.Some? ==> sha.value == shas[0] && sha.value != "")
  {
    var latest := GetLatestCommitSha(env.remote(Organization, project, CommitsParams(token, since, until)));
    if latest.None? || latest.value == "" then None else latest
  }

  /**
   * The commit lookup of one run, as a function of the project name: for
   * every repository, the newest sha the API lists for it in the window, or
   * None when the listing is empty or malformed or its newest sha is empty.
   */
  function LatestFor(env: Env, token: string, since: Option<Stamp>, until: Option<Stamp>): (latest: string -> Option<string>)
    ensures forall project ::
      var shas := GetCommitsSha(env.remote(Organization, project, CommitsParams(token, since, until)));
      && (latest(project).None? <==> shas == [] || shas[0] == "")
      && (latest(project).Some? ==> latest(project).value == shas[0])
  {
    project => LatestCommitSha(env, token, project, since, until)
  }

}
