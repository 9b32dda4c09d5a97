/**
 * The class ShaCache of src/ohdl/sha_cache.py: the snapshot cache held in the
 * field `cache` and updated in place by `load` and `add`. The file system is
 * the map from a path to the cache stored there; `save` returns it updated.
 */
module ShaCacheClass {
  import opened Wrappers
  import opened Dates
  import opened SnapshotCache

  class ShaCache {
    var cache: Cache

    /** A new cache holds no bucket. */
    constructor ()
      ensures cache == map[]
    {
      cache := map[];
    }

    /** `path_from_oh_dir`: the cache file sits directly under the workspace root. */
    static function PathFromOhDir(ohDir: Path): (path: Path)
      ensures |path| >= |ohDir| + |CacheFileName| && path[..|ohDir|] == ohDir
      ensures path[|path| - |CacheFileName|..] == CacheFileName
      ensures ohDir != "" && ohDir[|ohDir| - 1] != '/' ==> path == ohDir + "/" + CacheFileName
    {
      CachePath(ohDir)
    }

    /**
     * `entry_from_date`: the rendering of `since`, then " to ", then the
     * rendering of `until`; a missing date renders as "None".
     */
    static function EntryFromDate(since: Option<Stamp>, until: Option<Stamp>): (entry: string)
      ensures |entry| == |Show(since)| + 4 + |Show(until)|
      ensures entry[..|Show(since)|] == Show(since)
      ensures entry[|Show(since)|..|Show(since)| + 4] == " to "
      ensures entry[|Show(since)| + 4..] == Show(until)
    {
      EntryKey(since, until)
    }

    /**
     * `load(path, entry)`: the file's map replaces the field when the file
     * exists, the field is kept otherwise; in both cases only a missing
     * bucket `entry` is added, empty.
     */
    method Load(files: map<Path, Cache>, path: Path, entry: string)
      modifies this
      ensures entry in cache
      ensures path in files ==> cache.Keys == files[path].Keys + {entry}
      ensures path in files ==> forall e :: e in files[path] ==> cache[e] == files[path][e]
      ensures path !in files ==> cache.Keys == old(cache).Keys + {entry}
      ensures path !in files ==> forall e :: e in old(cache) ==> cache[e] == old(cache)[e]
      ensures entry !in (if path in files then files[path] else old(cache)) ==> cache[entry] == map[]
      ensures cache == Loaded(files, path, old(cache), entry)
    {
      if path in files {
        cache := files[path];
      }
      if entry !in cache {
        cache := cache[entry := map[]];
      }
    }

    /** `save(path)`: the file at `path` then holds every bucket of the cache. */
    method Save(files: map<Path, Cache>, path: Path) returns (files': map<Path, Cache>)
      ensures path in files' && files'[path] == cache
      ensures forall p :: p in files && p != path ==> p in files' && files'[p] == files[p]
      ensures files'.Keys == files.Keys + {path}
    {
      files' := files[path := cache];
    }

    /**
     * `get(entry, project)`: the stored commit when the project is in the
     * bucket, None otherwise. The bucket must exist (the source raises
     * KeyError otherwise).
     */
    function Get(entry: string, project: string): (sha: Option<string>)
      reads this
      requires entry in cache
      ensures sha.Some? <==> project in cache[entry]
      ensures sha.Some? ==> sha.value == cache[entry][project].sha
    {
      Lookup(cache, entry, project)
    }

    /**
     * `add(sha, entry, project_name, project_path)`: afterwards `get` of that
     * project gives `sha` and its record holds `projectPath`, replacing any
     * earlier record; every other (bucket, project) pair is unchanged. The
     * bucket must exist.
     */
    method Add(sha: string, entry: string, projectName: string, projectPath: string)
      requires entry in cache
      modifies this
      ensures entry in cache && Get(entry, projectName) == Some(sha)
      ensures cache[entry][projectName] == Record(projectPath, sha)
      ensures cache.Keys == old(cache).Keys
      ensures cache[entry].Keys == old(cache)[entry].Keys + {projectName}
      ensures forall p :: p in old(cache)[entry] && p != projectName ==> cache[entry][p] == old(cache)[entry][p]
      ensures forall e :: e in old(cache) && e != entry ==> cache[e] == old(cache)[e]
    {
      cache := Upsert(cache, entry, projectName, projectPath, sha);
    }
  }

  /**
   * Saving and then loading through the same object reproduces every bucket
   * it held, whatever bucket is loaded, and adds only that bucket if it was
   * missing.
   */
  method SaveThenLoadRoundTrip(c: ShaCache, files: map<Path, Cache>, path: Path, entry: string)
    returns (files': map<Path, Cache>)
    modifies c
    ensures c.cache.Keys == old(c.cache).Keys + {entry}
    ensures forall e :: e in old(c.cache) ==> c.cache[e] == old(c.cache)[e]
    ensures files' == files[path := old(c.cache)]
  {
    files' := c.Save(files, path);
    c.Load(files', path, entry);
  }

}
