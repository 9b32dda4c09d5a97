/**
 * What `download_oh` guarantees as a whole. First one lemma per phase; then
 * lemmas about the two halves of a run, up to `repo sync` (`UpToSync`) and
 * from the projects on (`FromProjects`); then the end-to-end facts about
 * `Downloaded`, each put together from the facts about the two halves.
 */
module DownloadFacts {
  import opened Wrappers
  import opened Dates
  import opened SnapshotCache
  import opened Host
  import opened Checkout
  import opened Manifest
  import opened Ohdl
  import opened Resolution
  import opened Download

  /** The bucket of the window in the cache as line 99 loads it. */
  function LoadedBucket(w0: World, ohPath: Path, since: Option<Stamp>, until: Option<Stamp>): Bucket
  {
    LoadOrInitShaCache(w0.files, ohPath, since, until)[EntryKey(since, until)]
  }

  /** Whether a run that ended with `exit` wrote the cache file: only with a window, at line 121, 141 or 144. */
  predicate SavesCache(exit: Exit, dated: bool)
  {
    dated && (exit == ManifestCheckoutFailed || exit.ProjectUnresolved? || exit.ProjectCheckoutFailed? || exit.PostStepFailed? || exit == Completed)
  }

  /** `after` has exactly the buckets of `before`, all equal except `entry`, which only gains records. */
  predicate KeepsRecords(before: Cache, after: Cache, entry: string)
  {
    && after.Keys == before.Keys && entry in before
    && (forall e :: e in before && e != entry ==> after[e] == before[e])
    && (forall n :: n in before[entry] ==> n in after[entry] && after[entry][n] == before[entry][n])
  }

  /** Every record of `after` missing from `before` holds the commit `latest` reports for its name. */
  predicate FromRemote(before: Bucket, after: Bucket, latest: string -> Option<string>)
  {
    forall n :: n in after && n !in before ==> latest(n) == Some(after[n].sha)
  }

  /** Neither a reset nor a fetch is among the commands `cmds`. */
  predicate NoCheckout(cmds: seq<Cmd>)
  {
    forall k :: 0 <= k < |cmds| ==> !cmds[k].op.ResetHard? && !cmds[k].op.Fetch?
  }

  /** Replacing bucket `entry` by one that keeps its records keeps the records of the cache. */
  lemma KeepsRecordsUpdate(c: Cache, entry: string, b: Bucket)
    requires entry in c
    requires forall n :: n in c[entry] ==> n in b && b[n] == c[entry][n]
    ensures KeepsRecords(c, c[entry := b], entry)
  {
  }

  /** Keeping records and taking new ones from the remote both compose over two updates. */
  lemma KeepsRecordsTrans(a: Cache, b: Cache, c: Cache, entry: string, latest: string -> Option<string>)
    requires KeepsRecords(a, b, entry) && KeepsRecords(b, c, entry)
    requires FromRemote(a[entry], b[entry], latest) && FromRemote(b[entry], c[entry], latest)
    ensures KeepsRecords(a, c, entry) && FromRemote(a[entry], c[entry], latest)
  {
  }

  /**
   * Lines 90-108 change only the directories, the current directory and the
   * history, which gains `repo init` when the workspace had no `.repo`; the
   * run stops there exactly when that command fails.
   */
  lemma PrepareFacts(env: Env, w0: World, ohPath: Path, since: Option<Stamp>, until: Option<Stamp>)
    ensures var p := Prepare(env, w0, ohPath, since, until);
      var dirs := if Exists(w0, ohPath) then w0.dirs else w0.dirs + {ohPath};
      var init := if JoinPath(ohPath, RepoDir) in dirs || JoinPath(ohPath, RepoDir) in w0.files then [] else [Cmd(ohPath, RepoInit)];
      && p.w.dirs == dirs
      && (p.exit == Some(NotADirectory) <==> ohPath !in w0.dirs && ohPath in w0.files)
      && (p.exit == Some(NotADirectory) ==> p.w == w0)
      && (p.exit != Some(NotADirectory) ==>
            && p.w == w0.(dirs := dirs, cwd := ohPath, ran := w0.ran + init)
            && p.c == LoadOrInitShaCache(w0.files, ohPath, since, until)
            && (p.exit == Some(InitFailed) <==> init != [] && env.status(w0.ran, Cmd(ohPath, RepoInit)) != 0))
  {
  }

  /**
   * Lines 100-108: once the workspace is ready, the bucket of the window is
   * the one stored in the cache file, or a new empty one when the file is
   * missing or has no such bucket.
   */
  lemma PrepareLoads(env: Env, w0: World, ohPath: Path, since: Option<Stamp>, until: Option<Stamp>)
    ensures var p := Prepare(env, w0, ohPath, since, until);
      var cp, entry := CachePath(ohPath), EntryKey(since, until);
      var stored := cp in w0.files && entry in w0.files[cp];
      p.exit != Some(NotADirectory) ==>
        && entry in p.c && p.c[entry] == LoadedBucket(w0, ohPath, since, until)
        && (stored ==> p.c[entry] == w0.files[cp][entry])
        && (!stored ==> p.c[entry] == map[])
  {
    var p := Prepare(env, w0, ohPath, since, until);
    if p.exit != Some(NotADirectory) {
      PrepareFacts(env, w0, ohPath, since, until);
      assert p.c == LoadOrInitShaCache(w0.files, ohPath, since, until);
    }
  }

  /** Lines 124-130 only append `repo sync`, run in the current directory, unless syncing is switched off. */
  lemma SyncFacts(env: Env, w: World, c: Cache, noSync: bool)
    ensures var s := Sync(env, w, c, noSync);
      var sync := if noSync then [] else [Cmd(w.cwd, RepoSync)];
      && s.w == w.(ran := w.ran + sync)
      && (s.exit == Some(SyncFailed) <==> sync != [] && env.status(w.ran, sync[0]) != 0)
  {
  }

  /**
   * Lines 112-122, the cache: the manifest repository is looked up like a
   * project; old records are kept, a new one holds the commit the remote
   * gave, and the run stops exactly when there was neither.
   */
  lemma PinManifestCache(env: Env, latest: string -> Option<string>, w: World, c: Cache, ohPath: Path, since: Option<Stamp>, until: Option<Stamp>)
    requires EntryKey(since, until) in c
    ensures var entry, name := EntryKey(since, until), ManifestProject.name;
      var m := PinManifest(env, latest, w, c, ohPath, since, until);
      && KeepsRecords(c, m.c, entry)
      && FromRemote(c[entry], m.c[entry], latest)
      && (m.exit == Some(ManifestUnresolved) <==> name !in m.c[entry])
      && (m.exit == Some(ManifestUnresolved) <==> name !in c[entry] && latest(name).None?)
  {
    var entry, name := EntryKey(since, until), ManifestProject.name;
    var m := PinManifest(env, latest, w, c, ohPath, since, until);
    if name in c[entry] {
      assert m.c == c;
    } else if latest(name).None? {
      assert m.c == c;
    } else {
      var b := c[entry][name := Record(ManifestProject.path, latest(name).value)];
      assert m.c == c[entry := b];
      KeepsRecordsUpdate(c, entry, b);
    }
  }

  /**
   * Lines 112-122, the rest of the world: the remote is asked about the
   * manifest repository only on a miss, and the cache file is written
   * exactly when the checkout fails.
   */
  lemma PinManifestWorld(env: Env, latest: string -> Option<string>, w: World, c: Cache, ohPath: Path, since: Option<Stamp>, until: Option<Stamp>)
    requires EntryKey(since, until) in c
    ensures var entry, name := EntryKey(since, until), ManifestProject.name;
      var m := PinManifest(env, latest, w, c, ohPath, since, until);
      var failed := m.exit == Some(ManifestCheckoutFailed);
      && m.w.dirs == w.dirs
      && m.w.asked == w.asked + (if name in c[entry] then [] else [name])
      && m.w.saved == w.saved + (if failed then [CachePath(ohPath)] else [])
      && m.w.files == (if failed then w.files[CachePath(ohPath) := m.c] else w.files)
  {
  }

  /**
   * Lines 112-122, the commands: the checkout only appends resets to the
   * recorded commit and fetches, all in the manifest directory, and fails
   * exactly when its last fetch failed; only then is the directory left
   * changed.
   */
  lemma PinManifestCommands(env: Env, latest: string -> Option<string>, w: World, c: Cache, ohPath: Path, since: Option<Stamp>, until: Option<Stamp>)
    requires EntryKey(since, until) in c
    ensures var entry, name := EntryKey(since, until), ManifestProject.name;
      var m := PinManifest(env, latest, w, c, ohPath, since, until);
      var failed := m.exit == Some(ManifestCheckoutFailed);
      && entry in m.c
      && (m.exit == Some(ManifestUnresolved) ==> m.w.ran == w.ran && m.w.cwd == w.cwd)
      && (m.exit != Some(ManifestUnresolved) ==>
            && name in m.c[entry]
            && |m.w.ran| > |w.ran| && m.w.ran[..|w.ran|] == w.ran
            && CommandsIn(m.w.ran, |w.ran|, JoinPath(ohPath, ManifestsDir), m.c[entry][name].sha)
            && (failed <==> EndsInFailedFetchIn(env, m.w.ran, |w.ran|))
            && m.w.cwd == (if failed then JoinPath(ohPath, ManifestsDir) else w.cwd))
  {
    var entry, name := EntryKey(since, until), ManifestProject.name;
    if name in c[entry] {
      OutcomeFacts(env, w.ran, JoinPath(ohPath, ManifestsDir), c[entry][name].sha);
    } else if latest(name).Some? {
      OutcomeFacts(env, w.ran, JoinPath(ohPath, ManifestsDir), latest(name).value);
    }
  }

  /** Lines 113-116: the remote is asked about the manifest repository only when the bucket has no record of it. */
  lemma PinManifestAsks(env: Env, latest: string -> Option<string>, w: World, c: Cache, ohPath: Path, since: Option<Stamp>, until: Option<Stamp>)
    requires EntryKey(since, until) in c
    ensures AsksFresh(w.asked, PinManifest(env, latest, w, c, ohPath, since, until).w.asked, c[EntryKey(since, until)])
  {
    var m := PinManifest(env, latest, w, c, ohPath, since, until);
    assert m.w.asked[..|w.asked|] == w.asked;
  }

  /**
   * Lines 132-144, the cache: old records are kept, new ones hold the
   * commit the remote gave, and the cache file is written whatever the
   * outcome.
   */
  lemma PinProjectsCache(env: Env, latest: string -> Option<string>, w: World, c: Cache, ohPath: Path, since: Option<Stamp>, until: Option<Stamp>, ps: seq<Project>)
    requires EntryKey(since, until) in c
    ensures var entry := EntryKey(since, until);
      var q := PinProjects(env, latest, w, c, ohPath, since, until, ps);
      && KeepsRecords(c, q.c, entry)
      && FromRemote(c[entry], q.c[entry], latest)
      && q.w.dirs == w.dirs
      && q.w.saved == w.saved + [CachePath(ohPath)]
      && q.w.files == w.files[CachePath(ohPath) := q.c]
  {
    var entry := EntryKey(since, until);
    var r := Resolve(c[entry], ps, latest, 0, w.asked);
    ResolveBucket(c[entry], ps, latest, 0, w.asked);
    ResolveNewRecords(c[entry], ps, latest, 0, w.asked);
    KeepsRecordsUpdate(c, entry, r.bucket);
  }

  /**
   * Lines 136-142: the run stops at a project exactly when its name had no
   * record and the remote had no commit for it; otherwise every project of
   * the manifest has a record.
   */
  lemma PinProjectsResolution(env: Env, latest: string -> Option<string>, w: World, c: Cache, ohPath: Path, since: Option<Stamp>, until: Option<Stamp>, ps: seq<Project>)
    requires EntryKey(since, until) in c
    ensures var entry := EntryKey(since, until);
      var q := PinProjects(env, latest, w, c, ohPath, since, until, ps);
      var unresolved := q.exit.Some? && q.exit.value.ProjectUnresolved?;
      && (unresolved ==> q.exit.value.index < |ps| && ps[q.exit.value.index].name !in q.c[entry]
                         && latest(ps[q.exit.value.index].name).None?)
      && (!unresolved ==> forall j :: 0 <= j < |ps| ==> ps[j].name in q.c[entry])
  {
    var entry := EntryKey(since, until);
    ResolveBucket(c[entry], ps, latest, 0, w.asked);
    if Resolve(c[entry], ps, latest, 0, w.asked).Complete? {
      AllResolvedRecorded(c[entry], ps, latest, w.asked);
    }
  }

  /**
   * The names appended to `asked` to reach `asked'` were missing from
   * `bucket`, and none of them twice.
   */
  predicate AsksFresh(asked: seq<string>, asked': seq<string>, bucket: Bucket)
  {
    |asked'| >= |asked| && asked'[..|asked|] == asked && NoneIn(asked'[|asked|..], bucket) && Distinct(asked'[|asked|..])
  }

  /**
   * Two rounds of questions stay fresh and distinct when the second round
   * looks at a bucket that keeps the first one's records and has a record
   * for every name the first round asked about.
   */
  lemma AsksFreshTrans(a: seq<string>, b: seq<string>, c: seq<string>, b0: Bucket, b1: Bucket)
    requires AsksFresh(a, b, b0) && AsksFresh(b, c, b1)
    requires forall n :: n in b0 ==> n in b1
    requires forall k :: |a| <= k < |b| ==> b[k] in b1
    ensures AsksFresh(a, c, b0)
  {
    var x, y := b[|a|..], c[|b|..];
    assert c == a + (x + y) by {
      assert c == b + y;
      assert b == a + x;
    }
    assert c[|a|..] == x + y;
    forall k, l | 0 <= k < l < |x + y|
      ensures (x + y)[k] != (x + y)[l]
    {
      if k < |x| && l >= |x| {
        assert x[k] == b[|a| + k];
      }
    }
  }

  /** Lines 136-143: the remote is asked only about names missing from the bucket, and never twice about one. */
  lemma PinProjectsAsks(env: Env, latest: string -> Option<string>, w: World, c: Cache, ohPath: Path, since: Option<Stamp>, until: Option<Stamp>, ps: seq<Project>)
    requires EntryKey(since, until) in c
    ensures AsksFresh(w.asked, PinProjects(env, latest, w, c, ohPath, since, until, ps).w.asked, c[EntryKey(since, until)])
  {
    var entry := EntryKey(since, until);
    var r := Resolve(c[entry], ps, latest, 0, w.asked);
    ResolveAskedShift(c[entry], ps, latest, 0, w.asked);
    ResolveAsksFresh(c[entry], ps, latest, 0);
    assert r.asked[|w.asked|..] == Resolve(c[entry], ps, latest, 0, []).asked;
  }

  /**
   * Lines 146-150, the commands: the checkout only appends, each command a
   * reset of some project to its recorded commit or a fetch in that
   * project's directory; it stops exactly when a fetch failed, leaving the
   * directory of the project that failed.
   */
  lemma PinProjectsCommands(env: Env, latest: string -> Option<string>, w: World, c: Cache, ohPath: Path, since: Option<Stamp>, until: Option<Stamp>, ps: seq<Project>)
    requires EntryKey(since, until) in c
    ensures var entry := EntryKey(since, until);
      var q := PinProjects(env, latest, w, c, ohPath, since, until, ps);
      var unresolved := q.exit.Some? && q.exit.value.ProjectUnresolved?;
      var failed := q.exit.Some? && q.exit.value.ProjectCheckoutFailed?;
      && entry in q.c
      && (unresolved ==> q.w.ran == w.ran && q.w.cwd == w.cwd)
      && (!unresolved ==>
            && AllRecorded(ps, q.c[entry], 0)
            && |q.w.ran| >= |w.ran| && q.w.ran[..|w.ran|] == w.ran
            && AllTarget(q.w.ran, |w.ran|, ohPath, ps, q.c[entry], 0)
            && (failed <==> EndsInFailedFetchIn(env, q.w.ran, |w.ran|))
            && FetchesSucceedIn(env, q.w.ran, |w.ran|, if failed then |q.w.ran| - 1 else |q.w.ran|)
            && (failed ==> q.exit.value.index < |ps| && q.w.cwd == JoinPath(ohPath, ps[q.exit.value.index].path))
            && (!failed ==> q.w.cwd == w.cwd))
  {
    var entry := EntryKey(since, until);
    var r := Resolve(c[entry], ps, latest, 0, w.asked);
    if r.Complete? {
      AllResolvedRecorded(c[entry], ps, latest, w.asked);
      var w1 := SaveShaCache(w.(asked := r.asked), ohPath, c[entry := r.bucket]);
      CheckoutRunTargets(env, w1.ran, ohPath, ps, r.bucket, 0);
      CheckoutRunFailure(env, w1.ran, ohPath, ps, r.bucket, 0);
    }
  }

  /** What a cache file written by a run must hold, against the files `w0` the run started from. */
  predicate CacheWritten(w0: World, files: map<Path, Cache>, ohPath: Path, latest: string -> Option<string>, since: Option<Stamp>, until: Option<Stamp>)
  {
    var cp, loaded, entry := CachePath(ohPath), LoadOrInitShaCache(w0.files, ohPath, since, until), EntryKey(since, until);
    && cp in files && files == w0.files[cp := files[cp]]
    && KeepsRecords(loaded, files[cp], entry)
    && FromRemote(loaded[entry], files[cp][entry], latest)
  }

  /** The bucket `b` has a record for the manifest repository and for every project of `ps`. */
  predicate RecordsEvery(b: Bucket, ps: seq<Project>)
  {
    ManifestProject.name in b && forall j :: 0 <= j < |ps| ==> ps[j].name in b
  }

  /** The history grows from `log` to `log'` by commands none of which is a reset or a fetch. */
  predicate GrowsWithoutCheckout(log: seq<Cmd>, log': seq<Cmd>)
  {
    |log'| >= |log| && log'[..|log|] == log && NoCheckout(log'[|log|..])
  }

  /** Appending commands that are neither a reset nor a fetch grows a log without checkouts. */
  lemma GrowsByAppending(log: seq<Cmd>, extra: seq<Cmd>)
    requires NoCheckout(extra)
    ensures GrowsWithoutCheckout(log, log + extra)
  {
    assert (log + extra)[|log|..] == extra;
  }

  /** Growing without checkouts composes. */
  lemma GrowsWithoutCheckoutTrans(a: seq<Cmd>, b: seq<Cmd>, c: seq<Cmd>)
    requires GrowsWithoutCheckout(a, b) && GrowsWithoutCheckout(b, c)
    ensures GrowsWithoutCheckout(a, c)
  {
    assert c == b + c[|b|..];
    assert b == a + b[|a|..];
    assert c[|a|..] == b[|a|..] + c[|b|..];
  }

  /**
   * `log'` is `log` followed by the first `n` post-download steps, run in
   * `dir`; every one but the last succeeded, and the last succeeded exactly
   * when the steps completed, which needs all of them to have run.
   */
  predicate PostStepsRan(env: Env, log: seq<Cmd>, log': seq<Cmd>, dir: Path, n: nat, completed: bool)
  {
    && 0 < n <= |PostSteps|
    && log' == log + Issued(dir, PostSteps[..n])
    && (forall k :: |log| <= k < |log'| - 1 ==> StatusIn(env, log', k) == 0)
    && (completed ==> n == |PostSteps|)
    && (completed <==> StatusIn(env, log', |log'| - 1) == 0)
  }

  /** Lines 152-161: the post steps only append their own commands, and stop at the first failure. */
  lemma FinishFacts(env: Env, w: World)
    ensures var e := Finish(env, w);
      var n := if e.exit == Completed then |PostSteps| else e.exit.index + 1;
      && e.w == w.(ran := e.w.ran)
      && PostStepsRan(env, w.ran, e.w.ran, w.cwd, n, e.exit == Completed)
  {
    var post := PostRun(env, w.ran, w.cwd, PostSteps, 0);
    PostRunIssues(env, w.ran, w.cwd, PostSteps, 0);
    PostRunStopsAtFirstFailure(env, w.ran, w.cwd, PostSteps, 0);
    var n := if post.failed.Some? then post.failed.value + 1 else |PostSteps|;
    assert PostSteps[0..n] == PostSteps[..n];
  }

  /**
   * `log` ends with the post steps run in `dir`, as far as `exit` says they
   * got: all of them when the run completed, up to the one that failed
   * otherwise.
   */
  predicate PostStepsAtEnd(env: Env, log: seq<Cmd>, dir: Path, exit: Exit)
  {
    exit == Completed || exit.PostStepFailed? ==>
      var n := if exit == Completed then |PostSteps| else exit.index + 1;
      |log| >= n && PostStepsRan(env, log[..|log| - n], log, dir, n, exit == Completed)
  }

  /** Lines 152-161 stay in the current directory, add no checkout, and end the history with the steps they ran. */
  lemma FinishEnds(env: Env, w: World)
    ensures var e := Finish(env, w);
      && e.w.cwd == w.cwd
      && GrowsWithoutCheckout(w.ran, e.w.ran)
      && PostStepsAtEnd(env, e.w.ran, w.cwd, e.exit)
  {
    var e := Finish(env, w);
    FinishFacts(env, w);
    var n := if e.exit == Completed then |PostSteps| else e.exit.index + 1;
    assert e.w.ran[..|e.w.ran| - n] == w.ran;
    assert e.w.ran[|w.ran|..] == Issued(w.cwd, PostSteps[..n]);
  }

  /**
   * Lines 90-130, the files: a path that is not a directory is refused
   * before anything changes, and only a failed checkout of the manifest
   * repository writes the cache file.
   */
  lemma UpToSyncFiles(env: Env, latest: string -> Option<string>, w0: World, ohPath: Path,
                      since: Option<Stamp>, until: Option<Stamp>, noSync: bool)
    ensures var u := UpToSync(env, latest, w0, ohPath, since, until, noSync);
      var cp := CachePath(ohPath);
      var failed := u.exit == Some(ManifestCheckoutFailed);
      && (u.exit == Some(NotADirectory) <==> ohPath !in w0.dirs && ohPath in w0.files)
      && (u.exit == Some(NotADirectory) ==> u.w == w0)
      && (u.exit == Some(ManifestUnresolved) || failed ==> Dated(since, until))
      && u.w.saved == w0.saved + (if failed then [cp] else [])
      && u.w.files == (if failed then w0.files[cp := u.c] else w0.files)
  {
    var u := UpToSync(env, latest, w0, ohPath, since, until, noSync);
    var p := Prepare(env, w0, ohPath, since, until);
    PrepareFacts(env, w0, ohPath, since, until);
    if p.exit.Some? {
      assert u == p;
    } else if Dated(since, until) {
      var m := PinManifest(env, latest, p.w, p.c, ohPath, since, until);
      PinManifestWorld(env, latest, p.w, p.c, ohPath, since, until);
      if m.exit.Some? {
        assert u == m;
      } else {
        assert u == Sync(env, m.w, m.c, noSync);
        SyncFacts(env, m.w, m.c, noSync);
      }
    } else {
      assert u == Sync(env, p.w, p.c, noSync);
      SyncFacts(env, p.w, p.c, noSync);
    }
  }

  /** Lines 99-122: the cache in memory keeps what was loaded, and takes new records from the remote only. */
  lemma UpToSyncCache(env: Env, latest: string -> Option<string>, w0: World, ohPath: Path,
                      since: Option<Stamp>, until: Option<Stamp>, noSync: bool)
    ensures var u := UpToSync(env, latest, w0, ohPath, since, until, noSync);
      var entry, loaded := EntryKey(since, until), LoadOrInitShaCache(w0.files, ohPath, since, until);
      u.exit != Some(NotADirectory) ==> KeepsRecords(loaded, u.c, entry) && FromRemote(loaded[entry], u.c[entry], latest)
  {
    var u := UpToSync(env, latest, w0, ohPath, since, until, noSync);
    var p := Prepare(env, w0, ohPath, since, until);
    PrepareFacts(env, w0, ohPath, since, until);
    PrepareLoads(env, w0, ohPath, since, until);
    if p.exit.Some? {
      assert u == p;
    } else if Dated(since, until) {
      var m := PinManifest(env, latest, p.w, p.c, ohPath, since, until);
      PinManifestCache(env, latest, p.w, p.c, ohPath, since, until);
      if m.exit.Some? {
        assert u == m;
      } else {
        assert u == Sync(env, m.w, m.c, noSync);
      }
    } else {
      assert u == Sync(env, p.w, p.c, noSync);
    }
  }

  /** Lines 90-130 without a window: the remote is not asked, and no reset or fetch runs. */
  lemma UpToSyncUndated(env: Env, latest: string -> Option<string>, w0: World, ohPath: Path,
                        since: Option<Stamp>, until: Option<Stamp>, noSync: bool)
    requires !Dated(since, until)
    ensures var u := UpToSync(env, latest, w0, ohPath, since, until, noSync);
      u.w.asked == w0.asked && GrowsWithoutCheckout(w0.ran, u.w.ran)
  {
    var u := UpToSync(env, latest, w0, ohPath, since, until, noSync);
    var p := Prepare(env, w0, ohPath, since, until);
    PrepareFacts(env, w0, ohPath, since, until);
    if p.exit == Some(NotADirectory) {
      assert u == p;
      GrowsByAppending(w0.ran, []);
      assert w0.ran + [] == w0.ran;
    } else {
      var init := if JoinPath(ohPath, RepoDir) in p.w.dirs || JoinPath(ohPath, RepoDir) in w0.files then [] else [Cmd(ohPath, RepoInit)];
      GrowsByAppending(w0.ran, init);
      if p.exit.Some? {
        assert u == p;
      } else {
        var sync := if noSync then [] else [Cmd(p.w.cwd, RepoSync)];
        assert u == Sync(env, p.w, p.c, noSync);
        SyncFacts(env, p.w, p.c, noSync);
        GrowsByAppending(p.w.ran, sync);
        GrowsWithoutCheckoutTrans(w0.ran, p.w.ran, u.w.ran);
      }
    }
  }

  /** Lines 110-130: a run that reached past `repo sync` asked the remote only about names its bucket now records. */
  lemma UpToSyncAskedRecorded(env: Env, latest: string -> Option<string>, w0: World, ohPath: Path,
                              since: Option<Stamp>, until: Option<Stamp>, noSync: bool)
    ensures var u := UpToSync(env, latest, w0, ohPath, since, until, noSync);
      u.exit.None? ==> forall k :: |w0.asked| <= k < |u.w.asked| ==> u.w.asked[k] in u.c[EntryKey(since, until)]
  {
    var u := UpToSync(env, latest, w0, ohPath, since, until, noSync);
    var p := Prepare(env, w0, ohPath, since, until);
    PrepareFacts(env, w0, ohPath, since, until);
    if p.exit.None? {
      if Dated(since, until) {
        var m := PinManifest(env, latest, p.w, p.c, ohPath, since, until);
        PinManifestCache(env, latest, p.w, p.c, ohPath, since, until);
        PinManifestWorld(env, latest, p.w, p.c, ohPath, since, until);
        if m.exit.None? {
          assert u == Sync(env, m.w, m.c, noSync);
          SyncFacts(env, m.w, m.c, noSync);
        }
      } else {
        assert u == Sync(env, p.w, p.c, noSync);
        SyncFacts(env, p.w, p.c, noSync);
      }
    }
  }

  /**
   * Lines 110-122, seen from the whole first part: with a window the run
   * stops for want of a commit for the manifest repository exactly when
   * the loaded bucket has no record of it and the remote has no commit;
   * past that point the bucket records it; and the remote was asked only
   * about a miss, which the bucket now records unless the run stopped.
   */
  lemma UpToSyncManifest(env: Env, latest: string -> Option<string>, w0: World, ohPath: Path,
                         since: Option<Stamp>, until: Option<Stamp>, noSync: bool)
    ensures var u := UpToSync(env, latest, w0, ohPath, since, until, noSync);
      var entry, name, loaded := EntryKey(since, until), ManifestProject.name, LoadedBucket(w0, ohPath, since, until);
      && (u.exit == Some(ManifestUnresolved) <==>
            && Dated(since, until) && u.exit != Some(NotADirectory) && u.exit != Some(InitFailed)
            && name !in loaded && latest(name).None?)
      && (Dated(since, until) && (u.exit.None? || u.exit == Some(ManifestCheckoutFailed)) ==> entry in u.c && name in u.c[entry])
      && AsksFresh(w0.asked, u.w.asked, loaded)
      && (u.exit.None? ==> forall k :: |w0.asked| <= k < |u.w.asked| ==> u.w.asked[k] in u.c[entry])
  {
    var u := UpToSync(env, latest, w0, ohPath, since, until, noSync);
    var p := Prepare(env, w0, ohPath, since, until);
    PrepareFacts(env, w0, ohPath, since, until);
    PrepareLoads(env, w0, ohPath, since, until);
    UpToSyncAskedRecorded(env, latest, w0, ohPath, since, until, noSync);
    if p.exit.Some? {
      assert u == p;
      assert u.w.asked[..|w0.asked|] == w0.asked;
    } else if Dated(since, until) {
      var m := PinManifest(env, latest, p.w, p.c, ohPath, since, until);
      PinManifestCache(env, latest, p.w, p.c, ohPath, since, until);
      PinManifestWorld(env, latest, p.w, p.c, ohPath, since, until);
      PinManifestAsks(env, latest, p.w, p.c, ohPath, since, until);
      if m.exit.Some? {
        assert u == m;
      } else {
        assert u == Sync(env, m.w, m.c, noSync);
        SyncFacts(env, m.w, m.c, noSync);
      }
    } else {
      assert u == Sync(env, p.w, p.c, noSync);
      SyncFacts(env, p.w, p.c, noSync);
      assert u.w.asked[..|w0.asked|] == w0.asked;
    }
  }

  /** Lines 90-130: a failed checkout of the manifest repository stays in its directory; otherwise the run is in the workspace. */
  lemma UpToSyncLeaves(env: Env, latest: string -> Option<string>, w0: World, ohPath: Path,
                       since: Option<Stamp>, until: Option<Stamp>, noSync: bool)
    ensures var u := UpToSync(env, latest, w0, ohPath, since, until, noSync);
      && |u.w.ran| >= |w0.ran|
      && (u.exit.None? || u.exit == Some(NotADirectory) || u.exit == Some(InitFailed) || u.exit == Some(SyncFailed)
          || u.exit == Some(ManifestUnresolved) || u.exit == Some(ManifestCheckoutFailed))
      && (u.exit == Some(ManifestCheckoutFailed) ==>
            u.w.cwd == JoinPath(ohPath, ManifestsDir) && EndsInFailedFetchIn(env, u.w.ran, |w0.ran|))
      && (u.exit != Some(NotADirectory) && u.exit != Some(ManifestCheckoutFailed) ==> u.w.cwd == ohPath)
  {
    var u := UpToSync(env, latest, w0, ohPath, since, until, noSync);
    var p := Prepare(env, w0, ohPath, since, until);
    PrepareFacts(env, w0, ohPath, since, until);
    if p.exit.Some? {
      assert u == p;
    } else if Dated(since, until) {
      var m := PinManifest(env, latest, p.w, p.c, ohPath, since, until);
      PinManifestCommands(env, latest, p.w, p.c, ohPath, since, until);
      if m.exit.Some? {
        assert u == m;
      } else {
        assert u == Sync(env, m.w, m.c, noSync);
        SyncFacts(env, m.w, m.c, noSync);
      }
    } else {
      assert u == Sync(env, p.w, p.c, noSync);
      SyncFacts(env, p.w, p.c, noSync);
    }
  }

  /**
   * Lines 132-161, the world: the cache file is written exactly once,
   * keeping what the cache held and taking new records from the remote
   * only; the remote is asked only about misses, never twice about one.
   */
  lemma FromProjectsWorld(env: Env, latest: string -> Option<string>, w: World, c: Cache, ohPath: Path,
                          since: Option<Stamp>, until: Option<Stamp>, ps: seq<Project>)
    requires EntryKey(since, until) in c
    ensures var e := FromProjects(env, latest, w, c, ohPath, since, until, ps);
      var cp, entry := CachePath(ohPath), EntryKey(since, until);
      && SavesCache(e.exit, true)
      && e.w.saved == w.saved + [cp]
      && cp in e.w.files && e.w.files == w.files[cp := e.w.files[cp]]
      && KeepsRecords(c, e.w.files[cp], entry) && FromRemote(c[entry], e.w.files[cp][entry], latest)
      && AsksFresh(w.asked, e.w.asked, c[entry])
  {
    var e := FromProjects(env, latest, w, c, ohPath, since, until, ps);
    var q := PinProjects(env, latest, w, c, ohPath, since, until, ps);
    PinProjectsCache(env, latest, w, c, ohPath, since, until, ps);
    PinProjectsAsks(env, latest, w, c, ohPath, since, until, ps);
    if q.exit.Some? {
      assert e == Ended(q.w, q.exit.value);
    } else {
      assert e == Finish(env, q.w);
      FinishFacts(env, q.w);
    }
  }

  /**
   * Lines 136-144: the run stops at a project exactly when its name had no
   * record and the remote had no commit for it; otherwise the cache file
   * records every project.
   */
  lemma FromProjectsResolution(env: Env, latest: string -> Option<string>, w: World, c: Cache, ohPath: Path,
                               since: Option<Stamp>, until: Option<Stamp>, ps: seq<Project>)
    requires EntryKey(since, until) in c
    ensures var e := FromProjects(env, latest, w, c, ohPath, since, until, ps);
      var cp, entry := CachePath(ohPath), EntryKey(since, until);
      && cp in e.w.files && entry in e.w.files[cp]
      && (e.exit.ProjectUnresolved? ==>
            && e.exit.index < |ps| && ps[e.exit.index].name !in e.w.files[cp][entry]
            && latest(ps[e.exit.index].name).None?)
      && (!e.exit.ProjectUnresolved? ==> forall j :: 0 <= j < |ps| ==> ps[j].name in e.w.files[cp][entry])
  {
    var e := FromProjects(env, latest, w, c, ohPath, since, until, ps);
    var q := PinProjects(env, latest, w, c, ohPath, since, until, ps);
    PinProjectsCache(env, latest, w, c, ohPath, since, until, ps);
    PinProjectsResolution(env, latest, w, c, ohPath, since, until, ps);
    if q.exit.Some? {
      assert e == Ended(q.w, q.exit.value);
    } else {
      assert e == Finish(env, q.w);
      FinishFacts(env, q.w);
    }
  }

  /** Lines 132-161: a failed project checkout stays in that project's directory; otherwise the run stays where it was. */
  lemma FromProjectsLeaves(env: Env, latest: string -> Option<string>, w: World, c: Cache, ohPath: Path,
                           since: Option<Stamp>, until: Option<Stamp>, ps: seq<Project>)
    requires EntryKey(since, until) in c
    ensures var e := FromProjects(env, latest, w, c, ohPath, since, until, ps);
      && (e.exit.ProjectCheckoutFailed? ==>
            && e.exit.index < |ps| && e.w.cwd == JoinPath(ohPath, ps[e.exit.index].path)
            && EndsInFailedFetchIn(env, e.w.ran, |w.ran|))
      && (!e.exit.ProjectCheckoutFailed? ==> e.w.cwd == w.cwd)
      && PostStepsAtEnd(env, e.w.ran, w.cwd, e.exit)
  {
    var q := PinProjects(env, latest, w, c, ohPath, since, until, ps);
    PinProjectsCommands(env, latest, w, c, ohPath, since, until, ps);
    if q.exit.None? {
      FinishEnds(env, q.w);
    }
  }

  /**
   * Lines 93-95: a path that exists but is not a directory is refused
   * before anything changes, and that is the only way to this exit.
   */
  lemma DownloadRefusesFile(env: Env, manifests: Tree, rank: map<string, nat>, w0: World, ohPath: Path,
                            latest: string -> Option<string>, since: Option<Stamp>, until: Option<Stamp>, noSync: bool)
    requires Dated(since, until) ==> Ranked(manifests, rank) && DefaultManifest in manifests
    ensures var d := Downloaded(env, manifests, rank, w0, ohPath, latest, since, until, noSync);
      && (d.exit == NotADirectory <==> ohPath !in w0.dirs && ohPath in w0.files)
      && (d.exit == NotADirectory ==> d.w == w0)
  {
    var u := UpToSync(env, latest, w0, ohPath, since, until, noSync);
    UpToSyncFiles(env, latest, w0, ohPath, since, until, noSync);
    if u.exit.None? && Dated(since, until) {
      FromProjectsWorld(env, latest, u.w, u.c, ohPath, since, until, ManifestProjects(manifests, rank));
    }
  }

  /**
   * The cache file is written once, and only by a run with a window that got
   * past the pinning of the manifest repository: at line 121, 141 or 144.
   */
  lemma DownloadSavesOnce(env: Env, manifests: Tree, rank: map<string, nat>, w0: World, ohPath: Path,
                          latest: string -> Option<string>, since: Option<Stamp>, until: Option<Stamp>, noSync: bool)
    requires Dated(since, until) ==> Ranked(manifests, rank) && DefaultManifest in manifests
    ensures var d := Downloaded(env, manifests, rank, w0, ohPath, latest, since, until, noSync);
      d.w.saved == w0.saved + (if SavesCache(d.exit, Dated(since, until)) then [CachePath(ohPath)] else [])
  {
    var u := UpToSync(env, latest, w0, ohPath, since, until, noSync);
    var d := Downloaded(env, manifests, rank, w0, ohPath, latest, since, until, noSync);
    UpToSyncFiles(env, latest, w0, ohPath, since, until, noSync);
    if u.exit.Some? {
      assert d == Ended(u.w, u.exit.value);
    } else if Dated(since, until) {
      assert d == FromProjects(env, latest, u.w, u.c, ohPath, since, until, ManifestProjects(manifests, rank));
      FromProjectsWorld(env, latest, u.w, u.c, ohPath, since, until, ManifestProjects(manifests, rank));
    } else {
      assert d == Finish(env, u.w);
      FinishFacts(env, u.w);
    }
  }

  /** A run that did not write the cache file leaves every file as it found it. */
  lemma DownloadCacheUntouched(env: Env, manifests: Tree, rank: map<string, nat>, w0: World, ohPath: Path,
                               latest: string -> Option<string>, since: Option<Stamp>, until: Option<Stamp>, noSync: bool)
    requires Dated(since, until) ==> Ranked(manifests, rank) && DefaultManifest in manifests
    ensures var d := Downloaded(env, manifests, rank, w0, ohPath, latest, since, until, noSync);
      !SavesCache(d.exit, Dated(since, until)) ==> d.w.files == w0.files
  {
    var u := UpToSync(env, latest, w0, ohPath, since, until, noSync);
    var d := Downloaded(env, manifests, rank, w0, ohPath, latest, since, until, noSync);
    UpToSyncFiles(env, latest, w0, ohPath, since, until, noSync);
    if u.exit.Some? {
      assert d == Ended(u.w, u.exit.value);
    } else if Dated(since, until) {
      assert d == FromProjects(env, latest, u.w, u.c, ohPath, since, until, ManifestProjects(manifests, rank));
      FromProjectsWorld(env, latest, u.w, u.c, ohPath, since, until, ManifestProjects(manifests, rank));
    } else {
      assert d == Finish(env, u.w);
      FinishFacts(env, u.w);
    }
  }

  /**
   * What the cache file holds once the run wrote it: every bucket and every
   * record that was loaded, with only the bucket of the window gaining
   * records, each holding the commit the remote reported. No other file
   * changes.
   */
  lemma DownloadCacheWritten(env: Env, manifests: Tree, rank: map<string, nat>, w0: World, ohPath: Path,
                             latest: string -> Option<string>, since: Option<Stamp>, until: Option<Stamp>, noSync: bool)
    requires Dated(since, until) ==> Ranked(manifests, rank) && DefaultManifest in manifests
    ensures var d := Downloaded(env, manifests, rank, w0, ohPath, latest, since, until, noSync);
      SavesCache(d.exit, Dated(since, until)) ==> CacheWritten(w0, d.w.files, ohPath, latest, since, until)
  {
    var cp, entry := CachePath(ohPath), EntryKey(since, until);
    var loaded := LoadOrInitShaCache(w0.files, ohPath, since, until);
    var u := UpToSync(env, latest, w0, ohPath, since, until, noSync);
    UpToSyncFiles(env, latest, w0, ohPath, since, until, noSync);
    UpToSyncCache(env, latest, w0, ohPath, since, until, noSync);
    if u.exit.None? && Dated(since, until) {
      var e := FromProjects(env, latest, u.w, u.c, ohPath, since, until, ManifestProjects(manifests, rank));
      FromProjectsWorld(env, latest, u.w, u.c, ohPath, since, until, ManifestProjects(manifests, rank));
      KeepsRecordsTrans(loaded, u.c, e.w.files[cp], entry, latest);
    } else if u.exit.None? {
      FinishFacts(env, u.w);
    }
  }

  /**
   * Without a window (lines 112 and 132 are skipped) the remote is never
   * asked, no checkout runs, and the run can only stop at the workspace,
   * `repo init`, `repo sync` or a post step.
   */
  lemma DownloadUndated(env: Env, manifests: Tree, rank: map<string, nat>, w0: World, ohPath: Path,
                        latest: string -> Option<string>, since: Option<Stamp>, until: Option<Stamp>, noSync: bool)
    requires !Dated(since, until)
    ensures var d := Downloaded(env, manifests, rank, w0, ohPath, latest, since, until, noSync);
      && d.w.asked == w0.asked
      && GrowsWithoutCheckout(w0.ran, d.w.ran)
      && (d.exit == NotADirectory || d.exit == InitFailed || d.exit == SyncFailed || d.exit.PostStepFailed? || d.exit == Completed)
  {
    var u := UpToSync(env, latest, w0, ohPath, since, until, noSync);
    UpToSyncUndated(env, latest, w0, ohPath, since, until, noSync);
    UpToSyncLeaves(env, latest, w0, ohPath, since, until, noSync);
    if u.exit.None? {
      FinishFacts(env, u.w);
      FinishEnds(env, u.w);
      GrowsWithoutCheckoutTrans(w0.ran, u.w.ran, Finish(env, u.w).w.ran);
    }
  }

  /**
   * Once every project is checked out, or the checkout of one failed, the
   * cache file holds a record for the manifest repository and for every
   * project of the manifest.
   */
  lemma DownloadRecordsAll(env: Env, manifests: Tree, rank: map<string, nat>, w0: World, ohPath: Path,
                           latest: string -> Option<string>, since: Option<Stamp>, until: Option<Stamp>, noSync: bool)
    requires Dated(since, until) ==> Ranked(manifests, rank) && DefaultManifest in manifests
    ensures var d := Downloaded(env, manifests, rank, w0, ohPath, latest, since, until, noSync);
      var cp, entry := CachePath(ohPath), EntryKey(since, until);
      Dated(since, until) && (d.exit.ProjectCheckoutFailed? || d.exit.PostStepFailed? || d.exit == Completed) ==>
        cp in d.w.files && entry in d.w.files[cp] && RecordsEvery(d.w.files[cp][entry], ManifestProjects(manifests, rank))
  {
    var u := UpToSync(env, latest, w0, ohPath, since, until, noSync);
    UpToSyncLeaves(env, latest, w0, ohPath, since, until, noSync);
    if u.exit.None? && Dated(since, until) {
      var ps := ManifestProjects(manifests, rank);
      UpToSyncManifest(env, latest, w0, ohPath, since, until, noSync);
      FromProjectsWorld(env, latest, u.w, u.c, ohPath, since, until, ps);
      FromProjectsResolution(env, latest, u.w, u.c, ohPath, since, until, ps);
    }
  }

  /**
   * Lines 113-116: with a window, the run stops for want of a commit for
   * the manifest repository exactly when the loaded cache has no record of
   * it and the remote has no commit for it, unless the workspace or
   * `repo init` stopped it first.
   */
  lemma DownloadManifestUnresolved(env: Env, manifests: Tree, rank: map<string, nat>, w0: World, ohPath: Path,
                                   latest: string -> Option<string>, since: Option<Stamp>, until: Option<Stamp>, noSync: bool)
    requires Dated(since, until) ==> Ranked(manifests, rank) && DefaultManifest in manifests
    ensures var d := Downloaded(env, manifests, rank, w0, ohPath, latest, since, until, noSync);
      var name := ManifestProject.name;
      d.exit == ManifestUnresolved <==>
        && Dated(since, until) && d.exit != NotADirectory && d.exit != InitFailed
        && name !in LoadedBucket(w0, ohPath, since, until) && latest(name).None?
  {
    var u := UpToSync(env, latest, w0, ohPath, since, until, noSync);
    UpToSyncManifest(env, latest, w0, ohPath, since, until, noSync);
    if u.exit.None? {
      if Dated(since, until) {
        FromProjectsWorld(env, latest, u.w, u.c, ohPath, since, until, ManifestProjects(manifests, rank));
      } else {
        FinishFacts(env, u.w);
      }
    }
  }

  /**
   * Lines 137-142: the run stops for want of a commit for a project only
   * with a window, at a project of the manifest whose name the cache has no
   * record of and for which the remote had no commit.
   */
  lemma DownloadProjectUnresolved(env: Env, manifests: Tree, rank: map<string, nat>, w0: World, ohPath: Path,
                                  latest: string -> Option<string>, since: Option<Stamp>, until: Option<Stamp>, noSync: bool)
    requires Dated(since, until) ==> Ranked(manifests, rank) && DefaultManifest in manifests
    ensures var d := Downloaded(env, manifests, rank, w0, ohPath, latest, since, until, noSync);
      var cp, entry := CachePath(ohPath), EntryKey(since, until);
      d.exit.ProjectUnresolved? ==>
        && Dated(since, until)
        && var ps := ManifestProjects(manifests, rank);
        && d.exit.index < |ps| && cp in d.w.files && entry in d.w.files[cp]
        && ps[d.exit.index].name !in d.w.files[cp][entry] && latest(ps[d.exit.index].name).None?
  {
    var u := UpToSync(env, latest, w0, ohPath, since, until, noSync);
    UpToSyncLeaves(env, latest, w0, ohPath, since, until, noSync);
    if u.exit.None? && Dated(since, until) {
      FromProjectsResolution(env, latest, u.w, u.c, ohPath, since, until, ManifestProjects(manifests, rank));
    }
  }

  /**
   * Lines 113-116 and 137-140: over a whole run the remote is asked only
   * about repositories the loaded cache had no record of, and never twice
   * about one.
   */
  lemma DownloadAsksOnlyMisses(env: Env, manifests: Tree, rank: map<string, nat>, w0: World, ohPath: Path,
                               latest: string -> Option<string>, since: Option<Stamp>, until: Option<Stamp>, noSync: bool)
    requires Dated(since, until) ==> Ranked(manifests, rank) && DefaultManifest in manifests
    ensures AsksFresh(w0.asked, Downloaded(env, manifests, rank, w0, ohPath, latest, since, until, noSync).w.asked,
                      LoadedBucket(w0, ohPath, since, until))
  {
    var entry := EntryKey(since, until);
    var u := UpToSync(env, latest, w0, ohPath, since, until, noSync);
    UpToSyncManifest(env, latest, w0, ohPath, since, until, noSync);
    if u.exit.None? {
      if Dated(since, until) {
        UpToSyncCache(env, latest, w0, ohPath, since, until, noSync);
        var e := FromProjects(env, latest, u.w, u.c, ohPath, since, until, ManifestProjects(manifests, rank));
        FromProjectsWorld(env, latest, u.w, u.c, ohPath, since, until, ManifestProjects(manifests, rank));
        AsksFreshTrans(w0.asked, u.w.asked, e.w.asked, LoadedBucket(w0, ohPath, since, until), u.c[entry]);
      } else {
        FinishFacts(env, u.w);
      }
    }
  }

  /**
   * Where a run leaves the process: a failed checkout (lines 120-122 or
   * 149-150) stays in the directory of the repository it could not check
   * out, because `_git_reset_by_sha` returns before changing back, and its
   * history ends with the fetch that failed; every other run that got past
   * line 98 is in the workspace, and one that reached the post steps ends
   * its history with them.
   */
  lemma DownloadLeaves(env: Env, manifests: Tree, rank: map<string, nat>, w0: World, ohPath: Path,
                       latest: string -> Option<string>, since: Option<Stamp>, until: Option<Stamp>, noSync: bool)
    requires Dated(since, until) ==> Ranked(manifests, rank) && DefaultManifest in manifests
    ensures var d := Downloaded(env, manifests, rank, w0, ohPath, latest, since, until, noSync);
      && (d.exit == ManifestCheckoutFailed ==>
            d.w.cwd == JoinPath(ohPath, ManifestsDir) && EndsInFailedFetchIn(env, d.w.ran, |w0.ran|))
      && (d.exit.ProjectCheckoutFailed? ==>
            && Dated(since, until)
            && var ps := ManifestProjects(manifests, rank);
            && d.exit.index < |ps| && d.w.cwd == JoinPath(ohPath, ps[d.exit.index].path)
            && EndsInFailedFetchIn(env, d.w.ran, |w0.ran|))
      && (d.exit != NotADirectory && d.exit != ManifestCheckoutFailed && !d.exit.ProjectCheckoutFailed? ==> d.w.cwd == ohPath)
      && PostStepsAtEnd(env, d.w.ran, ohPath, d.exit)
  {
    var u := UpToSync(env, latest, w0, ohPath, since, until, noSync);
    UpToSyncLeaves(env, latest, w0, ohPath, since, until, noSync);
    if u.exit.None? {
      if Dated(since, until) {
        FromProjectsLeaves(env, latest, u.w, u.c, ohPath, since, until, ManifestProjects(manifests, rank));
      } else {
        FinishEnds(env, u.w);
      }
    }
  }
}
