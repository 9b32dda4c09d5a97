/**
 * `download_oh` (src/ohdl/ohdl.py:87-161): prepare the workspace, pin the
 * manifest repository to the newest commit of the window, sync, pin every
 * project of the manifest, and run the post-download steps. Each phase is a
 * method proved against a function that describes the commands it issues;
 * `DownloadOh` strings the phases together.
 */
module Download {
  import opened Wrappers
  import opened Dates
  import opened SnapshotCache
  import opened Host
  import opened Checkout
  import opened Manifest
  import opened Ohdl
  import opened Resolution

  /** The cache record of the manifest repository itself (line 118). */
  const ManifestProject: Project := Project("manifest", ".repo/manifests")

  /** The manifest checkout, relative to the workspace root (line 110). */
  const ManifestsDir: string := ".repo/manifests"

  /** The manifest file the project list starts from (line 134). */
  const DefaultManifest: string := "default.xml"

  /** The metadata directory whose absence triggers `repo init` (line 102). */
  const RepoDir: string := ".repo"

  /** The post-download commands, in order (lines 152-155). */
  const PostSteps: seq<Op> := [LfsPull, PrebuiltsDownload]

  /** How a phase ended: the index of the step that failed, if one did, and the whole command history afterwards. */
  datatype Run = Run(failed: Option<nat>, log: seq<Cmd>)

  /** Every project from `i` on has a record in `bucket`. */
  predicate AllRecorded(ps: seq<Project>, bucket: Bucket, i: nat)
  {
    forall j :: i <= j < |ps| ==> ps[j].name in bucket
  }

  /**
   * Lines 146-150 from project `i` on, after the commands `log`: check out
   * each project at the commit of its name's record, in the project's own
   * directory under the workspace root, and stop at the first checkout that
   * answers False.
   */
  function CheckoutRun(env: Env, log: seq<Cmd>, ohPath: Path, ps: seq<Project>, bucket: Bucket, i: nat): (run: Run)
    requires i <= |ps| && AllRecorded(ps, bucket, i)
    ensures run.failed.Some? ==> i <= run.failed.value < |ps|
    decreases |ps| - i
  {
    if i == |ps| then Run(None, log)
    else
      var o := Outcome(env, log, JoinPath(ohPath, ps[i].path), bucket[ps[i].name].sha, ResetAttempts);
      if !o.ok then Run(Some(i), o.issued)
      else CheckoutRun(env, o.issued, ohPath, ps, bucket, i + 1)
  }

  /**
   * `cmd` belongs to the checkout of some project from `i` on: it runs in
   * that project's directory and is a fetch or a reset to the commit
   * recorded for the project's name.
   */
  predicate Targets(cmd: Cmd, ohPath: Path, ps: seq<Project>, bucket: Bucket, i: nat)
    requires AllRecorded(ps, bucket, i)
  {
    exists j :: i <= j < |ps| && cmd.dir == JoinPath(ohPath, ps[j].path) &&
      (cmd.op == Fetch || cmd.op == ResetHard(bucket[ps[j].name].sha))
  }

  /** Every command of `log` from `from` on belongs to the checkout of some project from `i` on. */
  predicate AllTarget(log: seq<Cmd>, from: nat, ohPath: Path, ps: seq<Project>, bucket: Bucket, i: nat)
    requires AllRecorded(ps, bucket, i)
  {
    forall k :: from <= k < |log| ==> Targets(log[k], ohPath, ps, bucket, i)
  }

  /**
   * The checkout phase only appends to the history, and what it appends
   * touches only project directories, each with its recorded commit.
   */
  lemma {:induction false} CheckoutRunTargets(env: Env, log: seq<Cmd>, ohPath: Path, ps: seq<Project>, bucket: Bucket, i: nat)
    requires i <= |ps| && AllRecorded(ps, bucket, i)
    ensures var run := CheckoutRun(env, log, ohPath, ps, bucket, i);
      && |run.log| >= |log| && run.log[..|log|] == log
      && AllTarget(run.log, |log|, ohPath, ps, bucket, i)
    decreases |ps| - i
  {
    if i < |ps| {
      var dir, sha := JoinPath(ohPath, ps[i].path), bucket[ps[i].name].sha;
      var o := Outcome(env, log, dir, sha, ResetAttempts);
      OutcomeFacts(env, log, dir, sha);
      var run := CheckoutRun(env, log, ohPath, ps, bucket, i);
      if o.ok {
        CheckoutRunTargets(env, o.issued, ohPath, ps, bucket, i + 1);
        assert run.log[..|log|] == run.log[..|o.issued|][..|log|];
        forall k | |log| <= k < |run.log|
          ensures Targets(run.log[k], ohPath, ps, bucket, i)
        {
          if k < |o.issued| {
            assert run.log[k] == run.log[..|o.issued|][k] == o.issued[k];
          } else {
            assert Targets(run.log[k], ohPath, ps, bucket, i + 1);
            var j :| i + 1 <= j < |ps| && run.log[k].dir == JoinPath(ohPath, ps[j].path) &&
              (run.log[k].op == Fetch || run.log[k].op == ResetHard(bucket[ps[j].name].sha));
          }
        }
      }
    }
  }

  /**
   * The checkout phase stops exactly at the first failing fetch: it reports
   * a failure if and only if the history it leaves ends in a fetch that
   * failed, no fetch before that one failed, and that last fetch ran in the
   * failing project's directory.
   */
  lemma {:induction false} CheckoutRunFailure(env: Env, log: seq<Cmd>, ohPath: Path, ps: seq<Project>, bucket: Bucket, i: nat)
    requires i <= |ps| && AllRecorded(ps, bucket, i)
    ensures var run := CheckoutRun(env, log, ohPath, ps, bucket, i);
      && |run.log| >= |log| && run.log[..|log|] == log
      && (run.failed.Some? <==> EndsInFailedFetchIn(env, run.log, |log|))
      && FetchesSucceedIn(env, run.log, |log|, if run.failed.Some? then |run.log| - 1 else |run.log|)
      && (run.failed.Some? ==>
            && i <= run.failed.value < |ps|
            && run.log[|run.log| - 1].dir == JoinPath(ohPath, ps[run.failed.value].path))
    decreases |ps| - i
  {
    if i < |ps| {
      var dir, sha := JoinPath(ohPath, ps[i].path), bucket[ps[i].name].sha;
      var o := Outcome(env, log, dir, sha, ResetAttempts);
      OutcomeFacts(env, log, dir, sha);
      if o.ok {
        var run := CheckoutRun(env, log, ohPath, ps, bucket, i);
        CheckoutRunFailure(env, o.issued, ohPath, ps, bucket, i + 1);
        assert run.log[..|log|] == run.log[..|o.issued|][..|log|];
        var upto := if run.failed.Some? then |run.log| - 1 else |run.log|;
        forall k | |log| <= k < upto && run.log[k].op.Fetch?
          ensures StatusIn(env, run.log, k) == 0
        {
          if k < |o.issued| {
            StatusInPrefix(env, o.issued, run.log, k);
            assert run.log[k] == run.log[..|o.issued|][k];
          }
        }
        if run.log == o.issued {
          assert !EndsInFailedFetchIn(env, run.log, |log|);
        }
      }
    }
  }

  /**
   * Lines 146-150: checks out every project in manifest order. The project
   * that failed and the command history afterwards are those of the
   * checkout phase; after a failure the process is left in that project's
   * directory.
   */
  method CheckoutProjects(env: Env, w: World, ohPath: Path, c: Cache, since: Option<Stamp>, until: Option<Stamp>, ps: seq<Project>)
    returns (w': World, failed: Option<nat>)
    requires EntryKey(since, until) in c && AllRecorded(ps, c[EntryKey(since, until)], 0)
    ensures var run := CheckoutRun(env, w.ran, ohPath, ps, c[EntryKey(since, until)], 0);
      && failed == run.failed
      && (failed.Some? ==> failed.value < |ps|)
      && w' == w.(ran := run.log, cwd := if failed.Some? then JoinPath(ohPath, ps[failed.value].path) else w.cwd)
  {
    ghost var bucket := c[EntryKey(since, until)];
    w' := w;
    for i := 0 to |ps|
      invariant w' == w.(ran := w'.ran)
      invariant CheckoutRun(env, w.ran, ohPath, ps, bucket, 0) == CheckoutRun(env, w'.ran, ohPath, ps, bucket, i)
    {
      var sha := GetShaFromCache(c, ps[i].name, since, until);
      var ok;
      ok, w' := GitResetBySha(env, w', JoinPath(ohPath, ps[i].path), sha.value);
      if !ok {
        return w', Some(i);
      }
    }
    failed := None;
  }

  /**
   * Lines 152-161 from step `i` on, after the commands `log`: run each
   * post-download command in `dir` and stop at the first one that fails.
   */
  function PostRun(env: Env, log: seq<Cmd>, dir: Path, steps: seq<Op>, i: nat): (run: Run)
    requires i <= |steps|
    ensures run.failed.Some? ==> i <= run.failed.value < |steps|
    decreases |steps| - i
  {
    if i == |steps| then Run(None, log)
    else
      var cmd := Cmd(dir, steps[i]);
      if env.status(log, cmd) != 0 then Run(Some(i), log + [cmd])
      else PostRun(env, log + [cmd], dir, steps, i + 1)
  }

  /**
   * The post-download steps run in order, in `dir`, each exactly once, up to
   * and including the first that fails: every step before it succeeded, and
   * a failure is reported exactly when the last step run failed.
   */
  lemma {:induction false} PostRunStopsAtFirstFailure(env: Env, log: seq<Cmd>, dir: Path, steps: seq<Op>, i: nat)
    requires i <= |steps|
    ensures var run := PostRun(env, log, dir, steps, i);
      var end := if run.failed.Some? then run.failed.value + 1 else |steps|;
      && i <= end <= |steps|
      && |run.log| == |log| + end - i
      && run.log[..|log|] == log
      && (forall k :: |log| <= k < |run.log| ==> run.log[k] == Cmd(dir, steps[i + k - |log|]))
      && (forall k :: |log| <= k < |run.log| - 1 ==> StatusIn(env, run.log, k) == 0)
      && (run.failed.Some? <==> |run.log| > |log| && StatusIn(env, run.log, |run.log| - 1) != 0)
    decreases |steps| - i
  {
    if i < |steps| {
      var cmd := Cmd(dir, steps[i]);
      var run := PostRun(env, log, dir, steps, i);
      var log' := log + [cmd];
      assert log'[..|log|] == log;
      if env.status(log, cmd) == 0 {
        PostRunStopsAtFirstFailure(env, log', dir, steps, i + 1);
        assert run.log[..|log|] == run.log[..|log'|][..|log|];
        assert run.log[|log|] == run.log[..|log'|][|log|];
        forall k | |log| <= k < |run.log| - 1
          ensures StatusIn(env, run.log, k) == 0
        {
          if k == |log| {
            StatusInPrefix(env, log', run.log, k);
          }
        }
        if |run.log| == |log'| {
          StatusInPrefix(env, log', run.log, |log|);
        }
      }
    }
  }

  /**
   * The post-download steps extend the log by the commands of the steps
   * from `i` up to and including the first that fails, in order.
   */
  lemma {:induction false} PostRunLog(env: Env, log: seq<Cmd>, dir: Path, steps: seq<Op>, i: nat)
    requires i <= |steps|
    ensures var run := PostRun(env, log, dir, steps, i);
      var end := if run.failed.Some? then run.failed.value + 1 else |steps|;
      && i <= end <= |steps|
      && |run.log| == |log| + end - i
      && run.log[..|log|] == log
      && (forall k :: |log| <= k < |run.log| ==> run.log[k] == Cmd(dir, steps[i + k - |log|]))
    decreases |steps| - i
  {
    if i < |steps| {
      var cmd := Cmd(dir, steps[i]);
      var run := PostRun(env, log, dir, steps, i);
      var log' := log + [cmd];
      if env.status(log, cmd) == 0 {
        PostRunLog(env, log', dir, steps, i + 1);
        assert run.log[..|log|] == run.log[..|log'|][..|log|];
        assert run.log[|log|] == run.log[..|log'|][|log|];
      }
    }
  }

  /** The commands that run `steps` in order, in `dir`. */
  function Issued(dir: Path, steps: seq<Op>): (cmds: seq<Cmd>)
    ensures |cmds| == |steps|
    ensures forall k :: 0 <= k < |steps| ==> cmds[k] == Cmd(dir, steps[k])
  {
    if steps == [] then [] else [Cmd(dir, steps[0])] + Issued(dir, steps[1..])
  }

  /**
   * The post-download steps append exactly the commands of the steps from
   * `i` up to and including the first that fails, and nothing else.
   */
  lemma PostRunIssues(env: Env, log: seq<Cmd>, dir: Path, steps: seq<Op>, i: nat)
    requires i <= |steps|
    ensures var run := PostRun(env, log, dir, steps, i);
      var end := if run.failed.Some? then run.failed.value + 1 else |steps|;
      i <= end <= |steps| && run.log == log + Issued(dir, steps[i..end])
  {
    var run := PostRun(env, log, dir, steps, i);
    var end := if run.failed.Some? then run.failed.value + 1 else |steps|;
    PostRunLog(env, log, dir, steps, i);
    var issued := Issued(dir, steps[i..end]);
    forall k | 0 <= k < |run.log|
      ensures run.log[k] == (log + issued)[k]
    {
      if k < |log| {
        assert run.log[k] == run.log[..|log|][k];
      }
    }
  }

  /**
   * Lines 152-161: runs the post-download commands in the current
   * directory, stopping at the first failure.
   */
  method RunPostSteps(env: Env, w: World) returns (w': World, failed: Option<nat>)
    ensures var run := PostRun(env, w.ran, w.cwd, PostSteps, 0);
      failed == run.failed && w' == w.(ran := run.log)
  {
    w' := w;
    for i := 0 to |PostSteps|
      invariant w' == w.(ran := w'.ran)
      invariant PostRun(env, w.ran, w.cwd, PostSteps, 0) == PostRun(env, w'.ran, w.cwd, PostSteps, i)
    {
      var res;
      res, w' := System(env, w', PostSteps[i]);
      if res != 0 {
        return w', Some(i);
      }
    }
    failed := None;
  }

  /** How `download_oh` ended: at which early return, or at the end. */
  datatype Exit =
    | NotADirectory                     // line 95
    | InitFailed                        // line 108
    | ManifestUnresolved                // line 117
    | ManifestCheckoutFailed            // line 122
    | SyncFailed                        // line 130
    | ProjectUnresolved(index: nat)     // line 142
    | ProjectCheckoutFailed(index: nat) // line 150
    | PostStepFailed(index: nat)        // line 161
    | Completed

  /** The state between two phases: the world, the cache in memory, and the early return taken, if any. */
  datatype Step = Step(w: World, c: Cache, exit: Option<Exit>)

  /** The state once `download_oh` has returned. */
  datatype Ended = Ended(w: World, exit: Exit)

  /**
   * `if since or until`: a datetime is always truthy, so a window is given
   * exactly when either bound is, and only two missing bounds mean none.
   */
  predicate Dated(since: Option<Stamp>, until: Option<Stamp>): (d: bool)
    ensures !d <==> since.None? && until.None?
  {
    since.Some? || until.Some?
  }

  /**
   * Lines 90-108: create the workspace if it is missing, refuse a path that
   * is not a directory, change into it, load the cache, and run `repo init`
   * when the workspace has no `.repo` entry.
   */
  function Prepare(env: Env, w0: World, ohPath: Path, since: Option<Stamp>, until: Option<Stamp>): (s: Step)
    ensures s.exit.None? || s.exit == Some(NotADirectory) || s.exit == Some(InitFailed)
    ensures s.exit.None? ==> EntryKey(since, until) in s.c
  {
    var w1 := if Exists(w0, ohPath) then w0 else w0.(dirs := w0.dirs + {ohPath});
    if ohPath !in w1.dirs then Step(w1, map[], Some(NotADirectory))
    else
      var w2 := w1.(cwd := ohPath);
      var c := LoadOrInitShaCache(w2.files, ohPath, since, until);
      var init := Cmd(ohPath, RepoInit);
      if Exists(w2, JoinPath(ohPath, RepoDir)) then Step(w2, c, None)
      else if env.status(w2.ran, init) != 0 then Step(w2.(ran := w2.ran + [init]), c, Some(InitFailed))
      else Step(w2.(ran := w2.ran + [init]), c, None)
  }

  /**
   * Lines 112-122: find the manifest repository's commit in the cache or
   * ask the remote for it, exactly as for a project; stop when there is
   * none; otherwise check the manifest repository out at it, and on failure
   * save the cache and stop.
   */
  function PinManifest(env: Env, latest: string -> Option<string>, w: World, c: Cache, ohPath: Path, since: Option<Stamp>, until: Option<Stamp>): (s: Step)
    requires EntryKey(since, until) in c
    ensures s.exit.None? || s.exit == Some(ManifestUnresolved) || s.exit == Some(ManifestCheckoutFailed)
    ensures EntryKey(since, until) in s.c
  {
    var entry, name := EntryKey(since, until), ManifestProject.name;
    var cached := name in c[entry];
    var w1 := if cached then w else w.(asked := w.asked + [name]);
    if !cached && latest(name).None? then Step(w1, c, Some(ManifestUnresolved))
    else
      var sha := if cached then c[entry][name].sha else latest(name).value;
      var c1 := if cached then c else c[entry := c[entry][name := Record(ManifestProject.path, sha)]];
      var dir := JoinPath(ohPath, ManifestsDir);
      var o := Outcome(env, w1.ran, dir, sha, ResetAttempts);
      if o.ok then Step(w1.(ran := o.issued), c1, None)
      else Step(SaveShaCache(w1.(ran := o.issued, cwd := dir), ohPath, c1), c1, Some(ManifestCheckoutFailed))
  }

  /** Lines 124-130: `repo sync` unless it is switched off; a failure stops the download. */
  function Sync(env: Env, w: World, c: Cache, noSync: bool): (s: Step)
    ensures s.exit.None? || s.exit == Some(SyncFailed)
    ensures s.exit == Some(SyncFailed) <==> !noSync && env.status(w.ran, Cmd(w.cwd, RepoSync)) != 0
    ensures s.c == c
  {
    var sync := Cmd(w.cwd, RepoSync);
    if noSync then Step(w, c, None)
    else if env.status(w.ran, sync) != 0 then Step(w.(ran := w.ran + [sync]), c, Some(SyncFailed))
    else Step(w.(ran := w.ran + [sync]), c, None)
  }

  /**
   * Lines 132-150: resolve every project of the manifest, save the cache,
   * and check every project out, stopping at the first failure.
   */
  function PinProjects(env: Env, latest: string -> Option<string>, w: World, c: Cache, ohPath: Path, since: Option<Stamp>, until: Option<Stamp>, ps: seq<Project>): (s: Step)
    requires EntryKey(since, until) in c
    ensures s.exit.None? || s.exit.value.ProjectUnresolved? || s.exit.value.ProjectCheckoutFailed?
    ensures EntryKey(since, until) in s.c
  {
    var entry := EntryKey(since, until);
    var r := Resolve(c[entry], ps, latest, 0, w.asked);
    var c1 := c[entry := r.bucket];
    var w1 := SaveShaCache(w.(asked := r.asked), ohPath, c1);
    if r.Stopped? then Step(w1, c1, Some(ProjectUnresolved(r.at)))
    else
      AllResolvedRecorded(c[entry], ps, latest, w.asked);
      var run := CheckoutRun(env, w1.ran, ohPath, ps, r.bucket, 0);
      if run.failed.None? then Step(w1.(ran := run.log), c1, None)
      else Step(w1.(ran := run.log, cwd := JoinPath(ohPath, ps[run.failed.value].path)), c1, Some(ProjectCheckoutFailed(run.failed.value)))
  }

  /** Lines 152-161: the post-download steps, in the current directory; the first failure ends the run. */
  function Finish(env: Env, w: World): (e: Ended)
    ensures e.exit == Completed || e.exit.PostStepFailed?
  {
    var post := PostRun(env, w.ran, w.cwd, PostSteps, 0);
    Ended(w.(ran := post.log), if post.failed.Some? then PostStepFailed(post.failed.value) else Completed)
  }

  /** The projects of the manifest checkout, in the order the parser lists them. */
  ghost function ManifestProjects(manifests: Tree, rank: map<string, nat>): seq<Project>
    requires Ranked(manifests, rank) && DefaultManifest in manifests
  {
    Flatten(manifests, rank, DefaultManifest)
  }

  /**
   * Lines 90-130: the workspace and `repo init`, the manifest repository
   * pinned when there is a window, and `repo sync`, each run only when the
   * ones before did not stop.
   */
  function UpToSync(env: Env, latest: string -> Option<string>, w0: World, ohPath: Path,
                    since: Option<Stamp>, until: Option<Stamp>, noSync: bool): (u: Step)
    ensures u.exit.None? ==> EntryKey(since, until) in u.c
    ensures u.exit.None? || u.exit == Some(NotADirectory) || u.exit == Some(InitFailed) || u.exit == Some(SyncFailed)
            || u.exit == Some(ManifestUnresolved) || u.exit == Some(ManifestCheckoutFailed)
    ensures u.exit == Some(ManifestUnresolved) || u.exit == Some(ManifestCheckoutFailed) ==> Dated(since, until)
  {
    var p := Prepare(env, w0, ohPath, since, until);
    if p.exit.Some? then p
    else
      var m := if Dated(since, until) then PinManifest(env, latest, p.w, p.c, ohPath, since, until) else p;
      if m.exit.Some? then m
      else Sync(env, m.w, m.c, noSync)
  }

  /**
   * Lines 132-161 with a window: the projects pinned, then the post steps
   * unless a project stopped the run. It ends only at a project, at a post
   * step, or completed; a project index is one of `ps`.
   */
  function FromProjects(env: Env, latest: string -> Option<string>, w: World, c: Cache, ohPath: Path,
                        since: Option<Stamp>, until: Option<Stamp>, ps: seq<Project>): (e: Ended)
    requires EntryKey(since, until) in c
    ensures e.exit.ProjectUnresolved? || e.exit.ProjectCheckoutFailed? || e.exit.PostStepFailed? || e.exit == Completed
    ensures e.exit.ProjectUnresolved? ==> e.exit.index < |ps|
    ensures e.exit.ProjectCheckoutFailed? ==> e.exit.index < |ps|
  {
    var q := PinProjects(env, latest, w, c, ohPath, since, until, ps);
    if q.exit.Some? then Ended(q.w, q.exit.value) else Finish(env, q.w)
  }

  /**
   * `download_oh` as a whole: the phases in order, each run only when the
   * ones before did not stop. The manifest and project exits happen only
   * with a window, and a post step is the last of a run that got that far.
   */
  ghost function Downloaded(env: Env, manifests: Tree, rank: map<string, nat>, w0: World, ohPath: Path,
                            latest: string -> Option<string>, since: Option<Stamp>, until: Option<Stamp>, noSync: bool): (d: Ended)
    requires Dated(since, until) ==> Ranked(manifests, rank) && DefaultManifest in manifests
    ensures d.exit == ManifestUnresolved || d.exit == ManifestCheckoutFailed ==> Dated(since, until)
    ensures d.exit.ProjectUnresolved? || d.exit.ProjectCheckoutFailed? ==>
      Dated(since, until) && d.exit.index < |ManifestProjects(manifests, rank)|
  {
    var u := UpToSync(env, latest, w0, ohPath, since, until, noSync);
    if u.exit.Some? then Ended(u.w, u.exit.value)
    else if Dated(since, until) then FromProjects(env, latest, u.w, u.c, ohPath, since, until, ManifestProjects(manifests, rank))
    else Finish(env, u.w)
  }

  /** Lines 90-108. */
  method PrepareWorkspace(env: Env, w0: World, ohPath: Path, since: Option<Stamp>, until: Option<Stamp>)
    returns (w: World, c: Cache, exit: Option<Exit>)
    ensures Step(w, c, exit) == Prepare(env, w0, ohPath, since, until)
  {
    w, c := w0, map[];
    if !Exists(w, ohPath) {
      w := w.(dirs := w.dirs + {ohPath});
    }
    if ohPath !in w.dirs {
      return w, c, Some(NotADirectory);
    }
    w := w.(cwd := ohPath);
    c := LoadOrInitShaCache(w.files, ohPath, since, until);
    exit := None;
    if !Exists(w, JoinPath(ohPath, RepoDir)) {
      var res;
      res, w := System(env, w, RepoInit);
      if res != 0 {
        exit := Some(InitFailed);
      }
    }
  }

  /** Lines 112-122. */
  method PinManifestRepo(env: Env, token: string, w: World, c: Cache, ohPath: Path, since: Option<Stamp>, until: Option<Stamp>)
    returns (w': World, c': Cache, exit: Option<Exit>)
    requires EntryKey(since, until) in c
    ensures Step(w', c', exit) == PinManifest(env, LatestFor(env, token, since, until), w, c, ohPath, since, until)
  {
    var sha;
    w', c', sha := ResolveOne(env, token, w, c, since, until, ManifestProject);
    ResolveSingle(c[EntryKey(since, until)], ManifestProject, LatestFor(env, token, since, until), w.asked);
    if ManifestProject.name in c[EntryKey(since, until)] {
      assert c' == c;
    }
    if sha.None? {
      return w', c', Some(ManifestUnresolved);
    }
    var ok;
    ok, w' := GitResetBySha(env, w', JoinPath(ohPath, ManifestsDir), sha.value);
    exit := None;
    if !ok {
      w' := SaveShaCache(w', ohPath, c');
      exit := Some(ManifestCheckoutFailed);
    }
  }

  /** Lines 124-130. */
  method SyncWorkspace(env: Env, w: World, c: Cache, noSync: bool) returns (w': World, exit: Option<Exit>)
    ensures Step(w', c, exit) == Sync(env, w, c, noSync)
  {
    w', exit := w, None;
    if !noSync {
      var res;
      res, w' := System(env, w', RepoSync);
      if res != 0 {
        exit := Some(SyncFailed);
      }
    }
  }

  /** Lines 132-150. */
  method PinAllProjects(env: Env, token: string, manifests: Tree, ghost rank: map<string, nat>, w: World, c: Cache,
                        ohPath: Path, since: Option<Stamp>, until: Option<Stamp>)
    returns (w': World, c': Cache, exit: Option<Exit>)
    requires Ranked(manifests, rank) && DefaultManifest in manifests && EntryKey(since, until) in c
    ensures Step(w', c', exit) == PinProjects(env, LatestFor(env, token, since, until), w, c, ohPath, since, until, ManifestProjects(manifests, rank))
  {
    var ps := ParseProjectsFromXml(manifests, rank, DefaultManifest, []);
    assert ps == ManifestProjects(manifests, rank);
    var stoppedAt;
    w', c', stoppedAt := ResolveProjects(env, token, w, ohPath, c, since, until, ps);
    if stoppedAt.Some? {
      return w', c', Some(ProjectUnresolved(stoppedAt.value));
    }
    AllResolvedRecorded(c[EntryKey(since, until)], ps, LatestFor(env, token, since, until), w.asked);
    var failed;
    w', failed := CheckoutProjects(env, w', ohPath, c', since, until, ps);
    exit := if failed.Some? then Some(ProjectCheckoutFailed(failed.value)) else None;
  }

  /**
   * `download_oh(oh_path, api, since, until, no_sync)`: the phases in
   * order. `manifests` stands for the manifest files under
   * `.repo/manifests` that the parser reaches from `default.xml` once that
   * repository is checked out (files it never opens are not part of it);
   * `token` is the API's access token.
   */
  method DownloadOh(env: Env, manifests: Tree, ghost rank: map<string, nat>, w0: World, ohPath: Path,
                    token: string, since: Option<Stamp>, until: Option<Stamp>, noSync: bool)
    returns (w: World, exit: Exit)
    requires Dated(since, until) ==> Ranked(manifests, rank) && DefaultManifest in manifests
    ensures Ended(w, exit) == Downloaded(env, manifests, rank, w0, ohPath, LatestFor(env, token, since, until), since, until, noSync)
  {
    var c, stop;
    w, c, stop := PrepareWorkspace(env, w0, ohPath, since, until);
    if stop.Some? {
      return w, stop.value;
    }
    if Dated(since, until) {
      w, c, stop := PinManifestRepo(env, token, w, c, ohPath, since, until);
      if stop.Some? {
        return w, stop.value;
      }
    }
    w, stop := SyncWorkspace(env, w, c, noSync);
    if stop.Some? {
      return w, stop.value;
    }
    if Dated(since, until) {
      w, c, stop := PinAllProjects(env, token, manifests, rank, w, c, ohPath, since, until);
      if stop.Some? {
        return w, stop.value;
      }
    }
    var failed;
    w, failed := RunPostSteps(env, w);
    exit := if failed.Some? then PostStepFailed(failed.value) else Completed;
  }

}
