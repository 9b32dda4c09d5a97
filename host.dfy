/**
 * The operating system and the network as the core sees them. The program
 * changes directories, runs shell commands with `os.system`, reads and writes
 * the cache file and calls the commit-history API; here all of that is a
 * `World` value that the operations take and return, and the outcomes of
 * commands and API calls come from an `Env` of oracles.
 */
module Host {
  import opened SnapshotCache
  import opened Gitee

  /** The shell commands the core issues. */
  datatype Op =
    | ResetHard(sha: string)   // git reset --hard <sha>
    | Fetch                    // git fetch
    | RepoInit                 // repo init -u .../manifest.git -b master -m default.xml ...
    | RepoSync                 // repo sync -c --no-manifest-update --force-sync
    | LfsPull                  // repo forall -c 'git lfs pull'
    | PrebuiltsDownload        // bash build/prebuilts_download.sh

  /** A command together with the directory it ran in. */
  datatype Cmd = Cmd(dir: Path, op: Op)

  /**
   * The observable state: the current directory, the directories that exist,
   * the regular files holding a cache, every command run so far, every
   * repository whose commits were requested, and every path the cache was
   * written to, in order.
   */
  datatype World = World(
    cwd: Path,
    dirs: set<Path>,
    files: map<Path, Cache>,
    ran: seq<Cmd>,
    asked: seq<string>,
    saved: seq<Path>)

  /**
   * The oracles: the exit status of a command given every command run before
   * it, and the decoded reply of the API for an owner, a repository and the
   * query parameters.
   */
  datatype Env = Env(
    status: (seq<Cmd>, Cmd) -> int,
    remote: (string, string, map<string, string>) -> Response)

  /** `os.path.exists`: true for a directory and for a regular file alike. */
  predicate Exists(w: World, p: Path): (e: bool)
    ensures p in w.dirs ==> e
    ensures p in w.files ==> e
    ensures e ==> p in w.dirs || p in w.files
  {
    p in w.dirs || p in w.files
  }

  /** `os.system(cmd)`: runs the command in the current directory and returns its status. */
  method System(env: Env, w: World, op: Op) returns (res: int, w': World)
    ensures w' == w.(ran := w.ran + [Cmd(w.cwd, op)])
    ensures res == env.status(w.ran, Cmd(w.cwd, op))
  {
    res := env.status(w.ran, Cmd(w.cwd, op));
    w' := w.(ran := w.ran + [Cmd(w.cwd, op)]);
  }

}
