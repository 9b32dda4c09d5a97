/**
 * The checkout driver `_git_reset_by_sha` (src/ohdl/ohdl.py:49-73): change
 * into the project's directory and try `git reset --hard <sha>` at most
 * twice, running `git fetch` after each failed reset. A failing fetch ends
 * the attempt with False and leaves the process in the project's directory;
 * otherwise the directory is restored and the answer is True, even when both
 * resets failed.
 */
module Checkout {
  import opened SnapshotCache
  import opened Host

  /** The bound of `for _ in range(2)`. */
  const ResetAttempts: nat := 2

  /** What one checkout did: its answer and the commands it issued, in order. */
  datatype ResetResult = ResetResult(ok: bool, issued: seq<Cmd>)

  /**
   * The reset loop with `attempts` attempts left, run in `dir` after the
   * commands `hist`: at least one command when an attempt is left, at most
   * two per attempt, and a False answer only after a reset and a fetch.
   */
  function ResetLoop(env: Env, hist: seq<Cmd>, dir: Path, sha: string, attempts: nat): (r: ResetResult)
    ensures attempts > 0 <==> r.issued != []
    ensures |r.issued| <= 2 * attempts
    ensures !r.ok ==> |r.issued| >= 2
    decreases attempts
  {
    if attempts == 0 then ResetResult(true, [])
    else
      var reset, fetch := Cmd(dir, ResetHard(sha)), Cmd(dir, Fetch);
      if env.status(hist, reset) == 0 then ResetResult(true, [reset])
      else if env.status(hist + [reset], fetch) != 0 then ResetResult(false, [reset, fetch])
      else
        var rest := ResetLoop(env, hist + [reset, fetch], dir, sha, attempts - 1);
        ResetResult(rest.ok, [reset, fetch] + rest.issued)
  }

  /** Reset, fetch, reset, fetch, ...: `n` rounds of the loop when every reset fails. */
  function Plan(dir: Path, sha: string, n: nat): (plan: seq<Cmd>)
    ensures |plan| == 2 * n
  {
    if n == 0 then [] else [Cmd(dir, ResetHard(sha)), Cmd(dir, Fetch)] + Plan(dir, sha, n - 1)
  }

  /** The exit status of the `k`-th of `cmds` when they run after `hist`. */
  function StatusAt(env: Env, hist: seq<Cmd>, cmds: seq<Cmd>, k: nat): int
    requires k < |cmds|
  {
    env.status(hist + cmds[..k], cmds[k])
  }

  /** Proof helper: statuses of a sequence run after `hist` and of its tail run after `hist` plus its head. */
  lemma StatusAtShift(env: Env, hist: seq<Cmd>, head: seq<Cmd>, tail: seq<Cmd>, k: nat)
    requires k < |tail|
    ensures StatusAt(env, hist, head + tail, |head| + k) == StatusAt(env, hist + head, tail, k)
  {
    assert (head + tail)[..|head| + k] == head + tail[..k];
    assert hist + (head + tail[..k]) == (hist + head) + tail[..k];
  }

  /**
   * The loop issues a non-empty prefix of the plan, so never more than
   * `attempts` resets and `attempts` fetches, and it answers True when it
   * issues nothing.
   */
  lemma {:induction false} ResetLoopFollowsPlan(env: Env, hist: seq<Cmd>, dir: Path, sha: string, attempts: nat)
    ensures var r := ResetLoop(env, hist, dir, sha, attempts);
      && r.issued <= Plan(dir, sha, attempts)
      && (attempts > 0 <==> r.issued != [])
      && (r.issued == [] ==> r.ok)
    decreases attempts
  {
    if attempts > 0 {
      var reset, fetch := Cmd(dir, ResetHard(sha)), Cmd(dir, Fetch);
      ResetLoopFollowsPlan(env, hist + [reset, fetch], dir, sha, attempts - 1);
    }
  }

  /** Every command of `cmds` except the last let the loop go on: a reset failed or a fetch succeeded. */
  predicate Continues(env: Env, hist: seq<Cmd>, cmds: seq<Cmd>)
  {
    forall k :: 0 <= k < |cmds| - 1 ==> (StatusAt(env, hist, cmds, k) == 0 <==> cmds[k].op.Fetch?)
  }

  /** Every command the loop issues except the last let it go on. */
  lemma {:induction false} ResetLoopContinues(env: Env, hist: seq<Cmd>, dir: Path, sha: string, attempts: nat)
    ensures Continues(env, hist, ResetLoop(env, hist, dir, sha, attempts).issued)
    decreases attempts
  {
    var r := ResetLoop(env, hist, dir, sha, attempts);
    var reset, fetch := Cmd(dir, ResetHard(sha)), Cmd(dir, Fetch);
    if attempts > 0 && env.status(hist, reset) != 0 && env.status(hist + [reset], fetch) == 0 {
      var hist' := hist + [reset, fetch];
      var rest := ResetLoop(env, hist', dir, sha, attempts - 1);
      ResetLoopContinues(env, hist', dir, sha, attempts - 1);
      assert r.issued == [reset, fetch] + rest.issued;
      forall k | 0 <= k < |r.issued| - 1
        ensures StatusAt(env, hist, r.issued, k) == 0 <==> r.issued[k].op.Fetch?
      {
        if k == 0 {
          assert hist + r.issued[..0] == hist;
        } else if k == 1 {
          assert r.issued[..1] == [reset];
          assert StatusAt(env, hist, r.issued, 1) == env.status(hist + [reset], fetch);
        } else {
          StatusAtShift(env, hist, [reset, fetch], rest.issued, k - 2);
          assert r.issued[k] == rest.issued[k - 2];
          assert Continues(env, hist', rest.issued);
        }
      }
    } else if attempts > 0 && env.status(hist, reset) != 0 {
      assert hist + r.issued[..0] == hist;
    }
  }

  /**
   * The last command the loop issues decides its answer: False exactly when
   * it is a failing fetch; a final reset succeeded and answers True; a final
   * successful fetch means every attempt was used up, and still answers True.
   */
  lemma {:induction false} ResetLoopLast(env: Env, hist: seq<Cmd>, dir: Path, sha: string, attempts: nat)
    requires attempts > 0
    ensures var r := ResetLoop(env, hist, dir, sha, attempts);
      var n := |r.issued|;
      && n > 0
      && (!r.ok <==> r.issued[n - 1].op.Fetch? && StatusAt(env, hist, r.issued, n - 1) != 0)
      && (r.issued[n - 1].op.ResetHard? ==> r.ok && StatusAt(env, hist, r.issued, n - 1) == 0)
      && (r.issued[n - 1].op.Fetch? && StatusAt(env, hist, r.issued, n - 1) == 0 ==> n == 2 * attempts)
    decreases attempts
  {
    var r := ResetLoop(env, hist, dir, sha, attempts);
    var reset, fetch := Cmd(dir, ResetHard(sha)), Cmd(dir, Fetch);
    if env.status(hist, reset) == 0 {
      assert hist + r.issued[..0] == hist;
    } else if env.status(hist + [reset], fetch) != 0 {
      assert r.issued[..1] == [reset];
    } else {
      var hist' := hist + [reset, fetch];
      var rest := ResetLoop(env, hist', dir, sha, attempts - 1);
      assert r.issued == [reset, fetch] + rest.issued;
      if attempts == 1 {
        assert r.issued == [reset, fetch];
        assert r.issued[..1] == [reset];
      } else {
        ResetLoopLast(env, hist', dir, sha, attempts - 1);
        StatusAtShift(env, hist, [reset, fetch], rest.issued, |rest.issued| - 1);
      }
    }
  }

  /**
   * The loop answers True even when every reset fails, as long as every
   * fetch succeeds; it then issues the whole plan.
   */
  lemma {:induction false} ResetTrueDespiteFailedResets(env: Env, hist: seq<Cmd>, dir: Path, sha: string, attempts: nat)
    requires forall n :: 0 <= n < attempts ==>
               env.status(hist + Plan(dir, sha, n), Cmd(dir, ResetHard(sha))) != 0 &&
               env.status(hist + Plan(dir, sha, n) + [Cmd(dir, ResetHard(sha))], Cmd(dir, Fetch)) == 0
    ensures ResetLoop(env, hist, dir, sha, attempts) == ResetResult(true, Plan(dir, sha, attempts))
    decreases attempts
  {
    if attempts > 0 {
      var reset, fetch := Cmd(dir, ResetHard(sha)), Cmd(dir, Fetch);
      var hist' := hist + [reset, fetch];
      assert Plan(dir, sha, 0) == [];
      assert hist + Plan(dir, sha, 0) == hist;
      forall n | 0 <= n < attempts - 1
        ensures env.status(hist' + Plan(dir, sha, n), reset) != 0
        ensures env.status(hist' + Plan(dir, sha, n) + [reset], fetch) == 0
      {
        assert Plan(dir, sha, n + 1) == [reset, fetch] + Plan(dir, sha, n);
        assert hist' + Plan(dir, sha, n) == hist + Plan(dir, sha, n + 1);
      }
      ResetTrueDespiteFailedResets(env, hist', dir, sha, attempts - 1);
    }
  }

  /** Every command of `cmds` runs in `dir` and is a fetch or a reset to `sha`. */
  predicate ResetCommandsIn(cmds: seq<Cmd>, dir: Path, sha: string)
  {
    forall k :: 0 <= k < |cmds| ==> cmds[k].dir == dir && (cmds[k].op == Fetch || cmds[k].op == ResetHard(sha))
  }

  /** The loop only fetches and resets to the requested commit, in the requested directory. */
  lemma {:induction false} ResetLoopCommands(env: Env, hist: seq<Cmd>, dir: Path, sha: string, attempts: nat)
    ensures ResetCommandsIn(ResetLoop(env, hist, dir, sha, attempts).issued, dir, sha)
    decreases attempts
  {
    if attempts > 0 {
      var reset, fetch := Cmd(dir, ResetHard(sha)), Cmd(dir, Fetch);
      var hist' := hist + [reset, fetch];
      ResetLoopCommands(env, hist', dir, sha, attempts - 1);
      var rest := ResetLoop(env, hist', dir, sha, attempts - 1);
      var r := ResetLoop(env, hist, dir, sha, attempts);
      if env.status(hist, reset) != 0 && env.status(hist + [reset], fetch) == 0 {
        assert r.issued == [reset, fetch] + rest.issued;
        forall k | 2 <= k < |r.issued|
          ensures r.issued[k].dir == dir && (r.issued[k].op == Fetch || r.issued[k].op == ResetHard(sha))
        {
          assert r.issued[k] == rest.issued[k - 2];
        }
      }
    }
  }

  /** The first `upto` of `cmds`, run after `hist`, include no failing fetch. */
  predicate FetchesSucceed(env: Env, hist: seq<Cmd>, cmds: seq<Cmd>, upto: nat)
    requires upto <= |cmds|
  {
    forall k :: 0 <= k < upto ==> cmds[k].op.Fetch? ==> StatusAt(env, hist, cmds, k) == 0
  }

  /** The command that ends `cmds` is a fetch that failed. */
  predicate EndsInFailedFetch(env: Env, hist: seq<Cmd>, cmds: seq<Cmd>)
  {
    cmds != [] && cmds[|cmds| - 1].op.Fetch? && StatusAt(env, hist, cmds, |cmds| - 1) != 0
  }

  /**
   * A checkout answers False exactly when its last command is a fetch that
   * failed, and no fetch before that one failed.
   */
  lemma ResetLoopFetches(env: Env, hist: seq<Cmd>, dir: Path, sha: string, attempts: nat)
    requires attempts > 0
    ensures var r := ResetLoop(env, hist, dir, sha, attempts);
      && (r.ok <==> !EndsInFailedFetch(env, hist, r.issued))
      && (r.ok ==> FetchesSucceed(env, hist, r.issued, |r.issued|))
      && (!r.ok ==> FetchesSucceed(env, hist, r.issued, |r.issued| - 1))
  {
    ResetLoopContinues(env, hist, dir, sha, attempts);
    ResetLoopLast(env, hist, dir, sha, attempts);
  }

  /** Proof helper: statuses of a prefix do not depend on what follows it. */
  lemma StatusAtPrefix(env: Env, hist: seq<Cmd>, head: seq<Cmd>, tail: seq<Cmd>, k: nat)
    requires k < |head|
    ensures StatusAt(env, hist, head + tail, k) == StatusAt(env, hist, head, k)
  {
    assert (head + tail)[..k] == head[..k];
  }

  /** The exit status of the `k`-th command of the whole history `log`, given the commands before it. */
  function StatusIn(env: Env, log: seq<Cmd>, k: nat): int
    requires k < |log|
  {
    env.status(log[..k], log[k])
  }

  /** Proof helper: a status relative to `hist` is the status at the same place in the whole history. */
  lemma StatusAtIn(env: Env, hist: seq<Cmd>, cmds: seq<Cmd>, k: nat)
    requires k < |cmds|
    ensures StatusAt(env, hist, cmds, k) == StatusIn(env, hist + cmds, |hist| + k)
  {
    assert (hist + cmds)[..|hist| + k] == hist + cmds[..k];
  }

  /** Proof helper: the statuses of a history's commands do not change as the history grows. */
  lemma StatusInPrefix(env: Env, log: seq<Cmd>, log': seq<Cmd>, k: nat)
    requires k < |log| <= |log'| && log'[..|log|] == log
    ensures StatusIn(env, log', k) == StatusIn(env, log, k)
  {
    assert log'[..k] == log[..k];
    assert log'[k] == log'[..|log|][k];
  }

  /** The commands of `log` from `from` on include no failing fetch before `upto`. */
  predicate FetchesSucceedIn(env: Env, log: seq<Cmd>, from: nat, upto: nat)
    requires upto <= |log|
  {
    forall k :: from <= k < upto ==> log[k].op.Fetch? ==> StatusIn(env, log, k) == 0
  }

  /** The history grew past `from` and its last command is a fetch that failed. */
  predicate EndsInFailedFetchIn(env: Env, log: seq<Cmd>, from: nat)
  {
    |log| > from && log[|log| - 1].op.Fetch? && StatusIn(env, log, |log| - 1) != 0
  }

  /** Every command of `log` from `from` on runs in `dir` and is a fetch or a reset to `sha`. */
  predicate CommandsIn(log: seq<Cmd>, from: nat, dir: Path, sha: string)
  {
    forall k :: from <= k < |log| ==> log[k].dir == dir && (log[k].op == Fetch || log[k].op == ResetHard(sha))
  }

  /**
   * The checkout of one project, on the whole history: it only appends, at
   * least one command, each in `dir` and a fetch or a reset to `sha`; it
   * answers False exactly when the last command is a failing fetch, and no
   * earlier fetch of it failed.
   */
  lemma OutcomeFacts(env: Env, log: seq<Cmd>, dir: Path, sha: string)
    ensures var o := Outcome(env, log, dir, sha, ResetAttempts);
      && |o.issued| > |log| && o.issued[..|log|] == log
      && CommandsIn(o.issued, |log|, dir, sha)
      && (o.ok <==> !EndsInFailedFetchIn(env, o.issued, |log|))
      && FetchesSucceedIn(env, o.issued, |log|, if o.ok then |o.issued| else |o.issued| - 1)
  {
    var r := ResetLoop(env, log, dir, sha, ResetAttempts);
    var o := Outcome(env, log, dir, sha, ResetAttempts);
    ResetLoopFollowsPlan(env, log, dir, sha, ResetAttempts);
    ResetLoopCommands(env, log, dir, sha, ResetAttempts);
    ResetLoopFetches(env, log, dir, sha, ResetAttempts);
    assert o.issued[..|log|] == log;
    forall k | 0 <= k < |r.issued|
      ensures StatusAt(env, log, r.issued, k) == StatusIn(env, o.issued, |log| + k)
      ensures o.issued[|log| + k] == r.issued[k]
    {
      StatusAtIn(env, log, r.issued, k);
    }
    forall k | |log| <= k < |o.issued|
      ensures o.issued[k].dir == dir && (o.issued[k].op == Fetch || o.issued[k].op == ResetHard(sha))
    {
      assert o.issued[k] == r.issued[k - |log|];
    }
    var upto := if o.ok then |o.issued| else |o.issued| - 1;
    forall k | |log| <= k < upto && o.issued[k].op.Fetch?
      ensures StatusIn(env, o.issued, k) == 0
    {
      assert o.issued[k] == r.issued[k - |log|];
    }
  }

  /**
   * `_git_reset_by_sha(project_path, sha)`: its answer, and the command
   * history it leaves, are those of the reset loop with two attempts; on
   * True the current directory is what it was, on False it is left at the
   * project's directory; nothing else changes.
   */
  method GitResetBySha(env: Env, w: World, projectPath: Path, sha: string) returns (ok: bool, w': World)
    ensures Outcome(env, w.ran, projectPath, sha, ResetAttempts) == ResetResult(ok, w'.ran)
    ensures w' == w.(ran := w'.ran, cwd := if ok then w.cwd else projectPath)
  {
    var cwd := w.cwd;
    w' := w.(cwd := projectPath);
    for attempt := 0 to ResetAttempts
      invariant w' == w.(ran := w'.ran, cwd := projectPath)
      invariant Outcome(env, w.ran, projectPath, sha, ResetAttempts) == Outcome(env, w'.ran, projectPath, sha, ResetAttempts - attempt)
    {
      ghost var before := w'.ran;
      ResetLoopStep(env, before, projectPath, sha, ResetAttempts - attempt);
      var res;
      res, w' := System(env, w', ResetHard(sha));
      if res == 0 {
        break;
      }
      res, w' := System(env, w', Fetch);
      assert before + [Cmd(projectPath, ResetHard(sha))] + [Cmd(projectPath, Fetch)] == before + [Cmd(projectPath, ResetHard(sha)), Cmd(projectPath, Fetch)];
      if res != 0 {
        return false, w';
      }
    }
    w' := w'.(cwd := cwd);
    ok := true;
  }

  /** The answer of the loop and the whole command history once it is done: the history grows by at most two commands an attempt. */
  function Outcome(env: Env, hist: seq<Cmd>, dir: Path, sha: string, attempts: nat): (o: ResetResult)
    ensures |hist| <= |o.issued| <= |hist| + 2 * attempts
  {
    var r := ResetLoop(env, hist, dir, sha, attempts);
    ResetResult(r.ok, hist + r.issued)
  }

  /** One attempt of the loop, stated on the whole history. */
  lemma ResetLoopStep(env: Env, hist: seq<Cmd>, dir: Path, sha: string, attempts: nat)
    ensures attempts == 0 ==> Outcome(env, hist, dir, sha, attempts) == ResetResult(true, hist)
    ensures attempts > 0 ==>
      var reset, fetch := Cmd(dir, ResetHard(sha)), Cmd(dir, Fetch);
      Outcome(env, hist, dir, sha, attempts) ==
        if env.status(hist, reset) == 0 then ResetResult(true, hist + [reset])
        else if env.status(hist + [reset], fetch) != 0 then ResetResult(false, hist + [reset] + [fetch])
        else Outcome(env, hist + [reset] + [fetch], dir, sha, attempts - 1)
  {
    assert hist + [] == hist;
    if attempts > 0 {
      var reset, fetch := Cmd(dir, ResetHard(sha)), Cmd(dir, Fetch);
      var rest := ResetLoop(env, hist + [reset, fetch], dir, sha, attempts - 1);
      assert hist + [reset] + [fetch] == hist + [reset, fetch];
      assert hist + ([reset, fetch] + rest.issued) == hist + [reset, fetch] + rest.issued;
    }
  }

}
