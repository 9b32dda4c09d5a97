/**
 * The resolution loop of `download_oh` (src/ohdl/ohdl.py:136-144): for every
 * project in manifest order, take the commit from the cache bucket of the
 * window, or else ask the remote for it and record it; on the first project
 * the remote cannot resolve, save the cache and stop; otherwise save the
 * cache once after the loop.
 */
module Resolution {
  import opened Wrappers
  import opened Dates
  import opened SnapshotCache
  import opened Host
  import opened Manifest
  import opened Ohdl

  /**
   * The outcome of the loop: the bucket it leaves and the names it asked the
   * remote about, and, when it stopped early, the index of the project that
   * could not be resolved.
   */
  datatype Resolved = Complete(bucket: Bucket, asked: seq<string>) | Stopped(bucket: Bucket, asked: seq<string>, at: nat)

  /**
   * The loop from project `i` on, with the bucket and the names asked so
   * far. A stop is at a project from `i` on, and the loop asks about at
   * most one name per project.
   */
  function Resolve(bucket: Bucket, ps: seq<Project>, latest: string -> Option<string>, i: nat, asked: seq<string>): (r: Resolved)
    requires i <= |ps|
    ensures r.Stopped? ==> i <= r.at < |ps|
    ensures |asked| <= |r.asked| <= |asked| + |ps| - i
    decreases |ps| - i
  {
    if i == |ps| then Complete(bucket, asked)
    else if ps[i].name in bucket then Resolve(bucket, ps, latest, i + 1, asked)
    else
      match latest(ps[i].name)
      case None => Stopped(bucket, asked + [ps[i].name], i)
      case Some(sha) => Resolve(bucket[ps[i].name := Record(ps[i].path, sha)], ps, latest, i + 1, asked + [ps[i].name])
  }

  /** The names of the projects `ps[from..to]`. */
  function Names(ps: seq<Project>, from: nat, to: nat): set<string>
    requires from <= to <= |ps|
  {
    set j | from <= j < to :: ps[j].name
  }

  /** The end of the projects the loop got through: all of them, or up to the one it stopped at. */
  function Reached(r: Resolved, ps: seq<Project>): nat
  {
    if r.Stopped? then r.at else |ps|
  }

  /**
   * The bucket the loop leaves: every record that was there is kept as it
   * is (an existing entry is never overwritten); the names added are
   * exactly those of the projects before the stop; the project it stopped
   * at has no record, and the remote found nothing for it.
   */
  lemma {:induction false} ResolveBucket(bucket: Bucket, ps: seq<Project>, latest: string -> Option<string>, i: nat, asked: seq<string>)
    requires i <= |ps|
    ensures var r := Resolve(bucket, ps, latest, i, asked);
      && (forall n :: n in bucket ==> n in r.bucket && r.bucket[n] == bucket[n])
      && (r.Stopped? ==> i <= r.at < |ps| && ps[r.at].name !in r.bucket && latest(ps[r.at].name).None?)
      && i <= Reached(r, ps) <= |ps|
      && r.bucket.Keys == bucket.Keys + Names(ps, i, Reached(r, ps))
    decreases |ps| - i
  {
    var r := Resolve(bucket, ps, latest, i, asked);
    if i < |ps| {
      var name := ps[i].name;
      if name in bucket {
        ResolveBucket(bucket, ps, latest, i + 1, asked);
        assert Names(ps, i, Reached(r, ps)) == {name} + Names(ps, i + 1, Reached(r, ps));
      } else if latest(name).Some? {
        var bucket' := bucket[name := Record(ps[i].path, latest(name).value)];
        ResolveBucket(bucket', ps, latest, i + 1, asked + [name]);
        assert Names(ps, i, Reached(r, ps)) == {name} + Names(ps, i + 1, Reached(r, ps));
      } else {
        assert Names(ps, i, i) == {};
      }
    } else {
      assert Names(ps, i, i) == {};
    }
  }

  /** The names asked so far only prefix the names the rest of the loop asks. */
  lemma {:induction false} ResolveAskedShift(bucket: Bucket, ps: seq<Project>, latest: string -> Option<string>, i: nat, asked: seq<string>)
    requires i <= |ps|
    ensures var r0 := Resolve(bucket, ps, latest, i, []);
      Resolve(bucket, ps, latest, i, asked) == r0.(asked := asked + r0.asked)
    decreases |ps| - i
  {
    if i < |ps| {
      var name := ps[i].name;
      if name in bucket {
        ResolveAskedShift(bucket, ps, latest, i + 1, asked);
      } else if latest(name).Some? {
        var bucket' := bucket[name := Record(ps[i].path, latest(name).value)];
        ResolveAskedShift(bucket', ps, latest, i + 1, asked + [name]);
        ResolveAskedShift(bucket', ps, latest, i + 1, [name]);
        var r1 := Resolve(bucket', ps, latest, i + 1, []);
        assert [] + [name] == [name];
        assert Resolve(bucket, ps, latest, i, []) == r1.(asked := [name] + r1.asked);
        assert asked + [name] + r1.asked == asked + ([name] + r1.asked);
      }
    }
  }

  /** No name of `names` has a record in `bucket`. */
  predicate NoneIn(names: seq<string>, bucket: Bucket)
  {
    forall k :: 0 <= k < |names| ==> names[k] !in bucket
  }

  /** No name occurs twice in `names`. */
  predicate Distinct(names: seq<string>)
  {
    forall k, l :: 0 <= k < l < |names| ==> names[k] != names[l]
  }

  /**
   * The remote is asked only on a cache miss: no name the loop asks about
   * had a record, and no name is asked twice.
   */
  lemma {:induction false} ResolveAsksFresh(bucket: Bucket, ps: seq<Project>, latest: string -> Option<string>, i: nat)
    requires i <= |ps|
    ensures NoneIn(Resolve(bucket, ps, latest, i, []).asked, bucket)
    ensures Distinct(Resolve(bucket, ps, latest, i, []).asked)
    decreases |ps| - i
  {
    if i < |ps| {
      var name := ps[i].name;
      if name in bucket {
        ResolveAsksFresh(bucket, ps, latest, i + 1);
      } else if latest(name).Some? {
        var bucket' := bucket[name := Record(ps[i].path, latest(name).value)];
        ResolveAskedShift(bucket', ps, latest, i + 1, [name]);
        ResolveAsksFresh(bucket', ps, latest, i + 1);
        var r1 := Resolve(bucket', ps, latest, i + 1, []);
        var r := Resolve(bucket, ps, latest, i, []);
        assert [] + [name] == [name];
        assert r.asked == [name] + r1.asked;
        forall k | 1 <= k < |r.asked|
          ensures r.asked[k] !in bucket'
        {
          assert r.asked[k] == r1.asked[k - 1];
        }
      }
    }
  }

  /**
   * The names asked are exactly the names the loop added to the bucket plus,
   * after a stop, the name of the project it stopped at.
   */
  lemma {:induction false} ResolveAsksKeys(bucket: Bucket, ps: seq<Project>, latest: string -> Option<string>, i: nat)
    requires i <= |ps|
    ensures var r := Resolve(bucket, ps, latest, i, []);
      Elements(r.asked) == (r.bucket.Keys - bucket.Keys) + StopName(r, ps)
    decreases |ps| - i
  {
    var r := Resolve(bucket, ps, latest, i, []);
    if i < |ps| {
      var name := ps[i].name;
      if name in bucket {
        ResolveAsksKeys(bucket, ps, latest, i + 1);
      } else if latest(name).Some? {
        var bucket' := bucket[name := Record(ps[i].path, latest(name).value)];
        ResolveAskedShift(bucket', ps, latest, i + 1, [name]);
        ResolveAsksKeys(bucket', ps, latest, i + 1);
        ResolveBucket(bucket', ps, latest, i + 1, []);
        var r1 := Resolve(bucket', ps, latest, i + 1, []);
        assert [] + [name] == [name];
        assert r.asked == [name] + r1.asked && r.bucket == r1.bucket && StopName(r, ps) == StopName(r1, ps);
        ElementsCons(name, r1.asked);
        assert r1.bucket.Keys - bucket.Keys == (r1.bucket.Keys - bucket'.Keys) + {name};
      } else {
        assert r == Stopped(bucket, [] + [name], i);
        assert Elements([] + [name]) == {name};
      }
    } else {
      assert Elements(r.asked) == {};
    }
  }

  /** The names occurring in `names`. */
  function Elements(names: seq<string>): set<string>
  {
    set n | n in names
  }

  /** The names of a list with one more name in front. */
  lemma ElementsCons(name: string, names: seq<string>)
    ensures Elements([name] + names) == {name} + Elements(names)
  {
    forall n
      ensures n in Elements([name] + names) <==> n in {name} + Elements(names)
    {
      assert n in [name] + names <==> n == name || n in names;
    }
  }

  /** The name of the project the loop stopped at, if it stopped. */
  function StopName(r: Resolved, ps: seq<Project>): set<string>
  {
    if r.Stopped? && r.at < |ps| then {ps[r.at].name} else {}
  }

  /**
   * A project reached without a record, and not preceded by a project of
   * the same name, keeps the path of that first occurrence and the commit
   * the remote gave: later duplicates do not overwrite it.
   */
  lemma {:induction false} ResolveFirstWins(bucket: Bucket, ps: seq<Project>, latest: string -> Option<string>, i: nat, asked: seq<string>, j: nat)
    requires i <= j < |ps|
    requires ps[j].name !in bucket
    requires forall k :: i <= k < j ==> ps[k].name != ps[j].name
    ensures var r := Resolve(bucket, ps, latest, i, asked);
      j < Reached(r, ps) ==>
        latest(ps[j].name).Some? && ps[j].name in r.bucket && r.bucket[ps[j].name] == Record(ps[j].path, latest(ps[j].name).value)
    decreases |ps| - i
  {
    var name := ps[i].name;
    if i == j {
      if latest(name).Some? {
        var bucket' := bucket[name := Record(ps[i].path, latest(name).value)];
        ResolveBucket(bucket', ps, latest, i + 1, asked + [name]);
      }
    } else if name in bucket {
      ResolveFirstWins(bucket, ps, latest, i + 1, asked, j);
    } else if latest(name).Some? {
      var bucket' := bucket[name := Record(ps[i].path, latest(name).value)];
      ResolveFirstWins(bucket', ps, latest, i + 1, asked + [name], j);
    }
  }

  /** After a complete run, every project has a record in the bucket it leaves. */
  lemma AllResolvedRecorded(bucket: Bucket, ps: seq<Project>, latest: string -> Option<string>, asked: seq<string>)
    requires Resolve(bucket, ps, latest, 0, asked).Complete?
    ensures forall j :: 0 <= j < |ps| ==> ps[j].name in Resolve(bucket, ps, latest, 0, asked).bucket
  {
    ResolveBucket(bucket, ps, latest, 0, asked);
    forall j | 0 <= j < |ps|
      ensures ps[j].name in Resolve(bucket, ps, latest, 0, asked).bucket
    {
      assert ps[j].name in Names(ps, 0, |ps|);
    }
  }

  /** When every remaining project already has a record, the loop asks nothing and changes nothing. */
  lemma {:induction false} ResolveAllCached(bucket: Bucket, ps: seq<Project>, latest: string -> Option<string>, i: nat, asked: seq<string>)
    requires i <= |ps|
    requires forall j :: i <= j < |ps| ==> ps[j].name in bucket
    ensures Resolve(bucket, ps, latest, i, asked) == Complete(bucket, asked)
    decreases |ps| - i
  {
    if i < |ps| {
      ResolveAllCached(bucket, ps, latest, i + 1, asked);
    }
  }

  /**
   * Idempotent resolution: once a run has resolved every project, a second
   * run over the bucket it left is a pure cache hit, asking the remote
   * nothing and leaving the bucket as it is.
   */
  lemma ResolveTwice(bucket: Bucket, ps: seq<Project>, latest: string -> Option<string>, asked: seq<string>, asked2: seq<string>)
    requires Resolve(bucket, ps, latest, 0, asked).Complete?
    ensures var b := Resolve(bucket, ps, latest, 0, asked).bucket;
      Resolve(b, ps, latest, 0, asked2) == Complete(b, asked2)
  {
    var b := Resolve(bucket, ps, latest, 0, asked).bucket;
    AllResolvedRecorded(bucket, ps, latest, asked);
    ResolveAllCached(b, ps, latest, 0, asked2);
  }

  /** Every record the loop adds holds the commit the remote reported for that name. */
  lemma {:induction false} ResolveNewRecords(bucket: Bucket, ps: seq<Project>, latest: string -> Option<string>, i: nat, asked: seq<string>)
    requires i <= |ps|
    ensures var r := Resolve(bucket, ps, latest, i, asked);
      forall n :: n in r.bucket && n !in bucket ==> latest(n) == Some(r.bucket[n].sha)
    decreases |ps| - i
  {
    if i < |ps| {
      var name := ps[i].name;
      if name !in bucket && latest(name).Some? {
        var added := bucket[name := Record(ps[i].path, latest(name).value)];
        ResolveNewRecords(added, ps, latest, i + 1, asked + [name]);
        ResolveBucket(added, ps, latest, i + 1, asked + [name]);
      } else if name in bucket {
        ResolveNewRecords(bucket, ps, latest, i + 1, asked);
      }
    }
  }

  /**
   * The loop over a single project is one cache lookup: a hit changes
   * nothing; a miss asks for the name and either stops or records the
   * commit the remote gave.
   */
  lemma ResolveSingle(bucket: Bucket, p: Project, latest: string -> Option<string>, asked: seq<string>)
    ensures Resolve(bucket, [p], latest, 0, asked) ==
      if p.name in bucket then Complete(bucket, asked)
      else if latest(p.name).None? then Stopped(bucket, asked + [p.name], 0)
      else Complete(bucket[p.name := Record(p.path, latest(p.name).value)], asked + [p.name])
  {
    assert [p][0] == p;
  }

  /**
   * Lines 137-143 for one project: a cache hit changes nothing; a miss asks
   * the remote and, when it finds the commit, records it with the project's
   * path. The answer is the commit the cache now holds for the project,
   * None exactly when the remote found nothing.
   */
  method ResolveOne(env: Env, token: string, w: World, c: Cache, since: Option<Stamp>, until: Option<Stamp>, project: Project)
    returns (w': World, c': Cache, sha: Option<string>)
    requires EntryKey(since, until) in c
    ensures var entry := EntryKey(since, until);
      var b := c[entry];
      var latest := LatestFor(env, token, since, until)(project.name);
      && entry in c' && c' == c[entry := c'[entry]]
      && sha == Lookup(c', entry, project.name)
      && (project.name in b ==> c'[entry] == b && w' == w)
      && (project.name !in b ==>
            && w' == w.(asked := w.asked + [project.name])
            && sha == latest
            && c'[entry] == if sha.Some? then b[project.name := Record(project.path, sha.value)] else b)
  {
    w', c' := w, c;
    sha := GetShaFromCache(c, project.name, since, until);
    if sha.None? {
      w' := w.(asked := w.asked + [project.name]);
      sha := LatestCommitSha(env, token, project.name, since, until);
      if sha.Some? {
        c' := AddShaCache(c, sha.value, project.name, project.path, since, until);
        ghost var entry := EntryKey(since, until);
        assert c'[entry] == c[entry][project.name := Record(project.path, sha.value)];
        assert c' == c[entry := c'[entry]];
      }
    }
  }

  /** Replacing one bucket twice is replacing it once, by the second. */
  lemma UpdateTwice(c: Cache, entry: string, b: Bucket, b': Bucket)
    ensures c[entry := b][entry := b'] == c[entry := b']
  {
  }

  /**
   * Lines 136-143: the loop over the projects. It leaves the cache holding
   * the bucket `Resolve` describes and asks the remote about exactly the
   * names `Resolve` asks about; it stops at the first project with neither
   * a record nor a commit.
   */
  method ResolveLoop(env: Env, token: string, w: World, c: Cache,
                     since: Option<Stamp>, until: Option<Stamp>, ps: seq<Project>)
    returns (w': World, c': Cache, stoppedAt: Option<nat>)
    requires EntryKey(since, until) in c
    ensures var entry := EntryKey(since, until);
      var r := Resolve(c[entry], ps, LatestFor(env, token, since, until), 0, w.asked);
      && c' == c[entry := r.bucket]
      && stoppedAt == (if r.Stopped? then Some(r.at) else None)
      && w' == w.(asked := r.asked)
  {
    ghost var entry := EntryKey(since, until);
    ghost var latest := LatestFor(env, token, since, until);
    c', w' := c, w;
    for i := 0 to |ps|
      invariant entry in c' && c' == c[entry := c'[entry]]
      invariant w' == w.(asked := w'.asked)
      invariant Resolve(c[entry], ps, latest, 0, w.asked) == Resolve(c'[entry], ps, latest, i, w'.asked)
    {
      ghost var b := c'[entry];
      var sha;
      w', c', sha := ResolveOne(env, token, w', c', since, until, ps[i]);
      UpdateTwice(c, entry, b, c'[entry]);
      if sha.None? {
        return w', c', Some(i);
      }
    }
    stoppedAt := None;
  }

  /**
   * Lines 136-144: the loop over the projects, then the cache saved once,
   * at the stop (line 141) or after the loop (line 144); nothing else
   * changes.
   */
  method ResolveProjects(env: Env, token: string, w: World, ohPath: Path, c: Cache,
                         since: Option<Stamp>, until: Option<Stamp>, ps: seq<Project>)
    returns (w': World, c': Cache, stoppedAt: Option<nat>)
    requires EntryKey(since, until) in c
    ensures var entry := EntryKey(since, until);
      var r := Resolve(c[entry], ps, LatestFor(env, token, since, until), 0, w.asked);
      && c' == c[entry := r.bucket]
      && stoppedAt == (if r.Stopped? then Some(r.at) else None)
      && w' == w.(asked := r.asked, files := w.files[CachePath(ohPath) := c'], saved := w.saved + [CachePath(ohPath)])
  {
    w', c', stoppedAt := ResolveLoop(env, token, w, c, since, until, ps);
    w' := SaveShaCache(w', ohPath, c');
  }

}
