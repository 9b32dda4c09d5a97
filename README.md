# ohdl, modelled in Dafny

`ohdl` downloads an OpenHarmony source tree with `repo`. Given a date
window (`since`, `until`), it pins the manifest repository and every
project of the manifest to the newest commit inside that window. It asks
Gitee's commit-listing API for each commit and checks it out with
`git reset --hard`. The commits it found are remembered in a snapshot cache
file, `.sha_cache`, under the workspace root. That file maps the window key
`"<since> to <until>"` to a bucket of `{project: {path, sha}}`. Once a run
has saved every record (the save at `ohdl.py:144`), a second run for the
same window and the same manifest finds each commit in the file
(`DownloadFacts.DownloadRecordsAll`, `Resolution.ResolveTwice`) and asks the
API nothing. A run that stops earlier saves less: nothing when the
manifest is unresolved (line 117) or `repo sync` fails (line 130), the
manifest's record but no project's when its checkout fails (line 121), and
only the projects before the stop when a project is unresolved (lines
140-142). The next run asks the API again about what is missing.

The model covers these parts of the program:

- **`Gitee`** (`gitee_api.dfy`) is the API client. It covers the query
  parameters of a commit listing, the sha list with its all-or-nothing
  exception handling, and the newest commit.
- **`SnapshotCache`** (`snapshot_cache.dfy`) is the cache as a value: the
  window key, lookup, insert-or-replace, loading with a bucket ensured, the
  save/load round trip, and the cache file's path.
- **`Ohdl`** (`ohdl.dfy`) holds the free cache helpers of `ohdl.py` and
  `_get_latest_commit_sha`.
- **`ShaCacheClass`** (`sha_cache.dfy`) is the class `ShaCache`. Its field
  `cache` is updated in place by `Load` and `Add`.
- **`Host`** (`host.dfy`) is the operating system and the network, as a
  `World` value and an `Env` of oracles:
  - the `World` holds the current directory, the directories, the cache
    files, the command history, the repositories asked about, and the cache
    writes;
  - the `Env` gives each command's exit status and the API's decoded reply.
- **`Checkout`** (`checkout.dfy`) is `_git_reset_by_sha`: at most two
  resets, with a fetch after each failed one.
- **`Manifest`** (`manifest.dfy`) is `_parse_projects_from_xml`: a
  manifest's own projects, then its includes expanded recursively, in
  order.
- **`Resolution`** (`resolve.dfy`) is the per-project commit resolution
  loop of `download_oh`, with its cache save.
- **`Download`** (`download.dfy`) is `download_oh`, modelled twice:
  - as phase functions (`Prepare`, `PinManifest`, `Sync`, `PinProjects`,
    `Finish`) composed into `Downloaded`;
  - as methods with the program's control flow and early returns, each
    proved equal to its phase function.
- **`DownloadFacts`** (`download_facts.dfy`) holds what a run guarantees:
  - when the cache file is written and what it holds;
  - that the API is asked only on cache misses;
  - which early return is taken, and when;
  - which commands run;
  - where the process is left.

`download_oh` is modelled as state passed in and returned: each of its
methods takes the `World` and returns the new one. The class `ShaCache`
keeps its field `cache` and updates it in place. The early returns of
`download_oh` are the constructors of `Exit`, each tied to the line of its
`return`.

The model follows the code as written, including these behaviours:

- `_git_reset_by_sha` answers True when both resets fail but both fetches
  succeed (`Checkout.ResetTrueDespiteFailedResets`).
- A failing fetch returns False without changing back to the caller's
  directory, so a failed checkout leaves the process in the repository's
  directory (`DownloadFacts.DownloadLeaves`).
- The cache file is written with a plain `open(...).write`, at three places
  only:
  - line 121, after a failed manifest checkout;
  - line 141, at an unresolved project;
  - line 144, after the resolution loop.

  There is no write per project and no temporary file. A run whose
  `repo sync` fails after the manifest repository was resolved from the API
  therefore loses that record (`DownloadFacts.DownloadSavesOnce`).
- There is no mode that only records commits. Still, a stop at line 141
  saves the records gathered so far without checking any of them out
  (`DownloadFacts.PinProjectsCommands`). A failed checkout at line 150
  leaves the later projects, recorded by the save at line 144, not checked
  out (`Download.CheckoutRunFailure`).
- With duplicate project names, the first record wins, because a later
  duplicate hits the cache (`Resolution.ResolveFirstWins`). Each duplicate
  still resets its own path, to that first record's commit.
- An empty sha string is falsy at line 42 and counts as "not found"
  (`Ohdl.LatestCommitSha`).

## Model

| member | source | states |
|---|---|---|
| Gitee.CommitsParams | src/ohdl/gitee_api.py:12-19 | `access_token` is always present with the token. `since` and `until` are keys exactly when given, holding the ISO rendering. There are no other keys. |
| Gitee.CollectShas | src/ohdl/gitee_api.py:27-28 | The comprehension succeeds exactly when every element has a sha. It then yields one sha per commit, in order. |
| Gitee.GetCommitsSha | src/ohdl/gitee_api.py:24-32 | A well-formed array gives its shas in order. A non-array reply, or an element without a sha, gives `[]`. |
| Gitee.GetLatestCommitSha | src/ohdl/gitee_api.py:34-39 | None exactly when the sha list is empty. Otherwise it is the first (newest) sha of the list. |
| Gitee.ListingRoundTrip | src/ohdl/gitee_api.py:24-39 | Reading a well-formed listing gives back exactly the listed shas, and its newest one. |
| Gitee.MalformedElementDropsAll | src/ohdl/gitee_api.py:27-31 | One element without a sha empties the whole result, and the newest commit is then None. |
| SnapshotCache.JoinPath | src/ohdl/ohdl.py:110 | `os.path.join`: an absolute second component replaces the first. |
| SnapshotCache.JoinPathParts | src/ohdl/ohdl.py:149 | A joined relative component starts with the base and ends with the component. |
| SnapshotCache.CachePath | src/ohdl/ohdl.py:9 | The cache file is `<oh_path>/.sha_cache` for a root without a trailing slash. |
| SnapshotCache.CachePathParts | src/ohdl/ohdl.py:9 | The cache path starts with the workspace root and ends with `.sha_cache`. |
| Dates.Show | src/ohdl/ohdl.py:23 | A missing date renders as `None`, and a present one as its own text. |
| SnapshotCache.EntryKey | src/ohdl/ohdl.py:22-23 | The key is the rendering of `since`, then `" to "`, then the rendering of `until`, so it cuts back into the two renderings. |
| SnapshotCache.EntryKeyInjective | src/ohdl/ohdl.py:22-23 | Two windows whose `since` renderings have the same length share a key only if both renderings agree. |
| SnapshotCache.Lookup | src/ohdl/ohdl.py:27-30 | Some exactly when the project has a record in the bucket, and then that record's sha. |
| SnapshotCache.Upsert | src/ohdl/ohdl.py:33-37 | The record `{path, sha}` is set, replacing any earlier one. Every other record and every other bucket is unchanged. |
| SnapshotCache.LookupAfterUpsert | src/ohdl/sha_cache.py:26-36 | After an insert, its lookup gives the new sha. Every other (bucket, project) lookup is unchanged. |
| SnapshotCache.EnsureBucket | src/ohdl/ohdl.py:15-16 | The bucket exists afterwards, is empty if it was missing, and every present bucket is kept. |
| SnapshotCache.Loaded | src/ohdl/sha_cache.py:17-21 | The file's map replaces the cache when the file exists. Otherwise the cache is kept. Only a missing bucket is added, empty. |
| SnapshotCache.SaveThenLoad | src/ohdl/sha_cache.py:17-24 | Save then load gives back every bucket saved, adding only the requested bucket if missing. |
| Ohdl.LoadOrInitShaCache | src/ohdl/ohdl.py:8-17 | The window's bucket exists. The stored buckets are kept when the file exists; otherwise the cache is just the empty bucket. A file without the window's bucket gains it, empty. |
| Ohdl.SaveShaCache | src/ohdl/ohdl.py:19-20 | The whole cache overwrites the cache file and the write is logged. No other file or state changes. |
| Ohdl.SaveThenLoadOrInit | src/ohdl/ohdl.py:8-20 | Loading after saving reproduces the saved cache, with only the window's bucket ensured. |
| Ohdl.GetShaFromCache | src/ohdl/ohdl.py:25-30 | Some exactly when the project has a record in the window's bucket, and then its sha. |
| Ohdl.AddShaCache | src/ohdl/ohdl.py:32-37 | `get` of the added project then gives the sha, and its record holds the path. Other records and buckets are unchanged. |
| Ohdl.AddThenGet | src/ohdl/ohdl.py:25-37 | After an add, a get of that project gives its sha, and a get of any other project is unchanged. |
| Ohdl.LatestCommitSha | src/ohdl/ohdl.py:39-47 | None exactly when the listing is empty or its newest sha is empty. Otherwise it is the newest sha. |
| Ohdl.LatestFor | src/ohdl/ohdl.py:39-47 | For every repository: None exactly when its listing is empty or its newest sha is empty, and otherwise that newest sha. |
| ShaCacheClass.ShaCache.constructor | src/ohdl/sha_cache.py:6-7 | A new cache holds no bucket. |
| ShaCacheClass.ShaCache.PathFromOhDir | src/ohdl/sha_cache.py:9-11 | The path starts with the workspace root and ends with `.sha_cache`, joined with one `/`. |
| ShaCacheClass.ShaCache.EntryFromDate | src/ohdl/sha_cache.py:13-15 | The key is the rendering of `since`, then `" to "`, then the rendering of `until` (`None` when missing). |
| ShaCacheClass.ShaCache.Load | src/ohdl/sha_cache.py:17-21 | The field becomes the file's map when the file exists, or keeps its buckets otherwise. Only a missing bucket is added, empty. |
| ShaCacheClass.ShaCache.Save | src/ohdl/sha_cache.py:23-24 | The file at the path holds the field, and every other file is unchanged. |
| ShaCacheClass.ShaCache.Get | src/ohdl/sha_cache.py:26-30 | Some exactly when the project is in the bucket, and then its sha. |
| ShaCacheClass.ShaCache.Add | src/ohdl/sha_cache.py:32-36 | `Get` of the project then gives the sha, and the record holds the path. Every other record and bucket is unchanged. |
| ShaCacheClass.SaveThenLoadRoundTrip | src/ohdl/sha_cache.py:17-24 | Save then load through one object keeps every bucket, adding only the requested one if missing. |
| Host.System | src/ohdl/ohdl.py:105 | `os.system` appends the command, in the current directory, to the history, and answers its status. |
| Host.Exists | src/ohdl/ohdl.py:90 | True exactly when the path is a directory or a file. |
| Checkout.Plan | src/ohdl/ohdl.py:55-69 | n rounds of the loop issue 2n commands. |
| Checkout.ResetLoop | src/ohdl/ohdl.py:55-73 | The loop issues a command exactly when an attempt is left, at most two per attempt. A False answer comes only after a reset and a fetch. |
| Checkout.ResetLoopFollowsPlan | src/ohdl/ohdl.py:55-69 | The loop issues a non-empty prefix of reset, fetch, reset, fetch, so at most two resets and two fetches. |
| Checkout.ResetLoopContinues | src/ohdl/ohdl.py:58-67 | Every command except the last let the loop go on: a reset failed or a fetch succeeded. |
| Checkout.ResetLoopLast | src/ohdl/ohdl.py:55-73 | The answer is False exactly when the last command is a failing fetch. A last reset succeeded. A last successful fetch means every attempt was used. |
| Checkout.ResetTrueDespiteFailedResets | src/ohdl/ohdl.py:55-73 | With every reset failing and every fetch succeeding, the answer is still True, after the whole plan. |
| Checkout.ResetLoopCommands | src/ohdl/ohdl.py:56-66 | Every command is, in the project directory, a fetch or a reset to the requested sha. |
| Checkout.ResetLoopFetches | src/ohdl/ohdl.py:64-69 | False exactly when the commands end in a failing fetch, and no earlier fetch failed. |
| Checkout.OutcomeFacts | src/ohdl/ohdl.py:49-73 | A checkout appends at least one command, each in its directory and for its sha. It answers False exactly when the history ends in a failing fetch, and no earlier fetch of it failed. |
| Checkout.Outcome | src/ohdl/ohdl.py:49-73 | The history only grows, by at most two commands an attempt. |
| Checkout.GitResetBySha | src/ohdl/ohdl.py:49-73 | The answer and the new history are those of the two-attempt loop. The directory is restored on True and left at the project on False. Nothing else changes. |
| Checkout.ResetLoopStep | src/ohdl/ohdl.py:55-69 | One attempt: a successful reset ends with True, and a failing fetch ends with False. Otherwise the next attempt follows. |
| Manifest.FlattenAllAppend | src/ohdl/ohdl.py:83-85 | Expanding a concatenation of include lists concatenates their expansions. |
| Manifest.Flatten | src/ohdl/ohdl.py:75-85 | The file's own projects lead the list, in document order. |
| Manifest.FlattenAll | src/ohdl/ohdl.py:83-85 | No include gives no project. |
| Manifest.FlattenAllStep | src/ohdl/ohdl.py:83-85 | Expanding one more include appends that include's flattening. |
| Manifest.FlattenRankIrrelevant | src/ohdl/ohdl.py:75-85 | The project list does not depend on the ranking that shows the includes are acyclic. |
| Manifest.FlattenAllRankIrrelevant | src/ohdl/ohdl.py:83-85 | The same holds for a list of includes. |
| Manifest.IncludeKept | src/ohdl/ohdl.py:78-85 | No de-duplication: a file's projects and every include's whole flattening appear, with multiplicity. |
| Manifest.FlattenAllKeeps | src/ohdl/ohdl.py:83-85 | Each include's flattening is contained, as a multiset, in the expansion of the list. |
| Manifest.FlattenLength | src/ohdl/ohdl.py:75-85 | The list's length is the project count summed over the include tree, an include counted each time it occurs. |
| Manifest.FlattenAllLength | src/ohdl/ohdl.py:83-85 | The same holds for a list of includes. |
| Manifest.IncludeOrderExample | src/ohdl/ohdl.py:78-85 | A file including B then C lists B's projects before C's. |
| Manifest.ParseProjectsFromXml | src/ohdl/ohdl.py:75-85 | The list gains exactly the file's own projects, then each include expanded recursively, in order. |
| Resolution.ResolveBucket | src/ohdl/ohdl.py:136-143 | Every existing record is kept. The names added are exactly those of the projects before the stop. At a stop, that project has no record and the API had none. |
| Resolution.Resolve | src/ohdl/ohdl.py:136-143 | A stop is at a project from the starting index on, and the loop asks about at most one name per project. |
| Resolution.ResolveAskedShift | src/ohdl/ohdl.py:136-143 | The names asked so far only prefix those the rest of the loop asks. |
| Resolution.ResolveAsksFresh | src/ohdl/ohdl.py:137-140 | The API is asked only about names without a record, and never twice about one. |
| Resolution.ResolveAsksKeys | src/ohdl/ohdl.py:137-143 | The names asked are exactly the names added to the bucket, plus the name stopped at. |
| Resolution.ResolveFirstWins | src/ohdl/ohdl.py:136-143 | The first occurrence of an unrecorded name keeps its path and the API's commit, and later duplicates do not overwrite it. |
| Resolution.AllResolvedRecorded | src/ohdl/ohdl.py:136-144 | After a complete loop every project has a record. |
| Resolution.ResolveAllCached | src/ohdl/ohdl.py:137-138 | When every project has a record, the loop asks nothing and changes nothing. |
| Resolution.ResolveTwice | src/ohdl/ohdl.py:136-143 | A second run over the bucket a complete run left asks nothing and changes nothing. |
| Resolution.ResolveNewRecords | src/ohdl/ohdl.py:139-143 | Every added record holds the commit the API reported for its name. |
| Resolution.ResolveSingle | src/ohdl/ohdl.py:113-118 | One lookup: a hit changes nothing. A miss asks, and then either stops or records the commit. |
| Resolution.ResolveOne | src/ohdl/ohdl.py:137-143 | A hit changes nothing. A miss asks the API and records its commit with the project path. The answer is the commit now cached, None exactly when the API had none. |
| Resolution.ResolveLoop | src/ohdl/ohdl.py:136-143 | The loop leaves the bucket, the names asked and the stop index that `Resolve` describes. |
| Resolution.ResolveProjects | src/ohdl/ohdl.py:136-144 | The loop as above, then exactly one save of the whole cache, at the stop or after the loop. |
| Download.CheckoutRun | src/ohdl/ohdl.py:146-150 | A reported failure is the index of a project of the manifest. |
| Download.CheckoutRunTargets | src/ohdl/ohdl.py:146-150 | The phase only appends, and each command is a fetch or a reset to the recorded sha, in a project's directory. |
| Download.CheckoutRunFailure | src/ohdl/ohdl.py:146-150 | The phase stops at the first failing fetch: a failure exactly when the history ends in a failing fetch, run in that project's directory, and no fetch before it failed. |
| Download.CheckoutProjects | src/ohdl/ohdl.py:146-150 | The failure and the history are those of `CheckoutRun`. After a failure the process is left in that project's directory. |
| Download.PostRun | src/ohdl/ohdl.py:152-161 | A reported failure is the index of a step run from the start index on. |
| Download.PostRunStopsAtFirstFailure | src/ohdl/ohdl.py:152-161 | The steps run in order, in one directory, up to the first failure. Every earlier step succeeded, and a failure is reported exactly when the last step run failed. |
| Download.Issued | src/ohdl/ohdl.py:156-158 | One command per step, in order, in the given directory. |
| Download.PostRunLog | src/ohdl/ohdl.py:152-161 | The history keeps its prefix and gains the commands of the steps run, in order, up to and including the first failure. |
| Download.PostRunIssues | src/ohdl/ohdl.py:152-161 | The phase appends exactly the commands of the steps up to and including the first failure. |
| Download.RunPostSteps | src/ohdl/ohdl.py:152-161 | The failure and the history are those of `PostRun`, in the current directory. |
| Download.Prepare | src/ohdl/ohdl.py:90-108 | The only exits are not-a-directory and `repo init` failing. Otherwise the window's bucket is loaded. |
| Download.PinManifest | src/ohdl/ohdl.py:112-122 | The only exits are an unresolved manifest and a failed manifest checkout. The window's bucket exists afterwards. |
| Download.Sync | src/ohdl/ohdl.py:124-130 | The run stops exactly when `repo sync` runs and fails. The cache is unchanged. |
| Download.PinProjects | src/ohdl/ohdl.py:132-150 | The only exits are an unresolved project and a failed project checkout. |
| Download.Finish | src/ohdl/ohdl.py:152-161 | It ends completed, or at a failing post step. |
| Download.Dated | src/ohdl/ohdl.py:112 | The window is set exactly when `since` or `until` is given: a date is always truthy. |
| Download.UpToSync | src/ohdl/ohdl.py:90-130 | Unless a phase stopped the run, the window's bucket is in the cache. It ends only at the workspace, `repo init`, the manifest or `repo sync`, and the manifest exits happen only with a window. |
| Download.FromProjects | src/ohdl/ohdl.py:132-161 | It ends at a project, at a post step, or completed, and a project exit names one of the projects. |
| Download.Downloaded | src/ohdl/ohdl.py:87-161 | The manifest and project exits happen only with a window, and a project exit names a project of the manifest. |
| Download.PrepareWorkspace | src/ohdl/ohdl.py:90-108 | Equals `Prepare`. |
| Download.PinManifestRepo | src/ohdl/ohdl.py:112-122 | Equals `PinManifest` with the API lookup of the run. |
| Download.SyncWorkspace | src/ohdl/ohdl.py:124-130 | Equals `Sync`. |
| Download.PinAllProjects | src/ohdl/ohdl.py:132-150 | Equals `PinProjects` over the projects parsed from `default.xml`. |
| Download.DownloadOh | src/ohdl/ohdl.py:87-161 | The final world and exit are `Downloaded`: the phases in order, each run only when none before it returned. |
| DownloadFacts.KeepsRecordsUpdate | src/ohdl/ohdl.py:143 | Replacing the window's bucket by one that keeps its records keeps the cache's records. |
| DownloadFacts.KeepsRecordsTrans | src/ohdl/ohdl.py:113-143 | Keeping records, and new records coming from the API, compose over two phases. |
| DownloadFacts.PrepareFacts | src/ohdl/ohdl.py:90-108 | Only the directories, the current directory and the history change, the history gaining `repo init` when `.repo` is missing. The run stops exactly when that command fails, or when the path is a file. |
| DownloadFacts.PrepareLoads | src/ohdl/ohdl.py:100-108 | Past the workspace check, the window's bucket is the one stored in the cache file, or a new empty one when the file is missing or has no such bucket. |
| DownloadFacts.SyncFacts | src/ohdl/ohdl.py:124-130 | Only `repo sync` is appended, unless sync is off, and the run stops exactly when it fails. |
| DownloadFacts.PinManifestCache | src/ohdl/ohdl.py:112-122 | Records are kept, and a new one holds the API's commit. The run stops exactly when there was neither a record nor a commit. |
| DownloadFacts.PinManifestWorld | src/ohdl/ohdl.py:112-122 | The API is asked only on a miss. The cache file is written exactly when the checkout fails. |
| DownloadFacts.PinManifestCommands | src/ohdl/ohdl.py:112-122 | The checkout appends only resets to the recorded sha and fetches, in the manifests directory. It fails exactly at a failing last fetch, which alone leaves the directory changed. |
| DownloadFacts.PinManifestAsks | src/ohdl/ohdl.py:113-116 | The API is asked about the manifest repository only when it has no record. |
| DownloadFacts.PinProjectsCache | src/ohdl/ohdl.py:132-144 | Records are kept and new ones come from the API. The cache file is written once, whatever the outcome. |
| DownloadFacts.PinProjectsResolution | src/ohdl/ohdl.py:136-142 | The run stops at a project exactly when it had no record and the API had no commit. Otherwise every project has a record. |
| DownloadFacts.AsksFreshTrans | src/ohdl/ohdl.py:113-140 | Two rounds of lookups stay fresh and distinct when the second round sees the first round's records. |
| DownloadFacts.PinProjectsAsks | src/ohdl/ohdl.py:136-143 | The API is asked only about names missing from the bucket, and never twice about one. |
| DownloadFacts.PinProjectsCommands | src/ohdl/ohdl.py:146-150 | The checkout appends only resets to recorded shas and fetches, in project directories. It stops exactly at a failing fetch, in the failing project's directory. |
| DownloadFacts.GrowsWithoutCheckoutTrans | src/ohdl/ohdl.py:102-161 | Growing the history without resets or fetches composes. |
| DownloadFacts.FinishFacts | src/ohdl/ohdl.py:152-161 | The post steps only append their own commands, and stop at the first failure. |
| DownloadFacts.FinishEnds | src/ohdl/ohdl.py:152-161 | The post steps stay in the current directory, add no checkout, and end the history. |
| DownloadFacts.UpToSyncFiles | src/ohdl/ohdl.py:90-130 | A path that is a file is refused before anything changes. Only a failed manifest checkout writes the cache file. |
| DownloadFacts.UpToSyncCache | src/ohdl/ohdl.py:100-122 | The cache keeps what was loaded, and new records come from the API only. |
| DownloadFacts.UpToSyncUndated | src/ohdl/ohdl.py:90-130 | Without a window the API is not asked, and no reset or fetch runs. |
| DownloadFacts.UpToSyncManifest | src/ohdl/ohdl.py:110-122 | With a window, the run stops for want of a manifest commit exactly on a miss with no API commit. Past it the bucket records it, and only misses are asked. |
| DownloadFacts.UpToSyncAskedRecorded | src/ohdl/ohdl.py:110-130 | A run that got past `repo sync` asked the API only about repositories its bucket now records. |
| DownloadFacts.UpToSyncLeaves | src/ohdl/ohdl.py:90-130 | A failed manifest checkout stays in the manifests directory, ending in a failing fetch. Otherwise the run is in the workspace. |
| DownloadFacts.FromProjectsWorld | src/ohdl/ohdl.py:132-161 | The cache file is written exactly once, keeping records and taking new ones from the API. Only misses are asked. |
| DownloadFacts.FromProjectsResolution | src/ohdl/ohdl.py:136-144 | A stop is at a project with no record and no API commit. Otherwise the saved file records every project. |
| DownloadFacts.FromProjectsLeaves | src/ohdl/ohdl.py:132-161 | A failed project checkout stays in that project's directory. Otherwise the run stays put, and the history ends with the post steps run. |
| DownloadFacts.DownloadRefusesFile | src/ohdl/ohdl.py:90-95 | The not-a-directory exit happens exactly when the path exists as a file, and then nothing changes. |
| DownloadFacts.DownloadSavesOnce | src/ohdl/ohdl.py:87-161 | The cache file is written at most once: only with a window, and only at line 121, 141 or 144. |
| DownloadFacts.DownloadCacheUntouched | src/ohdl/ohdl.py:87-161 | A run that did not write the cache leaves every file as it was. |
| DownloadFacts.DownloadCacheWritten | src/ohdl/ohdl.py:87-161 | A written cache file holds every loaded bucket and record. Only the window's bucket gains records, each holding the API's commit. |
| DownloadFacts.DownloadUndated | src/ohdl/ohdl.py:87-161 | Without a window the API is never asked, and no checkout runs. The run ends only at the workspace, `repo init`, `repo sync`, a post step, or completion. |
| DownloadFacts.DownloadRecordsAll | src/ohdl/ohdl.py:132-161 | Once the checkouts ran, the cache file records the manifest repository and every project. |
| DownloadFacts.DownloadManifestUnresolved | src/ohdl/ohdl.py:112-117 | The unresolved-manifest exit happens exactly with a window, on a cache miss with no API commit, unless the run stopped earlier. |
| DownloadFacts.DownloadProjectUnresolved | src/ohdl/ohdl.py:136-142 | The unresolved-project exit names a manifest project with no record in the saved file and no API commit. |
| DownloadFacts.DownloadAsksOnlyMisses | src/ohdl/ohdl.py:87-161 | Over a whole run the API is asked only about repositories the loaded cache lacked, and never twice about one. |
| DownloadFacts.DownloadLeaves | src/ohdl/ohdl.py:87-161 | A failed checkout stays in that repository's directory, with the history ending in the failing fetch. Every other run past line 98 is in the workspace, and post steps end the history. |

## Left out

- The HTTP request of `_get_commits`, and the decoding of the JSON reply,
  are outside the model. The decoded reply is an oracle of the `Env`, and
  the model covers the query parameters and everything done with the reply.
  An API error object is treated like any non-array reply.
- Shell commands run through `os.system` are not executed. Their exit
  statuses come from an oracle that sees the whole command history, and the
  command strings are abstracted to the `Op` constructors.
- XML parsing is not modelled. A manifest file is reduced to its
  `<project>` elements and `<include>` names, and the files of
  `.repo/manifests` are a parameter.
- A cyclic include, on which the program recurses without end, is excluded
  by requiring a ranking of the includes.
- A missing `default.xml`, or a missing include, raises in the program. The
  model requires them to be present.
- The cache file's text is not modelled: `str()` and `eval()` are assumed to
  round-trip, so the file holds the map itself. A corrupt or hand-edited
  file is not modelled.
- A non-string `sha` in a reply is not modelled. Shas are strings.
- Failures of `os.mkdir`, `os.chdir` and file I/O are not modelled, nor are
  relative workspace paths that change meaning after `chdir`. Paths are
  compared as strings.
- `print` output is not modelled, and neither is the command-line front end
  `cli.py`.
- Python dictionaries are passed by reference in the program. The model
  threads the cache as a value, which is equivalent here, because only
  `download_oh`'s local variable holds it.
- Resolution.ResolveProjects: at a stop it writes the cache after leaving
  the loop instead of inside it. The written cache and the rest of the
  state are the same.
- Ohdl.GetShaFromCache, Ohdl.AddShaCache, ShaCacheClass.ShaCache.Get,
  ShaCacheClass.ShaCache.Add: each requires the window's bucket to be in
  the cache. The program raises KeyError otherwise, which no call in
  `download_oh` reaches, because the bucket is created at lines 15-16 when
  the cache is loaded.
- Download.Downloaded and the phase functions take the API lookup as a
  function parameter. The methods pass the run's own lookup, `LatestFor`.
