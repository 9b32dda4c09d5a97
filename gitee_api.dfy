/**
 * The commit-history client (src/ohdl/gitee_api.py). The HTTP request and the
 * JSON decoding are outside the model: the decoded body of the reply is an
 * input, `Response`, and everything the client does with it is a function.
 */
module Gitee {
  import opened Wrappers
  import opened Dates

  /**
   * One element of the decoded reply. `sha` is the value stored under the key
   * "sha"; it is None when the element has no such key or is not an object,
   * the two cases in which `commit['sha']` raises.
   */
  datatype Commit = Commit(sha: Option<string>)

  /** The decoded reply: a JSON array of commits, newest first, or anything else. */
  datatype Response = CommitArray(commits: seq<Commit>) | NotAnArray

  /** Every element of the array carries a sha, so the comprehension does not raise. */
  predicate AllHaveSha(commits: seq<Commit>)
  {
    forall i :: 0 <= i < |commits| ==> commits[i].sha.Some?
  }

  /**
   * The query parameters of the commit listing: the access token always, and
   * `since` and `until` (in ISO form) exactly when they are given.
   */
  function CommitsParams(token: string, since: Option<Stamp>, until: Option<Stamp>): (params: map<string, string>)
    ensures "access_token" in params && params["access_token"] == token
    ensures "since" in params <==> since.Some?
    ensures "until" in params <==> until.Some?
    ensures since.Some? ==> params["since"] == since.value.iso
    ensures until.Some? ==> params["until"] == until.value.iso
    ensures params.Keys <= {"access_token", "since", "until"}
  {
    var base := map["access_token" := token];
    var withSince := if since.Some? then base["since" := since.value.iso] else base;
    if until.Some? then withSince["until" := until.value.iso] else withSince
  }

  /**
   * `[commit['sha'] for commit in commits]`: the shas in order, or None when
   * some element raises.
   */
  function CollectShas(commits: seq<Commit>): (shas: Option<seq<string>>)
    ensures shas.Some? <==> AllHaveSha(commits)
    ensures shas.Some? ==> |shas.value| == |commits|
    ensures shas.Some? ==> forall i :: 0 <= i < |commits| ==> shas.value[i] == commits[i].sha.value
  {
    if commits == [] then Some([])
    else
      match commits[0].sha
      case None => None
      case Some(first) =>
        match CollectShas(commits[1..])
        case None => None
        case Some(rest) => Some([first] + rest)
  }

  /**
   * `get_commits_sha`: one sha per commit, in the order of the reply, or the
   * empty list when the reply is not an array or any element lacks a sha
   * (the well-formed elements are dropped too).
   */
  function GetCommitsSha(response: Response): (shas: seq<string>)
    ensures response.CommitArray? && AllHaveSha(response.commits) ==>
              |shas| == |response.commits| &&
              forall i :: 0 <= i < |shas| ==> shas[i] == response.commits[i].sha.value
    ensures response.NotAnArray? || !AllHaveSha(response.commits) ==> shas == []
  {
    match response
    case NotAnArray => []
    case CommitArray(commits) =>
      match CollectShas(commits)
      case None => []
      case Some(list) => list
  }

  /**
   * `get_latest_commit_sha`: None exactly when the sha list is empty,
   * otherwise its first element, which is therefore one of the listed shas.
   */
  function GetLatestCommitSha(response: Response): (latest: Option<string>)
    ensures latest.None? <==> GetCommitsSha(response) == []
    ensures latest.Some? ==> latest.value == GetCommitsSha(response)[0]
    ensures latest.Some? ==> latest.value in GetCommitsSha(response)
  {
    var shas := GetCommitsSha(response);
    if shas == [] then None else Some(shas[0])
  }

  /** A well-formed reply listing the given shas, newest first. */
  function Listing(shas: seq<string>): (response: Response)
  {
    CommitArray(seq(|shas|, i requires 0 <= i < |shas| => Commit(Some(shas[i]))))
  }

  /** Reading the shas back from a well-formed listing gives exactly the listed shas. */
  lemma ListingRoundTrip(shas: seq<string>)
    ensures GetCommitsSha(Listing(shas)) == shas
    ensures GetLatestCommitSha(Listing(shas)) == if shas == [] then None else Some(shas[0])
  {
    var response := Listing(shas);
    assert AllHaveSha(response.commits);
  }

  /**
   * All or nothing: one element without a sha empties the result, whatever
   * the other elements hold.
   */
  lemma MalformedElementDropsAll(commits: seq<Commit>, k: nat)
    requires k < |commits| && commits[k].sha.None?
    ensures GetCommitsSha(CommitArray(commits)) == []
    ensures GetLatestCommitSha(CommitArray(commits)).None?
  {
    assert !AllHaveSha(commits);
  }

}
