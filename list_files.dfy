/**
 * GET /api/list-files: one getContent call on the query path; each file of
 * a listing is annotated with its latest commit and the URLs pinned to it.
 */
module ListFiles {
  import opened Wrappers
  import opened Text
  import opened GitHub
  import opened Urls

  /** The fields only file items carry: commit sha and the two pinned URLs (`''` without a sha). */
  datatype CdnFields = CdnFields(commitSha: Option<string>, jsdelivrUrl: string, rawUrl: string)

  /** An item of the answer; `cdn` is `None` for the items that omit those fields. */
  datatype Item = Item(name: string, path: string, kind: Kind, size: nat, sha: string,
                       downloadUrl: Option<string>, htmlUrl: Option<string>, cdn: Option<CdnFields>)

  datatype ListResponse =
    | Listed(items: seq<Item>, path: string)   // 200, `{success: true, items, path}`
    | ListFailed(error: string)                // 500

  /** `searchParams.get('path') || ''`. */
  function QueryPath(q: Option<string>): string {
    OrElse(q, "")
  }

  /**
   * `getCommitSha`: the sha of the newest commit touching the path; a
   * failed call, an empty history and an empty sha all give `null`.
   */
  function CommitSha(reply: CommitsReply): (r: Option<string>)
    ensures r.Some? <==> reply.Commits? && |reply.shas| > 0 && reply.shas[0] != ""
    ensures r.Some? ==> r.value == reply.shas[0]
  {
    if reply.Commits? && |reply.shas| > 0 && reply.shas[0] != "" then Some(reply.shas[0]) else None
  }

  /** The pinned fields for `path`, given the commit found for it. */
  function Cdn(env: Env, path: string, commit: Option<string>): CdnFields {
    match commit
    case Some(c) => CdnFields(commit, JsDelivrUrl(EnvText(env.owner), EnvText(env.repo), c, path),
                              RawUrl(EnvText(env.owner), EnvText(env.repo), c, path))
    case None => CdnFields(None, "", "")
  }

  function Base(e: Entry, cdn: Option<CdnFields>): Item {
    Item(e.name, e.path, e.kind, e.size, e.sha, e.downloadUrl, e.htmlUrl, cdn)
  }

  /** One entry of a directory listing: only `file` entries look up a commit and get the pinned fields. */
  function ListedItem(env: Env, e: Entry, commits: string -> CommitsReply): Item {
    if e.kind == FileKind then Base(e, Some(Cdn(env, e.path, CommitSha(commits(e.path)))))
    else Base(e, None)
  }

  /** `response.data.map(...)` under `Promise.all`: one item per entry, in listing order. */
  function ListedItems(env: Env, es: seq<Entry>, commits: string -> CommitsReply): (r: seq<Item>)
    ensures |r| == |es|
    ensures forall k :: 0 <= k < |es| ==>
      && r[k].name == es[k].name && r[k].path == es[k].path && r[k].kind == es[k].kind
      && r[k].size == es[k].size && r[k].sha == es[k].sha
      && r[k].downloadUrl == es[k].downloadUrl && r[k].htmlUrl == es[k].htmlUrl
      && (r[k].cdn.Some? <==> es[k].kind == FileKind)
  {
    seq(|es|, k requires 0 <= k < |es| => ListedItem(env, es[k], commits))
  }

  /** A single object: it always carries the pinned fields, with a commit looked up only for a `file`. */
  function SingleItem(env: Env, e: Entry, commits: string -> CommitsReply): (r: Item)
    ensures r.cdn.Some? && (r.cdn.value.commitSha.Some? ==> e.kind == FileKind)
  {
    Base(e, Some(Cdn(env, e.path, if e.kind == FileKind then CommitSha(commits(e.path)) else None)))
  }

  /** The handler; `contents` answers getContent on the branch, `commits` answers listCommits. */
  function HandleList(q: Option<string>, env: Env, contents: string -> ContentReply,
                      commits: string -> CommitsReply): (r: ListResponse)
    ensures contents(QueryPath(q)).ContentFailed? <==> r.ListFailed?
    ensures r.ListFailed? ==> r.error == CatchMessage("Failed to list files", contents(QueryPath(q)).thrown)
    ensures r.Listed? ==> r.path == QueryPath(q)
    ensures contents(QueryPath(q)).SingleEntry? ==> r.Listed? && |r.items| == 1
    ensures contents(QueryPath(q)).Listing? ==>
      r == Listed(ListedItems(env, contents(QueryPath(q)).entries, commits), QueryPath(q))
    ensures contents(QueryPath(q)).SingleEntry? ==>
      r == Listed([SingleItem(env, contents(QueryPath(q)).entry, commits)], QueryPath(q))
  {
    var path := QueryPath(q);
    match contents(path)
    case ContentFailed(t) => ListFailed(CatchMessage("Failed to list files", t))
    case Listing(es) => Listed(ListedItems(env, es, commits), path)
    case SingleEntry(e) => Listed([SingleItem(env, e, commits)], path)
  }

  /**
   * The pinned URLs are non-empty exactly when a commit was found; a file
   * whose history cannot be read still lists, with empty URLs.
   */
  lemma PinnedUrlsIffCommit(env: Env, path: string, commit: Option<string>)
    ensures var c := Cdn(env, path, commit);
      && c.commitSha == commit
      && (c.jsdelivrUrl != "" <==> commit.Some?) && (c.rawUrl != "" <==> commit.Some?)
  {
    if commit.Some? {
      var u := Cdn(env, path, commit).jsdelivrUrl;
      assert u[0] == 'h';
      var v := Cdn(env, path, commit).rawUrl;
      assert v[0] == 'h';
    }
  }

  /**
   * When the newest commit touching a file is the upload's own commit, the
   * listing pins the file to the same jsDelivr and raw URLs the upload
   * returned as its commit variants.
   */
  lemma ListingAgreesWithUpload(env: Env, e: Entry, commits: string -> CommitsReply, sha: string, rest: seq<string>)
    requires e.kind == FileKind && sha != "" && commits(e.path) == Commits([sha] + rest)
    ensures var u := MakeUrls(EnvText(env.owner), EnvText(env.repo), Branch(env), sha, e.path);
      && ListedItem(env, e, commits).cdn == Some(CdnFields(Some(sha), u.jsdelivrCommit, u.rawCommit))
      && SingleItem(env, e, commits).cdn == ListedItem(env, e, commits).cdn
  {
    assert CommitSha(commits(e.path)) == Some(sha);
  }
}
