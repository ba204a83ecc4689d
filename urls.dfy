/**
 * The URL templates: GitHub blob pages, raw.githubusercontent.com and the
 * jsDelivr GitHub mirror (`cdn.jsdelivr.net/gh/{owner}/{repo}@{ref}/{path}`),
 * each pinned to a ref that is either a branch or a commit sha.
 */
module Urls {
  import opened Text

  function GithubBlobUrl(owner: string, repo: string, ref: string, path: string): string {
    "https://github.com/" + owner + "/" + repo + "/blob/" + ref + "/" + path
  }

  function RawUrl(owner: string, repo: string, ref: string, path: string): string {
    "https://raw.githubusercontent.com/" + owner + "/" + repo + "/" + ref + "/" + path
  }

  function JsDelivrUrl(owner: string, repo: string, ref: string, path: string): string {
    "https://cdn.jsdelivr.net/gh/" + owner + "/" + repo + "@" + ref + "/" + path
  }

  /** The six URLs of a stored file. */
  datatype UrlSet = UrlSet(github: string, raw: string, jsdelivr: string,
                           githubCommit: string, rawCommit: string, jsdelivrCommit: string)
  {
    /** The same set with the branch and commit variants exchanged. */
    function Swapped(): UrlSet {
      UrlSet(githubCommit, rawCommit, jsdelivrCommit, github, raw, jsdelivr)
    }
  }

  function MakeUrls(owner: string, repo: string, branch: string, commitSha: string, path: string): UrlSet {
    UrlSet(GithubBlobUrl(owner, repo, branch, path), RawUrl(owner, repo, branch, path), JsDelivrUrl(owner, repo, branch, path),
           GithubBlobUrl(owner, repo, commitSha, path), RawUrl(owner, repo, commitSha, path), JsDelivrUrl(owner, repo, commitSha, path))
  }

  /** A template ending in `/{path}` ends with `/{path}`. */
  lemma EndsWithSlashPath(head: string, path: string)
    ensures EndsWith(head + "/" + path, "/" + path)
  {
    assert head + "/" + path == head + ("/" + path);
    EndsWithConcat(head, "/" + path);
  }

  lemma TemplatesEndWithPath(owner: string, repo: string, ref: string, path: string)
    ensures EndsWith(GithubBlobUrl(owner, repo, ref, path), "/" + path)
    ensures EndsWith(RawUrl(owner, repo, ref, path), "/" + path)
    ensures EndsWith(JsDelivrUrl(owner, repo, ref, path), "/" + path)
  {
    EndsWithSlashPath("https://github.com/" + owner + "/" + repo + "/blob/" + ref, path);
    EndsWithSlashPath("https://raw.githubusercontent.com/" + owner + "/" + repo + "/" + ref, path);
    EndsWithSlashPath("https://cdn.jsdelivr.net/gh/" + owner + "/" + repo + "@" + ref, path);
  }

  /** Every one of the six URLs ends with `/{path}`. */
  lemma UrlsEndWithPath(owner: string, repo: string, branch: string, commitSha: string, path: string)
    ensures var u := MakeUrls(owner, repo, branch, commitSha, path);
      && EndsWith(u.github, "/" + path) && EndsWith(u.raw, "/" + path) && EndsWith(u.jsdelivr, "/" + path)
      && EndsWith(u.githubCommit, "/" + path) && EndsWith(u.rawCommit, "/" + path) && EndsWith(u.jsdelivrCommit, "/" + path)
  {
    TemplatesEndWithPath(owner, repo, branch, path);
    TemplatesEndWithPath(owner, repo, commitSha, path);
  }

  /**
   * A branch variant and its commit variant differ only in the ref: exchanging
   * the two refs exchanges the two halves of the set.
   */
  lemma CommitVariantsDifferOnlyInRef(owner: string, repo: string, branch: string, commitSha: string, path: string)
    ensures MakeUrls(owner, repo, commitSha, branch, path) == MakeUrls(owner, repo, branch, commitSha, path).Swapped()
    ensures branch == commitSha ==> MakeUrls(owner, repo, branch, commitSha, path).Swapped() == MakeUrls(owner, repo, branch, commitSha, path)
  {
  }

  /** A jsDelivr URL names the `jsdelivr.net` host. */
  lemma JsDelivrUrlOnCdn(owner: string, repo: string, ref: string, path: string)
    ensures Contains(JsDelivrUrl(owner, repo, ref, path), "jsdelivr.net")
  {
    var host := "https://cdn.jsdelivr.net/gh/";
    var u := JsDelivrUrl(owner, repo, ref, path);
    assert u == host + (owner + "/" + repo + "@" + ref + "/" + path);
    assert u[12..24] == host[12..24] == "jsdelivr.net";
    assert OccursAt(u, "jsdelivr.net", 12);
    IndexOfFirst(u, "jsdelivr.net");
  }
}
