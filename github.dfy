/**
 * The GitHub contents API as the route handlers see it. Every call is made
 * by the handler and answered by a parameter of the model: the request it
 * issues is a value here, and what GitHub answers is an input.
 */
module GitHub {
  import opened Wrappers
  import opened Text

  /** What a failed call threw: an `Error` carrying a message, or another value. */
  datatype Thrown = ErrorThrown(message: string) | OtherThrown

  /**
   * The handlers' catch blocks: `${prefix}: ${error.message}` for an `Error`,
   * the bare prefix for anything else.
   */
  function CatchMessage(prefix: string, t: Thrown): (m: string)
    ensures prefix <= m
    ensures t.ErrorThrown? ==> m[|prefix|..] == ": " + t.message
    ensures t.OtherThrown? ==> m == prefix
  {
    match t
    case ErrorThrown(msg) => prefix + ": " + msg
    case OtherThrown => prefix
  }

  /** The environment variables the handlers read. */
  datatype Env = Env(owner: Option<string>, repo: Option<string>, branch: Option<string>)

  /** `process.env.GITHUB_BRANCH || 'main'`. */
  function Branch(env: Env): (b: string)
    ensures b != ""
    ensures Truthy(env.branch) ==> b == env.branch.value
    ensures !Truthy(env.branch) ==> b == "main"
  {
    OrElse(env.branch, "main")
  }

  /** A variable as a template string or a request field renders it: `undefined` when unset. */
  function EnvText(o: Option<string>): string {
    o.GetOr("undefined")
  }

  /** createOrUpdateFileContents. */
  datatype WriteCall = WriteCall(owner: string, repo: string, path: string, message: string, content: string, branch: string)
  datatype WriteResult = Written(commitSha: string, htmlUrl: Option<string>) | WriteFailed(thrown: Thrown)

  /** deleteFile. */
  datatype DeleteCall = DeleteCall(owner: string, repo: string, path: string, message: string, sha: string, branch: string)

  /** An entry of a getContent answer; `type` is `file`, `dir`, `symlink` or `submodule`. */
  datatype Kind = FileKind | DirKind | OtherKind(name: string)
  datatype Entry = Entry(name: string, path: string, kind: Kind, size: nat, sha: string,
                         downloadUrl: Option<string>, htmlUrl: Option<string>)

  /** getContent: a directory listing, one object, or a failure (404 included). */
  datatype ContentReply = Listing(entries: seq<Entry>) | SingleEntry(entry: Entry) | ContentFailed(thrown: Thrown)

  /** listCommits with `per_page: 1`: the shas returned, or a failure. */
  datatype CommitsReply = Commits(shas: seq<string>) | CommitsFailed(thrown: Thrown)
}
