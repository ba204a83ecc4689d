/**
 * DELETE /api/delete-folder: check and sanitise the folder, then walk the
 * tree under `src/assets/{folder}` depth first, issuing one deleteFile per
 * non-directory entry in listing order and stopping at the first failure.
 */
module DeleteFolder {
  import opened Wrappers
  import opened Text
  import opened GitHub
  import opened Sanitize

  /**
   * What getContent shows under a path: a single object (anything but a
   * directory), a directory listing whose entries are the subtrees in
   * listing order, or a directory whose getContent call fails.
   */
  datatype Node =
    | FileNode(path: string, sha: string)
    | DirNode(path: string, entries: seq<Node>)
    | UnreadableDir(path: string, thrown: Thrown)

  /** The delete issued for one object: its own path and sha, message `Delete file: {path}`. */
  function CallFor(env: Env, path: string, sha: string): DeleteCall {
    DeleteCall(EnvText(env.owner), EnvText(env.repo), path, "Delete file: " + path, sha, Branch(env))
  }

  /** Number of non-directory entries in a subtree. */
  function FileCount(n: Node): nat
    decreases n
  {
    match n
    case FileNode(_, _) => 1
    case DirNode(_, es) => FileCountAll(es)
    case UnreadableDir(_, _) => 0
  }

  function FileCountAll(es: seq<Node>): nat
    decreases es
  {
    if es == [] then 0 else FileCount(es[0]) + FileCountAll(es[1..])
  }

  /** Every listing in the subtree can be read. */
  predicate Readable(n: Node)
    decreases n
  {
    match n
    case FileNode(_, _) => true
    case DirNode(_, es) => forall k :: 0 <= k < |es| ==> Readable(es[k])
    case UnreadableDir(_, _) => false
  }

  /**
   * The deletes of a complete walk: every object of the subtree, depth
   * first, in listing order.
   */
  function Planned(env: Env, n: Node): (r: seq<DeleteCall>)
    ensures |r| == FileCount(n)
    decreases n
  {
    match n
    case FileNode(p, s) => [CallFor(env, p, s)]
    case DirNode(_, es) => PlannedAll(env, es)
    case UnreadableDir(_, _) => []
  }

  function PlannedAll(env: Env, es: seq<Node>): (r: seq<DeleteCall>)
    ensures |r| == FileCountAll(es)
    decreases es
  {
    if es == [] then [] else Planned(env, es[0]) + PlannedAll(env, es[1..])
  }

  /** The deletes a walk issued and, when it stopped early, what was thrown. */
  datatype WalkResult = WalkResult(calls: seq<DeleteCall>, failure: Option<Thrown>)

  /**
   * `deletePath`: `remote` is GitHub's answer to a delete (`None` when it
   * succeeds). A failing listing or delete ends the walk at once.
   */
  function Walk(env: Env, n: Node, remote: DeleteCall -> Option<Thrown>): WalkResult
    decreases n
  {
    match n
    case FileNode(p, s) => WalkResult([CallFor(env, p, s)], remote(CallFor(env, p, s)))
    case DirNode(_, es) => WalkAll(env, es, remote)
    case UnreadableDir(_, t) => WalkResult([], Some(t))
  }

  function WalkAll(env: Env, es: seq<Node>, remote: DeleteCall -> Option<Thrown>): WalkResult
    decreases es
  {
    if es == [] then WalkResult([], None)
    else
      var head := Walk(env, es[0], remote);
      if head.failure.Some? then head
      else
        var tail := WalkAll(env, es[1..], remote);
        WalkResult(head.calls + tail.calls, tail.failure)
  }

  /** One more entry after a walk that did not fail. */
  lemma {:induction false} WalkAllSnoc(env: Env, es: seq<Node>, e: Node, remote: DeleteCall -> Option<Thrown>)
    requires WalkAll(env, es, remote).failure.None?
    ensures WalkAll(env, es + [e], remote) ==
      WalkResult(WalkAll(env, es, remote).calls + Walk(env, e, remote).calls, Walk(env, e, remote).failure)
    decreases es
  {
    if es == [] {
      assert [e][1..] == [];
    } else {
      assert (es + [e])[0] == es[0] && (es + [e])[1..] == es[1..] + [e];
      WalkAllSnoc(env, es[1..], e, remote);
    }
  }

  lemma WalkAllStep(env: Env, es: seq<Node>, i: nat, remote: DeleteCall -> Option<Thrown>)
    requires i < |es| && WalkAll(env, es[..i], remote).failure.None?
    ensures WalkAll(env, es[..i + 1], remote) ==
      WalkResult(WalkAll(env, es[..i], remote).calls + Walk(env, es[i], remote).calls, Walk(env, es[i], remote).failure)
  {
    WalkAllSnoc(env, es[..i], es[i], remote);
    assert es[..i + 1] == es[..i] + [es[i]];
  }

  /** The deletes of a walk are always the first ones of the complete walk. */
  lemma {:induction false} WalkIsPrefix(env: Env, n: Node, remote: DeleteCall -> Option<Thrown>)
    ensures Walk(env, n, remote).calls <= Planned(env, n)
    decreases n
  {
    match n
    case FileNode(_, _) =>
    case DirNode(_, es) => WalkAllIsPrefix(env, es, remote);
    case UnreadableDir(_, _) =>
  }

  lemma {:induction false} WalkAllIsPrefix(env: Env, es: seq<Node>, remote: DeleteCall -> Option<Thrown>)
    ensures WalkAll(env, es, remote).calls <= PlannedAll(env, es)
    decreases es
  {
    if es != [] {
      WalkIsPrefix(env, es[0], remote);
      WalkCompletes(env, es[0], remote);
      WalkAllIsPrefix(env, es[1..], remote);
    }
  }

  /**
   * A walk ends without failure exactly when every listing is readable and
   * every planned delete succeeds, and it has then issued every planned delete.
   */
  lemma {:induction false} WalkCompletes(env: Env, n: Node, remote: DeleteCall -> Option<Thrown>)
    ensures Walk(env, n, remote).failure.None? <==>
      Readable(n) && forall c :: c in Planned(env, n) ==> remote(c).None?
    ensures Walk(env, n, remote).failure.None? ==> Walk(env, n, remote).calls == Planned(env, n)
    decreases n
  {
    match n
    case FileNode(_, _) =>
    case DirNode(_, es) => WalkAllCompletes(env, es, remote);
    case UnreadableDir(_, _) =>
  }

  lemma {:induction false} WalkAllCompletes(env: Env, es: seq<Node>, remote: DeleteCall -> Option<Thrown>)
    ensures WalkAll(env, es, remote).failure.None? <==>
      (forall k :: 0 <= k < |es| ==> Readable(es[k])) && forall c :: c in PlannedAll(env, es) ==> remote(c).None?
    ensures WalkAll(env, es, remote).failure.None? ==> WalkAll(env, es, remote).calls == PlannedAll(env, es)
    decreases es
  {
    if es != [] {
      WalkCompletes(env, es[0], remote);
      WalkAllCompletes(env, es[1..], remote);
      assert forall k :: 1 <= k < |es| ==> es[k] == es[1..][k - 1];
    }
  }

  /**
   * Every delete but the last one succeeded, and when the last one failed
   * that failure is what the walk reports.
   */
  predicate StopsAtFirstFailure(w: WalkResult, remote: DeleteCall -> Option<Thrown>) {
    && (forall j :: 0 <= j < |w.calls| - 1 ==> remote(w.calls[j]).None?)
    && (w.failure.None? ==> forall j :: 0 <= j < |w.calls| ==> remote(w.calls[j]).None?)
    && (w.calls != [] && remote(w.calls[|w.calls| - 1]).Some? ==> w.failure == remote(w.calls[|w.calls| - 1]))
  }

  /** A walk that stopped at its first failure, after a part that did not fail, still stopped at its first failure. */
  lemma ThenStopsAtFirstFailure(head: WalkResult, tail: WalkResult, remote: DeleteCall -> Option<Thrown>)
    requires StopsAtFirstFailure(head, remote) && head.failure.None? && StopsAtFirstFailure(tail, remote)
    ensures StopsAtFirstFailure(WalkResult(head.calls + tail.calls, tail.failure), remote)
  {
    var calls := head.calls + tail.calls;
    assert forall j :: |head.calls| <= j < |calls| ==> calls[j] == tail.calls[j - |head.calls|];
    if tail.calls == [] {
      assert calls == head.calls;
    }
  }

  /**
   * The first failure aborts the rest of the walk, and nothing already
   * deleted is undone. When every listing is readable, a failing walk ended
   * on a delete and reports that delete's own error, so together with
   * `WalkIsPrefix` its deletes are the planned ones up to and including the
   * first one that fails.
   */
  lemma {:induction false} WalkStopsAtFirstFailure(env: Env, n: Node, remote: DeleteCall -> Option<Thrown>)
    ensures StopsAtFirstFailure(Walk(env, n, remote), remote)
    ensures Readable(n) && Walk(env, n, remote).failure.Some? ==>
      var w := Walk(env, n, remote);
      w.calls != [] && remote(w.calls[|w.calls| - 1]) == w.failure
    decreases n
  {
    match n
    case FileNode(_, _) =>
    case DirNode(_, es) => WalkAllStopsAtFirstFailure(env, es, remote);
    case UnreadableDir(_, _) =>
  }

  lemma {:induction false} WalkAllStopsAtFirstFailure(env: Env, es: seq<Node>, remote: DeleteCall -> Option<Thrown>)
    ensures StopsAtFirstFailure(WalkAll(env, es, remote), remote)
    ensures (forall k :: 0 <= k < |es| ==> Readable(es[k])) && WalkAll(env, es, remote).failure.Some? ==>
      var w := WalkAll(env, es, remote);
      w.calls != [] && remote(w.calls[|w.calls| - 1]) == w.failure
    decreases es
  {
    if es != [] {
      WalkStopsAtFirstFailure(env, es[0], remote);
      var head := Walk(env, es[0], remote);
      if head.failure.None? {
        var tail := WalkAll(env, es[1..], remote);
        WalkAllStopsAtFirstFailure(env, es[1..], remote);
        ThenStopsAtFirstFailure(head, tail, remote);
        if (forall k :: 0 <= k < |es| ==> Readable(es[k])) && tail.failure.Some? {
          assert forall k :: 0 <= k < |es[1..]| ==> es[1..][k] == es[k + 1];
          var calls := head.calls + tail.calls;
          assert calls[|calls| - 1] == tail.calls[|tail.calls| - 1];
        }
      }
    }
  }

  /** The complete walk of a listing is the walks of its entries one after the other. */
  lemma {:induction false} PlannedAllAppend(env: Env, a: seq<Node>, b: seq<Node>)
    ensures PlannedAll(env, a + b) == PlannedAll(env, a) + PlannedAll(env, b)
    decreases a
  {
    if a == [] {
      assert a + b == b;
    } else {
      assert (a + b)[0] == a[0] && (a + b)[1..] == a[1..] + b;
      PlannedAllAppend(env, a[1..], b);
    }
  }

  /**
   * Depth first in listing order: the deletes of entry `k`'s subtree come,
   * all together, after those of the entries before it and before those of
   * the entries after it.
   */
  lemma SubtreeDeletesAreContiguous(env: Env, es: seq<Node>, k: nat)
    requires k < |es|
    ensures PlannedAll(env, es) == PlannedAll(env, es[..k]) + Planned(env, es[k]) + PlannedAll(env, es[k + 1..])
  {
    assert es == es[..k] + ([es[k]] + es[k + 1..]);
    PlannedAllAppend(env, es[..k], [es[k]] + es[k + 1..]);
    assert ([es[k]] + es[k + 1..])[1..] == es[k + 1..];
  }

  /** No delete is ever issued for a directory: only objects are deleted, with their own sha. */
  ghost predicate HasObject(n: Node, path: string, sha: string)
    decreases n
  {
    match n
    case FileNode(p, s) => p == path && s == sha
    case DirNode(_, es) => exists k :: 0 <= k < |es| && HasObject(es[k], path, sha)
    case UnreadableDir(_, _) => false
  }

  lemma {:induction false} PlannedDeletesObjects(env: Env, n: Node, c: DeleteCall)
    requires c in Planned(env, n)
    ensures HasObject(n, c.path, c.sha) && c == CallFor(env, c.path, c.sha)
    decreases n
  {
    match n
    case FileNode(_, _) =>
    case DirNode(_, es) => PlannedAllDeletesObjects(env, es, c);
    case UnreadableDir(_, _) =>
  }

  lemma {:induction false} PlannedAllDeletesObjects(env: Env, es: seq<Node>, c: DeleteCall)
    requires c in PlannedAll(env, es)
    ensures exists k :: 0 <= k < |es| && HasObject(es[k], c.path, c.sha)
    ensures c == CallFor(env, c.path, c.sha)
    decreases es
  {
    if c in Planned(env, es[0]) {
      PlannedDeletesObjects(env, es[0], c);
    } else {
      PlannedAllDeletesObjects(env, es[1..], c);
      var k :| 0 <= k < |es[1..]| && HasObject(es[1..][k], c.path, c.sha);
      assert es[1..][k] == es[k + 1];
    }
  }

  /** The JSON answer of the handler. */
  datatype FolderResponse =
    | FolderDeleted(path: string)     // 200, `{success: true, path}` with the sanitised path
    | FolderRejected(error: string)   // 400
    | FolderFailed(error: string)     // 500

  /** The handler, with its log of the deletes sent to GitHub. */
  class FolderDeleter {
    const env: Env
    const remote: DeleteCall -> Option<Thrown>
    var log: seq<DeleteCall>

    constructor (env: Env, remote: DeleteCall -> Option<Thrown>)
      ensures this.env == env && this.remote == remote && log == []
    {
      this.env := env;
      this.remote := remote;
      log := [];
    }

    /** `deletePath`: appends the walk's deletes to the log and reports its failure. */
    method DeletePath(n: Node) returns (failure: Option<Thrown>)
      modifies this
      ensures log == old(log) + Walk(env, n, remote).calls
      ensures failure == Walk(env, n, remote).failure
      decreases n
    {
      match n
      case FileNode(p, s) =>
        var call := CallFor(env, p, s);
        log := log + [call];
        failure := remote(call);
      case UnreadableDir(_, t) =>
        failure := Some(t);
      case DirNode(_, es) =>
        failure := DeleteEntries(es);
    }

    /** The loop of `deletePath` over a listing: each entry in turn, ending at the first throw. */
    method DeleteEntries(es: seq<Node>) returns (failure: Option<Thrown>)
      modifies this
      ensures log == old(log) + WalkAll(env, es, remote).calls
      ensures failure == WalkAll(env, es, remote).failure
      decreases es
    {
      var i := 0;
      while i < |es|
        invariant 0 <= i <= |es|
        invariant log == old(log) + WalkAll(env, es[..i], remote).calls
        invariant WalkAll(env, es[..i], remote).failure.None?
      {
        WalkAllStep(env, es, i, remote);
        var f := DeletePath(es[i]);
        if f.Some? {
          WalkAllFailedPrefix(env, es, i + 1, remote);
          return f;
        }
        i := i + 1;
      }
      assert es[..|es|] == es;
      failure := None;
    }

    /** `DELETE`: check the body, walk `src/assets/{cleanPath}` and answer. */
    method Delete(path: JsonField, contentAt: string -> Node) returns (response: FolderResponse)
      modifies this
      ensures CheckFolder(path).Rejected? ==>
        log == old(log) && response == FolderRejected(CheckFolder(path).error)
      ensures CheckFolder(path).Accepted? ==>
        var w := Walk(env, contentAt("src/assets/" + CheckFolder(path).clean), remote);
        && log == old(log) + w.calls
        && response == match w.failure
                       case None => FolderDeleted(CheckFolder(path).clean)
                       case Some(t) => FolderFailed(CatchMessage("Failed to delete folder", t))
    {
      match CheckFolder(path)
      case Rejected(e) =>
        response := FolderRejected(e);
      case Accepted(clean) =>
        var failure := DeletePath(contentAt("src/assets/" + clean));
        response := match failure
                    case None => FolderDeleted(clean)
                    case Some(t) => FolderFailed(CatchMessage("Failed to delete folder", t));
    }
  }

  /** Once the walk of a prefix has failed, the walk of the whole listing is that walk. */
  lemma {:induction false} WalkAllFailedPrefix(env: Env, es: seq<Node>, i: nat, remote: DeleteCall -> Option<Thrown>)
    requires i <= |es| && WalkAll(env, es[..i], remote).failure.Some?
    ensures WalkAll(env, es, remote) == WalkAll(env, es[..i], remote)
    decreases i
  {
    assert i > 0;
    assert es[..i][0] == es[0];
    if Walk(env, es[0], remote).failure.None? {
      assert es[..i][1..] == es[1..][..i - 1];
      WalkAllFailedPrefix(env, es[1..], i - 1, remote);
    }
  }
}
