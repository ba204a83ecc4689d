/**
 * DELETE /api/delete-file: delete one object under `src/assets/`, with the
 * sha the caller supplies. The path is not sanitised.
 */
module DeleteFile {
  import opened Wrappers
  import opened Text
  import opened GitHub

  const Required := "Path and SHA are required"
  const Deleted := "File deleted successfully"

  datatype FileResponse =
    | FileDeleted(message: string)   // 200, `{success: true, message}`
    | FileRejected(error: string)    // 400
    | FileFailed(error: string)      // 500

  datatype FileOutcome = FileOutcome(delete: Option<DeleteCall>, response: FileResponse)

  /** The handler: `path` and `sha` are the body's string fields; `remote` answers the delete. */
  function HandleDeleteFile(path: Option<string>, sha: Option<string>, env: Env,
                            remote: DeleteCall -> Option<Thrown>): (o: FileOutcome)
    ensures o.delete.None? <==> !Truthy(path) || !Truthy(sha)
    ensures o.delete.None? ==> o.response == FileRejected(Required)
    ensures o.delete.Some? ==>
      var c := o.delete.value;
      && c.path == "src/assets/" + path.value && c.message == "Delete file: " + c.path
      && c.sha == sha.value && c.branch == Branch(env)
      && c.owner == EnvText(env.owner) && c.repo == EnvText(env.repo)
      && (remote(c).None? <==> o.response == FileDeleted(Deleted))
      && (remote(c).Some? ==> o.response == FileFailed(CatchMessage("Failed to delete file", remote(c).value)))
  {
    if !Truthy(path) || !Truthy(sha) then FileOutcome(None, FileRejected(Required))
    else
      var target := "src/assets/" + path.value;
      var c := DeleteCall(EnvText(env.owner), EnvText(env.repo), target, "Delete file: " + target, sha.value, Branch(env));
      match remote(c)
      case None => FileOutcome(Some(c), FileDeleted(Deleted))
      case Some(t) => FileOutcome(Some(c), FileFailed(CatchMessage("Failed to delete file", t)))
  }

  /**
   * The path is used as given: a caller-supplied `..` segment or extra
   * slash reaches GitHub unchanged, so nothing confines the delete to the
   * assets folder beyond the prefix.
   */
  lemma PathNotSanitised(path: string, sha: string, env: Env, remote: DeleteCall -> Option<Thrown>)
    requires path != "" && sha != ""
    ensures var c := HandleDeleteFile(Some(path), Some(sha), env, remote).delete.value;
      c.path[|"src/assets/"|..] == path
  {
  }
}
