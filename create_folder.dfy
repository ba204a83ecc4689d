/**
 * POST /api/create-folder: check and sanitise the folder, then create a
 * `.gitkeep` placeholder inside it so that the folder exists in the repository.
 */
module CreateFolder {
  import opened Wrappers
  import opened Text
  import opened GitHub
  import opened Sanitize

  /** The Base64 text of a single newline, the placeholder's content. */
  const NewlineBase64 := "Cg=="

  datatype CreateResponse =
    | FolderCreated(path: string)     // 200, `{success: true, path}` with the sanitised path
    | CreateRejected(error: string)   // 400
    | CreateFailed(error: string)     // 500

  /** The write that was sent, if any, and the answer. */
  datatype CreateOutcome = CreateOutcome(write: Option<WriteCall>, response: CreateResponse)

  /** The placeholder write for an accepted folder. */
  function PlaceholderWrite(env: Env, clean: string): (w: WriteCall)
    ensures w.path == clean + "/.gitkeep" && w.message == "Create folder: " + clean
    ensures w.content == NewlineBase64 && w.branch == Branch(env)
    ensures w.owner == EnvText(env.owner) && w.repo == EnvText(env.repo)
  {
    WriteCall(EnvText(env.owner), EnvText(env.repo), clean + "/.gitkeep", "Create folder: " + clean, NewlineBase64, Branch(env))
  }

  /** The handler; `github` answers the write. */
  function HandleCreate(path: JsonField, env: Env, github: WriteCall -> WriteResult): (o: CreateOutcome)
    ensures o.write.None? <==> CheckFolder(path).Rejected?
    ensures o.write.None? ==> o.response == CreateRejected(CheckFolder(path).error)
    ensures o.write.Some? ==>
      && o.write.value == PlaceholderWrite(env, CheckFolder(path).clean)
      && (github(o.write.value).Written? <==> o.response.FolderCreated?)
      && (o.response.FolderCreated? ==> o.response.path == CheckFolder(path).clean)
      && (github(o.write.value).WriteFailed? ==>
            o.response == CreateFailed(CatchMessage("Failed to create folder", github(o.write.value).thrown)))
  {
    match CheckFolder(path)
    case Rejected(e) => CreateOutcome(None, CreateRejected(e))
    case Accepted(clean) =>
      var w := PlaceholderWrite(env, clean);
      match github(w)
      case Written(_, _) => CreateOutcome(Some(w), FolderCreated(clean))
      case WriteFailed(t) => CreateOutcome(Some(w), CreateFailed(CatchMessage("Failed to create folder", t)))
  }

  /**
   * The placeholder always lands directly inside the sanitised folder: its
   * path is the folder, one slash and `.gitkeep`, and the folder part has
   * no slash at either end and only allowed characters.
   */
  lemma PlaceholderInsideFolder(path: JsonField, env: Env, github: WriteCall -> WriteResult)
    requires HandleCreate(path, env, github).write.Some?
    ensures var w := HandleCreate(path, env, github).write.value;
      var folder := w.path[..|w.path| - |"/.gitkeep"|];
      && EndsWith(w.path, "/.gitkeep")
      && folder == CleanFolder(path.text) && IsCleanFolder(folder) && folder != ""
  {
    var w := HandleCreate(path, env, github).write.value;
    var clean := CheckFolder(path).clean;
    EndsWithConcat(clean, "/.gitkeep");
    assert w.path[..|w.path| - |"/.gitkeep"|] == clean;
  }

  /** Creating a folder whose name is already clean keeps the name as given. */
  lemma CleanNameKept(name: string, env: Env, github: WriteCall -> WriteResult)
    requires IsCleanFolder(name) && name != ""
    ensures HandleCreate(JsonString(name), env, github).write == Some(PlaceholderWrite(env, name))
  {
    CleanFolderFixedPoints(name);
  }
}
