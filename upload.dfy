/**
 * POST /api/upload: validate the submitted file, derive its repository path,
 * commit it with one createOrUpdateFileContents call and answer with the six
 * URLs of the stored file.
 */
module Upload {
  import opened Wrappers
  import opened Text
  import opened GitHub
  import opened Urls
  import opened Sanitize

  /** The `file` form field: name, MIME type and size in bytes. */
  datatype MediaFile = MediaFile(name: string, mime: string, size: nat)

  /** The multipart form; an absent field is `None`. */
  datatype UploadForm = UploadForm(file: Option<MediaFile>, customFilename: Option<string>, folder: Option<string>)

  const MaxImageBytes: nat := 100 * 1024 * 1024
  const MaxVideoBytes: nat := 500 * 1024 * 1024

  predicate IsImage(mime: string) { "image/" <= mime }
  predicate IsVideo(mime: string) { "video/" <= mime }

  /** The size ceiling: 500 MiB for a video, 100 MiB for anything else. */
  function MaxBytes(mime: string): nat {
    if IsVideo(mime) then MaxVideoBytes else MaxImageBytes
  }

  /** What the handler lets through to the write. */
  predicate Acceptable(f: MediaFile) {
    (IsImage(f.mime) || IsVideo(f.mime)) && f.size <= MaxBytes(f.mime)
  }

  /** `file.name.split('.').pop() || 'jpg'`. */
  function Extension(name: string): string {
    var parts := Split(name, '.');
    var last := parts[|parts| - 1];
    if last == "" then "jpg" else last
  }

  /** The extension is the text after the last dot, `jpg` when that text is empty. */
  lemma ExtensionAfterLastDot(stem: string, ext: string)
    requires '.' !in ext
    ensures Extension(stem + "." + ext) == if ext == "" then "jpg" else ext
  {
    SplitLastSep(stem, '.', ext);
  }

  /** A name without a dot is its own extension (`jpg` when empty). */
  lemma ExtensionWithoutDot(name: string)
    requires '.' !in name
    ensures Extension(name) == if name == "" then "jpg" else name
  {
    SplitNoSep(name, '.');
  }

  /** `new Date().toISOString().replace(/[:.]/g, '-')`. */
  function TimestampPart(iso: string): (r: string)
    ensures |r| == |iso| && ':' !in r && '.' !in r
    ensures forall k :: 0 <= k < |iso| ==> r[k] == if iso[k] == ':' || iso[k] == '.' then '-' else iso[k]
  {
    seq(|iso|, k requires 0 <= k < |iso| => if iso[k] == ':' || iso[k] == '.' then '-' else iso[k])
  }

  /**
   * The repository path of the upload:
   * `src/assets/{cleanFolder}/{name}.{extension}` where the name is the
   * sanitised custom name when one is given and `{timestamp}-{suffix}`
   * otherwise. `suffix` stands for `Math.random().toString(36).substr(2, 9)`.
   */
  function StoredPath(fileName: string, folder: Option<string>, custom: Option<string>, iso: string, suffix: string): string {
    var cleanFolder := CleanFolder(OrElse(folder, "default"));
    var stem := if Truthy(custom) then CleanName(custom.value) else TimestampPart(iso) + "-" + suffix;
    "src/assets/" + cleanFolder + "/" + stem + "." + Extension(fileName)
  }

  datatype UploadSuccess = UploadSuccess(url: string, urls: UrlSet, filename: string, size: nat, mime: string,
                                         commitSha: string, githubUrl: Option<string>)

  /**
   * The JSON answer: a 400, one of the two 500s (a failed write, reported by
   * the catch block, or missing repository settings), or success.
   */
  datatype UploadResponse = BadRequest(error: string) | WriteError(error: string) | ConfigError | Uploaded(body: UploadSuccess)
  {
    function Status(): nat {
      match this
      case BadRequest(_) => 400
      case WriteError(_) => 500
      case ConfigError => 500
      case Uploaded(_) => 200
    }

    /** The `error` field of a failure answer. */
    function ErrorText(): string
      requires !Uploaded?
    {
      match this
      case BadRequest(e) => e
      case WriteError(e) => e
      case ConfigError => ConfigMissing
    }
  }

  /** The write the handler issued, if any, and its answer. */
  datatype UploadOutcome = UploadOutcome(write: Option<WriteCall>, response: UploadResponse)

  const ConfigMissing := "GitHub repository configuration is missing. Please set GITHUB_OWNER, GITHUB_REPO, and GITHUB_BRANCH in your environment."

  /** The catch block of the handler. */
  function UploadFailure(t: Thrown): (m: string)
    ensures t.ErrorThrown? ==> m == "Upload failed: " + t.message
    ensures t.OtherThrown? ==> m == "Upload failed: Unknown error"
  {
    match t
    case ErrorThrown(m) => "Upload failed: " + m
    case OtherThrown => "Upload failed: Unknown error"
  }

  /** The 400 answers, in the order the handler checks them. */
  function Rejection(form: UploadForm): (e: Option<string>)
    ensures e.None? <==> form.file.Some? && Acceptable(form.file.value)
    ensures form.file.None? ==> e == Some("No file provided")
    ensures form.file.Some? && !IsImage(form.file.value.mime) && !IsVideo(form.file.value.mime) ==>
      e == Some("Only image and video files are allowed")
    ensures form.file.Some? && (IsImage(form.file.value.mime) || IsVideo(form.file.value.mime))
            && form.file.value.size > MaxBytes(form.file.value.mime) ==>
      e == Some(if IsVideo(form.file.value.mime) then "File size must be less than 500MB"
                else "File size must be less than 100MB")
  {
    if form.file.None? then Some("No file provided")
    else
      var f := form.file.value;
      if !IsImage(f.mime) && !IsVideo(f.mime) then Some("Only image and video files are allowed")
      else if f.size > MaxBytes(f.mime) then
        Some(if IsVideo(f.mime) then "File size must be less than 500MB" else "File size must be less than 100MB")
      else None
  }

  /** The one write of an accepted upload. */
  function WriteFor(form: UploadForm, env: Env, encoded: string, iso: string, suffix: string): WriteCall
    requires form.file.Some?
  {
    var f := form.file.value;
    WriteCall(EnvText(env.owner), EnvText(env.repo), StoredPath(f.name, form.folder, form.customFilename, iso, suffix),
              "Upload image: " + f.name, encoded, Branch(env))
  }

  /** The answer once GitHub has answered the write. */
  function Answer(f: MediaFile, env: Env, path: string, result: WriteResult): UploadResponse {
    match result
    case WriteFailed(t) => WriteError(UploadFailure(t))
    case Written(sha, html) =>
      if !Truthy(env.owner) || !Truthy(env.repo) then ConfigError
      else
        var urls := MakeUrls(env.owner.value, env.repo.value, Branch(env), sha, path);
        Uploaded(UploadSuccess(urls.raw, urls, path, f.size, f.mime, sha, html))
  }

  /**
   * The handler. `encoded` is the Base64 text of the file's bytes, `iso` the
   * current time in ISO form, `suffix` the random part of an automatic name,
   * `github` GitHub's answer to the write.
   */
  function HandleUpload(form: UploadForm, env: Env, encoded: string, iso: string, suffix: string,
                        github: WriteCall -> WriteResult): (out: UploadOutcome)
    // every rejection is a 400 issued before any write, and only those
    ensures out.write.None? <==> out.response.BadRequest?
    ensures out.response.BadRequest? <==> form.file.None? || !Acceptable(form.file.value)
    ensures out.response.BadRequest? ==> Rejection(form) == Some(out.response.error)
    ensures out.write.Some? ==>
      var f := form.file.value;
      var call := out.write.value;
      && call.owner == EnvText(env.owner) && call.repo == EnvText(env.repo)
      && call.path == StoredPath(f.name, form.folder, form.customFilename, iso, suffix)
      && call.message == "Upload image: " + f.name && call.content == encoded && call.branch == Branch(env)
    // a failed write is answered by the catch block with the thrown message
    ensures out.write.Some? && github(out.write.value).WriteFailed? ==>
      out.response == WriteError(UploadFailure(github(out.write.value).thrown))
    // a successful write of a configured repository is a success answer
    ensures out.write.Some? && github(out.write.value).Written? && Truthy(env.owner) && Truthy(env.repo) ==>
      out.response.Uploaded?
    // a successful write of an unconfigured repository is the configuration 500
    ensures out.write.Some? && github(out.write.value).Written? && (!Truthy(env.owner) || !Truthy(env.repo)) ==>
      out.response == ConfigError
    // the configuration check only runs once the write has been made
    ensures out.response.ConfigError? ==>
      out.write.Some? && github(out.write.value).Written? && (!Truthy(env.owner) || !Truthy(env.repo))
    ensures out.response.Uploaded? ==>
      var b := out.response.body;
      var call := out.write.value;
      && github(call) == Written(b.commitSha, b.githubUrl)
      && b.filename == call.path && b.url == b.urls.raw
      && Truthy(env.owner) && Truthy(env.repo)
      && b.urls == MakeUrls(env.owner.value, env.repo.value, Branch(env), b.commitSha, call.path)
      && b.size == form.file.value.size && b.mime == form.file.value.mime
  {
    match Rejection(form)
    case Some(e) => UploadOutcome(None, BadRequest(e))
    case None =>
      var call := WriteFor(form, env, encoded, iso, suffix);
      var response := Answer(form.file.value, env, call.path, github(call));
      UploadOutcome(Some(call), response)
  }

  /** The ceiling is inclusive: a file of exactly the ceiling passes, one byte more does not. */
  lemma SizeCeilingInclusive(name: string, mime: string)
    requires IsImage(mime) || IsVideo(mime)
    ensures Acceptable(MediaFile(name, mime, MaxBytes(mime)))
    ensures !Acceptable(MediaFile(name, mime, MaxBytes(mime) + 1))
    ensures MaxBytes(mime) == if IsVideo(mime) then 524288000 else 104857600
  {
  }

  /** A non-empty custom name keeps its length, is sanitised and gets the original extension. */
  lemma CustomNamePath(fileName: string, folder: Option<string>, custom: string, iso: string, suffix: string)
    requires custom != ""
    ensures var p := StoredPath(fileName, folder, Some(custom), iso, suffix);
      var prefix := "src/assets/" + CleanFolder(OrElse(folder, "default")) + "/";
      && prefix <= p
      && p[|prefix|..] == CleanName(custom) + "." + Extension(fileName)
      && |CleanName(custom)| == Utf16Length(custom)
  {
    var prefix := "src/assets/" + CleanFolder(OrElse(folder, "default")) + "/";
    var stem, ext := CleanName(custom), Extension(fileName);
    assert StoredPath(fileName, folder, Some(custom), iso, suffix) == prefix + stem + "." + ext;
    PrefixOfJoin(prefix, stem, ".", ext);
  }

  /** The URLs of a successful upload all end with `/{filename}`. */
  lemma UploadedUrlsEndWithFilename(form: UploadForm, env: Env, encoded: string, iso: string, suffix: string,
                                    github: WriteCall -> WriteResult)
    requires HandleUpload(form, env, encoded, iso, suffix, github).response.Uploaded?
    ensures var b := HandleUpload(form, env, encoded, iso, suffix, github).response.body;
      && EndsWith(b.url, "/" + b.filename)
      && EndsWith(b.urls.github, "/" + b.filename) && EndsWith(b.urls.jsdelivr, "/" + b.filename)
      && EndsWith(b.urls.githubCommit, "/" + b.filename) && EndsWith(b.urls.rawCommit, "/" + b.filename)
      && EndsWith(b.urls.jsdelivrCommit, "/" + b.filename)
  {
    var b := HandleUpload(form, env, encoded, iso, suffix, github).response.body;
    UrlsEndWithPath(env.owner.value, env.repo.value, Branch(env), b.commitSha, b.filename);
  }

  /** A missing or empty folder field makes the sanitised folder of the path `default`. */
  lemma MissingFolderIsDefault(folder: Option<string>)
    requires !Truthy(folder)
    ensures CleanFolder(OrElse(folder, "default")) == "default"
  {
    var d := "default";
    assert StripLeadingSlashes(d) == d && StripTrailingSlashes(d) == d;
    assert forall k :: 0 <= k < |d| ==> 'a' <= d[k] <= 'z';
    DashifyKept(d, FolderChar);
  }

  /** Without a custom name the path is `src/assets/{cleanFolder}/{timestamp}-{suffix}.{extension}`. */
  lemma AutoNamePath(fileName: string, folder: Option<string>, custom: Option<string>, iso: string, suffix: string,
                     cleanFolder: string, ext: string)
    requires !Truthy(custom)
    requires CleanFolder(OrElse(folder, "default")) == cleanFolder && Extension(fileName) == ext
    ensures StoredPath(fileName, folder, custom, iso, suffix) == "src/assets/" + cleanFolder + "/" + TimestampPart(iso) + "-" + suffix + "." + ext
  {
  }

  /**
   * An image of at most 100 MiB named `{stem}.{ext}`, sent to a clean folder
   * without a custom name (say `photo.png`, 2 MB, `image/png`, into `pics`),
   * is stored as `src/assets/{folder}/{timestamp}-{suffix}.{ext}` once the
   * write succeeds and the repository is configured.
   */
  lemma AutoNamedImageUpload(stem: string, ext: string, mime: string, size: nat, folder: string,
                             env: Env, encoded: string, iso: string, suffix: string, github: WriteCall -> WriteResult)
    requires '.' !in ext && ext != ""
    requires IsImage(mime) && size <= MaxImageBytes
    requires folder != "" && IsCleanFolder(folder)
    requires Truthy(env.owner) && Truthy(env.repo)
    requires var form := UploadForm(Some(MediaFile(stem + "." + ext, mime, size)), None, Some(folder));
      github(WriteFor(form, env, encoded, iso, suffix)).Written?
    ensures var out := HandleUpload(UploadForm(Some(MediaFile(stem + "." + ext, mime, size)), None, Some(folder)),
                                     env, encoded, iso, suffix, github);
      && out.response.Uploaded?
      && out.response.body.filename == "src/assets/" + folder + "/" + TimestampPart(iso) + "-" + suffix + "." + ext
  {
    var f := MediaFile(stem + "." + ext, mime, size);
    assert mime[0] == "image/"[0] != "video/"[0];
    assert Acceptable(f);
    ExtensionAfterLastDot(stem, ext);
    CleanFolderFixedPoints(folder);
    AutoNamePath(f.name, Some(folder), None, iso, suffix, folder, ext);
  }
}
