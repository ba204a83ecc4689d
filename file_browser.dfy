/**
 * The gallery's pure helpers: the breadcrumb over the current path, the
 * parent path shown after a folder delete, the new-folder path, the
 * delete confirmation, the media-name tests and the item filters.
 */
module FileBrowser {
  import opened Wrappers
  import opened Text
  import opened GitHub
  import opened Urls
  import ListFiles
  import Sanitize
  import DeleteFile

  /** `currentPath.split('/').filter(Boolean)`. */
  function PathSegments(currentPath: string): (segs: seq<string>)
    ensures forall k :: 0 <= k < |segs| ==> segs[k] != "" && '/' !in segs[k]
  {
    var pieces := Split(currentPath, '/');
    var segs := NonEmpty(pieces);
    assert forall k :: 0 <= k < |segs| ==> segs[k] in pieces;
    segs
  }

  /** Breadcrumb `i` targets `pathSegments.slice(0, i + 1).join('/')`. */
  function SegmentPath(segs: seq<string>, i: nat): string
    requires i < |segs|
  {
    Join(segs[..i + 1], "/")
  }

  /** Following breadcrumb `i` shows exactly the first `i + 1` segments. */
  lemma BreadcrumbSegments(currentPath: string, i: nat)
    requires i < |PathSegments(currentPath)|
    ensures PathSegments(SegmentPath(PathSegments(currentPath), i)) == PathSegments(currentPath)[..i + 1]
  {
    var segs := PathSegments(currentPath)[..i + 1];
    assert forall k :: 0 <= k < |segs| ==> '/' !in segs[k] && segs[k] != "";
    SplitJoin(segs, '/');
  }

  /** A path with no empty segment is its own last breadcrumb. */
  lemma LastBreadcrumbIsCurrent(currentPath: string)
    requires var pieces := Split(currentPath, '/'); forall k :: 0 <= k < |pieces| ==> pieces[k] != ""
    ensures |PathSegments(currentPath)| > 0
    ensures SegmentPath(PathSegments(currentPath), |PathSegments(currentPath)| - 1) == currentPath
  {
    var pieces := Split(currentPath, '/');
    JoinSplit(currentPath, '/');
    assert PathSegments(currentPath) == pieces;
    assert pieces[..|pieces|] == pieces;
  }

  /** `currentPath.split('/').slice(0, -1).join('/')`. */
  function ParentPath(currentPath: string): string {
    var pieces := Split(currentPath, '/');
    Join(pieces[..|pieces| - 1], "/")
  }

  /** Dropping the last segment of `parent/name` gives `parent` back. */
  lemma ParentOfChild(parent: string, name: string)
    requires '/' !in name
    ensures ParentPath(parent + "/" + name) == parent
  {
    SplitLastSep(parent, '/', name);
    var pieces := Split(parent + "/" + name, '/');
    assert pieces[..|pieces| - 1] == Split(parent, '/');
    JoinSplit(parent, '/');
  }

  /** A top-level folder's parent is the root. */
  lemma ParentOfTopLevel(name: string)
    requires '/' !in name
    ensures ParentPath(name) == ""
  {
    SplitNoSep(name, '/');
  }

  /** `handleCreateFolder`'s path: `None` when the trimmed name is empty and nothing is sent. */
  function NewFolderPath(currentPath: string, newName: string): (r: Option<string>)
    ensures r.None? <==> Trim(newName) == ""
    ensures r.Some? && currentPath == "" ==> r.value == Trim(newName)
    ensures r.Some? && currentPath != "" ==> currentPath <= r.value && r.value[|currentPath|..] == "/" + Trim(newName)
  {
    var trimmed := Trim(newName);
    if trimmed == "" then None
    else if currentPath != "" then
      var child := currentPath + "/" + trimmed;
      assert child[|currentPath|..] == "/" + trimmed;
      Some(child)
    else Some(trimmed)
  }

  /** A new folder typed without a slash is a child of the folder being viewed. */
  lemma NewFolderIsChild(currentPath: string, newName: string)
    requires currentPath != "" && Trim(newName) != "" && '/' !in Trim(newName)
    ensures ParentPath(NewFolderPath(currentPath, newName).value) == currentPath
  {
    ParentOfChild(currentPath, Trim(newName));
  }

  /** The last non-empty segment, `''` when there is none. */
  function FolderName(currentPath: string): (r: string)
    ensures '/' !in r
    ensures r == "" <==> PathSegments(currentPath) == []
  {
    var segs := PathSegments(currentPath);
    if segs == [] then "" else segs[|segs| - 1]
  }

  /** The segments of `parent/name` are those of `parent` followed by `name`. */
  lemma PathSegmentsOfChild(parent: string, name: string)
    requires name != "" && '/' !in name
    ensures PathSegments(parent + "/" + name) == PathSegments(parent) + [name]
  {
    SplitLastSep(parent, '/', name);
    NonEmptyAppend(Split(parent, '/'), [name]);
    NonEmptySingle(name);
  }

  /** The folder name of `parent/name` is `name`, whatever `parent` is: the partner of `ParentOfChild`. */
  lemma FolderNameOfChild(parent: string, name: string)
    requires name != "" && '/' !in name
    ensures FolderName(parent + "/" + name) == name
  {
    PathSegmentsOfChild(parent, name);
  }

  /** A top-level folder is named by its own path. */
  lemma FolderNameOfTopLevel(name: string)
    requires name != "" && '/' !in name
    ensures FolderName(name) == name
  {
    SplitNoSep(name, '/');
    NonEmptySingle(name);
  }

  /**
   * `handleDeleteFolder` goes ahead only for a non-empty path and a typed
   * answer exactly equal to the folder's name; `confirmation` is `None`
   * when the prompt is cancelled.
   */
  predicate DeleteConfirmed(currentPath: string, confirmation: Option<string>) {
    currentPath != "" && confirmation == Some(FolderName(currentPath))
  }

  /**
   * At the root nothing can be deleted; inside `parent/name` or a top-level
   * `name` only the answer `name` confirms, and a cancelled prompt never does.
   */
  lemma DeleteConfirmation(parent: string, name: string, confirmation: Option<string>)
    requires name != "" && '/' !in name
    ensures !DeleteConfirmed("", confirmation)
    ensures DeleteConfirmed(parent + "/" + name, confirmation) <==> confirmation == Some(name)
    ensures DeleteConfirmed(name, confirmation) <==> confirmation == Some(name)
  {
    FolderNameOfChild(parent, name);
    FolderNameOfTopLevel(name);
  }

  const ImageExtensions := [".jpg", ".jpeg", ".png", ".gif", ".webp", ".bmp", ".svg"]
  const VideoExtensions := [".mp4", ".webm", ".ogg", ".mov", ".avi", ".mkv"]

  /** `exts.some(ext => name.toLowerCase().endsWith(ext))`. */
  predicate HasExtension(name: string, exts: seq<string>) {
    exists k :: 0 <= k < |exts| && EndsWith(LowerAscii(name), exts[k])
  }

  predicate IsImageFile(name: string) { HasExtension(name, ImageExtensions) }
  predicate IsVideoFile(name: string) { HasExtension(name, VideoExtensions) }

  /** Lower-casing twice is lower-casing once. */
  lemma LowerAsciiIdempotent(s: string)
    ensures LowerAscii(LowerAscii(s)) == LowerAscii(s)
  {
  }

  /** Lower-casing works character by character, so it distributes over concatenation. */
  lemma LowerAsciiAppend(a: string, b: string)
    ensures LowerAscii(a + b) == LowerAscii(a) + LowerAscii(b)
  {
    assert forall k :: 0 <= k < |a + b| ==> (a + b)[k] == if k < |a| then a[k] else b[k - |a|];
  }

  /** The media tests ignore ASCII case: a name and its lower-cased form are classified alike. */
  lemma MediaTestsIgnoreCase(name: string)
    ensures IsImageFile(LowerAscii(name)) == IsImageFile(name)
    ensures IsVideoFile(LowerAscii(name)) == IsVideoFile(name)
  {
    LowerAsciiIdempotent(name);
  }

  /** An upper-case extension is recognised like the lower-case one. */
  lemma UpperCaseExtension(stem: string)
    ensures IsImageFile(stem + ".PNG") && IsImageFile(stem + ".png")
  {
    LowerAsciiAppend(stem, ".PNG");
    LowerAsciiAppend(stem, ".png");
    assert LowerAscii(".PNG") == ".png";
    assert LowerAscii(".png") == ".png";
    EndsWithConcat(LowerAscii(stem), ".png");
    assert ImageExtensions[2] == ".png";
  }

  /** `items.filter(...)`, in order. */
  function Filter(items: seq<ListFiles.Item>, keep: ListFiles.Item -> bool): (r: seq<ListFiles.Item>)
    ensures |r| <= |items|
    ensures forall x :: x in r <==> x in items && keep(x)
  {
    if items == [] then []
    else
      var last := items[|items| - 1];
      Filter(items[..|items| - 1], keep) + if keep(last) then [last] else []
  }

  /** Filtering a concatenation filters each part and keeps their order. */
  lemma {:induction false} FilterAppend(a: seq<ListFiles.Item>, b: seq<ListFiles.Item>, keep: ListFiles.Item -> bool)
    ensures Filter(a + b, keep) == Filter(a, keep) + Filter(b, keep)
    decreases |b|
  {
    if b == [] {
      assert a + b == a;
    } else {
      var init, last := b[..|b| - 1], b[|b| - 1];
      var tail := if keep(last) then [last] else [];
      assert (a + b)[..|a + b| - 1] == a + init && (a + b)[|a + b| - 1] == last;
      assert Filter(a + b, keep) == Filter(a + init, keep) + tail;
      FilterAppend(a, init, keep);
      assert Filter(b, keep) == Filter(init, keep) + tail;
    }
  }

  /** A single item is kept exactly when the predicate holds for it. */
  lemma FilterSingle(x: ListFiles.Item, keep: ListFiles.Item -> bool)
    ensures Filter([x], keep) == if keep(x) then [x] else []
  {
    assert [x][..0] == [];
  }

  /** A filter's result never outgrows the result of a weaker filter. */
  lemma {:induction false} FilterWeaker(items: seq<ListFiles.Item>, a: ListFiles.Item -> bool, b: ListFiles.Item -> bool)
    requires forall x :: a(x) ==> b(x)
    ensures |Filter(items, a)| <= |Filter(items, b)|
  {
    if items != [] {
      FilterWeaker(items[..|items| - 1], a, b);
    }
  }

  predicate IsFolderItem(x: ListFiles.Item) { x.kind == DirKind }
  predicate IsFileItem(x: ListFiles.Item) { x.kind == FileKind }

  predicate IsMediaItem(x: ListFiles.Item) {
    x.kind == FileKind && (IsImageFile(x.name) || IsVideoFile(x.name))
  }

  function Folders(items: seq<ListFiles.Item>): seq<ListFiles.Item> {
    Filter(items, IsFolderItem)
  }

  function MediaFiles(items: seq<ListFiles.Item>): seq<ListFiles.Item> {
    Filter(items, IsMediaItem)
  }

  function Files(items: seq<ListFiles.Item>): seq<ListFiles.Item> {
    Filter(items, IsFileItem)
  }

  /** The `NON-MEDIA FILE(S) HIDDEN` count: files that are not shown. */
  function HiddenCount(items: seq<ListFiles.Item>): (n: nat)
    ensures n == |Files(items)| - |MediaFiles(items)|
  {
    FilterWeaker(items, IsMediaItem, IsFileItem);
    |Files(items)| - |MediaFiles(items)|
  }

  /** Folders and media files never overlap, and every shown media file is a file. */
  lemma FoldersAndMediaDisjoint(items: seq<ListFiles.Item>)
    ensures forall x :: x in Folders(items) ==> x !in MediaFiles(items)
    ensures forall x :: x in MediaFiles(items) ==> x in Files(items)
  {
  }

  /** The three links of a gallery item: `item.x_url || ''`. */
  datatype ItemUrls = ItemUrls(jsdelivr: string, raw: string, github: string)

  function GetUrls(item: ListFiles.Item): ItemUrls {
    var cdn := if item.cdn.Some? then item.cdn.value else ListFiles.CdnFields(None, "", "");
    ItemUrls(cdn.jsdelivrUrl, cdn.rawUrl, OrElse(item.htmlUrl, ""))
  }

  /**
   * A listed file whose newest commit is `sha` links to the jsDelivr and
   * raw URLs pinned to that commit, the ones its upload answered with; a
   * folder has no CDN links.
   */
  lemma GalleryLinksArePinned(env: Env, e: Entry, commits: string -> CommitsReply, sha: string, rest: seq<string>)
    requires e.kind == FileKind && sha != "" && commits(e.path) == Commits([sha] + rest)
    ensures var u := MakeUrls(EnvText(env.owner), EnvText(env.repo), Branch(env), sha, e.path);
      var links := GetUrls(ListFiles.ListedItem(env, e, commits));
      links.jsdelivr == u.jsdelivrCommit && links.raw == u.rawCommit
  {
    ListFiles.ListingAgreesWithUpload(env, e, commits, sha, rest);
  }

  lemma FolderHasNoCdnLinks(env: Env, e: Entry, commits: string -> CommitsReply)
    requires e.kind == DirKind
    ensures var links := GetUrls(ListFiles.ListedItem(env, e, commits));
      links.jsdelivr == "" && links.raw == "" && links.github == OrElse(e.htmlUrl, "")
  {
  }

  /**
   * `handleDeleteFile` sends the item's repository path as listed, and the
   * route puts `src/assets/` in front of it once more.
   */
  lemma FileDeleteTarget(item: ListFiles.Item, env: Env, remote: DeleteCall -> Option<Thrown>)
    requires item.path != "" && item.sha != ""
    ensures DeleteFile.HandleDeleteFile(Some(item.path), Some(item.sha), env, remote).delete.value.path == "src/assets/" + item.path
  {
  }

  /** `handleDeleteFolder` sends the current path; the route walks its sanitised form under `src/assets/`. */
  lemma FolderDeleteTarget(currentPath: string)
    requires Sanitize.IsCleanFolder(currentPath) && currentPath != ""
    ensures Sanitize.CheckFolder(Sanitize.JsonString(currentPath)) == Sanitize.Accepted(currentPath)
  {
    Sanitize.CleanFolderFixedPoints(currentPath);
  }
}
