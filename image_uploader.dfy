/**
 * The upload widget: the repository folders it offers (collected through
 * list-files to a bounded depth, deduplicated and sorted), the form it posts
 * for each file, and its upload queue with per-entry status.
 */
module ImageUploader {
  import opened Wrappers
  import opened Text
  import opened GitHub
  import opened Sorting
  import ListFiles
  import Upload
  import Sanitize

  /** What `/api/list-files` gave for a path: its JSON answer, or `None` when the fetch or the JSON parse threw. */
  type Lister = string -> Option<ListFiles.ListResponse>

  /** The paths of the `dir` items of a listing, in listing order. */
  function DirPaths(items: seq<ListFiles.Item>): (r: seq<string>)
    ensures |r| <= |items|
    ensures forall p :: p in r <==> exists k :: 0 <= k < |items| && items[k].kind == DirKind && items[k].path == p
  {
    if items == [] then []
    else
      var last := items[|items| - 1];
      DirPaths(items[..|items| - 1]) + if last.kind == DirKind then [last.path] else []
  }

  /** The folder paths of a concatenation are those of each part, in order. */
  lemma {:induction false} DirPathsAppend(a: seq<ListFiles.Item>, b: seq<ListFiles.Item>)
    ensures DirPaths(a + b) == DirPaths(a) + DirPaths(b)
    decreases |b|
  {
    if b == [] {
      assert a + b == a;
    } else {
      var init, last := b[..|b| - 1], b[|b| - 1];
      var tail := if last.kind == DirKind then [last.path] else [];
      assert (a + b)[..|a + b| - 1] == a + init && (a + b)[|a + b| - 1] == last;
      assert DirPaths(a + b) == DirPaths(a + init) + tail;
      DirPathsAppend(a, init);
      assert DirPaths(b) == DirPaths(init) + tail;
    }
  }

  /** A single item contributes its path exactly when it is a folder. */
  lemma DirPathsSingle(x: ListFiles.Item)
    ensures DirPaths([x]) == if x.kind == DirKind then [x.path] else []
  {
    assert [x][..0] == [];
  }

  /**
   * `fetchFolderPaths(path, depth)`: nothing below depth 0 or for an
   * unsuccessful answer; otherwise the folders listed at `path` followed,
   * when depth > 0, by what each of them yields one level down, in order.
   * `None` is a thrown fetch, which propagates.
   */
  function FolderPaths(path: string, depth: int, list: Lister): Option<seq<string>>
    decreases depth + 1, 0
  {
    if depth < 0 then Some([])
    else
      match list(path)
      case None => None
      case Some(ListFailed(_)) => Some([])
      case Some(Listed(items, _)) =>
        var dirs := DirPaths(items);
        if depth > 0 then
          match NestedPaths(dirs, depth - 1, list)
          case None => None
          case Some(nested) => Some(dirs + nested)
        else Some(dirs)
  }

  /** The concatenated results for each of `dirs`, one level down. */
  function NestedPaths(dirs: seq<string>, depth: int, list: Lister): Option<seq<string>>
    requires depth >= 0
    decreases depth + 1, |dirs| + 1
  {
    if dirs == [] then Some([])
    else
      match NestedPaths(dirs[..|dirs| - 1], depth, list)
      case None => None
      case Some(before) =>
        match FolderPaths(dirs[|dirs| - 1], depth, list)
        case None => None
        case Some(more) => Some(before + more)
  }

  /** `p` is listed as a folder by a successful listing of `parent`. */
  ghost predicate ListedDir(list: Lister, parent: string, p: string) {
    list(parent).Some? && list(parent).value.Listed? && p in DirPaths(list(parent).value.items)
  }

  /** `p` is reached from `root` through at most `levels` successful listings. */
  ghost predicate Within(list: Lister, root: string, levels: nat, p: string)
    decreases levels
  {
    levels > 0 &&
      (ListedDir(list, root, p) || exists q :: ListedDir(list, root, q) && Within(list, q, levels - 1, p))
  }

  /**
   * When the collection at depth `d` completes, it yields exactly the
   * folders reached from the root through at most `d + 1` listings; the
   * widget's call with depth 2 therefore sees folders at most three levels
   * below the root, and all of them.
   */
  lemma {:induction false} FolderPathsWithin(root: string, depth: nat, list: Lister)
    requires FolderPaths(root, depth, list).Some?
    ensures forall p :: p in FolderPaths(root, depth, list).value <==> Within(list, root, depth + 1, p)
    decreases depth + 1, 0
  {
    match list(root)
    case Some(ListFailed(_)) =>
    case Some(Listed(items, _)) =>
      var dirs := DirPaths(items);
      if depth > 0 {
        NestedPathsWithin(dirs, depth - 1, list);
        forall p ensures p in FolderPaths(root, depth, list).value <==> Within(list, root, depth + 1, p) {
          if exists q :: ListedDir(list, root, q) && Within(list, q, depth, p) {
            var q :| ListedDir(list, root, q) && Within(list, q, depth, p);
            var k :| 0 <= k < |dirs| && dirs[k] == q;
          }
        }
      }
  }

  lemma {:induction false} NestedPathsWithin(dirs: seq<string>, depth: nat, list: Lister)
    requires NestedPaths(dirs, depth, list).Some?
    ensures forall p :: p in NestedPaths(dirs, depth, list).value <==>
      exists k :: 0 <= k < |dirs| && Within(list, dirs[k], depth + 1, p)
    decreases depth + 1, |dirs| + 1
  {
    if dirs != [] {
      var init := dirs[..|dirs| - 1];
      NestedPathsWithin(init, depth, list);
      FolderPathsWithin(dirs[|dirs| - 1], depth, list);
      forall p ensures p in NestedPaths(dirs, depth, list).value <==>
        exists k :: 0 <= k < |dirs| && Within(list, dirs[k], depth + 1, p)
      {
        if exists k :: 0 <= k < |dirs| && Within(list, dirs[k], depth + 1, p) {
          var k :| 0 <= k < |dirs| && Within(list, dirs[k], depth + 1, p);
          if k < |dirs| - 1 {
            assert init[k] == dirs[k];
          }
        }
        if exists k :: 0 <= k < |init| && Within(list, init[k], depth + 1, p) {
          var k :| 0 <= k < |init| && Within(list, init[k], depth + 1, p);
          assert dirs[k] == init[k];
        }
      }
    }
  }

  /** A thrown fetch for one folder makes the whole collection throw. */
  lemma {:induction false} NestedPathsThrows(dirs: seq<string>, i: nat, depth: nat, list: Lister)
    requires i <= |dirs| && NestedPaths(dirs[..i], depth, list).None?
    ensures NestedPaths(dirs, depth, list).None?
    decreases |dirs| - i
  {
    if i < |dirs| {
      assert dirs[..i + 1][..i] == dirs[..i];
      NestedPathsThrows(dirs, i + 1, depth, list);
    } else {
      assert dirs[..i] == dirs;
    }
  }

  /** Collecting one more folder appends what that folder yields. */
  lemma NestedPathsSnoc(dirs: seq<string>, i: nat, depth: nat, list: Lister)
    requires i < |dirs| && NestedPaths(dirs[..i], depth, list).Some? && FolderPaths(dirs[i], depth, list).Some?
    ensures NestedPaths(dirs[..i + 1], depth, list)
      == Some(NestedPaths(dirs[..i], depth, list).value + FolderPaths(dirs[i], depth, list).value)
  {
    assert dirs[..i + 1][..i] == dirs[..i];
  }

  /** `fetchFolderPaths`. */
  method FetchFolderPaths(path: string, depth: int, list: Lister) returns (r: Option<seq<string>>)
    ensures r == FolderPaths(path, depth, list)
    decreases depth + 1, 0
  {
    if depth < 0 {
      return Some([]);
    }
    var reply := list(path);
    if reply.None? {
      return None;
    }
    if !reply.value.Listed? {
      return Some([]);
    }
    var dirs := DirPaths(reply.value.items);
    if depth == 0 {
      return Some(dirs);
    }
    var nested := FetchNested(dirs, depth - 1, list);
    if nested.None? {
      return None;
    }
    return Some(dirs + nested.value);
  }

  /** The loop of `fetchFolderPaths` over the folders of the listing, one level down; a throw ends it. */
  method FetchNested(dirs: seq<string>, depth: nat, list: Lister) returns (r: Option<seq<string>>)
    ensures r == NestedPaths(dirs, depth, list)
    decreases depth + 1, 1
  {
    var results := [];
    var i := 0;
    while i < |dirs|
      invariant 0 <= i <= |dirs|
      invariant NestedPaths(dirs[..i], depth, list) == Some(results)
    {
      var more := FetchFolderPaths(dirs[i], depth, list);
      if more.None? {
        assert dirs[..i + 1][..i] == dirs[..i];
        NestedPathsThrows(dirs, i + 1, depth, list);
        return None;
      }
      NestedPathsSnoc(dirs, i, depth, list);
      results := results + more.value;
      i := i + 1;
    }
    assert dirs[..|dirs|] == dirs;
    return Some(results);
  }

  const DefaultFolder := "uploads"

  /** `Array.from(new Set(['uploads', ...folders])).sort()`. */
  function FolderOptions(folders: seq<string>): (r: seq<string>)
    ensures StrictlySorted(r) && DefaultFolder in r
    ensures forall y :: y in r <==> y == DefaultFolder || y in folders
  {
    SortUnique([DefaultFolder] + folders)
  }

  /** The options are the one ascending, duplicate-free arrangement of those folders. */
  lemma FolderOptionsCanonical(folders: seq<string>, s: seq<string>)
    requires StrictlySorted(s)
    requires forall y :: y in s <==> y == DefaultFolder || y in folders
    ensures s == FolderOptions(folders)
  {
    StrictlySortedUnique(s, FolderOptions(folders));
  }

  /** A final `.` followed by one or more characters, none of them `.` or `/`, starts at `i`. */
  predicate ExtensionAt(s: string, i: nat) {
    i + 1 < |s| && s[i] == '.' && forall j :: i < j < |s| ==> s[j] != '.' && s[j] != '/'
  }

  /** At most one position can start such an extension. */
  lemma ExtensionAtUnique(s: string, i: nat, j: nat)
    requires ExtensionAt(s, i) && ExtensionAt(s, j)
    ensures i == j
  {
  }

  /** The search from the end for `\.[^/.]+$`, knowing that `s[k..]` holds neither `.` nor `/`. */
  function ExtensionStart(s: string, k: nat): (r: Option<nat>)
    requires k <= |s|
    requires forall j :: k <= j < |s| ==> s[j] != '.' && s[j] != '/'
    ensures r.Some? ==> ExtensionAt(s, r.value)
    ensures r.None? ==> forall i: nat :: !ExtensionAt(s, i)
    decreases k
  {
    if k == 0 then None
    else if s[k - 1] == '.' then (if k < |s| then Some(k - 1) else None)
    else if s[k - 1] == '/' then None
    else ExtensionStart(s, k - 1)
  }

  /** `name.replace(/\.[^/.]+$/, '')`. */
  function StripExtension(s: string): (r: string)
    ensures r <= s
    ensures forall i: nat :: ExtensionAt(s, i) ==> r == s[..i]
    ensures (forall i: nat :: !ExtensionAt(s, i)) ==> r == s
  {
    match ExtensionStart(s, |s|)
    case Some(i) => s[..i]
    case None => s
  }

  lemma StripExtensionExamples()
    ensures StripExtension("a.b.c") == "a.b"
    ensures StripExtension("a.") == "a."
    ensures StripExtension(".png") == ""
  {
    assert ExtensionAt("a.b.c", 3);
    assert "a.b.c"[..3] == "a.b";
    assert forall i: nat :: !ExtensionAt("a.", i) by {
      forall i: nat ensures !ExtensionAt("a.", i) {
        if i + 1 < 2 { assert "a."[1] == '.'; }
      }
    }
    assert ExtensionAt(".png", 0);
  }

  /**
   * `uploadSingleFile`'s form: the file, `custom_filename` only when the
   * trimmed name and its stripped base are both non-empty, and the current
   * folder or `uploads`.
   */
  function FormFor(f: Upload.MediaFile, customName: string, currentFolder: string): (form: Upload.UploadForm)
    ensures form.file == Some(f)
    ensures form.customFilename.Some? <==> Trim(customName) != "" && StripExtension(Trim(customName)) != ""
    ensures form.customFilename.Some? ==> form.customFilename.value == StripExtension(Trim(customName))
    ensures form.folder.Some? && form.folder.value != ""
    ensures currentFolder != "" ==> form.folder == Some(currentFolder)
  {
    var trimmed := Trim(customName);
    var custom := if trimmed != "" && StripExtension(trimmed) != "" then Some(StripExtension(trimmed)) else None;
    Upload.UploadForm(Some(f), custom, Some(OrElse(Some(currentFolder), DefaultFolder)))
  }

  /**
   * What the widget sends, the server stores: under the current folder (or
   * `uploads`), never the server's `default`, and under the stripped custom
   * name when one was typed.
   */
  lemma FormReachesRoute(f: Upload.MediaFile, customName: string, currentFolder: string, iso: string, suffix: string)
    ensures var form := FormFor(f, customName, currentFolder);
      var folder := if currentFolder == "" then DefaultFolder else currentFolder;
      var stem := StripExtension(Trim(customName));
      && Upload.StoredPath(f.name, form.folder, form.customFilename, iso, suffix) ==
         "src/assets/" + Sanitize.CleanFolder(folder) + "/" +
         (if Trim(customName) != "" && stem != "" then Sanitize.CleanName(stem) else Upload.TimestampPart(iso) + "-" + suffix) +
         "." + Upload.Extension(f.name)
  {
  }

  /** A file as the browser hands it over. */
  datatype LocalFile = LocalFile(name: string, mime: string, size: nat, lastModified: nat)
  {
    function AsMedia(): Upload.MediaFile {
      Upload.MediaFile(name, mime, size)
    }
  }

  /** `isMediaFile`. */
  predicate IsMediaFile(f: LocalFile) {
    Upload.IsImage(f.mime) || Upload.IsVideo(f.mime)
  }

  /** `list.filter(isMediaFile)`. */
  function MediaOnly(files: seq<LocalFile>): (r: seq<LocalFile>)
    ensures |r| <= |files|
    ensures forall f :: f in r <==> f in files && IsMediaFile(f)
  {
    if files == [] then []
    else
      var last := files[|files| - 1];
      MediaOnly(files[..|files| - 1]) + if IsMediaFile(last) then [last] else []
  }

  /** The filter keeps the order: filtering a concatenation concatenates the filtered parts. */
  lemma {:induction false} MediaOnlyAppend(a: seq<LocalFile>, b: seq<LocalFile>)
    ensures MediaOnly(a + b) == MediaOnly(a) + MediaOnly(b)
    decreases |b|
  {
    if b == [] {
      assert a + b == a;
    } else {
      var init := b[..|b| - 1];
      assert (a + b)[..|a + b| - 1] == a + init && (a + b)[|a + b| - 1] == b[|b| - 1];
      MediaOnlyAppend(a, init);
    }
  }

  /** Upload status of a queued file; `Failed` carries the `error` text shown beside it. */
  datatype Status = Pending | Uploading | Done | Failed(error: string)

  datatype QueueEntry = QueueEntry(id: string, file: LocalFile, name: string, status: Status)

  const NoMediaFiles := "Select image or video files only."
  const UploadFailed := "Upload failed"

  /** `${file.name}-${file.size}-${file.lastModified}-${random}`. */
  function EntryId(f: LocalFile, random: string): (id: string)
    ensures f.name + "-" <= id && EndsWith(id, "-" + random)
  {
    var id := f.name + "-" + NatToString(f.size) + "-" + NatToString(f.lastModified) + "-" + random;
    EndsWithConcat(f.name + "-" + NatToString(f.size) + "-" + NatToString(f.lastModified), "-" + random);
    id
  }

  /** The entry queued for one media file: pending, named by its stripped base name. */
  function NewEntry(f: LocalFile, random: string): QueueEntry {
    QueueEntry(EntryId(f, random), f, StripExtension(f.name), Pending)
  }

  /** The entries queued for the media files, `random(k)` standing for the k-th `Math.random` text. */
  function NewEntries(media: seq<LocalFile>, random: nat -> string): (r: seq<QueueEntry>)
    ensures |r| == |media|
  {
    if media == [] then []
    else NewEntries(media[..|media| - 1], random) + [NewEntry(media[|media| - 1], random(|media| - 1))]
  }

  /** Entry k queues media file k, pending, under its name without extension and the k-th random id. */
  lemma {:induction false} NewEntriesFields(media: seq<LocalFile>, random: nat -> string, k: nat)
    requires k < |media|
    ensures NewEntries(media, random)[k] == QueueEntry(EntryId(media[k], random(k)), media[k], StripExtension(media[k].name), Pending)
    decreases |media|
  {
    if k < |media| - 1 {
      var init := media[..|media| - 1];
      NewEntriesFields(init, random, k);
      assert init[k] == media[k];
    }
  }

  lemma NewEntriesSnoc(media: seq<LocalFile>, i: nat, random: nat -> string)
    requires i < |media|
    ensures NewEntries(media[..i + 1], random) == NewEntries(media[..i], random) + [NewEntry(media[i], random(i))]
  {
    assert media[..i + 1][..i] == media[..i];
  }

  /** The `for` loop of `addFilesToQueue`: push one entry per media file onto a copy of the queue. */
  method QueueMedia(prev: seq<QueueEntry>, media: seq<LocalFile>, random: nat -> string) returns (next: seq<QueueEntry>)
    ensures next == prev + NewEntries(media, random)
  {
    next := prev;
    var i := 0;
    while i < |media|
      invariant 0 <= i <= |media|
      invariant next == prev + NewEntries(media[..i], random)
    {
      NewEntriesSnoc(media, i, random);
      next := next + [NewEntry(media[i], random(i))];
      i := i + 1;
    }
    assert media[..|media|] == media;
  }

  /** `prev.filter(item => item.id !== id)`. */
  function RemoveById(es: seq<QueueEntry>, id: string): (r: seq<QueueEntry>)
    ensures |r| <= |es|
    ensures forall e :: e in r <==> e in es && e.id != id
    decreases |es|
  {
    if es == [] then []
    else (if es[0].id == id then [] else [es[0]]) + RemoveById(es[1..], id)
  }

  /** Removal keeps the order of the rest: it distributes over concatenation. */
  lemma {:induction false} RemoveByIdAppend(a: seq<QueueEntry>, b: seq<QueueEntry>, id: string)
    ensures RemoveById(a + b, id) == RemoveById(a, id) + RemoveById(b, id)
    decreases |a|
  {
    if a == [] {
      assert a + b == b;
    } else {
      assert (a + b)[0] == a[0] && (a + b)[1..] == a[1..] + b;
      RemoveByIdAppend(a[1..], b, id);
    }
  }

  /** Removing an id no entry has changes nothing. */
  lemma {:induction false} RemoveAbsentId(es: seq<QueueEntry>, id: string)
    requires forall k :: 0 <= k < |es| ==> es[k].id != id
    ensures RemoveById(es, id) == es
    decreases |es|
  {
    if es != [] {
      RemoveAbsentId(es[1..], id);
    }
  }

  /** `prev.map(item => item.id === id ? { ...item, name } : item)`. */
  function RenameById(es: seq<QueueEntry>, id: string, name: string): (r: seq<QueueEntry>)
    ensures |r| == |es|
    ensures forall k :: 0 <= k < |es| ==>
      r[k] == if es[k].id == id then es[k].(name := name) else es[k]
  {
    seq(|es|, k requires 0 <= k < |es| => if es[k].id == id then es[k].(name := name) else es[k])
  }

  /** The status update the upload loop applies to the entries with the item's id. */
  function SetStatus(es: seq<QueueEntry>, id: string, st: Status): (r: seq<QueueEntry>)
    ensures |r| == |es|
    ensures forall k :: 0 <= k < |es| ==>
      r[k] == if es[k].id == id then es[k].(status := st) else es[k]
  {
    seq(|es|, k requires 0 <= k < |es| => if es[k].id == id then es[k].(status := st) else es[k])
  }

  /** The JSON `/api/upload` answered, or what the fetch threw. */
  datatype Reply =
    | Succeeded(body: Upload.UploadSuccess)
    | Unsuccessful(error: Option<string>)
    | Threw(thrown: Thrown)

  /** The answer the widget receives from the route's own answer. */
  function FromRoute(r: Upload.UploadResponse): Reply {
    if r.Uploaded? then Succeeded(r.body) else Unsuccessful(Some(r.ErrorText()))
  }

  /**
   * The status an upload settles in: `done` on success; otherwise the
   * answer's `error` or `Upload failed`, or the thrown error's message.
   */
  function Settle(reply: Reply): (st: Status)
    ensures st.Done? <==> reply.Succeeded?
    ensures st != Pending && st != Uploading
    ensures reply.Unsuccessful? ==> st == Failed(OrElse(reply.error, UploadFailed))
    ensures reply.Threw? ==> st == Failed(match reply.thrown case ErrorThrown(m) => m case OtherThrown => UploadFailed)
  {
    match reply
    case Succeeded(_) => Done
    case Unsuccessful(e) => Failed(OrElse(e, UploadFailed))
    case Threw(ErrorThrown(m)) => Failed(m)
    case Threw(OtherThrown) => Failed(UploadFailed)
  }

  /** A failed answer from the route is shown with the route's own error text. */
  lemma RouteErrorShown(r: Upload.UploadResponse)
    requires !r.Uploaded? && r.ErrorText() != ""
    ensures Settle(FromRoute(r)) == Failed(r.ErrorText())
  {
  }

  type Uploader = Upload.UploadForm -> Reply

  /** How the route answers each queued item when the widget's folder is `folder`. */
  function ReplyFor(folder: string, upload: Uploader): QueueEntry -> Reply {
    (item: QueueEntry) => upload(FormFor(item.file.AsMedia(), item.name, folder))
  }

  /** The queue after the loop of `handleUploadSelected` has handled `items`, in order. */
  function RunUploads(es: seq<QueueEntry>, items: seq<QueueEntry>, answer: QueueEntry -> Reply): (r: seq<QueueEntry>)
    ensures |r| == |es|
  {
    if items == [] then es
    else
      var item := items[|items| - 1];
      var before := RunUploads(es, items[..|items| - 1], answer);
      SetStatus(SetStatus(before, item.id, Uploading), item.id, Settle(answer(item)))
  }

  /** The upload result shown after the loop: the answer of the last item that succeeded. */
  function LastSuccess(items: seq<QueueEntry>, answer: QueueEntry -> Reply): Option<Upload.UploadSuccess> {
    if items == [] then None
    else
      var reply := answer(items[|items| - 1]);
      if reply.Succeeded? then Some(reply.body) else LastSuccess(items[..|items| - 1], answer)
  }

  predicate Succeeds(item: QueueEntry, answer: QueueEntry -> Reply) {
    answer(item).Succeeded?
  }

  /** No result is shown exactly when no item succeeded. */
  lemma {:induction false} LastSuccessAbsent(items: seq<QueueEntry>, answer: QueueEntry -> Reply)
    ensures LastSuccess(items, answer).None? <==> forall k :: 0 <= k < |items| ==> !Succeeds(items[k], answer)
    decreases |items|
  {
    if items != [] {
      var n := |items| - 1;
      LastSuccessAbsent(items[..n], answer);
      assert forall k :: 0 <= k < n ==> items[..n][k] == items[k];
    }
  }

  /** A result shown is the answer of item `k`, after which every item failed. */
  lemma {:induction false} LastSuccessIsLatest(items: seq<QueueEntry>, answer: QueueEntry -> Reply) returns (k: nat)
    requires LastSuccess(items, answer).Some?
    ensures k < |items| && answer(items[k]) == Succeeded(LastSuccess(items, answer).value)
    ensures forall j :: k < j < |items| ==> !Succeeds(items[j], answer)
    decreases |items|
  {
    var n := |items| - 1;
    if Succeeds(items[n], answer) {
      k := n;
    } else {
      var init := items[..n];
      k := LastSuccessIsLatest(init, answer);
      assert init[k] == items[k];
      assert forall j :: k < j < n ==> init[j] == items[j];
    }
  }

  /** One more pass of the loop: the item is marked uploading, then settled by its reply. */
  lemma UploadStep(es: seq<QueueEntry>, items: seq<QueueEntry>, i: nat, answer: QueueEntry -> Reply)
    requires i < |items|
    ensures RunUploads(es, items[..i + 1], answer)
      == SetStatus(SetStatus(RunUploads(es, items[..i], answer), items[i].id, Uploading), items[i].id, Settle(answer(items[i])))
    ensures LastSuccess(items[..i + 1], answer)
      == if answer(items[i]).Succeeded? then Some(answer(items[i]).body) else LastSuccess(items[..i], answer)
  {
    assert items[..i + 1][..i] == items[..i];
  }

  predicate UniqueIds(es: seq<QueueEntry>) {
    forall i, j :: 0 <= i < j < |es| ==> es[i].id != es[j].id
  }

  /** The first `i` entries settled, the rest as queued. */
  function SettledUpTo(es: seq<QueueEntry>, i: nat, answer: QueueEntry -> Reply): seq<QueueEntry> {
    seq(|es|, k requires 0 <= k < |es| =>
      if k < i then es[k].(status := Settle(answer(es[k]))) else es[k])
  }

  lemma {:induction false} RunUploadsPrefix(es: seq<QueueEntry>, i: nat, answer: QueueEntry -> Reply)
    requires i <= |es| && UniqueIds(es)
    ensures RunUploads(es, es[..i], answer) == SettledUpTo(es, i, answer)
    decreases i
  {
    if i == 0 {
      assert SettledUpTo(es, 0, answer) == es;
    } else {
      var items := es[..i];
      assert items[..|items| - 1] == es[..i - 1] && items[|items| - 1] == es[i - 1];
      RunUploadsPrefix(es, i - 1, answer);
      var prev := SettledUpTo(es, i - 1, answer);
      var item := es[i - 1];
      var mid := SetStatus(prev, item.id, Uploading);
      var fin := SetStatus(mid, item.id, Settle(answer(item)));
      var want := SettledUpTo(es, i, answer);
      forall k | 0 <= k < |es| ensures fin[k] == want[k] {
        assert prev[k].id == es[k].id && mid[k].id == es[k].id;
        if k != i - 1 {
          assert es[k].id != item.id;
        }
      }
      assert fin == want;
    }
  }

  /**
   * With distinct ids, the loop settles every queued entry by its own
   * answer and changes nothing else about it: id, file, name and position
   * stay as they were.
   */
  lemma UploadsSettleEachEntry(es: seq<QueueEntry>, answer: QueueEntry -> Reply)
    requires UniqueIds(es)
    ensures var r := RunUploads(es, es, answer);
      && |r| == |es|
      && forall k :: 0 <= k < |es| ==> r[k] == es[k].(status := Settle(answer(es[k])))
  {
    RunUploadsPrefix(es, |es|, answer);
    assert es[..|es|] == es;
  }

  /** The widget's state. */
  class Widget {
    var entries: seq<QueueEntry>
    var error: Option<string>
    var currentFolder: string
    var repoFolders: seq<string>
    var result: Option<Upload.UploadSuccess>

    constructor ()
      ensures entries == [] && error == None && currentFolder == DefaultFolder && repoFolders == [] && result == None
    {
      entries := [];
      error := None;
      currentFolder := DefaultFolder;
      repoFolders := [];
      result := None;
    }

    /** `loadRepoFolders`: a thrown fetch is ignored; otherwise the options are replaced and the folder kept only if offered. */
    method LoadRepoFolders(list: Lister)
      modifies this
      ensures FolderPaths("", 2, list).None? ==> repoFolders == old(repoFolders) && currentFolder == old(currentFolder)
      ensures FolderPaths("", 2, list).Some? ==>
        && repoFolders == FolderOptions(FolderPaths("", 2, list).value)
        && currentFolder == (if old(currentFolder) in repoFolders then old(currentFolder) else DefaultFolder)
        && currentFolder in repoFolders
      ensures entries == old(entries) && error == old(error) && result == old(result)
    {
      var folders := FetchFolderPaths("", 2, list);
      if folders.Some? {
        var unique := FolderOptions(folders.value);
        repoFolders := unique;
        if currentFolder !in unique {
          currentFolder := DefaultFolder;
        }
      }
    }

    /** `addFilesToQueue`. */
    method AddFiles(files: seq<LocalFile>, random: nat -> string)
      modifies this
      ensures MediaOnly(files) == [] ==> entries == old(entries) && error == Some(NoMediaFiles)
      ensures MediaOnly(files) != [] ==> entries == old(entries) + NewEntries(MediaOnly(files), random) && error == None
      ensures currentFolder == old(currentFolder) && repoFolders == old(repoFolders) && result == old(result)
    {
      var media := MediaOnly(files);
      if |media| == 0 {
        error := Some(NoMediaFiles);
        return;
      }
      error := None;
      entries := QueueMedia(entries, media, random);
    }

    /** `handleRemoveSelected`. */
    method Remove(id: string)
      modifies this
      ensures entries == RemoveById(old(entries), id)
      ensures error == old(error) && currentFolder == old(currentFolder) && repoFolders == old(repoFolders) && result == old(result)
    {
      entries := RemoveById(entries, id);
    }

    /** `handleRenameSelected`. */
    method Rename(id: string, name: string)
      modifies this
      ensures entries == RenameById(old(entries), id, name)
      ensures error == old(error) && currentFolder == old(currentFolder) && repoFolders == old(repoFolders) && result == old(result)
    {
      entries := RenameById(entries, id, name);
    }

    /** `handleUploadSelected`: one upload per queued item, in queue order. */
    method UploadSelected(upload: Uploader)
      modifies this
      ensures old(entries) == [] ==> entries == old(entries) && error == old(error) && result == old(result)
      ensures old(entries) != [] ==>
        && entries == RunUploads(old(entries), old(entries), ReplyFor(currentFolder, upload))
        && error == None
        && result == LastSuccess(old(entries), ReplyFor(currentFolder, upload))
      ensures currentFolder == old(currentFolder) && repoFolders == old(repoFolders)
    {
      if |entries| == 0 {
        return;
      }
      error := None;
      result := None;
      var queue := entries;
      var i := 0;
      while i < |queue|
        invariant 0 <= i <= |queue|
        invariant entries == RunUploads(queue, queue[..i], ReplyFor(currentFolder, upload))
        invariant result == LastSuccess(queue[..i], ReplyFor(currentFolder, upload))
        invariant error == None && currentFolder == old(currentFolder) && repoFolders == old(repoFolders)
      {
        var item := queue[i];
        UploadStep(queue, queue, i, ReplyFor(currentFolder, upload));
        entries := SetStatus(entries, item.id, Uploading);
        var reply := upload(FormFor(item.file.AsMedia(), item.name, currentFolder));
        entries := SetStatus(entries, item.id, Settle(reply));
        if reply.Succeeded? {
          result := Some(reply.body);
        }
        i := i + 1;
      }
      assert queue[..|queue|] == queue;
    }
  }
}
