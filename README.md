# Cloud-Snap, modelled in Dafny

Cloud-Snap is a Next.js application that stores images and videos in a
GitHub repository through the GitHub contents API. This project models its
core:

- the request gate that runs before every route;
- the upload route and the three folder/file routes that write to GitHub;
- the listing route;
- the client-side logic of the upload widget, the file browser and the
  upload history panel.

Every GitHub call is a parameter of the model: the request a handler issues
is a value (`WriteCall`, `DeleteCall`), and GitHub's answer is an input
function. The current time, `Math.random`, the Base64 encoding and the
dialogs' answers are parameters too.

Layout, one module per source file plus shared helpers:

| file | module | models |
|---|---|---|
| `wrappers.dfy` | `Wrappers` | `Option` |
| `text.dfy` | `Text` | the JavaScript string operations used: truthiness and `\|\|`, `startsWith`/`endsWith`, `indexOf`, `replace` of a first occurrence, `split`/`join`, `trim`, ASCII `toLowerCase`, decimal rendering |
| `github.dfy` | `GitHub` | calls, answers, thrown values, environment settings |
| `urls.dfy` | `Urls` | the six URL templates |
| `sanitize.dfy` | `Sanitize` | the folder and file-name sanitisers, the folder check shared by create-folder and delete-folder |
| `middleware.dfy` | `Middleware` | `src/middleware.ts` |
| `upload.dfy` | `Upload` | `src/app/api/upload/route.ts` |
| `delete_folder.dfy` | `DeleteFolder` | `src/app/api/delete-folder/route.ts`; the class `FolderDeleter` keeps the log of deletes |
| `create_folder.dfy` | `CreateFolder` | `src/app/api/create-folder/route.ts` |
| `delete_file.dfy` | `DeleteFile` | `src/app/api/delete-file/route.ts` |
| `list_files.dfy` | `ListFiles` | `src/app/api/list-files/route.ts` |
| `sorting.dfy` | `Sorting` | the string order of `Array.prototype.sort` and the dedupe-and-sort of folder options |
| `image_uploader.dfy` | `ImageUploader` | `src/components/ImageUploader.tsx`; the class `Widget` holds the queue and the other state the handlers update |
| `file_browser.dfy` | `FileBrowser` | `src/components/FileBrowser.tsx` |
| `upload_history.dfy` | `UploadHistory` | `src/components/UploadHistory.tsx` |

Modelling conventions:

- A thrown value is `ErrorThrown(message)` for an `Error` and `OtherThrown`
  for anything else, so that the catch blocks' two messages can be stated.
- An environment variable is an `Option<string>`. A non-null assertion on
  an unset variable interpolates as `undefined` (`GitHub.EnvText`).
- An `||` fallback is `Text.OrElse`, which takes the fallback for an absent
  or empty string.
- A queue entry's `status` and `error` fields are folded into one
  `Status`. The source sets `error` only together with status `error`, and
  clears it when the entry moves to `uploading`.

## Model

| member | source | states |
|---|---|---|
| Middleware.PublicUploadAlwaysPasses | src/middleware.ts:9-17 | `/api/public-upload` passes whatever the cookie, headers or settings |
| Middleware.ApiSessionBeatsMissingKey | src/middleware.ts:20-27 | on an API path a `true` session cookie passes even with `API_KEY` unset, because the cookie is checked first |
| Middleware.ApiKeyDecision | src/middleware.ts:25-33 | an API path without a session: 500 when `API_KEY` is unset; otherwise it passes exactly when the provided key is non-empty and equals `API_KEY`, and every other case is the 401 |
| Middleware.ProvidedKey | src/middleware.ts:11 | `x-api-key` when non-empty; otherwise the `authorization` header with its first `Bearer ` removed; nothing when neither header is present |
| Middleware.BearerKey | src/middleware.ts:11-29 | `Bearer {key}` yields `key`, and `Bearer ` alone yields the empty key and so the 401 |
| Middleware.BearerStripUnanchored | src/middleware.ts:11 | the strip is unanchored: `{lead}Bearer {key}` yields `{lead}{key}` when `lead` holds no earlier `Bearer ` |
| Middleware.MissingPinIsServerError | src/middleware.ts:37-41 | a page request with `PIN` unset gets the text 500 before any PIN or cookie check |
| Middleware.CorrectPinSetsSession | src/middleware.ts:44-57 | the exact PIN posted to `/verify-pin` redirects to `/` with 303 and sets `authenticated=true`: http-only, same-site strict, max age 86400, path `/`, secure exactly in production |
| Middleware.WrongPinShowsBanner | src/middleware.ts:58-62 | a wrong or missing PIN gets the login page with the error banner, even with a valid session |
| Middleware.PageNeedsSession | src/middleware.ts:66-74 | any other page passes exactly with the session cookie, and otherwise gets the login page without a banner |
| Middleware.PassesExactly | src/middleware.ts:5-75 | the gate passes a request exactly in the four cases: public upload, API with a session, API with the right key, page with a session |
| Middleware.OnlyCorrectPinSetsCookie | src/middleware.ts:48-62 | a cookie is set exactly when the correct PIN is posted to `/verify-pin` |
| Middleware.Gate | src/middleware.ts:5-75 | no contract of its own; specified by `PassesExactly`, `OnlyCorrectPinSetsCookie` and the branch lemmas above |
| Upload.Rejection | src/app/api/upload/route.ts:13-38 | no 400 exactly when a file is present, its type starts with `image/` or `video/`, and its size is within the ceiling; otherwise the first failing check, in order, picks the text: `No file provided`, then `Only image and video files are allowed`, then `File size must be less than 500MB` for video or `100MB` otherwise |
| Upload.HandleUpload | src/app/api/upload/route.ts:6-125 | the write is skipped exactly for the 400s, which are exactly the missing, mistyped or oversized files. The write goes to `StoredPath` in `GITHUB_OWNER`/`GITHUB_REPO` as interpolated, with message `Upload image: {name}`, the Base64 content and the branch. A failed write is answered by the catch block with its message. A 400 carries `Rejection`'s text. A successful write is a success exactly when owner and repository are set, and otherwise the configuration 500, which comes only after a successful write. Success reports `url == urls.raw`, `filename` the full path, the set of six URLs over the new commit, the size and the type |
| Upload.SizeCeilingInclusive | src/app/api/upload/route.ts:32-38 | ceilings are 524288000 bytes for video and 104857600 otherwise; a file of exactly the ceiling passes and one byte more does not |
| Upload.ExtensionAfterLastDot | src/app/api/upload/route.ts:50 | the extension is the text after the last dot, `jpg` when that text is empty |
| Upload.ExtensionWithoutDot | src/app/api/upload/route.ts:50 | a name without a dot is its own extension |
| Upload.TimestampPart | src/app/api/upload/route.ts:61 | the timestamp keeps its length; every `:` and `.` becomes `-` and every other character stays, so none of the two remains |
| Upload.UploadFailure | src/app/api/upload/route.ts:110-124 | `Upload failed: {message}` for an `Error`, `Upload failed: Unknown error` for anything else |
| Upload.MissingFolderIsDefault | src/app/api/upload/route.ts:11-52 | an absent or empty folder field makes the sanitised folder `default` |
| Upload.CustomNamePath | src/app/api/upload/route.ts:55-58 | a non-empty custom name gives `src/assets/{cleanFolder}/{sanitised}.{ext}`, and the sanitised name is as long as the custom name in UTF-16 code units |
| Upload.AutoNamePath | src/app/api/upload/route.ts:59-63 | without a custom name the path is `src/assets/{cleanFolder}/{timestamp}-{suffix}.{ext}` |
| Upload.UploadedUrlsEndWithFilename | src/app/api/upload/route.ts:87-108 | every URL of a successful upload ends with `/{filename}` |
| Upload.AutoNamedImageUpload | src/app/api/upload/route.ts:6-108 | `photo.png`-style: an image within 100 MiB sent to a clean folder without a custom name, whose write succeeds, is stored at `src/assets/{folder}/{timestamp}-{suffix}.{ext}` |
| Upload.StoredPath | src/app/api/upload/route.ts:49-63 | no contract of its own; specified by `CustomNamePath`, `AutoNamePath` and `MissingFolderIsDefault` |
| Upload.Extension | src/app/api/upload/route.ts:50 | no contract of its own; specified by `ExtensionAfterLastDot` and `ExtensionWithoutDot` |
| Upload.Answer | src/app/api/upload/route.ts:76-108 | no contract of its own; specified by `HandleUpload`: the catch answer for a failed write, the configuration 500 for a successful write without owner or repository, else the success body |
| Urls.TemplatesEndWithPath | src/app/api/upload/route.ts:89-96 | each of the three templates ends with `/{path}` |
| Urls.UrlsEndWithPath | src/app/api/upload/route.ts:87-97 | all six URLs end with `/{path}` |
| Urls.CommitVariantsDifferOnlyInRef | src/app/api/upload/route.ts:87-97 | exchanging branch and commit exchanges the branch and commit halves of the set: each pair differs only in the ref |
| Urls.JsDelivrUrlOnCdn | src/app/api/upload/route.ts:91-96 | a jsDelivr URL contains `jsdelivr.net` |
| Sanitize.StripLeadingSlashes | src/app/api/upload/route.ts:51 | the result is a suffix of the input without a leading `/`, and every removed character is `/` |
| Sanitize.StripTrailingSlashes | src/app/api/upload/route.ts:51 | the result is a prefix of the input without a trailing `/`, and every removed character is `/` |
| Sanitize.CleanName | src/app/api/upload/route.ts:57 | as long as the input in UTF-16 code units, the length JavaScript reports; only `[A-Za-z0-9_-]` remains |
| Sanitize.CleanNameBmp | src/app/api/upload/route.ts:57 | inside the Basic Multilingual Plane the name keeps its length, allowed characters are kept and every other character becomes `-` |
| Sanitize.CleanNameBeyondBmp | src/app/api/upload/route.ts:57 | the regex has no `u` flag, so a character outside the Basic Multilingual Plane becomes two dashes: `a` followed by one becomes `a--` |
| Sanitize.CleanFolder | src/app/api/upload/route.ts:51 | no longer than the input in UTF-16 code units, no `/` at either end, only `[A-Za-z0-9_/-]` |
| Sanitize.DashifyShape | src/app/api/upload/route.ts:51-57 | the replacement keeps the UTF-16 length: one `-` per code unit of a rejected character; every output character is `-` or allowed |
| Sanitize.DashifyAppend | src/app/api/upload/route.ts:51-57 | the replacement of a concatenation is the concatenation of the replacements |
| Sanitize.DashifyKept | src/app/api/upload/route.ts:51-57 | a text of allowed characters only is left unchanged |
| Sanitize.DashifyBmp | src/app/api/upload/route.ts:51-57 | inside the Basic Multilingual Plane the replacement keeps the length and changes character `k` to `-` exactly when it is rejected |
| Sanitize.DashifyEnds | src/app/api/upload/route.ts:51-57 | the replacement is empty exactly for empty input, and its ends come from the input's first and last characters |
| Sanitize.StripSlashesShorter | src/app/api/upload/route.ts:51 | removing the slashes at both ends never adds code units |
| Sanitize.StripSlashesEnds | src/app/api/upload/route.ts:51 | the stripped text has no `/` at either end |
| Sanitize.CleanFolderEmpty | src/app/api/create-folder/route.ts:17-18 | the sanitised folder is empty exactly when the input is all slashes |
| Sanitize.CleanFolderFixedPoints | src/app/api/upload/route.ts:51 | the sanitiser leaves exactly the clean paths unchanged |
| Sanitize.CleanFolderIdempotent | src/app/api/upload/route.ts:51 | sanitising twice is sanitising once |
| Sanitize.CheckFolder | src/app/api/create-folder/route.ts:10-23 | a missing, non-string or empty path gets `Folder path is required`; a path of slashes only gets `Invalid folder path`; anything else is accepted as its clean, non-empty sanitised form |
| DeleteFolder.Planned | src/app/api/delete-folder/route.ts:6-39 | a complete walk issues one delete per non-directory entry |
| DeleteFolder.PlannedAll | src/app/api/delete-folder/route.ts:15-27 | a complete walk of a listing issues one delete per non-directory entry of its subtrees |
| DeleteFolder.WalkAllSnoc | src/app/api/delete-folder/route.ts:15-27 | after entries that did not fail, one more entry appends its own deletes and failure |
| DeleteFolder.WalkAllStep | src/app/api/delete-folder/route.ts:15-27 | one more pass of the loop adds the next entry's deletes and failure |
| DeleteFolder.WalkIsPrefix | src/app/api/delete-folder/route.ts:6-39 | the deletes a walk issued are always the first ones of the complete walk: nothing is skipped or reordered |
| DeleteFolder.WalkAllIsPrefix | src/app/api/delete-folder/route.ts:15-27 | the deletes issued for a listing are the first ones of its complete walk |
| DeleteFolder.WalkCompletes | src/app/api/delete-folder/route.ts:6-39 | a walk ends without failure exactly when every listing is readable and every planned delete succeeds, and it has then issued all of them |
| DeleteFolder.WalkAllCompletes | src/app/api/delete-folder/route.ts:15-27 | a listing's walk ends without failure exactly when every entry is readable and every planned delete succeeds, and it has then issued all of them |
| DeleteFolder.ThenStopsAtFirstFailure | src/app/api/delete-folder/route.ts:15-27 | stopping at the first failure survives appending a walk to a part that did not fail |
| DeleteFolder.WalkStopsAtFirstFailure | src/app/api/delete-folder/route.ts:17-27 | every delete but the last succeeded; when the last failed, its failure is what the walk reports; a walk without failure saw only successes; and when every listing is readable, a failing walk ended on a delete whose own error it reports, so (with `WalkIsPrefix`) it issued the planned deletes up to and including the first failing one |
| DeleteFolder.WalkAllStopsAtFirstFailure | src/app/api/delete-folder/route.ts:15-27 | the same for the loop over a listing: only the last delete may have failed, its failure ends the walk, and with every entry readable a failing loop ended on a delete whose own error it reports |
| DeleteFolder.PlannedAllAppend | src/app/api/delete-folder/route.ts:15-27 | the deletes of a listing are those of its parts, in order |
| DeleteFolder.SubtreeDeletesAreContiguous | src/app/api/delete-folder/route.ts:15-27 | depth first in listing order: entry `k`'s deletes come all together after the earlier entries' and before the later ones' |
| DeleteFolder.PlannedDeletesObjects | src/app/api/delete-folder/route.ts:19-37 | every delete targets an object of the tree, with its own path and sha and message `Delete file: {path}`; none targets a directory |
| DeleteFolder.PlannedAllDeletesObjects | src/app/api/delete-folder/route.ts:19-26 | every delete of a listing targets an object of one of its entries, with that object's path and sha |
| DeleteFolder.WalkAllFailedPrefix | src/app/api/delete-folder/route.ts:15-27 | when the walk of the first entries fails, the walk of the whole listing is that walk: the rest is skipped |
| DeleteFolder.Walk | src/app/api/delete-folder/route.ts:6-39 | no contract of its own; specified by `Planned`, `WalkIsPrefix`, `WalkCompletes`, `WalkStopsAtFirstFailure` and `PlannedDeletesObjects`: the deletes issued are the planned ones up to the first failure, and a readable walk reports that delete's error |
| DeleteFolder.WalkAll | src/app/api/delete-folder/route.ts:15-27 | no contract of its own; specified by `PlannedAll`, `WalkAllSnoc`, `WalkAllStep`, `WalkAllIsPrefix`, `WalkAllCompletes` and `WalkAllStopsAtFirstFailure`: the same, for a listing |
| DeleteFolder.FolderDeleter.constructor | src/app/api/delete-folder/route.ts:60-66 | the handler starts with the settings and GitHub's answers and an empty log |
| DeleteFolder.FolderDeleter.DeletePath | src/app/api/delete-folder/route.ts:6-39 | `deletePath` appends exactly the walk's deletes to the log and reports its failure; a single object gets one delete |
| DeleteFolder.FolderDeleter.DeleteEntries | src/app/api/delete-folder/route.ts:15-27 | the loop over a listing appends the listing's walk to the log and stops at the first failure |
| DeleteFolder.FolderDeleter.Delete | src/app/api/delete-folder/route.ts:41-90 | a rejected path touches nothing and answers 400. Otherwise the walk starts at `src/assets/{cleanPath}`. Success reports `cleanPath`; a failure answers `Failed to delete folder: …` and keeps the deletes already made |
| CreateFolder.PlaceholderWrite | src/app/api/create-folder/route.ts:33-44 | the write goes to `{cleanPath}/.gitkeep`, with no `src/assets/` prefix, content `Cg==` and message `Create folder: {cleanPath}` |
| CreateFolder.HandleCreate | src/app/api/create-folder/route.ts:6-65 | no write exactly when the check rejects the path, which answers 400; otherwise one placeholder write; success exactly when it succeeds, reporting `cleanPath`; a failure answers `Failed to create folder: …` |
| CreateFolder.PlaceholderInsideFolder | src/app/api/create-folder/route.ts:17-34 | the placeholder path is a clean, non-empty folder followed by `/.gitkeep` |
| CreateFolder.CleanNameKept | src/app/api/create-folder/route.ts:17-44 | an already clean name is created as given |
| DeleteFile.HandleDeleteFile | src/app/api/delete-file/route.ts:6-56 | no delete exactly when `path` or `sha` is falsy, which answers 400; otherwise one delete of `src/assets/{path}` with the given sha and message `Delete file: {realPath}`; the fixed message exactly when it succeeds, else `Failed to delete file: …` |
| DeleteFile.PathNotSanitised | src/app/api/delete-file/route.ts:25 | the path reaches GitHub unsanitised, right after `src/assets/` |
| ListFiles.CommitSha | src/app/api/list-files/route.ts:28-40 | a sha exactly when the call succeeded and returned a first commit with a non-empty sha, and then it is that sha |
| ListFiles.ListedItems | src/app/api/list-files/route.ts:42-70 | one item per entry, in order, with the entry's fields; the commit and URL fields exactly for `file` entries |
| ListFiles.SingleItem | src/app/api/list-files/route.ts:76-96 | a single object always carries the URL fields, and a commit only when it is a `file` |
| ListFiles.HandleList | src/app/api/list-files/route.ts:6-113 | 500 exactly when getContent fails, with `Failed to list files: …`; a directory answer is exactly its `ListedItems` and a single object exactly its one `SingleItem`, each with the query path (default `''`) |
| ListFiles.PinnedUrlsIffCommit | src/app/api/list-files/route.ts:55-57 | the pinned URLs are non-empty exactly when a commit was found |
| ListFiles.ListingAgreesWithUpload | src/app/api/list-files/route.ts:45-58 | a file whose newest commit is `sha` is pinned to the same jsDelivr and raw URLs as the upload's commit variants |
| ListFiles.ListedItem | src/app/api/list-files/route.ts:42-70 | no contract of its own; specified by `ListedItems` and `ListingAgreesWithUpload` |
| ListFiles.Cdn | src/app/api/list-files/route.ts:55-57 | no contract of its own; specified by `PinnedUrlsIffCommit` |
| ListFiles.QueryPath | src/app/api/list-files/route.ts:8-9 | no contract of its own; specified by `HandleList` |
| Sorting.LessIrreflexive | src/components/ImageUploader.tsx:71 | the string order is irreflexive |
| Sorting.LessTransitive | src/components/ImageUploader.tsx:71 | the string order is transitive |
| Sorting.LessTotal | src/components/ImageUploader.tsx:71 | any two different strings are ordered |
| Sorting.Insert | src/components/ImageUploader.tsx:71 | inserting into a strictly ascending list keeps it strictly ascending, holding exactly the old elements and `x` |
| Sorting.SortUnique | src/components/ImageUploader.tsx:71 | the result is strictly ascending and holds exactly the input's elements |
| Sorting.StrictlySortedUnique | src/components/ImageUploader.tsx:71 | two strictly ascending lists with the same elements are equal |
| ImageUploader.DirPaths | src/components/ImageUploader.tsx:56-57 | exactly the paths of the `dir` items |
| ImageUploader.DirPathsAppend | src/components/ImageUploader.tsx:56-57 | the folder paths of a concatenation are those of its parts, in order |
| ImageUploader.DirPathsSingle | src/components/ImageUploader.tsx:56-57 | one item gives its path exactly when it is a directory |
| ImageUploader.FolderPathsWithin | src/components/ImageUploader.tsx:51-70 | a completed collection at depth `d` yields exactly the folders reached through at most `d + 1` listings: with depth 2, at most three levels below the root, and all of them |
| ImageUploader.NestedPathsWithin | src/components/ImageUploader.tsx:58-63 | the nested results are exactly the folders each directory reaches |
| ImageUploader.NestedPathsThrows | src/components/ImageUploader.tsx:60 | a thrown fetch for one folder makes the whole collection throw |
| ImageUploader.NestedPathsSnoc | src/components/ImageUploader.tsx:59-62 | one more folder appends what that folder yields |
| ImageUploader.FetchFolderPaths | src/components/ImageUploader.tsx:51-65 | `[]` below depth 0 or for a failed listing; otherwise the dir paths followed, when depth > 0, by each dir's results in order; a throw propagates |
| ImageUploader.FetchNested | src/components/ImageUploader.tsx:59-62 | the loop concatenates each folder's results in order, and a throw ends it |
| ImageUploader.FolderPaths | src/components/ImageUploader.tsx:51-65 | no contract of its own; specified by `FolderPathsWithin` and `FetchFolderPaths` |
| ImageUploader.NestedPaths | src/components/ImageUploader.tsx:58-63 | no contract of its own; specified by `NestedPathsWithin`, `NestedPathsThrows`, `NestedPathsSnoc` and `FetchNested` |
| ImageUploader.FolderOptions | src/components/ImageUploader.tsx:71 | strictly ascending, so no duplicates; contains `uploads`; exactly `uploads` and the collected folders |
| ImageUploader.FolderOptionsCanonical | src/components/ImageUploader.tsx:71 | any strictly ascending list of those folders is the options list |
| ImageUploader.Widget.constructor | src/components/ImageUploader.tsx:41-48 | an empty queue, no error, no result, no folders, current folder `uploads` |
| ImageUploader.Widget.LoadRepoFolders | src/components/ImageUploader.tsx:67-76 | a throw changes nothing; otherwise the options replace the folders, and the current folder resets to `uploads` when it is not offered |
| ImageUploader.ExtensionAtUnique | src/components/ImageUploader.tsx:85 | at most one position starts a final extension |
| ImageUploader.ExtensionStart | src/components/ImageUploader.tsx:85 | the search from the end finds the final extension, or shows there is none |
| ImageUploader.StripExtension | src/components/ImageUploader.tsx:85 | the result is a prefix; it cuts at the final `.x` exactly when there is one and is the name otherwise |
| ImageUploader.StripExtensionExamples | src/components/ImageUploader.tsx:85 | `a.b.c` becomes `a.b`, `a.` stays, `.png` becomes `''` |
| ImageUploader.FormFor | src/components/ImageUploader.tsx:80-91 | the file; `custom_filename` exactly when the trimmed name and its stripped base are both non-empty, then the stripped base; the folder, non-empty, the current one when set |
| ImageUploader.FormReachesRoute | src/components/ImageUploader.tsx:80-91 | the route stores the file under the sanitised current folder, or `uploads` when none is set, and under the sanitised stripped custom name when one counts, else under the timestamp name |
| ImageUploader.MediaOnly | src/components/ImageUploader.tsx:97-101 | exactly the image and video files |
| ImageUploader.MediaOnlyAppend | src/components/ImageUploader.tsx:101 | the filter keeps the order |
| ImageUploader.EntryId | src/components/ImageUploader.tsx:110 | the id starts with `{name}-` and ends with `-{random}` |
| ImageUploader.NewEntries | src/components/ImageUploader.tsx:105-113 | one new entry per media file |
| ImageUploader.NewEntriesFields | src/components/ImageUploader.tsx:106-112 | new entry `k` is media file `k`, `pending`, named by its stripped base, with the `k`-th id |
| ImageUploader.NewEntriesSnoc | src/components/ImageUploader.tsx:105-113 | one more pass of the loop pushes the entry for the next media file |
| ImageUploader.QueueMedia | src/components/ImageUploader.tsx:105-114 | the loop pushes one new entry per media file, in order, after the existing entries |
| ImageUploader.Widget.AddFiles | src/components/ImageUploader.tsx:99-116 | without media files the error is set and the queue is unchanged; otherwise the error is cleared and the new entries follow the old ones |
| ImageUploader.RemoveById | src/components/ImageUploader.tsx:129 | exactly the entries with a different id remain |
| ImageUploader.RemoveByIdAppend | src/components/ImageUploader.tsx:129 | removal keeps the order of the rest |
| ImageUploader.RemoveAbsentId | src/components/ImageUploader.tsx:129 | removing an id that no entry has changes nothing |
| ImageUploader.Widget.Remove | src/components/ImageUploader.tsx:129 | the queue loses the entries with that id; nothing else changes |
| ImageUploader.RenameById | src/components/ImageUploader.tsx:130-131 | only entries with that id change, and only their name |
| ImageUploader.Widget.Rename | src/components/ImageUploader.tsx:130-131 | the queue is renamed by id; nothing else changes |
| ImageUploader.SetStatus | src/components/ImageUploader.tsx:137-149 | only entries with that id change, and only their status |
| ImageUploader.Settle | src/components/ImageUploader.tsx:139-150 | `done` exactly on success; never `pending` or `uploading` afterwards; a failure shows `result.error` or `Upload failed`; a throw shows its message or `Upload failed` |
| ImageUploader.RouteErrorShown | src/components/ImageUploader.tsx:146 | an unsuccessful route answer with an error text shows that text |
| ImageUploader.RunUploads | src/components/ImageUploader.tsx:136-151 | the queue keeps its length |
| ImageUploader.UploadStep | src/components/ImageUploader.tsx:136-151 | one pass marks the item uploading and then settles it; the shown result moves to its answer on success |
| ImageUploader.LastSuccessAbsent | src/components/ImageUploader.tsx:135-141 | no result is shown exactly when no item succeeded |
| ImageUploader.LastSuccessIsLatest | src/components/ImageUploader.tsx:141 | a shown result is the answer of an item after which every item failed |
| ImageUploader.LastSuccess | src/components/ImageUploader.tsx:135-141 | no contract of its own; specified by `LastSuccessAbsent`, `LastSuccessIsLatest` and `Widget.UploadSelected` |
| ImageUploader.ReplyFor | src/components/ImageUploader.tsx:80-91 | no contract of its own; specified by `FormFor`, `FormReachesRoute` and `Widget.UploadSelected` |
| ImageUploader.RunUploadsPrefix | src/components/ImageUploader.tsx:136-151 | with distinct ids, after `i` passes the first `i` entries are settled and the rest are as queued |
| ImageUploader.UploadsSettleEachEntry | src/components/ImageUploader.tsx:133-153 | with distinct ids, the loop settles each entry by its own answer, and id, file, name and position stay |
| ImageUploader.Widget.UploadSelected | src/components/ImageUploader.tsx:133-153 | an empty queue changes nothing; otherwise the error is cleared, each item in queue order is uploaded under the current folder and settled, and the shown result is the last success |
| FileBrowser.PathSegments | src/components/FileBrowser.tsx:107 | no segment is empty or holds `/`; that they are the non-empty pieces of the split, in order, is `NonEmptyAppend`, `NonEmptySingle` and `PathSegmentsOfChild` |
| FileBrowser.PathSegmentsOfChild | src/components/FileBrowser.tsx:107 | the segments of `parent/name` are those of `parent` followed by `name` |
| FileBrowser.BreadcrumbSegments | src/components/FileBrowser.tsx:162-163 | breadcrumb `i` leads to a path whose segments are exactly the first `i + 1` |
| FileBrowser.LastBreadcrumbIsCurrent | src/components/FileBrowser.tsx:162-163 | for a path with no empty segment, the last breadcrumb is the path itself |
| FileBrowser.ParentOfChild | src/components/FileBrowser.tsx:84 | the parent of `{parent}/{name}` is `parent` |
| FileBrowser.ParentOfTopLevel | src/components/FileBrowser.tsx:84 | the parent of a top-level folder is the root |
| FileBrowser.ParentPath | src/components/FileBrowser.tsx:84 | no contract of its own; specified by `ParentOfChild` and `ParentOfTopLevel` |
| FileBrowser.NewFolderPath | src/components/FileBrowser.tsx:60-66 | no request exactly when the trimmed name is empty; otherwise the trimmed name, after `{currentPath}/` when there is a current path |
| FileBrowser.NewFolderIsChild | src/components/FileBrowser.tsx:65-84 | a new folder without a slash is a child of the folder being viewed |
| FileBrowser.FolderName | src/components/FileBrowser.tsx:76 | slash-free, and empty exactly when the path has no segment |
| FileBrowser.FolderNameOfChild | src/components/FileBrowser.tsx:76 | the folder name of `parent/name` is `name`, the partner of `ParentOfChild` |
| FileBrowser.FolderNameOfTopLevel | src/components/FileBrowser.tsx:76 | a top-level folder is named by its own path |
| FileBrowser.DeleteConfirmation | src/components/FileBrowser.tsx:74-78 | at the root nothing is confirmed; inside `parent/name` or a top-level `name`, exactly the answer `name` confirms |
| FileBrowser.LowerAsciiIdempotent | src/components/FileBrowser.tsx:97-98 | lower-casing twice is lower-casing once |
| FileBrowser.LowerAsciiAppend | src/components/FileBrowser.tsx:97-98 | lower-casing distributes over concatenation |
| FileBrowser.MediaTestsIgnoreCase | src/components/FileBrowser.tsx:97-98 | a name and its lower-cased form are classified alike |
| FileBrowser.UpperCaseExtension | src/components/FileBrowser.tsx:97 | `.PNG` is recognised like `.png` |
| FileBrowser.IsImageFile | src/components/FileBrowser.tsx:97 | no contract of its own; specified by `MediaTestsIgnoreCase` and `UpperCaseExtension` |
| FileBrowser.IsVideoFile | src/components/FileBrowser.tsx:98 | no contract of its own; specified by `MediaTestsIgnoreCase` |
| FileBrowser.Filter | src/components/FileBrowser.tsx:108-109 | exactly the kept items |
| FileBrowser.FilterAppend | src/components/FileBrowser.tsx:108-109 | filtering a concatenation filters each part, in order |
| FileBrowser.FilterSingle | src/components/FileBrowser.tsx:108-109 | one item is kept exactly when the predicate holds of it |
| FileBrowser.FilterWeaker | src/components/FileBrowser.tsx:294-297 | a stronger filter keeps no more items than a weaker one |
| FileBrowser.HiddenCount | src/components/FileBrowser.tsx:294-297 | files minus media files, never negative |
| FileBrowser.FoldersAndMediaDisjoint | src/components/FileBrowser.tsx:108-109 | folders and media files never overlap, and every media file is a file |
| FileBrowser.GalleryLinksArePinned | src/components/FileBrowser.tsx:100 | a listed file links to the jsDelivr and raw URLs pinned to its newest commit |
| FileBrowser.FolderHasNoCdnLinks | src/components/FileBrowser.tsx:100 | a folder's missing fields become `''`; only its GitHub link remains |
| FileBrowser.GetUrls | src/components/FileBrowser.tsx:100 | no contract of its own; specified by `GalleryLinksArePinned` and `FolderHasNoCdnLinks` |
| FileBrowser.FileDeleteTarget | src/components/FileBrowser.tsx:52 | the browser sends the listed repository path, and the route prefixes `src/assets/` to it once more |
| FileBrowser.FolderDeleteTarget | src/components/FileBrowser.tsx:81 | a clean current path is accepted by the delete-folder route as it is |
| UploadHistory.BestUrl | src/components/UploadHistory.tsx:35-36 | the pinned jsDelivr URL if non-empty, else the branch jsDelivr URL if non-empty, else `url` |
| UploadHistory.BestUrlIsOwnUrl | src/components/UploadHistory.tsx:35-36 | the best URL is one of the record's own URLs, and non-empty when it is not `url` |
| UploadHistory.RecordFor | src/components/ImageUploader.tsx:142 | the stored record keeps the upload's URLs and filename |
| UploadHistory.UploadedRecordIsPinnedCdn | src/components/UploadHistory.tsx:35-63 | every successful upload is shown through its commit-pinned jsDelivr URL, so it is marked both CDN and permanent |
| UploadHistory.IsCdn | src/components/UploadHistory.tsx:62 | no contract of its own; specified by `UploadedRecordIsPinnedCdn` |
| UploadHistory.IsPermanent | src/components/UploadHistory.tsx:63 | no contract of its own; specified by `UploadedRecordIsPinnedCdn` |
| UploadHistory.Header | src/components/UploadHistory.tsx:38-50 | nothing exactly for an empty history; otherwise the count, with `S` at the end exactly when the count is not 1 |
| GitHub.CatchMessage | src/app/api/delete-file/route.ts:41-55 | `{prefix}: {message}` for an `Error`, the bare prefix for anything else |
| GitHub.Branch | src/app/api/upload/route.ts:72 | `GITHUB_BRANCH` when set and non-empty, and `main` when it is unset or empty; never empty |
| Text.IndexOfFirst | src/middleware.ts:11 | `indexOf` finds the first occurrence, or reports that there is none |
| Text.TrimShape | src/components/ImageUploader.tsx:83 | `trim` yields a slice of its input without white space at either end |
| Text.TrimAllSpace | src/components/FileBrowser.tsx:61-62 | `trim` yields the empty text exactly for all-white-space input, so only such a name is refused |
| Text.NonEmptyAppend | src/components/FileBrowser.tsx:107 | dropping empty pieces works part by part, so the kept pieces stay in order |
| Text.NonEmptySingle | src/components/FileBrowser.tsx:107 | one piece is kept exactly when it is non-empty |
| Text.SplitJoin | src/components/FileBrowser.tsx:163 | splitting a join of slash-free, non-empty segments gives them back |
| Text.JoinSplit | src/components/FileBrowser.tsx:84 | joining the pieces of a split gives the input back |

## Left out

- The GitHub calls made through Octokit are parameters. A `getContent`
  answer is an input tree or reply, a write or delete is answered by a
  function, and `listCommits` is a total function of the path.
- Base64 of the uploaded bytes is a parameter. The placeholder's content is
  the constant `Cg==`, the Base64 of one newline.
- `new Date().toISOString()` and `Math.random()` are parameters: the
  timestamp text, the nine-character suffix, and the `k`-th random text of
  an entry id.
- `formatFileSize` is not modelled; it uses floating point.
- `Promise.all` in list-files is a sequential, order-preserving map.
- React rendering, `useState`/`useEffect` plumbing, the clipboard,
  `setTimeout`, object URLs, `onUpload` and the `uploading`/`foldersLoading`
  flags are not modelled. Dialog answers (`prompt`) are inputs.
- The login page HTML is reduced to whether the error banner is shown. The
  route `matcher` is not modelled.
- The upload route's static `GET` handler is not modelled.
- `@/utils/storage` (`saveToHistory`, `getHistory`) is not part of this
  model. The record the widget would store is `UploadHistory.RecordFor`.
- Request bodies and forms hold only strings or nothing. A JSON field of
  another type is `OtherJson` for the folder routes. A number or boolean
  `path`/`sha` for delete-file, and a failed `request.json()` or
  `formData()`, are not modelled.
- A response that is not JSON is not modelled. A middleware 401 on a
  list-files call reaches the widget as a failed listing.
- `toLowerCase` is modelled on ASCII letters only.
- The sort order is code-point order. It differs from JavaScript's UTF-16
  order only for characters outside the Basic Multilingual Plane.
- ImageUploader.Widget.UploadSelected: the transient `uploading` status is
  set by the loop and stated by `UploadStep`, but the method's postcondition
  describes only the final queue.
- ImageUploader.Widget.UploadSelected: entries the user adds or removes
  while the loop awaits are not modelled. The loop runs over the queue as
  it was when the upload started, as the source does.
- Text.ReplaceFirst has no contract of its own. `Middleware.BearerKey` and
  `Middleware.BearerStripUnanchored` state what it does to the
  `authorization` header.
- The browser's listing paths are repository paths, while delete-file and
  delete-folder put `src/assets/` in front of what they receive.
  `FileBrowser.FileDeleteTarget` states this as the code has it, without
  correcting it.
- The upload widget's folder options are repository-root paths collected
  by `fetchFolderPaths('', 2)` (src/components/ImageUploader.tsx:52-75), and
  the upload route puts `src/assets/` in front of the chosen folder once more
  (src/app/api/upload/route.ts:52). `ImageUploader.FormReachesRoute` states
  this as the code has it, without correcting it.
