/**
 * The upload history panel: which URL each stored upload shows, whether it
 * is marked as CDN and as permanent, and the header count.
 */
module UploadHistory {
  import opened Wrappers
  import opened Text
  import opened GitHub
  import opened Urls
  import Upload

  /** A stored upload, as far as the panel's rules read it. */
  datatype HistoryRecord = HistoryRecord(filename: string, url: string, urls: Option<UrlSet>)

  /** `upload.urls?.jsdelivr_commit || upload.urls?.jsdelivr || upload.url`. */
  function BestUrl(h: HistoryRecord): (r: string)
    ensures h.urls.Some? && h.urls.value.jsdelivrCommit != "" ==> r == h.urls.value.jsdelivrCommit
    ensures h.urls.Some? && h.urls.value.jsdelivrCommit == "" && h.urls.value.jsdelivr != "" ==> r == h.urls.value.jsdelivr
    ensures (h.urls.None? || (h.urls.value.jsdelivrCommit == "" && h.urls.value.jsdelivr == "")) ==> r == h.url
  {
    match h.urls
    case None => h.url
    case Some(u) => if u.jsdelivrCommit != "" then u.jsdelivrCommit else if u.jsdelivr != "" then u.jsdelivr else h.url
  }

  /** `bestUrl.includes('jsdelivr.net')`. */
  predicate IsCdn(h: HistoryRecord) {
    Contains(BestUrl(h), "jsdelivr.net")
  }

  /** `!!(upload.urls?.jsdelivr_commit || upload.urls?.raw_commit)`. */
  predicate IsPermanent(h: HistoryRecord) {
    h.urls.Some? && (h.urls.value.jsdelivrCommit != "" || h.urls.value.rawCommit != "")
  }

  /** The best URL is one of the record's own URLs, preferring the commit-pinned CDN one. */
  lemma BestUrlIsOwnUrl(h: HistoryRecord)
    ensures BestUrl(h) == h.url ||
      (h.urls.Some? && (BestUrl(h) == h.urls.value.jsdelivrCommit || BestUrl(h) == h.urls.value.jsdelivr))
    ensures BestUrl(h) != h.url ==> BestUrl(h) != ""
  {
  }

  /** What the upload widget stores for a successful upload: `url` is `urls.jsdelivr_commit || url`. */
  function RecordFor(b: Upload.UploadSuccess): (h: HistoryRecord)
    ensures h.urls == Some(b.urls) && h.filename == b.filename
  {
    HistoryRecord(b.filename, OrElse(Some(b.urls.jsdelivrCommit), b.url), Some(b.urls))
  }

  /**
   * Every upload the route answers with success is shown through its
   * commit-pinned jsDelivr URL, and so is marked both CDN and permanent.
   */
  lemma UploadedRecordIsPinnedCdn(form: Upload.UploadForm, env: Env, encoded: string, iso: string, suffix: string,
                                   github: WriteCall -> WriteResult)
    requires Upload.HandleUpload(form, env, encoded, iso, suffix, github).response.Uploaded?
    ensures var b := Upload.HandleUpload(form, env, encoded, iso, suffix, github).response.body;
      var h := RecordFor(b);
      && BestUrl(h) == b.urls.jsdelivrCommit && h.url == b.urls.jsdelivrCommit
      && IsCdn(h) && IsPermanent(h)
  {
    var b := Upload.HandleUpload(form, env, encoded, iso, suffix, github).response.body;
    var call := Upload.HandleUpload(form, env, encoded, iso, suffix, github).write.value;
    var u := b.urls.jsdelivrCommit;
    assert u == JsDelivrUrl(env.owner.value, env.repo.value, b.commitSha, call.path);
    assert u[0] == 'h';
    JsDelivrUrlOnCdn(env.owner.value, env.repo.value, b.commitSha, call.path);
  }

  /** The header: nothing at all for an empty history, else `{n} UPLOAD` with `S` unless `n` is 1. */
  function Header(count: nat): (r: Option<string>)
    ensures r.None? <==> count == 0
    ensures r.Some? ==> NatToString(count) <= r.value
    ensures r.Some? ==> (EndsWith(r.value, "S") <==> count != 1)
  {
    if count == 0 then None
    else
      var text := NatToString(count) + " UPLOAD" + if count != 1 then "S" else "";
      assert text[|text| - 1] == if count != 1 then 'S' else 'D';
      Some(text)
  }
}
