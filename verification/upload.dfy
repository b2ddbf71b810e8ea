/**
 * The video upload route: a validation chain over the multipart form, the
 * media object written under the user's folder and a JSON metadata record
 * written beside it. The clock readings, the fresh id, the URL the store
 * hands back and the success of each `put` are parameters.
 */
module Upload {
  import opened Wrappers
  import opened Json
  import opened BlobStore
  import Decimal

  /** The size cap: 100 MiB, inclusive. */
  const MaxVideoBytes: nat := 100 * 1024 * 1024

  /** The two form fields read: `video` (a file) and `userId`. */
  datatype UploadForm = UploadForm(video: Option<File>, userId: Option<string>)

  /** The four 400 answers, in the order the route checks them. */
  datatype Rejection =
    | NoVideoFile     // "No video file provided"
    | UserIdRequired  // "User ID required"
    | NotAVideo       // "File must be a video"
    | TooLarge        // "Video file too large (max 100MB)"

  datatype Response =
    | Rejected(reason: Rejection)   // 400 {error: <the rejection's message>}
    | Uploaded(video: Object)        // 200 {success: true, video, message}
    | UploadFailed                   // 500 {error: "Failed to upload video"}

  predicate StartsWith(s: string, prefix: string) {
    |prefix| <= |s| && s[..|prefix|] == prefix
  }

  /** The first failing check of the chain, or None when the form is acceptable. */
  function Validate(form: UploadForm): (r: Option<Rejection>)
    ensures r == Some(NoVideoFile) <==> form.video.None?
    ensures r == Some(UserIdRequired) <==> form.video.Some? && Blank(form.userId)
    ensures r == Some(NotAVideo) <==>
      form.video.Some? && !Blank(form.userId) && !StartsWith(form.video.value.mime, "video/")
    ensures r == Some(TooLarge) <==>
      form.video.Some? && !Blank(form.userId) && StartsWith(form.video.value.mime, "video/")
      && form.video.value.size > MaxVideoBytes
    ensures r.None? <==>
      form.video.Some? && !Blank(form.userId) && StartsWith(form.video.value.mime, "video/")
      && form.video.value.size <= MaxVideoBytes
  {
    if form.video.None? then Some(NoVideoFile)
    else if Blank(form.userId) then Some(UserIdRequired)
    else if !StartsWith(form.video.value.mime, "video/") then Some(NotAVideo)
    else if form.video.value.size > MaxVideoBytes then Some(TooLarge)
    else None
  }

  /** The media object's key: `videos/<userId>/<Date.now()>-<file name>`. */
  function VideoPath(userId: string, now: nat, name: string): (p: string)
    ensures StartsWith(p, "videos/" + userId + "/")
    ensures |p| == 7 + |userId| + 1 + |Decimal.NatToString(now)| + 1 + |name|
    ensures p[|p| - |name|..] == name
    // between the user's folder and the name: the decimal clock reading and a dash
    ensures p[8 + |userId|..|p| - |name| - 1] == Decimal.NatToString(now)
    ensures p[|p| - |name| - 1] == '-'
  {
    var d := Decimal.NatToString(now);
    var p := "videos/" + userId + "/" + d + "-" + name;
    assert p == ("videos/" + userId + "/") + (d + ("-" + name));
    assert (d + ("-" + name))[..|d|] == d;
    p
  }

  /** The metadata record's key. */
  function MetadataKey(id: string): string {
    "video-metadata/" + id + ".json"
  }

  /** The metadata record: copied from the form, with no duration yet. */
  function Metadata(id: string, userId: string, file: File, url: string, uploadDate: string): (m: Object)
    ensures m.Keys == {"id", "userId", "filename", "size", "type", "url", "uploadDate", "duration"}
    ensures m["id"] == Str(id) && m["userId"] == Str(userId)
    ensures m["filename"] == Str(file.name) && m["size"] == Num(file.size as real) && m["type"] == Str(file.mime)
    ensures m["url"] == Str(url) && m["uploadDate"] == Str(uploadDate) && m["duration"] == Null
  {
    map["id" := Str(id), "userId" := Str(userId), "filename" := Str(file.name),
        "size" := Num(file.size as real), "type" := Str(file.mime), "url" := Str(url),
        "uploadDate" := Str(uploadDate), "duration" := Null]
  }

  /**
   * The two puts of a successful upload: the media at its path, then the
   * metadata record at its key. Nothing else in the store changes.
   */
  function StoreUpload(store: Store, f: File, u: string, now: nat, id: string, url: string,
                       uploadDate: string): (s: Store)
    ensures s.Keys == store.Keys + {VideoPath(u, now, f.name), MetadataKey(id)}
    ensures s[MetadataKey(id)] == Document(Obj(Metadata(id, u, f, url, uploadDate)))
    ensures VideoPath(u, now, f.name) != MetadataKey(id) ==> s[VideoPath(u, now, f.name)] == Media(f)
    ensures forall k :: k in store && k != VideoPath(u, now, f.name) && k != MetadataKey(id) ==> s[k] == store[k]
  {
    var withMedia := Put(store, VideoPath(u, now, f.name), Media(f));
    Put(withMedia, MetadataKey(id), Document(Obj(Metadata(id, u, f, url, uploadDate))))
  }

  /**
   * POST /api/video/upload. `form` is None when `request.formData()` throws;
   * `now` is `Date.now()`, `id` the fresh UUID, `url` the URL the media put
   * returns and `uploadDate` the ISO text of the second clock reading;
   * `mediaPutOk`/`metaPutOk` say whether each put completed.
   */
  function HandleUpload(store: Store, form: Option<UploadForm>, now: nat, id: string, url: string,
                        uploadDate: string, mediaPutOk: bool, metaPutOk: bool): (out: (Response, Store))
    ensures form.None? ==> out == (UploadFailed, store)
    // a rejected form writes nothing, and the reason is the first failing check
    ensures form.Some? && Validate(form.value).Some? ==> out == (Rejected(Validate(form.value).value), store)
    ensures out.0.Rejected? ==> out.1 == store
    // success stores both objects, the metadata copying the form
    ensures out.0.Uploaded? ==>
      && form.Some? && Validate(form.value).None?
      && var f := form.value.video.value;
         var u := form.value.userId.value;
         && out.0.video == Metadata(id, u, f, url, uploadDate)
         && out.1 == StoreUpload(store, f, u, now, id, url, uploadDate)
    ensures out.0.Uploaded? <==> form.Some? && Validate(form.value).None? && mediaPutOk && metaPutOk
    // a failing media put stores nothing; a failing metadata put leaves the media stored
    ensures form.Some? && Validate(form.value).None? && !mediaPutOk ==> out == (UploadFailed, store)
    ensures form.Some? && Validate(form.value).None? && mediaPutOk && !metaPutOk ==>
      var f := form.value.video.value;
      out == (UploadFailed, Put(store, VideoPath(form.value.userId.value, now, f.name), Media(f)))
  {
    if form.None? then (UploadFailed, store)
    else
      match Validate(form.value)
      case Some(reason) => (Rejected(reason), store)
      case None =>
        var f := form.value.video.value;
        var u := form.value.userId.value;
        if !mediaPutOk then (UploadFailed, store)
        else if !metaPutOk then (UploadFailed, Put(store, VideoPath(u, now, f.name), Media(f)))
        else (Uploaded(Metadata(id, u, f, url, uploadDate)), StoreUpload(store, f, u, now, id, url, uploadDate))
  }

  /** Exactly 100 MiB passes the size check; one byte more does not. */
  lemma SizeCapInclusive(userId: string, name: string, mime: string)
    requires userId != "" && StartsWith(mime, "video/")
    ensures Validate(UploadForm(Some(File(name, mime, MaxVideoBytes)), Some(userId))).None?
    ensures Validate(UploadForm(Some(File(name, mime, MaxVideoBytes + 1)), Some(userId))) == Some(TooLarge)
  {
  }

  /** A missing file is reported before a missing user id. */
  lemma MissingFileReportedFirst(userId: Option<string>)
    ensures Validate(UploadForm(None, userId)) == Some(NoVideoFile)
  {
  }

  /** Splitting at the first separator `c` is unique when the left parts do not contain it. */
  lemma SplitAtFirst(a1: string, b1: string, a2: string, b2: string, c: char)
    requires c !in a1 && c !in a2
    requires a1 + [c] + b1 == a2 + [c] + b2
    ensures a1 == a2 && b1 == b2
  {
    var s := a1 + [c] + b1;
    assert s[|a1|] == c && s[|a2|] == c;
    assert a1 == s[..|a1|] == a2;
    assert b1 == s[|a1| + 1..] == b2;
  }

  /** After the fixed `videos/` prefix a path reads user id, `/`, clock digits, `-`, name. */
  lemma VideoPathShape(u: string, t: nat, n: string)
    ensures |VideoPath(u, t, n)| >= 7
    ensures VideoPath(u, t, n)[7..] == u + ['/'] + (Decimal.NatToString(t) + ['-'] + n)
  {
    var d := Decimal.NatToString(t);
    assert VideoPath(u, t, n) == "videos/" + (u + ['/'] + (d + ['-'] + n));
  }

  /**
   * Media paths never collide across users, clock readings or names, as
   * long as user ids contain no `/`: the path determines all three parts.
   */
  lemma {:induction false} VideoPathInjective(u1: string, t1: nat, n1: string, u2: string, t2: nat, n2: string)
    requires '/' !in u1 && '/' !in u2
    requires VideoPath(u1, t1, n1) == VideoPath(u2, t2, n2)
    ensures u1 == u2 && t1 == t2 && n1 == n2
  {
    var d1 := Decimal.NatToString(t1);
    var d2 := Decimal.NatToString(t2);
    VideoPathShape(u1, t1, n1);
    VideoPathShape(u2, t2, n2);
    SplitAtFirst(u1, d1 + ['-'] + n1, u2, d2 + ['-'] + n2, '/');
    assert '-' !in d1 by { assert Decimal.AllDigits(d1); }
    assert '-' !in d2 by { assert Decimal.AllDigits(d2); }
    SplitAtFirst(d1, n1, d2, n2, '-');
    Decimal.NatToStringInjective(t1, t2);
  }
}
