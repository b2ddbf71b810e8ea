/**
 * POST /api/video/export: the export job record is built by object spread
 * (generated id, then the client's fields, then the forced fields), stored
 * at `exports/<exportId>.json`, and later overwritten at the same key by
 * the completed job. Completion runs on a timer in the route; here it is
 * the transition function `Complete` and the write `FinishExport`.
 */
module ExportJob {
  import opened Wrappers
  import opened Json
  import opened BlobStore

  datatype Response =
    | VideoIdRequired          // 400 {error: "Video ID required"}
    | Started(exportId: string)  // 200 {success: true, exportId, message, estimatedTime}
    | ExportFailed             // 500 {error: "Failed to start export"}

  /** The fields the route sets after spreading the client's body. */
  const ForcedKeys: set<string> := {"status", "progress", "createdAt", "completedAt", "downloadUrl", "exportSettings"}

  /** The fields completion overwrites. */
  const CompletionKeys: set<string> := {"status", "progress", "completedAt", "downloadUrl"}

  function ExportKey(exportId: string): string {
    "exports/" + exportId + ".json"
  }

  /** The simulated download address: always `.mp4`, whatever format was asked for. */
  function DownloadUrl(exportId: string): string {
    "https://example.com/exports/" + exportId + ".mp4"
  }

  /** `exportSettings`: each of format, quality, resolution from the body when truthy, else mp4/high/1080p. */
  function Settings(body: Object): (s: Object)
    ensures s.Keys == {"format", "quality", "resolution"}
    ensures forall k :: k in s ==> Truthy(s[k])
    ensures s["format"] == (if Falsy(body, "format") then Str("mp4") else body["format"])
    ensures s["quality"] == (if Falsy(body, "quality") then Str("high") else body["quality"])
    ensures s["resolution"] == (if Falsy(body, "resolution") then Str("1080p") else body["resolution"])
  {
    map["format" := OrDefault(body, "format", Str("mp4")),
        "quality" := OrDefault(body, "quality", Str("high")),
        "resolution" := OrDefault(body, "resolution", Str("1080p"))]
  }

  /** `{id: exportId, ...body, status: "processing", progress: 0, createdAt, completedAt: null, downloadUrl: null, exportSettings}`. */
  function NewJob(exportId: string, body: Object, createdAt: string): (job: Object)
    ensures job.Keys == {"id"} + body.Keys + ForcedKeys
    // the forced fields override whatever the client sent
    ensures job["status"] == Str("processing") && job["progress"] == Num(0.0)
    ensures job["createdAt"] == Str(createdAt) && job["completedAt"] == Null && job["downloadUrl"] == Null
    ensures job["exportSettings"] == Obj(Settings(body))
    // a client `id` overrides the generated one in the body
    ensures job["id"] == (if "id" in body then body["id"] else Str(exportId))
    // every other client field is kept as sent
    ensures forall k :: k in body && k !in ForcedKeys ==> job[k] == body[k]
  {
    var base := map["id" := Str(exportId)];
    assert base.Keys == {"id"} && "id" !in ForcedKeys;
    Spread(Spread(base, body), Forced(createdAt, Settings(body)))
  }

  /** The fields written after the spread, which no client value survives. */
  function Forced(createdAt: string, settings: Object): (f: Object)
    ensures f.Keys == ForcedKeys
    ensures f["status"] == Str("processing") && f["progress"] == Num(0.0)
    ensures f["createdAt"] == Str(createdAt) && f["completedAt"] == Null && f["downloadUrl"] == Null
    ensures f["exportSettings"] == Obj(settings)
  {
    map["status" := Str("processing"), "progress" := Num(0.0), "createdAt" := Str(createdAt),
        "completedAt" := Null, "downloadUrl" := Null, "exportSettings" := Obj(settings)]
  }

  /** A job as first stored. */
  predicate Processing(job: Object) {
    && "status" in job && job["status"] == Str("processing")
    && "progress" in job && job["progress"] == Num(0.0)
  }

  /** A job after the timer fired. */
  predicate Completed(job: Object) {
    && "status" in job && job["status"] == Str("completed")
    && "progress" in job && job["progress"] == Num(100.0)
  }

  /** `{...job, status: "completed", progress: 100, completedAt, downloadUrl}`. */
  function Complete(job: Object, exportId: string, completedAt: string): (done: Object)
    ensures done.Keys == job.Keys + CompletionKeys
    ensures Completed(done) && !Processing(done)
    ensures done["completedAt"] == Str(completedAt) && done["downloadUrl"] == Str(DownloadUrl(exportId))
    ensures forall k :: k in job && k !in CompletionKeys ==> done[k] == job[k]
  {
    Spread(job, map["status" := Str("completed"), "progress" := Num(100.0),
                    "completedAt" := Str(completedAt), "downloadUrl" := Str(DownloadUrl(exportId))])
  }

  /**
   * The route up to its response. `exportId` is the fresh UUID, `createdAt`
   * the clock's ISO text, `putOk` whether the put completed.
   */
  function StartExport(store: Store, body: Option<Value>, exportId: string, createdAt: string,
                       putOk: bool): (out: (Response, Store))
    ensures out.0 == VideoIdRequired <==> RequireField(body, "videoId").FieldMissing?
    ensures out.0.Started? <==> RequireField(body, "videoId").Present? && putOk
    // a rejected or failed request stores nothing
    ensures !out.0.Started? ==> out.1 == store
    // the job goes to the key named by the returned id, with the client's fields spread in
    ensures out.0.Started? ==>
      && out.0.exportId == exportId
      && out.1 == Put(store, ExportKey(exportId), Document(Obj(NewJob(exportId, body.value.fields, createdAt))))
  {
    match RequireField(body, "videoId")
    case ReadThrows => (ExportFailed, store)
    case FieldMissing => (VideoIdRequired, store)
    case Present(obj) =>
      if !putOk then (ExportFailed, store)
      else (Started(exportId), Put(store, ExportKey(exportId), Document(Obj(NewJob(exportId, obj, createdAt)))))
  }

  /**
   * The timer callback: the completed version of the job built in memory
   * overwrites the same key; a failing put is caught and changes nothing.
   */
  function FinishExport(store: Store, job: Object, exportId: string, completedAt: string,
                        putOk: bool): (s: Store)
    ensures putOk ==> ExportKey(exportId) in s && s.Keys == store.Keys + {ExportKey(exportId)}
    // the key holds a completed job: the timer's fields set, every other field of the job kept
    ensures putOk ==>
      var stored := s[ExportKey(exportId)];
      && stored.Document? && stored.json.Obj? && Completed(stored.json.fields)
      && stored.json.fields.Keys == job.Keys + CompletionKeys
      && stored.json.fields["completedAt"] == Str(completedAt)
      && stored.json.fields["downloadUrl"] == Str(DownloadUrl(exportId))
      && forall k :: k in job && k !in CompletionKeys ==> stored.json.fields[k] == job[k]
    // a failing put changes nothing, and no other key is ever touched
    ensures !putOk ==> s == store
    ensures forall k :: k in store && k != ExportKey(exportId) ==> k in s && s[k] == store[k]
  {
    if putOk then Put(store, ExportKey(exportId), Document(Obj(Complete(job, exportId, completedAt)))) else store
  }

  /** A started export stores its job, processing, at the key named by the returned id. */
  lemma StartedJobIsProcessing(store: Store, body: Option<Value>, exportId: string, createdAt: string)
    requires RequireField(body, "videoId").Present?
    ensures var out := StartExport(store, body, exportId, createdAt, true);
            var job := NewJob(exportId, body.value.fields, createdAt);
            && out.1 == Put(store, ExportKey(out.0.exportId), Document(Obj(job)))
            && Processing(job) && CompletionKeys <= job.Keys
  {
    var job := NewJob(exportId, body.value.fields, createdAt);
    assert CompletionKeys <= ForcedKeys;
  }

  /**
   * Completing a job that already carries the completion fields keeps its
   * key set: the timer changes four values and adds nothing.
   */
  lemma CompletionKeepsFields(job: Object, exportId: string, completedAt: string)
    requires Processing(job) && CompletionKeys <= job.Keys
    ensures var done := Complete(job, exportId, completedAt);
            && done.Keys == job.Keys && Completed(done)
            && forall k :: k in job && k !in CompletionKeys ==> done[k] == job[k]
  {
  }

  /**
   * The two-state lifecycle: a started export is stored processing; after the
   * timer it sits completed at the same key, every field other than the four
   * completion fields unchanged, and no other key of the store touched.
   */
  lemma ExportLifecycle(store: Store, body: Option<Value>, exportId: string, createdAt: string,
                        completedAt: string)
    requires StartExport(store, body, exportId, createdAt, true).0.Started?
    ensures var (resp, started) := StartExport(store, body, exportId, createdAt, true);
            var job := NewJob(exportId, body.value.fields, createdAt);
            var finished := FinishExport(started, job, exportId, completedAt, true);
            var key := ExportKey(resp.exportId);
            && key in started && started[key] == Document(Obj(job)) && Processing(job)
            && key in finished && finished[key] == Document(Obj(Complete(job, exportId, completedAt)))
            && Completed(Complete(job, exportId, completedAt))
            && Complete(job, exportId, completedAt).Keys == job.Keys
            && finished.Keys == store.Keys + {key}
            && (forall k :: k in store && k != key ==> finished[k] == store[k])
  {
    StartedJobIsProcessing(store, body, exportId, createdAt);
    CompletionKeepsFields(NewJob(exportId, body.value.fields, createdAt), exportId, completedAt);
  }

  /** The download address ignores the requested format. */
  lemma DownloadUrlIgnoresFormat(exportId: string, body1: Object, body2: Object, createdAt: string,
                                 completedAt: string)
    ensures Complete(NewJob(exportId, body1, createdAt), exportId, completedAt)["downloadUrl"]
         == Complete(NewJob(exportId, body2, createdAt), exportId, completedAt)["downloadUrl"]
  {
  }
}
