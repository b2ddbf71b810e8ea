/**
 * POST /api/video/save-edit: `{id: editId, ...body, savedAt}` stored at
 * `video-edits/<editId>.json`, answering with that same `editId`.
 */
module SaveEdit {
  import opened Wrappers
  import opened Json
  import opened BlobStore

  datatype Response =
    | VideoIdRequired        // 400 {error: "Video ID required"}
    | Saved(editId: string)  // 200 {success: true, editId, message}
    | SaveFailed             // 500 {error: "Failed to save edit"}

  function EditKey(editId: string): string {
    "video-edits/" + editId + ".json"
  }

  /** `{id: editId, ...body, savedAt}`: a client `id` wins, a client `savedAt` loses. */
  function EditRecord(editId: string, body: Object, savedAt: string): (rec: Object)
    ensures rec.Keys == {"id", "savedAt"} + body.Keys
    ensures rec["savedAt"] == Str(savedAt)
    ensures rec["id"] == (if "id" in body then body["id"] else Str(editId))
    ensures forall k :: k in body && k != "savedAt" ==> rec[k] == body[k]
  {
    Spread(Spread(map["id" := Str(editId)], body), map["savedAt" := Str(savedAt)])
  }

  /** The route. `editId` is the fresh UUID, `savedAt` the clock's ISO text, `putOk` whether the put completed. */
  function HandleSaveEdit(store: Store, body: Option<Value>, editId: string, savedAt: string,
                          putOk: bool): (out: (Response, Store))
    ensures out.0 == VideoIdRequired <==> RequireField(body, "videoId").FieldMissing?
    ensures out.0.Saved? <==> RequireField(body, "videoId").Present? && putOk
    ensures !out.0.Saved? ==> out.1 == store
    // the id returned is the one in the key, and the record is the spread merge
    ensures out.0.Saved? ==>
      && out.0.editId == editId
      && out.1 == Put(store, EditKey(editId), Document(Obj(EditRecord(editId, body.value.fields, savedAt))))
  {
    match RequireField(body, "videoId")
    case ReadThrows => (SaveFailed, store)
    case FieldMissing => (VideoIdRequired, store)
    case Present(obj) =>
      if !putOk then (SaveFailed, store)
      else (Saved(editId), Put(store, EditKey(editId), Document(Obj(EditRecord(editId, obj, savedAt)))))
  }
}
