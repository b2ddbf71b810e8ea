/**
 * Properties that span two routes: what one route writes is what another
 * route lists.
 */
module Flows {
  import opened Wrappers
  import opened Json
  import opened BlobStore
  import Upload
  import Listing
  import ExportJob
  import EditorFiles

  /** A video's metadata, once uploaded and read back, appears in its owner's video list. */
  lemma UploadedVideoIsListed(store: Store, form: Upload.UploadForm, now: nat, id: string, url: string,
                              uploadDate: string, blobs: seq<Listing.Fetched>,
                              parseIso: string -> Option<int>)
    requires Upload.HandleUpload(store, Some(form), now, id, url, uploadDate, true, true).0.Uploaded?
    requires Some(Obj(Upload.HandleUpload(store, Some(form), now, id, url, uploadDate, true, true).0.video)) in blobs
    ensures var listed := Listing.VideoList(form.userId, Some(blobs), parseIso);
            && listed.Listed?
            && Obj(Upload.HandleUpload(store, Some(form), now, id, url, uploadDate, true, true).0.video) in listed.items
  {
    var meta := Upload.HandleUpload(store, Some(form), now, id, url, uploadDate, true, true).0.video;
    assert Listing.OwnedBy(Obj(meta), form.userId.value);
  }

  /**
   * An export job shows up in a user's export list exactly when the client
   * sent that `userId`, before and after completion alike.
   */
  lemma ExportJobOwnership(exportId: string, body: Object, createdAt: string, completedAt: string,
                           userId: string)
    ensures var job := ExportJob.NewJob(exportId, body, createdAt);
            && (Listing.OwnedBy(Obj(job), userId) <==> "userId" in body && body["userId"] == Str(userId))
            && (Listing.OwnedBy(Obj(ExportJob.Complete(job, exportId, completedAt)), userId)
                <==> Listing.OwnedBy(Obj(job), userId))
  {
    var job := ExportJob.NewJob(exportId, body, createdAt);
    UserIdNotForced();
    assert "userId" in job <==> "userId" in body;
    assert "userId" in body ==> job["userId"] == body["userId"];
    var done := ExportJob.Complete(job, exportId, completedAt);
    assert "userId" in done <==> "userId" in job;
    assert "userId" in job ==> done["userId"] == job["userId"];
  }

  /** The owner field is none of the fields the export route sets itself. */
  lemma UserIdNotForced()
    ensures "userId" != "id" && "userId" !in ExportJob.ForcedKeys && "userId" !in ExportJob.CompletionKeys
  {
    assert "userId"[0] != "status"[0];
    assert |"userId"| != |"progress"| && |"userId"| != |"createdAt"| && |"userId"| != |"completedAt"|;
    assert |"userId"| != |"downloadUrl"| && |"userId"| != |"exportSettings"|;
  }

  /** A file saved by the editor is listed under the name it was saved with. */
  lemma SavedFileListedUnderItsName(store: Store, body: EditorFiles.SaveBody, url: string, rest: seq<EditorFiles.ListedBlob>,
                                    blobUrl: string, uploadedAt: string)
    requires EditorFiles.HandleSave(store, Some(body), url, true).0.SavedFile?
    ensures var saved := EditorFiles.HandleSave(store, Some(body), url, true);
            var key := EditorFiles.Prefix + saved.0.filename;
            key in saved.1
            && var listed := EditorFiles.HandleList(Some([EditorFiles.ListedBlob(key, blobUrl, saved.0.size, uploadedAt)] + rest));
            listed.Files? && listed.files[0].filename == saved.0.filename
  {
    var saved := EditorFiles.HandleSave(store, Some(body), url, true);
    EditorFiles.NameRoundTrip(saved.0.filename);
  }
}
