# Account, video and editor routes: a Dafny model

This project models the small pieces of pure, sequential logic under a
marketing site and video-editor demo. It is written in Next.js route handlers
and one React timeline component, and the model covers:

- **Signup credential store** (`Signup`). The handler checks the fields and
  loads the user list. A missing or unparsable data file counts as an empty
  list. It then rejects an email already present up to case, appends one
  record that holds a password hash, rewrites the file and posts a webhook
  notice. The handler is a function from (data file, request) to (response,
  new data file, notice sent). It keeps the store invariant that emails are
  pairwise distinct after lowercasing.
- **Upload** (`Upload`). The ordered validation chain (file, user id, MIME
  prefix, 100 MiB cap, inclusive), the media path built from its parts, and
  the metadata record.
- **Per-user listings** (`Listing`). The video list and the export list keep
  the readable records whose `userId` matches. They skip records whose
  fetch or parse throws, and sort newest first with an insertion sort. The
  output is proved to be a permutation of the owned records.
- **Export jobs and saved edits** (`ExportJob`, `SaveEdit`). Records are
  built by object spread, modelled as map override where the rightmost key
  wins. The export job has two states: processing, then completed at the
  same key.
- **Editor files** (`EditorFiles`). Save writes to `editor/` + name. List
  removes the first `editor/` from each pathname and falls back to
  `"unknown"`. The two give a name round-trip.
- **Timeline editor helpers** (`Timeline`):
  - the sorted, duplicate-free cut list;
  - seek clamping;
  - adding, updating and removing text overlays by id;
  - overlay visibility;
  - `formatTime`;
  - the named colour filters.
- **Cross-route properties** (`Flows`). What one route writes is what another
  lists.

Supporting modules: `Wrappers` (Option), `Json` (JSON values,
JavaScript truthiness, property access, spread), `Decimal` (integer
rendering and parsing), `Sequences` (filter, insertion sort),
`BlobStore` (the object store as a map from key to object).

Bcrypt, `randomUUID`, `Date.now()`/`new Date().toISOString()`, ISO-date
parsing, the blob store's `put`/`list`, `fetch` and the file system are not
interpreted. Each handler takes their results as parameters: the hash, the
fresh id, the clock text, a `parseIso` function, whether each write or call
completed, and the fetched listing. Times in the editor are exact reals.

Behaviour of the signup route that a reader might not expect, all of it
modelled as written:
- Success answers 200 with the new user id.
- A duplicate email answers 400 and names the existing account's username.
- The webhook call happens after the data file is written. When it throws,
  the answer is 500 although the account already exists.
- A missing or corrupt data file reads as an empty list, so the next signup
  replaces its contents with one record.

## Model

| member | source | states |
|---|---|---|
| Signup.HandleSignup | app/api/auth/signup/route.ts:12-77 | A missing field gives 400 with nothing written or sent. A duplicate email up to case gives 400 naming the matching account's username. Past both checks, the file changes exactly when the write completes, and only by appending one `{userId, email, username, passwordHash}` record to the loaded list. The notice is sent exactly when the file was written. The answer is a success, carrying the fresh id, exactly when the write and the webhook call both complete. |
| Signup.FindByEmail | app/api/auth/signup/route.ts:30 | Returns the first index whose email equals the query after lowercasing both, or none exactly when no stored email matches. |
| Signup.SignupPreservesUniqueness | app/api/auth/signup/route.ts:30-47 | If the stored emails are pairwise distinct after lowercasing, they still are after any signup, whatever its outcome. |
| Signup.SecondSignupRejected | app/api/auth/signup/route.ts:30-39 | Once a signup has written its record, a second signup with any case variant of that email is rejected with the first account's username. |
| Signup.WebhookFailureAfterWrite | app/api/auth/signup/route.ts:43-76 | When the webhook call throws after the write, the response is 500 and the new record is already in the file. |
| Signup.RequestWithoutPasswordRejected | app/api/auth/signup/route.ts:16-18 | A body without a password (what the signup form sends) is always 400 "missing fields", and the file is untouched. |
| Signup.UnreadableFileIsEmptyList | app/api/auth/signup/route.ts:21-27 | A missing or unparsable file gives the same response and notice as an empty user list. When a record is written, the old contents are replaced by that one record. |
| Signup.NoticeFor | app/api/auth/signup/route.ts:58-62 | The webhook notice has exactly three fields, in order: Username with the username, Email with the email, UserID with the user id. It has no password or hash field. |
| Upload.Validate | app/api/video/upload/route.ts:10-26 | Returns the first failing check in the route's order: no file, then blank user id, then a MIME type that does not start with `video/`, then size above 100 MiB. Returns none exactly when all four pass. |
| Upload.SizeCapInclusive | app/api/video/upload/route.ts:24-26 | A file of exactly 100·1024·1024 bytes is accepted, and one byte more is rejected as too large. |
| Upload.MissingFileReportedFirst | app/api/video/upload/route.ts:10-16 | A missing file is reported whether or not the user id is present. |
| Upload.VideoPath | app/api/video/upload/route.ts:28-30 | The media key starts with `videos/<userId>/` and ends with the file's name. In between are the decimal clock reading and a dash. |
| Upload.VideoPathInjective | app/api/video/upload/route.ts:28-30 | When user ids contain no `/`, the media key determines the user id, the timestamp and the file name. |
| Upload.Metadata | app/api/video/upload/route.ts:35-44 | The metadata has exactly eight fields. It copies user id, original name, size and MIME type, carries the id, URL and upload date, and has a null duration. |
| Upload.StoreUpload | app/api/video/upload/route.ts:28-48 | The store gains the media path and the metadata key. The metadata key holds the metadata record. The media path holds the file unless the two keys coincide. No other key changes. |
| Upload.HandleUpload | app/api/video/upload/route.ts:4-59 | A rejected form writes nothing and reports the first failing check. A failing media put gives 500 and stores nothing. A failing metadata put gives 500 and leaves the media stored. On success the media and the metadata are stored at their two keys and no other key changes, and the answer carries the metadata record. |
| Decimal.NatToString | app/api/video/upload/route.ts:28 | A number renders as a non-empty digit string with no leading zero. It has one digit exactly when the number is below 10. |
| Listing.Owned | app/api/video/list/route.ts:19-30 | The owned records are exactly the readable records whose `userId` equals the query, and there are never more of them than listed objects. |
| Listing.OwnedCounts | app/api/video/list/route.ts:19-30 | Each owned record appears as many times as the listing holds it, and nothing else appears. |
| Listing.ByNewestIsTotalPreorder | app/api/video/list/route.ts:33 | The newest-first date comparator, with records lacking a valid date last, is total and transitive, so it is a valid sort order. |
| Listing.ListForUser | app/api/video/list/route.ts:9-33 | A blank user id gives 400. A failing `list()` gives 500. Otherwise the result is a permutation of the owned records, contains exactly them, and is sorted newest first. |
| Listing.VideoList | app/api/video/list/route.ts:4-40 | The video list gives 400 on a blank user id. It returns exactly the owned metadata records, as a permutation, sorted by `uploadDate` newest first. |
| Listing.ExportsList | app/api/video/exports/route.ts:4-41 | The export list gives 400 on a blank user id. It returns exactly the owned export jobs, as a permutation, sorted by `createdAt` newest first. |
| Listing.UnreadableSkipped | app/api/video/list/route.ts:19-30 | A record whose fetch or parse fails is dropped, and the listing equals the one the remaining records alone give. |
| Sequences.Sort | app/api/video/list/route.ts:33 | The sort returns a permutation of its input, sorted under any total preorder. |
| Sequences.Filter | components/video-timeline-editor.tsx:177 | Filtering keeps exactly the elements that pass and never lengthens the sequence. |
| Sequences.FilterCounts | components/video-timeline-editor.tsx:177 | Every element that passes keeps its multiplicity, and every element that fails occurs zero times. |
| Sequences.FilterKeepsSorted | components/video-timeline-editor.tsx:177 | Filtering a sequence sorted under an ordering leaves it sorted under that ordering. |
| Sequences.FilterAppend | components/video-timeline-editor.tsx:199 | Filtering distributes over concatenation, so the kept elements stay in their original order. |
| Json.Spread | app/api/video/export/route.ts:14-16 | Object spread has the keys of both sides. The right-hand value wins on shared keys, and left-only keys keep their values. |
| Json.RequireField | app/api/video/export/route.ts:6-10 | An unreadable or `null` body throws. The guard passes exactly when the body is an object with a truthy value at the key. |
| ExportJob.Settings | app/api/video/export/route.ts:22-26 | Each of format, quality and resolution comes from the body when truthy, and is otherwise mp4, high and 1080p. All three are truthy. |
| ExportJob.NewJob | app/api/video/export/route.ts:14-27 | The forced fields override the client's values: status processing, progress 0, the given createdAt, null completedAt and downloadUrl, and the derived settings. A client `id` replaces the generated one. Every other client field is kept. |
| ExportJob.Complete | app/api/video/export/route.ts:37-43 | Completion sets status completed and progress 100, and sets completedAt and the `.mp4` download URL built from the export id. Every other field is unchanged. The only keys it can add are the four completion fields. |
| ExportJob.StartExport | app/api/video/export/route.ts:4-32 | A body without a truthy videoId gives 400 and nothing is stored. On success the job is stored under `exports/<exportId>.json` and the response returns that same exportId. |
| ExportJob.FinishExport | app/api/video/export/route.ts:35-51 | After the timer's write, the job's key holds a completed job: completedAt and the download URL are set and every other field of the job is kept. No other key changes. A failing write changes nothing. |
| ExportJob.StartedJobIsProcessing | app/api/video/export/route.ts:14-32 | A started export stores a job at the key named by the returned id. The job is processing and already has all four completion fields. |
| ExportJob.CompletionKeepsFields | app/api/video/export/route.ts:37-43 | Completing a stored job adds no key and leaves it completed. Every field other than the four completion fields keeps its value. |
| ExportJob.ExportLifecycle | app/api/video/export/route.ts:30-47 | A started job is stored as processing. After completion the same key holds a completed job with the same keys, and all fields except the four completion fields are unchanged. No other store key changes. |
| ExportJob.DownloadUrlIgnoresFormat | app/api/video/export/route.ts:42 | The completed job's download URL is the same whatever the request body, including its format. |
| SaveEdit.EditRecord | app/api/video/save-edit/route.ts:13-17 | The record has `id`, `savedAt` and the body's keys. A client `id` overrides the generated one, a client `savedAt` is overridden, and every other client field is kept. |
| SaveEdit.HandleSaveEdit | app/api/video/save-edit/route.ts:4-32 | A body without a truthy videoId gives 400 and nothing is stored. On success the edit record is stored under `video-edits/<editId>.json` and the response returns that same editId. |
| EditorFiles.HandleSave | app/api/editor/save/route.ts:4-30 | A blank filename or absent content gives 400, while empty content is accepted. On success the content is stored at `editor/` + filename, and the answer echoes the filename and the content's UTF-8 size. |
| EditorFiles.Utf8Size | app/api/editor/save/route.ts:13 | The stored file's size is between one and four bytes per character, and equals the length for ASCII text. |
| EditorFiles.IndexOf | app/api/editor/list/route.ts:12 | Returns the first position where the pattern occurs, or none exactly when it occurs nowhere. |
| EditorFiles.DisplayName | app/api/editor/list/route.ts:12 | The display name is never empty. Only the first occurrence of `editor/` is removed, and an empty remainder, or an empty pathname, becomes "unknown". |
| EditorFiles.Entries | app/api/editor/list/route.ts:10-13 | There is one entry per listed object, in order, carrying the object and its display name. |
| EditorFiles.HandleList | app/api/editor/list/route.ts:4-20 | A failing `list()` gives 500. Otherwise the answer has one entry per object, in order, each with its display name. |
| EditorFiles.NameRoundTrip | app/api/editor/list/route.ts:12 | A non-empty name saved at `editor/` + name is listed as that name. |
| EditorFiles.BarePrefixIsUnknown | app/api/editor/list/route.ts:12 | A pathname equal to `editor/` is listed as "unknown". |
| Flows.UploadedVideoIsListed | app/api/video/list/route.ts:19-26 | An uploaded video's metadata, once read back, appears in its owner's video list. |
| Flows.ExportJobOwnership | app/api/video/exports/route.ts:19-27 | An export job is in a user's export list exactly when the client sent that userId. Completion does not change this. |
| Flows.SavedFileListedUnderItsName | app/api/editor/save/route.ts:16 | A saved file's key is in the store, and listing that key shows the name it was saved under. |
| Timeline.AddCut | components/video-timeline-editor.tsx:170-174 | Adding a time already present is a no-op. Otherwise the result holds the old cuts plus the new time, sorted ascending. |
| Timeline.AddCutKeepsInvariant | components/video-timeline-editor.tsx:170-174 | Adding a cut keeps the cut list strictly increasing, so sorted and duplicate-free. |
| Timeline.RemoveCut | components/video-timeline-editor.tsx:176-178 | Removing a cut drops that value, and every other cut keeps its multiplicity. |
| Timeline.RemoveCutKeepsInvariant | components/video-timeline-editor.tsx:176-178 | Removing a cut keeps the cut list strictly increasing. |
| Timeline.RemoveUndoesAddCut | components/video-timeline-editor.tsx:170-178 | Removing a cut just added to a valid cut list restores the previous list. |
| Timeline.ClickSeek | components/video-timeline-editor.tsx:159-168 | A click does nothing while the duration is 0. Otherwise a click inside [0, duration] is used as is, a click before 0 seeks to 0, and a click past the end seeks to the duration. |
| Timeline.SkipBack | components/video-timeline-editor.tsx:293 | The back button moves ten seconds earlier. When that would go below 0, it stops at 0. |
| Timeline.SkipForward | components/video-timeline-editor.tsx:300 | The forward button moves ten seconds later. When that would pass the duration, it stops at the duration. |
| Timeline.SkipsStayInRange | components/video-timeline-editor.tsx:293-300 | Both skips keep a position that is in [0, duration] inside that range. |
| Timeline.NewOverlay | components/video-timeline-editor.tsx:181-190 | The new overlay reads "Sample Text" in white, size 24, at (50, 100). It starts at the playhead and ends at the playhead plus 5 s or at the duration, whichever is earlier, and never before it starts when the playhead is inside the video. |
| Timeline.AddTextOverlay | components/video-timeline-editor.tsx:180-192 | Adding appends exactly one overlay after the unchanged existing ones. |
| Timeline.UpdateTextOverlay | components/video-timeline-editor.tsx:194-196 | Length and order are preserved. Overlays with the id get the patch, and all others are unchanged. |
| Timeline.PatchIdempotent | components/video-timeline-editor.tsx:195 | Applying the same partial update twice is the same as applying it once. |
| Timeline.RemoveTextOverlay | components/video-timeline-editor.tsx:198-200 | No overlay with the id remains, and every overlay with another id is still there. |
| Timeline.RemoveTextOverlayCounts | components/video-timeline-editor.tsx:198-200 | Every overlay with another id keeps its multiplicity. |
| Timeline.RemoveUndoesAddTextOverlay | components/video-timeline-editor.tsx:180-200 | Removing an overlay just added under a fresh id restores the previous list. |
| Timeline.RemoveAfterUpdate | components/video-timeline-editor.tsx:194-200 | An update that does not change the id leaves no trace once that id is removed. |
| Timeline.VisibleOverlays | components/video-timeline-editor.tsx:114-115 | An overlay passes the drawing test exactly when startTime ≤ currentTime ≤ endTime, both ends inclusive. |
| Timeline.NewOverlayVisibleAtPlayhead | components/video-timeline-editor.tsx:114-115 | An overlay added at a playhead inside the video passes the drawing test at that playhead. |
| Timeline.FormatTimeFields | components/video-timeline-editor.tsx:202-206 | For t ≥ 0 the display is floor(t/60), a colon, and the remaining whole seconds as two digits in 00..59. |
| Timeline.FormatTimeRoundTrip | components/video-timeline-editor.tsx:202-206 | For t ≥ 0 the display reads back as floor(t) seconds. |
| Timeline.FilterEffect | components/video-timeline-editor.tsx:123-140 | A filter's CSS is non-empty exactly for the six named filters. |
| Timeline.SelectedFilterSuffix | components/video-timeline-editor.tsx:107 | The frame's filter string gets a suffix only for one of the six named filters. It gets none for "none" or any other name. |

## Left out

- Opaque primitives are parameters: bcrypt, `randomUUID`, `Date.now()`, `new Date().toISOString()`, ISO-date parsing, `fetch`, the file system and the blob store's `put`/`list`. Each `put`, write or webhook call is modelled only as succeeding or throwing.
- Signup.Lower: lowercases only ASCII letters. JavaScript's `toLowerCase` applies full Unicode case mapping.
- Signup.HandleSignup: request fields that are truthy non-strings are not modelled. The route would store or stringify them, or throw on `toLowerCase`.
- Signup.HandleSignup: a data file that parses to something other than an array of records with string emails is not modelled. The route throws and answers 500.
- Signup.HandleSignup: a partial write is not modelled. A failing write leaves the file as it was.
- Concurrent signups: the read-modify-write race between two signups is out of scope. Signups are modelled one at a time.
- Webhook embed decoration (title, colour, footer, timestamp) is constant and not modelled. Only its fields are.
- Upload.HandleUpload: a `video` form field holding a string instead of a file is not modelled. The route throws on `file.type.startsWith` and answers 500.
- Listing.ListForUser: when a matching record's date is absent or unparsable, the JavaScript comparator returns NaN. The resulting order is implementation-defined. The model sorts those records last.
- Listing.Timestamp: the date range check of `new Date` (±8.64e15 ms) is not modelled. Arrays are treated as invalid dates, although a one-element array of a date string would parse.
- Blob listing pagination: `list()` returns at most one page of objects. The model lists whatever sequence `list()` returned.
- Export timer: the 10-second `setTimeout` is concurrent with other requests. Only the completion transition and its write are modelled.
- The export status route is a fetch proxy and is not modelled.
- EditorFiles.HandleSave: non-string filenames or contents are not modelled. For example, `null` content is accepted and stored as the text "null".
- EditorFiles.NameRoundTrip: assumes the store keeps the pathname exactly as given, with no random suffix added by `put`.
- Timeline.ClickSeek: the click time comes from DOM geometry (`clientX`, the bounding rectangle) and is a parameter. A NaN or infinite duration is not modelled.
- Timeline.FormatTimeFields: the digit-and-range property is proved only for t ≥ 0. `FormatTime` also models negative times, using JavaScript's truncating `%`.
- Decimal.NatToString: JavaScript's exponent notation for numbers of 1e21 or more is not modelled.
- IEEE-754 rounding is not modelled. Times and JSON numbers are exact reals.
- Timeline.VisibleOverlays: only the test at lines 114-115 is modelled, not whether anything appears on screen. The `timeupdate` listener that calls `applyVideoEffects` is registered once (lines 59-88), so it sees the first render's overlay list, which is empty. The canvas is also hidden (`display: "none"`, line 285).
- Sequences.Sort: stability is not proved. JavaScript's `Array.prototype.sort` is stable, so records with equal dates keep their listing order there; the model promises only a sorted permutation.
- Canvas and DOM work is not modelled: `applyVideoEffects`, the CSS filter string apart from its named-filter suffix, event listeners, and the slider bounds, which the Slider component enforces.
- `handleSave`/`handleExport` in the timeline are plain object literals passed to callbacks. They are not modelled.
- The signup form, upload form, export dialog, code editor, contact form, marketing pages and the contact/editor-load routes are UI or forwarding glue and are not modelled.
