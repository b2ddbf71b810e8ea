/**
 * The plain-text file editor's two routes: POST /api/editor/save writes the
 * content at `editor/<filename>`, and GET /api/editor/list shows every
 * listed object with a display name derived from its pathname.
 */
module EditorFiles {
  import opened Wrappers
  import opened Json
  import opened BlobStore

  const Prefix: string := "editor/"

  /** The destructured body; None is an absent (`undefined`) field. */
  datatype SaveBody = SaveBody(filename: Option<string>, content: Option<string>)

  datatype SaveResponse =
    | FieldsRequired                                     // 400 {error: "Filename and content are required"}
    | SavedFile(url: string, filename: string, size: nat) // 200 {url, filename, size, success: true}
    | SaveFailed                                         // 500 {error: "Save failed"}

  /** The bytes one character takes in UTF-8. */
  function Utf8Width(c: char): nat {
    if c as int < 0x80 then 1 else if c as int < 0x800 then 2 else if c as int < 0x10000 then 3 else 4
  }

  /** `new File([content]).size`: the UTF-8 length of the text. */
  function Utf8Size(s: string): (n: nat)
    ensures |s| <= n <= 4 * |s|
    ensures (forall i :: 0 <= i < |s| ==> s[i] as int < 0x80) ==> n == |s|
  {
    if s == [] then 0 else Utf8Width(s[0]) + Utf8Size(s[1..])
  }

  /**
   * POST /api/editor/save. `body` is None when `request.json()` throws or
   * yields `null`; `url` is what the put returns; `putOk` whether it completed.
   */
  function HandleSave(store: Store, body: Option<SaveBody>, url: string, putOk: bool): (out: (SaveResponse, Store))
    ensures out.0 == FieldsRequired <==> body.Some? && (Blank(body.value.filename) || body.value.content.None?)
    ensures out.0.SavedFile? <==> body.Some? && !Blank(body.value.filename) && body.value.content.Some? && putOk
    ensures !out.0.SavedFile? ==> out.1 == store
    // the content lands under the prefixed name, and the answer echoes the name
    ensures out.0.SavedFile? ==>
      && out.0.filename == body.value.filename.value
      && out.0.size == Utf8Size(body.value.content.value)
      && out.1 == Put(store, Prefix + out.0.filename, Text(body.value.content.value))
  {
    if body.None? then (SaveFailed, store)
    else if Blank(body.value.filename) || body.value.content.None? then (FieldsRequired, store)
    else if !putOk then (SaveFailed, store)
    else
      var name := body.value.filename.value;
      var content := body.value.content.value;
      (SavedFile(url, name, Utf8Size(content)), Put(store, Prefix + name, Text(content)))
  }

  /** `pat` occurs in `s` at position `i`. */
  predicate OccursAt(s: string, pat: string, i: nat) {
    i + |pat| <= |s| && s[i..i + |pat|] == pat
  }

  /** The first position where `pat` occurs in `s` (`String.prototype.indexOf`). */
  function IndexOf(s: string, pat: string): (r: Option<nat>)
    ensures r.Some? ==> OccursAt(s, pat, r.value)
    ensures r.Some? ==> forall j :: 0 <= j < r.value ==> !OccursAt(s, pat, j)
    ensures r.None? ==> forall j :: 0 <= j <= |s| ==> !OccursAt(s, pat, j)
  {
    if |s| < |pat| then None
    else if s[..|pat|] == pat then Some(0)
    else
      match IndexOf(s[1..], pat)
      case None =>
        assert forall j :: 1 <= j <= |s| ==> !OccursAt(s, pat, j) by {
          forall j | 1 <= j <= |s| { OccursShift(s, pat, j); }
        }
        None
      case Some(k) =>
        assert forall j :: 1 <= j < k + 1 ==> !OccursAt(s, pat, j) by {
          forall j | 1 <= j < k + 1 { OccursShift(s, pat, j); }
        }
        OccursShift(s, pat, k + 1);
        Some(k + 1)
  }

  /** An occurrence past the first character is an occurrence in the tail. */
  lemma OccursShift(s: string, pat: string, j: nat)
    requires 1 <= j && s != []
    ensures OccursAt(s, pat, j) <==> OccursAt(s[1..], pat, j - 1)
  {
    if j + |pat| <= |s| {
      var here := s[j..j + |pat|];
      var there := s[1..][j - 1..j - 1 + |pat|];
      assert |here| == |there|;
      forall k | 0 <= k < |pat| ensures here[k] == there[k] {
        assert here[k] == s[j + k];
        assert there[k] == s[1..][j - 1 + k];
      }
      assert here == there;
    }
  }

  /** `s.replace(pat, rep)` with a string pattern: only the first occurrence is replaced. */
  function ReplaceFirst(s: string, pat: string, rep: string): string {
    match IndexOf(s, pat)
    case None => s
    case Some(i) => s[..i] + rep + s[i + |pat|..]
  }

  /** `blob.pathname.replace("editor/", "") || "unknown"`. */
  function DisplayName(pathname: string): (name: string)
    ensures name != ""
    ensures pathname == "" ==> name == "unknown"
    // no occurrence of the prefix: the pathname itself, when non-empty
    ensures IndexOf(pathname, Prefix).None? && pathname != "" ==> name == pathname
    // one occurrence removed, and only the first
    ensures IndexOf(pathname, Prefix).Some? ==>
      var i := IndexOf(pathname, Prefix).value;
      var rest := pathname[..i] + pathname[i + |Prefix|..];
      name == (if rest == "" then "unknown" else rest)
  {
    var stripped := ReplaceFirst(pathname, Prefix, "");
    if stripped == "" then "unknown" else stripped
  }

  /** One object as `list()` reports it. */
  datatype ListedBlob = ListedBlob(pathname: string, url: string, size: nat, uploadedAt: string)

  /** `{...blob, filename}`. */
  datatype EditorEntry = EditorEntry(blob: ListedBlob, filename: string)

  datatype ListResponse = Files(files: seq<EditorEntry>) | ListFailed

  /** The display names of a listing, one per object and in order. */
  function Entries(blobs: seq<ListedBlob>): (es: seq<EditorEntry>)
    ensures |es| == |blobs|
    ensures forall i :: 0 <= i < |blobs| ==> es[i].blob == blobs[i] && es[i].filename != ""
    ensures forall i :: 0 <= i < |blobs| ==> es[i].filename == DisplayName(blobs[i].pathname)
  {
    if blobs == [] then [] else [EditorEntry(blobs[0], DisplayName(blobs[0].pathname))] + Entries(blobs[1..])
  }

  /** GET /api/editor/list; `blobs` is None when `list()` throws. */
  function HandleList(blobs: Option<seq<ListedBlob>>): (r: ListResponse)
    ensures r.ListFailed? <==> blobs.None?
    ensures r.Files? ==> |r.files| == |blobs.value|
    ensures r.Files? ==> forall i :: 0 <= i < |r.files| ==>
      r.files[i].blob == blobs.value[i] && r.files[i].filename == DisplayName(blobs.value[i].pathname)
  {
    if blobs.None? then ListFailed else Files(Entries(blobs.value))
  }

  /** A non-empty name saved under the prefix is listed under that same name. */
  lemma NameRoundTrip(filename: string)
    requires filename != ""
    ensures DisplayName(Prefix + filename) == filename
  {
    assert OccursAt(Prefix + filename, Prefix, 0);
    assert (Prefix + filename)[|Prefix|..] == filename;
  }

  /** The bare prefix has an empty remainder and is shown as "unknown". */
  lemma BarePrefixIsUnknown()
    ensures DisplayName(Prefix) == "unknown"
  {
    assert OccursAt(Prefix, Prefix, 0);
  }
}
