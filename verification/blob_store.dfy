/**
 * The hosted object store behind every route: `put(key, body)` overwrites
 * the object at `key`. The store is a finite map from keys to objects.
 */
module BlobStore {
  import opened Json

  /** An uploaded media file as the multipart form delivers it. */
  datatype File = File(name: string, mime: string, size: nat)

  /** The objects the routes write: media, JSON documents and plain text. */
  datatype Blob = Media(file: File) | Document(json: Value) | Text(content: string)

  type Store = map<string, Blob>

  /** `put(key, body)`: the key now holds `body`, every other key is unchanged. */
  function Put(s: Store, key: string, b: Blob): (s': Store)
    ensures s'.Keys == s.Keys + {key}
    ensures s'[key] == b
    ensures forall k :: k in s && k != key ==> s'[k] == s[k]
  {
    s[key := b]
  }
}
