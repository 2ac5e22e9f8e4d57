/** The records the gallery shows. Videos and photos share `id`, `title` and
    `tags`; the filtering hook reads only those, so both are constructors of
    one datatype and `Video`/`Photo` are the subset types of each kind. */
module Media {

  datatype MediaItem =
    | VideoItem(id: string, thumbnailUrl: string, title: string, videoUrl: string,
                fileName: string, isPlaying: bool, tags: seq<string>)
    | PhotoItem(id: string, url: string, title: string, tags: seq<string>)

  type Video = m: MediaItem | m.VideoItem? witness VideoItem("", "", "", "", "", false, [])

  type Photo = m: MediaItem | m.PhotoItem? witness PhotoItem("", "", "", [])

  /** Which of the two lists the screen shows. */
  datatype MediaType = Videos | Photos
}

/** The storage bucket, as the values its SDK calls would return. A missing
    key stands for a call that rejects. */
module StorageService {
  import opened Wrappers

  /** The user-defined metadata of an object; either field may be absent. */
  datatype CustomMetadata = CustomMetadata(title: Option<string>, tags: Option<string>)

  /** What `getMetadata` resolves to: `customMetadata` may be absent. */
  datatype Metadata = Metadata(customMetadata: Option<CustomMetadata>)

  datatype Bucket = Bucket(
    listings: map<string, seq<string>>,  // `listAll(folder)`: item names, in listing order
    downloadUrls: map<string, string>,   // `getDownloadURL(path)`
    metadata: map<string, Metadata>      // `getMetadata(path)`
  )

  /** The full path of an item of a folder. */
  function PathOf(folder: string, name: string): string {
    folder + "/" + name
  }

  /** `customMetadata?.title` is present and not empty (JavaScript truthiness). */
  predicate HasCustomTitle(m: Metadata) {
    m.customMetadata.Some? && m.customMetadata.value.title.Some? && m.customMetadata.value.title.value != ""
  }

  /** `customMetadata?.tags` is present and not empty. */
  predicate HasCustomTags(m: Metadata) {
    m.customMetadata.Some? && m.customMetadata.value.tags.Some? && m.customMetadata.value.tags.value != ""
  }

  /** `customMetadata?.title || fallback`: the custom title when it is truthy,
      the fallback otherwise. */
  function TitleOr(m: Metadata, fallback: string): (r: string)
    ensures HasCustomTitle(m) ==> r == m.customMetadata.value.title.value && r != ""
    ensures !HasCustomTitle(m) ==> r == fallback
  {
    match m.customMetadata
    case Some(CustomMetadata(Some(t), _)) => if t != "" then t else fallback
    case _ => fallback
  }
}
