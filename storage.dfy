/** `useFirebaseStorage`: turns the bucket's `videos` and `photos` folders into
    `Video` and `Photo` records, keeps them in the session cache, and resolves
    a video's playable URL on demand. */
module FirebaseStorage {
  import opened Wrappers
  import opened Strings
  import opened Sequences
  import opened Media
  import opened StorageService

  const VideoFolder := "videos"
  const PhotoFolder := "photos"
  const VideoError := "Failed to load videos"
  const PhotoError := "Failed to load photos"

  // ---------------------------------------------------------------- tags

  /** A parsed tag: no comma, and no whitespace at either end. */
  predicate CleanTag(t: string) {
    ',' !in t && (t != [] ==> !IsWhitespace(t[0]) && !IsWhitespace(t[|t| - 1]))
  }

  /** `customMetadata?.tags ? tags.split(',').map(tag => tag.trim()) : []`. */
  function ParseTags(m: Metadata): (r: seq<string>)
    ensures !HasCustomTags(m) ==> r == []
    ensures HasCustomTags(m) ==>
      var pieces := Split(m.customMetadata.value.tags.value, ',');
      |r| == |pieces| && forall k :: 0 <= k < |r| ==> r[k] == Trim(pieces[k])
    ensures forall k :: 0 <= k < |r| ==> CleanTag(r[k])
  {
    if HasCustomTags(m) then TrimAll(Split(m.customMetadata.value.tags.value, ',')) else []
  }

  /** `pieces.map(tag => tag.trim())` over comma-free pieces. */
  function TrimAll(pieces: seq<string>): (r: seq<string>)
    requires forall k :: 0 <= k < |pieces| ==> ',' !in pieces[k]
    ensures |r| == |pieces| && forall k :: 0 <= k < |r| ==> r[k] == Trim(pieces[k])
    ensures forall k :: 0 <= k < |r| ==> CleanTag(r[k])
  {
    if pieces == [] then []
    else
      var head := Trim(pieces[0]);
      var rest := TrimAll(pieces[1..]);
      TrimWithin(pieces[0]);
      assert ',' !in head;
      [head] + rest
  }

  /** Trimming keeps only characters of the original. */
  lemma TrimWithin(s: string)
    ensures forall c :: c in Trim(s) ==> c in s
  {
    var r := Trim(s);
    var i := |s| - |TrimStart(s)|;
    forall c | c in r ensures c in s {
      var k :| 0 <= k < |r| && r[k] == c;
      assert s[i + k] == c;
    }
  }

  /** `"a, b"` gives the two tags `a` and `b` (the form of `"bitcoin, conference"`). */
  lemma {:induction false} TwoTags(m: Metadata, a: string, b: string)
    requires CleanTag(a) && CleanTag(b) && a != [] && b != []
    requires m.customMetadata.Some? && m.customMetadata.value.tags == Some(a + ", " + b)
    ensures ParseTags(m) == [a, b]
  {
    var second := [' '] + b;
    var parts := [a, second];
    assert ',' !in parts[1];
    assert Join(parts, ',') == a + [','] + second by { assert parts[1..] == [second]; }
    assert a + [','] + second == a + ", " + b;
    SplitJoin(parts, ',');
    TrimUnpadded(a);
    TrimUnpadded(b);
    var r := ParseTags(m);
    assert |r| == 2 && r[0] == a && r[1] == b;
  }

  /** A string with one leading space and none elsewhere at its ends trims to
      the rest. */
  lemma TrimUnpadded(t: string)
    requires t != [] && !IsWhitespace(t[0]) && !IsWhitespace(t[|t| - 1])
    ensures Trim(t) == t && Trim([' '] + t) == t
  {
    assert ([' '] + t)[1..] == t;
  }

  // ---------------------------------------------------------------- videos

  /** The thumbnail stored beside a video: its name with the first `.mp4`
      replaced by `.png`. */
  function ThumbnailName(name: string): (r: string)
    ensures !Includes(name, ".mp4") ==> r == name
    ensures Includes(name, ".mp4") ==> var i := IndexOf(name, ".mp4").value;
      i + 4 <= |name| && r == name[..i] + ".png" + name[i + 4..]
  {
    ReplaceFirstAt(name, ".mp4", ".png");
    ReplaceFirst(name, ".mp4", ".png")
  }

  /** The title used when the metadata has none: the name without its first `.mp4`. */
  function VideoFallbackTitle(name: string): (r: string)
    ensures !Includes(name, ".mp4") ==> r == name
    ensures Includes(name, ".mp4") ==> var i := IndexOf(name, ".mp4").value;
      i + 4 <= |name| && r == name[..i] + name[i + 4..]
  {
    ReplaceFirstAt(name, ".mp4", "");
    ReplaceFirst(name, ".mp4", "")
  }

  /** The record for one listed video, or `None` when its thumbnail URL or its
      metadata cannot be fetched. */
  function BuildVideo(name: string, bucket: Bucket): (r: Option<Video>)
    ensures r.Some? <==>
      PathOf(VideoFolder, ThumbnailName(name)) in bucket.downloadUrls && PathOf(VideoFolder, name) in bucket.metadata
    ensures r.Some? ==> r.value.id == name && r.value.fileName == name
    ensures r.Some? ==> r.value.videoUrl == "" && !r.value.isPlaying
    ensures r.Some? ==> r.value.thumbnailUrl == bucket.downloadUrls[PathOf(VideoFolder, ThumbnailName(name))]
    ensures r.Some? ==> var m := bucket.metadata[PathOf(VideoFolder, name)];
      r.value.title == TitleOr(m, VideoFallbackTitle(name)) && r.value.tags == ParseTags(m)
  {
    var thumbnailPath := PathOf(VideoFolder, ThumbnailName(name));
    var itemPath := PathOf(VideoFolder, name);
    if thumbnailPath in bucket.downloadUrls && itemPath in bucket.metadata then
      var m := bucket.metadata[itemPath];
      Some(VideoItem(name, bucket.downloadUrls[thumbnailPath], TitleOr(m, VideoFallbackTitle(name)), "", name, false, ParseTags(m)))
    else None
  }

  /** For `base + ".mp4"` with no other `.mp4` in it, the thumbnail is
      `base + ".png"` and, without a custom title, the title is `base`. */
  lemma VideoNaming(base: string, bucket: Bucket)
    requires forall j :: !OccursAt(base, ".mp4", j)
    ensures ThumbnailName(base + ".mp4") == base + ".png"
    ensures var name := base + ".mp4";
      BuildVideo(name, bucket).Some? && !HasCustomTitle(bucket.metadata[PathOf(VideoFolder, name)]) ==>
      BuildVideo(name, bucket).value.title == base
  {
    Mp4BorderFree();
    ReplaceSuffix(base, ".mp4", ".png");
    ReplaceSuffix(base, ".mp4", "");
    assert base + "" == base;
  }

  /** The names that end with `.mp4`, in listing order. */
  function Mp4Names(names: seq<string>): (r: seq<string>)
    ensures IsSubsequence(r, names)
    ensures forall x :: x in r <==> x in names && EndsWith(x, ".mp4")
  {
    if names == [] then []
    else
      var rest := Mp4Names(names[1..]);
      assert forall x :: x in names <==> x == names[0] || x in names[1..] by {
        assert names == [names[0]] + names[1..];
      }
      if EndsWith(names[0], ".mp4") then
        assert ([names[0]] + rest)[1..] == rest;
        [names[0]] + rest
      else rest
  }

  function FileNames(vs: seq<Video>): (r: seq<string>)
    ensures |r| == |vs| && forall k :: 0 <= k < |vs| ==> r[k] == vs[k].fileName
  {
    seq(|vs|, k requires 0 <= k < |vs| => vs[k].fileName)
  }

  /** The records built from a `videos` listing: `.mp4` entries only, each
      built with `BuildVideo`, the failed ones dropped. */
  function BuildVideos(names: seq<string>, bucket: Bucket): (r: seq<Video>)
    ensures |r| <= |names|
    ensures forall k :: 0 <= k < |r| ==> EndsWith(r[k].fileName, ".mp4") && BuildVideo(r[k].fileName, bucket) == Some(r[k])
  {
    if names == [] then []
    else
      var built := BuildVideo(names[0], bucket);
      if EndsWith(names[0], ".mp4") && built.Some? then [built.value] + BuildVideos(names[1..], bucket)
      else BuildVideos(names[1..], bucket)
  }

  /** The built videos keep listing order: their file names are a
      subsequence of the `.mp4` entries. */
  lemma {:induction false} BuildVideosInOrder(names: seq<string>, bucket: Bucket)
    ensures IsSubsequence(FileNames(BuildVideos(names, bucket)), Mp4Names(names))
  {
    if names != [] {
      BuildVideosInOrder(names[1..], bucket);
      var rest := BuildVideos(names[1..], bucket);
      var built := BuildVideo(names[0], bucket);
      if EndsWith(names[0], ".mp4") {
        assert Mp4Names(names) == [names[0]] + Mp4Names(names[1..]);
        if built.Some? {
          var r := [built.value] + rest;
          assert FileNames(r)[1..] == FileNames(rest);
        } else {
          SubsequenceOfTail(FileNames(rest), Mp4Names(names[1..]), Mp4Names(names));
        }
      } else {
        assert Mp4Names(names) == Mp4Names(names[1..]);
      }
    }
  }

  /** Every built video is the record `BuildVideo` makes for an `.mp4` name. */
  lemma {:induction false} BuildVideosSound(names: seq<string>, bucket: Bucket)
    ensures forall v :: v in BuildVideos(names, bucket) ==>
      EndsWith(v.fileName, ".mp4") && v.fileName in names && BuildVideo(v.fileName, bucket) == Some(v)
  {
    if names != [] {
      BuildVideosSound(names[1..], bucket);
      assert forall x :: x in names[1..] ==> x in names;
    }
  }

  /** No `.mp4` entry whose fetches succeed is dropped. */
  lemma {:induction false} BuildVideosComplete(names: seq<string>, bucket: Bucket)
    ensures forall name :: name in names && EndsWith(name, ".mp4") && BuildVideo(name, bucket).Some? ==>
      BuildVideo(name, bucket).value in BuildVideos(names, bucket)
  {
    if names != [] {
      BuildVideosComplete(names[1..], bucket);
      assert forall x :: x in names ==> x == names[0] || x in names[1..] by {
        assert names == [names[0]] + names[1..];
      }
    }
  }

  /** A subsequence of a tail is a subsequence of the whole. */
  lemma SubsequenceOfTail(a: seq<string>, t: seq<string>, s: seq<string>)
    requires IsSubsequence(a, t)
    requires s == t || (s != [] && s[1..] == t)
    ensures IsSubsequence(a, s)
  {
  }

  /** At most one video per `.mp4` entry. */
  lemma BuiltVideosBounded(names: seq<string>, bucket: Bucket)
    ensures |BuildVideos(names, bucket)| <= |Mp4Names(names)|
  {
    BuildVideosInOrder(names, bucket);
    SubsequenceLength(FileNames(BuildVideos(names, bucket)), Mp4Names(names));
  }

  // ---------------------------------------------------------------- photos

  const ImageExtensions: seq<string> := ["jpg", "jpeg", "png", "gif", "webp"]

  /** `name` matches `/\.ext$/i`: it ends with a dot and `ext`, ignoring case. */
  predicate EndsWithExtension(name: string, ext: string) {
    |name| >= |ext| + 1 && name[|name| - |ext| - 1] == '.' && Lower(name[|name| - |ext|..]) == ext
  }

  /** `name.replace(/\.(jpg|jpeg|png|gif|webp)$/i, '')`: the name without a
      trailing image extension, or the name itself when it has none. */
  function PhotoFallbackTitle(name: string): (r: string)
    ensures forall ext :: ext in ImageExtensions && EndsWithExtension(name, ext) ==> r == name[..|name| - |ext| - 1]
    ensures (forall ext :: ext in ImageExtensions ==> !EndsWithExtension(name, ext)) ==> r == name
  {
    ExtensionsExclusive(name);
    if EndsWithExtension(name, "jpg") then name[..|name| - 4]
    else if EndsWithExtension(name, "jpeg") then name[..|name| - 5]
    else if EndsWithExtension(name, "png") then name[..|name| - 4]
    else if EndsWithExtension(name, "gif") then name[..|name| - 4]
    else if EndsWithExtension(name, "webp") then name[..|name| - 5]
    else name
  }

  /** No name ends with two of the image extensions, so the order of the
      alternatives in the regular expression does not matter. */
  lemma ExtensionsExclusive(name: string)
    ensures forall e1, e2 ::
      (e1 in ImageExtensions && e2 in ImageExtensions && EndsWithExtension(name, e1) && EndsWithExtension(name, e2))
      ==> e1 == e2
  {
  }

  /** The record for one listed photo, or `None` when its URL or its metadata
      cannot be fetched. */
  function BuildPhoto(name: string, bucket: Bucket): (r: Option<Photo>)
    ensures r.Some? <==> PathOf(PhotoFolder, name) in bucket.downloadUrls && PathOf(PhotoFolder, name) in bucket.metadata
    ensures r.Some? ==> r.value.id == name && r.value.url == bucket.downloadUrls[PathOf(PhotoFolder, name)]
    ensures r.Some? ==> var m := bucket.metadata[PathOf(PhotoFolder, name)];
      r.value.title == TitleOr(m, PhotoFallbackTitle(name)) && r.value.tags == ParseTags(m)
  {
    var path := PathOf(PhotoFolder, name);
    if path in bucket.downloadUrls && path in bucket.metadata then
      var m := bucket.metadata[path];
      Some(PhotoItem(name, bucket.downloadUrls[path], TitleOr(m, PhotoFallbackTitle(name)), ParseTags(m)))
    else None
  }

  function PhotoIds(ps: seq<Photo>): (r: seq<string>)
    ensures |r| == |ps| && forall k :: 0 <= k < |ps| ==> r[k] == ps[k].id
  {
    seq(|ps|, k requires 0 <= k < |ps| => ps[k].id)
  }

  /** The records built from a `photos` listing: each entry built with
      `BuildPhoto`, the failed ones dropped. */
  function BuildPhotos(names: seq<string>, bucket: Bucket): (r: seq<Photo>)
    ensures |r| <= |names|
    ensures forall k :: 0 <= k < |r| ==> BuildPhoto(r[k].id, bucket) == Some(r[k])
  {
    if names == [] then []
    else
      var built := BuildPhoto(names[0], bucket);
      if built.Some? then [built.value] + BuildPhotos(names[1..], bucket)
      else BuildPhotos(names[1..], bucket)
  }

  /** The built photos keep listing order, at most one per entry. */
  lemma {:induction false} BuildPhotosInOrder(names: seq<string>, bucket: Bucket)
    ensures IsSubsequence(PhotoIds(BuildPhotos(names, bucket)), names)
    ensures |BuildPhotos(names, bucket)| <= |names|
  {
    if names != [] {
      BuildPhotosInOrder(names[1..], bucket);
      var rest := BuildPhotos(names[1..], bucket);
      var built := BuildPhoto(names[0], bucket);
      if built.Some? {
        assert PhotoIds([built.value] + rest)[1..] == PhotoIds(rest);
      } else {
        SubsequenceOfTail(PhotoIds(rest), names[1..], names);
      }
    }
  }

  /** Every built photo is the record `BuildPhoto` makes for a listed name. */
  lemma {:induction false} BuildPhotosSound(names: seq<string>, bucket: Bucket)
    ensures forall p :: p in BuildPhotos(names, bucket) ==> p.id in names && BuildPhoto(p.id, bucket) == Some(p)
  {
    if names != [] {
      BuildPhotosSound(names[1..], bucket);
      assert forall x :: x in names[1..] ==> x in names;
    }
  }

  /** No entry whose fetches succeed is dropped. */
  lemma {:induction false} BuildPhotosComplete(names: seq<string>, bucket: Bucket)
    ensures forall name :: name in names && BuildPhoto(name, bucket).Some? ==>
      BuildPhoto(name, bucket).value in BuildPhotos(names, bucket)
  {
    if names != [] {
      BuildPhotosComplete(names[1..], bucket);
      assert forall x :: x in names ==> x == names[0] || x in names[1..] by {
        assert names == [names[0]] + names[1..];
      }
    }
  }

  // ---------------------------------------------------------------- fetch outcomes

  /** What `fetchVideos` produces from the cache and the bucket: the cached
      list on a hit (the bucket is not consulted), the built list when the
      listing succeeds, and `None` when it fails. */
  function VideoOutcome(cache: Option<seq<Video>>, bucket: Bucket): (r: Option<seq<Video>>)
    ensures cache.Some? ==> r == cache
    ensures cache.None? ==> (r.None? <==> VideoFolder !in bucket.listings)
    ensures cache.None? && r.Some? ==> r.value == BuildVideos(bucket.listings[VideoFolder], bucket)
  {
    if cache.Some? then cache
    else if VideoFolder in bucket.listings then Some(BuildVideos(bucket.listings[VideoFolder], bucket))
    else None
  }

  /** What `fetchPhotos` produces, in the same way. */
  function PhotoOutcome(cache: Option<seq<Photo>>, bucket: Bucket): (r: Option<seq<Photo>>)
    ensures cache.Some? ==> r == cache
    ensures cache.None? ==> (r.None? <==> PhotoFolder !in bucket.listings)
    ensures cache.None? && r.Some? ==> r.value == BuildPhotos(bucket.listings[PhotoFolder], bucket)
  {
    if cache.Some? then cache
    else if PhotoFolder in bucket.listings then Some(BuildPhotos(bucket.listings[PhotoFolder], bucket))
    else None
  }

  // ---------------------------------------------------------------- video URLs

  /** The list after `loadVideoUrl(fileName)` resolved `url`: same length and
      order, `videoUrl` set on exactly the entries for `fileName`, all else kept. */
  function WithVideoUrl(vs: seq<Video>, fileName: string, url: string): (r: seq<Video>)
    ensures |r| == |vs|
    ensures forall k :: 0 <= k < |vs| ==> r[k] == vs[k].(videoUrl := r[k].videoUrl)
    ensures forall k :: 0 <= k < |vs| ==> r[k].videoUrl == if vs[k].fileName == fileName then url else vs[k].videoUrl
  {
    if vs == [] then []
    else
      var v := vs[0];
      var head: Video := if v.fileName == fileName then v.(videoUrl := url) else v;
      var rest := WithVideoUrl(vs[1..], fileName, url);
      assert forall k :: 1 <= k < |vs| ==> ([head] + rest)[k] == rest[k - 1] && vs[1..][k - 1] == vs[k];
      [head] + rest
  }

  /** Resolving the same file twice leaves the list as resolving it once. */
  lemma WithVideoUrlIdempotent(vs: seq<Video>, fileName: string, url: string)
    ensures WithVideoUrl(WithVideoUrl(vs, fileName, url), fileName, url) == WithVideoUrl(vs, fileName, url)
  {
    var once := WithVideoUrl(vs, fileName, url);
    var twice := WithVideoUrl(once, fileName, url);
    forall k | 0 <= k < |vs| ensures twice[k] == once[k] {
      assert once[k].fileName == vs[k].fileName;
    }
  }

  // ---------------------------------------------------------------- the hook

  /** The hook's state, and the session cache it reads and writes
      (`'saylorVideos'` and `'saylorPhotos'`; `None` is a missing entry). */
  class StorageHook {
    var videos: seq<Video>
    var photos: seq<Photo>
    var isLoading: bool
    var error: Option<string>
    var videoCache: Option<seq<Video>>
    var photoCache: Option<seq<Photo>>

    /** The initial render: empty lists, loading, no error. */
    constructor (videoCache: Option<seq<Video>>, photoCache: Option<seq<Photo>>)
      ensures videos == [] && photos == [] && isLoading && error == None
      ensures this.videoCache == videoCache && this.photoCache == photoCache
    {
      videos, photos := [], [];
      isLoading, error := true, None;
      this.videoCache, this.photoCache := videoCache, photoCache;
    }

    /** `fetchVideos`: a hit returns the cache unchanged; otherwise a listing
        that succeeds replaces the videos and the cache, and one that fails
        sets the error and returns `[]`. */
    method FetchVideos(bucket: Bucket) returns (result: seq<Video>)
      modifies this
      ensures var o := VideoOutcome(old(videoCache), bucket);
        && result == o.GetOr([])
        && videos == o.GetOr(old(videos))
        && videoCache == (if o.Some? then o else old(videoCache))
        && error == (if o.None? then Some(VideoError) else old(error))
      ensures photos == old(photos) && photoCache == old(photoCache) && isLoading == old(isLoading)
    {
      if videoCache.Some? {
        videos := videoCache.value;
        return videoCache.value;
      }
      if VideoFolder !in bucket.listings {
        error := Some(VideoError);
        return [];
      }
      var fetched := BuildVideos(bucket.listings[VideoFolder], bucket);
      videoCache := Some(fetched);
      videos := fetched;
      result := fetched;
    }

    /** `fetchPhotos`, likewise for the photo folder. */
    method FetchPhotos(bucket: Bucket) returns (result: seq<Photo>)
      modifies this
      ensures var o := PhotoOutcome(old(photoCache), bucket);
        && result == o.GetOr([])
        && photos == o.GetOr(old(photos))
        && photoCache == (if o.Some? then o else old(photoCache))
        && error == (if o.None? then Some(PhotoError) else old(error))
      ensures videos == old(videos) && videoCache == old(videoCache) && isLoading == old(isLoading)
    {
      if photoCache.Some? {
        photos := photoCache.value;
        return photoCache.value;
      }
      if PhotoFolder !in bucket.listings {
        error := Some(PhotoError);
        return [];
      }
      var fetched := BuildPhotos(bucket.listings[PhotoFolder], bucket);
      photoCache := Some(fetched);
      photos := fetched;
      result := fetched;
    }

    /** The mount effect: loading while both fetches run, not loading after. */
    method LoadContent(bucket: Bucket)
      modifies this
      ensures !isLoading
      ensures var vo := VideoOutcome(old(videoCache), bucket);
        && videos == vo.GetOr(old(videos))
        && videoCache == (if vo.Some? then vo else old(videoCache))
      ensures var po := PhotoOutcome(old(photoCache), bucket);
        && photos == po.GetOr(old(photos))
        && photoCache == (if po.Some? then po else old(photoCache))
      ensures error == if PhotoOutcome(old(photoCache), bucket).None? then Some(PhotoError)
                       else if VideoOutcome(old(videoCache), bucket).None? then Some(VideoError)
                       else old(error)
    {
      isLoading := true;
      var _ := FetchVideos(bucket);
      var _ := FetchPhotos(bucket);
      isLoading := false;
    }

    /** `loadVideoUrl(fileName)`: resolves `videos/<fileName>`; on success sets
        that URL on the matching videos, writes the new list to the cache and
        returns the URL; a failed resolution changes nothing. */
    method LoadVideoUrl(bucket: Bucket, fileName: string) returns (url: Option<string>)
      modifies this
      ensures var path := PathOf(VideoFolder, fileName);
        path !in bucket.downloadUrls ==> url == None && videos == old(videos) && videoCache == old(videoCache)
      ensures var path := PathOf(VideoFolder, fileName);
        path in bucket.downloadUrls ==>
          && url == Some(bucket.downloadUrls[path])
          && videos == WithVideoUrl(old(videos), fileName, bucket.downloadUrls[path])
          && videoCache == Some(videos)
      ensures photos == old(photos) && photoCache == old(photoCache)
      ensures isLoading == old(isLoading) && error == old(error)
    {
      var path := PathOf(VideoFolder, fileName);
      if path !in bucket.downloadUrls {
        return None;
      }
      var resolved := bucket.downloadUrls[path];
      var updated := WithVideoUrl(videos, fileName, resolved);
      videoCache := Some(updated);
      videos := updated;
      url := Some(resolved);
    }
  }
}
