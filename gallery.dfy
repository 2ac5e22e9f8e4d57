/** The legacy gallery screen (`App`): a list of `{ url, title }` entries read
    from the bucket's `videos` folder or the session cache, a per-video
    playing flag, and the index of the one enlarged video (-1 for none). */
module Gallery {
  import opened Wrappers
  import opened StorageService

  /** One entry of the screen's list: `{ url, title }`. */
  datatype Entry = Entry(url: string, title: string)

  const VideoFolder := "videos"
  const Untitled := "Untitled"

  // ---------------------------------------------------------------- fetching

  /** Both per-item fetches (`getDownloadURL`, `getMetadata`) succeed. */
  predicate Resolvable(name: string, bucket: Bucket) {
    PathOf(VideoFolder, name) in bucket.downloadUrls && PathOf(VideoFolder, name) in bucket.metadata
  }

  /** The entry pushed for a listed item: its URL, and its custom title or `'Untitled'`. */
  function FetchedEntry(name: string, bucket: Bucket): Entry
    requires Resolvable(name, bucket)
  {
    var path := PathOf(VideoFolder, name);
    Entry(bucket.downloadUrls[path], TitleOr(bucket.metadata[path], Untitled))
  }

  /** The list the fetch loop builds from a listing: `None` when some fetch
      rejects (the loop is abandoned and nothing is stored), otherwise one
      entry per listed item, in listing order. */
  function FetchedList(names: seq<string>, bucket: Bucket): (r: Option<seq<Entry>>)
    ensures r.Some? <==> forall k :: 0 <= k < |names| ==> Resolvable(names[k], bucket)
    ensures r.Some? ==> |r.value| == |names|
    ensures r.Some? ==>
      forall k :: 0 <= k < |names| ==> Resolvable(names[k], bucket) && r.value[k] == FetchedEntry(names[k], bucket)
  {
    if forall k :: 0 <= k < |names| ==> Resolvable(names[k], bucket)
    then Some(seq(|names|, k requires 0 <= k < |names| && Resolvable(names[k], bucket) => FetchedEntry(names[k], bucket)))
    else None
  }

  /** Every fetched title is the custom one when it is truthy and `'Untitled'`
      otherwise, so no fetched title is empty. */
  lemma FetchedTitles(names: seq<string>, bucket: Bucket)
    requires FetchedList(names, bucket).Some?
    ensures var list := FetchedList(names, bucket).value;
      forall k :: 0 <= k < |list| ==>
        var m := bucket.metadata[PathOf(VideoFolder, names[k])];
        && list[k].title != ""
        && (HasCustomTitle(m) ==> list[k].title == m.customMetadata.value.title.value)
        && (!HasCustomTitle(m) ==> list[k].title == Untitled)
  {
  }

  /** The `for ... of` loop over the listing: fetch the URL and metadata of
      each item and push `{ url, title }`; a rejected fetch ends it. */
  method CollectVideos(names: seq<string>, bucket: Bucket) returns (list: Option<seq<Entry>>)
    ensures list == FetchedList(names, bucket)
  {
    var videoList: seq<Entry> := [];
    for i := 0 to |names|
      invariant |videoList| == i
      invariant forall k :: 0 <= k < i ==> Resolvable(names[k], bucket) && videoList[k] == FetchedEntry(names[k], bucket)
    {
      var path := PathOf(VideoFolder, names[i]);
      if path !in bucket.downloadUrls || path !in bucket.metadata {
        assert !Resolvable(names[i], bucket);
        return None;
      }
      videoList := videoList + [FetchedEntry(names[i], bucket)];
    }
    assert forall k :: 0 <= k < |names| ==> Resolvable(names[k], bucket);
    assert videoList == FetchedList(names, bucket).value;
    return Some(videoList);
  }

  // ---------------------------------------------------------------- view state

  /** `new Array(n).fill(false)`. */
  function NotPlaying(n: nat): (r: seq<bool>)
    ensures |r| == n && forall k :: 0 <= k < n ==> !r[k]
  {
    seq(n, _ => false)
  }

  /** `isPlaying.map((play, i) => i === index ? v : play)`. */
  function SetAt(s: seq<bool>, index: int, v: bool): (r: seq<bool>)
    ensures |r| == |s|
    ensures 0 <= index < |s| ==> r[index] == v
    ensures forall k :: 0 <= k < |s| && k != index ==> r[k] == s[k]
    ensures !(0 <= index < |s|) ==> r == s
  {
    seq(|s|, k requires 0 <= k < |s| => if k == index then v else s[k])
  }

  /** The enlarged index after `toggleSize(index)`: the same index shrinks it
      back to none, any other index becomes the enlarged one. */
  function Toggled(enlarged: int, index: nat): (r: int)
    ensures r == -1 <==> index == enlarged
    ensures r != -1 ==> r == index
  {
    if index == enlarged then -1 else index
  }

  /** Enlarging a video and toggling it again shows no enlarged video. */
  lemma ToggleTwice(index: nat)
    ensures Toggled(Toggled(-1, index), index) == -1
  {
  }

  /** Toggling a second video moves the enlargement to it: one video at most is enlarged. */
  lemma ToggleMoves(i: nat, j: nat)
    requires i != j
    ensures Toggled(Toggled(-1, i), j) == j
  {
  }

  class Gallery {
    var videos: seq<Entry>
    var isPlaying: seq<bool>
    var enlarged: int
    var cache: Option<seq<Entry>>  // the session cache entry `'videos'`

    /** One playing flag per video, and an index or -1 for the enlarged one. */
    ghost predicate Valid()
      reads this
    {
      |isPlaying| == |videos| && enlarged >= -1
    }

    constructor (cache: Option<seq<Entry>>)
      ensures Valid()
      ensures videos == [] && isPlaying == [] && enlarged == -1 && this.cache == cache
    {
      videos, isPlaying, enlarged := [], [], -1;
      this.cache := cache;
    }

    /** `setVideos(list)` and the effect it triggers: every video starts paused. */
    method SetVideos(list: seq<Entry>)
      requires Valid()
      modifies this`videos, this`isPlaying
      ensures Valid()
      ensures videos == list && isPlaying == NotPlaying(|list|)
    {
      videos := list;
      isPlaying := NotPlaying(|videos|);
    }

    /** The mount effect `fetchVideos`: a cache hit shows the cached list;
        otherwise a listing whose every fetch succeeds is shown and cached,
        and any rejection leaves the screen as it was. */
    method FetchVideos(bucket: Bucket)
      requires Valid()
      modifies this`videos, this`isPlaying, this`cache
      ensures Valid()
      ensures old(cache).Some? ==>
        videos == old(cache).value && isPlaying == NotPlaying(|videos|) && cache == old(cache)
      ensures old(cache).None? ==>
        var fetched := if VideoFolder in bucket.listings then FetchedList(bucket.listings[VideoFolder], bucket) else None;
        && (fetched.Some? ==> videos == fetched.value && isPlaying == NotPlaying(|videos|) && cache == fetched)
        && (fetched.None? ==> videos == old(videos) && isPlaying == old(isPlaying) && cache == old(cache))
    {
      if cache.Some? {
        SetVideos(cache.value);
        return;
      }
      if VideoFolder !in bucket.listings {
        return;
      }
      var list := CollectVideos(bucket.listings[VideoFolder], bucket);
      if list.Some? {
        SetVideos(list.value);
        cache := list;
      }
    }

    /** `togglePlay(index)`, where `element` is `None` when there is no video
        element at `index` and `Some(paused || ended)` otherwise: the flag at
        `index` becomes whether playback starts, and nothing else changes. */
    method TogglePlay(index: nat, element: Option<bool>)
      requires Valid()
      modifies this`isPlaying
      ensures Valid()
      ensures element.None? ==> isPlaying == old(isPlaying)
      ensures element.Some? ==> isPlaying == SetAt(old(isPlaying), index, element.value)
    {
      if element.Some? {
        var idle := element.value;
        if idle {
          isPlaying := SetAt(isPlaying, index, true);
        } else {
          isPlaying := SetAt(isPlaying, index, false);
        }
      }
    }

    /** `toggleSize(index)`. */
    method ToggleSize(index: nat)
      requires Valid()
      modifies this`enlarged
      ensures Valid()
      ensures enlarged == Toggled(old(enlarged), index)
    {
      if index == enlarged {
        enlarged := -1;
      } else {
        enlarged := index;
      }
    }
  }
}
