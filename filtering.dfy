/** `useMediaFiltering`: the list shown for the current search box and tag
    button, and the tag buttons offered for the current media type. */
module MediaFiltering {
  import opened Strings
  import opened Ordering
  import opened Sequences
  import opened Media

  /** `mediaType === 'videos' ? videos : photos`. */
  function Selected(videos: seq<Video>, photos: seq<Photo>, mediaType: MediaType): (r: seq<MediaItem>)
    ensures mediaType == Videos ==> |r| == |videos| && forall k :: 0 <= k < |r| ==> r[k] == videos[k]
    ensures mediaType == Photos ==> |r| == |photos| && forall k :: 0 <= k < |r| ==> r[k] == photos[k]
    ensures forall x :: x in r ==> (x.VideoItem? <==> mediaType == Videos)
  {
    if mediaType == Videos then videos else photos
  }

  /** An empty query matches everything; otherwise the lower-cased title must
      contain the lower-cased query. */
  predicate MatchesSearch(item: MediaItem, query: string) {
    query == "" || Includes(Lower(item.title), Lower(query))
  }

  /** The filter `'all'` matches everything; otherwise it must be one of the tags. */
  predicate MatchesFilter(item: MediaItem, filter: string) {
    filter == "all" || filter in item.tags
  }

  predicate Kept(item: MediaItem, query: string, filter: string) {
    MatchesSearch(item, query) && MatchesFilter(item, filter)
  }

  /** `content.filter(...)`: the items that match both criteria, in order. */
  function FilterItems(content: seq<MediaItem>, query: string, filter: string): (r: seq<MediaItem>)
    ensures IsSubsequence(r, content)
    ensures forall x :: x in r <==> x in content && Kept(x, query, filter)
    ensures forall x :: multiset(r)[x] == if Kept(x, query, filter) then multiset(content)[x] else 0
  {
    if content == [] then []
    else
      var rest := FilterItems(content[1..], query, filter);
      assert content == [content[0]] + content[1..];
      assert forall x :: x in content <==> x == content[0] || x in content[1..];
      assert multiset(content) == multiset{content[0]} + multiset(content[1..]);
      if Kept(content[0], query, filter) then
        assert ([content[0]] + rest)[1..] == rest;
        [content[0]] + rest
      else rest
  }

  /** `filteredContent`: an order-preserving subsequence of the selected list
      holding exactly the items that meet both criteria. */
  function FilteredContent(videos: seq<Video>, photos: seq<Photo>, mediaType: MediaType,
                           searchQuery: string, activeFilter: string): (r: seq<MediaItem>)
    ensures IsSubsequence(r, Selected(videos, photos, mediaType))
    ensures forall x :: x in r <==> x in Selected(videos, photos, mediaType) && Kept(x, searchQuery, activeFilter)
    ensures var selected := Selected(videos, photos, mediaType);
      forall x :: multiset(r)[x] == if Kept(x, searchQuery, activeFilter) then multiset(selected)[x] else 0
  {
    FilterItems(Selected(videos, photos, mediaType), searchQuery, activeFilter)
  }

  /** With no query and the filter `'all'`, nothing is filtered out. */
  lemma {:induction false} NoCriteriaKeepsAll(content: seq<MediaItem>)
    ensures FilterItems(content, "", "all") == content
  {
    if content != [] {
      NoCriteriaKeepsAll(content[1..]);
      assert content == [content[0]] + content[1..];
    }
  }

  lemma NoCriteriaShowsSelected(videos: seq<Video>, photos: seq<Photo>, mediaType: MediaType)
    ensures FilteredContent(videos, photos, mediaType, "", "all") == Selected(videos, photos, mediaType)
  {
    NoCriteriaKeepsAll(Selected(videos, photos, mediaType));
  }

  /** Queries that differ only in the case of ASCII letters select the same items. */
  lemma {:induction false} SearchIgnoresCase(content: seq<MediaItem>, q1: string, q2: string, filter: string)
    requires Lower(q1) == Lower(q2)
    ensures FilterItems(content, q1, filter) == FilterItems(content, q2, filter)
  {
    assert q1 == "" <==> q2 == "" by { assert |Lower(q1)| == |q1| && |Lower(q2)| == |q2|; }
    if content != [] {
      SearchIgnoresCase(content[1..], q1, q2, filter);
    }
  }

  /** Searching and tag filtering compose: filtering by both is filtering by
      tag, then searching what is left. */
  lemma {:induction false} CriteriaCompose(content: seq<MediaItem>, query: string, filter: string)
    ensures FilterItems(content, query, filter) == FilterItems(FilterItems(content, "", filter), query, "all")
  {
    if content != [] {
      CriteriaCompose(content[1..], query, filter);
      var rest := FilterItems(content[1..], "", filter);
      if MatchesFilter(content[0], filter) {
        assert FilterItems(content, "", filter) == [content[0]] + rest;
        assert ([content[0]] + rest)[1..] == rest;
      }
    }
  }

  /** The combined result holds exactly the items both single-criterion results hold. */
  lemma CriteriaIntersect(content: seq<MediaItem>, query: string, filter: string)
    ensures forall x :: x in FilterItems(content, query, filter) <==>
      x in FilterItems(content, query, "all") && x in FilterItems(content, "", filter)
  {
  }

  /** Some item of `content` carries tag `t`. */
  predicate HasTag(content: seq<MediaItem>, t: string) {
    exists k :: 0 <= k < |content| && t in content[k].tags
  }

  /** `availableTags` is the tag index of the content: every tag of some item,
      each once, in ascending order. */
  ghost predicate IsTagIndex(content: seq<MediaItem>, tags: seq<string>) {
    StrictlySorted(tags) && forall t :: t in tags <==> HasTag(content, t)
  }

  /** The tag index of a list is unique: it depends on the list alone, not on
      the search query or the active filter. */
  lemma TagIndexUnique(content: seq<MediaItem>, a: seq<string>, b: seq<string>)
    requires IsTagIndex(content, a) && IsTagIndex(content, b)
    ensures a == b
  {
    StrictlySortedUnique(a, b);
  }

  /** `availableTags`: collect every tag into a set, item by item, then sort. */
  method AvailableTags(content: seq<MediaItem>) returns (tags: seq<string>)
    ensures IsTagIndex(content, tags)
    ensures NoDuplicates(tags)
  {
    var tagSet: seq<string> := [];  // a JavaScript Set: insertion order, no repeats
    var i := 0;
    while i < |content|
      invariant 0 <= i <= |content|
      invariant NoDuplicates(tagSet)
      invariant forall t :: t in tagSet <==> exists k :: 0 <= k < i && t in content[k].tags
    {
      var itemTags := content[i].tags;
      var j := 0;
      while j < |itemTags|
        invariant 0 <= j <= |itemTags|
        invariant NoDuplicates(tagSet)
        invariant forall t :: t in tagSet <==> (exists k :: 0 <= k < i && t in content[k].tags) || t in itemTags[..j]
      {
        var tag := itemTags[j];
        assert itemTags[..j + 1] == itemTags[..j] + [tag];
        if tag !in tagSet {
          tagSet := tagSet + [tag];
        }
        j := j + 1;
      }
      assert itemTags[..j] == itemTags;
      i := i + 1;
    }
    tags := Sort(tagSet);
    SortedDistinctIsStrict(tags);
    forall t ensures t in tags <==> HasTag(content, t) {
      assert t in tags <==> t in multiset(tags);
      assert t in tagSet <==> t in multiset(tagSet);
    }
  }

  /** The hook: both derived values for one set of inputs. */
  method UseMediaFiltering(videos: seq<Video>, photos: seq<Photo>, mediaType: MediaType,
                           searchQuery: string, activeFilter: string)
    returns (filteredContent: seq<MediaItem>, availableTags: seq<string>)
    ensures filteredContent == FilteredContent(videos, photos, mediaType, searchQuery, activeFilter)
    ensures IsTagIndex(Selected(videos, photos, mediaType), availableTags)
  {
    filteredContent := FilteredContent(videos, photos, mediaType, searchQuery, activeFilter);
    availableTags := AvailableTags(Selected(videos, photos, mediaType));
  }

  /** A repeated tag is listed once, in order. */
  lemma RepeatedTagListedOnce(video: Video)
    requires video.tags == ["bitcoin", "conference", "bitcoin"]
    ensures IsTagIndex([video], ["bitcoin", "conference"])
  {
    var tags: seq<string> := ["bitcoin", "conference"];
    assert Below(tags[0], tags[1]) by { assert tags[0][0] < tags[1][0]; }
    assert [video][0] == video;
    forall t ensures t in tags <==> HasTag([video], t) {
      assert HasTag([video], t) <==> t in video.tags;
    }
  }
}
