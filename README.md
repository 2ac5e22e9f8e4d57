# Saylor memes gallery: the data layer, in Dafny

This project models the logic that runs between the storage bucket's listing and
the gallery screen. It has three parts:

- **`useMediaFiltering`** (module `MediaFiltering`). It picks the video or photo
  list. It keeps the items whose lower-cased title contains the lower-cased
  search query and whose tags contain the active tag (`'all'` matches
  everything). It builds the sorted, duplicate-free list of all tags by
  collecting them into a set and sorting.
- **`useFirebaseStorage`** (module `FirebaseStorage`). It turns a folder
  listing into `Video` and `Photo` records:
  - only `.mp4` names become videos;
  - a video's thumbnail is the name with its first `.mp4` replaced by `.png`;
  - the title falls back to the name with its first `.mp4` removed (for a
    photo, the name without a trailing image extension);
  - tags are the comma-separated custom tags, each trimmed;
  - an item whose fetches fail is dropped.

  It also models the session cache (a hit is returned as it is), the error
  strings, the `isLoading` flag, and `loadVideoUrl`, which sets `videoUrl` on
  the matching entries and writes the list back to the cache. The hook's state
  is the class `StorageHook`.
- **`App`** (module `Gallery`), the older gallery screen. Its fetch loop
  builds `{ url, title }` entries, using `'Untitled'` when there is no title.
  Its view state is the enlarged index (-1 for none) and one playing flag per
  video. `toggleSize`, `togglePlay` and the effect that resets the flags when
  the list changes are methods of the class `Gallery`.

Helper modules:

- `Strings`: JavaScript's `toLowerCase` (ASCII only), `indexOf`/`includes`,
  `endsWith`, `replace` with a string pattern, `split` on one character, and
  `trim`.
- `Ordering`: the default `sort()` order on strings.
- `Sequences`: the subsequence relation.
- `Media`: the record types.
- `StorageService`: the bucket as a value.

The storage SDK is an input. A `Bucket` holds:

- each folder's listing (`listAll`);
- download URLs by full path (`getDownloadURL`);
- metadata by full path (`getMetadata`).

A missing key is a call that rejects. Each class holds the session cache as an
`Option` field.

Two behaviours of the code are modelled as written:
- `replace('.mp4', …)` replaces the first occurrence, which need not be the
  suffix: `"a.mp4.mp4"` gets the thumbnail `"a.png.mp4"`
  (`Strings.ReplaceFirstNotSuffix`). For names whose only `.mp4` is the
  suffix, the thumbnail and the fallback title are the expected ones
  (`FirebaseStorage.VideoNaming`).
- The older screen lists every item of `videos/`, with no `.mp4` filter. If one
  fetch rejects, the loop stops and nothing is stored or shown.

## Model

| member | source | states |
|---|---|---|
| `MediaFiltering.Selected` | src/hooks/useMediaFiltering.ts:12 | `mediaType === 'videos' ? videos : photos`: the video list, element for element, when the media type is videos, the photo list otherwise; so the selected list holds videos exactly when the media type is videos |
| `MediaFiltering.FilterItems` | src/hooks/useMediaFiltering.ts:14-22 | the result is an order-preserving subsequence of the content; an item is in it iff it is in the content and matches both the search and the tag criterion; and each kept item occurs as often as in the content, each other item not at all |
| `MediaFiltering.FilteredContent` | src/hooks/useMediaFiltering.ts:11-23 | `filteredContent` is an order-preserving subsequence of `videos` when the media type is videos and of `photos` otherwise; it holds exactly the items that meet both criteria, each as often as in the selected list |
| `MediaFiltering.NoCriteriaKeepsAll` | src/hooks/useMediaFiltering.ts:15-19 | with query `''` and filter `'all'` the filter returns its input unchanged |
| `MediaFiltering.NoCriteriaShowsSelected` | src/hooks/__tests__/useMediaFiltering.test.ts:52-67 | with no criteria the hook shows the whole selected list |
| `MediaFiltering.SearchIgnoresCase` | src/hooks/useMediaFiltering.ts:15-16 | two queries with the same ASCII lower-case form select the same items |
| `MediaFiltering.CriteriaCompose` | src/hooks/useMediaFiltering.ts:21 | filtering by query and tag equals filtering by tag, then searching the result |
| `MediaFiltering.CriteriaIntersect` | src/hooks/__tests__/useMediaFiltering.test.ts:96-108 | an item is in the combined result iff it is in both single-criterion results |
| `MediaFiltering.AvailableTags` | src/hooks/useMediaFiltering.ts:25-34 | the nested loops and the sort give a strictly increasing, duplicate-free list, and a string is in it iff it is a tag of some item |
| `MediaFiltering.TagIndexUnique` | src/hooks/useMediaFiltering.ts:25-34 | the tag list is determined by the item list alone, so neither the query nor the filter affects it |
| `MediaFiltering.UseMediaFiltering` | src/hooks/useMediaFiltering.ts:4-39 | the hook returns the filtered content and the tag index of the selected list |
| `MediaFiltering.RepeatedTagListedOnce` | src/hooks/__tests__/useMediaFiltering.test.ts:127-144 | the tags `bitcoin, conference, bitcoin` give the index `['bitcoin', 'conference']` |
| `Ordering.Sort` | src/hooks/useMediaFiltering.ts:33 | `sort()` returns a sorted permutation of its input, and one without repeats when the input has none |
| `Ordering.Insert` | src/hooks/useMediaFiltering.ts:33 | inserting into a sorted list keeps it sorted and adds exactly one element |
| `Ordering.StrictlySortedNoDuplicates` | src/hooks/useMediaFiltering.ts:33 | a strictly increasing list repeats no tag |
| `Ordering.StrictlySortedUnique` | src/hooks/useMediaFiltering.ts:33 | two strictly sorted lists with the same elements are equal |
| `Ordering.BelowTotal` | src/hooks/useMediaFiltering.ts:33 | the string order is total: distinct strings compare one way or the other |
| `Ordering.BelowTransitive` | src/hooks/useMediaFiltering.ts:33 | the string order is transitive |
| `Strings.IndexOf` | src/hooks/useMediaFiltering.ts:16 | returns the first index where the pattern occurs, and `None` iff it occurs nowhere |
| `Strings.Lower` | src/hooks/useMediaFiltering.ts:16 | lower-casing keeps the length, maps each upper-case ASCII letter to its lower-case letter (code plus 32), leaves no upper-case ASCII letter and changes nothing else |
| `Strings.LowerIdempotent` | src/hooks/useMediaFiltering.ts:16 | lower-casing a lower-cased string changes nothing |
| `Strings.Includes` | src/hooks/useMediaFiltering.ts:16 | `includes` holds iff the pattern occurs at some index |
| `Strings.IncludesEmpty` | src/hooks/useMediaFiltering.ts:15-16 | every title includes the empty query, so the `searchQuery === ''` guard does not change the result |
| `Strings.EndsWith` | src/hooks/useFirebaseStorage.ts:25 | a string that ends with the suffix is some prefix followed by the suffix |
| `Strings.EndsWithConcat` | src/hooks/useFirebaseStorage.ts:25 | any prefix followed by the suffix ends with it |
| `Strings.ReplaceFirstAt` | src/hooks/useFirebaseStorage.ts:27 | `replace` without an occurrence is the identity; otherwise it gives the string before the `indexOf` position, the replacement, and the rest after the occurrence |
| `Strings.ReplaceFirst` | src/hooks/useFirebaseStorage.ts:27 | a string without the pattern is unchanged; otherwise only its first occurrence is replaced |
| `Strings.ReplaceSuffix` | src/hooks/useFirebaseStorage.ts:27-36 | when a border-free pattern occurs only as the suffix, replacing its first occurrence replaces the suffix |
| `Strings.ReplaceFirstNotSuffix` | src/hooks/useFirebaseStorage.ts:27 | `"a.mp4.mp4"` becomes `"a.png.mp4"`: the earlier occurrence is replaced |
| `Strings.Split` | src/hooks/useFirebaseStorage.ts:38 | `split(',')` gives at least one piece, no piece contains the separator, and joining the pieces gives back the string |
| `Strings.SplitJoin` | src/hooks/useFirebaseStorage.ts:38 | splitting a join of separator-free pieces gives back the pieces |
| `Strings.Trim` | src/hooks/useFirebaseStorage.ts:38 | `trim()` returns the substring left once the leading and trailing whitespace is removed; what it drops is all whitespace, and the result neither starts nor ends with whitespace |
| `Strings.TrimIdempotent` | src/hooks/useFirebaseStorage.ts:38 | trimming twice is trimming once |
| `Strings.TrimAllWhitespace` | src/hooks/useFirebaseStorage.ts:38 | a piece made of whitespace only trims to the empty tag |
| `StorageService.TitleOr` | src/hooks/useFirebaseStorage.ts:36 | the custom title when it is present and not empty, the fallback otherwise |
| `FirebaseStorage.ParseTags` | src/hooks/useFirebaseStorage.ts:37-39 | no custom tags, or empty ones, give `[]`; otherwise one trimmed tag per comma-separated piece; every tag is free of commas and of whitespace at its ends |
| `FirebaseStorage.TrimAll` | src/hooks/useFirebaseStorage.ts:38 | `map(tag => tag.trim())` keeps the number of pieces, trims each piece in place, and gives tags free of commas and of whitespace at their ends |
| `FirebaseStorage.TwoTags` | src/hooks/__tests__/useFirebaseStorage.test.ts:138 | a tags string `a + ", " + b` gives the tags `[a, b]` |
| `FirebaseStorage.ThumbnailName` | src/hooks/useFirebaseStorage.ts:27 | a name without `.mp4` is unchanged; otherwise its first `.mp4` is replaced by `.png` |
| `FirebaseStorage.VideoFallbackTitle` | src/hooks/useFirebaseStorage.ts:36 | a name without `.mp4` is unchanged; otherwise its first `.mp4` is removed |
| `FirebaseStorage.BuildVideo` | src/hooks/useFirebaseStorage.ts:26-53 | a record exists iff both the thumbnail URL and the metadata resolve; then `id` and `fileName` are the name, `videoUrl` is `''`, `isPlaying` is false, the thumbnail comes from `videos/` plus the thumbnail name, and the title and tags come from the metadata |
| `FirebaseStorage.VideoNaming` | src/hooks/useFirebaseStorage.ts:27-36 | for `base.mp4` with no other `.mp4`, the thumbnail is `base.png` and the fallback title is `base` |
| `FirebaseStorage.Mp4Names` | src/hooks/useFirebaseStorage.ts:25 | the `.mp4` entries of the listing, in order |
| `FirebaseStorage.BuildVideos` | src/hooks/useFirebaseStorage.ts:24-56 | the `.mp4` filter, the map and `filter(Boolean)` give at most one video per entry, each with an `.mp4` file name and equal to the record `BuildVideo` builds for that name |
| `FirebaseStorage.BuildVideosInOrder` | src/hooks/useFirebaseStorage.ts:24-56 | the built videos' file names are an order-preserving subsequence of the `.mp4` entries |
| `FirebaseStorage.BuildVideosSound` | src/hooks/useFirebaseStorage.ts:24-56 | every built video comes from a listed `.mp4` name and is the record built for it |
| `FirebaseStorage.BuildVideosComplete` | src/hooks/useFirebaseStorage.ts:50-56 | no `.mp4` entry whose fetches succeed is dropped |
| `FirebaseStorage.BuiltVideosBounded` | src/hooks/useFirebaseStorage.ts:25-56 | there are at most as many videos as `.mp4` entries |
| `FirebaseStorage.PhotoFallbackTitle` | src/hooks/useFirebaseStorage.ts:86-87 | a name ending in `.jpg`, `.jpeg`, `.png`, `.gif` or `.webp` (any case) loses that extension; any other name is unchanged |
| `FirebaseStorage.BuildPhoto` | src/hooks/useFirebaseStorage.ts:79-101 | a record exists iff the URL and the metadata of `photos/` plus the name resolve; then `id` is the name and the URL, title and tags come from them |
| `FirebaseStorage.BuildPhotos` | src/hooks/useFirebaseStorage.ts:79-104 | the map and `filter(Boolean)` give at most one photo per entry, each equal to the record `BuildPhoto` builds for its id |
| `FirebaseStorage.BuildPhotosInOrder` | src/hooks/useFirebaseStorage.ts:79-104 | the built photos' ids are an order-preserving subsequence of the listing, at most one photo per entry |
| `FirebaseStorage.BuildPhotosSound` | src/hooks/useFirebaseStorage.ts:79-104 | every built photo is the record built for a listed name |
| `FirebaseStorage.BuildPhotosComplete` | src/hooks/useFirebaseStorage.ts:98-104 | no entry whose fetches succeed is dropped |
| `FirebaseStorage.VideoOutcome` | src/hooks/useFirebaseStorage.ts:12-64 | a cache hit gives the cached list whatever the bucket holds; otherwise the list built from the listing, or none when the listing fails |
| `FirebaseStorage.PhotoOutcome` | src/hooks/useFirebaseStorage.ts:67-112 | the same for photos |
| `FirebaseStorage.WithVideoUrl` | src/hooks/useFirebaseStorage.ts:119-122 | the list keeps its length and order, `videoUrl` becomes the URL exactly on the entries with that file name, and nothing else changes |
| `FirebaseStorage.WithVideoUrlIdempotent` | src/hooks/useFirebaseStorage.ts:119-125 | resolving the same file twice leaves the list as resolving it once |
| `FirebaseStorage.StorageHook.constructor` | src/hooks/useFirebaseStorage.ts:7-10 | starts with no videos or photos, loading, and no error |
| `FirebaseStorage.StorageHook.FetchVideos` | src/hooks/useFirebaseStorage.ts:12-64 | a hit returns the cache and leaves it as it was; a successful listing replaces the videos and the cache; a failed listing returns `[]`, sets `'Failed to load videos'` and keeps the old videos |
| `FirebaseStorage.StorageHook.FetchPhotos` | src/hooks/useFirebaseStorage.ts:67-112 | the same for photos, with `'Failed to load photos'` |
| `FirebaseStorage.StorageHook.LoadContent` | src/hooks/useFirebaseStorage.ts:130-138 | after both fetches `isLoading` is false, each list is its fetch's outcome, and the error names the fetch that failed |
| `FirebaseStorage.StorageHook.LoadVideoUrl` | src/hooks/useFirebaseStorage.ts:115-128 | when the URL resolves it is returned, the list is updated as `WithVideoUrl` says and written to the cache; when it does not resolve nothing changes |
| `Gallery.FetchedList` | src/App.tsx:23-32 | the loop yields a list iff every listed item resolves, and then one entry per item, in listing order |
| `Gallery.FetchedTitles` | src/App.tsx:30 | each fetched title is the custom title when it is present and not empty, and `'Untitled'` otherwise; none is empty |
| `Gallery.CollectVideos` | src/App.tsx:23-32 | the loop returns one `{ url, title }` per listed item, in order, when every fetch succeeds, and nothing when one rejects |
| `Gallery.NotPlaying` | src/App.tsx:44 | `new Array(n).fill(false)` gives `n` flags, all false |
| `Gallery.SetAt` | src/App.tsx:52-55 | the map keeps the length, sets the flag at the index when it is in range, and leaves every other flag unchanged |
| `Gallery.Toggled` | src/App.tsx:60-66 | toggling the enlarged index shrinks it to -1; toggling any other index enlarges that one |
| `Gallery.ToggleTwice` | src/App.tsx:60-66 | from no enlarged video, toggling the same index twice returns to -1 |
| `Gallery.ToggleMoves` | src/App.tsx:60-66 | toggling a second video moves the enlargement to it |
| `Gallery.Gallery.constructor` | src/App.tsx:10-13 | starts with no videos, no flags and no enlarged video |
| `Gallery.Gallery.SetVideos` | src/App.tsx:43-45 | each time the videos change, the flags become `|videos|` copies of false |
| `Gallery.Gallery.FetchVideos` | src/App.tsx:15-41 | a cache hit shows the cached list; otherwise, when every fetch succeeds, the fetched list is shown and cached; otherwise the screen is left as it was |
| `Gallery.Gallery.TogglePlay` | src/App.tsx:47-58 | with no element nothing changes; otherwise only the flag at the index changes, to whether the video was paused or ended |
| `Gallery.Gallery.ToggleSize` | src/App.tsx:60-66 | the enlarged index becomes `Toggled(old, index)` |

## Left out

- The storage SDK calls (`ref`, `listAll`, `getDownloadURL`, `getMetadata`) are not modelled. Their results are entries of the `Bucket` maps, and a missing key is a rejected call.
- `src/firebase.ts`, the analytics hook and the admin scripts are not part of this model. They only call the remote service.
- `sessionStorage`, `JSON.parse` and `JSON.stringify` are not modelled. Each cache is an `Option` of the typed list, so a cache hit is returned without validation, as the code does. These failure modes are not modelled: a corrupt entry that would make `JSON.parse` throw, a failing `setItem`, and a stored empty string (falsy, so a miss).
- `FirebaseStorage.StorageHook.LoadContent`: `Promise.all` runs the two fetches in parallel. The model runs them in sequence, videos first. So when both listings fail, the model's error is the photo message, while in the source it is whichever rejection settles last. Within one fetch, each item's two parallel fetches count as one all-or-nothing step.
- React state, memoisation and effects are not modelled as such. State is class fields. An effect is a method call: the flag reset is part of `Gallery.SetVideos`, and the mount effects are `LoadContent` and `FetchVideos`.
- The DOM calls in `App` are not modelled: `play`, `pause`, `requestFullScreen` and its vendor variants. `togglePlay` receives `paused || ended` as an input, and no element is `None`.
- The presentational components are not modelled: cards, grid, modal, search bar, tag filter, empty state, spinner, header, footer. Nor is `ProgressiveImage`, which uses canvas, `IntersectionObserver` and floating-point scaling. Nor are the styling configuration and the test setup.
- `Strings.Lower`: lower-cases only ASCII letters, where `toLowerCase` also maps other letters. Matching the photo extensions is exact all the same, because a non-ASCII character never case-folds to an ASCII letter in a regular expression without the `u` flag.
- `Ordering.Below`: compares strings by Unicode scalar value, where JavaScript's `sort` compares UTF-16 code units. The two orders differ only between characters above U+FFFF and those in U+E000–U+FFFF.
- The `console.error` calls are not modelled (src/hooks/useFirebaseStorage.ts:51, 61, 99 and 109). Logging has no effect on the hook's state or result.
- `Strings.Split` and `Strings.ReplaceFirst`: model only the forms the code uses, `split` with a one-character separator and `replace` with a string pattern. The photo title's regular expression is written out as an explicit suffix test, `FirebaseStorage.PhotoFallbackTitle`.
