# Rewind: a Dafny model of the Facebook export viewer's core

Rewind is a browser app that opens a Facebook data export (a ZIP archive) and shows the
posts as a timeline and the archived stories as a grid. This project models in Dafny the
logic that sits under the screens and proves properties of it:

- **The two upload handlers** of the `usePosts` and `useStories` hooks. They scan the
  archive's entries, gather the post lists (or the stories file), and collect the referenced
  media URIs into an insertion-ordered set. Each URI is resolved against its two candidate
  paths into a lookup table of object-URL handles. The posts handler also picks the newest
  profile picture and sorts the posts newest first. The stories handler works within its
  mobile budget.
- **The text repair** `decodeURIComponent(escape(s))`, with an explicit UTF-8 decoder and
  encoder (RFC 3629, sections 3 and 4), and `decodePost`, which applies it to eight named
  kinds of field.
- **The filter engines** `filterPosts` and `filterStories`, and `extractYears`.
- **The view derivations**:
  - `getPostInfo` and `getMediaInfo`;
  - page arithmetic and day grouping on the timeline and the stories grid;
  - the media carousel of the post detail view;
  - the link partition, the display name and the truncation counts of the post card;
  - the `(c/t)` label parser of the progress bar.

The hooks and the stateful components are Dafny classes:

- `PostsHook.PostsState`
- `StoriesHook.StoriesState`
- `PostsTimeline.Timeline`
- `StoriesGrid.Grid`
- `PostDetail.Carousel`

Their state variables are fields, and their handlers are methods with `modifies this`. The
React effect that re-runs the filter whenever its inputs change is folded into each method.
The invariant `Valid()` therefore states that the filtered list is always the filter of the
current list under the current settings.

The loops of the source are methods with loop invariants. Each is proved equal to a
specification function:

- `ScanPosts` and `CollectPostUris`;
- `CollectPictures` and `PickProfilePicture`;
- `TryCandidates` and `ResolveMedia`;
- `FindStoriesFile` and `CollectStoryUris`;
- `ExtractYears`;
- `GetPostInfo`;
- `GroupByDay`.

Pure expressions are functions, and the properties the code promises are lemmas about those
functions.

What the model takes as parameters:

- **The archive** is a `Zip`: the entry paths in `Object.entries` order, and for each path a
  directory flag, the document that reading and parsing it yields, its size, and whether
  extracting its blob succeeds.
- **The calendar** (`new Date(ms).getFullYear()` and `toDateString()`) is a pair of
  uninterpreted functions, `Calendar(year, day)`.
- **Object URLs** are numbered handles taken from a counter, `nextHandle`. A `Blob` records
  the handle, the archive path it was read from and its MIME type.
- **`isMobile`** and **the uploaded file's size** are parameters.

Modules: `Wrappers`, `Seqs`, `Text`, `Utf8`, `Records`, `Archive`, `Dates`, `MediaKind`,
`Decode`, `PostsFilter`, `Resolve`, `PostsIngest`, `PostInfo`, `PostsHook`, `Stories`,
`StoriesHook`, `Pagination`, `PostsTimeline`, `StoriesGrid`, `PostView`, `PostDetail`,
`PostCard`, `ProgressBar`. There is one file per module.

Behaviour of the code worth noting, which the model keeps:

- A new upload replaces the media table without revoking the handles of the previous one.
- The stories grid keeps its own page state, and ignores the page that `App` passes it.
- The stories unmount cleanup revokes nothing (see Findings).

## Model

| member | source | states |
|---|---|---|
| Text.IndexOf | src/hooks/usePosts.js:69-77 | `indexOf`: the result is an occurrence, and no occurrence lies before it; `None` means no occurrence at all |
| Text.Before | src/hooks/usePosts.js:255 | `split(sep)[0]`: a prefix of the input without `sep`; it is followed by `sep` when `sep` occurs, and it is the whole input when `sep` does not occur |
| Text.DirPrefix | src/hooks/usePosts.js:160 | `substring(0, lastIndexOf('/') + 1)`: a prefix that is empty or ends in `/`, with no `/` after it |
| Text.LastSegment | src/hooks/useStories.js:231 | `split('/').pop()`: it has no `/`, and directory plus segment is the whole path |
| Text.RemoveFirst | src/hooks/useStories.js:92 | `replace(t, '')`: unchanged without an occurrence; otherwise the text before the first occurrence followed by the text after it, `\|t\|` shorter |
| Text.RemoveFirstSuffix | src/hooks/useStories.js:92 | when the name occurs only as the suffix, removing it leaves the directory part |
| Text.ToLower | src/hooks/useStories.js:43 | `toLowerCase` on ASCII: same length, no upper-case letter left, each upper-case letter turned into the matching lower-case one, every other character kept |
| Text.LeadingDigits | src/hooks/usePosts.js:256 | the longest prefix of digits: all digits, stopped by a non-digit or the end |
| Text.ParseInt | src/hooks/usePosts.js:256 | `parseInt` in base 10 is `NaN` exactly when no digit follows the optional sign |
| Text.ParseIntDigits | src/hooks/usePosts.js:43 | a string of digits parses to its decimal value |
| Text.LeadingDigitsRun | src/hooks/usePosts.js:256 | the leading digits of a digit run followed by a non-digit, or by nothing, are that run |
| Text.ParseIntRun | src/hooks/usePosts.js:256 | `parseInt` of an optional sign, digits and any tail not starting with a digit is the signed value of the digits |
| Text.ParseIntStem | src/hooks/usePosts.js:255-256 | the picture stem `123_456` parses to 123 |
| Text.LeadingDigitsAll | src/hooks/usePosts.js:256 | a string of digits is its own leading-digit run |
| Seqs.FilterIsSubseq | src/hooks/usePosts.js:36-107 | `Array.filter` keeps order: its result is a subsequence of its input |
| Seqs.AddAllMembers | src/hooks/usePosts.js:221-231 | `Set.add` over a list: the set holds exactly the old elements and the added ones |
| Seqs.AddAllNoDups | src/hooks/usePosts.js:221-231 | the insertion-ordered set never holds an element twice |
| Seqs.SortDescProps | src/hooks/usePosts.js:313 | `sort((a, b) => b.timestamp - a.timestamp)` gives a newest-first permutation of its input |
| Seqs.SortDescStable | src/hooks/usePosts.js:313 | the sort is stable: entries with the same key keep their relative order |
| Seqs.SortDescSorted | src/hooks/usePosts.js:331 | sorting an already sorted list changes nothing |
| Utf8.DecodeFirst | src/hooks/usePosts.js:360 | one well-formed UTF-8 sequence (RFC 3629 section 4) is one to four bytes long and decodes to a Unicode scalar value |
| Utf8.EncodeChar | src/hooks/usePosts.js:360 | the UTF-8 encoding of a character is one to four bytes |
| Utf8.DecodeFirstEncodeChar | src/hooks/usePosts.js:360 | the first sequence of an encoded character decodes back to that character, with its length |
| Utf8.EncodeCharDecodeFirst | src/hooks/usePosts.js:360 | conversely, a well-formed leading sequence is exactly the encoding of the character it decodes to |
| Utf8.DecodeEncode | src/hooks/usePosts.js:360 | decoding the encoding of any string gives the string back |
| Utf8.EncodeDecode | src/hooks/usePosts.js:360 | a byte sequence that decodes is the encoding of its decoding |
| Utf8.MisEncode | src/hooks/usePosts.js:355-360 | the export's mis-encoding (UTF-8 bytes read as Latin-1) only yields characters below 256 |
| Utf8.MisEncodeBytes | src/hooks/usePosts.js:355-360 | the mis-encoded text's bytes are the UTF-8 encoding of the original |
| Utf8.EncodeEmpty | src/hooks/usePosts.js:357 | only the empty string has an empty encoding |
| Utf8.DecodeTextRepairs | src/hooks/usePosts.js:356-364 | `decodeText` undoes the mis-encoding, for every string |
| Utf8.DecodeTextChanges | src/hooks/usePosts.js:356-364 | when `decodeText` changes a text, that text is the mis-encoding of the result |
| Utf8.DecodeTextWide | src/hooks/usePosts.js:358-363 | a character at or above U+0100 makes the call throw, so the text is returned as it is |
| Utf8.DecodeAscii | src/hooks/usePosts.js:360 | ASCII bytes decode one-for-one to the same characters |
| Utf8.DecodeTextAscii | src/hooks/usePosts.js:356-364 | plain ASCII text is left unchanged |
| Utf8.DecodeTextNotIdempotent | src/hooks/usePosts.js:356-364 | repairing twice can change a text further (`Ã\u0083Â©` to `Ã©` to `é`) |
| Dates.DateInactive | src/hooks/usePosts.js:48-61 | specific mode without a date, range mode without both ends, and `all` make the date step keep everything |
| Dates.RangeInclusive | src/hooks/usePosts.js:54-60 | range mode keeps records at both ends of the interval |
| MediaKind.KindOf | src/hooks/usePosts.js:432-435 | the media type is video exactly for video URIs, then photo exactly for non-video photo URIs, then `media` |
| MediaKind.MimeFor | src/hooks/usePosts.js:293-294 | the blob's MIME type is `video/mp4` exactly for URIs containing `videos/` or ending `.mp4` |
| MediaKind.FilterPhotoIsInfoPhoto | src/hooks/usePosts.js:433 | every URI the type filter calls a photo, `getPostInfo` calls a photo too |
| MediaKind.ImagesJpegDiscrepancy | src/hooks/usePosts.js:67-73 | but `images/a.jpeg` is a photo to `getPostInfo` and neither photo nor video to the filter |
| Decode.DecodePost | src/hooks/usePosts.js:367-407 | decoding keeps the post's timestamp |
| Decode.DecodeFieldShape | src/hooks/usePosts.js:370-372 | `x ? decodeText(x) : x` keeps whether a field is present and returns falsy values unchanged |
| Decode.DecodeItemSkeleton | src/hooks/usePosts.js:384-402 | an attachment item is unchanged except for media description/title, place name/address and link name/source; `url` and `uri` are kept |
| Decode.DecodeAttachmentSkeleton | src/hooks/usePosts.js:381-404 | an attachment is unchanged outside its items' rewritten fields |
| Decode.DecodePostSkeleton | src/hooks/usePosts.js:366-407 | `decodePost` changes only the eight named kinds of text field; every other field, including tags and timestamp, is preserved |
| Decode.DecodeTextEmpty | src/hooks/usePosts.js:357 | an empty text is falsy and comes back as it is |
| Decode.DecodeFieldRepairs | src/hooks/usePosts.js:377 | decoding one mis-encoded field gives the original |
| Decode.DecodeItemRepairs | src/hooks/usePosts.js:384-402 | decoding a mis-encoded item gives the original item |
| Decode.DecodeAttachmentRepairs | src/hooks/usePosts.js:381-404 | decoding a mis-encoded attachment gives the original |
| Decode.DecodePostRepairs | src/hooks/usePosts.js:366-407 | `decodePost` undoes the export's mis-encoding of every decoded field, for every post |
| PostsFilter.FilterPostsIsKeep | src/hooks/usePosts.js:36-107 | the four filter steps in a row are one filter by the conjunction of their tests |
| PostsFilter.FilterPostsMembers | src/hooks/usePosts.js:36-107 | a post is shown exactly when it is in the list and passes every step |
| PostsFilter.FilterPostsSubseq | src/hooks/usePosts.js:36-107 | the shown posts keep the list's order and are unchanged |
| PostsFilter.FilterPostsHaveMedia | src/hooks/usePosts.js:87-104 | every shown post has a photo URI (`photos/`, `.jpg`, `.png`) or a video URI (`videos/`, `.mp4`), even under the type filter `all` |
| PostsFilter.FilterPostsYear | src/hooks/usePosts.js:40-45 | a year filter keeps a post exactly when `parseInt` of the option's text equals the post's year |
| PostsFilter.FilterPostsIdempotent | src/hooks/usePosts.js:36-107 | filtering the shown posts again with the same settings changes nothing |
| PostsFilter.SingleMediaHidden | src/hooks/usePosts.js:87-104 | a post whose only media URI passes neither test is never shown |
| PostsFilter.PhotosFilterMissesImagesJpeg | src/hooks/usePosts.js:64-85 | a post whose only media is `images/a.jpeg` is hidden from every filter setting, though `getPostInfo` would call it a photo |
| PostsFilter.ExtractYears | src/hooks/usePosts.js:26-33 | `extractYears` returns every distinct post year, nothing else, in strictly descending order |
| PostsFilter.YearSetMembers | src/hooks/usePosts.js:27-31 | the year set holds exactly the years of the posts |
| PostsFilter.YearsSorted | src/hooks/usePosts.js:32 | sorting the year set gives each year once, strictly descending |
| PostsFilter.DistinctSortedStrict | src/hooks/usePosts.js:32 | a descending list without repetitions is strictly descending |
| PostsIngest.LastProfile | src/hooks/usePosts.js:181-188 | the profile document is that of a profile file among the entries; none exactly when no entry is one |
| PostsIngest.FullName | src/hooks/usePosts.js:211-213 | the profile name is only taken when it is truthy |
| PostsIngest.FirstDirEmpty | src/hooks/usePosts.js:159-161 | `postsPath` stays empty exactly when no qualifying entry has a directory part |
| PostsIngest.FirstDirFirst | src/hooks/usePosts.js:159-161 | otherwise it is the directory of the first qualifying entry that has one |
| PostsIngest.ScanPosts | src/hooks/usePosts.js:144-194 | the entry loop yields the collected posts, `postsPath`, the last profile document and the picture folder, as their specification functions define them |
| PostsIngest.ScanStep | src/hooks/usePosts.js:144-194 | one entry extends the four results as the loop body does |
| PostsIngest.CollectPostsMembers | src/hooks/usePosts.js:144-165 | the collected posts are exactly the posts of the posts files that parsed |
| PostsIngest.CollectPostsSkips | src/hooks/usePosts.js:148-164 | a posts file that fails to parse contributes nothing, and the scan goes on |
| PostsIngest.CollectPostsAppends | src/hooks/usePosts.js:153-157 | a bare array and a `posts` wrapper are both appended in entry order |
| PostsIngest.ItemUriAdd | src/hooks/usePosts.js:230-233 | an item adds its media URI to the set exactly when the URI is truthy |
| PostsIngest.AddItemUris | src/hooks/usePosts.js:229-234 | the innermost loop adds the items' URIs in order |
| PostsIngest.AddAttachmentUris | src/hooks/usePosts.js:228-235 | the middle loop adds the attachments' URIs in order |
| PostsIngest.CollectPostUris | src/hooks/usePosts.js:224-245 | `mediaPaths` holds every referenced media URI once, in first-encounter order, and nothing else |
| PostsIngest.PicturesStep | src/hooks/usePosts.js:252-258 | one entry extends the picture list when it is a `.jpg` or `.png` file under the folder |
| PostsIngest.CollectPictures | src/hooks/usePosts.js:251-258 | the loop pushes every picture of the folder, in entry order |
| PostsIngest.NewestPicture | src/hooks/usePosts.js:261-264 | the head of the sorted pictures has the largest stamp, and it is the first picture with that stamp |
| PostsIngest.PickProfilePicture | src/hooks/usePosts.js:250-274 | the chosen picture is a picture of the folder with the largest numeric stem, the first among ties; none exactly when the folder has no picture |
| Resolve.FirstUsable | src/hooks/usePosts.js:288-306 | the first candidate that exists, is not a directory, is within the size cap and whose blob extracts; none exactly when no candidate qualifies |
| Resolve.FirstUsableAt | src/hooks/usePosts.js:288-303 | a usable candidate preceded only by unusable ones is the one taken |
| Resolve.TryCandidates | src/hooks/usePosts.js:288-308 | the candidate loop with `break` returns the first usable candidate |
| Resolve.TableMiss | src/hooks/usePosts.js:282-309 | a URI with no usable candidate adds no key |
| Resolve.TableHit | src/hooks/usePosts.js:282-309 | a URI that resolves adds one entry, with a fresh handle, under the original URI |
| Resolve.ResolveMedia | src/hooks/usePosts.js:282-309 | the table's keys are exactly the URIs that resolve; each blob holds its URI's first usable candidate and MIME type; handles are fresh and distinct |
| PostInfo.FirstText | src/hooks/usePosts.js:412 | the post text is non-empty exactly when some `data[].post` is truthy |
| PostInfo.FirstTextIsFirst | src/hooks/usePosts.js:412 | a non-empty text is that of the first element with a truthy `post` |
| PostInfo.PushItem | src/hooks/usePosts.js:430-456 | one item pushes its media entry, then its place, then its link |
| PostInfo.ItemsEntriesStep | src/hooks/usePosts.js:429-457 | one more item extends the entries by that item's entries |
| PostInfo.CollectItemEntries | src/hooks/usePosts.js:429-457 | the inner loop yields the items' entries in order |
| PostInfo.AttachmentsEntriesStep | src/hooks/usePosts.js:428-458 | one more attachment extends the entries by its items' entries |
| PostInfo.PushAttachments | src/hooks/usePosts.js:428-458 | the outer loop appends every attachment's entries in order |
| PostInfo.GetPostInfo | src/hooks/usePosts.js:410-470 | `getPostInfo` is the post's text, the shared-link entry and every item's entries in order, its tags, timestamp and title |
| PostInfo.ItemsEntriesMembers | src/hooks/usePosts.js:429-457 | every entry comes from one of the items, and every item's entries are present |
| PostInfo.AttachmentsEntriesMembers | src/hooks/usePosts.js:428-458 | every entry comes from one of the attachments, and all of theirs are present |
| PostInfo.MediaFileEntries | src/hooks/usePosts.js:431-440 | a media entry's type is that of its URI (video before photo before media), and its blob is the table's entry for the URI, or null |
| PostInfo.ItemMediaEntry | src/hooks/usePosts.js:430-441 | every item with media yields a media entry among the post's entries |
| PostInfo.KeptPostHasVisual | src/hooks/usePosts.js:430-441 | a post with a photo or video URI gets a photo or video entry |
| PostsHook.TimelineProps | src/hooks/usePosts.js:313-331 | the timeline holds each raw post, decoded, once, newest first; the second sort changes nothing |
| PostsHook.TimelineRepairs | src/hooks/usePosts.js:313-331 | on a newest-first archive with mis-encoded texts, the timeline is the original posts |
| PostsHook.UploadHandles | src/hooks/usePosts.js:263-296 | the handles an upload creates are distinct from one another and lie above those in use |
| PostsHook.Ingest | src/hooks/usePosts.js:129-345 | the upload's result: no posts exactly when no posts file yields any; otherwise the sorted decoded timeline, its years, the decoded name, the newest picture (none when its extraction throws) and the resolved media table, with fresh distinct handles |
| PostsHook.PostsState.constructor | src/hooks/usePosts.js:6-23 | the hook's initial state: empty lists and table, no picture or name, filters `all` |
| PostsHook.PostsState.HandleFileUpload | src/hooks/usePosts.js:121-353 | an archive without posts leaves the state untouched; otherwise the posts, name, picture (none when the newest picture does not extract) and media table become the upload's, and the filters and selection are kept |
| PostsHook.PostsState.Store | src/hooks/usePosts.js:336-339 | the final state updates, after which the filtered list and the years are current |
| PostsHook.PostsState.StoreProfile | src/hooks/usePosts.js:211-274 | the name, the picture and the media table are set, and nothing else |
| PostsHook.PostsState.StorePosts | src/hooks/usePosts.js:337-339 | the posts and years are set, and the filtered list is recomputed under the current filters |
| PostsHook.PostsState.SetYearFilter | src/hooks/usePosts.js:107-111 | a new year filter, with the filtered list recomputed and nothing else changed |
| PostsHook.PostsState.SetDateFilter | src/hooks/usePosts.js:107-111 | a new date filter, with the filtered list recomputed and nothing else changed |
| PostsHook.PostsState.SetPostTypeFilter | src/hooks/usePosts.js:107-111 | a new type filter, with the filtered list recomputed and nothing else changed |
| PostsHook.PostsState.SetSelectedPost | src/hooks/usePosts.js:22 | selecting a post changes nothing else |
| PostsHook.PostsState.GetPostInfo | src/hooks/usePosts.js:410-470 | `getPostInfo` against the current media table |
| Stories.FilterStoriesIsKeep | src/hooks/useStories.js:21-48 | the date step and the search step are one filter by their conjunction |
| Stories.FilterStoriesMembers | src/hooks/useStories.js:21-48 | a story is shown exactly when it is in the list, passes the date step and, for a non-empty term, has a title containing the term case-insensitively |
| Stories.FilterStoriesSubseq | src/hooks/useStories.js:21-48 | the shown stories keep the list's order |
| Stories.FilterStoriesDefault | src/hooks/useStories.js:21-48 | with no date filter and an empty term, every story is shown |
| Stories.FilterStoriesIdempotent | src/hooks/useStories.js:21-48 | filtering the shown stories again changes nothing |
| Stories.ToLowerIdempotent | src/hooks/useStories.js:43 | lowering twice is lowering once |
| Stories.SearchIgnoresCase | src/hooks/useStories.js:40-45 | the term's case does not matter: the term and its lowered form show the same stories |
| Stories.FirstStoriesFile | src/hooks/useStories.js:89-95 | the stories file is a non-directory entry ending `archived_stories.json`; none exactly when no such entry exists |
| Stories.FirstStoriesFileIsFirst | src/hooks/useStories.js:89-95 | no earlier entry qualifies |
| Stories.FindStoriesFile | src/hooks/useStories.js:86-95 | the search loop with `break` stops at the first stories file |
| Stories.CollectStoryStep | src/hooks/useStories.js:130-140 | one story adds its first-media URI to the set and counts it, exactly when that URI is truthy |
| Stories.StoryUrisMembers | src/hooks/useStories.js:127-140 | the set holds each first-media URI once, and nothing else |
| Stories.CollectStoryUris | src/hooks/useStories.js:127-140 | `mediaPaths` in insertion order without repetitions, and `storiesWithMedia` is the number of stories that have a first-media URI |
| Stories.MediaInfoOf | src/hooks/useStories.js:227-245 | `getMediaInfo` is null exactly without a first-attachment media; otherwise path, type, blob (null when not resolved) and description as the code computes them |
| Stories.MediaInfoFilename | src/hooks/useStories.js:231 | the filename is the last path segment, or `Unknown file` when that is empty |
| Stories.MediaInfoBlob | src/hooks/useStories.js:239 | a resolved URI's blob appears in the info |
| StoriesHook.AttemptedProps | src/hooks/useStories.js:147-155 | at most 50 (mobile) or 200 URIs are attempted: the first ones in insertion order, or all of them when there are fewer |
| StoriesHook.LoadStories | src/hooks/useStories.js:66-224 | an upload fails exactly when the file is too large on mobile, no stories file exists or it lacks `archived_stories_v2`; otherwise it returns the stories in source order and a table keyed by the attempted URIs that resolve within the mobile size cap, with fresh distinct handles |
| StoriesHook.CleanupAsWrittenLeaks | src/hooks/useStories.js:54-59 | the cleanup as written revokes nothing a later upload created |
| StoriesHook.CleanupRevokesAll | src/hooks/useStories.js:54-59 | the intended cleanup revokes exactly the handles of the current table |
| StoriesHook.StoriesState.constructor | src/hooks/useStories.js:6-18 | the hook's initial state: empty lists and table, no filter, empty term |
| StoriesHook.StoriesState.HandleFileUpload | src/hooks/useStories.js:66-224 | a failing upload leaves the state untouched; otherwise the stories (unsorted) and table become the upload's, and the filters are kept |
| StoriesHook.StoriesState.Store | src/hooks/useStories.js:201-203 | the final state updates, with the filtered list current |
| StoriesHook.StoriesState.SetDateFilter | src/hooks/useStories.js:21-52 | a new date filter, with the filtered list recomputed and nothing else changed |
| StoriesHook.StoriesState.SetSearchTerm | src/hooks/useStories.js:40-52 | a new search term, with the filtered list recomputed and nothing else changed |
| StoriesHook.StoriesState.SetSelectedStory | src/hooks/useStories.js:17 | selecting a story changes nothing else |
| StoriesHook.StoriesState.ResetApp | src/hooks/useStories.js:248-256 | every handle of the table is revoked, and the state is back to its initial values |
| StoriesHook.StoriesState.Unmount | src/hooks/useStories.js:54-59 | the intended cleanup: every handle of the current table ends up revoked, and no other state changes |
| Pagination.TotalPages | src/components/PostsTimeline.jsx:24 | `Math.ceil(n / per)`: the least number of pages that holds `n` items; 0 exactly for none |
| Pagination.SliceBound | src/components/PostsTimeline.jsx:26 | a `slice` bound clamped into `[0, n]` |
| Pagination.Slice | src/components/PostsTimeline.jsx:26 | a slice is never longer than its input |
| Pagination.PageItemsRange | src/components/PostsTimeline.jsx:25-26 | page `p` holds items `[(p-1)*per, min(n, p*per))`, at most `per`, and is non-empty exactly on a valid page |
| Pagination.PageItemsAt | src/components/PostsTimeline.jsx:25-26 | the `i`th item of a page is the item at global index `startIndex + i` |
| Pagination.PagedPrefix | src/components/PostsTimeline.jsx:24-26 | pages `1..k` together are the first `min(n, k*per)` items |
| Pagination.PagesCover | src/components/PostsTimeline.jsx:24-26 | all pages together are the whole list, each item once, in order |
| Pagination.ShowControlsIff | src/components/PostsTimeline.jsx:169 | the controls appear exactly when there are at least two pages |
| Pagination.ButtonsMatchGuard | src/components/PostsTimeline.jsx:171-189 | on a valid page, each button is enabled exactly when the page change it asks for is accepted |
| Pagination.FortyFive | src/components/PostsTimeline.jsx:22-26 | 45 posts make three pages of 20, 20 and 5 |
| PostsTimeline.GroupByDay | src/components/PostsTimeline.jsx:29-37 | the reduce gives one key per day in first-appearance order, and each group is that day's posts in page order |
| PostsTimeline.DaysMembers | src/components/PostsTimeline.jsx:29-37 | the keys are exactly the days of the page's posts, without repetition |
| PostsTimeline.NewDayEmpty | src/components/PostsTimeline.jsx:32-34 | a day that is not yet a key has an empty group |
| PostsTimeline.SameDayMembers | src/components/PostsTimeline.jsx:29-37 | a group holds exactly the page's posts of its day |
| PostsTimeline.SameDayIsFilter | src/components/PostsTimeline.jsx:29-37 | a group keeps page order |
| PostsTimeline.SameDayAppend | src/components/PostsTimeline.jsx:35 | pushing a post extends its own day's group and no other |
| PostsTimeline.GroupedStep | src/components/PostsTimeline.jsx:29-37 | one more post adds itself once to the groups of distinct keys when its day is among them |
| PostsTimeline.EveryPostOnce | src/components/PostsTimeline.jsx:29-37 | the groups together hold every post of the page exactly once |
| PostsTimeline.NewDayGroup | src/components/PostsTimeline.jsx:32-35 | a post on a new day opens a last group of its own |
| PostsTimeline.Timeline.constructor | src/components/PostsTimeline.jsx:5-26 | the timeline starts on page 1 over the given posts |
| PostsTimeline.Timeline.HandlePageChange | src/components/PostsTimeline.jsx:39-44 | an accepted page becomes current and shows posts; an out-of-range one changes nothing |
| PostsTimeline.Timeline.GroupedPosts | src/components/PostsTimeline.jsx:25-37 | the day groups of the current page |
| StoriesGrid.CardKeys | src/components/StoriesGrid.jsx:83-92 | one card key per story shown on the page |
| StoriesGrid.CardKeysGlobal | src/components/StoriesGrid.jsx:85 | each key carries the story's index in the whole list, so the keys on a page are distinct even when timestamps repeat |
| StoriesGrid.Grid.constructor | src/components/StoriesGrid.jsx:50 | the grid starts on page 1 |
| StoriesGrid.Grid.SetStories | src/components/StoriesGrid.jsx:53-55 | a new list sends the grid back to page 1, which shows stories whenever there are any |
| StoriesGrid.Grid.HandlePageChange | src/components/StoriesGrid.jsx:61-66 | an accepted page becomes current and shows stories; an out-of-range one changes nothing |
| PostView.AllMediaProps | src/components/PostDetail.jsx:8-10 | `allMedia` is exactly the photo and video entries, photos first, each kind in its original order; places and links are left out |
| PostView.LinkSplit | src/components/PostDetail.jsx:15-21 | the other links and the Facebook links partition the links by `facebook.com`; `facebookLinks` lists the shared links first |
| PostView.FacebookBlockOf | src/components/PostDetail.jsx:125-160 | the Facebook preview is drawn exactly when there is a Facebook link |
| PostView.FacebookBlockSource | src/components/PostDetail.jsx:145-155 | the preview comes from the first shared link when there is one, otherwise from a `facebook.com` link, and its href then mentions `facebook.com` |
| PostView.LinkBlockAsWritten | src/components/PostCard.jsx:111-137 | the card's other-link block is drawn exactly when there is an other link |
| PostView.LinkBlockCorrected | src/components/PostDetail.jsx:164-189 | the block drawn from the first other link alone, as in the detail view |
| PostView.LinkBlockCorrectedNotFacebook | src/components/PostDetail.jsx:175-185 | the corrected block never links to `facebook.com` |
| PostView.LinkBlockAgree | src/components/PostCard.jsx:116-130 | when the first link is itself an other link, the card's block and the corrected block agree |
| PostView.LinkBlockMixesLinks | src/components/PostCard.jsx:116-130 | on a post linking first to Facebook and then elsewhere, the card shows the other site's name with the Facebook link's source and url |
| PostView.MixedLinksSplit | src/components/PostCard.jsx:11-15 | that post has two links, of which only the second is an other link |
| PostView.FacebookPostIsFacebook | src/components/PostCard.jsx:15 | its first link mentions `facebook.com`, and its second does not |
| PostView.NameFromTitle | src/components/PostDetail.jsx:39 | the title cut at ` shared`, then ` updated`, then ` added`: a prefix with none of them, the whole title when it has none |
| PostView.DisplayName | src/components/PostDetail.jsx:39 | `profileName` when non-empty, else the name from the title when non-empty, else `You`; never empty |
| PostView.AvatarLetter | src/components/PostDetail.jsx:91 | the avatar letter is the profile name's initial when there is one, else the initial of the name in the title, else `Y` (for `You`), in particular for an empty title |
| PostView.DisplayNameFallbacks | src/components/PostDetail.jsx:39 | a title without label words is the name; an empty title gives `You` |
| PostView.NameBeforeShared | src/components/PostDetail.jsx:39 | `<name> shared …` yields `<name>`, for a name in which no space is followed by `s`, `u` or `a` |
| PostView.PlainNameNoLabel | src/components/PostDetail.jsx:39 | a name in which no space is followed by `s`, `u` or `a` contains neither ` updated` nor ` added` |
| PostView.DisplayNameShared | src/components/PostCard.jsx:22-23 | `Kenneth Quibel shared a post.` yields `Kenneth Quibel` |
| PostDetail.NextIndex | src/components/PostDetail.jsx:46-49 | next moves to `i + 1`, and from the last index to 0, staying in range |
| PostDetail.PrevIndex | src/components/PostDetail.jsx:41-44 | previous moves to `i - 1`, and from 0 to the last index, staying in range |
| PostDetail.NextPrevInverse | src/components/PostDetail.jsx:41-49 | next then previous, or previous then next, restores the index |
| PostDetail.NextTimesForward | src/components/PostDetail.jsx:46-49 | `k` presses of next before the end move `k` places |
| PostDetail.NextTimesAdd | src/components/PostDetail.jsx:46-49 | `a` presses then `b` presses are `a + b` presses |
| PostDetail.NextFullCircle | src/components/PostDetail.jsx:46-49 | as many presses of next as there are media come back to the start |
| PostDetail.RunInRange | src/components/PostDetail.jsx:34-49 | from a valid index, any sequence of previous, next and thumbnail presses keeps the index in range |
| PostDetail.Carousel.constructor | src/components/PostDetail.jsx:34-36 | the carousel starts at index 0 over `allMedia`, with the modal closed |
| PostDetail.Carousel.CurrentMedia | src/components/PostDetail.jsx:36 | the current media is a photo or video of the post; undefined exactly when there is none |
| PostDetail.Carousel.Counter | src/components/PostDetail.jsx:246 | the counter reads `i + 1 / n` with `1 <= i + 1 <= n` |
| PostDetail.Carousel.Next | src/components/PostDetail.jsx:46-49 | `handleNextMedia` moves the index by `NextIndex` and keeps it in range |
| PostDetail.Carousel.Prev | src/components/PostDetail.jsx:41-44 | `handlePrevMedia` moves the index by `PrevIndex` and keeps it in range |
| PostDetail.Carousel.Select | src/components/PostDetail.jsx:264 | a thumbnail click selects its index |
| PostDetail.Carousel.Open | src/components/PostDetail.jsx:51-53 | opening the modal keeps the index |
| PostDetail.Carousel.Close | src/components/PostDetail.jsx:55-57 | closing the modal keeps the index |
| PostCard.HasMediaIff | src/components/PostCard.jsx:7 | `hasMedia` holds exactly when there is a photo or video entry, that is when `allMedia` is non-empty |
| PostCard.TimelineCardsShowMedia | src/components/PostCard.jsx:7 | every card on the filtered timeline shows media |
| PostCard.GridProps | src/components/PostCard.jsx:141-143 | the grid shows the first `min(4, n)` media, photos before videos, and its class names that number |
| PostCard.OverlayProps | src/components/PostCard.jsx:176-180 | the `+X` overlay is on item 3 only, exactly when more than four media exist, and shown plus `X` is all media |
| PostCard.NoOverlayWhenAllShown | src/components/PostCard.jsx:176-180 | with at most four media, all are shown and none has an overlay |
| PostCard.TagText | src/components/PostCard.jsx:191 | a tag reads `@` and the name, or `@Friend` |
| PostCard.TagsProps | src/components/PostCard.jsx:188-196 | at most three tags are shown, `+k more` appears exactly when tags are left out, and shown plus `k` is every tag |
| ProgressBar.MatchAt | src/components/ProgressBar.jsx:9 | a match of `\((\d+)\/(\d+)\)` starts at `(` and has two non-empty digit groups |
| ProgressBar.MatchAtOccurs | src/components/ProgressBar.jsx:9 | a match at `i` is the text `(c/t)` standing at `i` |
| ProgressBar.FirstMatchFrom | src/components/ProgressBar.jsx:9 | the leftmost match at or after a position |
| ProgressBar.FirstMatch | src/components/ProgressBar.jsx:9 | `label.match` finds the leftmost match, and no match starts before it |
| ProgressBar.Percent | src/components/ProgressBar.jsx:13 | `c / t * 100` with a positive total, `Infinity` for `c/0`, `NaN` for `0/0` |
| ProgressBar.Width | src/components/ProgressBar.jsx:28 | the drawn width is clamped into `[0, 100]`, unchanged inside it; `Infinity` draws 100 |
| ProgressBar.RoundText | src/components/ProgressBar.jsx:45 | `Math.round`: the nearest integer, halves rounded up, not clamped |
| ProgressBar.ViewOf | src/components/ProgressBar.jsx:19-47 | the bar is indeterminate exactly when `getProgress` is null |
| ProgressBar.ShowPercentagePassesThrough | src/components/ProgressBar.jsx:6 | with `showPercentage`, the prop passes through whatever the label says |
| ProgressBar.LabelProgress | src/components/ProgressBar.jsx:5-17 | without a label or a match the result is null; otherwise it is `c/t*100` from the first `(c/t)` in the label |
| ProgressBar.MatchHere | src/components/ProgressBar.jsx:9-13 | `(c/t)` is matched where it stands, with its groups |
| ProgressBar.FirstMatchAfter | src/components/ProgressBar.jsx:9-13 | the first `(c/t)` after a prefix without `(` is the match |
| ProgressBar.OverfullLabel | src/components/ProgressBar.jsx:24-46 | a label with `c > t` draws a full bar but a text of at least 100 |
| ProgressBar.RatioAbove | src/components/ProgressBar.jsx:13 | `c > t > 0` gives more than 100 percent |
| ProgressBar.HalfWay | src/components/ProgressBar.jsx:9-13 | `Extracting media files (50/100)...` gives 50 |

## Left out

- Reading the ZIP (JSZip `loadAsync`, `async('text')`, `async('blob')`, `JSON.parse`) is a foreign call. The archive is a parameter, and each entry carries the document that reading it yields, with read and parse failures as one `Unparsable` value, and a flag saying whether extracting its blob succeeds.
- `URL.createObjectURL` and `revokeObjectURL` are foreign calls. Handles are numbers from a counter, and revocation is a set of handles.
- React is not modelled: `useState`, `useEffect`, `useCallback` and render scheduling. Hook state is class fields, and the filter effect is folded into each state-changing method.
- The transient flags `isUploading` and `isProcessing` are not modelled.
- The progress messages, `setTimeout` delays, `alert`, `console.error`, `console.log` and `window.scrollTo` are not modelled.
- The `Date` calendar, the local time zone and `toDateString` are uninterpreted functions (`Calendar`).
- Date strings are milliseconds, or `None` for an empty field.
- date-fns `isWithinInterval` is the closed interval `[start, end]`. Its exception on a reversed interval is not modelled.
- `parseInt` is base 10 with an optional sign. Leading whitespace, `0x` prefixes and fractional parts are not modelled, because the inputs here are year options and file-name stems. The result is an unbounded integer, not a double: stems above 2^53, which lose precision in JavaScript and can then tie in the picture sort, stay distinct in the model.
- `toLowerCase` lowers ASCII letters only. Unicode case mapping is not modelled.
- Strings are sequences of code points, so a lone surrogate half has no model. `escape` of one is not modelled. Nor is `charAt(0)` of a name that starts with a character outside the Basic Multilingual Plane: in JavaScript that yields a lone surrogate, while PostView.AvatarLetter yields the whole character.
- `content_sharing_links` is not modelled: the code collects it and never uses it.
- `resetApp` of `usePosts` is not modelled. It calls an undefined `setSearchTerm` and throws `ReferenceError`, so it is not a clean reset.
- The unmount cleanup of `usePosts` is not modelled. It has the same stale closure as the one in `useStories`, which is modelled.
- The mobile error-message selection is not modelled.
- A blob extraction that throws makes the candidate unusable, so the next candidate is tried. On mobile, a `QuotaExceededError` instead shows an alert and ends that URI's candidate loop; the model does not tell it apart from other extraction failures.
- JSON documents are taken to be well-typed records: every array element is an object, and every property has the expected type. In the code, a `null` element in a posts array throws at usePosts.js:228. That happens after `setProfileName` (usePosts.js:212), so the outer catch leaves the new name next to the old posts. The model has no such case.
- The mobile size check reads `_data.uncompressedSize`. The model uses the entry's size.
- `isMobile` and `isIOS` come from the user agent in the code. `isMobile` is a parameter, and `isIOS` is used only for messages.
- `Object.entries` lists integer-like keys first. The day groups use `toDateString()` keys, which are never integer-like, so first-appearance order is used.
- Sorting is modelled on sequences, not in place in an array. It is a stable insertion sort, as `Array.prototype.sort` is stable.
- The progress bar's numbers are reals with explicit `Infinity` and `NaN`, not IEEE doubles. An undefined `progress` prop is not modelled.
- `Math.round` of `Infinity` and `NaN` is left out: the model has no percentage text for them.
- JSX markup and framer-motion animation are not modelled.
- These files are not part of this model: MobileWarning, Header, UploadSection, ExportInstructions, FilterSection, StoryDetail and App.
- The stories grid's own page resets to 1 on a new list. The page that `App` passes the grid and the page reset that `App` performs are not modelled.
- The `PostsTimeline` card key and the place check-in line are not modelled.
- The carousel index is not reset when another post is shown: the `Carousel` is built per post.
- PostsHook.PostsState.HandleFileUpload: states the media table's keys, sources, MIME types and fresh handles, and the new picture. It does not restate the sort order and years, which `Valid()` carries.
- StoriesHook.StoriesState.HandleFileUpload: likewise, the filters and the filtered list are carried by `Valid()`.

## Findings

| source | as written | input that shows it | evidently intended | confidence | as-written member | corrected member |
|---|---|---|---|---|---|---|
| src/components/PostCard.jsx:116-130 | the other-link block takes name and description from `nonFacebookLinks[0]`, but source and url from `links[0]` | a post whose first link is `https://www.facebook.com/p/1` and whose second is `https://example.com/a` (`PostView.MixedLinks`) | every field from `nonFacebookLinks[0]`, as in PostDetail.jsx:164-189 | not executed | PostView.LinkBlockMixesLinks | PostView.LinkBlockCorrectedNotFacebook |
| src/hooks/useStories.js:54-59 | the unmount cleanup has empty dependencies, so it closes over the first render's `mediaFiles`, which is empty | one upload that creates a blob for `photos/a.jpg`, then unmounting | revoke every blob of the table current at unmount | not executed | StoriesHook.CleanupAsWrittenLeaks | StoriesHook.StoriesState.Unmount |
