/**
 * The pure parts of the `useStories` hook: `filterStories`, the lookup of the stories file,
 * the collection of story media URIs and `getMediaInfo`.
 */
module Stories {
  import opened Wrappers
  import opened Seqs
  import opened Text
  import opened Records
  import opened Archive
  import opened Dates
  import opened MediaKind

  // ---------------------------------------------------------------------------
  // filterStories
  // ---------------------------------------------------------------------------

  /** `story.title?.toLowerCase().includes(searchTerm.toLowerCase())`. */
  predicate TitleMatches(s: Story, term: string) {
    s.title.Some? && Contains(ToLower(s.title.value), ToLower(term))
  }

  /** The date step, then, for a non-empty search term, the title step. */
  function FilterStories(stories: seq<Story>, cal: Calendar, df: DateFilter, term: string): seq<Story> {
    var dated := Filter(stories, (s: Story) => DateMatches(cal, df, s.timestamp));
    if term == "" then dated else Filter(dated, s => TitleMatches(s, term))
  }

  predicate KeepStory(cal: Calendar, df: DateFilter, term: string, s: Story) {
    DateMatches(cal, df, s.timestamp) && (term == "" || TitleMatches(s, term))
  }

  /** The two steps are one filter by their conjunction. */
  lemma FilterStoriesIsKeep(stories: seq<Story>, cal: Calendar, df: DateFilter, term: string)
    ensures FilterStories(stories, cal, df, term) == Filter(stories, s => KeepStory(cal, df, term, s))
  {
    var dp := (s: Story) => DateMatches(cal, df, s.timestamp);
    var kp := (s: Story) => KeepStory(cal, df, term, s);
    if term == "" {
      assert forall s :: kp(s) == dp(s);
      FilterFilter(stories, dp, (s: Story) => true, kp);
      FilterAll(Filter(stories, dp), (s: Story) => true);
    } else {
      FilterFilter(stories, dp, s => TitleMatches(s, term), kp);
    }
  }

  /** A story is shown exactly when it is on the list and passes both steps. */
  lemma FilterStoriesMembers(stories: seq<Story>, cal: Calendar, df: DateFilter, term: string)
    ensures forall s :: s in FilterStories(stories, cal, df, term) <==> s in stories && KeepStory(cal, df, term, s)
  {
    FilterStoriesIsKeep(stories, cal, df, term);
    FilterMembers(stories, s => KeepStory(cal, df, term, s));
  }

  /** The shown stories keep their order on the list. */
  lemma FilterStoriesSubseq(stories: seq<Story>, cal: Calendar, df: DateFilter, term: string)
    ensures IsSubseq(FilterStories(stories, cal, df, term), stories)
  {
    FilterStoriesIsKeep(stories, cal, df, term);
    FilterIsSubseq(stories, s => KeepStory(cal, df, term, s));
  }

  /** With no date filter and an empty search, all stories are shown. */
  lemma FilterStoriesDefault(stories: seq<Story>, cal: Calendar)
    ensures FilterStories(stories, cal, NoDateFilter, "") == stories
  {
    FilterAll(stories, (s: Story) => DateMatches(cal, NoDateFilter, s.timestamp));
  }

  /** Filtering the filtered list again changes nothing. */
  lemma FilterStoriesIdempotent(stories: seq<Story>, cal: Calendar, df: DateFilter, term: string)
    ensures FilterStories(FilterStories(stories, cal, df, term), cal, df, term) == FilterStories(stories, cal, df, term)
  {
    var kp := (s: Story) => KeepStory(cal, df, term, s);
    FilterStoriesIsKeep(stories, cal, df, term);
    FilterStoriesIsKeep(Filter(stories, kp), cal, df, term);
    FilterIdempotent(stories, kp);
  }

  /** Lowering a lowered text changes nothing: it has no upper-case letter left. */
  lemma ToLowerIdempotent(s: string)
    ensures ToLower(ToLower(s)) == ToLower(s)
  {
    var l := ToLower(s);
    assert forall i :: 0 <= i < |l| ==> ToLower(l)[i] == l[i];
  }

  /** The search ignores the case of the term: typing it in upper or lower case shows the same stories. */
  lemma SearchIgnoresCase(stories: seq<Story>, cal: Calendar, df: DateFilter, term: string)
    ensures FilterStories(stories, cal, df, ToLower(term)) == FilterStories(stories, cal, df, term)
  {
    ToLowerIdempotent(term);
    var dated := Filter(stories, (s: Story) => DateMatches(cal, df, s.timestamp));
    if term != "" {
      assert ToLower(term) != "";
      assert forall s :: TitleMatches(s, ToLower(term)) == TitleMatches(s, term);
      FilterExtensional(dated, s => TitleMatches(s, ToLower(term)), s => TitleMatches(s, term));
    }
  }

  lemma {:induction false} FilterExtensional<T>(s: seq<T>, p: T -> bool, q: T -> bool)
    requires forall x :: p(x) == q(x)
    ensures Filter(s, p) == Filter(s, q)
  {
    if s != [] {
      FilterExtensional(s[1..], p, q);
    }
  }

  // ---------------------------------------------------------------------------
  // The stories file
  // ---------------------------------------------------------------------------

  const StoriesFileName := "archived_stories.json"

  predicate IsStoriesFile(z: Zip, path: string) {
    path in z.files && EndsWith(path, StoriesFileName) && !z.files[path].dir
  }

  /** The first entry of `paths` that is a stories file. */
  function FirstStoriesFile(z: Zip, paths: seq<string>): (r: Option<string>)
    ensures r.Some? ==> r.value in paths && IsStoriesFile(z, r.value)
    ensures r.None? <==> forall i :: 0 <= i < |paths| ==> !IsStoriesFile(z, paths[i])
  {
    if paths == [] then None
    else if IsStoriesFile(z, paths[0]) then Some(paths[0])
    else
      var r := FirstStoriesFile(z, paths[1..]);
      assert forall i :: 1 <= i < |paths| ==> paths[1..][i - 1] == paths[i];
      r
  }

  /** The entry before which the search stops is the first stories file: none earlier qualifies. */
  lemma {:induction false} FirstStoriesFileIsFirst(z: Zip, paths: seq<string>) returns (i: nat)
    requires FirstStoriesFile(z, paths).Some?
    ensures i < |paths| && paths[i] == FirstStoriesFile(z, paths).value
    ensures forall j :: 0 <= j < i ==> !IsStoriesFile(z, paths[j])
  {
    if IsStoriesFile(z, paths[0]) {
      i := 0;
    } else {
      var k := FirstStoriesFileIsFirst(z, paths[1..]);
      i := k + 1;
    }
  }

  /** The `for … of … break` search over the entries. */
  method FindStoriesFile(z: Zip) returns (r: Option<string>)
    ensures r == FirstStoriesFile(z, z.paths)
  {
    var i := 0;
    while i < |z.paths|
      invariant 0 <= i <= |z.paths|
      invariant FirstStoriesFile(z, z.paths) == FirstStoriesFile(z, z.paths[i..])
    {
      var path := z.paths[i];
      assert z.paths[i..][1..] == z.paths[i + 1..];
      if EndsWith(path, StoriesFileName) && !z.files[path].dir {
        return Some(path);
      }
      i := i + 1;
    }
    return None;
  }

  /** `data.archived_stories_v2` when truthy; `None` where the handler gives up. */
  function StoriesOf(d: Doc): Option<seq<Story>> {
    match d
    case JsonObject(_, Some(v), _) => Some(v)
    case _ => None
  }

  /** `storiesPath`: the stories file's path with (the first occurrence of) its name removed. */
  function StoriesBase(path: string): string {
    RemoveFirst(path, StoriesFileName)
  }

  // ---------------------------------------------------------------------------
  // Story media
  // ---------------------------------------------------------------------------

  /** `story.attachments?.[0]?.data?.[0]?.media`. */
  function FirstMedia(s: Story): Option<Media> {
    if s.attachments.Some? && |s.attachments.value| > 0 then
      var a := s.attachments.value[0];
      if a.data.Some? && |a.data.value| > 0 then a.data.value[0].media else None
    else None
  }

  /** `…media?.uri`, when truthy. */
  function StoryUri(s: Story): Option<string> {
    var m := FirstMedia(s);
    if m.Some? && Truthy(m.value.uri) then m.value.uri else None
  }

  predicate HasStoryUri(s: Story) {
    StoryUri(s).Some?
  }

  function StoryUriSeq(s: Story): seq<string> {
    if StoryUri(s).Some? then [StoryUri(s).value] else []
  }

  /** The truthy first-media URIs of the stories in order, repetitions included. */
  function StoryUris(stories: seq<Story>): seq<string> {
    FlatMap(stories, StoryUriSeq)
  }

  /** One story of the `forEach`: its URI, if it has one, is added and counted. */
  lemma CollectStoryStep(stories: seq<Story>, i: nat, uris: seq<string>, withMedia: nat)
    requires i < |stories|
    requires uris == AddAll([], StoryUris(stories[..i]))
    requires withMedia == |Filter(stories[..i], HasStoryUri)|
    ensures var m := FirstMedia(stories[i]);
      if m.Some? && Truthy(m.value.uri) then
        Add(uris, m.value.uri.value) == AddAll([], StoryUris(stories[..i + 1])) &&
        withMedia + 1 == |Filter(stories[..i + 1], HasStoryUri)|
      else
        uris == AddAll([], StoryUris(stories[..i + 1])) &&
        withMedia == |Filter(stories[..i + 1], HasStoryUri)|
  {
    var s := stories[i];
    FlatMapStep(stories, i, StoryUriSeq);
    AddAllAppend([], StoryUris(stories[..i]), StoryUriSeq(s));
    FilterAppend(stories[..i], [s], HasStoryUri);
    assert stories[..i + 1] == stories[..i] + [s];
  }

  /** The distinct URIs are exactly the URIs of the stories that have one. */
  lemma StoryUrisMembers(stories: seq<Story>)
    ensures NoDups(AddAll([], StoryUris(stories)))
    ensures forall u :: u in AddAll([], StoryUris(stories)) <==> exists s :: s in stories && StoryUri(s) == Some(u)
  {
    AddAllNoDups([], StoryUris(stories));
    AddAllMembers([], StoryUris(stories));
    FlatMapMembers(stories, StoryUriSeq);
    forall u ensures u in AddAll([], StoryUris(stories)) <==> exists s :: s in stories && StoryUri(s) == Some(u) {
      if u in AddAll([], StoryUris(stories)) {
        var k :| 0 <= k < |stories| && u in StoryUriSeq(stories[k]);
        assert StoryUri(stories[k]) == Some(u);
      }
      if exists s :: s in stories && StoryUri(s) == Some(u) {
        var s :| s in stories && StoryUri(s) == Some(u);
        var k :| 0 <= k < |stories| && stories[k] == s;
        assert u in StoryUriSeq(stories[k]);
      }
    }
  }

  /**
   * The `forEach` that fills the `mediaPaths` set and counts `storiesWithMedia`: the distinct
   * URIs in first-seen order, and the number of stories with one (repetitions counted).
   */
  method CollectStoryUris(stories: seq<Story>) returns (uris: seq<string>, withMedia: nat)
    ensures uris == AddAll([], StoryUris(stories))
    ensures NoDups(uris) && forall u :: u in uris <==> exists s :: s in stories && StoryUri(s) == Some(u)
    ensures withMedia == |Filter(stories, HasStoryUri)|
  {
    uris := [];
    withMedia := 0;
    var i := 0;
    while i < |stories|
      invariant 0 <= i <= |stories|
      invariant uris == AddAll([], StoryUris(stories[..i]))
      invariant withMedia == |Filter(stories[..i], HasStoryUri)|
    {
      CollectStoryStep(stories, i, uris, withMedia);
      var m := FirstMedia(stories[i]);
      if m.Some? && Truthy(m.value.uri) {
        uris := Add(uris, m.value.uri.value);
        withMedia := withMedia + 1;
      }
      i := i + 1;
    }
    assert stories[..i] == stories;
    StoryUrisMembers(stories);
  }


  // ---------------------------------------------------------------------------
  // getMediaInfo
  // ---------------------------------------------------------------------------

  datatype MediaInfo = MediaInfo(
    kind: Kind,
    filename: string,
    path: string,
    blobUrl: Option<Blob>,
    description: string,
    creationTimestamp: Option<int>)

  /** `getMediaInfo(story)` against the media lookup table; `None` is `null`. */
  function MediaInfoOf(s: Story, table: map<string, Blob>): (r: Option<MediaInfo>)
    ensures r.None? <==> FirstMedia(s).None?
    ensures r.Some? ==>
      var m := FirstMedia(s).value;
      var info := r.value;
      info.path == OrEmpty(m.uri) &&
      info.kind == KindOf(info.path) &&
      (info.blobUrl.Some? <==> info.path in table) &&
      (info.blobUrl.Some? ==> info.blobUrl.value == table[info.path]) &&
      info.description == OrEmpty(m.description) &&
      info.creationTimestamp == m.creationTimestamp
  {
    match FirstMedia(s)
    case None => None
    case Some(m) =>
      var uri := OrEmpty(m.uri);
      var name := LastSegment(uri);
      Some(MediaInfo(KindOf(uri), if name == "" then "Unknown file" else name, uri,
                     if uri in table then Some(table[uri]) else None,
                     OrEmpty(m.description), m.creationTimestamp))
  }

  /**
   * The file name shown is never empty and never holds a `/`: it is the last path segment of
   * the URI, or `Unknown file` when that segment is empty.
   */
  lemma MediaInfoFilename(s: Story, table: map<string, Blob>)
    requires MediaInfoOf(s, table).Some?
    ensures var info := MediaInfoOf(s, table).value;
      info.filename != "" && '/' !in info.filename
    ensures var info := MediaInfoOf(s, table).value;
      LastSegment(info.path) != "" ==> DirPrefix(info.path) + info.filename == info.path
    ensures var info := MediaInfoOf(s, table).value;
      LastSegment(info.path) == "" ==> info.filename == "Unknown file"
  {
  }

  /** A story whose URI was resolved by the upload gets its blob in the info. */
  lemma MediaInfoBlob(s: Story, table: map<string, Blob>)
    requires HasStoryUri(s) && StoryUri(s).value in table
    ensures MediaInfoOf(s, table).Some? && MediaInfoOf(s, table).value.blobUrl == Some(table[StoryUri(s).value])
  {
  }
}
