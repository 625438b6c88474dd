/**
 * The `useStories` hook as an object: its state variables are fields, `handleFileUpload`,
 * `resetApp` and the setters are methods, and the effect that re-runs `filterStories` is
 * folded into each method that changes one of its inputs. Revoked object URLs are recorded
 * in `revoked`.
 */
module StoriesHook {
  import opened Wrappers
  import opened Seqs
  import opened Records
  import opened Archive
  import opened Dates
  import opened MediaKind
  import opened Resolve
  import opened Stories

  /** `isMobile && file.size > 100 * 1024 * 1024`. */
  predicate TooLarge(isMobile: bool, fileSize: nat) {
    isMobile && fileSize > 100 * 1024 * 1024
  }

  /** `maxMediaFiles`. */
  function MaxMedia(isMobile: bool): nat {
    if isMobile then 50 else 200
  }

  /** On mobile, an entry larger than 5 MiB is skipped as a candidate. */
  function MediaCap(isMobile: bool): Option<nat> {
    if isMobile then Some(5 * 1024 * 1024) else None
  }

  /** The stories an upload loads, or `None` when it stops with an alert and changes nothing. */
  function LoadedStories(z: Zip, isMobile: bool, fileSize: nat): Option<seq<Story>> {
    if TooLarge(isMobile, fileSize) then None
    else match FirstStoriesFile(z, z.paths)
      case None => None
      case Some(path) => StoriesOf(z.files[path].doc)
  }

  /** `Array.from(mediaPaths).slice(0, maxMediaFiles)`: the URIs whose extraction is attempted. */
  function Attempted(stories: seq<Story>, isMobile: bool): seq<string> {
    var uris := AddAll([], StoryUris(stories));
    if |uris| <= MaxMedia(isMobile) then uris else uris[..MaxMedia(isMobile)]
  }

  /**
   * At most 50 (mobile) or 200 URIs are attempted, the first ones in first-seen order, each once;
   * when there are no more than that, all of them are.
   */
  lemma AttemptedProps(stories: seq<Story>, isMobile: bool)
    ensures var uris := AddAll([], StoryUris(stories));
      |Attempted(stories, isMobile)| <= MaxMedia(isMobile) &&
      Attempted(stories, isMobile) == uris[..|Attempted(stories, isMobile)|] &&
      (|uris| <= MaxMedia(isMobile) ==> Attempted(stories, isMobile) == uris)
    ensures NoDups(Attempted(stories, isMobile))
  {
    AddAllNoDups([], StoryUris(stories));
  }

  /** What a successful upload produces, before it is stored in the hook's state. */
  datatype Loaded = Loaded(stories: seq<Story>, media: map<string, Blob>, next: nat)

  /** The handles a table holds. */
  function Handles(m: map<string, Blob>): (hs: set<nat>)
    ensures forall u :: u in m ==> m[u].handle in hs
    ensures forall h :: h in hs ==> exists u :: u in m && m[u].handle == h
  {
    set u | u in m :: m[u].handle
  }

  /**
   * The work of `handleFileUpload` between opening the archive and storing the result: the size
   * check, the search for the stories file, the format check, the URI collection and the
   * resolution of the first `maxMediaFiles` URIs (oversized entries skipped on mobile).
   */
  method LoadStories(z: Zip, isMobile: bool, fileSize: nat, next: nat) returns (r: Option<Loaded>)
    ensures r.None? <==> LoadedStories(z, isMobile, fileSize).None?
    ensures r.Some? ==> r.value.stories == LoadedStories(z, isMobile, fileSize).value
    ensures r.Some? ==>
      var base := StoriesBase(FirstStoriesFile(z, z.paths).value);
      var m := r.value.media;
      (forall u :: u in m <==>
        u in Attempted(r.value.stories, isMobile) && Source(z, u, base, MediaCap(isMobile)).Some?) &&
      (forall u :: u in m ==>
        m[u].source == Source(z, u, base, MediaCap(isMobile)).value && m[u].mime == MimeFor(u))
    ensures r.Some? ==> r.value.next >= next
    ensures r.Some? ==> forall u :: u in r.value.media ==> next <= r.value.media[u].handle < r.value.next
    ensures r.Some? ==> forall u, v :: u in r.value.media && v in r.value.media && u != v ==>
      r.value.media[u].handle != r.value.media[v].handle
  {
    if isMobile && fileSize > 100 * 1024 * 1024 {
      return None;
    }
    var file := FindStoriesFile(z);
    if file.None? {
      return None;
    }
    var path := file.value;
    var data := StoriesOf(z.files[path].doc);
    if data.None? {
      return None;
    }
    var stories := data.value;
    var uris, withMedia := CollectStoryUris(stories);
    var limit := if isMobile then 50 else 200;
    var attempted := if |uris| <= limit then uris else uris[..limit];
    AttemptedProps(stories, isMobile);
    var table, next' := ResolveMedia(z, attempted, StoriesBase(path), MediaCap(isMobile), next);
    r := Some(Loaded(stories, table, next'));
  }

  /** The handles an unmount cleanup written as `useEffect(() => () => revoke(mediaFiles), [])` revokes. */
  function CleanupAsWritten(mounted: map<string, Blob>, current: map<string, Blob>): set<nat> {
    Handles(mounted)
  }

  /** The handles the cleanup is meant to revoke: those of the table at the time of unmounting. */
  function Cleanup(current: map<string, Blob>): set<nat> {
    Handles(current)
  }

  /**
   * The cleanup closes over the table of the first render, which is empty, so a blob created by
   * an upload survives the unmount.
   */
  lemma CleanupAsWrittenLeaks(b: Blob)
    ensures b.handle !in CleanupAsWritten(map[], map["photos/a.jpg" := b])
  {
  }

  /** The intended cleanup revokes every handle of the current table. */
  lemma CleanupRevokesAll(current: map<string, Blob>)
    ensures forall u :: u in current ==> current[u].handle in Cleanup(current)
    ensures forall h :: h in Cleanup(current) ==> exists u :: u in current && current[u].handle == h
  {
  }

  class StoriesState {
    /** The local calendar `new Date(ms)` reads days from. */
    const calendar: Calendar
    /** `isMobile`, from the user agent. */
    const isMobile: bool
    var stories: seq<Story>
    var filteredStories: seq<Story>
    /** The `mediaFiles` lookup: media URI to the blob created for it. */
    var mediaFiles: map<string, Blob>
    var dateFilter: DateFilter
    var searchTerm: string
    var selectedStory: Option<Story>
    /** The next object-URL handle to hand out. */
    var nextHandle: nat
    /** The handles passed to `URL.revokeObjectURL` so far. */
    var revoked: set<nat>

    ghost predicate Valid()
      reads this
    {
      filteredStories == FilterStories(stories, calendar, dateFilter, searchTerm) &&
      (forall u :: u in mediaFiles ==> mediaFiles[u].handle < nextHandle && mediaFiles[u].handle !in revoked) &&
      (forall u, v :: u in mediaFiles && v in mediaFiles && u != v ==> mediaFiles[u].handle != mediaFiles[v].handle) &&
      (forall h :: h in revoked ==> h < nextHandle)
    }

    constructor(cal: Calendar, mobile: bool)
      ensures Valid()
      ensures calendar == cal && isMobile == mobile
      ensures stories == [] && filteredStories == [] && mediaFiles == map[] && dateFilter == NoDateFilter
      ensures searchTerm == "" && selectedStory == None && nextHandle == 0 && revoked == {}
    {
      calendar := cal;
      isMobile := mobile;
      stories := [];
      filteredStories := [];
      mediaFiles := map[];
      dateFilter := NoDateFilter;
      searchTerm := "";
      selectedStory := None;
      nextHandle := 0;
      revoked := {};
    }

    /**
     * `handleFileUpload` on an opened archive of `fileSize` bytes. When the upload stops early
     * nothing changes. Otherwise the stories are replaced, the table becomes the blobs of the
     * attempted URIs that resolve (the previous blobs are dropped without being revoked), and
     * the filtered list is recomputed under the unchanged filter and search term.
     */
    method HandleFileUpload(z: Zip, fileSize: nat)
      requires Valid()
      modifies this
      ensures Valid()
      ensures LoadedStories(z, isMobile, fileSize).None? ==> unchanged(this)
      ensures dateFilter == old(dateFilter) && searchTerm == old(searchTerm)
      ensures selectedStory == old(selectedStory) && revoked == old(revoked)
      ensures LoadedStories(z, isMobile, fileSize).Some? ==> stories == LoadedStories(z, isMobile, fileSize).value
      ensures LoadedStories(z, isMobile, fileSize).Some? ==>
        var base := StoriesBase(FirstStoriesFile(z, z.paths).value);
        (forall u :: u in mediaFiles <==>
          u in Attempted(stories, isMobile) && Source(z, u, base, MediaCap(isMobile)).Some?) &&
        (forall u :: u in mediaFiles ==>
          mediaFiles[u].source == Source(z, u, base, MediaCap(isMobile)).value &&
          mediaFiles[u].mime == MimeFor(u) && old(nextHandle) <= mediaFiles[u].handle)
    {
      var r := LoadStories(z, isMobile, fileSize, nextHandle);
      if r.None? {
        return;
      }
      Store(r.value);
      assert mediaFiles == r.value.media && stories == r.value.stories;
    }

    /** The state updates at the end of a successful upload, followed by the filter effect. */
    method Store(l: Loaded)
      requires Valid() && l.next >= nextHandle
      requires forall u :: u in l.media ==> nextHandle <= l.media[u].handle < l.next
      requires forall u, v :: u in l.media && v in l.media && u != v ==> l.media[u].handle != l.media[v].handle
      modifies this
      ensures Valid()
      ensures stories == l.stories && mediaFiles == l.media && nextHandle == l.next
      ensures dateFilter == old(dateFilter) && searchTerm == old(searchTerm)
      ensures selectedStory == old(selectedStory) && revoked == old(revoked)
    {
      mediaFiles := l.media;
      nextHandle := l.next;
      stories := l.stories;
      filteredStories := FilterStories(stories, calendar, dateFilter, searchTerm);
    }

    /** `setDateFilter` followed by the filter effect. */
    method SetDateFilter(df: DateFilter)
      requires Valid()
      modifies this
      ensures Valid()
      ensures dateFilter == df
      ensures stories == old(stories) && mediaFiles == old(mediaFiles) && searchTerm == old(searchTerm)
      ensures selectedStory == old(selectedStory) && nextHandle == old(nextHandle) && revoked == old(revoked)
    {
      dateFilter := df;
      filteredStories := FilterStories(stories, calendar, dateFilter, searchTerm);
    }

    /** `setSearchTerm` followed by the filter effect. */
    method SetSearchTerm(term: string)
      requires Valid()
      modifies this
      ensures Valid()
      ensures searchTerm == term
      ensures stories == old(stories) && mediaFiles == old(mediaFiles) && dateFilter == old(dateFilter)
      ensures selectedStory == old(selectedStory) && nextHandle == old(nextHandle) && revoked == old(revoked)
    {
      searchTerm := term;
      filteredStories := FilterStories(stories, calendar, dateFilter, searchTerm);
    }

    /** `setSelectedStory`: opening or closing the detail view. */
    method SetSelectedStory(s: Option<Story>)
      requires Valid()
      modifies this
      ensures Valid()
      ensures selectedStory == s
      ensures stories == old(stories) && filteredStories == old(filteredStories)
      ensures mediaFiles == old(mediaFiles) && dateFilter == old(dateFilter) && searchTerm == old(searchTerm)
      ensures nextHandle == old(nextHandle) && revoked == old(revoked)
    {
      selectedStory := s;
    }

    /**
     * `resetApp`: every blob of the table is revoked, and the state returns to that of a fresh
     * hook (handle numbering goes on).
     */
    method ResetApp()
      requires Valid()
      modifies this
      ensures Valid()
      ensures revoked == old(revoked) + Handles(old(mediaFiles))
      ensures stories == [] && filteredStories == [] && mediaFiles == map[] && dateFilter == NoDateFilter
      ensures searchTerm == "" && selectedStory == None && nextHandle == old(nextHandle)
    {
      revoked := revoked + Handles(mediaFiles);
      stories := [];
      filteredStories := [];
      mediaFiles := map[];
      dateFilter := NoDateFilter;
      searchTerm := "";
      selectedStory := None;
      FilterStoriesDefault([], calendar);
    }

    /** The unmount cleanup as it is meant to work: revoke the blobs of the current table. */
    method Unmount()
      requires Valid()
      modifies this
      ensures revoked == old(revoked) + Cleanup(old(mediaFiles))
      ensures forall u :: u in mediaFiles ==> mediaFiles[u].handle in revoked
      ensures stories == old(stories) && mediaFiles == old(mediaFiles) && nextHandle == old(nextHandle)
      ensures filteredStories == old(filteredStories) && dateFilter == old(dateFilter)
      ensures searchTerm == old(searchTerm) && selectedStory == old(selectedStory)
    {
      revoked := revoked + Cleanup(mediaFiles);
    }
  }
}
