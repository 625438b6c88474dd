/**
 * The `usePosts` hook as an object: its state variables are fields, `handleFileUpload` and the
 * filter setters are methods, and the effect that re-runs `filterPosts` whenever its inputs
 * change is folded into each method (the invariant `Valid` says the filtered list is current).
 */
module PostsHook {
  import opened Wrappers
  import opened Seqs
  import opened Utf8
  import opened Records
  import opened Archive
  import opened Dates
  import opened Decode
  import opened PostsFilter
  import opened PostsIngest
  import opened Resolve
  import opened PostInfo
  import opened MediaKind

  /**
   * The order of the timeline: sort the raw posts newest first, decode each, and sort again.
   */
  function Timeline(raw: seq<Post>): seq<Post> {
    SortDesc(Map(SortDesc(raw, PostStamp), DecodePost), PostStamp)
  }

  /**
   * The timeline is the decoded posts in stable newest-first order: the second sort changes
   * nothing, because decoding keeps every timestamp; it holds each raw post, decoded, once.
   */
  lemma TimelineProps(raw: seq<Post>)
    ensures Timeline(raw) == Map(SortDesc(raw, PostStamp), DecodePost)
    ensures SortedDesc(Timeline(raw), PostStamp)
    ensures |Timeline(raw)| == |raw|
    ensures forall p :: p in Timeline(raw) <==> exists q :: q in raw && p == DecodePost(q)
  {
    var s := SortDesc(raw, PostStamp);
    SortDescProps(raw, PostStamp);
    SortDescMembers(raw, PostStamp);
    assert |s| == |multiset(s)| == |multiset(raw)| == |raw|;
    var m := Map(s, DecodePost);
    assert SortedDesc(m, PostStamp) by {
      forall i, j | 0 <= i < j < |m| ensures PostStamp(m[i]) >= PostStamp(m[j]) {
        assert PostStamp(s[i]) >= PostStamp(s[j]);
      }
    }
    SortDescSorted(m, PostStamp);
    forall p ensures p in m <==> exists q :: q in raw && p == DecodePost(q) {
      if p in m {
        var i :| 0 <= i < |m| && m[i] == p;
        assert s[i] in raw;
      }
      if exists q :: q in raw && p == DecodePost(q) {
        var q :| q in raw && p == DecodePost(q);
        var i :| 0 <= i < |s| && s[i] == q;
        assert m[i] == p;
      }
    }
  }

  /** Timeline order on an archive whose texts were mis-encoded gives back the original posts. */
  lemma TimelineRepairs(raw: seq<Post>)
    requires SortedDesc(raw, PostStamp)
    ensures Timeline(Map(raw, MisEncodePost)) == raw
  {
    var enc := Map(raw, MisEncodePost);
    assert SortedDesc(enc, PostStamp) by {
      forall i, j | 0 <= i < j < |enc| ensures PostStamp(enc[i]) >= PostStamp(enc[j]) {
        DecodePostRepairs(raw[i]);
        DecodePostRepairs(raw[j]);
        assert DecodePost(enc[i]).timestamp == enc[i].timestamp;
        assert DecodePost(enc[j]).timestamp == enc[j].timestamp;
      }
    }
    SortDescSorted(enc, PostStamp);
    TimelineProps(enc);
    var m := Map(enc, DecodePost);
    forall i | 0 <= i < |raw| ensures m[i] == raw[i] {
      DecodePostRepairs(raw[i]);
    }
    assert m == raw;
  }

  /** The two blob-bearing state variables hold distinct handles, all below `next`. */
  ghost predicate HandlesBelow(media: map<string, Blob>, picture: Option<Blob>, next: nat) {
    (forall u :: u in media ==> media[u].handle < next) &&
    (picture.Some? ==> picture.value.handle < next) &&
    (forall u, v :: u in media && v in media && u != v ==> media[u].handle != media[v].handle) &&
    (forall u :: u in media && picture.Some? ==> media[u].handle != picture.value.handle)
  }

  /** What an upload produces, before it is stored in the hook's state. */
  datatype Upload = Upload(
    posts: seq<Post>,
    name: Option<string>,
    /** `None`: leave the picture as it is; `Some(p)`: set it to `p`. */
    picture: Option<Option<Blob>>,
    media: map<string, Blob>,
    next: nat,
    years: seq<int>)

  /** The profile picture after an upload: the old one unless a picture folder was seen. */
  function PictureAfter(old_: Option<Blob>, u: Upload): Option<Blob> {
    if u.picture.Some? then u.picture.value else old_
  }

  /** Handles stay distinct across an upload: the new ones are all at or above the old bound. */
  lemma UploadHandles(media: map<string, Blob>, picture: Option<Blob>, next: nat, u: Upload)
    requires HandlesBelow(media, picture, next)
    requires forall v :: v in u.media ==> next <= u.media[v].handle < u.next
    requires forall v :: v in u.media && u.picture.Some? && u.picture.value.Some? ==>
      u.media[v].handle != u.picture.value.value.handle
    requires forall v, w :: v in u.media && w in u.media && v != w ==> u.media[v].handle != u.media[w].handle
    requires u.picture.Some? && u.picture.value.Some? ==> next <= u.picture.value.value.handle < u.next
    requires u.next >= next
    ensures HandlesBelow(u.media, PictureAfter(picture, u), u.next)
  {
  }

  /**
   * The work of `handleFileUpload` between opening the archive and storing the result: scan the
   * entries, collect the media URIs, pick the profile picture (its handle first), resolve every
   * URI to a blob, and order and decode the posts.
   */
  method Ingest(z: Zip, cal: Calendar, next: nat, media: map<string, Blob>, picture: Option<Blob>)
    returns (u: Upload)
    requires HandlesBelow(media, picture, next)
    ensures HandlesBelow(u.media, PictureAfter(picture, u), u.next)
    ensures u.posts == [] <==> CollectPosts(z, z.paths) == []
    ensures CollectPosts(z, z.paths) != [] ==> u.posts == Timeline(CollectPosts(z, z.paths))
    ensures SortedDesc(u.posts, PostStamp)
    ensures u.years == SortDesc(YearSet(u.posts, cal), Identity)
    ensures u.name == match FullName(LastProfile(z, z.paths))
      case Some(n) => Some(DecodeText(n))
      case None => None
    ensures var dir := PictureDir(z.paths);
      u.picture == if dir == "" then None
        else match Newest(z, dir)
          case Some(path) => Some(if Readable(z, path) then Some(Blob(next, path, ImageJpeg)) else None)
          case None => Some(None)
    ensures forall v {:trigger Source(z, v, PostsDir(z, z.paths), None)} :: v in u.media <==>
      v in AllUris(CollectPosts(z, z.paths)) && Source(z, v, PostsDir(z, z.paths), None).Some?
    ensures forall v {:trigger Source(z, v, PostsDir(z, z.paths), None)} :: v in u.media ==>
      u.media[v].source == Source(z, v, PostsDir(z, z.paths), None).value && u.media[v].mime == MimeFor(v)
    ensures forall v :: v in u.media ==> next <= u.media[v].handle < u.next
    ensures forall v :: v in u.media && u.picture.Some? && u.picture.value.Some? ==>
      u.media[v].handle != u.picture.value.value.handle
    ensures forall v, w :: v in u.media && w in u.media && v != w ==> u.media[v].handle != u.media[w].handle
    ensures u.picture.Some? && u.picture.value.Some? ==> next <= u.picture.value.value.handle < u.next
    ensures u.next >= next
  {
    var scan := ScanPosts(z);
    var fullName := FullName(scan.profile);
    var name := if fullName.Some? then Some(DecodeText(fullName.value)) else None;
    var uris := CollectPostUris(scan.posts);
    var n := next;
    var newPicture := None;
    if scan.pictureDir != "" {
      var pic := PickProfilePicture(z, scan.pictureDir);
      if pic.Some? && Readable(z, pic.value) {
        newPicture := Some(Some(Blob(n, pic.value, ImageJpeg)));
        n := n + 1;
      } else {
        // no picture in the folder, or its extraction threw: `setProfilePicture(null)`
        newPicture := Some(None);
      }
    }
    var table, next' := ResolveMedia(z, uris, scan.postsDir, None, n);
    var sorted := SortDesc(scan.posts, PostStamp);
    var decoded := Map(sorted, DecodePost);
    var all := SortDesc(decoded, PostStamp);
    TimelineProps(scan.posts);
    var years := ExtractYears(all, cal);
    u := Upload(all, name, newPicture, table, next', years);
    UploadHandles(media, picture, next, u);
  }

  class PostsState {
    /** The local calendar `new Date(ms)` reads years and days from. */
    const calendar: Calendar
    var posts: seq<Post>
    var filteredPosts: seq<Post>
    /** The `mediaFiles` lookup: media URI to the blob created for it. */
    var mediaFiles: map<string, Blob>
    var profilePicture: Option<Blob>
    var profileName: string
    var yearFilter: YearFilter
    var availableYears: seq<int>
    var dateFilter: DateFilter
    var postTypeFilter: TypeFilter
    var selectedPost: Option<Post>
    /** The next object-URL handle to hand out. */
    var nextHandle: nat

    ghost predicate Valid()
      reads this
    {
      filteredPosts == FilterPosts(posts, calendar, yearFilter, dateFilter, postTypeFilter) &&
      availableYears == SortDesc(YearSet(posts, calendar), Identity) &&
      SortedDesc(posts, PostStamp) &&
      HandlesBelow(mediaFiles, profilePicture, nextHandle)
    }

    constructor(cal: Calendar)
      ensures Valid()
      ensures calendar == cal && posts == [] && filteredPosts == [] && mediaFiles == map[]
      ensures profilePicture == None && profileName == "" && yearFilter == AllYears
      ensures availableYears == [] && dateFilter == NoDateFilter && postTypeFilter == AllTypes
      ensures selectedPost == None && nextHandle == 0
    {
      calendar := cal;
      posts := [];
      filteredPosts := [];
      mediaFiles := map[];
      profilePicture := None;
      profileName := "";
      yearFilter := AllYears;
      availableYears := [];
      dateFilter := NoDateFilter;
      postTypeFilter := AllTypes;
      selectedPost := None;
      nextHandle := 0;
    }

    /**
     * `handleFileUpload` on an opened archive. Without any post the state is left alone.
     * Otherwise: the name is replaced only by a truthy `full_name`; the profile picture is
     * replaced only when a picture folder was seen, by the newest picture, or by nothing when the
     * folder holds none or its extraction throws; every media URI of the posts whose first
     * usable candidate exists gets a fresh blob (the old ones are kept, not revoked); the posts
     * become the decoded timeline, the years its distinct years, and the filtered list is
     * recomputed under the unchanged filters.
     */
    method HandleFileUpload(z: Zip)
      requires Valid()
      modifies this
      ensures Valid()
      ensures CollectPosts(z, z.paths) == [] ==> unchanged(this)
      ensures yearFilter == old(yearFilter) && dateFilter == old(dateFilter)
      ensures postTypeFilter == old(postTypeFilter) && selectedPost == old(selectedPost)
      ensures nextHandle >= old(nextHandle)
      ensures CollectPosts(z, z.paths) != [] ==> posts == Timeline(CollectPosts(z, z.paths))
      ensures CollectPosts(z, z.paths) != [] ==>
        profileName == match FullName(LastProfile(z, z.paths))
          case Some(n) => DecodeText(n)
          case None => old(profileName)
      ensures CollectPosts(z, z.paths) != [] ==>
        var dir := PictureDir(z.paths);
        profilePicture == if dir == "" then old(profilePicture)
          else match Newest(z, dir)
            case Some(path) => if Readable(z, path) then Some(Blob(old(nextHandle), path, ImageJpeg)) else None
            case None => None
      ensures CollectPosts(z, z.paths) != [] ==>
        forall u {:trigger Source(z, u, PostsDir(z, z.paths), None)} :: u in mediaFiles <==>
          u in AllUris(CollectPosts(z, z.paths)) && Source(z, u, PostsDir(z, z.paths), None).Some?
      ensures CollectPosts(z, z.paths) != [] ==>
        forall u {:trigger Source(z, u, PostsDir(z, z.paths), None)} :: u in mediaFiles ==>
          mediaFiles[u].source == Source(z, u, PostsDir(z, z.paths), None).value &&
          mediaFiles[u].mime == MimeFor(u) && old(nextHandle) <= mediaFiles[u].handle
    {
      var u := Ingest(z, calendar, nextHandle, mediaFiles, profilePicture);
      if u.posts == [] {
        return;
      }
      Store(u);
    }

    /** The state updates at the end of a successful upload, followed by the filter effect. */
    method Store(u: Upload)
      requires HandlesBelow(u.media, PictureAfter(profilePicture, u), u.next)
      requires SortedDesc(u.posts, PostStamp) && u.years == SortDesc(YearSet(u.posts, calendar), Identity)
      modifies this
      ensures Valid()
      ensures posts == u.posts && mediaFiles == u.media && nextHandle == u.next && availableYears == u.years
      ensures profilePicture == PictureAfter(old(profilePicture), u)
      ensures profileName == if u.name.Some? then u.name.value else old(profileName)
      ensures yearFilter == old(yearFilter) && dateFilter == old(dateFilter)
      ensures postTypeFilter == old(postTypeFilter) && selectedPost == old(selectedPost)
    {
      StoreProfile(u);
      StorePosts(u);
    }

    /** The name, the picture and the media lookup of an upload. */
    method StoreProfile(u: Upload)
      requires HandlesBelow(u.media, PictureAfter(profilePicture, u), u.next)
      modifies this
      ensures HandlesBelow(mediaFiles, profilePicture, nextHandle)
      ensures mediaFiles == u.media && nextHandle == u.next
      ensures profilePicture == PictureAfter(old(profilePicture), u)
      ensures profileName == if u.name.Some? then u.name.value else old(profileName)
      ensures posts == old(posts) && filteredPosts == old(filteredPosts) && availableYears == old(availableYears)
      ensures yearFilter == old(yearFilter) && dateFilter == old(dateFilter)
      ensures postTypeFilter == old(postTypeFilter) && selectedPost == old(selectedPost)
    {
      if u.name.Some? {
        profileName := u.name.value;
      }
      profilePicture := PictureAfter(profilePicture, u);
      mediaFiles := u.media;
      nextHandle := u.next;
    }

    /** The posts and years of an upload, and the filtered list recomputed under the current filters. */
    method StorePosts(u: Upload)
      requires SortedDesc(u.posts, PostStamp) && u.years == SortDesc(YearSet(u.posts, calendar), Identity)
      modifies this
      ensures posts == u.posts && availableYears == u.years
      ensures filteredPosts == FilterPosts(posts, calendar, yearFilter, dateFilter, postTypeFilter)
      ensures mediaFiles == old(mediaFiles) && nextHandle == old(nextHandle)
      ensures profilePicture == old(profilePicture) && profileName == old(profileName)
      ensures yearFilter == old(yearFilter) && dateFilter == old(dateFilter)
      ensures postTypeFilter == old(postTypeFilter) && selectedPost == old(selectedPost)
    {
      posts := u.posts;
      availableYears := u.years;
      filteredPosts := FilterPosts(posts, calendar, yearFilter, dateFilter, postTypeFilter);
    }

    /** `setYearFilter` followed by the filter effect. */
    method SetYearFilter(yf: YearFilter)
      requires Valid()
      modifies this
      ensures Valid()
      ensures yearFilter == yf
      ensures posts == old(posts) && mediaFiles == old(mediaFiles) && dateFilter == old(dateFilter)
      ensures postTypeFilter == old(postTypeFilter) && profilePicture == old(profilePicture)
      ensures profileName == old(profileName) && availableYears == old(availableYears)
      ensures selectedPost == old(selectedPost) && nextHandle == old(nextHandle)
    {
      yearFilter := yf;
      filteredPosts := FilterPosts(posts, calendar, yearFilter, dateFilter, postTypeFilter);
    }

    /** `setDateFilter` followed by the filter effect. */
    method SetDateFilter(df: DateFilter)
      requires Valid()
      modifies this
      ensures Valid()
      ensures dateFilter == df
      ensures posts == old(posts) && mediaFiles == old(mediaFiles) && yearFilter == old(yearFilter)
      ensures postTypeFilter == old(postTypeFilter) && profilePicture == old(profilePicture)
      ensures profileName == old(profileName) && availableYears == old(availableYears)
      ensures selectedPost == old(selectedPost) && nextHandle == old(nextHandle)
    {
      dateFilter := df;
      filteredPosts := FilterPosts(posts, calendar, yearFilter, dateFilter, postTypeFilter);
    }

    /** `setPostTypeFilter` followed by the filter effect. */
    method SetPostTypeFilter(tf: TypeFilter)
      requires Valid()
      modifies this
      ensures Valid()
      ensures postTypeFilter == tf
      ensures posts == old(posts) && mediaFiles == old(mediaFiles) && yearFilter == old(yearFilter)
      ensures dateFilter == old(dateFilter) && profilePicture == old(profilePicture)
      ensures profileName == old(profileName) && availableYears == old(availableYears)
      ensures selectedPost == old(selectedPost) && nextHandle == old(nextHandle)
    {
      postTypeFilter := tf;
      filteredPosts := FilterPosts(posts, calendar, yearFilter, dateFilter, postTypeFilter);
    }

    /** `setSelectedPost`: opening or closing the detail view; the filters do not depend on it. */
    method SetSelectedPost(p: Option<Post>)
      requires Valid()
      modifies this
      ensures Valid()
      ensures selectedPost == p
      ensures posts == old(posts) && filteredPosts == old(filteredPosts) && mediaFiles == old(mediaFiles)
      ensures yearFilter == old(yearFilter) && dateFilter == old(dateFilter)
      ensures postTypeFilter == old(postTypeFilter) && profilePicture == old(profilePicture)
      ensures profileName == old(profileName) && availableYears == old(availableYears)
      ensures nextHandle == old(nextHandle)
    {
      selectedPost := p;
    }

    /** `getPostInfo(post)` against the current `mediaFiles`. */
    method GetPostInfo(p: Post) returns (info: Info)
      ensures info == InfoOf(p, mediaFiles)
    {
      info := PostInfo.GetPostInfo(p, mediaFiles);
    }
  }
}
