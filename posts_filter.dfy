/**
 * `filterPosts`: the year, date and type steps followed by the rule that a post without a
 * photo or video is never shown; and `extractYears`, the year list of the year picker.
 */
module PostsFilter {
  import opened Wrappers
  import opened Seqs
  import opened Text
  import opened Records
  import opened Dates
  import opened MediaKind

  /**
   * The year filter's string: `'all'` is `AllYears`, and every other string `s` is `Year(s)`,
   * compared through `parseInt`. `Year("all")` stands for no string of the code and is not
   * meant to be built.
   */
  datatype YearFilter = AllYears | Year(text: string)

  /**
   * The type filter's string: `'all'`, `'photos'` and `'videos'` are `AllTypes`, `Photos` and
   * `Videos`, and every other string `s` is `OtherType(s)`, which the type step lets through.
   * `OtherType` of one of the three sentinel strings stands for no string of the code and is
   * not meant to be built.
   */
  datatype TypeFilter = AllTypes | Photos | Videos | OtherType(name: string)

  function YearOf(cal: Calendar, p: Post): int {
    cal.year(p.timestamp * 1000)
  }

  /** `post.attachments?.some(a => a.data?.some(d => d.media && test(d.media.uri)))`. */
  predicate HasMediaWhere(p: Post, test: string -> bool) {
    p.attachments.Some? &&
    exists i, j :: 0 <= i < |p.attachments.value| && p.attachments.value[i].data.Some? &&
      0 <= j < |p.attachments.value[i].data.value| &&
      var d := p.attachments.value[i].data.value[j];
      d.media.Some? && d.media.value.uri.Some? && test(d.media.value.uri.value)
  }

  predicate HasPhotos(p: Post) { HasMediaWhere(p, IsFilterPhotoUri) }

  predicate HasVideos(p: Post) { HasMediaWhere(p, IsVideoUri) }

  predicate YearStep(cal: Calendar, yf: YearFilter, p: Post) {
    match yf
    case AllYears => true
    case Year(text) => ParseInt(text) == Some(YearOf(cal, p))
  }

  predicate TypeStep(tf: TypeFilter, p: Post) {
    match tf
    case AllTypes => true
    case Photos => HasPhotos(p)
    case Videos => HasVideos(p)
    case OtherType(_) => true
  }

  predicate MediaStep(p: Post) {
    HasPhotos(p) || HasVideos(p)
  }

  /** `filterPosts`, step by step as the code applies them. */
  function FilterPosts(posts: seq<Post>, cal: Calendar, yf: YearFilter, df: DateFilter, tf: TypeFilter): seq<Post> {
    var a := if yf.AllYears? then posts else Filter(posts, p => YearStep(cal, yf, p));
    var b := if DateActive(df) then Filter(a, (p: Post) => DateMatches(cal, df, p.timestamp)) else a;
    var c := if tf.AllTypes? then b else Filter(b, p => TypeStep(tf, p));
    Filter(c, MediaStep)
  }

  /** The reference predicate: the single test a post must pass to be shown. */
  predicate KeepPost(cal: Calendar, yf: YearFilter, df: DateFilter, tf: TypeFilter, p: Post) {
    YearStep(cal, yf, p) && DateMatches(cal, df, p.timestamp) && TypeStep(tf, p) && MediaStep(p)
  }

  /** The staged filter is one filter by `KeepPost`. */
  lemma FilterPostsIsKeep(posts: seq<Post>, cal: Calendar, yf: YearFilter, df: DateFilter, tf: TypeFilter)
    ensures FilterPosts(posts, cal, yf, df, tf) == Filter(posts, p => KeepPost(cal, yf, df, tf, p))
  {
    FilterStages(posts, yf.AllYears?, p => YearStep(cal, yf, p),
                 !DateActive(df), (p: Post) => DateMatches(cal, df, p.timestamp),
                 tf.AllTypes?, p => TypeStep(tf, p), MediaStep, p => KeepPost(cal, yf, df, tf, p));
  }

  /** The shown posts are exactly the posts that pass every step. */
  lemma FilterPostsMembers(posts: seq<Post>, cal: Calendar, yf: YearFilter, df: DateFilter, tf: TypeFilter)
    ensures forall p :: p in FilterPosts(posts, cal, yf, df, tf) <==> p in posts && KeepPost(cal, yf, df, tf, p)
  {
    FilterPostsIsKeep(posts, cal, yf, df, tf);
    FilterMembers(posts, p => KeepPost(cal, yf, df, tf, p));
  }

  /** `filterPosts` keeps the order of `posts` and changes no post. */
  lemma FilterPostsSubseq(posts: seq<Post>, cal: Calendar, yf: YearFilter, df: DateFilter, tf: TypeFilter)
    ensures IsSubseq(FilterPosts(posts, cal, yf, df, tf), posts)
  {
    FilterPostsIsKeep(posts, cal, yf, df, tf);
    FilterIsSubseq(posts, p => KeepPost(cal, yf, df, tf, p));
  }

  /** Every shown post has a photo or a video, whatever the type filter (including `'all'`). */
  lemma FilterPostsHaveMedia(posts: seq<Post>, cal: Calendar, yf: YearFilter, df: DateFilter, tf: TypeFilter, p: Post)
    requires p in FilterPosts(posts, cal, yf, df, tf)
    ensures HasPhotos(p) || HasVideos(p)
  {
    FilterPostsMembers(posts, cal, yf, df, tf);
  }

  /** A year filter keeps exactly the  posts of that year (among those the other steps keep). */
  lemma FilterPostsYear(posts: seq<Post>, cal: Calendar, text: string, df: DateFilter, tf: TypeFilter, p: Post)
    requires p in posts && DateMatches(cal, df, p.timestamp) && TypeStep(tf, p) && MediaStep(p)
    ensures p in FilterPosts(posts, cal, Year(text), df, tf) <==> ParseInt(text) == Some(YearOf(cal, p))
  {
    FilterPostsMembers(posts, cal, Year(text), df, tf);
  }

  /** Filtering the shown posts again with the same settings changes nothing. */
  lemma FilterPostsIdempotent(posts: seq<Post>, cal: Calendar, yf: YearFilter, df: DateFilter, tf: TypeFilter)
    ensures FilterPosts(FilterPosts(posts, cal, yf, df, tf), cal, yf, df, tf) == FilterPosts(posts, cal, yf, df, tf)
  {
    var keep := (p: Post) => KeepPost(cal, yf, df, tf, p);
    FilterPostsIsKeep(posts, cal, yf, df, tf);
    FilterPostsIsKeep(FilterPosts(posts, cal, yf, df, tf), cal, yf, df, tf);
    FilterIdempotent(posts, keep);
  }

  /** A post whose only media URI `u` passes neither test has no photo and no video, and is never shown. */
  lemma SingleMediaHidden(cal: Calendar, yf: YearFilter, df: DateFilter, tf: TypeFilter, p: Post, u: string)
    requires p.attachments == Some([Attachment(Some([Item(Some(Media(Some(u), None, None, None, map[])), None, None, map[])]), map[])])
    requires !IsFilterPhotoUri(u) && !IsVideoUri(u)
    ensures !HasPhotos(p) && !HasVideos(p)
    ensures FilterPosts([p], cal, yf, df, tf) == []
  {
    FilterPostsIsKeep([p], cal, yf, df, tf);
    FilterCons(p, [], q => KeepPost(cal, yf, df, tf, q));
  }

  /**
   * The photo test of the type filter misses `images/` URIs ending in `.jpeg`: such a post is
   * never shown, although the media views would call its media a photo.
   */
  lemma PhotosFilterMissesImagesJpeg(cal: Calendar, yf: YearFilter, df: DateFilter, tf: TypeFilter, p: Post)
    requires p.attachments == Some([Attachment(Some([Item(Some(Media(Some("images/a.jpeg"), None, None, None, map[])), None, None, map[])]), map[])])
    ensures !HasPhotos(p) && !HasVideos(p)
    ensures FilterPosts([p], cal, yf, df, tf) == []
    ensures IsInfoPhotoUri("images/a.jpeg")
  {
    ImagesJpegDiscrepancy();
    SingleMediaHidden(cal, yf, df, tf, p, "images/a.jpeg");
  }

  // ---------------------------------------------------------------------------
  // extractYears
  // ---------------------------------------------------------------------------

  /** The year of every post, in order. */
  function Years(posts: seq<Post>, cal: Calendar): (r: seq<int>)
    ensures |r| == |posts| && forall i :: 0 <= i < |posts| ==> r[i] == YearOf(cal, posts[i])
  {
    seq(|posts|, i requires 0 <= i < |posts| => YearOf(cal, posts[i]))
  }

  /** The years of `posts` in order of first appearance, as the `Set` holds them. */
  function YearSet(posts: seq<Post>, cal: Calendar): seq<int> {
    AddAll([], Years(posts, cal))
  }

  function Identity(y: int): int { y }

  /**
   * `extractYears`: every distinct year of `posts` exactly once, strictly descending, and no
   * other value.
   */
  method ExtractYears(posts: seq<Post>, cal: Calendar) returns (years: seq<int>)
    ensures forall y :: y in years <==> exists p :: p in posts && YearOf(cal, p) == y
    ensures forall i, j :: 0 <= i < j < |years| ==> years[i] > years[j]
    ensures years == SortDesc(YearSet(posts, cal), Identity)
  {
    var seen := [];
    var i := 0;
    while i < |posts|
      invariant 0 <= i <= |posts|
      invariant seen == AddAll([], Years(posts[..i], cal))
    {
      assert Years(posts[..i + 1], cal)[..i] == Years(posts[..i], cal);
      seen := Add(seen, YearOf(cal, posts[i]));
      i := i + 1;
    }
    assert posts[..i] == posts;
    years := SortDesc(seen, Identity);
    assert years == SortDesc(YearSet(posts, cal), Identity);
    YearsSorted(posts, cal);
  }

  lemma YearSetMembers(posts: seq<Post>, cal: Calendar)
    ensures forall y :: y in YearSet(posts, cal) <==> exists p :: p in posts && YearOf(cal, p) == y
  {
    var ys := Years(posts, cal);
    AddAllMembers([], ys);
    forall y | y in ys ensures exists p :: p in posts && YearOf(cal, p) == y {
      var k :| 0 <= k < |ys| && ys[k] == y;
      assert posts[k] in posts;
    }
    forall p | p in posts ensures YearOf(cal, p) in ys {
      var k :| 0 <= k < |posts| && posts[k] == p;
      assert ys[k] == YearOf(cal, p);
    }
  }

  lemma YearsSorted(posts: seq<Post>, cal: Calendar)
    ensures var r := SortDesc(YearSet(posts, cal), Identity);
      (forall y :: y in r <==> exists p :: p in posts && YearOf(cal, p) == y) &&
      (forall i, j :: 0 <= i < j < |r| ==> r[i] > r[j])
  {
    var s := YearSet(posts, cal);
    AddAllNoDups([], Years(posts, cal));
    SortDescNoDups(s, Identity);
    SortDescMembers(s, Identity);
    YearSetMembers(posts, cal);
    SortDescProps(s, Identity);
    DistinctSortedStrict(SortDesc(s, Identity));
  }

  lemma DistinctSortedStrict(r: seq<int>)
    requires SortedDesc(r, Identity) && NoDups(r)
    ensures forall i, j :: 0 <= i < j < |r| ==> r[i] > r[j]
  {
    forall i, j | 0 <= i < j < |r| ensures r[i] > r[j] {
      assert Identity(r[i]) >= Identity(r[j]);
    }
  }
}
