/**
 * The post card of the timeline: whether it shows media, its grid of at most four media
 * (photos first) with a `+X` overlay on the fourth when there are more, and its tag line of at
 * most three tags followed by `+k more`.
 */
module PostCard {
  import opened Wrappers
  import opened Seqs
  import opened Records
  import opened Archive
  import opened Dates
  import PostsFilter
  import opened PostInfo
  import opened PostView
  import opened Pagination

  /** The number of media the grid shows at most. */
  const GridMax: nat := 4

  /** The number of tags the card shows at most. */
  const TagsMax: nat := 3

  /** `postInfo.media.filter(m => m.type === 'photo' || m.type === 'video').length > 0`. */
  predicate HasMedia(info: Info) {
    |Filter(info.media, IsVisual)| > 0
  }

  /** The card shows media exactly when the post has a photo or a video entry. */
  lemma HasMediaIff(info: Info)
    ensures HasMedia(info) <==> Photos(info) != [] || Videos(info) != []
    ensures HasMedia(info) <==> AllMedia(info) != []
  {
    FilterMembers(info.media, IsVisual);
    FilterMembers(info.media, IsPhoto);
    FilterMembers(info.media, IsVideo);
    if HasMedia(info) {
      assert Filter(info.media, IsVisual)[0] in Filter(info.media, IsVisual);
    }
    if Photos(info) != [] {
      assert Photos(info)[0] in Photos(info);
    }
    if Videos(info) != [] {
      assert Videos(info)[0] in Videos(info);
    }
  }

  /** Every card on the timeline shows media: the timeline filter keeps only posts with a photo or a video. */
  lemma TimelineCardsShowMedia(posts: seq<Post>, cal: Calendar, yf: PostsFilter.YearFilter, df: DateFilter,
                               tf: PostsFilter.TypeFilter,
                               p: Post, table: map<string, Blob>)
    requires p in PostsFilter.FilterPosts(posts, cal, yf, df, tf)
    ensures HasMedia(InfoOf(p, table))
  {
    PostsFilter.FilterPostsHaveMedia(posts, cal, yf, df, tf, p);
    KeptPostHasVisual(p, table);
    var e :| e in InfoOf(p, table).media && e.MediaFile? && IsVisual(e);
    FilterKeeps(InfoOf(p, table).media, IsVisual);
    assert e in Filter(InfoOf(p, table).media, IsVisual);
  }

  /** `[...photos, ...videos].slice(0, 4)`. */
  function GridItems(info: Info): seq<MediaEntry> {
    Slice(AllMedia(info), 0, GridMax)
  }

  /** The `media-count-N` class of the grid: `Math.min(photos.length + videos.length, 4)`. */
  function MediaCount(info: Info): nat {
    Min(|Photos(info)| + |Videos(info)|, GridMax)
  }

  /**
   * The grid shows the first `min(4, n)` media, photos before videos, and its class names
   * exactly that number.
   */
  lemma GridProps(info: Info)
    ensures |GridItems(info)| == MediaCount(info)
    ensures GridItems(info) == AllMedia(info)[..MediaCount(info)]
    ensures forall i :: 0 <= i < |GridItems(info)| && i < |Photos(info)| ==> GridItems(info)[i] == Photos(info)[i]
    ensures forall i :: |Photos(info)| <= i < |GridItems(info)| ==> GridItems(info)[i] == Videos(info)[i - |Photos(info)|]
  {
  }

  /** The `+X` overlay on grid item `idx`, with `X` the number of media left out. */
  function Overlay(info: Info, idx: nat): (r: Option<nat>)
  {
    var n := |Photos(info)| + |Videos(info)|;
    if idx == 3 && n > GridMax then Some(n - GridMax) else None
  }

  /**
   * The overlay is drawn on the fourth item and on no other, only when media are left out, and
   * it counts exactly those: shown plus hidden is all of the post's media.
   */
  lemma OverlayProps(info: Info, idx: nat)
    requires idx < |GridItems(info)|
    ensures Overlay(info, idx).Some? <==> idx == 3 && |AllMedia(info)| > GridMax
    ensures Overlay(info, idx).Some? ==> |GridItems(info)| + Overlay(info, idx).value == |AllMedia(info)|
  {
    GridProps(info);
  }

  /** Without more than four media, no item carries an overlay. */
  lemma NoOverlayWhenAllShown(info: Info)
    requires |AllMedia(info)| <= GridMax
    ensures forall idx: nat :: idx < |GridItems(info)| ==> Overlay(info, idx).None?
    ensures GridItems(info) == AllMedia(info)
  {
    GridProps(info);
  }

  /** `tags.slice(0, 3)`. */
  function ShownTags(tags: seq<Tag>): seq<Tag> {
    Slice(tags, 0, TagsMax)
  }

  /** `+{tags.length - 3} more`, drawn only when there are more than three tags. */
  function MoreTags(tags: seq<Tag>): Option<nat> {
    if |tags| > TagsMax then Some(|tags| - TagsMax) else None
  }

  /** `@{tag.name || 'Friend'}`. */
  function TagText(t: Tag): (r: string)
    ensures Truthy(t.name) ==> r == "@" + t.name.value
    ensures !Truthy(t.name) ==> r == "@Friend"
    ensures |r| >= 2 && r[0] == '@'
  {
    "@" + (if Truthy(t.name) then t.name.value else "Friend")
  }

  /**
   * The tag line shows the first three tags at most; `+k more` appears exactly when tags are
   * left out and counts them, so shown plus `k` is every tag.
   */
  lemma TagsProps(tags: seq<Tag>)
    ensures |ShownTags(tags)| == Min(|tags|, TagsMax)
    ensures ShownTags(tags) == tags[..|ShownTags(tags)|]
    ensures MoreTags(tags).Some? <==> |tags| > TagsMax
    ensures |ShownTags(tags)| + MoreTags(tags).GetOr(0) == |tags|
  {
  }
}
