/**
 * `getPostInfo`: the display record of a post, with its text, its media entries (a shared
 * original first, then per attachment item its media, place and link, in order), tags,
 * timestamp and title.
 */
module PostInfo {
  import opened Wrappers
  import opened Seqs
  import opened Text
  import opened Records
  import opened Archive
  import opened MediaKind
  import opened PostsFilter

  datatype MediaEntry =
    | SharedLink(url: string, contentType: Option<string>)
    | MediaFile(kind: Kind, uri: string, blobUrl: Option<Blob>, description: string, title: string,
                creationTimestamp: Option<int>)
    | PlaceEntry(place: Place)
    | LinkEntry(external: ExternalContext)

  datatype Info = Info(text: string, media: seq<MediaEntry>, tags: seq<Tag>, timestamp: int, title: string)

  /** `data.find(d => d.post)?.post || ''`. */
  function FirstText(data: seq<PostText>): (r: string)
    ensures r != "" <==> exists i :: 0 <= i < |data| && Truthy(data[i].post)
  {
    if data == [] then ""
    else if Truthy(data[0].post) then data[0].post.value
    else
      var r := FirstText(data[1..]);
      assert forall i :: 1 <= i < |data| ==> data[1..][i - 1] == data[i];
      r
  }

  /** A non-empty text is the `post` of the first element whose `post` is truthy. */
  lemma {:induction false} FirstTextIsFirst(data: seq<PostText>) returns (i: nat)
    requires FirstText(data) != ""
    ensures i < |data| && Truthy(data[i].post) && FirstText(data) == data[i].post.value
    ensures forall j :: 0 <= j < i ==> !Truthy(data[j].post)
  {
    if Truthy(data[0].post) {
      i := 0;
    } else {
      var k := FirstTextIsFirst(data[1..]);
      i := k + 1;
    }
  }

  /** The media entry of `item.media`. */
  function MediaFileOf(m: Media, table: map<string, Blob>): MediaEntry {
    var uri := OrEmpty(m.uri);
    MediaFile(KindOf(uri), uri, if uri in table then Some(table[uri]) else None,
              OrEmpty(m.description), OrEmpty(m.title), m.creationTimestamp)
  }

  /** The entries of one attachment item: media, then place, then link. */
  function ItemEntries(d: Item, table: map<string, Blob>): seq<MediaEntry> {
    (if d.media.Some? then [MediaFileOf(d.media.value, table)] else []) +
    (if d.place.Some? then [PlaceEntry(d.place.value)] else []) +
    (if d.externalContext.Some? then [LinkEntry(d.externalContext.value)] else [])
  }

  /** The entries of a sequence of items, in order. */
  function ItemsEntries(items: seq<Item>, table: map<string, Blob>): seq<MediaEntry> {
    if items == [] then [] else ItemsEntries(items[..|items| - 1], table) + ItemEntries(items[|items| - 1], table)
  }

  /** The entries of a sequence of attachments, in order. */
  function AttachmentsEntries(atts: seq<Attachment>, table: map<string, Blob>): seq<MediaEntry> {
    if atts == [] then []
    else AttachmentsEntries(atts[..|atts| - 1], table) + ItemsEntries(atts[|atts| - 1].data.GetOr([]), table)
  }

  function SharedEntries(p: Post): seq<MediaEntry> {
    if p.isSharedPost && Truthy(p.originalUrl) then [SharedLink(p.originalUrl.value, p.contentType)] else []
  }

  function MediaEntries(p: Post, table: map<string, Blob>): seq<MediaEntry> {
    SharedEntries(p) + AttachmentsEntries(p.attachments.GetOr([]), table)
  }

  /** `getPostInfo(post)` against the current media lookup table. */
  function InfoOf(p: Post, table: map<string, Blob>): Info {
    Info(FirstText(p.data.GetOr([])), MediaEntries(p, table), p.tags.GetOr([]), p.timestamp, OrEmpty(p.title))
  }

  /** The body of the inner loop of `getPostInfo`: one item's pushes, media then place then link. */
  method PushItem(media: seq<MediaEntry>, item: Item, table: map<string, Blob>) returns (r: seq<MediaEntry>)
    ensures r == media + ItemEntries(item, table)
  {
    r := media;
    if item.media.Some? {
      r := r + [MediaFileOf(item.media.value, table)];
    }
    if item.place.Some? {
      r := r + [PlaceEntry(item.place.value)];
    }
    if item.externalContext.Some? {
      r := r + [LinkEntry(item.externalContext.value)];
    }
  }

  /** The entries of the first `j + 1` items are those of the first `j` and then item `j`'s. */
  lemma ItemsEntriesStep(items: seq<Item>, j: nat, table: map<string, Blob>)
    requires j < |items|
    ensures ItemsEntries(items[..j + 1], table) == ItemsEntries(items[..j], table) + ItemEntries(items[j], table)
  {
    assert items[..j + 1][..j] == items[..j];
  }

  /** The inner loop of `getPostInfo`: the entries of one attachment's items, in order. */
  method CollectItemEntries(items: seq<Item>, table: map<string, Blob>) returns (media: seq<MediaEntry>)
    ensures media == ItemsEntries(items, table)
  {
    media := [];
    var j := 0;
    while j < |items|
      invariant 0 <= j <= |items|
      invariant media == ItemsEntries(items[..j], table)
    {
      media := PushItem(media, items[j], table);
      ItemsEntriesStep(items, j, table);
      j := j + 1;
    }
    assert items[..j] == items;
  }

  /** Pushing attachment `i`'s entries extends the entries of the first `i` to the first `i + 1`. */
  lemma AttachmentsEntriesStep(media: seq<MediaEntry>, atts: seq<Attachment>, i: nat, table: map<string, Blob>,
                               r: seq<MediaEntry>, es: seq<MediaEntry>)
    requires i < |atts|
    requires r == media + AttachmentsEntries(atts[..i], table)
    requires es == ItemsEntries(atts[i].data.GetOr([]), table)
    ensures r + es == media + AttachmentsEntries(atts[..i + 1], table)
  {
    assert atts[..i + 1][..i] == atts[..i];
  }

  /** The outer loop of `getPostInfo`: every attachment's entries pushed after `media`, in order. */
  method PushAttachments(media: seq<MediaEntry>, atts: seq<Attachment>, table: map<string, Blob>)
    returns (r: seq<MediaEntry>)
    ensures r == media + AttachmentsEntries(atts, table)
  {
    r := media;
    var i := 0;
    while i < |atts|
      invariant 0 <= i <= |atts|
      invariant r == media + AttachmentsEntries(atts[..i], table)
    {
      var es := CollectItemEntries(atts[i].data.GetOr([]), table);
      AttachmentsEntriesStep(media, atts, i, table, r, es);
      r := r + es;
      i := i + 1;
    }
    assert atts[..i] == atts;
  }

  /** `getPostInfo(post)`: the text, the pushed entries, tags, timestamp and title. */
  method GetPostInfo(p: Post, table: map<string, Blob>) returns (info: Info)
    ensures info == InfoOf(p, table)
  {
    var media: seq<MediaEntry> := [];
    if p.isSharedPost && Truthy(p.originalUrl) {
      media := media + [SharedLink(p.originalUrl.value, p.contentType)];
    }
    media := PushAttachments(media, p.attachments.GetOr([]), table);
    info := Info(FirstText(p.data.GetOr([])), media, p.tags.GetOr([]), p.timestamp, OrEmpty(p.title));
  }

  /** Every entry of a run of items comes from one of the items. */
  lemma {:induction false} ItemsEntriesMembers(items: seq<Item>, table: map<string, Blob>)
    ensures forall e :: e in ItemsEntries(items, table) ==> exists j :: 0 <= j < |items| && e in ItemEntries(items[j], table)
    ensures forall e, j :: 0 <= j < |items| && e in ItemEntries(items[j], table) ==> e in ItemsEntries(items, table)
  {
    if items != [] {
      var init := items[..|items| - 1];
      ItemsEntriesMembers(init, table);
      assert forall j :: 0 <= j < |init| ==> init[j] == items[j];
    }
  }

  /** Every entry of a run of attachments comes from one of their items. */
  lemma {:induction false} AttachmentsEntriesMembers(atts: seq<Attachment>, table: map<string, Blob>)
    ensures forall e :: e in AttachmentsEntries(atts, table) ==>
      exists i :: 0 <= i < |atts| && e in ItemsEntries(atts[i].data.GetOr([]), table)
    ensures forall e, i :: 0 <= i < |atts| && e in ItemsEntries(atts[i].data.GetOr([]), table) ==>
      e in AttachmentsEntries(atts, table)
  {
    if atts != [] {
      var init := atts[..|atts| - 1];
      AttachmentsEntriesMembers(init, table);
      assert forall i :: 0 <= i < |init| ==> init[i] == atts[i];
    }
  }

  /**
   * Every media-file entry is classified by its URI (video before photo before `'media'`), and
   * its blob is the table's entry for that URI, or none when the URI was not resolved.
   */
  lemma MediaFileEntries(p: Post, table: map<string, Blob>, e: MediaEntry)
    requires e in InfoOf(p, table).media && e.MediaFile?
    ensures e.kind == KindOf(e.uri)
    ensures e.blobUrl == if e.uri in table then Some(table[e.uri]) else None
  {
    var atts := p.attachments.GetOr([]);
    AttachmentsEntriesMembers(atts, table);
    var i :| 0 <= i < |atts| && e in ItemsEntries(atts[i].data.GetOr([]), table);
    var items := atts[i].data.GetOr([]);
    ItemsEntriesMembers(items, table);
  }

  /** The media entry an item with media produces is among the post's entries. */
  lemma ItemMediaEntry(p: Post, table: map<string, Blob>, i: nat, j: nat)
    requires p.attachments.Some? && i < |p.attachments.value|
    requires p.attachments.value[i].data.Some? && j < |p.attachments.value[i].data.value|
    requires p.attachments.value[i].data.value[j].media.Some?
    ensures MediaFileOf(p.attachments.value[i].data.value[j].media.value, table) in InfoOf(p, table).media
  {
    var atts := p.attachments.value;
    var items := atts[i].data.value;
    var d := items[j];
    ItemsEntriesMembers(items, table);
    assert MediaFileOf(d.media.value, table) in ItemEntries(d, table);
    AttachmentsEntriesMembers(atts, table);
  }

  /**
   * A post that the timeline filter keeps has at least one photo or video entry, so its card
   * always shows media.
   */
  lemma KeptPostHasVisual(p: Post, table: map<string, Blob>)
    requires HasPhotos(p) || HasVideos(p)
    ensures exists e :: e in InfoOf(p, table).media && e.MediaFile? && (e.kind == Photo || e.kind == Video)
  {
    var atts := p.attachments.value;
    var test := if HasPhotos(p) then IsFilterPhotoUri else IsVideoUri;
    var i, j :| 0 <= i < |atts| && atts[i].data.Some? && 0 <= j < |atts[i].data.value| &&
      var d := atts[i].data.value[j];
      d.media.Some? && d.media.value.uri.Some? && test(d.media.value.uri.value);
    var m := atts[i].data.value[j].media.value;
    var u := m.uri.value;
    ItemMediaEntry(p, table, i, j);
    MediaUriLength(u);
    assert OrEmpty(m.uri) == u;
    if !IsVideoUri(u) {
      FilterPhotoIsInfoPhoto(u);
    }
  }
}
