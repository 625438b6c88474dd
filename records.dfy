/**
 * The JSON records of a Facebook export that the viewer reads. A field the code never looks
 * at is kept in `other`, so that a record can be compared as a whole; a property that may be
 * missing is an `Option` (`None` is JavaScript's `undefined`).
 */
module Records {
  import opened Wrappers

  datatype Json =
    | JNull
    | JBool(b: bool)
    | JNum(n: int)
    | JStr(s: string)
    | JArr(items: seq<Json>)
    | JObj(fields: map<string, Json>)

  /** The properties of a record that the code does not name. */
  type Fields = map<string, Json>

  /** `media` of an attachment item. */
  datatype Media = Media(
    uri: Option<string>,
    description: Option<string>,
    title: Option<string>,
    creationTimestamp: Option<int>,
    other: Fields)

  /** `place` of an attachment item (a check-in). */
  datatype Place = Place(name: Option<string>, address: Option<string>, other: Fields)

  /** `external_context` of an attachment item (a shared link). */
  datatype ExternalContext = ExternalContext(
    name: Option<string>,
    source: Option<string>,
    url: Option<string>,
    description: Option<string>,
    other: Fields)

  /** One element of `attachments[].data`. */
  datatype Item = Item(
    media: Option<Media>,
    place: Option<Place>,
    externalContext: Option<ExternalContext>,
    other: Fields)

  datatype Attachment = Attachment(data: Option<seq<Item>>, other: Fields)

  /** One element of a post's `data` array. */
  datatype PostText = PostText(post: Option<string>, other: Fields)

  datatype Tag = Tag(name: Option<string>, other: Fields)

  /** An entry of `your_posts_*.json`; `timestamp` is in seconds since the epoch. */
  datatype Post = Post(
    timestamp: int,
    title: Option<string>,
    data: Option<seq<PostText>>,
    attachments: Option<seq<Attachment>>,
    tags: Option<seq<Tag>>,
    isSharedPost: bool,
    originalUrl: Option<string>,
    contentType: Option<string>,
    other: Fields)

  /** An entry of `archived_stories_v2`; `timestamp` is in seconds since the epoch. */
  datatype Story = Story(
    timestamp: int,
    title: Option<string>,
    attachments: Option<seq<Attachment>>,
    other: Fields)

  /** JavaScript truthiness of an optional string: present and not empty. */
  predicate Truthy(s: Option<string>) {
    s.Some? && s.value != ""
  }

  /** `x || ''`. */
  function OrEmpty(s: Option<string>): (r: string)
    ensures Truthy(s) ==> r == s.value
    ensures !Truthy(s) ==> r == ""
  {
    if Truthy(s) then s.value else ""
  }

  function PostStamp(p: Post): int { p.timestamp }
}
