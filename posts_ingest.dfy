/**
 * The scanning half of the posts upload handler: one pass over the archive entries that
 * concatenates the post lists, remembers the posts directory, the last profile document and
 * the profile-picture directory; the set of referenced media URIs; and the choice of the most
 * recent profile picture.
 */
module PostsIngest {
  import opened Wrappers
  import opened Seqs
  import opened Text
  import opened Records
  import opened Archive

  // ---------------------------------------------------------------------------
  // Which entries are what
  // ---------------------------------------------------------------------------

  /** A posts file by name: `your_posts` (or `posts/your_posts`) somewhere, and a `.json` suffix. */
  predicate IsPostsPath(path: string) {
    (Contains(path, "your_posts") || Contains(path, "posts/your_posts")) && EndsWith(path, ".json")
  }

  /** The list a parsed posts file contributes; `None` where reading `data.posts` throws. */
  function PostsOf(d: Doc): Option<seq<Post>> {
    match d
    case Unparsable => None
    case JsonNull => None
    case JsonScalar => Some([])
    case JsonArray(items) => Some(items)
    case JsonObject(posts, _, _) => Some(posts.GetOr([]))
  }

  /** A non-directory posts file whose contents were read without an exception. */
  predicate ParsedPostsFile(z: Zip, path: string) {
    path in z.files && IsPostsPath(path) && !z.files[path].dir && PostsOf(z.files[path].doc).Some?
  }

  function PostsFrom(z: Zip, path: string): seq<Post> {
    if ParsedPostsFile(z, path) then PostsOf(z.files[path].doc).value else []
  }

  /** The post lists of the posts files among `paths`, concatenated in entry order. */
  function CollectPosts(z: Zip, paths: seq<string>): seq<Post> {
    FlatMap(paths, path => PostsFrom(z, path))
  }

  predicate IsProfileFile(z: Zip, path: string) {
    path in z.files && Contains(path, "profile_information.json") && !z.files[path].dir &&
    z.files[path].doc != Unparsable
  }

  /** The document of the last profile file that parsed (each one overwrites `profileInfo`). */
  function LastProfile(z: Zip, paths: seq<string>): (r: Option<Doc>)
    ensures r.Some? ==> exists i :: 0 <= i < |paths| && IsProfileFile(z, paths[i]) && z.files[paths[i]].doc == r.value
    ensures r.None? <==> forall i :: 0 <= i < |paths| ==> !IsProfileFile(z, paths[i])
  {
    if paths == [] then None
    else
      var last := paths[|paths| - 1];
      if IsProfileFile(z, last) then Some(z.files[last].doc)
      else
        var r := LastProfile(z, paths[..|paths| - 1]);
        assert forall i :: 0 <= i < |paths| - 1 ==> paths[..|paths| - 1][i] == paths[i];
        r
  }

  /** `profileInfo?.profile_v2?.name?.full_name`, when truthy. */
  function FullName(d: Option<Doc>): (r: Option<string>)
    ensures r.Some? ==> r.value != ""
  {
    if d.Some? && d.value.JsonObject? && Truthy(d.value.fullName) then d.value.fullName else None
  }

  predicate IsPictureFolderPath(path: string) {
    Contains(path, "Profilepictures")
  }

  /**
   * `if (!dir) dir = path.substring(0, path.lastIndexOf('/') + 1)` over the entries satisfying
   * `q`: the directory of the first such entry that has a non-empty one.
   */
  function FirstDir(paths: seq<string>, q: string -> bool): string
  {
    if paths == [] then ""
    else
      var d := FirstDir(paths[..|paths| - 1], q);
      var last := paths[|paths| - 1];
      if d == "" && q(last) then DirPrefix(last) else d
  }

  /** `FirstDir` is empty exactly when no qualifying entry has a directory part. */
  lemma {:induction false} FirstDirEmpty(paths: seq<string>, q: string -> bool)
    ensures FirstDir(paths, q) == "" <==> forall i :: 0 <= i < |paths| && q(paths[i]) ==> DirPrefix(paths[i]) == ""
  {
    if paths != [] {
      var init := paths[..|paths| - 1];
      FirstDirEmpty(init, q);
      assert forall i :: 0 <= i < |init| ==> init[i] == paths[i];
    }
  }

  /** Otherwise it is the directory of the first qualifying entry with a directory part. */
  lemma {:induction false} FirstDirFirst(paths: seq<string>, q: string -> bool) returns (i: nat)
    requires FirstDir(paths, q) != ""
    ensures i < |paths| && q(paths[i]) && DirPrefix(paths[i]) == FirstDir(paths, q)
    ensures forall j :: 0 <= j < i && q(paths[j]) ==> DirPrefix(paths[j]) == ""
  {
    var init := paths[..|paths| - 1];
    if FirstDir(init, q) == "" {
      i := |paths| - 1;
      FirstDirEmpty(init, q);
      assert forall j :: 0 <= j < |init| ==> init[j] == paths[j];
    } else {
      i := FirstDirFirst(init, q);
    }
  }

  /** The directory the media candidates are built from. */
  function PostsDir(z: Zip, paths: seq<string>): string {
    FirstDir(paths, path => ParsedPostsFile(z, path))
  }

  /** The profile-picture folder; unlike the others this test does not exclude directories. */
  function PictureDir(paths: seq<string>): string {
    FirstDir(paths, IsPictureFolderPath)
  }

  datatype Scan = Scan(posts: seq<Post>, postsDir: string, profile: Option<Doc>, pictureDir: string)

  /** The entry loop of the posts upload handler. */
  method ScanPosts(z: Zip) returns (s: Scan)
    ensures s.posts == CollectPosts(z, z.paths)
    ensures s.postsDir == PostsDir(z, z.paths)
    ensures s.profile == LastProfile(z, z.paths)
    ensures s.pictureDir == PictureDir(z.paths)
  {
    var posts: seq<Post> := [];
    var postsDir := "";
    var profile: Option<Doc> := None;
    var pictureDir := "";
    var i := 0;
    while i < |z.paths|
      invariant 0 <= i <= |z.paths|
      invariant posts == CollectPosts(z, z.paths[..i])
      invariant postsDir == PostsDir(z, z.paths[..i])
      invariant profile == LastProfile(z, z.paths[..i])
      invariant pictureDir == PictureDir(z.paths[..i])
    {
      var path := z.paths[i];
      assert path in z.files;
      var e := z.files[path];
      ScanStep(z, i);
      if IsPostsPath(path) && !e.dir {
        match PostsOf(e.doc)
        case Some(list) =>
          posts := posts + list;
          if postsDir == "" {
            postsDir := DirPrefix(path);
          }
        case None =>
      }
      if Contains(path, "profile_information.json") && !e.dir && e.doc != Unparsable {
        profile := Some(e.doc);
      }
      if Contains(path, "Profilepictures") && pictureDir == "" {
        pictureDir := DirPrefix(path);
      }
      i := i + 1;
    }
    assert z.paths[..i] == z.paths;
    s := Scan(posts, postsDir, profile, pictureDir);
  }

  lemma ScanStep(z: Zip, k: nat)
    requires k < |z.paths|
    ensures CollectPosts(z, z.paths[..k + 1]) == CollectPosts(z, z.paths[..k]) + PostsFrom(z, z.paths[k])
    ensures var d := PostsDir(z, z.paths[..k]);
      PostsDir(z, z.paths[..k + 1]) == if d == "" && ParsedPostsFile(z, z.paths[k]) then DirPrefix(z.paths[k]) else d
    ensures LastProfile(z, z.paths[..k + 1]) ==
      if IsProfileFile(z, z.paths[k]) then Some(z.files[z.paths[k]].doc) else LastProfile(z, z.paths[..k])
    ensures var d := PictureDir(z.paths[..k]);
      PictureDir(z.paths[..k + 1]) == if d == "" && IsPictureFolderPath(z.paths[k]) then DirPrefix(z.paths[k]) else d
  {
    FlatMapStep(z.paths, k, p => PostsFrom(z, p));
    assert z.paths[..k + 1][..k] == z.paths[..k];
  }

  /** Every collected post comes from a posts file that parsed, and every post of such a file is collected. */
  lemma CollectPostsMembers(z: Zip, paths: seq<string>)
    ensures forall p :: p in CollectPosts(z, paths) ==>
      exists i :: 0 <= i < |paths| && ParsedPostsFile(z, paths[i]) && p in PostsOf(z.files[paths[i]].doc).value
    ensures forall p, i :: 0 <= i < |paths| && ParsedPostsFile(z, paths[i]) && p in PostsOf(z.files[paths[i]].doc).value ==>
      p in CollectPosts(z, paths)
  {
    var f := (path: string) => PostsFrom(z, path);
    FlatMapMembers(paths, f);
  }

  /** A posts file that fails to parse contributes nothing, and the scan goes on past it. */
  lemma CollectPostsSkips(z: Zip, paths: seq<string>, path: string)
    requires path in z.files && PostsOf(z.files[path].doc).None?
    ensures CollectPosts(z, paths + [path]) == CollectPosts(z, paths)
  {
    assert (paths + [path])[..|paths|] == paths;
  }

  /** A bare array and a `posts` wrapper are appended alike. */
  lemma CollectPostsAppends(z: Zip, paths: seq<string>, path: string)
    requires path in z.files && IsPostsPath(path) && !z.files[path].dir
    requires z.files[path].doc.JsonArray? || (z.files[path].doc.JsonObject? && z.files[path].doc.posts.Some?)
    ensures CollectPosts(z, paths + [path]) == CollectPosts(z, paths) +
      (if z.files[path].doc.JsonArray? then z.files[path].doc.items else z.files[path].doc.posts.value)
  {
    assert (paths + [path])[..|paths|] == paths;
  }

  // ---------------------------------------------------------------------------
  // Referenced media URIs
  // ---------------------------------------------------------------------------

  /** `item.media?.uri`, when truthy. */
  function ItemUri(d: Item): seq<string> {
    if d.media.Some? && Truthy(d.media.value.uri) then [d.media.value.uri.value] else []
  }

  function AttachmentUris(a: Attachment): seq<string> {
    FlatMap(a.data.GetOr([]), ItemUri)
  }

  function PostUris(p: Post): seq<string> {
    FlatMap(p.attachments.GetOr([]), AttachmentUris)
  }

  /** The media URIs of all posts in encounter order, repetitions included. */
  function AllUris(posts: seq<Post>): seq<string> {
    FlatMap(posts, PostUris)
  }

  /** One item of the innermost `forEach`: its truthy media URI is added to the set. */
  lemma ItemUriAdd(uris: seq<string>, d: Item)
    ensures AddAll(uris, ItemUri(d)) ==
      if d.media.Some? && Truthy(d.media.value.uri) then Add(uris, d.media.value.uri.value) else uris
  {
    if d.media.Some? && Truthy(d.media.value.uri) {
      assert ItemUri(d)[..0] == [];
    }
  }

  /** The innermost `forEach`, over the items of one attachment. */
  method AddItemUris(uris: seq<string>, items: seq<Item>) returns (r: seq<string>)
    ensures r == AddAll(uris, FlatMap(items, ItemUri))
  {
    r := uris;
    var k := 0;
    while k < |items|
      invariant 0 <= k <= |items|
      invariant r == AddAll(uris, FlatMap(items[..k], ItemUri))
    {
      AddAllFlatMapStep(uris, items, k, ItemUri);
      ItemUriAdd(r, items[k]);
      var item := items[k];
      if item.media.Some? && Truthy(item.media.value.uri) {
        r := Add(r, item.media.value.uri.value);
      }
      k := k + 1;
    }
    assert items[..k] == items;
  }

  /** The middle `forEach`, over the attachments of one post. */
  method AddAttachmentUris(uris: seq<string>, atts: seq<Attachment>) returns (r: seq<string>)
    ensures r == AddAll(uris, FlatMap(atts, AttachmentUris))
  {
    r := uris;
    var j := 0;
    while j < |atts|
      invariant 0 <= j <= |atts|
      invariant r == AddAll(uris, FlatMap(atts[..j], AttachmentUris))
    {
      AddAllFlatMapStep(uris, atts, j, AttachmentUris);
      r := AddItemUris(r, atts[j].data.GetOr([]));
      j := j + 1;
    }
    assert atts[..j] == atts;
  }

  /** The nested `forEach` loops that fill the `mediaPaths` set. */
  method CollectPostUris(posts: seq<Post>) returns (uris: seq<string>)
    ensures uris == AddAll([], AllUris(posts))
    ensures NoDups(uris)
    ensures forall u :: u in uris <==> u in AllUris(posts)
  {
    uris := [];
    var i := 0;
    while i < |posts|
      invariant 0 <= i <= |posts|
      invariant uris == AddAll([], AllUris(posts[..i]))
    {
      AddAllFlatMapStep([], posts, i, PostUris);
      uris := AddAttachmentUris(uris, posts[i].attachments.GetOr([]));
      i := i + 1;
    }
    assert posts[..i] == posts;
    AddAllNoDups([], AllUris(posts));
    AddAllMembers([], AllUris(posts));
  }

  // ---------------------------------------------------------------------------
  // Profile picture
  // ---------------------------------------------------------------------------

  /** A `.jpg` or `.png` file under the profile-picture folder. */
  predicate IsPicture(z: Zip, dir: string, path: string) {
    path in z.files && StartsWith(path, dir) && (EndsWith(path, ".jpg") || EndsWith(path, ".png")) &&
    !z.files[path].dir
  }

  /** `parseInt(filename.split('.')[0]) || 0`: the numeric stem of the file name, 0 when it has none. */
  function PictureStamp(path: string): int {
    ParseInt(Before(LastSegment(path), ".")).GetOr(0)
  }

  /** The pictures in entry order, as the collection loop pushes them. */
  function Pictures(z: Zip, dir: string): seq<string> {
    Filter(z.paths, path => IsPicture(z, dir, path))
  }

  /** The head of the pictures sorted newest first, if there is one. */
  function Newest(z: Zip, dir: string): Option<string> {
    var pics := Pictures(z, dir);
    if pics == [] then None else Some(SortDesc(pics, PictureStamp)[0])
  }

  /** The pictures among the first `i + 1` entries: those among the first `i`, then entry `i` if it is one. */
  lemma PicturesStep(z: Zip, dir: string, i: nat)
    requires i < |z.paths|
    ensures Filter(z.paths[..i + 1], path => IsPicture(z, dir, path)) ==
      Filter(z.paths[..i], path => IsPicture(z, dir, path)) + (if IsPicture(z, dir, z.paths[i]) then [z.paths[i]] else [])
  {
    FilterAppend(z.paths[..i], [z.paths[i]], path => IsPicture(z, dir, path));
    assert z.paths[..i + 1] == z.paths[..i] + [z.paths[i]];
  }

  /** The loop that pushes every picture of the folder, in entry order. */
  method CollectPictures(z: Zip, dir: string) returns (pics: seq<string>)
    ensures pics == Pictures(z, dir)
  {
    pics := [];
    var i := 0;
    while i < |z.paths|
      invariant 0 <= i <= |z.paths|
      invariant pics == Filter(z.paths[..i], path => IsPicture(z, dir, path))
    {
      var path := z.paths[i];
      PicturesStep(z, dir, i);
      if path in z.files && StartsWith(path, dir) && (EndsWith(path, ".jpg") || EndsWith(path, ".png")) && !z.files[path].dir {
        pics := pics + [path];
      }
      i := i + 1;
    }
    assert z.paths[..i] == z.paths;
  }

  /** `SortDesc(pics, stamp)[0]` is the first picture with the largest stamp. */
  lemma NewestPicture(z: Zip, dir: string) returns (k: nat)
    requires Pictures(z, dir) != []
    ensures k < |Pictures(z, dir)| && SortDesc(Pictures(z, dir), PictureStamp)[0] == Pictures(z, dir)[k]
    ensures IsPicture(z, dir, Pictures(z, dir)[k])
    ensures forall q :: q in z.paths && IsPicture(z, dir, q) ==> PictureStamp(q) <= PictureStamp(Pictures(z, dir)[k])
    ensures forall j :: 0 <= j < k ==> PictureStamp(Pictures(z, dir)[j]) < PictureStamp(Pictures(z, dir)[k])
  {
    k := FilterSortHead(z.paths, path => IsPicture(z, dir, path), PictureStamp);
  }

  /**
   * Sorting the pictures by stamp, newest first, and taking the head: the picture with the
   * largest stamp, ties broken by entry order; none when the folder holds no picture.
   */
  method PickProfilePicture(z: Zip, dir: string) returns (r: Option<string>)
    ensures r == Newest(z, dir)
    ensures r.None? <==> Pictures(z, dir) == []
    ensures r.Some? ==> IsPicture(z, dir, r.value)
    ensures r.Some? ==>
      (forall q :: q in z.paths && IsPicture(z, dir, q) ==> PictureStamp(q) <= PictureStamp(r.value))
    ensures r.Some? ==>
      (exists i :: 0 <= i < |Pictures(z, dir)| && Pictures(z, dir)[i] == r.value &&
        forall j :: 0 <= j < i ==> PictureStamp(Pictures(z, dir)[j]) < PictureStamp(r.value))
  {
    var pics := CollectPictures(z, dir);
    if pics == [] {
      return None;
    }
    var sorted := SortDesc(pics, PictureStamp);
    r := Some(sorted[0]);
    var k := NewestPicture(z, dir);
  }
}
