/**
 * The loaded ZIP archive, as the two upload handlers see it: the entries in the order
 * `Object.entries(zip.files)` lists them, each with its directory flag, the result of reading
 * it as JSON, and its uncompressed size. Object URLs handed out for extracted blobs are opaque
 * numbered handles.
 */
module Archive {
  import opened Wrappers
  import opened Records

  /**
   * The outcome of `JSON.parse(await entry.async('text'))`, reduced to what the handlers look
   * at: a failure to read or parse, `null`, another scalar, a top-level array of posts, or an
   * object with (possibly missing) `posts`, `archived_stories_v2` and
   * `profile_v2.name.full_name` properties.
   */
  datatype Doc =
    | Unparsable
    | JsonNull
    | JsonScalar
    | JsonArray(items: seq<Post>)
    | JsonObject(posts: Option<seq<Post>>, storiesV2: Option<seq<Story>>, fullName: Option<string>)

  /**
   * One entry of `zip.files`: its directory flag, what reading it as JSON yields, its
   * uncompressed size, and whether `entry.async('blob')` succeeds on it (`false`: it
   * throws).
   */
  datatype Entry = Entry(dir: bool, doc: Doc, size: nat, readable: bool)

  /** `path` is an entry whose blob can be extracted. */
  predicate Readable(z: RawArchive, path: string) {
    path in z.files && z.files[path].readable
  }

  /** Entry paths are distinct and are exactly the keys of `files`. */
  ghost predicate WellFormed(z: RawArchive) {
    (forall i, j :: 0 <= i < j < |z.paths| ==> z.paths[i] != z.paths[j]) &&
    (forall p :: p in z.files <==> p in z.paths)
  }

  datatype RawArchive = RawArchive(paths: seq<string>, files: map<string, Entry>)

  type Zip = z: RawArchive | WellFormed(z) witness RawArchive([], map[])

  datatype Mime = VideoMp4 | ImageJpeg

  /** `URL.createObjectURL(new Blob([entry], { type: mime }))`: handle number, archive path read, MIME type. */
  datatype Blob = Blob(handle: nat, source: string, mime: Mime)
}
