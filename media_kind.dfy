/** Classification of media URIs by substring and suffix. */
module MediaKind {
  import opened Text
  import opened Archive

  /** A video: the URI contains `videos/` or ends in `.mp4`. */
  predicate IsVideoUri(uri: string) {
    Contains(uri, "videos/") || EndsWith(uri, ".mp4")
  }

  /** The photo test of the post type filter: `photos/`, `.jpg` or `.png`. */
  predicate IsFilterPhotoUri(uri: string) {
    Contains(uri, "photos/") || EndsWith(uri, ".jpg") || EndsWith(uri, ".png")
  }

  /** The photo test of the media views, which also accepts `images/`. */
  predicate IsInfoPhotoUri(uri: string) {
    Contains(uri, "photos/") || Contains(uri, "images/") || EndsWith(uri, ".jpg") || EndsWith(uri, ".png")
  }

  datatype Kind = Video | Photo | OtherMedia

  /** `isVideo ? 'video' : isPhoto ? 'photo' : 'media'`. */
  function KindOf(uri: string): (k: Kind)
    ensures k == Video <==> IsVideoUri(uri)
    ensures k == Photo <==> !IsVideoUri(uri) && IsInfoPhotoUri(uri)
  {
    if IsVideoUri(uri) then Video else if IsInfoPhotoUri(uri) then Photo else OtherMedia
  }

  /** The MIME type of an extracted media blob: video iff the URI is a video URI. */
  function MimeFor(uri: string): (m: Mime)
    ensures m == VideoMp4 <==> IsVideoUri(uri)
  {
    if IsVideoUri(uri) then VideoMp4 else ImageJpeg
  }

  /** The views' photo test is weaker than the filter's: everything the filter calls a photo, they do too. */
  lemma FilterPhotoIsInfoPhoto(uri: string)
    requires IsFilterPhotoUri(uri)
    ensures IsInfoPhotoUri(uri)
  {
  }

  /** But not conversely: an `images/` URI ending in `.jpeg` is a photo to the views only. */
  lemma ImagesJpegDiscrepancy()
    ensures IsInfoPhotoUri("images/a.jpeg") && !IsFilterPhotoUri("images/a.jpeg")
    ensures !IsVideoUri("images/a.jpeg")
  {
    var u := "images/a.jpeg";
    assert |u| == 13;
    assert OccursAt(u, "images/", 0);
    ContainsAt(u, "images/", 0);
    assert forall i :: 0 <= i <= 6 ==> u[i] != 'p' && u[i] != 'v';
    NotContainsFirst(u, "photos/");
    NotContainsFirst(u, "videos/");
    assert u[9..] == "jpeg";
  }

  /** A URI that the filter calls a photo or a video is at least four characters long. */
  lemma MediaUriLength(uri: string)
    requires IsFilterPhotoUri(uri) || IsVideoUri(uri)
    ensures |uri| >= 4
  {
    if Contains(uri, "photos/") {
      assert OccursAt(uri, "photos/", IndexOf(uri, "photos/").value);
    } else if Contains(uri, "videos/") {
      assert OccursAt(uri, "videos/", IndexOf(uri, "videos/").value);
    }
  }
}
