/**
 * What the post card and the post detail view both derive from `getPostInfo(post)`: the media
 * entries split by type, all photos followed by all videos, the links split into Facebook and
 * other links, the Facebook preview block, the other-link block, and the author's display
 * name.
 */
module PostView {
  import opened Wrappers
  import opened Seqs
  import opened Text
  import opened Records
  import opened MediaKind
  import opened PostInfo

  predicate IsPhoto(m: MediaEntry) { m.MediaFile? && m.kind == Photo }
  predicate IsVideo(m: MediaEntry) { m.MediaFile? && m.kind == Video }
  predicate IsVisual(m: MediaEntry) { IsPhoto(m) || IsVideo(m) }
  predicate IsPlace(m: MediaEntry) { m.PlaceEntry? }
  predicate IsLink(m: MediaEntry) { m.LinkEntry? }
  predicate IsShared(m: MediaEntry) { m.SharedLink? }

  /** `link.external?.url?.includes('facebook.com')`. */
  predicate IsFacebookLink(m: MediaEntry) {
    m.LinkEntry? && m.external.url.Some? && Contains(m.external.url.value, "facebook.com")
  }

  predicate NotFacebookLink(m: MediaEntry) { !IsFacebookLink(m) }

  function Photos(info: Info): seq<MediaEntry> { Filter(info.media, IsPhoto) }
  function Videos(info: Info): seq<MediaEntry> { Filter(info.media, IsVideo) }
  function Places(info: Info): seq<MediaEntry> { Filter(info.media, IsPlace) }
  function Links(info: Info): seq<MediaEntry> { Filter(info.media, IsLink) }
  function SharedLinks(info: Info): seq<MediaEntry> { Filter(info.media, IsShared) }

  /** `allMedia = [...photos, ...videos]`. */
  function AllMedia(info: Info): seq<MediaEntry> { Photos(info) + Videos(info) }

  /** The links whose url does not mention `facebook.com`. */
  function NonFacebookLinks(info: Info): seq<MediaEntry> { Filter(Links(info), NotFacebookLink) }

  /** `[...sharedLinks, ...links.filter(isFacebook)]`. */
  function FacebookLinks(info: Info): seq<MediaEntry> { SharedLinks(info) + Filter(Links(info), IsFacebookLink) }

  /**
   * `allMedia` holds exactly the photo and video entries, each kind in its original order,
   * photos first; places, links, shared links and other media are left out.
   */
  lemma AllMediaProps(info: Info)
    ensures forall m :: m in AllMedia(info) <==> m in info.media && IsVisual(m)
    ensures forall i :: 0 <= i < |Photos(info)| ==> IsPhoto(AllMedia(info)[i])
    ensures forall i :: |Photos(info)| <= i < |AllMedia(info)| ==> IsVideo(AllMedia(info)[i])
    ensures IsSubseq(Photos(info), info.media) && IsSubseq(Videos(info), info.media)
    ensures forall m :: m in AllMedia(info) ==> !IsPlace(m) && !IsLink(m) && !IsShared(m)
  {
    FilterMembers(info.media, IsPhoto);
    FilterMembers(info.media, IsVideo);
    FilterIsSubseq(info.media, IsPhoto);
    FilterIsSubseq(info.media, IsVideo);
    forall i | 0 <= i < |AllMedia(info)|
      ensures i < |Photos(info)| ==> IsPhoto(AllMedia(info)[i])
      ensures i >= |Photos(info)| ==> IsVideo(AllMedia(info)[i])
    {
      if i < |Photos(info)| {
        assert AllMedia(info)[i] == Photos(info)[i];
        assert Photos(info)[i] in Photos(info);
      } else {
        assert AllMedia(info)[i] == Videos(info)[i - |Photos(info)|];
        assert Videos(info)[i - |Photos(info)|] in Videos(info);
      }
    }
  }

  /**
   * The other links and the Facebook part of `facebookLinks` split `links` in two: every link
   * is in exactly one of them, and `facebookLinks` starts with all the shared links.
   */
  lemma LinkSplit(info: Info)
    ensures multiset(NonFacebookLinks(info)) + multiset(Filter(Links(info), IsFacebookLink)) == multiset(Links(info))
    ensures forall m :: m in Links(info) ==> (m in NonFacebookLinks(info) <==> !(m in Filter(Links(info), IsFacebookLink)))
    ensures forall m :: m in NonFacebookLinks(info) <==> m in info.media && IsLink(m) && !IsFacebookLink(m)
    ensures forall m :: m in FacebookLinks(info) <==> m in info.media && (IsShared(m) || IsFacebookLink(m))
    ensures FacebookLinks(info)[..|SharedLinks(info)|] == SharedLinks(info)
  {
    FilterPartition(Links(info), NotFacebookLink, IsFacebookLink);
    FilterMembers(info.media, IsLink);
    FilterMembers(info.media, IsShared);
    FilterMembers(Links(info), NotFacebookLink);
    FilterMembers(Links(info), IsFacebookLink);
  }

  // ---------------------------------------------------------------------------
  // The Facebook preview block
  // ---------------------------------------------------------------------------

  /** The caption and the link of the Facebook preview, drawn from `facebookLinks[0]`. */
  datatype FacebookBlock = FacebookBlock(caption: string, href: string)

  /** `contentType || 'Shared Link'` and `url || external?.url`. */
  function FacebookBlockOf(info: Info): (r: Option<FacebookBlock>)
    ensures r.None? <==> FacebookLinks(info) == []
  {
    var fb := FacebookLinks(info);
    if fb == [] then None
    else
      var m := fb[0];
      var caption := if m.SharedLink? && Truthy(m.contentType) then m.contentType.value else "Shared Link";
      var href := if m.SharedLink? && m.url != "" then m.url
                  else if m.LinkEntry? then OrEmpty(m.external.url)
                  else "";
      Some(FacebookBlock(caption, href))
  }

  /**
   * A post with a shared original previews that original, labelled by its content type;
   * otherwise the preview links to the first link that mentions `facebook.com`.
   */
  lemma FacebookBlockSource(info: Info)
    requires FacebookLinks(info) != []
    ensures var m := FacebookLinks(info)[0];
      && (SharedLinks(info) != [] ==> m == SharedLinks(info)[0] && m.SharedLink?)
      && (SharedLinks(info) == [] ==> IsFacebookLink(m) && Contains(FacebookBlockOf(info).value.href, "facebook.com"))
  {
    var m := FacebookLinks(info)[0];
    if SharedLinks(info) != [] {
      assert SharedLinks(info)[0] in SharedLinks(info);
    } else {
      assert m in Filter(Links(info), IsFacebookLink);
    }
  }

  // ---------------------------------------------------------------------------
  // The other-link block
  // ---------------------------------------------------------------------------

  /** The name, description, source and url that the other-link block shows. */
  datatype LinkBlock = LinkBlock(name: string, description: Option<string>, source: Option<string>, url: Option<string>)

  function Shown(s: Option<string>): Option<string> {
    if Truthy(s) then s else None
  }

  /** The block of one link entry, with the card's fallback name. */
  function LinkBlockFrom(m: MediaEntry, fallback: string): LinkBlock {
    match m
    case LinkEntry(e) =>
      LinkBlock(if Truthy(e.name) then e.name.value else fallback, Shown(e.description), Shown(e.source), Shown(e.url))
    case _ => LinkBlock(fallback, None, None, None)
  }

  /**
   * The card's block as the code builds it: name and description from the first other link,
   * but source and url from the first link of any kind.
   */
  function LinkBlockAsWritten(info: Info): (r: Option<LinkBlock>)
    ensures r.None? <==> NonFacebookLinks(info) == []
  {
    var other := NonFacebookLinks(info);
    if other == [] then None
    else
      var links := Links(info);
      assert other[0] in links;
      var first := links[0];
      var from := LinkBlockFrom(other[0], "Shared Link");
      var any := LinkBlockFrom(first, "Shared Link");
      Some(LinkBlock(from.name, from.description, any.source, any.url))
  }

  /**
   * The card's block as the detail view builds it: every field from the first other link
   * (the card's fallback name `'Shared Link'` is kept).
   */
  function LinkBlockCorrected(info: Info): (r: Option<LinkBlock>)
    ensures r.None? <==> NonFacebookLinks(info) == []
    ensures r.Some? ==> r.value == LinkBlockFrom(NonFacebookLinks(info)[0], "Shared Link")
  {
    var other := NonFacebookLinks(info);
    if other == [] then None
    else
      Some(LinkBlockFrom(other[0], "Shared Link"))
  }

  /** The corrected block never links to Facebook: its url, if shown, does not mention `facebook.com`. */
  lemma LinkBlockCorrectedNotFacebook(info: Info)
    requires LinkBlockCorrected(info).Some? && LinkBlockCorrected(info).value.url.Some?
    ensures !Contains(LinkBlockCorrected(info).value.url.value, "facebook.com")
  {
    var other := NonFacebookLinks(info);
    assert other[0] in other;
  }

  /** When the first link is itself an other link, the two blocks agree. */
  lemma LinkBlockAgree(info: Info)
    requires Links(info) != [] && !IsFacebookLink(Links(info)[0])
    ensures LinkBlockAsWritten(info) == LinkBlockCorrected(info)
  {
    var links := Links(info);
    assert links == [links[0]] + links[1..];
    assert NonFacebookLinks(info)[0] == links[0];
  }

  const FacebookPost := LinkEntry(ExternalContext(Some("Facebook"), Some("facebook.com"), Some("https://www.facebook.com/p/1"), None, map[]))
  const OtherSite := LinkEntry(ExternalContext(Some("Example"), Some("example.com"), Some("https://example.com/a"), None, map[]))

  /** A post that links first to a Facebook post and then to another site. */
  const MixedLinks := Info("", [FacebookPost, OtherSite], [], 0, "")

  /**
   * On that post the card's block names the other site but shows the Facebook link's source
   * and url; the corrected block shows the other site throughout.
   */
  lemma LinkBlockMixesLinks()
    ensures LinkBlockAsWritten(MixedLinks) == Some(LinkBlock("Example", None, Some("facebook.com"), Some("https://www.facebook.com/p/1")))
    ensures LinkBlockCorrected(MixedLinks) == Some(LinkBlock("Example", None, Some("example.com"), Some("https://example.com/a")))
  {
    MixedLinksSplit();
  }

  lemma MixedLinksSplit()
    ensures Links(MixedLinks) == [FacebookPost, OtherSite]
    ensures NonFacebookLinks(MixedLinks) == [OtherSite]
  {
    var media := [FacebookPost, OtherSite];
    assert media[1..] == [OtherSite] && [OtherSite][1..] == [];
    assert Filter(media, IsLink) == [FacebookPost] + Filter([OtherSite], IsLink);
    assert Links(MixedLinks) == media;
    FacebookPostIsFacebook();
    assert Filter(media, NotFacebookLink) == Filter([OtherSite], NotFacebookLink);
  }

  lemma FacebookPostIsFacebook()
    ensures IsFacebookLink(FacebookPost)
    ensures !IsFacebookLink(OtherSite)
  {
    var fb := "https://www.facebook.com/p/1";
    assert OccursAt(fb, "facebook.com", 12);
    ContainsAt(fb, "facebook.com", 12);
    NotContainsFirst("https://example.com/a", "facebook.com");
  }

  // ---------------------------------------------------------------------------
  // Display name
  // ---------------------------------------------------------------------------

  /** `title.split(' shared')[0].split(' updated')[0].split(' added')[0]`. */
  function NameFromTitle(title: string): (r: string)
    ensures StartsWith(title, r)
    ensures !Contains(r, " shared") && !Contains(r, " updated") && !Contains(r, " added")
    ensures !Contains(title, " shared") && !Contains(title, " updated") && !Contains(title, " added") ==> r == title
  {
    var a := Before(title, " shared");
    var b := Before(a, " updated");
    var c := Before(b, " added");
    PrefixNotContains(a, |b|, " shared");
    assert a[..|b|] == b;
    PrefixNotContains(b, |c|, " shared");
    PrefixNotContains(b, |c|, " updated");
    assert b[..|c|] == c;
    assert title[..|c|] == c by {
      assert title[..|a|] == a && a[..|b|] == b && b[..|c|] == c;
    }
    c
  }

  /** `profileName || nameFromTitle || 'You'`. */
  function DisplayName(profileName: string, title: string): (r: string)
    ensures profileName != "" ==> r == profileName
    ensures profileName == "" && NameFromTitle(title) != "" ==> r == NameFromTitle(title)
    ensures profileName == "" && NameFromTitle(title) == "" ==> r == "You"
    ensures r != ""
  {
    if profileName != "" then profileName
    else
      var n := NameFromTitle(title);
      if n != "" then n else "You"
  }

  /**
   * The avatar letter: the first character of the display name, so the profile name's initial
   * when there is a profile name, the initial of the name in the title otherwise, and `Y` for
   * `You` when neither exists.
   */
  function AvatarLetter(profileName: string, title: string): (c: char)
    ensures profileName != "" ==> c == profileName[0]
    ensures profileName == "" && NameFromTitle(title) != "" ==> c == NameFromTitle(title)[0]
    ensures profileName == "" && NameFromTitle(title) == "" ==> c == 'Y'
    ensures profileName == "" && title == "" ==> c == 'Y'
  {
    DisplayName(profileName, title)[0]
  }

  /** A title with no label words names its author in full; an empty one falls back to `You`. */
  lemma DisplayNameFallbacks(title: string)
    ensures !Contains(title, " shared") && !Contains(title, " updated") && !Contains(title, " added") && title != "" ==>
      DisplayName("", title) == title
    ensures title == "" ==> DisplayName("", title) == "You"
  {
  }

  /**
   * Inside an author's name every space is followed by a letter that does not start a label
   * word, so no label word (`' shared'`, `' updated'`, `' added'`) can begin inside the name.
   */
  predicate PlainName(name: string) {
    forall i :: 0 <= i < |name| && name[i] == ' ' ==>
      i + 1 < |name| && name[i + 1] != 's' && name[i + 1] != 'u' && name[i + 1] != 'a'
  }

  /** A title `"<name> shared <rest>"` yields `name` as the display name. */
  lemma NameBeforeShared(name: string, rest: string)
    requires PlainName(name)
    ensures NameFromTitle(name + " shared" + rest) == name
  {
    var t := name + " shared" + rest;
    var sep := " shared";
    assert t[|name|..|name| + |sep|] == sep;
    forall j | 0 <= j < |name|
      ensures !OccursAt(t, sep, j)
    {
      assert t[j] == name[j];
      if name[j] == ' ' {
        assert t[j + 1] == name[j + 1];
        NotOccursAtChar(t, sep, j, 1);
      } else {
        NotOccursAtChar(t, sep, j, 0);
      }
    }
    assert OccursAt(t, sep, |name|);
    var r := IndexOf(t, sep);
    assert r.Some? && r.value <= |name|;
    assert r.value == |name|;
    assert Before(t, sep) == name;
    PlainNameNoLabel(name, " updated");
    PlainNameNoLabel(name, " added");
  }

  /** A plain name contains no label word. */
  lemma PlainNameNoLabel(name: string, word: string)
    requires PlainName(name)
    requires word == " updated" || word == " added"
    ensures !Contains(name, word)
  {
    forall j | 0 <= j <= |name| - |word|
      ensures !OccursAt(name, word, j)
    {
      if name[j] == ' ' {
        NotOccursAtChar(name, word, j, 1);
      } else {
        NotOccursAtChar(name, word, j, 0);
      }
    }
  }

  /** The title of a shared post names its author. */
  lemma DisplayNameShared()
    ensures DisplayName("", "Kenneth Quibel shared a post.") == "Kenneth Quibel"
  {
    var n := "Kenneth Quibel";
    assert forall i :: 0 <= i < |n| && i != 7 ==> n[i] != ' ';
    assert PlainName(n);
    assert "Kenneth Quibel shared a post." == n + " shared" + " a post.";
    NameBeforeShared(n, " a post.");
  }
}
