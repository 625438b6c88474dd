/**
 * `decodePost`: the structural map that runs `decodeText` over the human-written fields of a
 * post and copies everything else. Its partner is `MisEncodePost`, the mis-encoding of the same
 * fields that the export applies; the two are proved inverse.
 */
module Decode {
  import opened Wrappers
  import opened Records
  import opened Utf8
  import opened Seqs

  /** `x ? decodeText(x) : x`. */
  function DecodeField(s: Option<string>): Option<string> {
    if Truthy(s) then Some(DecodeText(s.value)) else s
  }

  function DecodeMedia(m: Media): Media {
    m.(description := DecodeField(m.description), title := DecodeField(m.title))
  }

  function DecodePlace(p: Place): Place {
    p.(name := DecodeField(p.name), address := DecodeField(p.address))
  }

  /** `url` is copied as it is. */
  function DecodeExternal(e: ExternalContext): ExternalContext {
    e.(name := DecodeField(e.name), source := DecodeField(e.source))
  }

  function DecodeItem(d: Item): Item {
    d.(media := if d.media.Some? then Some(DecodeMedia(d.media.value)) else d.media,
       place := if d.place.Some? then Some(DecodePlace(d.place.value)) else d.place,
       externalContext := if d.externalContext.Some? then Some(DecodeExternal(d.externalContext.value)) else d.externalContext)
  }

  function DecodeAttachment(a: Attachment): Attachment {
    a.(data := if a.data.Some? then Some(Map(a.data.value, DecodeItem)) else None)
  }

  function DecodePostText(d: PostText): PostText {
    d.(post := DecodeField(d.post))
  }

  /** `decodePost(post)`. */
  function DecodePost(p: Post): (r: Post)
    ensures r.timestamp == p.timestamp
  {
    p.(title := DecodeField(p.title),
       data := if p.data.Some? then Some(Map(p.data.value, DecodePostText)) else p.data,
       attachments := if p.attachments.Some? then Some(Map(p.attachments.value, DecodeAttachment)) else p.attachments)
  }

  // ---------------------------------------------------------------------------
  // What decodePost does not touch
  // ---------------------------------------------------------------------------

  /** A field with its text replaced by `""`; presence is kept. */
  function Blank(s: Option<string>): Option<string> {
    if s.Some? then Some("") else None
  }

  function BlankItem(d: Item): Item {
    d.(media := if d.media.Some? then Some(d.media.value.(description := Blank(d.media.value.description), title := Blank(d.media.value.title))) else None,
       place := if d.place.Some? then Some(d.place.value.(name := Blank(d.place.value.name), address := Blank(d.place.value.address))) else None,
       externalContext := if d.externalContext.Some? then Some(d.externalContext.value.(name := Blank(d.externalContext.value.name), source := Blank(d.externalContext.value.source))) else None)
  }

  function BlankAttachment(a: Attachment): Attachment {
    a.(data := if a.data.Some? then Some(Map(a.data.value, BlankItem)) else None)
  }

  /** The post with the eight rewritten kinds of field blanked: everything `decodePost` must preserve. */
  function Skeleton(p: Post): Post {
    p.(title := Blank(p.title),
       data := if p.data.Some? then Some(Map(p.data.value, (d: PostText) => d.(post := Blank(d.post)))) else None,
       attachments := if p.attachments.Some? then Some(Map(p.attachments.value, BlankAttachment)) else None)
  }

  lemma DecodeFieldShape(s: Option<string>)
    ensures Blank(DecodeField(s)) == Blank(s)
    ensures !Truthy(s) ==> DecodeField(s) == s
  {
  }

  lemma DecodeItemSkeleton(d: Item)
    ensures BlankItem(DecodeItem(d)) == BlankItem(d)
  {
  }

  lemma DecodeAttachmentSkeleton(a: Attachment)
    ensures BlankAttachment(DecodeAttachment(a)) == BlankAttachment(a)
  {
    if a.data.Some? {
      var xs := a.data.value;
      forall i | 0 <= i < |xs| ensures BlankItem(DecodeItem(xs[i])) == BlankItem(xs[i]) {
        DecodeItemSkeleton(xs[i]);
      }
      assert Map(Map(xs, DecodeItem), BlankItem) == Map(xs, BlankItem);
    }
  }

  /**
   * `decodePost` preserves every field except the rewritten texts, and even for those it keeps
   * whether they are present: `timestamp`, `tags`, `uri`, `url`, `creationTimestamp`, the
   * lengths and order of `data` and `attachments` and all unread properties are unchanged.
   */
  lemma DecodePostSkeleton(p: Post)
    ensures Skeleton(DecodePost(p)) == Skeleton(p)
  {
    if p.attachments.Some? {
      var xs := p.attachments.value;
      forall i | 0 <= i < |xs| ensures BlankAttachment(DecodeAttachment(xs[i])) == BlankAttachment(xs[i]) {
        DecodeAttachmentSkeleton(xs[i]);
      }
      assert Map(Map(xs, DecodeAttachment), BlankAttachment) == Map(xs, BlankAttachment);
    }
    if p.data.Some? {
      var ds := p.data.value;
      var blank := (d: PostText) => d.(post := Blank(d.post));
      assert Map(Map(ds, DecodePostText), blank) == Map(ds, blank);
    }
  }

  /** An empty text is falsy and comes back as it is. */
  lemma DecodeTextEmpty()
    ensures DecodeField(Some("")) == Some("")
  {
  }

  // ---------------------------------------------------------------------------
  // The inverse: the export's mis-encoding of the same fields
  // ---------------------------------------------------------------------------

  function MisEncodeField(s: Option<string>): Option<string> {
    if s.Some? then Some(MisEncode(s.value)) else None
  }

  function MisEncodeItem(d: Item): Item {
    d.(media := if d.media.Some? then Some(d.media.value.(description := MisEncodeField(d.media.value.description), title := MisEncodeField(d.media.value.title))) else None,
       place := if d.place.Some? then Some(d.place.value.(name := MisEncodeField(d.place.value.name), address := MisEncodeField(d.place.value.address))) else None,
       externalContext := if d.externalContext.Some? then Some(d.externalContext.value.(name := MisEncodeField(d.externalContext.value.name), source := MisEncodeField(d.externalContext.value.source))) else None)
  }

  function MisEncodeAttachment(a: Attachment): Attachment {
    a.(data := if a.data.Some? then Some(Map(a.data.value, MisEncodeItem)) else None)
  }

  /** The post as the export writes it: every decoded field mis-encoded. */
  function MisEncodePost(p: Post): Post {
    p.(title := MisEncodeField(p.title),
       data := if p.data.Some? then Some(Map(p.data.value, (d: PostText) => d.(post := MisEncodeField(d.post)))) else None,
       attachments := if p.attachments.Some? then Some(Map(p.attachments.value, MisEncodeAttachment)) else None)
  }

  lemma DecodeFieldRepairs(s: Option<string>)
    ensures DecodeField(MisEncodeField(s)) == s
  {
    if s.Some? {
      DecodeTextRepairs(s.value);
      if s.value != "" {
        assert |Encode(s.value)| >= 1 by {
          assert |EncodeChar(s.value[0])| >= 1;
        }
        assert MisEncode(s.value) != "";
      }
    }
  }

  lemma DecodeItemRepairs(d: Item)
    ensures DecodeItem(MisEncodeItem(d)) == d
  {
    if d.media.Some? {
      DecodeFieldRepairs(d.media.value.description);
      DecodeFieldRepairs(d.media.value.title);
    }
    if d.place.Some? {
      DecodeFieldRepairs(d.place.value.name);
      DecodeFieldRepairs(d.place.value.address);
    }
    if d.externalContext.Some? {
      DecodeFieldRepairs(d.externalContext.value.name);
      DecodeFieldRepairs(d.externalContext.value.source);
    }
  }

  lemma DecodeAttachmentRepairs(a: Attachment)
    ensures DecodeAttachment(MisEncodeAttachment(a)) == a
  {
    if a.data.Some? {
      var xs := a.data.value;
      forall i | 0 <= i < |xs| ensures DecodeItem(MisEncodeItem(xs[i])) == xs[i] {
        DecodeItemRepairs(xs[i]);
      }
      assert Map(Map(xs, MisEncodeItem), DecodeItem) == xs;
    }
  }

  /** `decodePost` undoes the export's mis-encoding of a post, for every post. */
  lemma DecodePostRepairs(p: Post)
    ensures DecodePost(MisEncodePost(p)) == p
  {
    DecodeFieldRepairs(p.title);
    if p.data.Some? {
      var ds := p.data.value;
      var enc := (d: PostText) => d.(post := MisEncodeField(d.post));
      forall i | 0 <= i < |ds| ensures DecodePostText(enc(ds[i])) == ds[i] {
        DecodeFieldRepairs(ds[i].post);
      }
      assert Map(Map(ds, enc), DecodePostText) == ds;
    }
    if p.attachments.Some? {
      var xs := p.attachments.value;
      forall i | 0 <= i < |xs| ensures DecodeAttachment(MisEncodeAttachment(xs[i])) == xs[i] {
        DecodeAttachmentRepairs(xs[i]);
      }
      assert Map(Map(xs, MisEncodeAttachment), DecodeAttachment) == xs;
    }
  }
}
