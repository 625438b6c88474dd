/**
 * Media resolution shared by both upload handlers: each referenced URI is looked up under two
 * candidate paths, and the first usable entry is extracted as a blob whose handle is stored in
 * the lookup table under the original URI.
 */
module Resolve {
  import opened Wrappers
  import opened Seqs
  import opened Text
  import opened Archive
  import opened MediaKind

  /** `[uri, base.split('/')[0] + '/' + uri]`. */
  function Candidates(uri: string, base: string): seq<string> {
    [uri, Before(base, "/") + "/" + uri]
  }

  /**
   * An entry that exists, is not a directory, is not larger than the per-file cap when one
   * applies, and whose blob can be extracted: a candidate whose `async('blob')` throws is
   * caught and the next one tried.
   */
  predicate Usable(z: Zip, path: string, cap: Option<nat>) {
    path in z.files && !z.files[path].dir && (cap.None? || z.files[path].size <= cap.value) &&
    z.files[path].readable
  }

  /** The first usable path of `cs`, if any. */
  function FirstUsable(z: Zip, cs: seq<string>, cap: Option<nat>): (r: Option<string>)
    ensures r.Some? ==> r.value in cs && Usable(z, r.value, cap)
    ensures r.None? <==> forall c :: c in cs ==> !Usable(z, c, cap)
  {
    if cs == [] then None
    else if Usable(z, cs[0], cap) then Some(cs[0])
    else FirstUsable(z, cs[1..], cap)
  }

  /** The path `uri` resolves to: its first usable candidate. */
  function Source(z: Zip, uri: string, base: string, cap: Option<nat>): Option<string> {
    FirstUsable(z, Candidates(uri, base), cap)
  }

  lemma {:induction false} FirstUsableAt(z: Zip, cs: seq<string>, cap: Option<nat>, j: nat)
    requires j < |cs| && Usable(z, cs[j], cap)
    requires forall k :: 0 <= k < j ==> !Usable(z, cs[k], cap)
    ensures FirstUsable(z, cs, cap) == Some(cs[j])
  {
    if j > 0 {
      FirstUsableAt(z, cs[1..], cap, j - 1);
    }
  }

  /**
   * The inner loop over the candidates of one URI: the first existing non-directory entry
   * within the cap whose blob extracts; an oversized entry, or one whose extraction throws, is
   * skipped and the next candidate tried.
   */
  method TryCandidates(z: Zip, cs: seq<string>, cap: Option<nat>) returns (found: Option<string>)
    ensures found == FirstUsable(z, cs, cap)
  {
    var j := 0;
    while j < |cs|
      invariant 0 <= j <= |cs|
      invariant forall k :: 0 <= k < j ==> !Usable(z, cs[k], cap)
    {
      var tryPath := cs[j];
      if tryPath in z.files && !z.files[tryPath].dir {
        if cap.Some? && z.files[tryPath].size > cap.value {
          // skipped: too large
        } else if z.files[tryPath].readable {
          FirstUsableAt(z, cs, cap, j);
          return Some(tryPath);
        }
        // otherwise the extraction threw, was caught, and the next candidate is tried
      }
      j := j + 1;
    }
    found := None;
  }

  /**
   * What the table holds after the URIs `done` have been processed, for a resolver `res` (the
   * path a URI resolves to) and a MIME choice `mime`.
   */
  ghost predicate TableFor(done: seq<string>, res: string -> Option<string>, mime: string -> Mime,
                           table: map<string, Blob>, next: nat, next': nat)
  {
    TableKeys(done, res, table) && TableValues(res, mime, table) && TableHandles(table, next, next') &&
    next' == next + |table.Keys|
  }

  /** The keys are the processed URIs that resolve. */
  ghost predicate TableKeys(done: seq<string>, res: string -> Option<string>, table: map<string, Blob>) {
    forall u :: u in table <==> u in done && res(u).Some?
  }

  /** Each blob holds what its URI resolves to, with that URI's MIME type. */
  ghost predicate TableValues(res: string -> Option<string>, mime: string -> Mime, table: map<string, Blob>) {
    forall u :: u in table ==> res(u).Some? && table[u].source == res(u).value && table[u].mime == mime(u)
  }

  /** The handles are distinct and lie in `[next, next')`. */
  ghost predicate TableHandles(table: map<string, Blob>, next: nat, next': nat) {
    (forall u :: u in table ==> next <= table[u].handle < next') &&
    (forall u, v :: u in table && v in table && u != v ==> table[u].handle != table[v].handle)
  }

  /** Processing URI `i` when it does not resolve: nothing is added. */
  lemma TableMiss(uris: seq<string>, i: nat, res: string -> Option<string>, mime: string -> Mime,
                  table: map<string, Blob>, next: nat, next': nat)
    requires i < |uris| && res(uris[i]).None?
    requires TableFor(uris[..i], res, mime, table, next, next')
    ensures TableFor(uris[..i + 1], res, mime, table, next, next')
  {
    var done := uris[..i + 1];
    assert done == uris[..i] + [uris[i]];
    forall u ensures u in table <==> u in done && res(u).Some? {
      assert u in done <==> u in uris[..i] || u == uris[i];
    }
  }

  /** Processing URI `i` when it resolves: a blob with the next handle is added under it. */
  lemma TableHit(uris: seq<string>, i: nat, res: string -> Option<string>, mime: string -> Mime,
                 table: map<string, Blob>, next: nat, next': nat)
    requires NoDups(uris) && i < |uris| && res(uris[i]).Some?
    requires TableFor(uris[..i], res, mime, table, next, next')
    ensures TableFor(uris[..i + 1], res, mime, table[uris[i] := Blob(next', res(uris[i]).value, mime(uris[i]))],
                     next, next' + 1)
  {
    var uri := uris[i];
    var b := Blob(next', res(uri).value, mime(uri));
    var t := table[uri := b];
    HitKeys(uris, i, res, table, b, t);
    AddedKey(table, uri, b);
    HitValues(table, uri, b, t, res, mime, next');
    HitHandles(table, uri, b, t, next, next');
  }

  /** The keys after a hit: the URIs done so far that resolve, the new one among them. */
  lemma HitKeys(uris: seq<string>, i: nat, res: string -> Option<string>, table: map<string, Blob>,
                b: Blob, t: map<string, Blob>)
    requires NoDups(uris) && i < |uris| && res(uris[i]).Some?
    requires TableKeys(uris[..i], res, table)
    requires t == table[uris[i] := b]
    ensures TableKeys(uris[..i + 1], res, t)
    ensures uris[i] !in table
  {
    assert uris[..i + 1] == uris[..i] + [uris[i]];
    assert uris[i] !in uris[..i];
    forall u ensures u in t <==> u in uris[..i + 1] && res(u).Some? {
      assert u in uris[..i + 1] <==> u in uris[..i] || u == uris[i];
    }
  }

  /** Adding a new key grows the key set by one. */
  lemma AddedKey<K, V>(m: map<K, V>, k: K, v: V)
    requires k !in m
    ensures |m[k := v].Keys| == |m.Keys| + 1
  {
    assert m[k := v].Keys == m.Keys + {k};
  }

  /** Every entry keeps its source and its MIME type after the new one is added. */
  lemma HitValues(table: map<string, Blob>, uri: string, b: Blob, t: map<string, Blob>,
                  res: string -> Option<string>, mime: string -> Mime, next': nat)
    requires t == table[uri := b]
    requires res(uri).Some? && b == Blob(next', res(uri).value, mime(uri))
    requires TableValues(res, mime, table)
    ensures TableValues(res, mime, t)
  {
    forall u | u in t ensures res(u).Some? && t[u].source == res(u).value && t[u].mime == mime(u) {
      if u != uri {
        assert t[u] == table[u];
      }
    }
  }

  /** A handle above all those in use keeps the handles distinct and in range. */
  lemma HitHandles(table: map<string, Blob>, uri: string, b: Blob, t: map<string, Blob>, next: nat, next': nat)
    requires t == table[uri := b]
    requires b.handle == next' && next <= next'
    requires TableHandles(table, next, next')
    ensures TableHandles(t, next, next' + 1)
  {
    forall u | u in t ensures next <= t[u].handle < next' + 1 {
      if u != uri {
        assert t[u] == table[u];
      }
    }
    forall u, v | u in t && v in t && u != v ensures t[u].handle != t[v].handle {
      if u != uri && v != uri {
        assert t[u] == table[u] && t[v] == table[v];
      }
    }
  }

  /**
   * The candidate loop of both handlers: for each URI in order, try its candidates in order, and
   * on the first usable one create a blob (a fresh handle) and stop. A URI with no usable
   * candidate gets no key. Handles are numbered from `next` upward.
   */
  method ResolveMedia(z: Zip, uris: seq<string>, base: string, cap: Option<nat>, next: nat)
    returns (table: map<string, Blob>, next': nat)
    requires NoDups(uris)
    ensures forall u :: u in table <==> u in uris && Source(z, u, base, cap).Some?
    ensures forall u :: u in table ==>
      table[u].source == Source(z, u, base, cap).value && table[u].mime == MimeFor(u)
    ensures forall u :: u in table ==> next <= table[u].handle < next'
    ensures forall u, v :: u in table && v in table && u != v ==> table[u].handle != table[v].handle
    ensures next' == next + |table.Keys|
  {
    ghost var res := (u: string) => Source(z, u, base, cap);
    table := map[];
    next' := next;
    var i := 0;
    while i < |uris|
      invariant 0 <= i <= |uris|
      invariant TableFor(uris[..i], res, MimeFor, table, next, next')
    {
      var uri := uris[i];
      var found := TryCandidates(z, Candidates(uri, base), cap);
      if found.Some? {
        TableHit(uris, i, res, MimeFor, table, next, next');
        table := table[uri := Blob(next', found.value, MimeFor(uri))];
        next' := next' + 1;
      } else {
        TableMiss(uris, i, res, MimeFor, table, next, next');
      }
      i := i + 1;
    }
    assert uris[..i] == uris;
  }
}
