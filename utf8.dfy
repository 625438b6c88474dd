/**
 * UTF-8 as RFC 3629 defines it (section 3 for the encoding, section 4 for the byte syntax),
 * and the text repair `decodeURIComponent(escape(s))` that the archive reader applies to
 * every human-written string.
 *
 * `escape` (ECMA-262 Annex B.2.1.1) turns every code unit below 256 into a `%XX` escape (or
 * leaves it alone when it is an unreserved ASCII character) and every other code unit into
 * `%uXXXX`; `decodeURIComponent` (ECMA-262 section 19.2.6.2) rejects `%u` escapes and decodes
 * the `%XX` bytes as UTF-8, throwing on any ill-formed sequence. So the composition succeeds
 * exactly when every character of `s` is below 256 and those characters, read as bytes, are
 * well-formed UTF-8, and then yields their UTF-8 decoding.
 */
module Utf8 {
  import opened Wrappers

  type Byte = b: int | 0 <= b < 256

  /** A Unicode scalar value: what a Dafny `char` holds. */
  predicate IsScalar(cp: int) {
    (0 <= cp < 0xD800) || (0xE000 <= cp < 0x11_0000)
  }

  predicate IsCont(b: int) {
    0x80 <= b <= 0xBF
  }

  /**
   * Decodes the first character of `b` (RFC 3629 section 4, UTF8-1 to UTF8-4): the code point
   * and the number of bytes it took, or `None` when `b` does not start with a well-formed
   * sequence (a stray continuation byte, C0/C1, F5..FF, an overlong form, a surrogate, a value
   * beyond U+10FFFF or a truncated sequence).
   */
  function DecodeFirst(b: seq<Byte>): (r: Option<(int, nat)>)
    requires |b| > 0
    ensures r.Some? ==> 1 <= r.value.1 <= 4 && r.value.1 <= |b| && IsScalar(r.value.0)
  {
    var b0 := b[0];
    if b0 < 0x80 then Some((b0, 1))
    else if b0 < 0xC2 then None
    else if b0 < 0xE0 then
      if |b| >= 2 && IsCont(b[1]) then Some(((b0 - 0xC0) * 64 + (b[1] - 0x80), 2)) else None
    else if b0 < 0xF0 then
      var lo := if b0 == 0xE0 then 0xA0 else 0x80;
      var hi := if b0 == 0xED then 0x9F else 0xBF;
      if |b| >= 3 && lo <= b[1] <= hi && IsCont(b[2]) then
        Some(((b0 - 0xE0) * 4096 + (b[1] - 0x80) * 64 + (b[2] - 0x80), 3))
      else None
    else if b0 < 0xF5 then
      var lo := if b0 == 0xF0 then 0x90 else 0x80;
      var hi := if b0 == 0xF4 then 0x8F else 0xBF;
      if |b| >= 4 && lo <= b[1] <= hi && IsCont(b[2]) && IsCont(b[3]) then
        Some(((b0 - 0xF0) * 262144 + (b[1] - 0x80) * 4096 + (b[2] - 0x80) * 64 + (b[3] - 0x80), 4))
      else None
    else None
  }

  /** The UTF-8 decoding of a whole byte sequence, `None` if it is ill-formed anywhere. */
  function Decode(b: seq<Byte>): Option<string>
    decreases |b|
  {
    if b == [] then Some([])
    else match DecodeFirst(b)
      case None => None
      case Some((cp, n)) =>
        match Decode(b[n..])
        case None => None
        case Some(rest) => Some([cp as char] + rest)
  }

  /** One step of `Decode`: the first character followed by the decoding of the rest. */
  lemma DecodeStep(b: seq<Byte>, cp: int, n: nat, rest: string)
    requires |b| > 0 && DecodeFirst(b) == Some((cp, n)) && Decode(b[n..]) == Some(rest)
    ensures Decode(b) == Some([cp as char] + rest)
  {
  }

  /** The UTF-8 encoding of one character (RFC 3629 section 3). */
  function EncodeChar(c: char): (r: seq<Byte>)
    ensures 1 <= |r| <= 4
  {
    var cp := c as int;
    if cp < 0x80 then [cp]
    else if cp < 0x800 then [0xC0 + cp / 64, 0x80 + cp % 64]
    else if cp < 0x1_0000 then [0xE0 + cp / 4096, 0x80 + (cp / 64) % 64, 0x80 + cp % 64]
    else [0xF0 + cp / 262144, 0x80 + (cp / 4096) % 64, 0x80 + (cp / 64) % 64, 0x80 + cp % 64]
  }

  function Encode(s: string): seq<Byte> {
    if s == [] then [] else EncodeChar(s[0]) + Encode(s[1..])
  }

  /** Euclidean division by 64, read off a decomposition `x == q * 64 + r`. */
  lemma DivMod64(x: int, q: int, r: int)
    requires 0 <= r < 64 && x == q * 64 + r
    ensures x / 64 == q && x % 64 == r
  {
  }

  lemma DivMod4096(x: int, q: int, r: int)
    requires 0 <= r < 4096 && x == q * 4096 + r
    ensures x / 4096 == q && x % 4096 == r
  {
  }

  lemma DivMod262144(x: int, q: int, r: int)
    requires 0 <= r < 262144 && x == q * 262144 + r
    ensures x / 262144 == q
  {
  }

  lemma Split64(cp: int)
    requires cp >= 0
    ensures cp == (cp / 64) * 64 + cp % 64 && 0 <= cp % 64 < 64
  {
  }

  lemma Encode2(cp: int, rest: seq<Byte>)
    requires 0x80 <= cp < 0x800
    ensures var b: seq<Byte> := [0xC0 + cp / 64, 0x80 + cp % 64] + rest;
      DecodeFirst(b) == Some((cp, 2))
  {
    Split64(cp);
  }

  lemma Encode3(cp: int, rest: seq<Byte>)
    requires 0x800 <= cp < 0x1_0000 && IsScalar(cp)
    ensures var b: seq<Byte> := [0xE0 + cp / 4096, 0x80 + (cp / 64) % 64, 0x80 + cp % 64] + rest;
      DecodeFirst(b) == Some((cp, 3))
  {
    var q1, r1 := cp / 64, cp % 64;
    Split64(cp);
    Split64(q1);
    var q2, r2 := q1 / 64, q1 % 64;
    DivMod4096(cp, q2, r2 * 64 + r1);
  }

  lemma Encode4(cp: int, rest: seq<Byte>)
    requires 0x1_0000 <= cp < 0x11_0000
    ensures var b: seq<Byte> := [0xF0 + cp / 262144, 0x80 + (cp / 4096) % 64, 0x80 + (cp / 64) % 64, 0x80 + cp % 64] + rest;
      DecodeFirst(b) == Some((cp, 4))
  {
    var q1, r1 := cp / 64, cp % 64;
    Split64(cp);
    Split64(q1);
    var q2, r2 := q1 / 64, q1 % 64;
    Split64(q2);
    var q3, r3 := q2 / 64, q2 % 64;
    DivMod4096(cp, q2, r2 * 64 + r1);
    DivMod262144(cp, q3, r3 * 4096 + r2 * 64 + r1);
  }

  lemma DecodeFirstEncodeChar(c: char, rest: seq<Byte>)
    ensures DecodeFirst(EncodeChar(c) + rest) == Some((c as int, |EncodeChar(c)|))
  {
    var cp := c as int;
    if cp < 0x80 {
    } else if cp < 0x800 {
      Encode2(cp, rest);
    } else if cp < 0x1_0000 {
      Encode3(cp, rest);
    } else {
      Encode4(cp, rest);
    }
  }

  /** Decoding undoes encoding. */
  lemma {:induction false} DecodeEncode(s: string)
    ensures Decode(Encode(s)) == Some(s)
  {
    if s != [] {
      var e := EncodeChar(s[0]);
      var b := e + Encode(s[1..]);
      assert Encode(s) == b;
      DecodeFirstEncodeChar(s[0], Encode(s[1..]));
      assert b[|e|..] == Encode(s[1..]);
      DecodeEncode(s[1..]);
      assert s == [s[0] as int as char] + s[1..];
    }
  }

  lemma Decode2(b: seq<Byte>)
    requires |b| >= 2 && 0xC2 <= b[0] < 0xE0 && IsCont(b[1])
    ensures var cp := (b[0] as int - 0xC0) * 64 + (b[1] as int - 0x80);
      0x80 <= cp < 0x800 && cp / 64 == b[0] as int - 0xC0 && cp % 64 == b[1] as int - 0x80
  {
    var cp := (b[0] as int - 0xC0) * 64 + (b[1] as int - 0x80);
    DivMod64(cp, b[0] as int - 0xC0, b[1] as int - 0x80);
  }

  lemma Decode3(b0: int, b1: int, b2: int)
    requires 0xE0 <= b0 < 0xF0 && IsCont(b1) && IsCont(b2)
    requires b0 == 0xE0 ==> b1 >= 0xA0
    ensures var cp := (b0 - 0xE0) * 4096 + (b1 - 0x80) * 64 + (b2 - 0x80);
      0x800 <= cp < 0x1_0000 && cp / 4096 == b0 - 0xE0 && (cp / 64) % 64 == b1 - 0x80 && cp % 64 == b2 - 0x80
  {
    var cp := (b0 - 0xE0) * 4096 + (b1 - 0x80) * 64 + (b2 - 0x80);
    DivMod4096(cp, b0 - 0xE0, (b1 - 0x80) * 64 + (b2 - 0x80));
    DivMod64(cp, (b0 - 0xE0) * 64 + (b1 - 0x80), b2 - 0x80);
    DivMod64(cp / 64, b0 - 0xE0, b1 - 0x80);
  }

  lemma Decode4(b0: int, b1: int, b2: int, b3: int)
    requires 0xF0 <= b0 < 0xF5 && IsCont(b1) && IsCont(b2) && IsCont(b3)
    requires b0 == 0xF0 ==> b1 >= 0x90
    requires b0 == 0xF4 ==> b1 <= 0x8F
    ensures var cp := (b0 - 0xF0) * 262144 + (b1 - 0x80) * 4096 + (b2 - 0x80) * 64 + (b3 - 0x80);
      0x1_0000 <= cp < 0x11_0000 && cp / 262144 == b0 - 0xF0 && (cp / 4096) % 64 == b1 - 0x80 &&
      (cp / 64) % 64 == b2 - 0x80 && cp % 64 == b3 - 0x80
  {
    var cp := (b0 - 0xF0) * 262144 + (b1 - 0x80) * 4096 + (b2 - 0x80) * 64 + (b3 - 0x80);
    DivMod262144(cp, b0 - 0xF0, (b1 - 0x80) * 4096 + (b2 - 0x80) * 64 + (b3 - 0x80));
    DivMod4096(cp, (b0 - 0xF0) * 64 + (b1 - 0x80), (b2 - 0x80) * 64 + (b3 - 0x80));
    DivMod64(cp / 4096, b0 - 0xF0, b1 - 0x80);
    DivMod64(cp, (b0 - 0xF0) * 4096 + (b1 - 0x80) * 64 + (b2 - 0x80), b3 - 0x80);
    DivMod64(cp / 64, (b0 - 0xF0) * 64 + (b1 - 0x80), b2 - 0x80);
  }

  lemma EncodeCharDecodeFirst(b: seq<Byte>)
    requires |b| > 0 && DecodeFirst(b).Some?
    ensures var (cp, n) := DecodeFirst(b).value; EncodeChar(cp as char) == b[..n]
  {
    var (cp, n) := DecodeFirst(b).value;
    if n == 2 {
      Decode2(b);
    } else if n == 3 {
      Decode3(b[0], b[1], b[2]);
    } else if n == 4 {
      Decode4(b[0], b[1], b[2], b[3]);
    }
  }

  /** Encoding undoes a successful decoding: a well-formed byte sequence is the encoding of its decoding. */
  lemma {:induction false} EncodeDecode(b: seq<Byte>)
    requires Decode(b).Some?
    ensures Encode(Decode(b).value) == b
    decreases |b|
  {
    if b != [] {
      var (cp, n) := DecodeFirst(b).value;
      EncodeCharDecodeFirst(b);
      EncodeDecode(b[n..]);
      var s := Decode(b).value;
      assert s[0] == cp as char && s[1..] == Decode(b[n..]).value;
      assert b == b[..n] + b[n..];
    }
  }

  // ---------------------------------------------------------------------------
  // decodeURIComponent(escape(s))
  // ---------------------------------------------------------------------------

  predicate AllBelow256(s: string) {
    forall i :: 0 <= i < |s| ==> s[i] as int < 256
  }

  /** The characters of `s` read as bytes (Latin-1). */
  function Latin1Bytes(s: string): (r: seq<Byte>)
    requires AllBelow256(s)
    ensures |r| == |s| && forall i :: 0 <= i < |s| ==> r[i] == s[i] as int
  {
    seq(|s|, i requires 0 <= i < |s| => s[i] as int)
  }

  /** `decodeURIComponent(escape(s))`: `None` where the JavaScript call throws `URIError`. */
  function EscapeThenDecode(s: string): Option<string> {
    if AllBelow256(s) then Decode(Latin1Bytes(s)) else None
  }

  /**
   * The known mis-encoding of the export: the UTF-8 bytes of `s`, each read as one character.
   * The repair is meant to undo exactly this.
   */
  function MisEncode(s: string): (r: string)
    ensures AllBelow256(r)
  {
    var b := Encode(s);
    seq(|b|, i requires 0 <= i < |b| => b[i] as char)
  }

  /**
   * `decodeText`: empty (falsy) text is returned as it is; otherwise the repaired text, or the
   * original text when the repair throws.
   */
  function DecodeText(s: string): string {
    if s == "" then s
    else match EscapeThenDecode(s)
      case Some(r) => r
      case None => s
  }

  lemma MisEncodeBytes(s: string)
    ensures Latin1Bytes(MisEncode(s)) == Encode(s)
  {
  }

  lemma EncodeEmpty(s: string)
    ensures Encode(s) == [] <==> s == []
  {
  }

  /** The repair undoes the mis-encoding, for every string. */
  lemma DecodeTextRepairs(s: string)
    ensures DecodeText(MisEncode(s)) == s
  {
    MisEncodeBytes(s);
    DecodeEncode(s);
    if s != [] {
      assert |EncodeChar(s[0])| >= 1;
      assert |MisEncode(s)| > 0;
    }
  }

  /**
   * The repair changes a string only when that string is the mis-encoding of the result: every
   * other input (a `%u` code unit, ill-formed UTF-8) comes back unchanged.
   */
  lemma DecodeTextChanges(s: string)
    requires DecodeText(s) != s
    ensures MisEncode(DecodeText(s)) == s
  {
    var b := Latin1Bytes(s);
    EncodeDecode(b);
    var r := DecodeText(s);
    assert Encode(r) == b;
    assert MisEncode(r) == s;
  }

  /** A character at or above U+0100 makes `escape` emit `%u`, so the text is returned unchanged. */
  lemma DecodeTextWide(s: string, i: nat)
    requires i < |s| && s[i] as int >= 256
    ensures DecodeText(s) == s
  {
  }

  lemma {:induction false} DecodeAscii(b: seq<Byte>)
    requires forall i :: 0 <= i < |b| ==> b[i] < 0x80
    ensures Decode(b).Some? && |Decode(b).value| == |b|
    ensures forall i :: 0 <= i < |b| ==> Decode(b).value[i] as int == b[i]
    decreases |b|
  {
    if b != [] {
      DecodeAscii(b[1..]);
      var r := Decode(b).value;
      assert r == [b[0] as char] + Decode(b[1..]).value;
      assert forall i :: 1 <= i < |b| ==> r[i] == Decode(b[1..]).value[i - 1];
    }
  }

  /** Plain ASCII text is left as it is. */
  lemma DecodeTextAscii(s: string)
    requires forall i :: 0 <= i < |s| ==> s[i] as int < 0x80
    ensures DecodeText(s) == s
  {
    if s != "" {
      var b := Latin1Bytes(s);
      DecodeAscii(b);
      var r := Decode(b).value;
      assert forall i :: 0 <= i < |s| ==> r[i] == s[i];
    }
  }

  /**
   * Applying the repair twice is not the same as once: text that was mis-encoded twice is
   * decoded one layer per application (U+00C3 U+0083 U+00C2 U+00A9 becomes U+00C3 U+00A9,
   * which becomes U+00E9).
   */
  lemma DecodeTextNotIdempotent()
    ensures var s := "\U{C3}\U{83}\U{C2}\U{A9}";
      DecodeText(s) == "\U{C3}\U{A9}" && DecodeText(DecodeText(s)) == "\U{E9}"
  {
    var s := "\U{C3}\U{83}\U{C2}\U{A9}";
    assert Latin1Bytes(s) == [0xC3, 0x83, 0xC2, 0xA9];
    var b1: seq<Byte> := [0xC3, 0x83, 0xC2, 0xA9];
    var b3 := b1[2..];
    assert b3 == [0xC2, 0xA9] && b3[2..] == [];
    DecodeStep(b3, 0xA9, 2, []);
    assert [0xA9 as char] + [] == ['\U{A9}'];
    DecodeStep(b1, 0xC3, 2, ['\U{A9}']);
    var t := "\U{C3}\U{A9}";
    var b2: seq<Byte> := [0xC3, 0xA9];
    assert Latin1Bytes(t) == b2;
    assert b2[2..] == [];
    DecodeStep(b2, 0xE9, 2, []);
  }
}
