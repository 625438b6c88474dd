/**
 * The JavaScript string operations the code relies on, over `string` = `seq<char>`:
 * `includes`, `startsWith`, `endsWith`, `indexOf`, `split(sep)[0]`, `split('/').pop()`,
 * `substring(0, lastIndexOf('/') + 1)`, `replace(t, '')`, `toLowerCase` (ASCII letters) and
 * `parseInt` (decimal).
 */
module Text {
  import opened Wrappers

  predicate StartsWith(s: string, prefix: string) {
    |prefix| <= |s| && s[..|prefix|] == prefix
  }

  predicate EndsWith(s: string, suffix: string) {
    |suffix| <= |s| && s[|s| - |suffix|..] == suffix
  }

  /** `t` occurs in `s` starting at index `i`. */
  predicate OccursAt(s: string, t: string, i: int) {
    0 <= i && i + |t| <= |s| && s[i..i + |t|] == t
  }

  function IndexFrom(s: string, t: string, k: nat): (r: Option<nat>)
    requires k <= |s|
    ensures r.Some? ==> k <= r.value && OccursAt(s, t, r.value)
    ensures forall j :: k <= j && (r.Some? ==> j < r.value) ==> !OccursAt(s, t, j)
    decreases |s| - k
  {
    if k + |t| > |s| then None
    else if s[k..k + |t|] == t then Some(k)
    else IndexFrom(s, t, k + 1)
  }

  /** `s.indexOf(t)`: the first position at which `t` occurs, if any. */
  function IndexOf(s: string, t: string): (r: Option<nat>)
    ensures r.Some? ==> OccursAt(s, t, r.value)
    ensures forall j :: (r.Some? ==> j < r.value) ==> !OccursAt(s, t, j)
  {
    IndexFrom(s, t, 0)
  }

  /** `s.includes(t)`. */
  predicate Contains(s: string, t: string) {
    IndexOf(s, t).Some?
  }

  lemma ContainsAt(s: string, t: string, i: int)
    requires OccursAt(s, t, i)
    ensures Contains(s, t)
  {
  }

  lemma OccursFirst(s: string, t: string, i: int)
    requires t != [] && OccursAt(s, t, i)
    ensures s[i] == t[0]
  {
    assert s[i..i + |t|][0] == t[0];
  }

  /** `t` does not occur in `s` when its first character appears nowhere early enough in `s`. */
  lemma NotContainsFirst(s: string, t: string)
    requires t != [] && forall i :: 0 <= i <= |s| - |t| ==> s[i] != t[0]
    ensures !Contains(s, t)
  {
    if Contains(s, t) {
      OccursFirst(s, t, IndexOf(s, t).value);
      assert false;
    }
  }

  /** `t` does not occur at `i` when one of its characters differs from `s` there. */
  lemma NotOccursAtChar(s: string, t: string, i: int, j: int)
    requires 0 <= i && 0 <= j < |t| && i + j < |s| && s[i + j] != t[j]
    ensures !OccursAt(s, t, i)
  {
    if i + |t| <= |s| {
      assert s[i..i + |t|][j] == s[i + j];
    }
  }

  /** `s.split(sep)[0]`: everything before the first `sep`, or all of `s`. */
  function Before(s: string, sep: string): (r: string)
    requires sep != ""
    ensures StartsWith(s, r)
    ensures !Contains(r, sep)
    ensures Contains(s, sep) ==> OccursAt(s, sep, |r|)
    ensures !Contains(s, sep) ==> r == s
  {
    match IndexOf(s, sep)
    case None => s
    case Some(i) =>
      assert forall j :: OccursAt(s[..i], sep, j) ==> OccursAt(s, sep, j) by {
        forall j | OccursAt(s[..i], sep, j) ensures OccursAt(s, sep, j) {
          assert s[..i][j..j + |sep|] == s[j..j + |sep|];
        }
      }
      s[..i]
  }

  /** A prefix of a string in which `t` does not occur does not contain `t` either. */
  lemma PrefixNotContains(s: string, n: nat, t: string)
    requires n <= |s| && !Contains(s, t)
    ensures !Contains(s[..n], t)
  {
    if Contains(s[..n], t) {
      var j := IndexOf(s[..n], t).value;
      assert s[..n][j..j + |t|] == s[j..j + |t|];
      ContainsAt(s, t, j);
    }
  }

  /** `s.substring(0, s.lastIndexOf('/') + 1)`: the directory part, up to and including the last `/`. */
  function DirPrefix(s: string): (r: string)
    ensures StartsWith(s, r)
    ensures r == "" || r[|r| - 1] == '/'
    ensures '/' !in s[|r|..]
  {
    if s == [] then ""
    else if s[|s| - 1] == '/' then s
    else
      var r := DirPrefix(s[..|s| - 1]);
      assert s[|r|..] == s[..|s| - 1][|r|..] + [s[|s| - 1]];
      r
  }

  /** `s.split('/').pop()`: the text after the last `/`. */
  function LastSegment(s: string): (r: string)
    ensures '/' !in r
    ensures DirPrefix(s) + r == s
  {
    s[|DirPrefix(s)|..]
  }

  /** `s.replace(t, '')`: the FIRST occurrence of `t` removed. */
  function RemoveFirst(s: string, t: string): (r: string)
    ensures !Contains(s, t) ==> r == s
    ensures Contains(s, t) ==> |r| == |s| - |t|
    ensures forall i :: OccursAt(s, t, i) && (forall j :: 0 <= j < i ==> !OccursAt(s, t, j)) ==>
      r == s[..i] + s[i + |t|..]
  {
    match IndexOf(s, t)
    case None => s
    case Some(i) => s[..i] + s[i + |t|..]
  }

  /**
   * When `t` is a suffix of `s` and occurs nowhere earlier, `s.replace(t, '')` is `s` with the suffix
   * cut off.
   */
  lemma RemoveFirstSuffix(s: string, t: string)
    requires EndsWith(s, t)
    requires forall j :: 0 <= j < |s| - |t| ==> !OccursAt(s, t, j)
    ensures RemoveFirst(s, t) == s[..|s| - |t|]
  {
    assert OccursAt(s, t, |s| - |t|);
  }

  // ---------------------------------------------------------------------------
  // toLowerCase
  // ---------------------------------------------------------------------------

  predicate IsUpper(c: char) {
    'A' <= c <= 'Z'
  }

  function LowerChar(c: char): char {
    if IsUpper(c) then (c as int + 32) as char else c
  }

  /**
   * `s.toLowerCase()` on the ASCII letters: the result has no upper-case letter, each upper-case
   * letter becomes the lower-case letter of the same place in the alphabet, and every other
   * character is kept.
   */
  function ToLower(s: string): (r: string)
    ensures |r| == |s|
    ensures forall i :: 0 <= i < |r| ==> !IsUpper(r[i])
    ensures forall i :: 0 <= i < |s| && IsUpper(s[i]) ==> 'a' <= r[i] <= 'z' && r[i] as int - 'a' as int == s[i] as int - 'A' as int
    ensures forall i :: 0 <= i < |s| && !IsUpper(s[i]) ==> r[i] == s[i]
  {
    seq(|s|, i requires 0 <= i < |s| => LowerChar(s[i]))
  }

  // ---------------------------------------------------------------------------
  // parseInt
  // ---------------------------------------------------------------------------

  predicate IsDigit(c: char) {
    '0' <= c <= '9'
  }

  predicate AllDigits(s: string) {
    forall i :: 0 <= i < |s| ==> IsDigit(s[i])
  }

  /** The decimal value of a string of digits. */
  function DigitsValue(s: string): nat
    requires AllDigits(s)
  {
    if s == [] then 0 else 10 * DigitsValue(s[..|s| - 1]) + (s[|s| - 1] as int - '0' as int)
  }

  /** The longest prefix of `s` made of digits. */
  function LeadingDigits(s: string): (r: string)
    ensures StartsWith(s, r) && AllDigits(r)
    ensures |r| < |s| ==> !IsDigit(s[|r|])
  {
    if s == [] || !IsDigit(s[0]) then ""
    else
      var rest := LeadingDigits(s[1..]);
      assert s[1..][..|rest|] == s[1..|rest| + 1];
      [s[0]] + rest
  }

  /** `parseInt(s)` in base 10: an optional sign and the leading digits; `None` is `NaN`. */
  function ParseInt(s: string): (r: Option<int>)
    ensures r.None? <==> LeadingDigits(if s != [] && (s[0] == '-' || s[0] == '+') then s[1..] else s) == ""
  {
    var negative := s != [] && s[0] == '-';
    var body := if s != [] && (s[0] == '-' || s[0] == '+') then s[1..] else s;
    var ds := LeadingDigits(body);
    if ds == "" then None
    else
      var v: int := DigitsValue(ds);
      Some(if negative then -v else v)
  }

  lemma ParseIntDigits(s: string)
    requires s != "" && AllDigits(s)
    ensures ParseInt(s) == Some(DigitsValue(s))
  {
    assert LeadingDigits(s) == s by {
      LeadingDigitsAll(s);
    }
  }

  /** The leading digits of a run of digits followed by a non-digit (or nothing) are that run. */
  lemma {:induction false} LeadingDigitsRun(d: string, rest: string)
    requires AllDigits(d)
    requires rest == "" || !IsDigit(rest[0])
    ensures LeadingDigits(d + rest) == d
  {
    if d != [] {
      assert (d + rest)[1..] == d[1..] + rest;
      LeadingDigitsRun(d[1..], rest);
    }
  }

  /**
   * `parseInt` of an optional sign, a run of digits and any text not starting with a digit is
   * the signed value of the run: what follows it is ignored.
   */
  lemma ParseIntRun(sign: string, d: string, rest: string)
    requires sign == "" || sign == "-" || sign == "+"
    requires d != "" && AllDigits(d)
    requires rest == "" || !IsDigit(rest[0])
    ensures ParseInt(sign + d + rest).Some?
    ensures ParseInt(sign + d + rest).value == if sign == "-" then -(DigitsValue(d) as int) else DigitsValue(d)
  {
    var s := sign + d + rest;
    LeadingDigitsRun(d, rest);
    if sign == "" {
      assert s == d + rest;
      assert s[0] == d[0] && IsDigit(s[0]);
    } else {
      assert s[0] == sign[0] && s[1..] == d + rest;
    }
  }

  /** A picture stem such as `123_456` parses to 123. */
  lemma ParseIntStem()
    ensures ParseInt("123_456") == Some(123)
  {
    ParseIntRun("", "123", "_456");
    assert "" + "123" + "_456" == "123_456";
    assert "123"[..2] == "12" && "12"[..1] == "1" && "1"[..0] == "";
    assert DigitsValue("123") == 123;
  }

  lemma {:induction false} LeadingDigitsAll(s: string)
    requires AllDigits(s)
    ensures LeadingDigits(s) == s
  {
    if s != [] {
      LeadingDigitsAll(s[1..]);
    }
  }
}
