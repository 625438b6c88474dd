/**
 * The upload progress bar: the value it draws is the `progress` prop when `showPercentage` is
 * set, otherwise the first `(current/total)` in the label as a percentage, otherwise none (an
 * indeterminate bar). A number is a real, `+Infinity` or `NaN`, as JavaScript's division by
 * zero gives.
 */
module ProgressBar {
  import opened Wrappers
  import opened Text

  /** A JavaScript number as the bar sees it. */
  datatype Number = Finite(value: real) | Infinity | NaN

  /** The regular expression `\((\d+)\/(\d+)\)` matched at position `i` of `s`, with its two groups. */
  function MatchAt(s: string, i: nat): (r: Option<(string, string)>)
    ensures r.Some? ==> i < |s| && s[i] == '('
    ensures r.Some? ==> r.value.0 != "" && AllDigits(r.value.0) && r.value.1 != "" && AllDigits(r.value.1)
  {
    if i >= |s| || s[i] != '(' then None
    else
      var current := LeadingDigits(s[i + 1..]);
      var j := i + 1 + |current|;
      if current == "" || j >= |s| || s[j] != '/' then None
      else
        var total := LeadingDigits(s[j + 1..]);
        var k := j + 1 + |total|;
        if total == "" || k >= |s| || s[k] != ')' then None
        else Some((current, total))
  }

  /** `(`, `c`, `/`, `t`, `)` side by side from `i` on are the text `(c/t)` at `i`. */
  lemma Framed(s: string, i: nat, j: nat, k: nat, c: string, t: string)
    requires i < j < k < |s| && s[i] == '(' && s[j] == '/' && s[k] == ')'
    requires s[i + 1..j] == c && s[j + 1..k] == t
    ensures OccursAt(s, "(" + c + "/" + t + ")", i)
  {
    assert s[i..k + 1] == [s[i]] + s[i + 1..j] + [s[j]] + s[j + 1..k] + [s[k]];
  }

  /** A match at `i` is the text `(c/t)` standing at `i`. */
  lemma MatchAtOccurs(s: string, i: nat)
    requires MatchAt(s, i).Some?
    ensures OccursAt(s, "(" + MatchAt(s, i).value.0 + "/" + MatchAt(s, i).value.1 + ")", i)
  {
    var current := LeadingDigits(s[i + 1..]);
    var j := i + 1 + |current|;
    var total := LeadingDigits(s[j + 1..]);
    var k := j + 1 + |total|;
    assert MatchAt(s, i) == Some((current, total));
    assert s[i + 1..j] == s[i + 1..][..|current|];
    assert s[j + 1..k] == s[j + 1..][..|total|];
    Framed(s, i, j, k, current, total);
  }

  /** The leftmost match at or after position `k`. */
  function FirstMatchFrom(s: string, k: nat): (r: Option<(nat, (string, string))>)
    ensures r.Some? ==> k <= r.value.0 && MatchAt(s, r.value.0) == Some(r.value.1)
    ensures forall i :: k <= i && (r.Some? ==> i < r.value.0) ==> MatchAt(s, i).None?
    decreases |s| - k
  {
    if k >= |s| then None
    else if MatchAt(s, k).Some? then Some((k, MatchAt(s, k).value))
    else FirstMatchFrom(s, k + 1)
  }

  /** `label.match(/\((\d+)\/(\d+)\)/)`: the first match in the label and its groups. */
  function FirstMatch(s: string): (r: Option<(nat, (string, string))>)
    ensures r.Some? ==> MatchAt(s, r.value.0) == Some(r.value.1)
    ensures forall i: nat :: (r.Some? ==> i < r.value.0) ==> MatchAt(s, i).None?
  {
    FirstMatchFrom(s, 0)
  }

  /** `(current / total) * 100`, with JavaScript's results for a zero total. */
  function Percent(current: nat, total: nat): (r: Number)
    ensures total > 0 ==> r.Finite? && r.value * total as real == 100.0 * current as real
    ensures total == 0 && current > 0 ==> r == Infinity
    ensures total == 0 && current == 0 ==> r == NaN
  {
    if total == 0 then (if current == 0 then NaN else Infinity)
    else Finite(current as real / total as real * 100.0)
  }

  /** `getProgress()`; `None` is `null`. */
  function GetProgress(progress: real, labelText: Option<string>, showPercentage: bool): (r: Option<Number>)
  {
    if showPercentage then Some(Finite(progress))
    else if labelText.None? then None
    else
      match FirstMatch(labelText.value)
      case None => None
      case Some((_, (current, total))) => Some(Percent(DigitsValue(current), DigitsValue(total)))
  }

  /** `Math.max(0, Math.min(100, value))`: the width of the filled part, in percent. */
  function Width(v: Number): (r: Number)
    ensures v.Finite? ==> r.Finite? && 0.0 <= r.value <= 100.0
    ensures v.Finite? && 0.0 <= v.value <= 100.0 ==> r == v
    ensures v.Infinity? ==> r == Finite(100.0)
    ensures v.NaN? ==> r.NaN?
  {
    match v
    case Finite(x) => Finite(if x < 0.0 then 0.0 else if x > 100.0 then 100.0 else x)
    case Infinity => Finite(100.0)
    case NaN => NaN
  }

  /** `Math.round(value)`: the percentage text, not clamped. */
  function RoundText(v: Number): (r: Option<int>)
    ensures v.Finite? ==> r.Some? && r.value as real <= v.value + 0.5 < r.value as real + 1.0
    ensures !v.Finite? ==> r.None?
  {
    match v
    case Finite(x) => Some((x + 0.5).Floor)
    case _ => None
  }

  /** What the bar draws: a filled part and a percentage text, or the indeterminate animation. */
  datatype View = Determinate(width: Number, text: Option<int>) | Indeterminate

  function ViewOf(progress: real, labelText: Option<string>, showPercentage: bool): (r: View)
    ensures r.Indeterminate? <==> GetProgress(progress, labelText, showPercentage).None?
  {
    match GetProgress(progress, labelText, showPercentage)
    case None => Indeterminate
    case Some(v) => Determinate(Width(v), RoundText(v))
  }

  /** With `showPercentage` the prop is passed through unchanged, whatever the label says. */
  lemma ShowPercentagePassesThrough(progress: real, labelText: Option<string>)
    ensures GetProgress(progress, labelText, true) == Some(Finite(progress))
  {
  }

  /**
   * Without `showPercentage`, the value comes from the leftmost `(c/t)` of the label and from
   * nothing else: none without a label or without a match.
   */
  lemma LabelProgress(labelText: Option<string>, progress: real)
    ensures labelText.None? ==> GetProgress(progress, labelText, false).None?
    ensures labelText.Some? && FirstMatch(labelText.value).None? ==> GetProgress(progress, labelText, false).None?
    ensures labelText.Some? && FirstMatch(labelText.value).Some? ==>
      var m := FirstMatch(labelText.value).value;
      && OccursAt(labelText.value, "(" + m.1.0 + "/" + m.1.1 + ")", m.0)
      && (forall i :: 0 <= i < m.0 ==> MatchAt(labelText.value, i).None?)
      && GetProgress(progress, labelText, false) == Some(Percent(DigitsValue(m.1.0), DigitsValue(m.1.1)))
  {
    if labelText.Some? && FirstMatch(labelText.value).Some? {
      MatchAtOccurs(labelText.value, FirstMatch(labelText.value).value.0);
    }
  }

  /** Digits followed by a non-digit are read up to that character. */
  lemma {:induction false} LeadingDigitsStop(ds: string, rest: string)
    requires AllDigits(ds) && rest != [] && !IsDigit(rest[0])
    ensures LeadingDigits(ds + rest) == ds
  {
    if ds != [] {
      assert (ds + rest)[1..] == ds[1..] + rest;
      LeadingDigitsStop(ds[1..], rest);
    } else {
      assert (ds + rest)[0] == rest[0];
    }
  }

  /** Positions where no match starts are skipped by the leftmost-match search. */
  lemma {:induction false} FirstMatchSkip(s: string, k: nat, j: nat)
    requires k <= j && forall i :: k <= i < j ==> MatchAt(s, i).None?
    ensures FirstMatchFrom(s, k) == FirstMatchFrom(s, j)
    decreases j - k
  {
    if k < j {
      assert MatchAt(s, k).None?;
      assert FirstMatchFrom(s, k) == FirstMatchFrom(s, k + 1);
      FirstMatchSkip(s, k + 1, j);
    }
  }

  /** The match at `i` read off its parts: `(` at `i`, the digits `c`, `/` at `j`, the digits `t`, `)` at `k`. */
  lemma MatchAtParts(s: string, i: nat, j: nat, k: nat, c: string, t: string)
    requires c != "" && t != "" && j == i + 1 + |c| && k == j + 1 + |t| && k < |s|
    requires s[i] == '(' && LeadingDigits(s[i + 1..]) == c && s[j] == '/'
    requires LeadingDigits(s[j + 1..]) == t && s[k] == ')'
    ensures MatchAt(s, i) == Some((c, t))
  {
    var current := LeadingDigits(s[i + 1..]);
    assert current == c && i + 1 + |current| == j;
    var total := LeadingDigits(s[j + 1..]);
    assert total == t && j + 1 + |total| == k;
  }

  /** `(c/t)` is matched where it stands, with its two groups. */
  lemma MatchHere(prefix: string, c: string, t: string, rest: string)
    requires c != "" && AllDigits(c) && t != "" && AllDigits(t)
    ensures MatchAt(prefix + "(" + c + "/" + t + ")" + rest, |prefix|) == Some((c, t))
  {
    var s := prefix + "(" + c + "/" + t + ")" + rest;
    var i := |prefix|;
    var j := i + 1 + |c|;
    var k := j + 1 + |t|;
    assert s[i] == '(';
    assert s[i + 1..] == c + ("/" + t + ")" + rest);
    LeadingDigitsStop(c, "/" + t + ")" + rest);
    assert s[j] == '/';
    assert s[j + 1..] == t + (")" + rest);
    LeadingDigitsStop(t, ")" + rest);
    assert s[k] == ')';
    MatchAtParts(s, i, j, k, c, t);
  }

  /** In `prefix + "(c/t)" + rest` with no `(` in `prefix`, the match is that `(c/t)`. */
  lemma FirstMatchAfter(prefix: string, c: string, t: string, rest: string)
    requires '(' !in prefix
    requires c != "" && AllDigits(c) && t != "" && AllDigits(t)
    ensures FirstMatch(prefix + "(" + c + "/" + t + ")" + rest) == Some((|prefix|, (c, t)))
  {
    var s := prefix + "(" + c + "/" + t + ")" + rest;
    MatchHere(prefix, c, t, rest);
    forall k | 0 <= k < |prefix| ensures MatchAt(s, k).None? {
      assert s[k] == prefix[k];
    }
    FirstMatchSkip(s, 0, |prefix|);
    assert FirstMatchFrom(s, |prefix|) == Some((|prefix|, (c, t)));
  }

  /**
   * A count above its total fills the track to 100% while the text still reads the
   * percentage above 100.
   */
  lemma OverfullLabel(prefix: string, c: string, t: string, rest: string, progress: real)
    requires '(' !in prefix
    requires c != "" && AllDigits(c) && t != "" && AllDigits(t)
    requires DigitsValue(c) > DigitsValue(t) > 0
    ensures var v := ViewOf(progress, Some(prefix + "(" + c + "/" + t + ")" + rest), false);
      && v.Determinate? && v.width == Finite(100.0)
      && v.text.Some? && v.text.value >= 100
  {
    FirstMatchAfter(prefix, c, t, rest);
    RatioAbove(DigitsValue(c), DigitsValue(t));
  }

  lemma RatioAbove(c: nat, t: nat)
    requires c > t > 0
    ensures Percent(c, t).value > 100.0
  {
    var x := Percent(c, t).value;
    var tr := t as real;
    assert x * tr == 100.0 * c as real;
    Distribute(x, 100.0, tr);
    assert 100.0 * tr < 100.0 * c as real;
    PositiveFactor(x - 100.0, tr);
  }

  lemma Distribute(a: real, b: real, c: real)
    ensures (a - b) * c == a * c - b * c
  {
  }

  lemma PositiveFactor(a: real, b: real)
    requires b > 0.0 && a * b > 0.0
    ensures a > 0.0
  {
  }

  /** A label with a progress count: half way through. */
  lemma HalfWay(prefix: string, rest: string)
    requires '(' !in prefix
    ensures GetProgress(0.0, Some(prefix + "(50/100)" + rest), false) == Some(Finite(50.0))
  {
    assert prefix + "(50/100)" + rest == prefix + "(" + "50" + "/" + "100" + ")" + rest;
    FirstMatchAfter(prefix, "50", "100", rest);
    HalfWayDigits();
  }

  lemma HalfWayDigits()
    ensures AllDigits("50") && AllDigits("100") && DigitsValue("50") == 50 && DigitsValue("100") == 100
  {
    assert "50"[..1] == "5" && "100"[..2] == "10" && "10"[..1] == "1";
  }
}
