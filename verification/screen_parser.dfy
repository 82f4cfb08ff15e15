/** The screen features of `extract_resolution_features`: the first
    "<digits>x<digits>" in the text as the resolution, and IPS and Retina
    flags found case-insensitively. */
module ScreenParser {
  import opened Wrappers
  import opened Text

  datatype Resolution = Resolution(x: nat, y: nat)

  /** `resolution` is `None` where the source yields NaN for both axes. */
  datatype ScreenFeatures = ScreenFeatures(resolution: Option<Resolution>, isIps: nat, isRetina: nat)

  /** A match of `(\d+)x(\d+)`: where it starts and the digits of its groups. */
  datatype ResMatch = ResMatch(start: nat, xDigits: string, yDigits: string)

  /** The pattern matches at `i` with the first group `s[i..j]`, the letter
      `x` at `j` and the second group `s[j+1..k]`: any split a backtracking
      regex engine could choose. */
  ghost predicate ResPatternAt(s: string, i: nat, j: nat, k: nat) {
    && i < j && j + 1 < k <= |s|
    && (forall p :: i <= p < j ==> IsDigit(s[p]))
    && s[j] == 'x'
    && (forall p :: j + 1 <= p < k ==> IsDigit(s[p]))
  }

  /** The pattern tried at position `i` only, both groups greedy. */
  function ResMatchAt(s: string, i: nat): (r: Option<ResMatch>)
    requires i <= |s|
    ensures r.Some? ==> var m := r.value;
      && m.start == i
      && |m.xDigits| > 0 && AllDigits(m.xDigits) && |m.yDigits| > 0 && AllDigits(m.yDigits)
      && i + |m.xDigits| + 1 + |m.yDigits| <= |s|
      && s[i..i + |m.xDigits|] == m.xDigits
      && s[i + |m.xDigits|] == 'x'
      && s[i + |m.xDigits| + 1..i + |m.xDigits| + 1 + |m.yDigits|] == m.yDigits
      && ResPatternAt(s, i, i + |m.xDigits|, i + |m.xDigits| + 1 + |m.yDigits|)
  {
    if i < |s| && IsDigit(s[i]) then
      var j := DigitRunEnd(s, i);
      if j + 1 < |s| && s[j] == 'x' && IsDigit(s[j + 1]) then
        var k := DigitRunEnd(s, j + 1);
        Some(ResMatch(i, s[i..j], s[j + 1..k]))
      else None
    else None
  }

  /** Backtracking finds nothing greedy matching misses: whenever the pattern
      matches at `i` in any way, the greedy match at `i` has the same first
      group and a second group at least as long. */
  lemma ResMatchAtComplete(s: string, i: nat, j: nat, k: nat)
    requires ResPatternAt(s, i, j, k)
    ensures ResMatchAt(s, i).Some?
    ensures ResMatchAt(s, i).value.xDigits == s[i..j]
    ensures |ResMatchAt(s, i).value.yDigits| >= k - j - 1
  {
    assert !IsDigit(s[j]);
    DigitRunEndUnique(s, i, j);
  }

  /** `re.search`: the match at the leftmost position from `from` on. */
  function SearchRes(s: string, from: nat): (r: Option<ResMatch>)
    requires from <= |s|
    ensures r.Some? ==> from <= r.value.start <= |s| && ResMatchAt(s, r.value.start) == r
    ensures r.Some? ==> forall p :: from <= p < r.value.start ==> ResMatchAt(s, p).None?
    ensures r.None? ==> forall p :: from <= p <= |s| ==> ResMatchAt(s, p).None?
    decreases |s| - from
  {
    if ResMatchAt(s, from).Some? then ResMatchAt(s, from)
    else if from == |s| then None
    else SearchRes(s, from + 1)
  }

  /** 1 when the flag word occurs in the upper-cased text, 0 otherwise. */
  function Flag(s: string, word: string): (f: nat)
    ensures f <= 1
    ensures f == 1 <==> Contains(Upper(s), word)
  {
    if Contains(Upper(s), word) then 1 else 0
  }

  /** `extract_resolution_features`; `None` stands for Python's `None`. */
  function ExtractScreen(screen: Option<string>): (r: ScreenFeatures)
    ensures screen.None? ==> r == ScreenFeatures(None, 0, 0)
    ensures r.isIps <= 1 && r.isRetina <= 1
    ensures screen.Some? ==> (r.isIps == 1 <==> Contains(Upper(screen.value), "IPS"))
    ensures screen.Some? ==> (r.isRetina == 1 <==> Contains(Upper(screen.value), "RETINA"))
    ensures screen.Some? && r.resolution.Some? ==>
      exists i, j, k :: ResPatternAt(screen.value, i, j, k)
    ensures screen.Some? && r.resolution.None? ==>
      forall i, j, k :: !ResPatternAt(screen.value, i, j, k)
  {
    match screen
    case None => ScreenFeatures(None, 0, 0)
    case Some(s) =>
      var res := match SearchRes(s, 0)
        case None => None
        case Some(m) => Some(Resolution(DigitsValue(m.xDigits), DigitsValue(m.yDigits)));
      NoResolutionMeansNoPattern(s);
      ScreenFeatures(res, Flag(s, "IPS"), Flag(s, "RETINA"))
  }

  /** When the search finds nothing, the pattern occurs nowhere. */
  lemma NoResolutionMeansNoPattern(s: string)
    ensures SearchRes(s, 0).None? ==> forall i, j, k :: !ResPatternAt(s, i, j, k)
  {
    if SearchRes(s, 0).None? {
      forall i: nat, j: nat, k: nat | ResPatternAt(s, i, j, k) ensures false {
        ResMatchAtComplete(s, i, j, k);
      }
    }
  }

  /** "<x>x<y>" after text without digits, and before text that does not
      continue the second number, is read as the resolution (x, y). */
  lemma ResolutionRoundTrip(pre: string, x: nat, y: nat, post: string)
    requires forall p :: 0 <= p < |pre| ==> !IsDigit(pre[p])
    requires |post| == 0 || !IsDigit(post[0])
    ensures ExtractScreen(Some(pre + NatToString(x) + "x" + NatToString(y) + post)).resolution
      == Some(Resolution(x, y))
  {
    var dx := NatToString(x);
    var dy := NatToString(y);
    var s := pre + dx + "x" + dy + post;
    ResMatchOfNumbers(pre, dx, dy, post);
    forall p | 0 <= p < |pre| ensures ResMatchAt(s, p).None? {
      assert s[p] == pre[p];
    }
    SearchResFirst(s, 0, |pre|);
    ResolutionOfMatch(s);
  }

  /** The search from `from` returns the match at `i` when nothing matches
      between them. */
  lemma {:induction false} SearchResFirst(s: string, from: nat, i: nat)
    requires from <= i <= |s| && ResMatchAt(s, i).Some?
    requires forall p :: from <= p < i ==> ResMatchAt(s, p).None?
    ensures SearchRes(s, from) == ResMatchAt(s, i)
    decreases i - from
  {
    if from < i {
      SearchResFirst(s, from + 1, i);
    }
  }

  /** The resolution is the value of the two groups of the first match. */
  lemma ResolutionOfMatch(s: string)
    ensures var m := SearchRes(s, 0);
      m.Some? ==> (ExtractScreen(Some(s)).resolution
                   == Some(Resolution(DigitsValue(m.value.xDigits), DigitsValue(m.value.yDigits))))
  {
  }

  /** At the start of "<dx>x<dy>" the greedy match takes both digit runs. */
  lemma ResMatchOfNumbers(pre: string, dx: string, dy: string, post: string)
    requires |dx| > 0 && AllDigits(dx) && |dy| > 0 && AllDigits(dy)
    requires |post| == 0 || !IsDigit(post[0])
    ensures ResMatchAt(pre + dx + "x" + dy + post, |pre|) == Some(ResMatch(|pre|, dx, dy))
  {
    var s := pre + dx + "x" + dy + post;
    var i := |pre|;
    var j := i + |dx|;
    var k := j + 1 + |dy|;
    assert forall p :: i <= p < j ==> s[p] == dx[p - i];
    assert s[j] == 'x';
    assert forall p :: j + 1 <= p < k ==> s[p] == dy[p - j - 1];
    assert k < |s| ==> s[k] == post[0];
    DigitRunEndUnique(s, i, j);
    DigitRunEndUnique(s, j + 1, k);
    assert s[i..j] == dx && s[j + 1..k] == dy;
  }

  /** A flag once raised stays raised whatever text is added around it. */
  lemma FlagsSurviveContext(pre: string, s: string, post: string)
    ensures ExtractScreen(Some(s)).isIps == 1 ==> ExtractScreen(Some(pre + s + post)).isIps == 1
    ensures ExtractScreen(Some(s)).isRetina == 1 ==> ExtractScreen(Some(pre + s + post)).isRetina == 1
  {
    UpperConcat(pre, s);
    UpperConcat(pre + s, post);
    ContainsInContext(Upper(pre), Upper(s), Upper(post), "IPS");
    ContainsInContext(Upper(pre), Upper(s), Upper(post), "RETINA");
  }

  /** An occurrence in `s` is an occurrence in any string around `s`. */
  lemma ContainsInContext(pre: string, s: string, post: string, t: string)
    ensures Contains(s, t) ==> Contains(pre + s + post, t)
  {
    if Contains(s, t) {
      ContainsIsOccurrence(s, t);
      var i :| OccursAt(s, t, i);
      var w := pre + s + post;
      assert w[|pre| + i..|pre| + i + |t|] == s[i..i + |t|];
      assert OccursAt(w, t, |pre| + i);
      ContainsIsOccurrence(w, t);
    }
  }

  /** The flags ignore letter case: upper-casing the text first changes neither. */
  lemma FlagsIgnoreCase(s: string)
    ensures ExtractScreen(Some(Upper(s))).isIps == ExtractScreen(Some(s)).isIps
    ensures ExtractScreen(Some(Upper(s))).isRetina == ExtractScreen(Some(s)).isRetina
  {
    UpperIdempotent(s);
  }

  lemma UpperIdempotent(s: string)
    ensures Upper(Upper(s)) == Upper(s)
  {
  }
}
