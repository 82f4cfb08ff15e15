/** String helpers with the semantics of the Python built-ins the backend
    parsers call: `str.split`, `str.strip`, `str.upper`, `str.replace`, the
    `in` operator on strings, and decimal digits as `int()` and `str()` read
    and write them. Strings are sequences of Unicode code points. */
module Text {

  // ---------------------------------------------------------------------
  // Characters
  // ---------------------------------------------------------------------

  predicate IsDigit(c: char) {
    '0' <= c <= '9'
  }

  function DigitValue(c: char): (d: nat)
    requires IsDigit(c)
    ensures d < 10
  {
    c as int - '0' as int
  }

  function DigitChar(d: nat): (c: char)
    requires d < 10
    ensures IsDigit(c) && DigitValue(c) == d
  {
    (d + '0' as int) as char
  }

  /** Whitespace as Python sees it in `str.isspace`, `str.split()`,
      `str.strip()` and the regular-expression class `\s`. */
  predicate IsPySpace(c: char) {
    var n := c as int;
    || 9 <= n <= 13
    || 28 <= n <= 32
    || n == 0x85 || n == 0xA0 || n == 0x1680
    || 0x2000 <= n <= 0x200A
    || n == 0x2028 || n == 0x2029 || n == 0x202F || n == 0x205F || n == 0x3000
  }

  function UpperChar(c: char): char {
    if 'a' <= c <= 'z' then (c as int - 32) as char else c
  }

  /** `s.upper()`, restricted to the ASCII letters. */
  function Upper(s: string): (u: string)
    ensures |u| == |s|
    ensures forall i :: 0 <= i < |s| ==> u[i] == UpperChar(s[i])
  {
    seq(|s|, i requires 0 <= i < |s| => UpperChar(s[i]))
  }

  lemma UpperConcat(a: string, b: string)
    ensures Upper(a + b) == Upper(a) + Upper(b)
  {
  }

  /** Text without lower-case ASCII letters is its own upper case. */
  lemma UpperOfNoLower(s: string)
    requires forall i :: 0 <= i < |s| ==> !('a' <= s[i] <= 'z')
    ensures Upper(s) == s
  {
  }

  // ---------------------------------------------------------------------
  // Substrings
  // ---------------------------------------------------------------------

  predicate StartsWith(s: string, p: string) {
    |p| <= |s| && s[..|p|] == p
  }

  /** `t` occurs in `s` starting at position `i`. */
  predicate OccursAt(s: string, t: string, i: int) {
    0 <= i <= |s| - |t| && s[i..i + |t|] == t
  }

  /** Python's `t in s` on strings. */
  predicate Contains(s: string, t: string)
    decreases |s|
  {
    StartsWith(s, t) || (|s| > 0 && Contains(s[1..], t))
  }

  /** `Contains` finds exactly the positions where `t` occurs in `s`. */
  lemma {:induction false} ContainsIsOccurrence(s: string, t: string)
    ensures Contains(s, t) <==> exists i :: OccursAt(s, t, i)
    decreases |s|
  {
    if StartsWith(s, t) {
      assert OccursAt(s, t, 0);
    } else if |s| > 0 {
      ContainsIsOccurrence(s[1..], t);
      if Contains(s[1..], t) {
        var i :| OccursAt(s[1..], t, i);
        assert s[1..][i..i + |t|] == s[i + 1..i + 1 + |t|];
        assert OccursAt(s, t, i + 1);
      }
      if exists i :: OccursAt(s, t, i) {
        var i :| OccursAt(s, t, i);
        assert i != 0;
        assert s[1..][i - 1..i - 1 + |t|] == s[i..i + |t|];
        assert OccursAt(s[1..], t, i - 1);
      }
    }
  }

  /** Python's `s.replace(pat, rep)`: the non-overlapping occurrences of `pat`,
      found scanning from the left, are replaced by `rep`. */
  function Replace(s: string, pat: string, rep: string): (r: string)
    requires |pat| > 0
    ensures !Contains(s, pat) ==> r == s
    decreases |s|
  {
    if |s| < |pat| then s
    else if StartsWith(s, pat) then rep + Replace(s[|pat|..], pat, rep)
    else [s[0]] + Replace(s[1..], pat, rep)
  }

  /** Replacing one character `c` by another `d` rewrites exactly the
      positions holding `c`, so none is left. */
  lemma {:induction false} ReplaceChar(s: string, c: char, d: char)
    requires c != d
    ensures |Replace(s, [c], [d])| == |s|
    ensures forall i :: 0 <= i < |s| ==> Replace(s, [c], [d])[i] == (if s[i] == c then d else s[i])
    ensures c !in Replace(s, [c], [d])
    decreases |s|
  {
    if |s| >= 1 {
      ReplaceChar(s[1..], c, d);
      var r := Replace(s[1..], [c], [d]);
      assert StartsWith(s, [c]) <==> s[0] == c;
      assert Replace(s, [c], [d]) == [if s[0] == c then d else s[0]] + r;
    }
  }

  /** A string without the first character of the pattern is left alone. */
  lemma {:induction false} ReplaceAbsent(s: string, pat: string, rep: string)
    requires |pat| > 0
    requires pat[0] !in s
    ensures Replace(s, pat, rep) == s
    decreases |s|
  {
    if |s| >= |pat| {
      assert s[0] != pat[0];
      ReplaceAbsent(s[1..], pat, rep);
      assert s == [s[0]] + s[1..];
    }
  }

  /** Scanning from the left, the first occurrence of the pattern is the one
      after a prefix that cannot start it; it is replaced and the scan resumes
      behind it. */
  lemma {:induction false} ReplaceAfter(t: string, pat: string, rep: string, rest: string)
    requires |pat| > 0
    requires pat[0] !in t
    ensures Replace(t + pat + rest, pat, rep) == t + rep + Replace(rest, pat, rep)
    decreases |t|
  {
    var s := t + pat + rest;
    if |t| == 0 {
      assert s == pat + rest;
      assert s[|pat|..] == rest;
    } else {
      assert s[0] == t[0] && t[0] != pat[0];
      assert !StartsWith(s, pat);
      assert s[1..] == t[1..] + pat + rest;
      ReplaceAfter(t[1..], pat, rep, rest);
      calc {
        Replace(s, pat, rep);
        [t[0]] + Replace(t[1..] + pat + rest, pat, rep);
        [t[0]] + (t[1..] + rep + Replace(rest, pat, rep));
        { assert t == [t[0]] + t[1..]; }
        t + rep + Replace(rest, pat, rep);
      }
    }
  }

  // ---------------------------------------------------------------------
  // Splitting and joining
  // ---------------------------------------------------------------------

  /** Python's `s.split(sep)` for a one-character separator: the pieces between
      separators, empty ones included; there is always at least one piece. */
  function Split(s: string, sep: char): (parts: seq<string>)
    ensures |parts| >= 1
    ensures forall i :: 0 <= i < |parts| ==> sep !in parts[i]
    decreases |s|
  {
    if |s| == 0 then [""]
    else
      var rest := Split(s[1..], sep);
      if s[0] == sep then [""] + rest
      else [[s[0]] + rest[0]] + rest[1..]
  }

  /** Python's `sep.join(parts)`. */
  function Join(parts: seq<string>, sep: string): string
    decreases |parts|
  {
    if |parts| == 0 then ""
    else if |parts| == 1 then parts[0]
    else parts[0] + sep + Join(parts[1..], sep)
  }

  /** Joining the pieces with the separator gives back the original string. */
  lemma {:induction false} JoinSplit(s: string, sep: char)
    ensures Join(Split(s, sep), [sep]) == s
    decreases |s|
  {
    if |s| > 0 {
      var rest := Split(s[1..], sep);
      JoinSplit(s[1..], sep);
      if s[0] == sep {
        assert Split(s, sep) == [""] + rest;
        assert ([""] + rest)[1..] == rest;
        assert Join(Split(s, sep), [sep]) == "" + [sep] + Join(rest, [sep]);
      } else if |rest| == 1 {
        assert Split(s, sep) == [[s[0]] + rest[0]];
      } else {
        var parts := Split(s, sep);
        assert parts == [[s[0]] + rest[0]] + rest[1..];
        assert parts[1..] == rest[1..];
        assert Join(rest, [sep]) == rest[0] + [sep] + Join(rest[1..], [sep]);
      }
    }
  }

  /** A string without the separator is a single piece. */
  lemma {:induction false} SplitWithoutSeparator(s: string, sep: char)
    requires sep !in s
    ensures Split(s, sep) == [s]
    decreases |s|
  {
    if |s| > 0 {
      SplitWithoutSeparator(s[1..], sep);
      assert s == [s[0]] + s[1..];
    }
  }

  /** Splitting at one separator character splits each side independently. */
  lemma {:induction false} SplitConcat(a: string, b: string, sep: char)
    ensures Split(a + [sep] + b, sep) == Split(a, sep) + Split(b, sep)
    decreases |a|
  {
    if |a| == 0 {
      assert a + [sep] + b == [sep] + b;
      SplitCons(sep, b, sep);
    } else {
      SplitConcat(a[1..], b, sep);
      SplitConcatStep(a[0], a[1..], b, sep);
      assert [a[0]] + a[1..] == a;
    }
  }

  /** The inductive step of `SplitConcat`: one more character in front. */
  lemma SplitConcatStep(c: char, a: string, b: string, sep: char)
    requires Split(a + [sep] + b, sep) == Split(a, sep) + Split(b, sep)
    ensures Split([c] + a + [sep] + b, sep) == Split([c] + a, sep) + Split(b, sep)
  {
    var t := a + [sep] + b;
    assert [c] + a + [sep] + b == [c] + t;
    SplitCons(c, t, sep);
    SplitCons(c, a, sep);
    PiecesConcat(c == sep, [c], Split(a, sep), Split(b, sep));
  }

  /** Starting a new empty piece, or growing the first piece, commutes with
      appending further pieces. */
  lemma PiecesConcat(newPiece: bool, x: string, ra: seq<string>, rb: seq<string>)
    requires |ra| >= 1
    ensures var r := ra + rb;
      (if newPiece then [""] + r else [x + r[0]] + r[1..])
        == (if newPiece then [""] + ra else [x + ra[0]] + ra[1..]) + rb
  {
    if !newPiece {
      assert (ra + rb)[1..] == ra[1..] + rb;
    }
  }

  /** One character in front: a separator starts a new empty piece, any
      other character joins the first piece. */
  lemma SplitCons(c: char, s: string, sep: char)
    ensures var rest := Split(s, sep);
      Split([c] + s, sep) == if c == sep then [""] + rest else [[c] + rest[0]] + rest[1..]
  {
    assert ([c] + s)[1..] == s;
  }

  // ---------------------------------------------------------------------
  // Whitespace
  // ---------------------------------------------------------------------

  predicate NoSpace(w: string) {
    forall i :: 0 <= i < |w| ==> !IsPySpace(w[i])
  }

  predicate AllSpace(w: string) {
    forall i :: 0 <= i < |w| ==> IsPySpace(w[i])
  }

  /** The number of whitespace characters `s` starts with. */
  function LeadingSpace(s: string): (k: nat)
    ensures k <= |s|
    ensures AllSpace(s[..k])
    ensures k < |s| ==> !IsPySpace(s[k])
    decreases |s|
  {
    if |s| > 0 && IsPySpace(s[0]) then
      var k := 1 + LeadingSpace(s[1..]);
      assert s[..k] == [s[0]] + s[1..][..k - 1];
      k
    else 0
  }

  /** The number of whitespace characters `s` ends with. */
  function TrailingSpace(s: string): (k: nat)
    ensures k <= |s|
    ensures forall i :: |s| - k <= i < |s| ==> IsPySpace(s[i])
    ensures k < |s| ==> !IsPySpace(s[|s| - k - 1])
    decreases |s|
  {
    if |s| > 0 && IsPySpace(s[|s| - 1]) then 1 + TrailingSpace(s[..|s| - 1]) else 0
  }

  /** Python's `s.strip()`: `s` without its leading and trailing whitespace. */
  function Strip(s: string): (r: string)
    ensures LeadingSpace(s) + |r| <= |s|
    ensures r == s[LeadingSpace(s)..LeadingSpace(s) + |r|]
    ensures AllSpace(s[LeadingSpace(s) + |r|..])
    ensures |r| > 0 ==> !IsPySpace(r[0]) && !IsPySpace(r[|r| - 1])
  {
    var t := s[LeadingSpace(s)..];
    t[..|t| - TrailingSpace(t)]
  }

  /** A string that neither starts nor ends with whitespace is its own strip. */
  lemma StripKeepsTrimmed(s: string)
    requires |s| == 0 || (!IsPySpace(s[0]) && !IsPySpace(s[|s| - 1]))
    ensures Strip(s) == s
  {
    assert LeadingSpace(s) == 0;
    assert s[0..] == s;
  }

  lemma {:induction false} LeadingSpaceOfPadded(lead: string, rest: string)
    requires AllSpace(lead)
    requires |rest| > 0 && !IsPySpace(rest[0])
    ensures LeadingSpace(lead + rest) == |lead|
    decreases |lead|
  {
    if |lead| > 0 {
      assert (lead + rest)[1..] == lead[1..] + rest;
      LeadingSpaceOfPadded(lead[1..], rest);
    }
  }

  lemma {:induction false} TrailingSpaceOfPadded(rest: string, trail: string)
    requires AllSpace(trail)
    requires |rest| > 0 && !IsPySpace(rest[|rest| - 1])
    ensures TrailingSpace(rest + trail) == |trail|
    decreases |trail|
  {
    if |trail| > 0 {
      var t := trail[..|trail| - 1];
      assert (rest + trail)[..|rest + trail| - 1] == rest + t;
      TrailingSpaceOfPadded(rest, t);
    }
  }

  /** Stripping removes exactly the whitespace padding around a core that
      neither starts nor ends with whitespace. */
  lemma StripPadded(lead: string, core: string, trail: string)
    requires AllSpace(lead) && AllSpace(trail)
    requires |core| > 0 && !IsPySpace(core[0]) && !IsPySpace(core[|core| - 1])
    ensures Strip(lead + core + trail) == core
  {
    var s := lead + core + trail;
    assert s == lead + (core + trail);
    LeadingSpaceOfPadded(lead, core + trail);
    var t := s[|lead|..];
    assert t == core + trail;
    TrailingSpaceOfPadded(core, trail);
    assert t[..|t| - |trail|] == core;
  }

  /** The longest prefix of `s` without whitespace. */
  function TakeWord(s: string): (w: string)
    ensures |w| <= |s| && w == s[..|w|]
    ensures NoSpace(w)
    ensures |w| < |s| ==> IsPySpace(s[|w|])
    decreases |s|
  {
    if |s| == 0 || IsPySpace(s[0]) then ""
    else [s[0]] + TakeWord(s[1..])
  }

  /** Python's `s.split()` with no argument: the maximal runs of
      non-whitespace, in order; none when `s` is blank. */
  function Words(s: string): (ws: seq<string>)
    ensures forall i :: 0 <= i < |ws| ==> |ws[i]| > 0 && NoSpace(ws[i])
    ensures |ws| == 0 <==> AllSpace(s)
    decreases |s|
  {
    if |s| == 0 then []
    else if IsPySpace(s[0]) then
      var ws := Words(s[1..]);
      assert AllSpace(s[1..]) ==> AllSpace(s) by {
        if AllSpace(s[1..]) {
          forall i | 0 < i < |s| ensures IsPySpace(s[i]) {
            assert s[i] == s[1..][i - 1];
          }
        }
      }
      ws
    else
      var w := TakeWord(s);
      [w] + Words(s[|w|..])
  }

  lemma {:induction false} TakeWordOfWord(w: string, t: string)
    requires NoSpace(w)
    requires |t| == 0 || IsPySpace(t[0])
    ensures TakeWord(w + t) == w
    decreases |w|
  {
    if |w| > 0 {
      assert (w + t)[0] == w[0];
      assert (w + t)[1..] == w[1..] + t;
      assert NoSpace(w[1..]) by {
        forall i | 0 <= i < |w| - 1 ensures !IsPySpace(w[1..][i]) {
          assert w[1..][i] == w[i + 1];
        }
      }
      TakeWordOfWord(w[1..], t);
      assert w == [w[0]] + w[1..];
    } else {
      assert w + t == t;
    }
  }

  /** Splitting words joined by single spaces gives the words back. */
  lemma {:induction false} WordsOfJoin(ws: seq<string>)
    requires forall i :: 0 <= i < |ws| ==> |ws[i]| > 0 && NoSpace(ws[i])
    ensures Words(Join(ws, " ")) == ws
    decreases |ws|
  {
    if |ws| == 1 {
      var w := ws[0];
      TakeWordOfWord(w, "");
      assert w + "" == w;
      assert w[|w|..] == "";
    } else if |ws| > 1 {
      var w := ws[0];
      var rest := Join(ws[1..], " ");
      var s := w + " " + rest;
      assert s == w + (" " + rest);
      TakeWordOfWord(w, " " + rest);
      assert s[|w|..] == " " + rest;
      assert (" " + rest)[1..] == rest;
      WordsOfJoin(ws[1..]);
      assert Words(s[|w|..]) == Words(rest);
      assert Words(s) == [w] + ws[1..];
    }
  }

  /** The tokens `ws` laid out with whitespace `gaps` around and between
      them: gaps[0] + ws[0] + gaps[1] + ... + ws[n-1] + gaps[n]. */
  function Spaced(gaps: seq<string>, ws: seq<string>): string
    requires |gaps| == |ws| + 1
    decreases |ws|
  {
    if |ws| == 0 then gaps[0] else gaps[0] + ws[0] + Spaced(gaps[1..], ws[1..])
  }

  /** Every gap is whitespace, and the gaps between two tokens are not
      empty; the outer ones may be. */
  predicate ValidGaps(gaps: seq<string>) {
    && (forall k :: 0 <= k < |gaps| ==> AllSpace(gaps[k]))
    && (forall k :: 0 < k < |gaps| - 1 ==> |gaps[k]| > 0)
  }

  /** Tokens as `split()` yields them: non-empty and without whitespace. */
  predicate Tokens(ws: seq<string>) {
    forall i :: 0 <= i < |ws| ==> |ws[i]| > 0 && NoSpace(ws[i])
  }

  /** Leading whitespace does not change the words. */
  lemma {:induction false} WordsOfLead(lead: string, s: string)
    requires AllSpace(lead)
    ensures Words(lead + s) == Words(s)
    decreases |lead|
  {
    if |lead| > 0 {
      assert (lead + s)[0] == lead[0];
      assert (lead + s)[1..] == lead[1..] + s;
      WordsOfLead(lead[1..], s);
    } else {
      assert lead + s == s;
    }
  }

  /** A word followed by whitespace, or by nothing, is the first word. */
  lemma WordsOfWord(w: string, t: string)
    requires |w| > 0 && NoSpace(w)
    requires |t| == 0 || IsPySpace(t[0])
    ensures Words(w + t) == [w] + Words(t)
  {
    TakeWordOfWord(w, t);
    assert (w + t)[0] == w[0];
    assert (w + t)[|w|..] == t;
  }

  /** `split()` reads back the tokens of any whitespace layout: runs of
      whitespace of any kind and length separate them, and leading and
      trailing whitespace is ignored. */
  lemma {:induction false} WordsOfSpaced(gaps: seq<string>, ws: seq<string>)
    requires |gaps| == |ws| + 1 && ValidGaps(gaps) && Tokens(ws)
    ensures Words(Spaced(gaps, ws)) == ws
    decreases |ws|
  {
    if |ws| == 0 {
      assert AllSpace(gaps[0]);
    } else {
      ValidGapsTail(gaps);
      WordsOfSpaced(gaps[1..], ws[1..]);
      SpacedStartsWithSpace(gaps[1..], ws[1..]);
      WordsOfSpacedStep(gaps, ws);
      assert ws == [ws[0]] + ws[1..];
    }
  }

  /** The first token of a layout is its first word, and the words after it
      are those of the rest of the layout. */
  lemma WordsOfSpacedStep(gaps: seq<string>, ws: seq<string>)
    requires |ws| > 0 && |gaps| == |ws| + 1
    requires AllSpace(gaps[0]) && |ws[0]| > 0 && NoSpace(ws[0])
    requires var rest := Spaced(gaps[1..], ws[1..]); |rest| == 0 || IsPySpace(rest[0])
    ensures Words(Spaced(gaps, ws)) == [ws[0]] + Words(Spaced(gaps[1..], ws[1..]))
  {
    var rest := Spaced(gaps[1..], ws[1..]);
    WordsOfWord(ws[0], rest);
    WordsOfLead(gaps[0], ws[0] + rest);
    assert Spaced(gaps, ws) == gaps[0] + (ws[0] + rest);
  }

  /** A layout whose first gap is non-empty whenever tokens follow starts
      with whitespace, if it starts at all. */
  lemma SpacedStartsWithSpace(gaps: seq<string>, ws: seq<string>)
    requires |gaps| == |ws| + 1 && ValidGaps(gaps)
    requires |ws| > 0 ==> |gaps[0]| > 0
    ensures var t := Spaced(gaps, ws); |t| == 0 || IsPySpace(t[0])
  {
    var t := Spaced(gaps, ws);
    assert AllSpace(gaps[0]);
    if |ws| > 0 {
      assert t == gaps[0] + (ws[0] + Spaced(gaps[1..], ws[1..]));
      assert t[0] == gaps[0][0];
    }
  }

  /** Dropping the first gap keeps the rest valid. */
  lemma ValidGapsTail(gaps: seq<string>)
    requires |gaps| > 0 && ValidGaps(gaps)
    ensures ValidGaps(gaps[1..])
  {
    forall k | 0 <= k < |gaps| - 1 ensures AllSpace(gaps[1..][k]) {
      assert gaps[1..][k] == gaps[k + 1];
    }
  }

  /** The whitespace around and between the words of `s`: `s` is exactly its
      words laid out with these gaps. */
  function Gaps(s: string): (gaps: seq<string>)
    ensures |gaps| == |Words(s)| + 1
    ensures ValidGaps(gaps)
    ensures |s| > 0 && IsPySpace(s[0]) ==> |gaps[0]| > 0
    ensures Spaced(gaps, Words(s)) == s
    decreases |s|
  {
    if |s| == 0 then [""]
    else if IsPySpace(s[0]) then
      var g := Gaps(s[1..]);
      GapsOfSpace(s, g, Words(s[1..]));
      [[s[0]] + g[0]] + g[1..]
    else
      var w := TakeWord(s);
      var g := Gaps(s[|w|..]);
      GapsOfWord(s, w, g, Words(s[|w|..]));
      [""] + g
  }

  /** The gaps of text starting with whitespace: that character joins the
      first gap of the rest. */
  lemma GapsOfSpace(s: string, g: seq<string>, ws: seq<string>)
    requires |s| > 0 && IsPySpace(s[0]) && ws == Words(s[1..])
    requires |g| == |ws| + 1 && ValidGaps(g) && Spaced(g, ws) == s[1..]
    ensures Words(s) == ws
    ensures Spaced([[s[0]] + g[0]] + g[1..], ws) == s
    ensures ValidGaps([[s[0]] + g[0]] + g[1..])
  {
    assert Words(s) == ws by { WordsOfLeadSpace(s); }
    assert Spaced([[s[0]] + g[0]] + g[1..], ws) == s by { SpacedLeadSpace(s, g, ws); }
    assert ValidGaps([[s[0]] + g[0]] + g[1..]) by { SpaceGapValid(s[0], g); }
  }

  /** The layout of `s[1..]` with `s[0]` added to its first gap is `s`. */
  lemma SpacedLeadSpace(s: string, g: seq<string>, ws: seq<string>)
    requires |s| > 0 && |g| == |ws| + 1 && Spaced(g, ws) == s[1..]
    ensures Spaced([[s[0]] + g[0]] + g[1..], ws) == s
  {
    SpacedFirstGap([s[0]], g, ws);
    assert s == [s[0]] + s[1..];
  }

  /** A leading whitespace character does not change the words. */
  lemma WordsOfLeadSpace(s: string)
    requires |s| > 0 && IsPySpace(s[0])
    ensures Words(s) == Words(s[1..])
  {
  }

  /** A whitespace character added to the first gap keeps the gaps valid. */
  lemma SpaceGapValid(c: char, g: seq<string>)
    requires IsPySpace(c) && |g| > 0 && ValidGaps(g)
    ensures ValidGaps([[c] + g[0]] + g[1..])
  {
    var h := [c] + g[0];
    forall i | 0 <= i < |h| ensures IsPySpace(h[i]) {
      if i > 0 { assert h[i] == g[0][i - 1]; }
    }
    ValidGapsNewFirst(h, g);
  }

  /** The gaps of text starting with a word: an empty first gap, then the
      gaps of the text after the word. */
  lemma GapsOfWord(s: string, w: string, g: seq<string>, ws: seq<string>)
    requires |s| > 0 && !IsPySpace(s[0]) && w == TakeWord(s) && ws == Words(s[|w|..])
    requires |g| == |ws| + 1 && ValidGaps(g) && Spaced(g, ws) == s[|w|..]
    requires |s[|w|..]| > 0 && IsPySpace(s[|w|..][0]) ==> |g[0]| > 0
    ensures Words(s) == [w] + ws
    ensures Spaced([""] + g, [w] + ws) == s
    ensures ValidGaps([""] + g)
  {
    var t := s[|w|..];
    assert s == w + t;
    WordsOfWord(w, t);
    SpacedFirstWord(w, g, ws);
    WordGapValid(t, g, ws);
  }

  /** A token after an empty first gap is the start of the layout. */
  lemma SpacedFirstWord(w: string, g: seq<string>, ws: seq<string>)
    requires |g| == |ws| + 1
    ensures Spaced([""] + g, [w] + ws) == w + Spaced(g, ws)
  {
    var gs := [""] + g;
    var vs := [w] + ws;
    assert gs[0] == "" && vs[0] == w;
    assert gs[1..] == g && vs[1..] == ws;
    assert Spaced(gs, vs) == gs[0] + vs[0] + Spaced(gs[1..], vs[1..]);
    assert "" + w == w;
  }

  /** An empty first gap may be put before the gaps of the text that follows
      a word, since that text starts with whitespace if it has words. */
  lemma WordGapValid(t: string, g: seq<string>, ws: seq<string>)
    requires ws == Words(t) && |g| == |ws| + 1 && ValidGaps(g)
    requires |t| == 0 || IsPySpace(t[0])
    requires |t| > 0 && IsPySpace(t[0]) ==> |g[0]| > 0
    ensures ValidGaps([""] + g)
  {
    if |ws| > 0 { assert !AllSpace(t); assert |t| > 0; }
    ValidGapsPrepend(g);
  }

  /** Replacing the first gap by other whitespace keeps the gaps valid. */
  lemma ValidGapsNewFirst(h: string, g: seq<string>)
    requires |g| > 0 && ValidGaps(g) && AllSpace(h)
    ensures ValidGaps([h] + g[1..])
  {
    var gaps := [h] + g[1..];
    forall k | 0 < k < |gaps| ensures gaps[k] == g[k] {
    }
    forall k | 0 <= k < |gaps| ensures AllSpace(gaps[k]) {
      if k > 0 { assert AllSpace(g[k]); }
    }
    forall k | 0 < k < |gaps| - 1 ensures |gaps[k]| > 0 {
      assert |g[k]| > 0;
    }
  }

  /** An empty first gap in front of gaps whose first one is not empty
      unless it is the only one. */
  lemma ValidGapsPrepend(g: seq<string>)
    requires |g| > 0 && ValidGaps(g)
    requires |g| > 1 ==> |g[0]| > 0
    ensures ValidGaps([""] + g)
  {
    var gaps := [""] + g;
    forall k | 0 < k < |gaps| ensures gaps[k] == g[k - 1] {
    }
    forall k | 0 <= k < |gaps| ensures AllSpace(gaps[k]) {
      if k > 0 { assert AllSpace(g[k - 1]); }
    }
    forall k | 0 < k < |gaps| - 1 ensures |gaps[k]| > 0 {
      if k > 1 { assert |g[k - 1]| > 0; }
    }
  }

  /** Extra whitespace in the first gap comes first in the layout. */
  lemma SpacedFirstGap(p: string, g: seq<string>, ws: seq<string>)
    requires |g| == |ws| + 1
    ensures Spaced([p + g[0]] + g[1..], ws) == p + Spaced(g, ws)
  {
    var h := [p + g[0]] + g[1..];
    if |ws| > 0 {
      assert h[1..] == g[1..];
    }
  }

  /** `split()` gives `ws` exactly when the text is `ws` laid out with some
      whitespace gaps. */
  lemma WordsCharacterised(s: string, ws: seq<string>)
    ensures Words(s) == ws <==>
      Tokens(ws) && exists gaps :: |gaps| == |ws| + 1 && ValidGaps(gaps) && Spaced(gaps, ws) == s
  {
    if Words(s) == ws {
      var gaps := Gaps(s);
      assert Spaced(gaps, ws) == s;
    }
    if Tokens(ws) && exists gaps :: |gaps| == |ws| + 1 && ValidGaps(gaps) && Spaced(gaps, ws) == s {
      var gaps :| |gaps| == |ws| + 1 && ValidGaps(gaps) && Spaced(gaps, ws) == s;
      WordsOfSpaced(gaps, ws);
    }
  }

  // ---------------------------------------------------------------------
  // Decimal digits
  // ---------------------------------------------------------------------

  predicate AllDigits(s: string) {
    forall i :: 0 <= i < |s| ==> IsDigit(s[i])
  }

  /** The value of a run of decimal digits; leading zeros are allowed. */
  function DigitsValue(s: string): nat
    requires AllDigits(s)
    decreases |s|
  {
    if |s| == 0 then 0 else 10 * DigitsValue(s[..|s| - 1]) + DigitValue(s[|s| - 1])
  }

  /** Decimal rendering without leading zeros: Python's `str(n)` and
      JavaScript's `String(n)` on a non-negative integer. */
  function NatToString(n: nat): (s: string)
    ensures |s| > 0 && AllDigits(s)
    ensures DigitsValue(s) == n
    ensures s[0] == '0' ==> n == 0
    decreases n
  {
    if n < 10 then [DigitChar(n)]
    else
      var p := NatToString(n / 10);
      var s := p + [DigitChar(n % 10)];
      assert s[..|s| - 1] == p;
      s
  }

  /** Decimal rendering of an integer, with a leading `-` when negative. */
  function IntToString(i: int): (s: string)
    ensures |s| > 0
    ensures i >= 0 ==> AllDigits(s)
    ensures i < 0 ==> s[0] == '-' && AllDigits(s[1..]) && DigitsValue(s[1..]) == -i
  {
    if i < 0 then "-" + NatToString(-i) else NatToString(i)
  }

  /** End of the run of digits starting at `i` (a greedy `\d*`). */
  function DigitRunEnd(s: string, i: nat): (j: nat)
    requires i <= |s|
    ensures i <= j <= |s|
    ensures forall k :: i <= k < j ==> IsDigit(s[k])
    ensures j < |s| ==> !IsDigit(s[j])
    decreases |s| - i
  {
    if i < |s| && IsDigit(s[i]) then DigitRunEnd(s, i + 1) else i
  }

  /** End of the run of whitespace starting at `i` (a greedy `\s*`). */
  function SpaceRunEnd(s: string, i: nat): (j: nat)
    requires i <= |s|
    ensures i <= j <= |s|
    ensures forall k :: i <= k < j ==> IsPySpace(s[k])
    ensures j < |s| ==> !IsPySpace(s[j])
    decreases |s| - i
  {
    if i < |s| && IsPySpace(s[i]) then SpaceRunEnd(s, i + 1) else i
  }

  /** Every run-end inside a run of digits is the run's own end. */
  lemma DigitRunEndUnique(s: string, i: nat, j: nat)
    requires i <= j <= |s|
    requires forall k :: i <= k < j ==> IsDigit(s[k])
    requires j < |s| ==> !IsDigit(s[j])
    ensures DigitRunEnd(s, i) == j
    decreases j - i
  {
    if i < j {
      DigitRunEndUnique(s, i + 1, j);
    }
  }

  /** Every run-end inside a run of whitespace is the run's own end. */
  lemma SpaceRunEndUnique(s: string, i: nat, j: nat)
    requires i <= j <= |s|
    requires forall k :: i <= k < j ==> IsPySpace(s[k])
    requires j < |s| ==> !IsPySpace(s[j])
    ensures SpaceRunEnd(s, i) == j
    decreases j - i
  {
    if i < j {
      SpaceRunEndUnique(s, i + 1, j);
    }
  }
}
