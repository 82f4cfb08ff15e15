/** The CPU features of `extract_cpu_features`: brand and model from the
    whitespace-separated tokens, and the text of the first `GHz` token as
    the clock speed. The float conversion of that text is not modelled;
    the speed is the string handed to `float`. */
module CpuParser {
  import opened Wrappers
  import opened Text

  /** `speed` is `None` where the source yields NaN for lack of a `GHz`
      token, and `Some(t)` where it converts `t`. */
  datatype CpuFeatures = CpuFeatures(brand: string, model: string, speed: Option<string>)

  const NoCpu := CpuFeatures("", "", None)

  /** Tokens two and three joined by one space when there are at least three
      tokens, token two alone when there are exactly two, and nothing else. */
  function CpuModel(ws: seq<string>): (m: string)
    ensures |ws| <= 1 ==> m == ""
    ensures |ws| == 2 ==> m == ws[1]
    ensures |ws| >= 3 ==> m == Join(ws[1..3], " ")
  {
    if |ws| > 2 then ws[1] + " " + ws[2]
    else if |ws| > 1 then ws[1]
    else ""
  }

  predicate HasGhz(w: string) {
    Contains(w, "GHz")
  }

  /** The index of the first token containing `GHz` (case-sensitive). */
  function FirstGhz(ws: seq<string>): (i: Option<nat>)
    ensures i.Some? ==> i.value < |ws| && HasGhz(ws[i.value])
    ensures i.Some? ==> forall j :: 0 <= j < i.value ==> !HasGhz(ws[j])
    ensures i.None? <==> forall j :: 0 <= j < |ws| ==> !HasGhz(ws[j])
    decreases |ws|
  {
    if |ws| == 0 then None
    else if HasGhz(ws[0]) then Some(0)
    else
      match FirstGhz(ws[1..])
      case None =>
        assert forall j :: 1 <= j < |ws| ==> ws[j] == ws[1..][j - 1];
        None
      case Some(k) =>
        assert forall j :: 1 <= j <= k ==> ws[j] == ws[1..][j - 1];
        Some(k + 1)
  }

  /** The speed text of a token: every `GHz` removed, then every decimal
      comma turned into a point. */
  function SpeedText(w: string): (t: string)
    ensures ',' !in t
  {
    var t := Replace(Replace(w, "GHz", ""), ",", ".");
    ReplaceChar(Replace(w, "GHz", ""), ',', '.');
    t
  }

  /** `extract_cpu_features`; `None` stands for Python's `None`. */
  function ExtractCpu(cpu: Option<string>): (r: CpuFeatures)
    ensures cpu.None? ==> r == NoCpu
    ensures cpu.Some? && AllSpace(cpu.value) ==> r == NoCpu
    ensures cpu.Some? && !AllSpace(cpu.value) ==> |r.brand| > 0 && NoSpace(r.brand)
    ensures r.speed.Some? ==> ',' !in r.speed.value
  {
    match cpu
    case None => NoCpu
    case Some(s) =>
      var ws := Words(s);
      if |ws| == 0 then NoCpu
      else
        var speed := match FirstGhz(ws)
          case None => None
          case Some(i) => Some(SpeedText(ws[i]));
        CpuFeatures(ws[0], CpuModel(ws), speed)
  }

  /** For a CPU description laid out as the tokens `ws` with any whitespace
      around and between them (spaces, tabs, newlines, runs of them): the
      brand is the first token, the model the next one or two, and the speed
      comes from the first token containing `GHz`, whatever later tokens
      hold. */
  lemma ExtractCpuOfTokens(gaps: seq<string>, ws: seq<string>, i: nat)
    requires |ws| > 0 && Tokens(ws)
    requires |gaps| == |ws| + 1 && ValidGaps(gaps)
    requires i < |ws| && HasGhz(ws[i])
    requires forall j :: 0 <= j < i ==> !HasGhz(ws[j])
    ensures var r := ExtractCpu(Some(Spaced(gaps, ws)));
      && r.brand == ws[0]
      && r.model == (if |ws| >= 3 then ws[1] + " " + ws[2] else if |ws| == 2 then ws[1] else "")
      && r.speed == Some(SpeedText(ws[i]))
  {
    WordsOfSpaced(gaps, ws);
    assert FirstGhz(ws) == Some(i);
  }

  /** Without a `GHz` token, in any whitespace layout, brand and model are
      still the first tokens and there is no speed. */
  lemma ExtractCpuWithoutGhz(gaps: seq<string>, ws: seq<string>)
    requires |ws| > 0 && Tokens(ws)
    requires |gaps| == |ws| + 1 && ValidGaps(gaps)
    requires forall j :: 0 <= j < |ws| ==> !HasGhz(ws[j])
    ensures var r := ExtractCpu(Some(Spaced(gaps, ws)));
      && r.brand == ws[0]
      && r.model == (if |ws| >= 3 then ws[1] + " " + ws[2] else if |ws| == 2 then ws[1] else "")
      && r.speed == None
  {
    WordsOfSpaced(gaps, ws);
  }

  /** A token "<int>,<frac>GHz" or "<int>.<frac>GHz" gives "<int>.<frac>". */
  lemma SpeedTextOfDecimal(whole: string, sep: char, frac: string)
    requires AllDigits(whole) && AllDigits(frac)
    requires sep == ',' || sep == '.'
    ensures SpeedText(whole + [sep] + frac + "GHz") == whole + "." + frac
  {
    var t := whole + [sep] + frac;
    DigitsWithout(whole, 'G');
    DigitsWithout(frac, 'G');
    DropGhz(t);
    DecimalPoint(whole, sep, frac);
  }

  /** A token "<int>GHz" gives "<int>". */
  lemma SpeedTextOfInteger(whole: string)
    requires AllDigits(whole)
    ensures SpeedText(whole + "GHz") == whole
  {
    DigitsWithout(whole, 'G');
    DigitsWithout(whole, ',');
    DropGhz(whole);
    ReplaceAbsent(whole, ",", ".");
  }

  lemma DigitsWithout(s: string, c: char)
    requires AllDigits(s) && !IsDigit(c)
    ensures c !in s
  {
    forall k | 0 <= k < |s| ensures s[k] != c {
      assert IsDigit(s[k]);
    }
  }

  /** Removing a trailing "GHz" from text with no `G` in it. */
  lemma DropGhz(t: string)
    requires 'G' !in t
    ensures Replace(t + "GHz", "GHz", "") == t
  {
    ReplaceAfter(t, "GHz", "", "");
    assert t + "GHz" + "" == t + "GHz";
    assert t + "" + Replace("", "GHz", "") == t;
  }

  /** The separator of digits becomes a decimal point. */
  lemma DecimalPoint(whole: string, sep: char, frac: string)
    requires AllDigits(whole) && AllDigits(frac)
    requires sep == ',' || sep == '.'
    ensures Replace(whole + [sep] + frac, ",", ".") == whole + "." + frac
  {
    var t := whole + [sep] + frac;
    ReplaceChar(t, ',', '.');
    var r := Replace(t, ",", ".");
    var e := whole + "." + frac;
    assert |r| == |e|;
    forall k | 0 <= k < |t| ensures r[k] == e[k] {
      if k < |whole| {
        assert t[k] == whole[k] && e[k] == whole[k] && IsDigit(whole[k]);
      } else if k > |whole| {
        var j := k - |whole| - 1;
        assert t[k] == frac[j] && e[k] == frac[j] && IsDigit(frac[j]);
      }
    }
  }
}
