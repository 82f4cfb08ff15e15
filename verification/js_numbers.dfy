/** JavaScript's `parseFloat` and `parseInt(s, 10)` as the comparison page
    uses them: both read the longest numeric prefix after leading
    whitespace, so "12abc" is accepted and only a string with no numeric
    prefix gives NaN. */
module JsNumbers {
  import opened Wrappers
  import opened Text

  /** WhiteSpace and LineTerminator of ECMAScript: what `parseFloat` and
      `parseInt` skip before the number. */
  predicate IsJsSpace(c: char) {
    var n := c as int;
    || 9 <= n <= 13
    || n == 32 || n == 0xA0 || n == 0x1680
    || 0x2000 <= n <= 0x200A
    || n == 0x2028 || n == 0x2029 || n == 0x202F || n == 0x205F || n == 0x3000
    || n == 0xFEFF
  }

  predicate AllJsSpace(w: string) {
    forall i :: 0 <= i < |w| ==> IsJsSpace(w[i])
  }

  /** The string with its leading JavaScript whitespace removed. */
  function TrimStartJs(s: string): (t: string)
    ensures |t| <= |s| && t == s[|s| - |t|..]
    ensures forall i :: 0 <= i < |s| - |t| ==> IsJsSpace(s[i])
    ensures |t| > 0 ==> !IsJsSpace(t[0])
    decreases |s|
  {
    if |s| > 0 && IsJsSpace(s[0]) then TrimStartJs(s[1..]) else s
  }

  /** Leading whitespace in front of a string is all that trimming removes. */
  lemma {:induction false} TrimStartJsPadded(lead: string, s: string)
    requires AllJsSpace(lead)
    requires |s| == 0 || !IsJsSpace(s[0])
    ensures TrimStartJs(lead + s) == s
    decreases |lead|
  {
    if |lead| > 0 {
      assert (lead + s)[1..] == lead[1..] + s;
      TrimStartJsPadded(lead[1..], s);
    } else {
      assert lead + s == s;
    }
  }

  /** What follows an optional `+` or `-`. */
  function Unsigned(t: string): (u: string)
    ensures |u| <= |t| && u == t[|t| - |u|..]
  {
    if |t| > 0 && (t[0] == '+' || t[0] == '-') then t[1..] else t
  }

  /** `!isNaN(parseFloat(s))`: after whitespace and an optional sign comes
      `Infinity`, a digit, or a point followed by a digit. */
  predicate ParseFloatOk(s: string) {
    FloatStart(Unsigned(TrimStartJs(s)))
  }

  predicate FloatStart(u: string) {
    || StartsWith(u, "Infinity")
    || (|u| > 0 && IsDigit(u[0]))
    || (|u| > 1 && u[0] == '.' && IsDigit(u[1]))
  }

  /** `parseInt(s, 10)`: the value of the leading decimal digits after
      whitespace and an optional sign; `None` for NaN. The result is not
      rounded to a double. */
  function ParseIntValue(s: string): (r: Option<int>)
    ensures r.Some? <==> var u := Unsigned(TrimStartJs(s)); |u| > 0 && IsDigit(u[0])
  {
    ParseIntTrimmed(TrimStartJs(s))
  }

  /** `parseInt` on text whose leading whitespace is already gone. */
  function ParseIntTrimmed(t: string): (r: Option<int>)
    ensures r.Some? <==> var u := Unsigned(t); |u| > 0 && IsDigit(u[0])
  {
    ReadDigits(|t| > 0 && t[0] == '-', Unsigned(t))
  }

  /** The value of the digits `u` starts with, negated when `negative`;
      `None` when `u` does not start with a digit. */
  function ReadDigits(negative: bool, u: string): (r: Option<int>)
    ensures r.Some? <==> |u| > 0 && IsDigit(u[0])
  {
    var j := DigitRunEnd(u, 0);
    if j == 0 then None
    else
      Some(WithSign(negative, DigitsValue(u[..j])))
  }

  /** Whatever `parseInt` accepts `parseFloat` accepts too, so the RAM rule
      never fails on a string the inches and weight rules would pass with
      the same text. */
  lemma ParseIntOkIsParseFloatOk(s: string)
    ensures ParseIntValue(s).Some? ==> ParseFloatOk(s)
  {
  }

  /** `parseInt` reads back `String(n)` whatever non-digit text follows it;
      in particular "12abc" is read as 12. */
  lemma ParseIntOfPrefix(n: int, rest: string)
    requires |rest| == 0 || !IsDigit(rest[0])
    ensures ParseIntValue(IntToString(n) + rest) == Some(n)
  {
    var digits := NatToString(if n < 0 then -n else n);
    var t := Signed(n < 0, digits) + rest;
    assert IntToString(n) == Signed(n < 0, digits);
    SignedStartsTrimmed(n < 0, digits, rest);
    ParseIntOfDigits(n < 0, digits, rest);
  }

  /** A signed number has no whitespace to trim. */
  lemma SignedStartsTrimmed(negative: bool, digits: string, rest: string)
    requires |digits| > 0 && AllDigits(digits)
    ensures TrimStartJs(Signed(negative, digits) + rest) == Signed(negative, digits) + rest
  {
    var t := Signed(negative, digits) + rest;
    assert t[0] == if negative then '-' else digits[0];
    TrimStartJsPadded("", t);
    assert "" + t == t;
  }

  /** The digits with a `-` in front when `negative`. */
  function Signed(negative: bool, digits: string): (t: string)
    ensures |t| == |digits| + (if negative then 1 else 0)
  {
    if negative then "-" + digits else digits
  }

  /** `v`, negated when `negative`. */
  function WithSign(negative: bool, v: nat): (r: int)
    ensures r == v || r == -(v as int)
    ensures r < 0 ==> negative
  {
    if negative then -(v as int) else v
  }

  /** A sign, a run of digits and text that does not go on with a digit:
      `parseInt` reads the signed value of the run. */
  lemma ParseIntOfDigits(negative: bool, digits: string, rest: string)
    requires |digits| > 0 && AllDigits(digits)
    requires |rest| == 0 || !IsDigit(rest[0])
    ensures ParseIntTrimmed(Signed(negative, digits) + rest) == Some(WithSign(negative, DigitsValue(digits)))
  {
    var t := Signed(negative, digits) + rest;
    calc {
      ParseIntTrimmed(t);
      ReadDigits(|t| > 0 && t[0] == '-', Unsigned(t));
      { SignOfSigned(negative, digits, rest); }
      ReadDigits(negative, digits + rest);
      { ReadDigitsOfRun(negative, digits, rest); }
      Some(WithSign(negative, DigitsValue(digits)));
    }
  }

  /** Reading the sign off `Signed(negative, digits) + rest` gives back
      `negative` and the unsigned text. */
  lemma SignOfSigned(negative: bool, digits: string, rest: string)
    requires |digits| > 0 && AllDigits(digits)
    ensures var t := Signed(negative, digits) + rest;
      && (|t| > 0 && t[0] == '-') == negative
      && Unsigned(t) == digits + rest
  {
    var t := Signed(negative, digits) + rest;
    if negative {
      assert t[1..] == digits + rest;
    } else {
      assert t[0] == digits[0];
    }
  }

  lemma ReadDigitsOfRun(negative: bool, digits: string, rest: string)
    requires |digits| > 0 && AllDigits(digits)
    requires |rest| == 0 || !IsDigit(rest[0])
    ensures ReadDigits(negative, digits + rest) == Some(WithSign(negative, DigitsValue(digits)))
  {
    var u := digits + rest;
    assert forall k :: 0 <= k < |digits| ==> u[k] == digits[k];
    assert |digits| < |u| ==> u[|digits|] == rest[0];
    DigitRunEndUnique(u, 0, |digits|);
    assert u[..|digits|] == digits;
  }

  /** Leading whitespace changes neither function. */
  lemma NumbersIgnoreLeadingSpace(lead: string, s: string)
    requires AllJsSpace(lead)
    ensures ParseIntValue(lead + s) == ParseIntValue(s)
    ensures ParseFloatOk(lead + s) == ParseFloatOk(s)
  {
    TrimStartJsAbsorbs(lead, s);
    assert ParseIntValue(lead + s) == ParseIntTrimmed(TrimStartJs(s));
  }

  lemma {:induction false} TrimStartJsAbsorbs(lead: string, s: string)
    requires AllJsSpace(lead)
    ensures TrimStartJs(lead + s) == TrimStartJs(s)
    decreases |lead|
  {
    if |lead| > 0 {
      assert (lead + s)[1..] == lead[1..] + s;
      TrimStartJsAbsorbs(lead[1..], s);
    } else {
      assert lead + s == s;
    }
  }
}
