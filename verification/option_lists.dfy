/** The dropdown lists of `get_options`: every text column's distinct values
    in sorted order, and the RAM sizes cleaned from text like "8GB" into
    integers, sorted and without duplicates. The float columns (Inches,
    Weight) are not modelled. */
module OptionLists {
  import opened Wrappers
  import opened Text
  import opened Collections

  // ---------------------------------------------------------------------
  // Python's int() on a string
  // ---------------------------------------------------------------------

  /** Decimal digits with single underscores between them: the digit part
      `int()` accepts, e.g. "1_024". */
  predicate UnderscoredDigits(b: string) {
    && |b| > 0 && IsDigit(b[0])
    && (forall i :: 0 <= i < |b| ==> IsDigit(b[i]) || b[i] == '_')
    && (forall i :: 0 <= i < |b| && b[i] == '_' ==> i + 1 < |b| && IsDigit(b[i + 1]))
  }

  /** The digits of `b`, underscores dropped. */
  function DropUnderscores(b: string): (d: string)
    requires forall i :: 0 <= i < |b| ==> IsDigit(b[i]) || b[i] == '_'
    ensures AllDigits(d) && |d| <= |b|
    ensures AllDigits(b) ==> d == b
    decreases |b|
  {
    if |b| == 0 then ""
    else if b[0] == '_' then DropUnderscores(b[1..])
    else
      var d := [b[0]] + DropUnderscores(b[1..]);
      assert AllDigits(b) ==> b == [b[0]] + b[1..];
      d
  }

  /** Python's `int(s)` for a string: surrounding whitespace, an optional
      sign and underscored decimal digits; `None` where it raises
      `ValueError`. */
  function PyInt(s: string): (r: Option<int>)
    ensures AllSpace(s) ==> r.None?
    ensures r.Some? ==> var t := Strip(s);
      && |t| > 0 && IsDigit(t[|t| - 1])
      && forall i :: 0 <= i < |t| ==> IsDigit(t[i]) || t[i] == '_' || (i == 0 && (t[i] == '+' || t[i] == '-'))
    ensures var t := Strip(s); |t| > 0 && AllDigits(t) ==> r == Some(DigitsValue(t))
  {
    var t := Strip(s);
    if |t| == 0 then
      assert AllSpace(s) by {
        assert s == s[..LeadingSpace(s)] + s[LeadingSpace(s)..];
      }
      None
    else
      var negative := t[0] == '-';
      var body := if t[0] == '-' || t[0] == '+' then t[1..] else t;
      if UnderscoredDigits(body) then
        var v: int := DigitsValue(DropUnderscores(body));
        assert IsDigit(body[|body| - 1]) by {
          assert body[|body| - 1] != '_';
        }
        assert forall i :: 0 < i < |t| ==> IsDigit(t[i]) || t[i] == '_' by {
          forall i | 0 < i < |t| ensures IsDigit(t[i]) || t[i] == '_' {
            if body != t { assert t[i] == body[i - 1]; }
          }
        }
        Some(if negative then -v else v)
      else
        assert !AllDigits(t) by {
          if AllDigits(t) { assert body == t && UnderscoredDigits(t); }
        }
        None
  }

  /** Text that is no integer literal fails: a decimal point or a unit after
      the digits makes `int()` raise. */
  lemma PyIntRejectsNonIntegers()
    ensures PyInt("8.0").None?
    ensures PyInt("16 DDR4").None?
  {
    StripKeepsTrimmed("8.0");
    assert Strip("8.0")[1] == '.';
    StripKeepsTrimmed("16 DDR4");
    assert Strip("16 DDR4")[2] == ' ';
  }

  /** `int` reads back what `str` writes for every integer. */
  lemma PyIntRoundTrip(i: int)
    ensures PyInt(IntToString(i)) == Some(i)
  {
    var s := IntToString(i);
    var d := if i < 0 then s[1..] else s;
    assert |d| > 0 by {
      if i < 0 {
        assert DigitsValue(d) == -i;
      }
    }
    assert !IsPySpace(s[0]) && !IsPySpace(s[|s| - 1]) by {
      assert IsDigit(d[|d| - 1]) && s[|s| - 1] == d[|d| - 1];
    }
    StripKeepsTrimmed(s);
    assert UnderscoredDigits(d);
  }

  // ---------------------------------------------------------------------
  // clean_ram
  // ---------------------------------------------------------------------

  /** `clean_ram`: upper-case, drop every "GB", strip and convert; `None`
      where the source yields NaN. A blank cell never cleans to a number,
      so the blank-cell filter in front of `clean_ram` removes nothing a
      failed conversion would keep. */
  function CleanRam(r: string): (v: Option<int>)
    ensures AllSpace(r) ==> v.None?
  {
    var v := PyInt(Strip(Replace(Upper(r), "GB", "")));
    assert AllSpace(r) ==> v.None? by {
      if AllSpace(r) {
        assert Plain(r) by {
          forall i | 0 <= i < |r| ensures !('a' <= r[i] <= 'z') && r[i] != 'G' {
            assert IsPySpace(r[i]);
          }
        }
        UpperOfNoLower(r);
        ReplaceAbsent(r, "GB", "");
      }
    }
    v
  }

  /** "<n><gap>GB<trail>", the unit in any letter case, cleans to n. */
  lemma CleanRamRoundTrip(n: nat, gap: string, unitText: string, trail: string)
    requires AllSpace(gap) && AllSpace(trail)
    requires Upper(unitText) == "GB"
    ensures CleanRam(NatToString(n) + gap + unitText + trail) == Some(n)
  {
    var d := NatToString(n);
    UnitlessRamText(d, gap, unitText, trail);
    StripOfPaddedDigits(d, gap, trail);
    PyIntOfNat(n);
    CleanRamOfSteps(d + gap + unitText + trail, d + gap + trail, d, n);
  }

  /** `clean_ram` composed from its three steps. */
  lemma CleanRamOfSteps(r: string, unitless: string, digits: string, n: int)
    requires Replace(Upper(r), "GB", "") == unitless
    requires Strip(unitless) == digits
    requires PyInt(digits) == Some(n)
    ensures CleanRam(r) == Some(n)
  {
  }

  /** Upper-casing and dropping the unit leave the digits and the whitespace. */
  lemma UnitlessRamText(d: string, gap: string, unitText: string, trail: string)
    requires AllDigits(d) && AllSpace(gap) && AllSpace(trail)
    requires Upper(unitText) == "GB"
    ensures Replace(Upper(d + gap + unitText + trail), "GB", "") == d + gap + trail
  {
    UpperOfRamText(d, gap, unitText, trail);
    RemoveUnitOfRamText(d, gap, trail);
  }

  /** A number's digits followed by whitespace strip to the digits. */
  lemma StripOfPaddedDigits(d: string, gap: string, trail: string)
    requires |d| > 0 && AllDigits(d) && AllSpace(gap) && AllSpace(trail)
    ensures Strip(d + gap + trail) == d
  {
    var pad := gap + trail;
    assert AllSpace(pad) by {
      assert forall i :: 0 <= i < |gap| ==> pad[i] == gap[i];
      assert forall i :: |gap| <= i < |pad| ==> pad[i] == trail[i - |gap|];
    }
    assert !IsPySpace(d[0]) && !IsPySpace(d[|d| - 1]);
    assert d + gap + trail == "" + d + pad;
    StripPadded("", d, pad);
  }

  /** The decimal digits of a natural number parse back to it. */
  lemma PyIntOfNat(n: nat)
    ensures PyInt(NatToString(n)) == Some(n)
  {
    PyIntRoundTrip(n);
  }

  /** Characters of digits and whitespace are no lower-case letters and no `G`. */
  predicate Plain(s: string) {
    forall i :: 0 <= i < |s| ==> !('a' <= s[i] <= 'z') && s[i] != 'G'
  }

  lemma DigitsArePlain(d: string)
    requires AllDigits(d)
    ensures Plain(d)
  {
    forall i | 0 <= i < |d| ensures !('a' <= d[i] <= 'z') && d[i] != 'G' {
      assert IsDigit(d[i]);
    }
  }

  lemma SpaceIsPlain(w: string)
    requires AllSpace(w)
    ensures Plain(w)
  {
    forall i | 0 <= i < |w| ensures !('a' <= w[i] <= 'z') && w[i] != 'G' {
      assert IsPySpace(w[i]);
    }
  }

  lemma UpperOfRamText(d: string, gap: string, unitText: string, trail: string)
    requires AllDigits(d) && AllSpace(gap) && AllSpace(trail)
    requires Upper(unitText) == "GB"
    ensures Upper(d + gap + unitText + trail) == d + gap + "GB" + trail
  {
    DigitsArePlain(d);
    SpaceIsPlain(gap);
    SpaceIsPlain(trail);
    UpperOfNoLower(d);
    UpperOfNoLower(gap);
    UpperOfNoLower(trail);
    UpperConcat(d, gap);
    UpperConcat(d + gap, unitText);
    UpperConcat(d + gap + unitText, trail);
  }

  lemma RemoveUnitOfRamText(d: string, gap: string, trail: string)
    requires AllDigits(d) && AllSpace(gap) && AllSpace(trail)
    ensures Replace(d + gap + "GB" + trail, "GB", "") == d + gap + trail
  {
    DigitsArePlain(d);
    SpaceIsPlain(gap);
    SpaceIsPlain(trail);
    var t := d + gap;
    assert 'G' !in t by {
      forall i | 0 <= i < |t| ensures t[i] != 'G' {
        if i < |d| { assert t[i] == d[i]; } else { assert t[i] == gap[i - |d|]; }
      }
    }
    ReplaceAfter(t, "GB", "", trail);
    ReplaceAbsent(trail, "GB", "");
    assert t + "" + trail == d + gap + trail;
  }

  // ---------------------------------------------------------------------
  // The option lists
  // ---------------------------------------------------------------------

  /** One dataset row, as the text of the columns the lists are built from. */
  datatype Row = Row(
    company: string, product: string, typeName: string, screenResolution: string,
    cpu: string, ram: string, memory: string, gpu: string, opSys: string)

  datatype Options = Options(
    companies: seq<string>, products: seq<string>, typeNames: seq<string>,
    screenResolutions: seq<string>, cpus: seq<string>, ramsGb: seq<int>,
    memories: seq<string>, gpus: seq<string>, opSys: seq<string>)

  /** A sorted list of distinct values, built from exactly the values of
      one column. */
  ghost predicate ListOf(r: seq<string>, rows: seq<Row>, field: Row -> string) {
    && Increasing(r, StrLess)
    && NoDuplicates(r)
    && forall v :: v in r <==> exists i :: 0 <= i < |rows| && field(rows[i]) == v
  }

  /** `sorted(df[column].unique().tolist())`. */
  function OptionList(rows: seq<Row>, field: Row -> string): (r: seq<string>)
    ensures ListOf(r, rows, field)
  {
    var column := seq(|rows|, i requires 0 <= i < |rows| => field(rows[i]));
    StrLessIsStrictTotalOrder();
    var r := SortUnique(column, StrLess);
    IncreasingHasNoDuplicates(r, StrLess);
    assert forall v :: v in column <==> exists i :: 0 <= i < |rows| && field(rows[i]) == v by {
      forall v | v in column ensures exists i :: 0 <= i < |rows| && field(rows[i]) == v {
        var i :| 0 <= i < |column| && column[i] == v;
      }
      forall v | (exists i :: 0 <= i < |rows| && field(rows[i]) == v) ensures v in column {
        var i :| 0 <= i < |rows| && field(rows[i]) == v;
        assert column[i] == v;
      }
    }
    r
  }

  /** A RAM cell as the list sees it: blank cells are skipped, the others
      cleaned; `None` when the cell contributes no value. */
  function RamCell(c: string): (v: Option<int>)
    ensures AllSpace(c) ==> v.None?
  {
    if |Strip(c)| > 0 then CleanRam(c) else None
  }

  /** The values `clean` yields for the cells, in cell order. */
  function Cleaned(cells: seq<string>, clean: string -> Option<int>): (vs: seq<int>)
    ensures forall v :: v in vs <==> exists i :: 0 <= i < |cells| && clean(cells[i]) == Some(v)
    decreases |cells|
  {
    if |cells| == 0 then []
    else
      var n := |cells| - 1;
      var rest := Cleaned(cells[..n], clean);
      assert forall i :: 0 <= i < n ==> cells[..n][i] == cells[i];
      match clean(cells[n])
      case Some(v) => rest + [v]
      case None => rest
  }

  /** `rams_gb`: the distinct cleaned RAM sizes in increasing order. */
  function RamOptions(cells: seq<string>): (r: seq<int>)
    ensures Increasing(r, IntLess) && NoDuplicates(r)
    ensures forall v :: v in r <==> exists i :: 0 <= i < |cells| && RamCell(cells[i]) == Some(v)
  {
    IntLessIsStrictTotalOrder();
    var r := SortUnique(Cleaned(cells, RamCell), IntLess);
    IncreasingHasNoDuplicates(r, IntLess);
    r
  }

  function RamColumn(rows: seq<Row>): (c: seq<string>)
    ensures |c| == |rows| && forall i :: 0 <= i < |rows| ==> c[i] == rows[i].ram
  {
    seq(|rows|, i requires 0 <= i < |rows| => rows[i].ram)
  }

  /** The `/options` payload for a dataset. */
  function GetOptions(rows: seq<Row>): (o: Options)
    ensures ListOf(o.companies, rows, (x: Row) => x.company)
    ensures ListOf(o.products, rows, (x: Row) => x.product)
    ensures ListOf(o.typeNames, rows, (x: Row) => x.typeName)
    ensures ListOf(o.screenResolutions, rows, (x: Row) => x.screenResolution)
    ensures ListOf(o.cpus, rows, (x: Row) => x.cpu)
    ensures ListOf(o.memories, rows, (x: Row) => x.memory)
    ensures ListOf(o.gpus, rows, (x: Row) => x.gpu)
    ensures ListOf(o.opSys, rows, (x: Row) => x.opSys)
    ensures Increasing(o.ramsGb, IntLess) && NoDuplicates(o.ramsGb)
    ensures forall v :: v in o.ramsGb <==> exists i :: 0 <= i < |rows| && RamCell(rows[i].ram) == Some(v)
  {
    Options(
      OptionList(rows, (x: Row) => x.company), OptionList(rows, (x: Row) => x.product),
      OptionList(rows, (x: Row) => x.typeName), OptionList(rows, (x: Row) => x.screenResolution),
      OptionList(rows, (x: Row) => x.cpu),
      RamOptions(RamColumn(rows)),
      OptionList(rows, (x: Row) => x.memory), OptionList(rows, (x: Row) => x.gpu),
      OptionList(rows, (x: Row) => x.opSys))
  }

  /** A list is fixed by the set of values in its column: the order of the
      rows and repeated rows make no difference. */
  lemma OptionListCanonical(rows: seq<Row>, rows': seq<Row>, field: Row -> string)
    requires forall x :: x in rows <==> x in rows'
    ensures OptionList(rows, field) == OptionList(rows', field)
  {
    var a := OptionList(rows, field);
    var b := OptionList(rows', field);
    forall v ensures v in a <==> v in b {
      if v in a {
        var i :| 0 <= i < |rows| && field(rows[i]) == v;
        assert rows[i] in rows';
        var j :| 0 <= j < |rows'| && rows'[j] == rows[i];
      }
      if v in b {
        var j :| 0 <= j < |rows'| && field(rows'[j]) == v;
        assert rows'[j] in rows;
        var i :| 0 <= i < |rows| && rows[i] == rows'[j];
      }
    }
    StrLessIsStrictTotalOrder();
    IncreasingUnique(a, b, StrLess);
  }

  /** The RAM list is fixed by the set of RAM cells in the same way. */
  lemma RamOptionsCanonical(cells: seq<string>, cells': seq<string>)
    requires forall x :: x in cells <==> x in cells'
    ensures RamOptions(cells) == RamOptions(cells')
  {
    var a := RamOptions(cells);
    var b := RamOptions(cells');
    forall v ensures v in a <==> v in b {
      if v in a {
        var i :| 0 <= i < |cells| && RamCell(cells[i]) == Some(v);
        assert cells[i] in cells';
        var j :| 0 <= j < |cells'| && cells'[j] == cells[i];
      }
      if v in b {
        var j :| 0 <= j < |cells'| && RamCell(cells'[j]) == Some(v);
        assert cells'[j] in cells;
        var i :| 0 <= i < |cells| && cells[i] == cells'[j];
      }
    }
    IntLessIsStrictTotalOrder();
    IncreasingUnique(a, b, IntLess);
  }
}
