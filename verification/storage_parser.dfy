/** The backend's `parse_memory`: a storage description such as
    "128GB SSD +  1TB HDD" becomes gigabyte totals in four buckets (SSD, HDD,
    Hybrid, Flash), from which the `Total_Storage` feature is summed. */
module StorageParser {
  import opened Wrappers
  import opened Text

  datatype Storage = Storage(ssd: nat, hdd: nat, hybrid: nat, flash: nat)

  const NoStorage := Storage(0, 0, 0, 0)

  /** The `Total_Storage` feature: all four buckets together. */
  function Total(st: Storage): nat {
    st.ssd + st.hdd + st.hybrid + st.flash
  }

  function Plus(a: Storage, b: Storage): Storage {
    Storage(a.ssd + b.ssd, a.hdd + b.hdd, a.hybrid + b.hybrid, a.flash + b.flash)
  }

  /** At most one of the four buckets is non-zero. */
  predicate AtMostOneBucket(st: Storage) {
    var nonZero := (if st.ssd > 0 then 1 else 0) + (if st.hdd > 0 then 1 else 0)
      + (if st.hybrid > 0 then 1 else 0) + (if st.flash > 0 then 1 else 0);
    nonZero <= 1
  }

  // ---------------------------------------------------------------------
  // The size pattern (\d+)\s*(GB|TB), case-insensitive
  // ---------------------------------------------------------------------

  datatype Unit = GB | TB

  /** `n` units in gigabytes: a terabyte counts as 1024 GB. */
  function InGigabytes(n: nat, u: Unit): nat {
    match u
    case GB => n
    case TB => 1024 * n
  }

  /** The unit `GB` or `TB`, in any letter case, at position `k`. */
  function UnitAt(s: string, k: nat): Option<Unit> {
    if k + 2 <= |s| && UpperChar(s[k + 1]) == 'B' then
      if UpperChar(s[k]) == 'G' then Some(GB)
      else if UpperChar(s[k]) == 'T' then Some(TB)
      else None
    else None
  }

  /** A match of the size pattern: where it starts, the digits of its first
      group and the unit of its second. */
  datatype SizeMatch = SizeMatch(start: nat, digits: string, unit: Unit)

  /** The pattern matches at `i` with its digits ending at `j` and its unit
      starting at `k`: any split a backtracking regex engine could choose. */
  ghost predicate SizePatternAt(s: string, i: nat, j: nat, k: nat, u: Unit) {
    && i < j <= k
    && k + 2 <= |s|
    && (forall p :: i <= p < j ==> IsDigit(s[p]))
    && (forall p :: j <= p < k ==> IsPySpace(s[p]))
    && UnitAt(s, k) == Some(u)
  }

  /** The pattern tried at position `i` only: greedy digits, greedy
      whitespace, then the unit. */
  function SizeMatchAt(s: string, i: nat): (r: Option<SizeMatch>)
    requires i <= |s|
    ensures r.Some? ==> var m := r.value;
      && m.start == i
      && i + |m.digits| <= |s|
      && m.digits == s[i..i + |m.digits|]
      && |m.digits| > 0 && AllDigits(m.digits)
      && SizePatternAt(s, i, i + |m.digits|, SpaceRunEnd(s, i + |m.digits|), m.unit)
  {
    if i < |s| && IsDigit(s[i]) then
      var j := DigitRunEnd(s, i);
      var k := SpaceRunEnd(s, j);
      match UnitAt(s, k)
      case Some(u) => Some(SizeMatch(i, s[i..j], u))
      case None => None
    else None
  }

  /** Backtracking finds nothing greedy matching misses: whenever the pattern
      matches at `i` in any way, the greedy match at `i` is that match. */
  lemma SizeMatchAtComplete(s: string, i: nat, j: nat, k: nat, u: Unit)
    requires SizePatternAt(s, i, j, k, u)
    ensures SizeMatchAt(s, i) == Some(SizeMatch(i, s[i..j], u))
  {
    assert !IsDigit(s[k]) && !IsPySpace(s[k]);
    if j < k {
      assert IsPySpace(s[j]);
    }
    DigitRunEndUnique(s, i, j);
    SpaceRunEndUnique(s, j, k);
  }

  /** `re.search`: the match at the leftmost position from `from` on. */
  function SearchSize(s: string, from: nat): (r: Option<SizeMatch>)
    requires from <= |s|
    ensures r.Some? ==> from <= r.value.start <= |s| && SizeMatchAt(s, r.value.start) == r
    ensures r.Some? ==> forall p :: from <= p < r.value.start ==> SizeMatchAt(s, p).None?
    ensures r.None? ==> forall p :: from <= p <= |s| ==> SizeMatchAt(s, p).None?
    decreases |s| - from
  {
    if SizeMatchAt(s, from).Some? then SizeMatchAt(s, from)
    else if from == |s| then None
    else SearchSize(s, from + 1)
  }

  /** The gigabytes a segment states: the leftmost size match, with a
      terabyte figure multiplied by 1024; none when nothing matches. */
  function SegmentSize(p: string): (r: Option<nat>)
    ensures r.None? <==> forall i, j, k, u :: !SizePatternAt(p, i, j, k, u)
  {
    match SearchSize(p, 0)
    case None =>
      assert forall i, j, k, u :: !SizePatternAt(p, i, j, k, u) by {
        forall i, j, k, u | SizePatternAt(p, i, j, k, u) ensures false {
          SizeMatchAtComplete(p, i, j, k, u);
        }
      }
      None
    case Some(m) =>
      assert SizePatternAt(p, m.start, m.start + |m.digits|, SpaceRunEnd(p, m.start + |m.digits|), m.unit);
      Some(InGigabytes(DigitsValue(m.digits), m.unit))
  }

  /** A number, optional whitespace and a unit in any letter case, at the
      start of a segment, state that number of GB or TB, whatever follows. */
  lemma SegmentSizeRoundTrip(n: nat, gap: string, unitText: string, u: Unit, note: string)
    requires AllSpace(gap)
    requires |unitText| == 2 && UnitAt(unitText, 0) == Some(u)
    ensures SegmentSize(NatToString(n) + gap + unitText + note) == Some(InGigabytes(n, u))
  {
    var d := NatToString(n);
    var s := d + gap + unitText + note;
    var k := |d| + |gap|;
    assert forall p :: 0 <= p < |d| ==> s[p] == d[p];
    assert forall p :: |d| <= p < k ==> s[p] == gap[p - |d|];
    assert s[k] == unitText[0] && s[k + 1] == unitText[1];
    assert SizePatternAt(s, 0, |d|, k, u);
    SizeMatchAtComplete(s, 0, |d|, k, u);
    assert s[0..|d|] == d;
  }

  // ---------------------------------------------------------------------
  // Buckets
  // ---------------------------------------------------------------------

  datatype Bucket = Ssd | Hdd | Hybrid | Flash | Dropped

  /** The bucket an upper-cased segment falls into. The rules are tried in
      order, so SSD yields to HYBRID, HYBRID yields to HDD, and FLASH/EMMC
      only count when none of the others is mentioned. */
  function Classify(u: string): (b: Bucket)
    ensures b == Ssd <==> Contains(u, "SSD") && !Contains(u, "HYBRID")
    ensures b == Hdd <==> Contains(u, "HDD") && (!Contains(u, "SSD") || Contains(u, "HYBRID"))
    ensures b == Hybrid <==> Contains(u, "HYBRID") && !Contains(u, "HDD")
    ensures b == Flash <==> (Contains(u, "FLASH") || Contains(u, "EMMC"))
                            && !Contains(u, "SSD") && !Contains(u, "HDD") && !Contains(u, "HYBRID")
    ensures b == Dropped <==> !Contains(u, "SSD") && !Contains(u, "HDD") && !Contains(u, "HYBRID")
                              && !Contains(u, "FLASH") && !Contains(u, "EMMC")
  {
    if Contains(u, "SSD") && !Contains(u, "HYBRID") then Ssd
    else if Contains(u, "HDD") then Hdd
    else if Contains(u, "HYBRID") then Hybrid
    else if Contains(u, "FLASH") || Contains(u, "EMMC") then Flash
    else Dropped
  }

  /** `n` gigabytes in bucket `b`; a dropped segment holds nothing. */
  function Deposit(b: Bucket, n: nat): (d: Storage)
    ensures AtMostOneBucket(d)
    ensures Total(d) == if b == Dropped then 0 else n
  {
    match b
    case Ssd => Storage(n, 0, 0, 0)
    case Hdd => Storage(0, n, 0, 0)
    case Hybrid => Storage(0, 0, n, 0)
    case Flash => Storage(0, 0, 0, n)
    case Dropped => NoStorage
  }

  /** What one `+`-separated segment contributes: strip it, read its size,
      classify its upper-cased text; the size goes to that one bucket. */
  function SegmentCredit(part: string): (c: Storage)
    ensures AtMostOneBucket(c)
  {
    var p := Strip(part);
    match SegmentSize(p)
    case None => NoStorage
    case Some(n) => Deposit(Classify(Upper(p)), n)
  }

  /** A segment without a size, or whose text names no known storage kind,
      adds nothing; otherwise its whole size is added. */
  lemma SegmentCreditCases(part: string)
    ensures var p := Strip(part);
      && (SegmentSize(p).None? ==> SegmentCredit(part) == NoStorage)
      && (Classify(Upper(p)) == Dropped ==> SegmentCredit(part) == NoStorage)
      && (SegmentSize(p).Some? && Classify(Upper(p)) != Dropped ==>
            Total(SegmentCredit(part)) == SegmentSize(p).value)
  {
  }

  /** The loop over the segments, in order: starting from zero, each
      segment's credit is added to the running buckets. */
  function Tally(parts: seq<string>, credit: string -> Storage): (r: Storage)
    ensures r.ssd + r.hdd + r.hybrid + r.flash == CreditedSum(parts, credit)
    decreases |parts|
  {
    if |parts| == 0 then NoStorage
    else
      var init := parts[..|parts| - 1];
      var last := parts[|parts| - 1];
      CreditedSumAppend(init, last, credit);
      assert parts == init + [last];
      Plus(Tally(init, credit), credit(last))
  }

  /** `parse_memory`: `None` (Python's `None`) gives four zeros; otherwise the
      segments between `+` signs are tallied. */
  function ParseMemory(mem: Option<string>): (r: Storage)
    ensures mem.None? ==> r == NoStorage
    ensures mem.Some? ==> Total(r) == CreditedSum(Split(mem.value, '+'), SegmentCredit)
  {
    match mem
    case None => NoStorage
    case Some(s) => Tally(Split(s, '+'), SegmentCredit)
  }

  // ---------------------------------------------------------------------
  // Properties
  // ---------------------------------------------------------------------

  /** The segments' credited sizes, added up from the first segment on. */
  function CreditedSum(parts: seq<string>, credit: string -> Storage): nat
    decreases |parts|
  {
    if |parts| == 0 then 0 else Total(credit(parts[0])) + CreditedSum(parts[1..], credit)
  }

  lemma {:induction false} CreditedSumAppend(parts: seq<string>, last: string, credit: string -> Storage)
    ensures CreditedSum(parts + [last], credit) == CreditedSum(parts, credit) + Total(credit(last))
    decreases |parts|
  {
    if |parts| > 0 {
      assert (parts + [last])[1..] == parts[1..] + [last];
      CreditedSumAppend(parts[1..], last, credit);
    }
  }

  lemma TallySingle(part: string, credit: string -> Storage)
    ensures Tally([part], credit) == credit(part)
  {
    assert [part][..0] == [];
  }

  lemma PlusAssociative(a: Storage, b: Storage, c: Storage)
    ensures Plus(Plus(a, b), c) == Plus(a, Plus(b, c))
  {
  }

  lemma {:induction false} TallyConcat(ps: seq<string>, qs: seq<string>, credit: string -> Storage)
    ensures Tally(ps + qs, credit) == Plus(Tally(ps, credit), Tally(qs, credit))
    decreases |qs|
  {
    if |qs| == 0 {
      assert ps + qs == ps;
    } else {
      var all := ps + qs;
      var init := qs[..|qs| - 1];
      var last := qs[|qs| - 1];
      ConcatInitLast(ps, qs);
      TallyLast(all, credit);
      TallyLast(qs, credit);
      TallyConcat(ps, init, credit);
      PlusAssociative(Tally(ps, credit), Tally(init, credit), credit(last));
    }
  }

  /** The tally of a non-empty run adds its last segment to the tally of
      the others. */
  lemma TallyLast(parts: seq<string>, credit: string -> Storage)
    requires |parts| > 0
    ensures Tally(parts, credit) == Plus(Tally(parts[..|parts| - 1], credit), credit(parts[|parts| - 1]))
  {
  }

  /** Dropping the last element of `ps + qs`, for non-empty `qs`, drops the
      last element of `qs`. */
  lemma ConcatInitLast(ps: seq<string>, qs: seq<string>)
    requires |qs| > 0
    ensures (ps + qs)[..|ps + qs| - 1] == ps + qs[..|qs| - 1]
    ensures (ps + qs)[|ps + qs| - 1] == qs[|qs| - 1]
  {
  }

  /** Joining two descriptions with `+` adds their buckets. */
  lemma ParseMemoryConcat(a: string, b: string)
    ensures ParseMemory(Some(a + "+" + b)) == Plus(ParseMemory(Some(a)), ParseMemory(Some(b)))
  {
    SplitConcat(a, b, '+');
    TallyConcat(Split(a, '+'), Split(b, '+'), SegmentCredit);
  }

  /** A description without `+` is one segment: its size lands in the one
      bucket its text selects. */
  lemma ParseMemorySingleSegment(s: string)
    requires '+' !in s
    ensures ParseMemory(Some(s)) == SegmentCredit(s)
    ensures AtMostOneBucket(ParseMemory(Some(s)))
  {
    SplitWithoutSeparator(s, '+');
    TallySingle(s, SegmentCredit);
  }

  /** A padded segment "<n><gap><unit><note>" puts n GB, or n * 1024 GB for a
      terabyte unit in any letter case, into the bucket its text selects. */
  lemma ParseMemoryRoundTrip(lead: string, n: nat, gap: string, unitText: string, u: Unit,
                             note: string, trail: string)
    requires AllSpace(lead) && AllSpace(gap) && AllSpace(trail)
    requires |unitText| == 2 && UnitAt(unitText, 0) == Some(u)
    requires |note| == 0 || !IsPySpace(note[|note| - 1])
    requires '+' !in gap + unitText + note
    ensures var core := NatToString(n) + gap + unitText + note;
      ParseMemory(Some(lead + core + trail)) == Deposit(Classify(Upper(core)), InGigabytes(n, u))
  {
    var core := NatToString(n) + gap + unitText + note;
    PaddedSegment(lead, n, gap, unitText, note, trail);
    SegmentSizeRoundTrip(n, gap, unitText, u, note);
    ParseMemorySingleSegment(lead + core + trail);
    SegmentCreditOf(lead + core + trail, core, InGigabytes(n, u));
  }

  /** The padding around such a segment is stripped and it holds no `+`. */
  lemma PaddedSegment(lead: string, n: nat, gap: string, unitText: string, note: string, trail: string)
    requires AllSpace(lead) && AllSpace(trail)
    requires |unitText| == 2 && !IsPySpace(unitText[1])
    requires |note| == 0 || !IsPySpace(note[|note| - 1])
    requires '+' !in gap + unitText + note
    ensures var core := NatToString(n) + gap + unitText + note;
      Strip(lead + core + trail) == core && '+' !in lead + core + trail
  {
    var d := NatToString(n);
    var core := d + gap + unitText + note;
    assert core[0] == d[0];
    assert |note| == 0 ==> core[|core| - 1] == unitText[1];
    assert |note| > 0 ==> core[|core| - 1] == note[|note| - 1];
    StripPadded(lead, core, trail);
    assert '+' !in d by {
      forall i | 0 <= i < |d| ensures d[i] != '+' {
        assert IsDigit(d[i]);
      }
    }
    assert '+' !in lead && '+' !in trail by {
      forall i | 0 <= i < |lead| ensures lead[i] != '+' {
        assert IsPySpace(lead[i]);
      }
      forall i | 0 <= i < |trail| ensures trail[i] != '+' {
        assert IsPySpace(trail[i]);
      }
    }
  }

  lemma SegmentCreditOf(part: string, p: string, n: nat)
    requires Strip(part) == p
    requires SegmentSize(p) == Some(n)
    ensures SegmentCredit(part) == Deposit(Classify(Upper(p)), n)
  {
  }
}
