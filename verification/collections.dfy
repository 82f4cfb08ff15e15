/** Sequence utilities the option lists are built with: Python's
    `sorted(set(...))` over a strict total order, and JavaScript's
    `Array.from(new Set(xs))`, which keeps first occurrences in order. */
module Collections {

  /** `lt` is a strict total order on `T`. */
  ghost predicate StrictTotalOrder<T(!new)>(lt: (T, T) -> bool) {
    && (forall x :: !lt(x, x))
    && (forall x, y, z :: lt(x, y) && lt(y, z) ==> lt(x, z))
    && (forall x, y :: x != y ==> lt(x, y) || lt(y, x))
  }

  /** Every element of `xs` is `lt`-below every later one. */
  ghost predicate Increasing<T>(xs: seq<T>, lt: (T, T) -> bool) {
    forall i, j :: 0 <= i < j < |xs| ==> lt(xs[i], xs[j])
  }

  ghost predicate NoDuplicates<T>(xs: seq<T>) {
    forall i, j :: 0 <= i < j < |xs| ==> xs[i] != xs[j]
  }

  /** A strictly increasing sequence has no duplicates. */
  lemma IncreasingHasNoDuplicates<T(!new)>(xs: seq<T>, lt: (T, T) -> bool)
    requires StrictTotalOrder(lt)
    requires Increasing(xs, lt)
    ensures NoDuplicates(xs)
  {
  }

  /** Inserts `x` into a strictly increasing sequence, unless it is already there. */
  function Insert<T(==,!new)>(x: T, xs: seq<T>, lt: (T, T) -> bool): (r: seq<T>)
    requires StrictTotalOrder(lt)
    requires Increasing(xs, lt)
    ensures Increasing(r, lt)
    ensures forall y :: y in r <==> y == x || y in xs
    decreases |xs|
  {
    if |xs| == 0 then [x]
    else if x == xs[0] then xs
    else if lt(x, xs[0]) then [x] + xs
    else
      var rest := Insert(x, xs[1..], lt);
      assert forall k :: 0 <= k < |rest| ==> lt(xs[0], rest[k]) by {
        forall k | 0 <= k < |rest| ensures lt(xs[0], rest[k]) {
          assert rest[k] in rest;
        }
      }
      [xs[0]] + rest
  }

  /** Python's `sorted(set(xs))`: the distinct elements of `xs` in increasing order. */
  function SortUnique<T(==,!new)>(xs: seq<T>, lt: (T, T) -> bool): (r: seq<T>)
    requires StrictTotalOrder(lt)
    ensures Increasing(r, lt)
    ensures forall y :: y in r <==> y in xs
    decreases |xs|
  {
    if |xs| == 0 then []
    else
      var init := xs[..|xs| - 1];
      var r := Insert(xs[|xs| - 1], SortUnique(init, lt), lt);
      assert forall y :: y in xs <==> y in init || y == xs[|xs| - 1] by {
        assert xs == init + [xs[|xs| - 1]];
      }
      r
  }

  /** Two strictly increasing sequences with the same elements are equal, so
      the contract of `SortUnique` determines its result completely. */
  lemma {:induction false} IncreasingUnique<T(!new)>(a: seq<T>, b: seq<T>, lt: (T, T) -> bool)
    requires StrictTotalOrder(lt)
    requires Increasing(a, lt) && Increasing(b, lt)
    requires forall y :: y in a <==> y in b
    ensures a == b
    decreases |a|
  {
    if |a| > 0 {
      assert a[0] in b;
      assert b[0] in a;
      assert a[0] == b[0];
      assert a == [a[0]] + a[1..] && b == [b[0]] + b[1..];
      forall y | y in a[1..] ensures y in b[1..] {
        var i :| 0 <= i < |a[1..]| && a[1..][i] == y;
        assert a[i + 1] == y && lt(a[0], a[i + 1]);
        assert y in b && y != b[0];
      }
      forall y | y in b[1..] ensures y in a[1..] {
        var i :| 0 <= i < |b[1..]| && b[1..][i] == y;
        assert b[i + 1] == y && lt(b[0], b[i + 1]);
        assert y in a && y != a[0];
      }
      IncreasingUnique(a[1..], b[1..], lt);
      assert a == [a[0]] + a[1..] && b == [b[0]] + b[1..];
    }
  }

  // ---------------------------------------------------------------------
  // Orders the backend sorts by
  // ---------------------------------------------------------------------

  predicate IntLess(a: int, b: int) {
    a < b
  }

  lemma IntLessIsStrictTotalOrder()
    ensures StrictTotalOrder(IntLess)
  {
  }

  /** Python's `<` on strings: lexicographic by code point, a proper prefix
      before any of its extensions. */
  predicate StrLess(a: string, b: string)
    decreases |a|
  {
    if |a| == 0 then |b| > 0
    else if |b| == 0 then false
    else if a[0] != b[0] then a[0] < b[0]
    else StrLess(a[1..], b[1..])
  }

  lemma StrLessIrreflexive(a: string)
    ensures !StrLess(a, a)
    decreases |a|
  {
    if |a| > 0 {
      StrLessIrreflexive(a[1..]);
    }
  }

  lemma {:induction false} StrLessTransitive(a: string, b: string, c: string)
    requires StrLess(a, b) && StrLess(b, c)
    ensures StrLess(a, c)
    decreases |a|
  {
    if |a| > 0 && a[0] == b[0] && b[0] == c[0] {
      StrLessTransitive(a[1..], b[1..], c[1..]);
    }
  }

  lemma {:induction false} StrLessTotal(a: string, b: string)
    requires a != b
    ensures StrLess(a, b) || StrLess(b, a)
    decreases |a|
  {
    if |a| > 0 && |b| > 0 && a[0] == b[0] {
      assert a == [a[0]] + a[1..] && b == [b[0]] + b[1..];
      StrLessTotal(a[1..], b[1..]);
    }
  }

  lemma StrLessIsStrictTotalOrder()
    ensures StrictTotalOrder(StrLess)
  {
    forall a: string ensures !StrLess(a, a) {
      StrLessIrreflexive(a);
    }
    forall a: string, b: string, c: string | StrLess(a, b) && StrLess(b, c)
      ensures StrLess(a, c)
    {
      StrLessTransitive(a, b, c);
    }
    forall a: string, b: string | a != b
      ensures StrLess(a, b) || StrLess(b, a)
    {
      StrLessTotal(a, b);
    }
  }

  // ---------------------------------------------------------------------
  // Insertion-ordered de-duplication
  // ---------------------------------------------------------------------

  /** The position of the first occurrence of `y` in `xs`. */
  function FirstIndex<T(==,!new)>(xs: seq<T>, y: T): (i: nat)
    requires y in xs
    ensures i < |xs| && xs[i] == y
    ensures y !in xs[..i]
  {
    if xs[0] == y then 0
    else
      var i := 1 + FirstIndex(xs[1..], y);
      assert xs[..i] == [xs[0]] + xs[1..][..i - 1];
      i
  }

  lemma FirstIndexInPrefix<T(!new)>(xs: seq<T>, n: nat, y: T)
    requires n <= |xs|
    requires y in xs[..n]
    ensures FirstIndex(xs, y) == FirstIndex(xs[..n], y)
  {
    var i := FirstIndex(xs[..n], y);
    var j := FirstIndex(xs, y);
    assert xs[..n][..i] == xs[..i];
  }

  /** JavaScript's `Array.from(new Set(xs))`: each distinct value once, in the
      order of its first occurrence in `xs`. */
  function Dedupe<T(==,!new)>(xs: seq<T>): (r: seq<T>)
    ensures NoDuplicates(r)
    ensures forall y :: y in r <==> y in xs
    ensures forall i, j :: 0 <= i < j < |r| ==> FirstIndex(xs, r[i]) < FirstIndex(xs, r[j])
    decreases |xs|
  {
    if |xs| == 0 then []
    else
      var n := |xs| - 1;
      var init := xs[..n];
      var x := xs[n];
      var r := Dedupe(init);
      assert xs == init + [x];
      forall y | y in r ensures FirstIndex(xs, y) == FirstIndex(init, y) && FirstIndex(xs, y) < n {
        FirstIndexInPrefix(xs, n, y);
      }
      if x in r then r
      else
        assert FirstIndex(xs, x) == n;
        var r' := r + [x];
        assert forall i :: 0 <= i < |r| ==> r'[i] == r[i] && r[i] in r;
        r'
  }

  /** De-duplicating a sequence without duplicates changes nothing; in
      particular de-duplication is idempotent. */
  lemma {:induction false} DedupeKeepsDistinct<T(!new)>(xs: seq<T>)
    requires NoDuplicates(xs)
    ensures Dedupe(xs) == xs
    decreases |xs|
  {
    if |xs| > 0 {
      var n := |xs| - 1;
      DedupeKeepsDistinct(xs[..n]);
      assert xs[n] !in xs[..n];
      assert xs == xs[..n] + [xs[n]];
    }
  }

  lemma DedupeIdempotent<T(!new)>(xs: seq<T>)
    ensures Dedupe(Dedupe(xs)) == Dedupe(xs)
  {
    DedupeKeepsDistinct(Dedupe(xs));
  }
}
