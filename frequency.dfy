/** Column statistics as pandas computes them on a Series without missing
    values: `mode()[0]`, `value_counts()`, `min()` and `max()`. */
module Frequency {

  /** Number of occurrences of `x` in the column. */
  function Count<T(==)>(col: seq<T>, x: T): nat
  {
    multiset(col)[x]
  }

  /** `less` orders values the way pandas sorts them. */
  ghost predicate StrictTotalOrder<T(!new)>(less: (T, T) -> bool)
  {
    && (forall x :: !less(x, x))
    && (forall x, y, z :: less(x, y) && less(y, z) ==> less(x, z))
    && (forall x, y :: x == y || less(x, y) || less(y, x))
  }

  /** `r` is what `mode()[0]` reports: a value of the column that no other
      value outnumbers, and no value as frequent as `r` sorts before it. */
  ghost predicate IsMode<T>(col: seq<T>, less: (T, T) -> bool, r: T)
  {
    && r in col
    && forall x :: x in col ==> Count(col, x) <= Count(col, r) && (Count(col, x) == Count(col, r) ==> !less(x, r))
  }

  /** The mode candidate among the first `n` values of `col`, counting
      occurrences in the whole column. */
  function Leader<T(==,!new)>(col: seq<T>, less: (T, T) -> bool, n: nat): (r: T)
    requires 0 < n <= |col|
    requires StrictTotalOrder(less)
    ensures r in col[..n]
    ensures forall j :: 0 <= j < n ==> Count(col, col[j]) <= Count(col, r)
    ensures forall j :: 0 <= j < n && Count(col, col[j]) == Count(col, r) ==> !less(col[j], r)
    decreases n
  {
    if n == 1 then col[0]
    else
      var b := Leader(col, less, n - 1);
      var v := col[n - 1];
      assert col[..n] == col[..n - 1] + [v];
      if Count(col, v) > Count(col, b) || (Count(col, v) == Count(col, b) && less(v, b)) then v else b
  }

  /** `Series.mode()[0]`: pandas returns the tied modes sorted, and the first
      is taken. There is no result for an empty column (indexing fails). */
  function Mode<T(==,!new)>(col: seq<T>, less: (T, T) -> bool): (r: T)
    requires |col| > 0
    requires StrictTotalOrder(less)
    ensures IsMode(col, less, r)
    ensures forall y :: IsMode(col, less, y) ==> y == r
  {
    var r := Leader(col, less, |col|);
    assert col[..|col|] == col;
    assert forall x :: x in col ==> exists j :: 0 <= j < |col| && col[j] == x;
    r
  }

  /** `min()` of a non-empty numeric column. */
  function Min(col: seq<int>): (r: int)
    requires |col| > 0
    ensures r in col
    ensures forall x :: x in col ==> r <= x
  {
    if |col| == 1 then col[0]
    else
      var m := Min(col[1..]);
      assert col == [col[0]] + col[1..];
      if col[0] <= m then col[0] else m
  }

  /** `max()` of a non-empty numeric column. */
  function Max(col: seq<int>): (r: int)
    requires |col| > 0
    ensures r in col
    ensures forall x :: x in col ==> x <= r
  {
    if |col| == 1 then col[0]
    else
      var m := Max(col[1..]);
      assert col == [col[0]] + col[1..];
      if col[0] >= m then col[0] else m
  }

  // ---------------------------------------------------------------------
  // value_counts()

  predicate NoDup<T(==)>(s: seq<T>)
  {
    forall i, j :: 0 <= i < j < |s| ==> s[i] != s[j]
  }

  /** The distinct values of a column, in order of first occurrence. */
  function Distinct<T(==,!new)>(col: seq<T>): (r: seq<T>)
    ensures forall x :: x in r <==> x in col
    ensures NoDup(r)
    decreases |col|
  {
    if col == [] then []
    else
      var last := col[|col| - 1];
      var d := Distinct(col[..|col| - 1]);
      assert col == col[..|col| - 1] + [last];
      if last in d then d else d + [last]
  }

  /** One line of a `value_counts()` result. */
  datatype Entry<T> = Entry(value: T, count: nat)

  function Values<T>(es: seq<Entry<T>>): seq<T>
  {
    seq(|es|, i requires 0 <= i < |es| => es[i].value)
  }

  function SumCounts<T>(es: seq<Entry<T>>): nat
  {
    if es == [] then 0 else es[0].count + SumCounts(es[1..])
  }

  predicate NonIncreasing<T>(es: seq<Entry<T>>)
  {
    forall i, j :: 0 <= i < j < |es| ==> es[i].count >= es[j].count
  }

  /** Pairs each of `vals` with its number of occurrences in `col`. */
  function Tally<T(==)>(vals: seq<T>, col: seq<T>): seq<Entry<T>>
  {
    seq(|vals|, i requires 0 <= i < |vals| => Entry(vals[i], Count(col, vals[i])))
  }

  /** Inserts `e` into a list sorted by descending count, ahead of the
      entries with the same count (so the sort below is stable). */
  function Insert<T>(e: Entry<T>, es: seq<Entry<T>>): (r: seq<Entry<T>>)
    requires NonIncreasing(es)
    ensures NonIncreasing(r)
    ensures multiset(r) == multiset(es) + multiset{e}
    ensures SumCounts(r) == SumCounts(es) + e.count
    decreases |es|
  {
    if es == [] || e.count >= es[0].count then
      assert ([e] + es)[1..] == es;
      [e] + es
    else
      var tail := Insert(e, es[1..]);
      assert es == [es[0]] + es[1..];
      assert forall x :: x in tail ==> x in multiset(es[1..]) + multiset{e};
      assert ([es[0]] + tail)[1..] == tail;
      [es[0]] + tail
  }

  /** Stable insertion sort by descending count. */
  function SortByCount<T>(es: seq<Entry<T>>): (r: seq<Entry<T>>)
    ensures NonIncreasing(r)
    ensures multiset(r) == multiset(es)
    ensures SumCounts(r) == SumCounts(es)
    decreases |es|
  {
    if es == [] then []
    else
      assert es == [es[0]] + es[1..];
      Insert(es[0], SortByCount(es[1..]))
  }

  /** What `value_counts()` promises about its result `r` for column `col`. */
  ghost predicate IsValueCounts<T>(col: seq<T>, r: seq<Entry<T>>)
  {
    && (forall i :: 0 <= i < |r| ==> r[i].value in col && r[i].count == Count(col, r[i].value))
    && (forall x :: x in col ==> x in Values(r))
    && NoDup(Values(r))
    && NonIncreasing(r)
    && SumCounts(r) == |col|
  }

  /** `Series.value_counts()`: every distinct value once, with its number of
      occurrences, most frequent first. */
  function ValueCounts<T(==,!new)>(col: seq<T>): (r: seq<Entry<T>>)
    ensures IsValueCounts(col, r)
  {
    var d := Distinct(col);
    var es := Tally(d, col);
    var r := SortByCount(es);
    TallyCountsEveryRow(col);
    TallyNoDup(d, col);
    PermutationKeepsValues(es, r, col);
    r
  }

  lemma {:induction false} SumCountsAppend<T>(a: seq<Entry<T>>, b: seq<Entry<T>>)
    ensures SumCounts(a + b) == SumCounts(a) + SumCounts(b)
    decreases |a|
  {
    if a == [] {
      assert a + b == b;
    } else {
      assert (a + b)[1..] == a[1..] + b;
      SumCountsAppend(a[1..], b);
    }
  }

  /** Counting one more row adds one to the tally of exactly the value it holds. */
  lemma {:induction false} TallyOneMore<T>(vals: seq<T>, col: seq<T>, x: T)
    requires NoDup(vals)
    ensures SumCounts(Tally(vals, col + [x])) == SumCounts(Tally(vals, col)) + (if x in vals then 1 else 0)
    decreases |vals|
  {
    if vals != [] {
      assert Tally(vals, col + [x])[1..] == Tally(vals[1..], col + [x]);
      assert Tally(vals, col)[1..] == Tally(vals[1..], col);
      assert multiset(col + [x]) == multiset(col) + multiset{x};
      assert vals == [vals[0]] + vals[1..];
      TallyOneMore(vals[1..], col, x);
    }
  }

  /** The counts of the distinct values add up to the number of rows. */
  lemma {:induction false} TallyCountsEveryRow<T(!new)>(col: seq<T>)
    ensures SumCounts(Tally(Distinct(col), col)) == |col|
    decreases |col|
  {
    if col != [] {
      var s, x := col[..|col| - 1], col[|col| - 1];
      assert col == s + [x];
      var d := Distinct(s);
      TallyCountsEveryRow(s);
      TallyOneMore(d, s, x);
      if x !in d {
        assert Tally(d + [x], col) == Tally(d, col) + [Entry(x, Count(col, x))];
        SumCountsAppend(Tally(d, col), [Entry(x, Count(col, x))]);
        assert ([Entry(x, Count(col, x))])[1..] == [];
        assert x !in s;
        assert multiset(col) == multiset(s) + multiset{x};
      }
    }
  }

  lemma TallyNoDup<T>(vals: seq<T>, col: seq<T>)
    requires NoDup(vals)
    ensures NoDup(Tally(vals, col))
  {
  }

  /** An entry that occurs twice in a list has multiplicity at least two. */
  lemma {:induction false} RepeatedTwice<T>(s: seq<T>, i: nat, j: nat)
    requires i < j < |s| && s[i] == s[j]
    ensures multiset(s)[s[i]] >= 2
  {
    assert s == s[..j] + [s[j]] + s[j + 1..];
    assert s[i] in s[..j];
  }

  /** A list without repeated entries has multiplicity at most one. */
  lemma {:induction false} UniqueOnce<T>(s: seq<T>, x: T)
    requires NoDup(s)
    ensures multiset(s)[x] <= 1
    decreases |s|
  {
    if s != [] {
      assert s == [s[0]] + s[1..];
      UniqueOnce(s[1..], x);
      if s[0] == x {
        assert x !in s[1..];
      }
    }
  }

  lemma PermutationKeepsValues<T(!new)>(es: seq<Entry<T>>, r: seq<Entry<T>>, col: seq<T>)
    requires es == Tally(Distinct(col), col)
    requires NoDup(es)
    requires multiset(r) == multiset(es)
    ensures forall i :: 0 <= i < |r| ==> r[i].value in col && r[i].count == Count(col, r[i].value)
    ensures forall x :: x in col ==> x in Values(r)
    ensures NoDup(Values(r))
  {
    var d := Distinct(col);
    forall i | 0 <= i < |r|
      ensures r[i].value in col && r[i].count == Count(col, r[i].value)
    {
      assert r[i] in multiset(r);
      assert r[i] in es;
    }
    forall x | x in col
      ensures x in Values(r)
    {
      var k :| 0 <= k < |d| && d[k] == x;
      assert es[k] in multiset(es);
      assert es[k] in r;
      var i :| 0 <= i < |r| && r[i] == es[k];
      assert Values(r)[i] == x;
    }
    forall i, j | 0 <= i < j < |r|
      ensures Values(r)[i] != Values(r)[j]
    {
      if r[i].value == r[j].value {
        assert r[i] == r[j];
        RepeatedTwice(r, i, j);
        UniqueOnce(es, r[i]);
        assert false;
      }
    }
  }
}
