/** Worked examples of the IQR filter on small frames. */
module OutlierExample {
  import opened Values
  import opened Sequences
  import opened Quantiles
  import opened OutlierDetection
  import opened OutlierProperties

  /** A column that holds the number `v[i]` in row `i` reads as exactly `v`. */
  lemma {:induction false} ObservedNumbers(rows: seq<Row>, c: string, v: seq<real>)
    requires |rows| == |v|
    requires forall i :: 0 <= i < |rows| ==> CellOf(rows[i], c) == Num(v[i])
    ensures Observed(rows, c) == v
    ensures !HasText(rows, c)
  {
    if rows != [] {
      assert forall i :: 0 < i < |rows| ==> rows[i] == rows[1..][i - 1] && v[i] == v[1..][i - 1];
      ObservedNumbers(rows[1..], c, v[1..]);
      assert v == [v[0]] + v[1..];
    }
  }

  /** A quantile whose position is a whole number `k` is the `k`-th smallest value. */
  lemma QuantileAtIndex(s: seq<real>, q: real, k: nat)
    requires |s| > 0 && IsSorted(s) && 0.0 <= q <= 1.0
    requires Position(|s|, q) == k as real
    ensures k < |s| && Quantile(s, q) == s[k]
  {
    var h := Position(|s|, q);
    assert h.Floor == k;
  }

  /** Over five values the quartiles sit exactly on the second and fourth smallest. */
  lemma QuartilesOfFive(v: seq<real>, s: seq<real>)
    requires |v| == 5 && |s| == 5 && IsSorted(s) && multiset(v) == multiset(s)
    ensures Quartiles(v) == Some((s[1], s[3]))
  {
    SortedUnique(SortedOf(v), s);
    assert Position(5, 0.25) == 1.0;
    assert Position(5, 0.75) == 3.0;
    QuantileAtIndex(s, 0.25, 1);
    QuantileAtIndex(s, 0.75, 3);
    assert Quartiles(v) == Some((Quantile(s, 0.25), Quantile(s, 0.75)));
  }

  /** Over four values the quartile positions 0.75 and 2.25 fall between two values,
      and the quartiles are interpolated linearly between those neighbours. */
  lemma QuartilesOfFour(v: seq<real>, s: seq<real>)
    requires |v| == 4 && |s| == 4 && IsSorted(s) && multiset(v) == multiset(s)
    ensures Quartiles(v) == Some((0.25 * s[0] + 0.75 * s[1], 0.75 * s[2] + 0.25 * s[3]))
  {
    SortedUnique(SortedOf(v), s);
    var h1, h3 := Position(4, 0.25), Position(4, 0.75);
    assert h1 == 0.75 && h1.Floor == 0;
    assert h3 == 2.25 && h3.Floor == 2;
    assert Quantile(s, 0.25) == Lerp(s[0], s[1], 0.75);
    assert Quantile(s, 0.75) == Lerp(s[2], s[3], 0.25);
  }

  /** The values 1, 2, 3 and 4 in any order have Q1 = 1.75 and Q3 = 3.25. */
  lemma QuartilesOneToFour(v: seq<real>)
    requires multiset(v) == multiset([1.0, 2.0, 3.0, 4.0])
    ensures Quartiles(v) == Some((1.75, 3.25))
  {
    assert |v| == |multiset(v)| == 4;
    QuartilesOfFour(v, [1.0, 2.0, 3.0, 4.0]);
  }

  /** Any arrangement of 10, 11, 12, 13 and 100 has Q1 = 11 and Q3 = 13 ... */
  lemma AgeQuartiles(v: seq<real>)
    requires multiset(v) == multiset([10.0, 11.0, 12.0, 13.0, 100.0])
    ensures Quartiles(v) == Some((11.0, 13.0))
  {
    var s := [10.0, 11.0, 12.0, 13.0, 100.0];
    assert |v| == |multiset(v)| == 5;
    QuartilesOfFive(v, s);
  }

  /** ... so the column [10, 12, 11, 13, 100] has IQR 2 and fence [8, 16]. */
  lemma AgeFence(v: seq<real>)
    requires v == [10.0, 12.0, 11.0, 13.0, 100.0]
    ensures FenceOf(v) == Some(Fence(8.0, 16.0))
  {
    assert multiset(v) == multiset([10.0, 11.0, 12.0, 13.0, 100.0]);
    AgeQuartiles(v);
  }

  /** Any arrangement of 1, 2, 3, 4 and 100 has Q1 = 2 and Q3 = 4, so IQR 2 and
      fence [-1, 7]. */
  lemma BalanceFence(v: seq<real>)
    requires multiset(v) == multiset([1.0, 2.0, 3.0, 4.0, 100.0])
    ensures FenceOf(v) == Some(Fence(-1.0, 7.0))
  {
    var s := [1.0, 2.0, 3.0, 4.0, 100.0];
    assert |v| == |multiset(v)| == 5;
    QuartilesOfFive(v, s);
  }

  /** A frame whose columns `a` and `b` hold the numbers `x` and `y`, row by row. */
  predicate TwoNumericColumns(f: Frame, a: string, b: string, x: seq<real>, y: seq<real>)
  {
    && a in f.columns && b in f.columns
    && |f.rows| == |x| == |y|
    && (forall i :: 0 <= i < |f.rows| ==> CellOf(f.rows[i], a) == Num(x[i]))
    && (forall i :: 0 <= i < |f.rows| ==> CellOf(f.rows[i], b) == Num(y[i]))
  }

  /** A column holding a number in every row can be read. */
  lemma NumericColumnReadable(f: Frame, c: string, x: seq<real>)
    requires c in f.columns && |f.rows| == |x|
    requires forall i :: 0 <= i < |f.rows| ==> CellOf(f.rows[i], c) == Num(x[i])
    ensures ColumnCheck(f, c).None?
  {
    ObservedNumbers(f.rows, c, x);
  }

  /** The flags of two numeric columns against the fences `fa` and `fb`, row by row. */
  function FlagPairs(x: seq<real>, y: seq<real>, fa: Fence, fb: Fence): (t: seq<seq<bool>>)
    requires |x| == |y|
    ensures |t| == |x|
  {
    seq(|x|, i requires 0 <= i < |x| => [IsOutlier(Num(x[i]), Some(fa)), IsOutlier(Num(y[i]), Some(fb))])
  }

  /** Two readable columns give a flag table. */
  lemma TwoColumnsReadable(f: Frame, a: string, b: string)
    requires ColumnCheck(f, a).None? && ColumnCheck(f, b).None?
    ensures FlagTable(f, [a, b]).Ok?
  {
    FirstErrorSpec(f, [a, b]);
  }

  /** One row of the flag table of two readable columns. */
  lemma TwoColumnRow(f: Frame, a: string, b: string, i: int)
    requires ColumnCheck(f, a).None? && ColumnCheck(f, b).None? && 0 <= i < |f.rows|
    ensures FlagTable(f, [a, b]).Ok?
    ensures FlagTable(f, [a, b]).value[i] ==
      [IsOutlier(CellOf(f.rows[i], a), ColumnFence(f.rows, a)), IsOutlier(CellOf(f.rows[i], b), ColumnFence(f.rows, b))]
  {
    var cols := [a, b];
    FlagTableAt(f, cols, i, 0);
    FlagTableAt(f, cols, i, 1);
  }

  /** The flag table of two numeric columns with known fences. */
  lemma TwoColumnTable(f: Frame, a: string, b: string, x: seq<real>, y: seq<real>, fa: Fence, fb: Fence)
    requires TwoNumericColumns(f, a, b, x, y)
    requires ColumnFence(f.rows, a) == Some(fa) && ColumnFence(f.rows, b) == Some(fb)
    ensures FlagTable(f, [a, b]) == Ok(FlagPairs(x, y, fa, fb))
  {
    NumericColumnReadable(f, a, x);
    NumericColumnReadable(f, b, y);
    TwoColumnsReadable(f, a, b);
    var table := FlagTable(f, [a, b]).value;
    var expected := FlagPairs(x, y, fa, fb);
    forall i | 0 <= i < |x| ensures table[i] == expected[i] {
      TwoColumnRow(f, a, b, i);
      assert CellOf(f.rows[i], a) == Num(x[i]) && CellOf(f.rows[i], b) == Num(y[i]);
      assert expected[i] == [IsOutlier(Num(x[i]), Some(fa)), IsOutlier(Num(y[i]), Some(fb))];
    }
    assert table == expected;
  }

  /** The fences of the Age column [10, 12, 11, 13, 100] and of a Balance column
      holding 1, 2, 3, 4 and 100 in some order. */
  lemma ExampleFences(f: Frame, a: string, b: string, x: seq<real>, y: seq<real>)
    requires x == [10.0, 12.0, 11.0, 13.0, 100.0]
    requires multiset(y) == multiset([1.0, 2.0, 3.0, 4.0, 100.0])
    requires TwoNumericColumns(f, a, b, x, y)
    ensures ColumnFence(f.rows, a) == Some(Fence(8.0, 16.0))
    ensures ColumnFence(f.rows, b) == Some(Fence(-1.0, 7.0))
  {
    ObservedNumbers(f.rows, a, x);
    ObservedNumbers(f.rows, b, y);
    AgeFence(x);
    BalanceFence(y);
  }

  /** `handle_outliers` keeps the rows that the survivor mask of the table keeps. */
  lemma HandleWithTable(f: Frame, cols: seq<string>, methodArg: string, table: seq<seq<bool>>)
    requires FlagTable(f, cols) == Ok(table)
    ensures HandleOutliers(f, cols, methodArg) == Ok(Frame(f.columns, Select(f.rows, Survivors(table))))
  {
  }

  /** A mask that keeps all but the last entry drops just that entry. */
  lemma SelectDropLast<T>(s: seq<T>, mask: seq<bool>)
    requires |s| == |mask| > 0 && !mask[|s| - 1]
    requires forall i :: 0 <= i < |s| - 1 ==> mask[i]
    ensures Select(s, mask) == s[..|s| - 1]
  {
    var n := |s| - 1;
    SelectAll(s[..n], mask[..n]);
  }

  /** A table whose survivor mask drops only the last row. */
  lemma DropLast(f: Frame, cols: seq<string>, methodArg: string, table: seq<seq<bool>>)
    requires FlagTable(f, cols) == Ok(table) && |f.rows| > 0
    requires !Survivors(table)[|f.rows| - 1]
    requires forall i :: 0 <= i < |f.rows| - 1 ==> Survivors(table)[i]
    ensures HandleOutliers(f, cols, methodArg) == Ok(Frame(f.columns, f.rows[..|f.rows| - 1]))
  {
    HandleWithTable(f, cols, methodArg, table);
    SelectDropLast(f.rows, Survivors(table));
  }

  /** A table whose survivor mask keeps every row. */
  lemma KeepAll(f: Frame, cols: seq<string>, methodArg: string, table: seq<seq<bool>>)
    requires FlagTable(f, cols) == Ok(table)
    requires forall i :: 0 <= i < |Survivors(table)| ==> Survivors(table)[i]
    ensures HandleOutliers(f, cols, methodArg) == Ok(f)
  {
    HandleWithTable(f, cols, methodArg, table);
    SelectAll(f.rows, Survivors(table));
  }

  lemma SharedOutlierFlags(x: seq<real>, y: seq<real>)
    requires x == [10.0, 12.0, 11.0, 13.0, 100.0] && y == [1.0, 2.0, 3.0, 4.0, 100.0]
    ensures FlagPairs(x, y, Fence(8.0, 16.0), Fence(-1.0, 7.0)) ==
      [[false, false], [false, false], [false, false], [false, false], [true, true]]
  {
  }

  lemma SharedSurvivors(table: seq<seq<bool>>)
    requires table == [[false, false], [false, false], [false, false], [false, false], [true, true]]
    ensures Survivors(table) == [true, true, true, true, false]
    ensures !Survivors(table)[4] && forall i :: 0 <= i < 4 ==> Survivors(table)[i]
  {
  }

  /** When the 100 of both columns sits in the same row, that row is flagged in both
      columns ... */
  lemma SharedOutlierTable(f: Frame, a: string, b: string, x: seq<real>, y: seq<real>)
    requires x == [10.0, 12.0, 11.0, 13.0, 100.0] && y == [1.0, 2.0, 3.0, 4.0, 100.0]
    requires TwoNumericColumns(f, a, b, x, y)
    ensures FlagTable(f, [a, b]) ==
      Ok([[false, false], [false, false], [false, false], [false, false], [true, true]])
  {
    assert multiset(y) == multiset([1.0, 2.0, 3.0, 4.0, 100.0]);
    ExampleFences(f, a, b, x, y);
    TwoColumnTable(f, a, b, x, y, Fence(8.0, 16.0), Fence(-1.0, 7.0));
    SharedOutlierFlags(x, y);
  }

  /** ... and is the only row `handle_outliers` drops. */
  lemma SharedOutlierDropped(f: Frame, a: string, b: string, x: seq<real>, y: seq<real>, methodArg: string)
    requires x == [10.0, 12.0, 11.0, 13.0, 100.0] && y == [1.0, 2.0, 3.0, 4.0, 100.0]
    requires TwoNumericColumns(f, a, b, x, y)
    ensures HandleOutliers(f, [a, b], methodArg) == Ok(Frame(f.columns, f.rows[..4]))
  {
    SharedOutlierTable(f, a, b, x, y);
    DropFlaggedTwice(f, [a, b], methodArg);
  }

  /** The table of the shared-outlier frame drops its last row. */
  lemma DropFlaggedTwice(f: Frame, cols: seq<string>, methodArg: string)
    requires FlagTable(f, cols) == Ok([[false, false], [false, false], [false, false], [false, false], [true, true]])
    ensures HandleOutliers(f, cols, methodArg) == Ok(Frame(f.columns, f.rows[..4]))
  {
    var table := [[false, false], [false, false], [false, false], [false, false], [true, true]];
    SharedSurvivors(table);
    assert |f.rows| == 5;
    DropLast(f, cols, methodArg, table);
  }

  lemma SeparateOutliersFlags(x: seq<real>, y: seq<real>)
    requires x == [10.0, 12.0, 11.0, 13.0, 100.0] && y == [100.0, 2.0, 3.0, 4.0, 1.0]
    ensures FlagPairs(x, y, Fence(8.0, 16.0), Fence(-1.0, 7.0)) ==
      [[false, true], [false, false], [false, false], [false, false], [true, false]]
  {
  }

  lemma SeparateSurvivors(table: seq<seq<bool>>)
    requires table == [[false, true], [false, false], [false, false], [false, false], [true, false]]
    ensures Survivors(table) == [true, true, true, true, true]
    ensures forall i :: 0 <= i < |Survivors(table)| ==> Survivors(table)[i]
  {
  }

  /** When the two 100s sit in different rows, each of those rows is flagged once ... */
  lemma SeparateOutliersTable(f: Frame, a: string, b: string, x: seq<real>, y: seq<real>)
    requires x == [10.0, 12.0, 11.0, 13.0, 100.0] && y == [100.0, 2.0, 3.0, 4.0, 1.0]
    requires TwoNumericColumns(f, a, b, x, y)
    ensures FlagTable(f, [a, b]) ==
      Ok([[false, true], [false, false], [false, false], [false, false], [true, false]])
  {
    assert multiset(y) == multiset([1.0, 2.0, 3.0, 4.0, 100.0]);
    ExampleFences(f, a, b, x, y);
    TwoColumnTable(f, a, b, x, y, Fence(8.0, 16.0), Fence(-1.0, 7.0));
    SeparateOutliersFlags(x, y);
  }

  /** ... and nothing is dropped. */
  lemma SeparateOutliersKept(f: Frame, a: string, b: string, x: seq<real>, y: seq<real>, methodArg: string)
    requires x == [10.0, 12.0, 11.0, 13.0, 100.0] && y == [100.0, 2.0, 3.0, 4.0, 1.0]
    requires TwoNumericColumns(f, a, b, x, y)
    ensures HandleOutliers(f, [a, b], methodArg) == Ok(f)
  {
    SeparateOutliersTable(f, a, b, x, y);
    KeepFlaggedOnce(f, [a, b], methodArg);
  }

  /** The table of the separate-outliers frame keeps every row. */
  lemma KeepFlaggedOnce(f: Frame, cols: seq<string>, methodArg: string)
    requires FlagTable(f, cols) == Ok([[false, true], [false, false], [false, false], [false, false], [true, false]])
    ensures HandleOutliers(f, cols, methodArg) == Ok(f)
  {
    var table := [[false, true], [false, false], [false, false], [false, false], [true, false]];
    SeparateSurvivors(table);
    KeepAll(f, cols, methodArg, table);
  }
}
