/** What the IQR filter promises: the flag rule, the rows `handle_outliers` keeps,
    and that neither row order nor other columns affect a column's flags. */
module OutlierProperties {
  import opened Values
  import opened Sequences
  import opened Quantiles
  import opened OutlierDetection

  /** A cell is flagged exactly when it is a number strictly below
      Q1 - 1.5 IQR or strictly above Q3 + 1.5 IQR of its column; missing cells and
      cells of a column with no numbers are never flagged. */
  lemma FlagRule(f: Frame, cols: seq<string>, i: int, j: int)
    requires FlagTable(f, cols).Ok?
    requires 0 <= i < |f.rows| && 0 <= j < |cols|
    ensures FlagTable(f, cols).value[i][j] <==>
      match CellOf(f.rows[i], cols[j])
      case Num(x) =>
        var q := Quartiles(Observed(f.rows, cols[j]));
        q.Some? && var (q1, q3) := q.value;
        (x < q1 - 1.5 * (q3 - q1) || x > q3 + 1.5 * (q3 - q1))
      case _ => false
  {
  }

  /** A number between its column's quartiles is never flagged. */
  lemma InterQuartileNeverFlagged(rows: seq<Row>, c: string, x: real)
    requires Quartiles(Observed(rows, c)).Some?
    requires Quartiles(Observed(rows, c)).value.0 <= x <= Quartiles(Observed(rows, c)).value.1
    ensures !IsOutlier(Num(x), ColumnFence(rows, c))
  {
  }

  /** `handle_outliers` returns the input rows at ascending indices, unchanged, and
      an index is among them exactly when its row is flagged in fewer than two
      selected columns. */
  lemma HandleOutliersKeeps(f: Frame, cols: seq<string>, methodArg: string)
    requires FlagTable(f, cols).Ok?
    ensures HandleOutliers(f, cols, methodArg).Ok?
    ensures var table := FlagTable(f, cols).value;
      var idx := Kept(Survivors(table));
      var out := HandleOutliers(f, cols, methodArg).value.rows;
      && |out| == |idx|
      && (forall k :: 0 <= k < |idx| ==> idx[k] < |f.rows| && out[k] == f.rows[idx[k]])
      && (forall k, l :: 0 <= k < l < |idx| ==> idx[k] < idx[l])
      && (forall i :: 0 <= i < |f.rows| ==> (i in idx <==> Count(table[i]) < 2))
  {
    var table := FlagTable(f, cols).value;
    var mask := Survivors(table);
    assert HandleOutliers(f, cols, methodArg) == Ok(Frame(f.columns, Select(f.rows, mask)));
    SelectKept(f.rows, mask);
  }

  /** With fewer than two selected columns no row can be flagged twice, so nothing
      is removed. */
  lemma FewColumnsKeepAll(f: Frame, cols: seq<string>, methodArg: string)
    requires |cols| < 2 && FlagTable(f, cols).Ok?
    ensures HandleOutliers(f, cols, methodArg) == Ok(f)
  {
    var table := FlagTable(f, cols).value;
    var mask := Survivors(table);
    assert HandleOutliers(f, cols, methodArg) == Ok(Frame(f.columns, Select(f.rows, mask)));
    SelectAll(f.rows, mask);
  }

  lemma {:induction false} ObservedAppend(a: seq<Row>, b: seq<Row>, c: string)
    ensures Observed(a + b, c) == Observed(a, c) + Observed(b, c)
  {
    if a == [] {
      assert a + b == b;
    } else {
      assert (a + b)[0] == a[0] && (a + b)[1..] == a[1..] + b;
      ObservedAppend(a[1..], b, c);
      var tail := Observed(a[1..], c);
      match CellOf(a[0], c)
      case Num(x) =>
        assert Observed(a, c) == [x] + tail;
        assert Observed(a + b, c) == [x] + (tail + Observed(b, c));
        assert [x] + (tail + Observed(b, c)) == ([x] + tail) + Observed(b, c);
      case _ =>
        assert Observed(a, c) == tail;
        assert Observed(a + b, c) == tail + Observed(b, c);
    }
  }

  /** The values a quantile reads are exactly the numbers of the column's cells. */
  lemma {:induction false} ObservedSpec(rows: seq<Row>, c: string)
    ensures forall x :: x in Observed(rows, c) <==> exists i :: 0 <= i < |rows| && CellOf(rows[i], c) == Num(x)
  {
    if rows != [] {
      ObservedSpec(rows[1..], c);
      assert forall i :: 0 < i < |rows| ==> rows[i] == rows[1..][i - 1];
    }
  }

  /** Taking row `k` out of `b` takes its value, if any, out of the observed values. */
  lemma ObservedSplit(b: seq<Row>, k: int, c: string)
    requires 0 <= k < |b|
    ensures multiset(Observed(b, c)) == multiset(Observed([b[k]], c)) + multiset(Observed(b[..k] + b[k + 1..], c))
  {
    assert b == b[..k] + ([b[k]] + b[k + 1..]);
    ObservedAppend(b[..k], [b[k]] + b[k + 1..], c);
    ObservedAppend([b[k]], b[k + 1..], c);
    ObservedAppend(b[..k], b[k + 1..], c);
  }

  /** A row whose cell in `c` is missing contributes nothing to the values the
      quartiles of `c` are taken over: taking it out changes none of them. */
  lemma MissingIgnored(rows: seq<Row>, c: string, i: int)
    requires 0 <= i < |rows| && CellOf(rows[i], c).Missing?
    ensures Observed(rows, c) == Observed(rows[..i] + rows[i + 1..], c)
  {
    assert rows == rows[..i] + ([rows[i]] + rows[i + 1..]);
    ObservedAppend(rows[..i], [rows[i]] + rows[i + 1..], c);
    ObservedAppend([rows[i]], rows[i + 1..], c);
    ObservedAppend(rows[..i], rows[i + 1..], c);
    assert Observed([rows[i]], c) == [];
  }

  /** Rearranging the rows rearranges the values a quantile reads. */
  lemma {:induction false} ObservedPermutation(a: seq<Row>, b: seq<Row>, c: string)
    requires multiset(a) == multiset(b)
    ensures multiset(Observed(a, c)) == multiset(Observed(b, c))
    decreases |a|
  {
    if a == [] {
      assert |b| == |multiset(b)| == 0;
    } else {
      var k := PermutationHead(a, b);
      ObservedPermutation(a[1..], b[..k] + b[k + 1..], c);
      ObservedSplit(b, k, c);
      ObservedSplit(a, 0, c);
      assert a[..0] + a[1..] == a[1..];
    }
  }

  /** Reordering the rows does not change a column's fence. */
  lemma FencePermutation(a: seq<Row>, b: seq<Row>, c: string)
    requires multiset(a) == multiset(b)
    ensures ColumnFence(a, c) == ColumnFence(b, c)
  {
    var va, vb := Observed(a, c), Observed(b, c);
    ObservedPermutation(a, b, c);
    QuartilesPermutation(va, vb);
  }

  /** Reordering the rows does not change whether a column holds text. */
  lemma HasTextPermutation(a: seq<Row>, b: seq<Row>, c: string)
    requires multiset(a) == multiset(b)
    ensures HasText(a, c) == HasText(b, c)
  {
    HasTextSpec(a, c);
    HasTextSpec(b, c);
    if HasText(a, c) {
      var i :| 0 <= i < |a| && CellOf(a[i], c).Text?;
      assert a[i] in multiset(b);
    }
    if HasText(b, c) {
      var i :| 0 <= i < |b| && CellOf(b[i], c).Text?;
      assert b[i] in multiset(a);
    }
  }

  lemma {:induction false} FirstErrorAgrees(f: Frame, g: Frame, cols: seq<string>)
    requires forall j :: 0 <= j < |cols| ==> ColumnCheck(f, cols[j]) == ColumnCheck(g, cols[j])
    ensures FirstError(f, cols) == FirstError(g, cols)
  {
    if cols != [] {
      assert forall j :: 0 < j < |cols| ==> cols[j] == cols[1..][j - 1];
      FirstErrorAgrees(f, g, cols[1..]);
    }
  }

  /** The filter does not depend on row order: frames holding the same rows in any
      order raise alike, flag each row alike, and keep the same rows. */
  lemma RowOrderIrrelevant(f: Frame, g: Frame, cols: seq<string>, methodArg: string)
    requires f.columns == g.columns && multiset(f.rows) == multiset(g.rows)
    ensures FlagTable(f, cols).Err? == FlagTable(g, cols).Err?
    ensures FlagTable(f, cols).Err? ==> FlagTable(f, cols).error == FlagTable(g, cols).error
    ensures forall row :: RowFlags(f, cols, row) == RowFlags(g, cols, row)
    ensures HandleOutliers(f, cols, methodArg).Ok? ==>
      multiset(HandleOutliers(f, cols, methodArg).value.rows) == multiset(HandleOutliers(g, cols, methodArg).value.rows)
  {
    forall j | 0 <= j < |cols|
      ensures ColumnCheck(f, cols[j]) == ColumnCheck(g, cols[j])
      ensures ColumnFence(f.rows, cols[j]) == ColumnFence(g.rows, cols[j])
    {
      FencePermutation(f.rows, g.rows, cols[j]);
      HasTextPermutation(f.rows, g.rows, cols[j]);
    }
    FirstErrorAgrees(f, g, cols);
    forall row | true ensures RowFlags(f, cols, row) == RowFlags(g, cols, row) {
    }
    if FlagTable(f, cols).Ok? {
      var tf, tg := FlagTable(f, cols).value, FlagTable(g, cols).value;
      var p := (row: Row) => Count(RowFlags(f, cols, row)) < 2;
      var mf, mg := Survivors(tf), Survivors(tg);
      assert HandleOutliers(f, cols, methodArg) == Ok(Frame(f.columns, Select(f.rows, mf)));
      assert HandleOutliers(g, cols, methodArg) == Ok(Frame(g.columns, Select(g.rows, mg)));
      SelectPermutation(f.rows, mf, g.rows, mg, p);
    }
  }

  lemma {:induction false} ColumnLocalRows(a: seq<Row>, b: seq<Row>, c: string)
    requires |a| == |b|
    requires forall i :: 0 <= i < |a| ==> CellOf(a[i], c) == CellOf(b[i], c)
    ensures Observed(a, c) == Observed(b, c)
    ensures HasText(a, c) == HasText(b, c)
  {
    if a != [] {
      assert forall i :: 0 < i < |a| ==> a[i] == a[1..][i - 1] && b[i] == b[1..][i - 1];
      ColumnLocalRows(a[1..], b[1..], c);
    }
  }

  /** A column's flags depend only on that column: frames that agree on column `c`
      row by row flag it alike, whatever their other columns hold. */
  lemma ColumnLocal(f: Frame, g: Frame, c: string)
    requires |f.rows| == |g.rows| && (c in f.columns <==> c in g.columns)
    requires forall i :: 0 <= i < |f.rows| ==> CellOf(f.rows[i], c) == CellOf(g.rows[i], c)
    ensures ColumnCheck(f, c) == ColumnCheck(g, c)
    ensures forall i :: 0 <= i < |f.rows| ==>
      IsOutlier(CellOf(f.rows[i], c), ColumnFence(f.rows, c)) == IsOutlier(CellOf(g.rows[i], c), ColumnFence(g.rows, c))
  {
    ColumnLocalRows(f.rows, g.rows, c);
  }
}
