/** The IQR outlier filter of the training pipeline: `IQROutlierDetectionStrategy`
    flags, column by column, the values outside [Q1 - 1.5 IQR, Q3 + 1.5 IQR], and
    `OutlierDetector.handle_outliers` drops the rows flagged in two or more of the
    examined columns. */
module OutlierDetection {
  import opened Values
  import opened Sequences
  import opened Quantiles

  /** A pandas DataFrame: its column labels and its rows in index order. */
  datatype Frame = Frame(columns: set<string>, rows: seq<Row>)

  /** The IQR fence of a column: values strictly outside [lower, upper] are outliers. */
  datatype Fence = Fence(lower: real, upper: real)

  /** The numbers in column `c`, in row order, skipping missing cells: the values
      `Series.quantile` reads. */
  function Observed(rows: seq<Row>, c: string): (r: seq<real>)
    ensures |r| <= |rows|
  {
    if rows == [] then
      []
    else
      var rest := Observed(rows[1..], c);
      match CellOf(rows[0], c)
      case Num(x) => [x] + rest
      case _ => rest
  }

  /** The fence of a column with values `values`; none for a column with no values,
      whose NaN quartiles make every comparison false. */
  function FenceOf(values: seq<real>): (r: Option<Fence>)
    ensures r.Some? <==> |values| > 0
  {
    var q := Quartiles(values);
    if q.None? then None else Some(IqrFence(q.value.0, q.value.1))
  }

  /** The fence [q1 - 1.5 IQR, q3 + 1.5 IQR] around ordered quartiles encloses them. */
  function IqrFence(q1: real, q3: real): (r: Fence)
    requires q1 <= q3
    ensures r.lower <= q1 && q3 <= r.upper
  {
    var iqr := q3 - q1;
    Fence(q1 - 1.5 * iqr, q3 + 1.5 * iqr)
  }

  function ColumnFence(rows: seq<Row>, c: string): Option<Fence>
  {
    FenceOf(Observed(rows, c))
  }

  /** `(df[col] < lower_bound) | (df[col] > upper_bound)` for one cell: only a number
      can be flagged, only against a fence, and never when it lies on or inside it. */
  predicate IsOutlier(v: Value, fence: Option<Fence>)
    ensures IsOutlier(v, fence) ==> v.Num? && fence.Some?
    ensures v.Num? && fence.Some? && fence.value.lower <= v.x <= fence.value.upper ==> !IsOutlier(v, fence)
  {
    match v
    case Num(x) => fence.Some? && (x < fence.value.lower || x > fence.value.upper)
    case _ => false
  }

  /** Whether column `c` holds a string anywhere, making it an object column that
      `quantile` refuses. */
  function HasText(rows: seq<Row>, c: string): bool
  {
    rows != [] && (CellOf(rows[0], c).Text? || HasText(rows[1..], c))
  }

  /** Whether some row's cell in `c` is a string. */
  lemma {:induction false} HasTextSpec(rows: seq<Row>, c: string)
    ensures HasText(rows, c) <==> exists i :: 0 <= i < |rows| && CellOf(rows[i], c).Text?
  {
    if rows != [] {
      HasTextSpec(rows[1..], c);
      assert forall i :: 0 < i < |rows| ==> rows[i] == rows[1..][i - 1];
    }
  }

  /** What `df[col]` and `quantile` raise for column `c`, if anything: `KeyError` for
      a column the frame lacks, `TypeError` for one holding a string in some row. */
  function ColumnCheck(f: Frame, c: string): (r: Option<Error>)
    ensures c !in f.columns ==> r == Some(KeyError([c]))
    ensures c in f.columns ==>
      (r.None? <==> forall i :: 0 <= i < |f.rows| ==> !CellOf(f.rows[i], c).Text?)
    ensures c in f.columns && r.Some? ==> r.value == TypeError(c)
  {
    HasTextSpec(f.rows, c);
    if c !in f.columns then
      Some(KeyError([c]))
    else if HasText(f.rows, c) then
      Some(TypeError(c))
    else
      None
  }

  /** `e` is a `KeyError` or a `TypeError` for a single one of `cols`. */
  predicate AboutColumn(e: Error, cols: seq<string>)
  {
    match e
    case KeyError(labels) => |labels| == 1 && labels[0] in cols
    case TypeError(c) => c in cols
    case Raised(_) => false
  }

  /** The exception of the first selected column that raises, in loop order: always
      a `KeyError` or `TypeError` naming one of the selected columns. */
  function FirstError(f: Frame, cols: seq<string>): (r: Option<Error>)
    ensures r.Some? ==> AboutColumn(r.value, cols)
  {
    if cols == [] then
      None
    else
      match ColumnCheck(f, cols[0])
      case Some(e) => Some(e)
      case None => FirstError(f, cols[1..])
  }

  /** No exception exactly when every selected column can be read; otherwise the
      exception is that of the earliest column that cannot. */
  lemma {:induction false} FirstErrorSpec(f: Frame, cols: seq<string>)
    ensures FirstError(f, cols).None? <==> forall j :: 0 <= j < |cols| ==> ColumnCheck(f, cols[j]).None?
    ensures FirstError(f, cols).Some? ==>
      exists j :: 0 <= j < |cols| && ColumnCheck(f, cols[j]) == FirstError(f, cols) &&
        forall k :: 0 <= k < j ==> ColumnCheck(f, cols[k]).None?
  {
    if cols != [] {
      FirstErrorSpec(f, cols[1..]);
      assert forall j :: 0 < j < |cols| ==> cols[j] == cols[1..][j - 1];
      if ColumnCheck(f, cols[0]).None? && FirstError(f, cols).Some? {
        var j :| 0 <= j < |cols[1..]| && ColumnCheck(f, cols[1..][j]) == FirstError(f, cols[1..]) &&
          forall k :: 0 <= k < j ==> ColumnCheck(f, cols[1..][k]).None?;
        assert ColumnCheck(f, cols[j + 1]) == FirstError(f, cols);
        forall k | 0 <= k < j + 1 ensures ColumnCheck(f, cols[k]).None? {
          if k > 0 {
            assert cols[k] == cols[1..][k - 1];
          }
        }
      }
    }
  }

  /** The flags of one row, one per selected column. */
  function RowFlags(f: Frame, cols: seq<string>, row: Row): (r: seq<bool>)
    ensures |r| == |cols|
  {
    seq(|cols|, j requires 0 <= j < |cols| => IsOutlier(CellOf(row, cols[j]), ColumnFence(f.rows, cols[j])))
  }

  /** The frame `detect_outliers` returns: a row per input row, a column per selected
      column, or the exception of the first column that raises. */
  function FlagTable(f: Frame, cols: seq<string>): (r: Result<seq<seq<bool>>, Error>)
    ensures r.Ok? ==> |r.value| == |f.rows| && forall i :: 0 <= i < |r.value| ==> |r.value[i]| == |cols|
  {
    match FirstError(f, cols)
    case Some(e) => Err(e)
    case None => Ok(seq(|f.rows|, i requires 0 <= i < |f.rows| => RowFlags(f, cols, f.rows[i])))
  }

  /** When every selected column can be read, entry (i, j) of the table is the flag
      of row i's cell in column j against that column's fence. */
  lemma FlagTableAt(f: Frame, cols: seq<string>, i: int, j: int)
    requires forall k :: 0 <= k < |cols| ==> ColumnCheck(f, cols[k]).None?
    requires 0 <= i < |f.rows| && 0 <= j < |cols|
    ensures FlagTable(f, cols).Ok?
    ensures FlagTable(f, cols).value[i][j] == IsOutlier(CellOf(f.rows[i], cols[j]), ColumnFence(f.rows, cols[j]))
  {
    FirstErrorSpec(f, cols);
  }

  /** When every selected column can be read, the table holds every flag. */
  lemma FlagTableAll(f: Frame, cols: seq<string>)
    requires forall k :: 0 <= k < |cols| ==> ColumnCheck(f, cols[k]).None?
    ensures FlagTable(f, cols).Ok?
    ensures forall i, j :: 0 <= i < |f.rows| && 0 <= j < |cols| ==>
      FlagTable(f, cols).value[i][j] == IsOutlier(CellOf(f.rows[i], cols[j]), ColumnFence(f.rows, cols[j]))
  {
    FirstErrorSpec(f, cols);
  }

  /** The first column that raises decides the exception. */
  lemma FirstErrorAt(f: Frame, cols: seq<string>, j: int)
    requires 0 <= j < |cols| && ColumnCheck(f, cols[j]).Some?
    requires forall k :: 0 <= k < j ==> ColumnCheck(f, cols[k]).None?
    ensures FirstError(f, cols) == ColumnCheck(f, cols[j])
  {
    FirstErrorSpec(f, cols);
    var e := FirstError(f, cols);
    var j' :| 0 <= j' < |cols| && ColumnCheck(f, cols[j']) == e &&
      forall k :: 0 <= k < j' ==> ColumnCheck(f, cols[k]).None?;
    assert j' == j;
  }

  /** `outliers[col] = (df[col] < lower_bound) | (df[col] > upper_bound)`: overwrites
      column `j` of `table` with the flags of column `c` against `fence`. */
  method WriteColumn(table: array2<bool>, j: nat, rows: seq<Row>, c: string, fence: Option<Fence>)
    requires table.Length0 == |rows| && j < table.Length1
    modifies table
    ensures forall i :: 0 <= i < |rows| ==> table[i, j] == IsOutlier(CellOf(rows[i], c), fence)
    ensures forall i, k :: 0 <= i < |rows| && 0 <= k < table.Length1 && k != j ==> table[i, k] == old(table[i, k])
  {
    for i := 0 to |rows|
      invariant forall i' :: 0 <= i' < i ==> table[i', j] == IsOutlier(CellOf(rows[i'], c), fence)
      invariant forall i', k :: 0 <= i' < |rows| && 0 <= k < table.Length1 && k != j ==> table[i', k] == old(table[i', k])
    {
      table[i, j] := IsOutlier(CellOf(rows[i], c), fence);
    }
  }

  /** The loop of `detect_outliers`: for each selected column in turn, raise if it
      cannot be read, otherwise compute its fence with `fenceOf` and overwrite its
      column of the all-false `table`. */
  method FillFlags(f: Frame, cols: seq<string>, fenceOf: string -> Option<Fence>, table: array2<bool>)
    returns (err: Option<Error>)
    requires table.Length0 == |f.rows| && table.Length1 == |cols|
    requires forall i, j :: 0 <= i < |f.rows| && 0 <= j < |cols| ==> !table[i, j]
    modifies table
    ensures err == FirstError(f, cols)
    ensures err.None? ==> forall i, j :: 0 <= i < |f.rows| && 0 <= j < |cols| ==>
      table[i, j] == IsOutlier(CellOf(f.rows[i], cols[j]), fenceOf(cols[j]))
  {
    var n, m := |f.rows|, |cols|;
    for j := 0 to m
      invariant forall k :: 0 <= k < j ==> ColumnCheck(f, cols[k]).None?
      invariant forall i, k :: 0 <= i < n && 0 <= k < j ==> table[i, k] == IsOutlier(CellOf(f.rows[i], cols[k]), fenceOf(cols[k]))
      invariant forall i, k :: 0 <= i < n && j <= k < m ==> !table[i, k]
    {
      var check := ColumnCheck(f, cols[j]);
      if check.Some? {
        FirstErrorAt(f, cols, j);
        return check;
      }
      WriteColumn(table, j, f.rows, cols[j], fenceOf(cols[j]));
    }
    FirstErrorSpec(f, cols);
    return None;
  }

  /** `IQROutlierDetectionStrategy.detect_outliers`: allocates an all-false table and
      overwrites one column of it per selected column, each against that column's
      IQR fence. */
  method DetectOutliers(f: Frame, cols: seq<string>) returns (r: Result<array2<bool>, Error>)
    ensures r.Err? <==> FlagTable(f, cols).Err?
    ensures r.Err? ==> r.error == FlagTable(f, cols).error
    ensures r.Ok? ==> fresh(r.value)
    ensures r.Ok? ==> r.value.Length0 == |f.rows| && r.value.Length1 == |cols|
    ensures r.Ok? ==> forall i, j :: 0 <= i < |f.rows| && 0 <= j < |cols| ==>
      r.value[i, j] == FlagTable(f, cols).value[i][j]
  {
    var table := new bool[|f.rows|, |cols|]((i, j) => false);
    var err := FillFlags(f, cols, c => ColumnFence(f.rows, c), table);
    if err.Some? {
      return Err(err.value);
    }
    FirstErrorSpec(f, cols);
    forall i, j | 0 <= i < |f.rows| && 0 <= j < |cols|
      ensures table[i, j] == FlagTable(f, cols).value[i][j]
    {
      FlagTableAt(f, cols, i, j);
    }
    r := Ok(table);
  }

  /** `OutlierDetector.handle_outliers`: keeps, in order, the rows flagged in fewer
      than two selected columns. `methodArg` stands for the `method` argument, which the source accepts and ignores. */
  function HandleOutliers(f: Frame, cols: seq<string>, methodArg: string): (r: Result<Frame, Error>)
    ensures r.Err? <==> FlagTable(f, cols).Err?
    ensures r.Err? ==> r.error == FlagTable(f, cols).error
    ensures r.Ok? ==> r.value.columns == f.columns && |r.value.rows| <= |f.rows|
  {
    match FlagTable(f, cols)
    case Err(e) => Err(e)
    case Ok(table) => Ok(Frame(f.columns, Select(f.rows, Survivors(table))))
  }

  /** The mask `~(outliers.sum(axis=1) >= 2)` of a flag table: a row survives when
      fewer than two of its entries are flagged. */
  function Survivors(table: seq<seq<bool>>): (mask: seq<bool>)
    ensures |mask| == |table|
    ensures forall i :: 0 <= i < |table| ==> (mask[i] <==> |Flagged(table[i])| < 2)
  {
    seq(|table|, i requires 0 <= i < |table| => Count(table[i]) < 2)
  }
}
