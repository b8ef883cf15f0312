/** Cells, rows and errors shared by the outlier filter and the inference service.
    A pandas frame cell holds a number, a string or a missing value (NaN); numbers
    are exact reals here, so no floating-point rounding is modelled. */
module Values {

  datatype Option<+T> = None | Some(value: T)

  datatype Result<+T, +E> = Ok(value: T) | Err(error: E)

  /** One cell of a frame. `Missing` is pandas' NaN / None. */
  datatype Value = Missing | Num(x: real) | Text(s: string)

  /** One record: column name to cell. */
  type Row = map<string, Value>

  /** The exceptions the modelled code can raise. */
  datatype Error =
    | KeyError(labels: seq<string>)  // columns indexed or dropped that the frame lacks
    | TypeError(column: string)       // a quantile asked of a column that holds text
    | Raised(message: string)         // raised inside a collaborator (binning, encoding, model)

  /** The cell of `row` in column `c`; a record without that column reads as NaN,
      as when pandas builds a frame from records with differing keys. */
  function CellOf(row: Row, c: string): Value
  {
    if c in row then row[c] else Missing
  }
}
