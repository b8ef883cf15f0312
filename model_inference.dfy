/** The inference service `ModelInference`: it holds the encoder tables loaded from
    disk and turns one customer record into a churn prediction. The record passes
    through the encoders, credit-score binning, ordinal encoding and the identifier
    drop, in that order. Binning, ordinal encoding and the trained model belong to
    other modules, so they are supplied as functions. */
module Inference {
  import opened Values
  import opened EncoderFiles

  /** The columns `preprocess_input` drops, in the order it names them. */
  const Identifiers: seq<string> := ["RowNumber", "CustomerId", "Firstname", "Lastname"]

  /** The trained classifier: `predict` gives the class of a preprocessed record and
      `predict_proba[:, 1]` the probability of class 1; either call may raise (a
      record whose columns the model was not fitted on, say). */
  datatype Model = Model(predictClass: Row -> Result<int, Error>, predictProba: Row -> Result<real, Error>)

  /** The dictionary `predict` returns: `Status` and the confidence in percent. */
  datatype Prediction = Prediction(status: string, confidence: real)

  /** `Series.map(table)` on one cell: a category the table knows becomes its code;
      anything else, an unknown category, a number or a missing value, becomes NaN. */
  function Mapped(v: Value, table: CodeTable): (r: Value)
    ensures r.Missing? <==> !(v.Text? && v.s in table)
    ensures v.Text? && v.s in table ==> r == Num(table[v.s] as real)
  {
    match v
    case Text(s) => if s in table then Num(table[s] as real) else Missing
    case _ => Missing
  }

  /** `data[col] = data[col].map(table)` on the one-record frame. */
  function EncodeColumn(d: Row, c: string, table: CodeTable): (r: Result<Row, Error>)
    ensures r.Err? <==> c !in d
    ensures r.Err? ==> r.error == KeyError([c])
    ensures r.Ok? ==> r.value.Keys == d.Keys && r.value[c] == Mapped(d[c], table)
    ensures r.Ok? ==> forall k :: k in d && k != c ==> r.value[k] == d[k]
  {
    if c !in d then Err(KeyError([c])) else Ok(d[c := Mapped(d[c], table)])
  }

  /** The encoding loop over the first columns of the table's insertion order. */
  function EncodeColumns(cols: seq<string>, encoders: map<string, CodeTable>, d: Row): (r: Result<Row, Error>)
    requires forall c :: c in cols ==> c in encoders
    ensures r.Ok? ==> r.value.Keys == d.Keys
    decreases |cols|
  {
    if cols == [] then
      Ok(d)
    else
      var n := |cols| - 1;
      match EncodeColumns(cols[..n], encoders, d)
      case Err(e) => Err(e)
      case Ok(prefix) => EncodeColumn(prefix, cols[n], encoders[cols[n]])
  }

  /** Once a column is missing, the loop raises and later columns do not matter. */
  lemma {:induction false} EncodeErrorStops(cols: seq<string>, encoders: map<string, CodeTable>, d: Row, i: nat)
    requires i <= |cols| && forall c :: c in cols ==> c in encoders
    requires EncodeColumns(cols[..i], encoders, d).Err?
    ensures EncodeColumns(cols, encoders, d) == EncodeColumns(cols[..i], encoders, d)
    decreases |cols| - i
  {
    if i < |cols| {
      var n := |cols| - 1;
      assert cols[..n][..i] == cols[..i];
      EncodeErrorStops(cols[..n], encoders, d, i);
    } else {
      assert cols[..i] == cols;
    }
  }

  /** `e` is the `KeyError` of the first of `cols` that `d` lacks. */
  predicate FirstMissing(cols: seq<string>, d: Row, e: Error)
  {
    exists j :: 0 <= j < |cols| && cols[j] !in d && e == KeyError([cols[j]]) && forall k :: 0 <= k < j ==> cols[k] in d
  }

  /** The encoding loop raises exactly when the record lacks an encoded column, and
      then with the `KeyError` of the first such column. */
  lemma EncodeColumnsError(cols: seq<string>, encoders: map<string, CodeTable>, d: Row)
    requires forall c :: c in cols ==> c in encoders
    ensures EncodeColumns(cols, encoders, d).Err? <==> exists j :: 0 <= j < |cols| && cols[j] !in d
    ensures EncodeColumns(cols, encoders, d).Err? ==> FirstMissing(cols, d, EncodeColumns(cols, encoders, d).error)
  {
    if EncodeColumns(cols, encoders, d).Ok? {
      EncodeColumnsPresent(cols, encoders, d);
    } else {
      EncodeColumnsFirstMissing(cols, encoders, d);
    }
  }

  /** A completed encoding loop found every encoded column in the record. */
  lemma {:induction false} EncodeColumnsPresent(cols: seq<string>, encoders: map<string, CodeTable>, d: Row)
    requires forall c :: c in cols ==> c in encoders
    requires EncodeColumns(cols, encoders, d).Ok?
    ensures forall j :: 0 <= j < |cols| ==> cols[j] in d
    decreases |cols|
  {
    if cols != [] {
      var n := |cols| - 1;
      var init := cols[..n];
      assert forall c :: c in init ==> c in cols;
      EncodeColumnsPresent(init, encoders, d);
      assert forall j :: 0 <= j < n ==> cols[j] == init[j];
    }
  }

  /** A failed encoding loop reports the first encoded column the record lacks. */
  lemma {:induction false} EncodeColumnsFirstMissing(cols: seq<string>, encoders: map<string, CodeTable>, d: Row)
    requires forall c :: c in cols ==> c in encoders
    requires EncodeColumns(cols, encoders, d).Err?
    ensures FirstMissing(cols, d, EncodeColumns(cols, encoders, d).error)
    decreases |cols|
  {
    var n := |cols| - 1;
    var init := cols[..n];
    assert forall c :: c in init ==> c in cols;
    assert forall j :: 0 <= j < n ==> cols[j] == init[j];
    match EncodeColumns(init, encoders, d)
    case Err(e) =>
      EncodeColumnsFirstMissing(init, encoders, d);
      var j :| 0 <= j < |init| && init[j] !in d && e == KeyError([init[j]]) && forall k :: 0 <= k < j ==> init[k] in d;
      assert cols[j] == init[j];
    case Ok(prefix) =>
      EncodeColumnsPresent(init, encoders, d);
      assert cols[n] !in d;
  }

  /** A completed encoding loop over distinct columns replaces each encoded column by
      its mapped value and leaves every other column as it was. */
  lemma {:induction false} EncodeColumnsValues(cols: seq<string>, encoders: map<string, CodeTable>, d: Row)
    requires Distinct(cols) && forall c :: c in cols ==> c in encoders
    requires EncodeColumns(cols, encoders, d).Ok?
    ensures var r := EncodeColumns(cols, encoders, d).value;
      && r.Keys == d.Keys
      && (forall j :: 0 <= j < |cols| ==> cols[j] in d && r[cols[j]] == Mapped(d[cols[j]], encoders[cols[j]]))
      && (forall k :: k in d && k !in cols ==> r[k] == d[k])
    decreases |cols|
  {
    if cols != [] {
      var n := |cols| - 1;
      var init := cols[..n];
      assert forall c :: c in init ==> c in cols;
      EncodeColumnsValues(init, encoders, d);
      var prefix := EncodeColumns(init, encoders, d).value;
      var r := EncodeColumns(cols, encoders, d).value;
      assert r == prefix[cols[n] := Mapped(prefix[cols[n]], encoders[cols[n]])];
      forall j | 0 <= j < |cols| ensures cols[j] in d && r[cols[j]] == Mapped(d[cols[j]], encoders[cols[j]]) {
        if j < n {
          assert cols[j] == init[j] && cols[j] != cols[n];
        }
      }
      forall k | k in d && k !in cols ensures r[k] == d[k] {
        assert k !in init && k != cols[n];
      }
    }
  }

  /** The labels of `Identifiers` that the record lacks, in the same order. */
  function Absent(labels: seq<string>, d: Row): (r: seq<string>)
    ensures forall l :: l in r <==> l in labels && l !in d
  {
    if labels == [] then []
    else (if labels[0] in d then [] else [labels[0]]) + Absent(labels[1..], d)
  }

  /** `data.drop(columns=['RowNumber', 'CustomerId', 'Firstname', 'Lastname'])`:
      raises `KeyError` naming every absent identifier, otherwise removes the four
      and keeps every other column unchanged. */
  function DropIdentifiers(d: Row): (r: Result<Row, Error>)
    ensures r.Err? <==> exists l :: l in Identifiers && l !in d
    ensures r.Err? ==> r.error == KeyError(Absent(Identifiers, d))
    ensures r.Ok? ==> forall l :: l in Identifiers ==> l !in r.value
    ensures r.Ok? ==> forall k :: k in r.value <==> k in d && k !in Identifiers
    ensures r.Ok? ==> forall k :: k in r.value ==> r.value[k] == d[k]
  {
    var absent := Absent(Identifiers, d);
    if absent != [] then
      assert absent[0] in absent;
      Err(KeyError(absent))
    else
      assert forall l :: l in Identifiers ==> l in d;
      Ok(d - {"RowNumber", "CustomerId", "Firstname", "Lastname"})
  }

  /** The whole of `preprocess_input` on one record: the encoding loop over `cols`
      (the table's keys in insertion order), then binning, then ordinal encoding,
      then the identifier drop; the first step that raises ends it. Whatever binning
      and ordinal encoding do, a record that comes out holds no identifier column. */
  function Preprocess(cols: seq<string>, encoders: map<string, CodeTable>, binning: Row -> Result<Row, Error>,
                      ordinal: Row -> Result<Row, Error>, data: Row): (r: Result<Row, Error>)
    requires forall c :: c in cols ==> c in encoders
    ensures r.Ok? ==> forall l :: l in Identifiers ==> l !in r.value
  {
    match EncodeColumns(cols, encoders, data)
    case Err(e) => Err(e)
    case Ok(encoded) =>
      match binning(encoded)
      case Err(e) => Err(e)
      case Ok(binned) =>
        match ordinal(binned)
        case Err(e) => Err(e)
        case Ok(ranked) => DropIdentifiers(ranked)
  }

  /** The steps run in order: a record that lacks an encoded column raises that
      column's `KeyError` before binning or ordinal encoding is consulted. */
  lemma EncodingComesFirst(cols: seq<string>, encoders: map<string, CodeTable>, binning: Row -> Result<Row, Error>,
                           ordinal: Row -> Result<Row, Error>, data: Row, j: int)
    requires forall c :: c in cols ==> c in encoders
    requires 0 <= j < |cols| && cols[j] !in data && forall k :: 0 <= k < j ==> cols[k] in data
    ensures Preprocess(cols, encoders, binning, ordinal, data) == Err(KeyError([cols[j]]))
  {
    EncodeColumnsError(cols, encoders, data);
    var e := EncodeColumns(cols, encoders, data).error;
    var j' :| 0 <= j' < |cols| && cols[j'] !in data && e == KeyError([cols[j']]) && forall k :: 0 <= k < j' ==> cols[k] in data;
    assert j' == j;
  }

  /** `"Churn" if Y_pred == 1 else "Retain"`. */
  function Status(predicted: int): (s: string)
    ensures s == "Churn" || s == "Retain"
    ensures s == "Churn" <==> predicted == 1
  {
    if predicted == 1 then "Churn" else "Retain"
  }

  /** What `predict` returns for a preprocessed record: `model.predict` runs first,
      so its exception wins; then `model.predict_proba`. The label depends on the
      predicted class only, never on the probability. */
  function Predicted(model: Model, pp: Row): (r: Result<Prediction, Error>)
    ensures r.Err? <==> model.predictClass(pp).Err? || model.predictProba(pp).Err?
    ensures model.predictClass(pp).Err? ==> r.error == model.predictClass(pp).error
    ensures model.predictClass(pp).Ok? && model.predictProba(pp).Err? ==> r.error == model.predictProba(pp).error
    ensures r.Ok? ==> r.value.status == Status(model.predictClass(pp).value)
    ensures r.Ok? ==> (r.value.status == "Churn" <==> model.predictClass(pp).value == 1)
    ensures r.Ok? ==> r.value.confidence == 100.0 * model.predictProba(pp).value
  {
    match model.predictClass(pp)
    case Err(e) => Err(e)
    case Ok(predicted) =>
      match model.predictProba(pp)
      case Err(e) => Err(e)
      case Ok(proba) => Ok(Prediction(Status(predicted), 100.0 * proba))
  }

  class ModelInference {
    const model: Model
    const binCreditScore: Row -> Result<Row, Error>
    const encodeOrdinal: Row -> Result<Row, Error>
    /** `self.encoders`: feature name to code table. */
    var encoders: map<string, CodeTable>
    /** The insertion order of `self.encoders`, which its `items()` follows. */
    var order: seq<string>

    ghost predicate Valid()
      reads this
    {
      Distinct(order) && forall k :: k in order <==> k in encoders
    }

    /** `__init__`: the loaded model and the binning and ordinal steps its
        configuration sets up, with no encoders yet. */
    constructor (model: Model, binning: Row -> Result<Row, Error>, ordinal: Row -> Result<Row, Error>)
      ensures Valid()
      ensures this.model == model && binCreditScore == binning && encodeOrdinal == ordinal
      ensures encoders == map[] && order == []
    {
      this.model := model;
      binCreditScore := binning;
      encodeOrdinal := ordinal;
      encoders := map[];
      order := [];
    }

    /** `load_encoders`: for each listed file, in listing order, stores its table under
        the feature name taken from the file name. */
    method LoadEncoders(files: seq<EncoderFile>)
      requires Valid()
      modifies this
      ensures Valid()
      ensures encoders == Install(old(encoders), files)
      ensures order == InsertionOrder(old(order), files)
    {
      for i := 0 to |files|
        invariant Valid()
        invariant encoders == Install(old(encoders), files[..i])
        invariant order == InsertionOrder(old(order), files[..i])
      {
        var name := FeatureName(files[i].0);
        assert files[..i + 1][..i] == files[..i];
        if name !in encoders {
          order := order + [name];
        }
        encoders := encoders[name := files[i].1];
      }
      assert files[..|files|] == files;
    }

    /** `preprocess_input`: rewrites each encoded column in turn, then bins, ordinally
        encodes and drops the identifiers. */
    method PreprocessInput(data: Row) returns (r: Result<Row, Error>)
      requires Valid()
      ensures r == Preprocess(order, encoders, binCreditScore, encodeOrdinal, data)
    {
      var d := data;
      for i := 0 to |order|
        invariant EncodeColumns(order[..i], encoders, data) == Ok(d)
      {
        var col := order[i];
        assert order[..i + 1][..i] == order[..i];
        if col !in d {
          EncodeErrorStops(order, encoders, data, i + 1);
          return Err(KeyError([col]));
        }
        d := d[col := Mapped(d[col], encoders[col])];
      }
      assert order[..|order|] == order;
      var binned := binCreditScore(d);
      if binned.Err? {
        return Err(binned.error);
      }
      var ranked := encodeOrdinal(binned.value);
      if ranked.Err? {
        return Err(ranked.error);
      }
      r := DropIdentifiers(ranked.value);
    }

    /** `predict`: the status and confidence for one record, or the exception its
        preprocessing or the model raised, in that order. */
    method Predict(data: Row) returns (r: Result<Prediction, Error>)
      requires Valid()
      ensures var pp := Preprocess(order, encoders, binCreditScore, encodeOrdinal, data);
        r == if pp.Err? then Err(pp.error) else Predicted(model, pp.value)
    {
      var pp := PreprocessInput(data);
      if pp.Err? {
        return Err(pp.error);
      }
      ghost var expected := Predicted(model, pp.value);
      var predicted := model.predictClass(pp.value);
      if predicted.Err? {
        assert expected == Err(predicted.error);
        return Err(predicted.error);
      }
      var proba := model.predictProba(pp.value);
      if proba.Err? {
        assert expected == Err(proba.error);
        return Err(proba.error);
      }
      r := Ok(Prediction(Status(predicted.value), 100.0 * proba.value));
      assert r == expected;
    }
  }

  /** Before any encoder is loaded, the encoding loop does nothing: categorical
      values reach binning as they came. */
  lemma FreshInstanceSkipsEncoding(binning: Row -> Result<Row, Error>, ordinal: Row -> Result<Row, Error>, data: Row)
    ensures Preprocess([], map[], binning, ordinal, data) ==
      match binning(data)
      case Err(e) => Err(e)
      case Ok(binned) =>
        match ordinal(binned)
        case Err(e) => Err(e)
        case Ok(ranked) => DropIdentifiers(ranked)
  {
  }
}
