# Churn pipeline: IQR outlier filter and inference preprocessing

This project models two parts of a customer-churn pipeline and proves properties of them.

**The IQR outlier filter** (`src/outlier_detection.py`).
- `IQROutlierDetectionStrategy.detect_outliers` allocates an all-false flag table with one row per frame row and one column per selected column.
- For each selected column in turn, it takes pandas' linearly interpolated quartiles Q1 and Q3 over the column's non-missing values.
- It flags every value strictly below Q1 − 1.5·IQR or strictly above Q3 + 1.5·IQR.
- `OutlierDetector.handle_outliers` removes the rows flagged in two or more selected columns and keeps the rest, in order.

**The inference service `ModelInference`** (`src/model_inference.py`).
- The object holds a table of category encoders. `load_encoders` fills it from `<feature>_encoder.json` files.
- `preprocess_input` turns one customer record into model input:
  1. each encoded column goes through its code table;
  2. the credit score is binned;
  3. ordinal encoding is applied;
  4. the four identifier columns are dropped.
- `predict` labels the record "Churn" or "Retain" from the model's predicted class.

Modules:

- `Values` (values.dfy): frame cells (a number, a string or missing), records and the exceptions raised.
- `Sequences` (sequences.dfy): insertion sort, the order-preserving selection `df[mask]`, and the permutation lemmas both need.
- `Quantiles` (quantiles.dfy): pandas' default `Series.quantile`, computed on exact reals.
  - The position is h = (n − 1)·q.
  - The result interpolates between the sorted values at ⌊h⌋ and ⌊h⌋ + 1.
- `OutlierDetection` (outlier_detection.dfy): the filter itself.
  - `DetectOutliers` is the imperative loop over a freshly allocated `array2<bool>`.
  - It is proved against the specification function `FlagTable`.
- `OutlierProperties` (outlier_properties.dfy): the flag rule, which rows are kept, independence of row order, and locality to a column.
- `OutlierExample` (outlier_example.dfy): worked examples, including the Age column [10, 12, 11, 13, 100] with fence [8, 16].
- `EncoderFiles` (encoder_files.dfy): the feature name taken from a file name, and the encoder table after each listed file is installed.
- `Inference` (model_inference.dfy): the class `ModelInference`.
  - Its fields are the encoder map and its insertion order.
  - Its `LoadEncoders`, `PreprocessInput` and `Predict` methods are proved against the functions `Install`, `InsertionOrder` and `Preprocess`.

Modelling choices:

- A frame is its set of column labels plus its rows in index order.
- A row is a map from column name to cell. A row without a column reads as missing, as pandas fills NaN.
- Selecting a column the frame lacks raises `KeyError`.
- Taking the quantile of a column that holds a string raises `TypeError`.
- A column with no non-missing values has NaN quartiles, and every comparison against NaN is false. The model gives such a column no fence and flags nothing in it.
- Python's dict keeps insertion order, and `self.encoders.items()` follows it. The class therefore keeps the order beside the map.
  - A new feature is appended to the order.
  - An overwritten feature keeps its place.
  - This order decides which missing column the encoding loop reports first.

Two behaviours of the code worth knowing:

- A category that an encoder's table lacks becomes a missing value, because `Series.map` with a dict maps unknown keys to NaN. Nothing raises for it.
- The label is "Churn" exactly when the predicted class is 1. The probability is only reported, never compared with a threshold.

## Model

| member | source | states |
|---|---|---|
| Quantiles.Quantile | src/outlier_detection.py:20-21 | pandas' linear quantile of sorted values lies between the smallest and the largest value; the interpolated value at a fractional position is pinned by `OutlierExample.QuartilesOfFour` |
| Quantiles.QuantileNeighbours | src/outlier_detection.py:20-21 | the quantile lies between the two sorted values at positions ⌊(n−1)q⌋ and ⌊(n−1)q⌋+1 that it interpolates |
| Quantiles.QuartilesOrdered | src/outlier_detection.py:20-22 | Q1 ≤ Q3 for every sorted column, so the IQR is never negative |
| Quantiles.Quartiles | src/outlier_detection.py:20-21 | quartiles exist exactly when the column has a value; Q1 ≤ Q3; some value is ≤ Q1 and some value is ≥ Q3 |
| Quantiles.QuartilesPermutation | src/outlier_detection.py:20-21 | the quartiles depend only on the multiset of values, not on their order |
| Sequences.Insert | src/outlier_detection.py:20 | inserting into a sorted sequence keeps it sorted and adds exactly that one element |
| Sequences.SortedOf | src/outlier_detection.py:20 | the sort used by the quantile is sorted and a permutation of its input |
| Sequences.SortedUnique | src/outlier_detection.py:20 | two sorted permutations of the same values are equal |
| Sequences.SortedOfPermutation | src/outlier_detection.py:20-21 | rearranged inputs sort to the same sequence |
| Sequences.Count | src/outlier_detection.py:39 | the number of flags of a row (`outliers.sum(axis=1)`) is at most its length, and zero exactly when no entry is flagged |
| Sequences.Flagged | src/outlier_detection.py:39 | the set of a row's flagged positions has exactly as many members as the row's summed flags |
| Sequences.Select | src/outlier_detection.py:41 | `df[mask]` returns as many rows as the mask has true entries |
| Sequences.Kept | src/outlier_detection.py:41 | the indices a mask keeps are ascending, in range, and are exactly those where the mask holds |
| Sequences.SelectKept | src/outlier_detection.py:41 | `df[mask]` is the input read at the kept indices, in ascending order |
| Sequences.SelectAll | src/outlier_detection.py:41 | a mask that keeps every row returns the input unchanged |
| Sequences.SelectCount | src/outlier_detection.py:41 | selection by a per-row property keeps every copy of a satisfying row and drops every copy of the others |
| Sequences.SelectPermutation | src/outlier_detection.py:41 | selecting by a per-row property commutes with rearranging the rows |
| OutlierDetection.Observed | src/outlier_detection.py:20-21 | the values a quantile reads number at most one per row |
| OutlierDetection.IsOutlier | src/outlier_detection.py:25 | only a number can be flagged, only against a fence, and never when it lies on or inside the fence |
| OutlierDetection.HasTextSpec | src/outlier_detection.py:20 | a column holds text iff some row's cell in it is a string |
| OutlierDetection.ColumnCheck | src/outlier_detection.py:20 | a column the frame lacks raises `KeyError` naming it; a present column raises nothing exactly when no row holds a string in it, and `TypeError` otherwise |
| OutlierDetection.FirstError | src/outlier_detection.py:19-21 | detection raises only a `KeyError` or a `TypeError` about one of the selected columns |
| OutlierDetection.IqrFence | src/outlier_detection.py:22-24 | the fence [Q1 − 1.5·IQR, Q3 + 1.5·IQR] encloses [Q1, Q3] |
| OutlierDetection.FenceOf | src/outlier_detection.py:20-24 | a column gets a fence exactly when it has at least one non-missing value |
| OutlierDetection.FirstErrorSpec | src/outlier_detection.py:19-21 | no exception exactly when every selected column exists and holds no text; otherwise the exception of the earliest column that fails |
| OutlierDetection.FirstErrorAt | src/outlier_detection.py:19-21 | the first failing column in loop order decides the exception |
| OutlierDetection.FlagTable | src/outlier_detection.py:18 | the flag table has one row per input row and one entry per selected column |
| OutlierDetection.FlagTableAt | src/outlier_detection.py:25 | entry (i, j) is the flag of row i's cell in column j against that column's fence |
| OutlierDetection.FlagTableAll | src/outlier_detection.py:18-25 | when every column can be read, the table exists and every entry is that cell's flag |
| OutlierDetection.WriteColumn | src/outlier_detection.py:25 | writing column j sets every row's flag in j and leaves every other column as it was |
| OutlierDetection.FillFlags | src/outlier_detection.py:19-25 | the loop stops with the first column's exception; otherwise every entry of the table holds its cell's flag |
| OutlierDetection.DetectOutliers | src/outlier_detection.py:17-27 | returns a fresh table with one row per input row and one column per selected column, equal entry by entry to `FlagTable`, or raises exactly its exception |
| OutlierDetection.HandleOutliers | src/outlier_detection.py:37-41 | raises exactly when detection raises, with the same exception; keeps the column labels and never adds rows |
| OutlierDetection.Survivors | src/outlier_detection.py:39-40 | the keep mask holds for a row exactly when the set of its flagged positions has fewer than two members |
| OutlierProperties.FlagRule | src/outlier_detection.py:22-25 | a cell is flagged iff it is a number strictly below Q1 − 1.5·IQR or strictly above Q3 + 1.5·IQR of its column, so values on a bound are not flagged; missing cells are never flagged |
| OutlierProperties.InterQuartileNeverFlagged | src/outlier_detection.py:20-25 | a number between its column's Q1 and Q3 is never flagged |
| OutlierProperties.MissingIgnored | src/outlier_detection.py:20-21 | removing a row whose cell is missing leaves the values the quartiles are taken over unchanged |
| OutlierProperties.HandleOutliersKeeps | src/outlier_detection.py:38-41 | the result is the input rows, unchanged, at ascending indices; a row is kept iff it is flagged in fewer than two selected columns |
| OutlierProperties.FewColumnsKeepAll | src/outlier_detection.py:37-41 | with fewer than two selected columns nothing is removed, whatever the `method` argument |
| OutlierProperties.ObservedSpec | src/outlier_detection.py:20-21 | a number is among the values a quantile reads exactly when some row holds it in the column |
| OutlierProperties.ObservedAppend | src/outlier_detection.py:20-21 | the values of a column of concatenated frames are the concatenation of their values |
| OutlierProperties.ObservedSplit | src/outlier_detection.py:20-21 | taking one row out takes its value, if it has one, out of the column's values |
| OutlierProperties.ObservedPermutation | src/outlier_detection.py:20-21 | rearranging rows rearranges the column's values |
| OutlierProperties.FencePermutation | src/outlier_detection.py:19-24 | rearranging rows leaves every column's fence unchanged |
| OutlierProperties.HasTextPermutation | src/outlier_detection.py:20 | rearranging rows does not change whether a column raises `TypeError` |
| OutlierProperties.FirstErrorAgrees | src/outlier_detection.py:19-21 | frames whose columns fail alike raise the same exception |
| OutlierProperties.RowOrderIrrelevant | src/outlier_detection.py:18-41 | frames with the same rows in any order raise alike, flag every row alike, and keep the same rows |
| OutlierProperties.ColumnLocalRows | src/outlier_detection.py:20-21 | rows that agree on column c give the same values and the same text check for c |
| OutlierProperties.ColumnLocal | src/outlier_detection.py:19-25 | a column's exception and flags depend only on that column's cells |
| OutlierExample.ObservedNumbers | src/outlier_detection.py:20-21 | a column holding a number in every row reads as exactly those numbers and holds no text |
| OutlierExample.QuantileAtIndex | src/outlier_detection.py:20-21 | a quantile at a whole-number position k is the k-th smallest value |
| OutlierExample.QuartilesOfFive | src/outlier_detection.py:20-21 | over five values Q1 and Q3 are the second and fourth smallest |
| OutlierExample.QuartilesOfFour | src/outlier_detection.py:20-21 | over four values the quartiles are interpolated linearly at positions 0.75 and 2.25: Q1 = 0.25·s[0] + 0.75·s[1] and Q3 = 0.75·s[2] + 0.25·s[3] of the sorted values |
| OutlierExample.QuartilesOneToFour | src/outlier_detection.py:20-21 | 1, 2, 3 and 4 in any order have Q1 = 1.75 and Q3 = 3.25 |
| OutlierExample.AgeQuartiles | src/outlier_detection.py:20-21 | 10, 11, 12, 13 and 100 in any order have Q1 = 11 and Q3 = 13 |
| OutlierExample.AgeFence | src/outlier_detection.py:20-24 | the column [10, 12, 11, 13, 100] has fence [8, 16] |
| OutlierExample.BalanceFence | src/outlier_detection.py:20-24 | 1, 2, 3, 4 and 100 in any order have fence [−1, 7] |
| OutlierExample.NumericColumnReadable | src/outlier_detection.py:19-21 | a present column holding only numbers raises nothing |
| OutlierExample.TwoColumnsReadable | src/outlier_detection.py:18-21 | two readable columns give a flag table |
| OutlierExample.TwoColumnRow | src/outlier_detection.py:25 | one row of a two-column table holds the two cells' flags |
| OutlierExample.TwoColumnTable | src/outlier_detection.py:18-25 | the table of two numeric columns with known fences flags exactly the numbers outside them |
| OutlierExample.ExampleFences | src/outlier_detection.py:19-24 | the Age column gets fence [8, 16] and the Balance column [−1, 7] |
| OutlierExample.HandleWithTable | src/outlier_detection.py:38-41 | `handle_outliers` keeps the rows the survivor mask of the flag table keeps |
| OutlierExample.SelectDropLast | src/outlier_detection.py:41 | a mask false only at the last row drops just that row |
| OutlierExample.DropLast | src/outlier_detection.py:39-41 | a table whose only twice-flagged row is the last drops just that row |
| OutlierExample.KeepAll | src/outlier_detection.py:39-41 | a table with no twice-flagged row keeps the frame as it is |
| OutlierExample.SharedOutlierFlags | src/outlier_detection.py:25 | with the 100s in the same row, only that row is flagged, in both columns |
| OutlierExample.SharedSurvivors | src/outlier_detection.py:39-40 | that table removes only its last row |
| OutlierExample.SharedOutlierTable | src/outlier_detection.py:18-25 | the Age column [10, 12, 11, 13, 100] flags only 100; with Balance [1, 2, 3, 4, 100] the last row is flagged twice |
| OutlierExample.SharedOutlierDropped | src/outlier_detection.py:37-41 | that frame loses exactly its last row |
| OutlierExample.DropFlaggedTwice | src/outlier_detection.py:39-41 | a frame with that flag table loses exactly its last row |
| OutlierExample.SeparateOutliersFlags | src/outlier_detection.py:25 | with the 100s in different rows, each of those rows is flagged once |
| OutlierExample.SeparateSurvivors | src/outlier_detection.py:39-40 | that table keeps every row |
| OutlierExample.SeparateOutliersTable | src/outlier_detection.py:18-25 | the flag table of the frame with the outliers in different rows |
| OutlierExample.SeparateOutliersKept | src/outlier_detection.py:37-41 | rows flagged in only one column all survive: the frame is returned unchanged |
| OutlierExample.KeepFlaggedOnce | src/outlier_detection.py:39-41 | a frame with that flag table is returned unchanged |
| EncoderFiles.FirstOccurrence | src/model_inference.py:39 | the first index at or after i where the separator starts, or the end of the name |
| EncoderFiles.FeatureName | src/model_inference.py:39 | the feature name is the prefix of the file name before the first `_encoder.json`, or the whole name when there is none |
| EncoderFiles.FeatureNameWhole | src/model_inference.py:39 | a name without the separator is its own feature name |
| EncoderFiles.NoOverlap | src/model_inference.py:39 | the separator cannot start inside a separator-free name it is appended to |
| EncoderFiles.FeatureNameRoundTrip | src/model_inference.py:39 | the file `<name>_encoder.json` is read back as `name`, for a name free of the separator |
| EncoderFiles.FeatureNameIdempotent | src/model_inference.py:39 | a feature name holds no separator, so taking it again changes nothing |
| EncoderFiles.Install | src/model_inference.py:38-41 | loading never removes a feature already in the table |
| EncoderFiles.InsertionOrder | src/model_inference.py:38-41 | the keys already in the table keep their places in front, and each file adds at most one key |
| EncoderFiles.InstallKeys | src/model_inference.py:38-41 | loading adds a key for each listed file and removes none |
| EncoderFiles.InstallKeepsOthers | src/model_inference.py:38-41 | a feature that no listed file names keeps its table |
| EncoderFiles.InstallLastWins | src/model_inference.py:38-41 | a file's table is stored under its feature name unless a later file names the same feature |
| EncoderFiles.OrderTracksKeys | src/model_inference.py:41 | the insertion order lists exactly the table's keys, once each |
| Inference.Mapped | src/model_inference.py:47 | a cell becomes its category's code when the table knows it, and missing otherwise |
| Inference.EncodeColumn | src/model_inference.py:47 | rewrites one column through its table, keeps every other column, and raises `KeyError` when the record lacks it |
| Inference.EncodeColumns | src/model_inference.py:46-47 | a completed encoding loop keeps the record's set of columns |
| Inference.EncodeErrorStops | src/model_inference.py:46-47 | once a column is missing the loop raises and later encoders are not reached |
| Inference.EncodeColumnsError | src/model_inference.py:46-47 | the loop raises iff the record lacks an encoded column, and then with that first missing column's `KeyError` |
| Inference.EncodeColumnsPresent | src/model_inference.py:46-47 | a completed loop found every encoded column in the record |
| Inference.EncodeColumnsFirstMissing | src/model_inference.py:46-47 | a failed loop reports the first encoded column the record lacks |
| Inference.EncodeColumnsValues | src/model_inference.py:46-47 | every encoded column holds its mapped value and every column with no encoder is untouched |
| Inference.Absent | src/model_inference.py:55 | the identifier labels the record lacks |
| Inference.DropIdentifiers | src/model_inference.py:55 | raises `KeyError` listing the absent identifiers iff one is absent; otherwise removes the four and passes every other column through unchanged |
| Inference.EncodingComesFirst | src/model_inference.py:46-55 | a record lacking an encoded column raises that column's `KeyError` whatever binning and ordinal encoding would do |
| Inference.Preprocess | src/model_inference.py:43-57 | whatever binning and ordinal encoding do, a record that comes out holds no identifier column |
| Inference.FreshInstanceSkipsEncoding | src/model_inference.py:46-47 | with the empty encoder table of a new instance, the record reaches binning unencoded |
| Inference.Status | src/model_inference.py:64 | "Churn" iff the predicted class is 1, otherwise "Retain" |
| Inference.Predicted | src/model_inference.py:61-65 | raises what `model.predict` raises, else what `predict_proba` raises; otherwise the label is `Status` of the class alone ("Churn" iff it is 1) and the confidence is 100 times the class-1 probability |
| Inference.ModelInference.constructor | src/model_inference.py:24-29 | a new instance holds the model and its steps and an empty encoder table |
| Inference.ModelInference.LoadEncoders | src/model_inference.py:37-41 | the encoder table and its key order become `Install` and `InsertionOrder` of the listed files, keeping the order in step with the keys |
| Inference.ModelInference.PreprocessInput | src/model_inference.py:43-57 | the loop over the encoders in insertion order, then binning, ordinal encoding and the drop, equals `Preprocess` |
| Inference.ModelInference.Predict | src/model_inference.py:59-70 | raises what preprocessing raises; otherwise returns `Predicted` of the preprocessed record, model exceptions included |

## Left out

- Floating point: cells are exact reals, and NaN is the `Missing` cell. pandas' float rounding in `quantile` and in the fence arithmetic is not modelled.
- Column types beyond numbers, strings and missing values (booleans, dates, categoricals) are not modelled. A column holding any string raises `TypeError` in the quantile.
- Index labels: a frame keeps its rows in order, but `df[~rows_to_remove]` also keeps the surviving rows' index labels, which are not modelled.
- The strategy interface: `OutlierDetectionStrategy` and `OutlierDetector.__init__` only hold the IQR strategy and forward to it. The model calls the IQR detection directly.
- HandleOutliers: the `method` argument is accepted and ignored. It appears as the unused `methodArg` parameter.
- Logging calls in both files.
- `load_model` and `model_path`: reading the model with `joblib.load` and the `ValueError` for a missing file are file I/O. The loaded model is a constructor parameter instead.
- `get_binning_config`, `get_encoding_config`, `CustomBinningStrategy` and `OrdinalEncodingStrategy` are not part of this model. Binning and ordinal encoding are function fields fixed at construction, and may raise.
- `os.listdir`, `open` and `json.load`: the directory listing is an input sequence of (file name, code table) pairs in listing order. The JSON content is taken to be an object mapping categories to integer codes.
- Inference.Predicted: does not model `round(Y_proba * 100, 2)` or the `f"{Y_proba}%"` formatting. The confidence is the exact percentage, because rounding and string formatting of floats are outside the model.
- `model.predict` and `predict_proba` on the one-row frame are foreign calls. They are the functions `predictClass` and `predictProba` of the `Model` value, and each may return an exception instead of a result.
- The training side (data pipeline, scaling, model building and training) is not part of this model.
