/** How `ModelInference.load_encoders` turns a directory of `<feature>_encoder.json`
    files into its encoder table: the feature name taken from each file name, and the
    table after each file is installed in listing order. */
module EncoderFiles {

  /** The separator `load_encoders` splits file names on. */
  const Separator: string := "_encoder.json"

  /** A code table read from one encoder file: category to integer code. */
  type CodeTable = map<string, int>

  /** One listed file: its name and the table its JSON content holds. */
  type EncoderFile = (string, CodeTable)

  predicate Distinct(s: seq<string>)
  {
    forall i, j :: 0 <= i < j < |s| ==> s[i] != s[j]
  }

  /** `sep` occurs in `s` starting at index `i`. */
  predicate OccursAt(s: string, i: nat, sep: string)
  {
    i + |sep| <= |s| && s[i..i + |sep|] == sep
  }

  /** `sep` occurs somewhere in `s`. */
  predicate Contains(s: string, sep: string)
  {
    exists i: nat :: i <= |s| && OccursAt(s, i, sep)
  }

  /** The first index at or after `i` where `sep` occurs in `s`, or `|s|` if none. */
  function FirstOccurrence(s: string, sep: string, i: nat): (k: nat)
    requires i <= |s|
    ensures i <= k <= |s|
    ensures forall j :: i <= j < k ==> !OccursAt(s, j, sep)
    ensures k < |s| ==> OccursAt(s, k, sep)
    decreases |s| - i
  {
    if i == |s| then |s|
    else if OccursAt(s, i, sep) then i
    else FirstOccurrence(s, sep, i + 1)
  }

  /** `file.split("_encoder.json")[0]`: the part of the file name before the first
      separator, or the whole name when it holds none. */
  function FeatureName(file: string): (name: string)
    ensures name <= file
    ensures forall j :: 0 <= j < |name| ==> !OccursAt(file, j, Separator)
    ensures |name| < |file| ==> OccursAt(file, |name|, Separator)
  {
    file[..FirstOccurrence(file, Separator, 0)]
  }

  /** A name without the separator is its own feature name. */
  lemma FeatureNameWhole(file: string)
    requires !Contains(file, Separator)
    ensures FeatureName(file) == file
  {
  }

  /** The separator cannot overlap the end of a name it is appended to, because its
      only underscore is its first character. */
  lemma NoOverlap(n: string, j: nat)
    requires j < |n| && !Contains(n, Separator)
    ensures !OccursAt(n + Separator, j, Separator)
  {
    var s := n + Separator;
    if j + |Separator| <= |n| {
      assert s[j..j + |Separator|] == n[j..j + |Separator|];
      assert !OccursAt(n, j, Separator);
    } else if j + |Separator| <= |s| {
      var k := |n| - j;
      assert s[j..j + |Separator|][k] == s[|n|] == '_';
      assert Separator[k] != '_';
    }
  }

  /** Round trip: the file `<name>_encoder.json` written for a feature whose name does
      not contain the separator is read back under that same name. */
  lemma FeatureNameRoundTrip(n: string)
    requires !Contains(n, Separator)
    ensures FeatureName(n + Separator) == n
  {
    var s := n + Separator;
    assert s[|n|..|n| + |Separator|] == Separator;
    assert OccursAt(s, |n|, Separator);
    forall j | 0 <= j < |n| ensures !OccursAt(s, j, Separator) {
      NoOverlap(n, j);
    }
    var k := FirstOccurrence(s, Separator, 0);
    assert k == |n|;
  }

  /** A feature name holds no separator, so taking it twice changes nothing. */
  lemma FeatureNameIdempotent(file: string)
    ensures FeatureName(FeatureName(file)) == FeatureName(file)
  {
    var name := FeatureName(file);
    forall i: nat | OccursAt(name, i, Separator) ensures false {
      assert name[i..i + |Separator|] == file[i..i + |Separator|];
      assert OccursAt(file, i, Separator);
    }
    FeatureNameWhole(name);
  }

  /** The feature names of the listed files, in listing order. */
  function Names(files: seq<EncoderFile>): (names: seq<string>)
    ensures |names| == |files|
  {
    seq(|files|, i requires 0 <= i < |files| => FeatureName(files[i].0))
  }

  /** The encoder table after `self.encoders[feature_name] = json.load(f)` has run for
      every listed file in turn. */
  function Install(encoders: map<string, CodeTable>, files: seq<EncoderFile>): (r: map<string, CodeTable>)
    ensures encoders.Keys <= r.Keys
    decreases |files|
  {
    if files == [] then
      encoders
    else
      var n := |files| - 1;
      Install(encoders, files[..n])[FeatureName(files[n].0) := files[n].1]
  }

  /** The insertion order of the table's keys after the same loop: a new feature is
      appended, an overwritten one keeps its place, as in a Python dict, so the keys
      already present keep their places in front. */
  function InsertionOrder(order: seq<string>, files: seq<EncoderFile>): (r: seq<string>)
    ensures order <= r && |r| <= |order| + |files|
    decreases |files|
  {
    if files == [] then
      order
    else
      var n := |files| - 1;
      var before := InsertionOrder(order, files[..n]);
      var name := FeatureName(files[n].0);
      if name in before then before else before + [name]
  }

  /** Loading adds a key for each listed file and removes none. */
  lemma {:induction false} InstallKeys(encoders: map<string, CodeTable>, files: seq<EncoderFile>)
    ensures forall k :: k in Install(encoders, files) <==> k in encoders || k in Names(files)
    decreases |files|
  {
    if files != [] {
      var n := |files| - 1;
      InstallKeys(encoders, files[..n]);
      assert Names(files) == Names(files[..n]) + [FeatureName(files[n].0)];
    }
  }

  /** A feature that no listed file names keeps its table. */
  lemma {:induction false} InstallKeepsOthers(encoders: map<string, CodeTable>, files: seq<EncoderFile>, k: string)
    requires k in encoders && k !in Names(files)
    ensures k in Install(encoders, files) && Install(encoders, files)[k] == encoders[k]
    decreases |files|
  {
    if files != [] {
      var n := |files| - 1;
      assert Names(files) == Names(files[..n]) + [FeatureName(files[n].0)];
      InstallKeepsOthers(encoders, files[..n], k);
    }
  }

  /** When several files name the same feature, the last one listed wins. */
  lemma {:induction false} InstallLastWins(encoders: map<string, CodeTable>, files: seq<EncoderFile>, i: int)
    requires 0 <= i < |files|
    requires forall j :: i < j < |files| ==> Names(files)[j] != Names(files)[i]
    ensures FeatureName(files[i].0) in Install(encoders, files)
    ensures Install(encoders, files)[FeatureName(files[i].0)] == files[i].1
    decreases |files|
  {
    var n := |files| - 1;
    if i < n {
      forall j | i < j < n ensures Names(files[..n])[j] != Names(files[..n])[i] {
        assert Names(files)[j] != Names(files)[i];
      }
      InstallLastWins(encoders, files[..n], i);
      assert Names(files)[n] != Names(files)[i];
    }
  }

  /** The insertion order keeps listing exactly the table's keys, once each. */
  lemma {:induction false} OrderTracksKeys(order: seq<string>, encoders: map<string, CodeTable>, files: seq<EncoderFile>)
    requires Distinct(order) && forall k :: k in order <==> k in encoders
    ensures Distinct(InsertionOrder(order, files))
    ensures forall k :: k in InsertionOrder(order, files) <==> k in Install(encoders, files)
    decreases |files|
  {
    if files != [] {
      var n := |files| - 1;
      OrderTracksKeys(order, encoders, files[..n]);
    }
  }
}
