/** Loading the diagnostic dataset, validating its schema and reporting
    data-quality issues.  Parsing the CSV file is a library call: its
    outcome is a parameter. */
module DataLoader {
  import opened Wrappers
  import opened Tables
  import Sequences

  /** The fixed schema the file is read with: an identifier, the diagnosis
      label, and thirty measurements (mean, standard error and worst value
      of ten cell-nucleus features). */
  const ColumnNames: seq<string> := [
    "id", "diagnosis",
    "radius_mean", "texture_mean", "perimeter_mean", "area_mean", "smoothness_mean",
    "compactness_mean", "concavity_mean", "concave_points_mean", "symmetry_mean",
    "fractal_dimension_mean",
    "radius_se", "texture_se", "perimeter_se", "area_se", "smoothness_se",
    "compactness_se", "concavity_se", "concave_points_se", "symmetry_se",
    "fractal_dimension_se",
    "radius_worst", "texture_worst", "perimeter_worst", "area_worst", "smoothness_worst",
    "compactness_worst", "concavity_worst", "concave_points_worst", "symmetry_worst",
    "fractal_dimension_worst"
  ]

  /** The expected column count. */
  const ExpectedColumns: nat := 32

  lemma SchemaShape()
    ensures |ColumnNames| == ExpectedColumns
    ensures ColumnNames[0] == "id" && ColumnNames[1] == "diagnosis"
    ensures forall i, j :: 0 <= i < j < |ColumnNames| ==> ColumnNames[i] != ColumnNames[j]
  {
    NamesDistinctBelow2();
    NamesDistinctFrom2();
    NamesDistinctFrom7();
    NamesDistinctFrom12();
    NamesDistinctFrom22();
  }

  // The 496 pairs of names, in five groups by the position of the first.

  lemma NamesDistinctBelow2()
    ensures forall i, j :: 0 <= i < 2 && i < j < |ColumnNames| ==> ColumnNames[i] != ColumnNames[j]
  {
  }

  lemma NamesDistinctFrom2()
    ensures forall i, j :: 2 <= i < 7 && i < j < |ColumnNames| ==> ColumnNames[i] != ColumnNames[j]
  {
  }

  lemma NamesDistinctFrom7()
    ensures forall i, j :: 7 <= i < 12 && i < j < |ColumnNames| ==> ColumnNames[i] != ColumnNames[j]
  {
  }

  lemma NamesDistinctFrom12()
    ensures forall i, j :: 12 <= i < 22 && i < j < |ColumnNames| ==> ColumnNames[i] != ColumnNames[j]
  {
  }

  lemma NamesDistinctFrom22()
    ensures forall i, j :: 22 <= i < j < |ColumnNames| ==> ColumnNames[i] != ColumnNames[j]
  {
  }

  /** `load_breast_cancer_data`: a missing file is FileNotFoundError; a
      parse failure propagates; an empty table and a table whose column
      count is not 32 are ValueErrors; otherwise the parsed table. */
  function LoadBreastCancerData(fileExists: bool, parsed: Result<Table>): (r: Result<Table>)
    ensures !fileExists ==> r == Err(FileNotFoundError)
    ensures fileExists && parsed.Err? ==> r == parsed
    ensures r.Ok? <==>
      fileExists && parsed.Ok? && !IsEmpty(parsed.value) && |parsed.value.columns| == ExpectedColumns
    ensures r.Ok? ==> r.value == parsed.value
    ensures fileExists && parsed.Ok? && !r.Ok? ==> r == Err(ValueError)
  {
    if !fileExists then Err(FileNotFoundError)
    else
      var df :- parsed;
      if IsEmpty(df) then Err(ValueError)
      else if |df.columns| != ExpectedColumns then Err(ValueError)
      else Ok(df)
  }

  /** The two accepted diagnosis values. */
  predicate IsLabel(c: Cell) {
    c == Text("M") || c == Text("B")
  }

  /** pandas gives a column the "object" dtype when it holds text (and an
      empty column is "object" too); an all-numeric or all-missing column
      gets a numeric dtype. */
  predicate IsObjectColumn(col: seq<Cell>) {
    |col| == 0 || exists r :: 0 <= r < |col| && col[r].Text?
  }

  /** `validate_data_schema`: "id" and "diagnosis" must be present, the
      diagnosis column must hold text, and its value set must lie within
      {"M", "B"}. */
  function ValidateDataSchema(t: Table): (r: Result<bool>)
    requires WellFormed(t)
    ensures r.Ok? ==> r.value
    ensures r.Err? ==> r.exc == ValueError
    ensures r.Ok? <==>
      && "id" in t.columns
      && "diagnosis" in t.columns
      && forall i :: 0 <= i < |t.rows| ==> IsLabel(Column(t, "diagnosis")[i])
  {
    if "id" !in t.columns || "diagnosis" !in t.columns then Err(ValueError)
    else
      var col := Column(t, "diagnosis");
      if !IsObjectColumn(col) then
        assert !IsLabel(col[0]);
        Err(ValueError)
      else if Values(col) - {Text("M"), Text("B")} != {} then
        assert exists i :: 0 <= i < |col| && !IsLabel(col[i]) by {
          var v :| v in Values(col) - {Text("M"), Text("B")};
        }
        Err(ValueError)
      else
        assert forall i :: 0 <= i < |col| ==> IsLabel(col[i]) by {
          forall i | 0 <= i < |col| ensures IsLabel(col[i]) {
            assert col[i] in Values(col);
            assert col[i] !in Values(col) - {Text("M"), Text("B")};
          }
        }
        Ok(true)
  }

  /** A dataset with a single class passes validation. */
  lemma SingleClassAccepted(t: Table)
    requires WellFormed(t) && "id" in t.columns && "diagnosis" in t.columns
    requires forall i :: 0 <= i < |t.rows| ==> Column(t, "diagnosis")[i] == Text("M")
    ensures ValidateDataSchema(t) == Ok(true)
  {
  }

  datatype QualityIssue = MissingValuesFound | DuplicateRowsFound | NotTwoClasses | NoSeriousIssues

  /** The part of `analyze_data` the model keeps: shape, class counts
      (missing labels are not counted) and the quality-issue list. */
  datatype Analysis = Analysis(
    rowCount: nat,
    columnCount: nat,
    targetDistribution: map<Cell, nat>,
    qualityIssues: seq<QualityIssue>)

  /** The quality issues, one per detected problem in a fixed order, or the
      single "no serious issues" entry; the list is never empty. */
  function QualityIssues(t: Table, labels: seq<Cell>): (issues: seq<QualityIssue>)
    ensures |issues| >= 1
    ensures MissingValuesFound in issues <==> HasMissing(t)
    ensures DuplicateRowsFound in issues <==> HasDuplicateRows(t)
    ensures NotTwoClasses in issues <==> |Values(labels)| != 2
    ensures NoSeriousIssues in issues <==> issues == [NoSeriousIssues]
    ensures issues == [NoSeriousIssues] <==>
      !HasMissing(t) && !HasDuplicateRows(t) && |Values(labels)| == 2
    // each problem at most once, in the order the checks are made
    ensures issues == [NoSeriousIssues]
      || Sequences.IsSubsequence(issues, [MissingValuesFound, DuplicateRowsFound, NotTwoClasses])
  {
    var found :=
      (if HasMissing(t) then [MissingValuesFound] else [])
      + (if HasDuplicateRows(t) then [DuplicateRowsFound] else [])
      + (if |Values(labels)| != 2 then [NotTwoClasses] else []);
    if |found| == 0 then [NoSeriousIssues] else found
  }

  /** `analyze_data`: reading the diagnosis column of a table without one
      raises KeyError. */
  function AnalyzeData(t: Table): (r: Result<Analysis>)
    requires WellFormed(t)
    ensures r.Err? <==> "diagnosis" !in t.columns
    ensures r.Err? ==> r.exc == KeyError
    ensures r.Ok? ==>
      var labels := Column(t, "diagnosis");
      && r.value.rowCount == |t.rows|
      && r.value.columnCount == |t.columns|
      && r.value.targetDistribution.Keys == Values(labels) - {Missing}
      && (forall v :: v in r.value.targetDistribution ==> r.value.targetDistribution[v] == multiset(labels)[v])
      && r.value.qualityIssues == QualityIssues(t, labels)
  {
    if "diagnosis" !in t.columns then Err(KeyError)
    else
      var labels := Column(t, "diagnosis");
      var distribution := map v | v in Values(labels) && v != Missing :: multiset(labels)[v];
      Ok(Analysis(|t.rows|, |t.columns|, distribution, QualityIssues(t, labels)))
  }
}
