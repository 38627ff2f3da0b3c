/** Cleaning, labelling and splitting the dataset.  The statistics (median
    and mode imputation values, the interquartile-range bounds, the scaler's
    arithmetic, the stratified shuffle) are library calls: they enter as
    parameters, and the model keeps what the code does around them. */
module DataPreprocessor {
  import opened Wrappers
  import opened Tables
  import Sequences
  import DataLoader

  /** The cell of a row at column `k` (a row too short to have one, which
      a well-formed table never holds, reads as missing). */
  function CellAt(row: Row, k: nat): Cell {
    if k < |row| then row[k] else Missing
  }

  /** The identifiers occurring in `rows`. */
  function Ids(rows: seq<Row>, k: nat): set<Cell> {
    set r | 0 <= r < |rows| :: CellAt(rows[r], k)
  }

  predicate DistinctIds(rows: seq<Row>, k: nat) {
    forall i, j :: 0 <= i < j < |rows| ==> CellAt(rows[i], k) != CellAt(rows[j], k)
  }

  lemma IdsCons(rows: seq<Row>, k: nat)
    requires |rows| > 0
    ensures Ids(rows, k) == {CellAt(rows[0], k)} + Ids(rows[1..], k)
  {
    forall x | x in Ids(rows, k) ensures x in {CellAt(rows[0], k)} + Ids(rows[1..], k) {
      var r :| 0 <= r < |rows| && CellAt(rows[r], k) == x;
      if r > 0 {
        assert CellAt(rows[1..][r - 1], k) == x;
      }
    }
    forall x | x in Ids(rows[1..], k) ensures x in Ids(rows, k) {
      var r :| 0 <= r < |rows[1..]| && CellAt(rows[1..][r], k) == x;
      assert CellAt(rows[r + 1], k) == x;
    }
  }

  /** The position of the first row carrying identifier `x`. */
  function FirstIndex(rows: seq<Row>, k: nat, x: Cell): (i: nat)
    requires x in Ids(rows, k)
    ensures i < |rows| && CellAt(rows[i], k) == x
    ensures forall j :: 0 <= j < i ==> CellAt(rows[j], k) != x
    decreases |rows|
  {
    IdsCons(rows, k);
    if CellAt(rows[0], k) == x then 0 else 1 + FirstIndex(rows[1..], k, x)
  }

  /** Drops every row whose identifier is in `seen` or occurred on an
      earlier row. */
  function KeepFirstFrom(rows: seq<Row>, k: nat, seen: set<Cell>): (kept: seq<Row>)
    ensures Sequences.IsSubsequence(kept, rows)
    ensures DistinctIds(kept, k)
    ensures Ids(kept, k) == Ids(rows, k) - seen
    ensures forall j :: 0 <= j < |kept| ==> CellAt(kept[j], k) in Ids(rows, k)
    ensures forall j :: 0 <= j < |kept| ==> kept[j] == rows[FirstIndex(rows, k, CellAt(kept[j], k))]
    decreases |rows|
  {
    if |rows| == 0 then []
    else
      var x := CellAt(rows[0], k);
      IdsCons(rows, k);
      if x in seen then
        KeepFirstFrom(rows[1..], k, seen)
      else
        var tail := KeepFirstFrom(rows[1..], k, seen + {x});
        var kept := [rows[0]] + tail;
        IdsCons(kept, k);
        assert kept[1..] == tail;
        assert forall j :: 1 <= j < |kept| ==> kept[j] == tail[j - 1];
        kept
  }

  /** `drop_duplicates(subset=["id"])`: the first row of each identifier,
      in the original order (missing identifiers count as equal). */
  function KeepFirst(rows: seq<Row>, k: nat): (kept: seq<Row>)
    ensures Sequences.IsSubsequence(kept, rows)
    ensures DistinctIds(kept, k)
    ensures Ids(kept, k) == Ids(rows, k)
    ensures forall j :: 0 <= j < |kept| ==> kept[j] == rows[FirstIndex(rows, k, CellAt(kept[j], k))]
    ensures forall j :: 0 <= j < |kept| ==> CellAt(kept[j], k) in Ids(rows, k)
    // in the order of their first occurrences
    ensures forall i, j :: 0 <= i < j < |kept| ==>
      FirstIndex(rows, k, CellAt(kept[i], k)) < FirstIndex(rows, k, CellAt(kept[j], k))
  {
    KeepFirstFromOrdered(rows, k, {});
    KeepFirstFrom(rows, k, {})
  }

  /** The rows of `kept` follow the order in which their identifiers
      first occur in `rows`. */
  predicate FirstOccurrenceOrder(rows: seq<Row>, k: nat, kept: seq<Row>) {
    forall i, j :: 0 <= i < j < |kept| && CellAt(kept[i], k) in Ids(rows, k) && CellAt(kept[j], k) in Ids(rows, k) ==>
      FirstIndex(rows, k, CellAt(kept[i], k)) < FirstIndex(rows, k, CellAt(kept[j], k))
  }

  lemma {:induction false} KeepFirstFromOrdered(rows: seq<Row>, k: nat, seen: set<Cell>)
    ensures FirstOccurrenceOrder(rows, k, KeepFirstFrom(rows, k, seen))
    decreases |rows|
  {
    if |rows| > 0 {
      var x := CellAt(rows[0], k);
      var seen' := if x in seen then seen else seen + {x};
      var tail := KeepFirstFrom(rows[1..], k, seen');
      KeepFirstFromOrdered(rows[1..], k, seen');
      forall j | 0 <= j < |tail| ensures CellAt(tail[j], k) in Ids(rows[1..], k) - {x} {
        assert CellAt(tail[j], k) in Ids(tail, k);
      }
      OrderAfterFirstRow(rows, k, tail);
      if x !in seen {
        assert KeepFirstFrom(rows, k, seen) == [rows[0]] + tail;
      }
    }
  }

  /** An ordering of the rows after the first, for identifiers other than
      the first row's, stays an ordering of all rows, with or without the
      first row in front. */
  lemma OrderAfterFirstRow(rows: seq<Row>, k: nat, tail: seq<Row>)
    requires |rows| > 0 && FirstOccurrenceOrder(rows[1..], k, tail)
    requires forall j :: 0 <= j < |tail| ==> CellAt(tail[j], k) in Ids(rows[1..], k) - {CellAt(rows[0], k)}
    ensures FirstOccurrenceOrder(rows, k, tail)
    ensures FirstOccurrenceOrder(rows, k, [rows[0]] + tail)
  {
    var x := CellAt(rows[0], k);
    IdsCons(rows, k);
    assert FirstIndex(rows, k, x) == 0;
    forall j | 0 <= j < |tail|
      ensures FirstIndex(rows, k, CellAt(tail[j], k)) == 1 + FirstIndex(rows[1..], k, CellAt(tail[j], k))
    {
    }
    var kept := [rows[0]] + tail;
    forall i, j | 0 <= i < j < |kept|
      ensures FirstIndex(rows, k, CellAt(kept[i], k)) < FirstIndex(rows, k, CellAt(kept[j], k))
    {
      assert kept[j] == tail[j - 1];
      if i > 0 {
        assert kept[i] == tail[i - 1];
      }
    }
  }

  /** Deduplicating a second time changes nothing. */
  lemma {:induction false} KeepFirstIdempotent(rows: seq<Row>, k: nat)
    ensures KeepFirst(KeepFirst(rows, k), k) == KeepFirst(rows, k)
  {
    KeepFirstOfDistinct(KeepFirst(rows, k), k, {});
  }

  lemma {:induction false} KeepFirstOfDistinct(rows: seq<Row>, k: nat, seen: set<Cell>)
    requires DistinctIds(rows, k) && Ids(rows, k) !! seen
    ensures KeepFirstFrom(rows, k, seen) == rows
    decreases |rows|
  {
    if |rows| > 0 {
      IdsCons(rows, k);
      var x := CellAt(rows[0], k);
      assert forall r :: 0 <= r < |rows| - 1 ==> CellAt(rows[1..][r], k) == CellAt(rows[r + 1], k);
      assert x !in Ids(rows[1..], k);
      assert DistinctIds(rows[1..], k) by {
        assert forall i :: 0 <= i < |rows| - 1 ==> rows[1..][i] == rows[i + 1];
      }
      KeepFirstOfDistinct(rows[1..], k, seen + {x});
    }
  }

  /** Rows whose identifier repeats an earlier one are dropped, the first
      one is kept. */
  lemma DeduplicationExample()
    ensures KeepFirst([[Num(1.0), Text("M")], [Num(2.0), Text("B")], [Num(1.0), Text("B")]], 0)
      == [[Num(1.0), Text("M")], [Num(2.0), Text("B")]]
  {
    var rows: seq<Row> := [[Num(1.0), Text("M")], [Num(2.0), Text("B")], [Num(1.0), Text("B")]];
    assert rows[1..][1..] == [[Num(1.0), Text("B")]];
  }

  /** The step that drops duplicated identifiers: a table without an "id"
      column is a KeyError. */
  function DropDuplicateIds(t: Table): (r: Result<Table>)
    requires WellFormed(t)
    ensures r.Err? <==> "id" !in t.columns
    ensures r.Err? ==> r.exc == KeyError
    ensures r.Ok? ==>
      var k := IndexOf(t.columns, "id");
      && r.value.columns == t.columns
      && WellFormed(r.value)
      && Sequences.IsSubsequence(r.value.rows, t.rows)
      && DistinctIds(r.value.rows, k)
      && Ids(r.value.rows, k) == Ids(t.rows, k)
      // the first row of each identifier, in input order
      && r.value.rows == KeepFirst(t.rows, k)
  {
    if "id" !in t.columns then Err(KeyError)
    else
      var kept := KeepFirst(t.rows, IndexOf(t.columns, "id"));
      Sequences.SubsequenceElements(kept, t.rows);
      assert forall r :: 0 <= r < |kept| ==> kept[r] in t.rows;
      Ok(Table(t.columns, kept))
  }

  /** The imputation step: runs only when a value is missing; the
      diagnosis column is never filled. */
  function ImputeMissing(t: Table, fill: string -> Cell): (u: Table)
    requires WellFormed(t)
    ensures u.columns == t.columns && WellFormed(u) && |u.rows| == |t.rows|
    ensures !HasMissing(t) ==> u == t
    ensures "diagnosis" in t.columns ==> Column(u, "diagnosis") == Column(t, "diagnosis")
    ensures forall r, j :: 0 <= r < |t.rows| && 0 <= j < |t.columns| && t.rows[r][j] != Missing ==>
      u.rows[r][j] == t.rows[r][j]
    // every gap outside the diagnosis column takes its column's value
    ensures forall r, j ::
      0 <= r < |t.rows| && 0 <= j < |t.columns| && t.rows[r][j] == Missing && t.columns[j] != "diagnosis" ==>
        u.rows[r][j] == fill(t.columns[j])
  {
    if HasMissing(t) then FillMissing(t, fill, {"diagnosis"}) else t
  }

  /** `df["diagnosis"].map({"M": 1, "B": 0})`: any other value, a missing
      one included, maps to a missing value. */
  function Binary(c: Cell): (b: Cell)
    ensures b != Missing <==> DataLoader.IsLabel(c)
    ensures b == Num(1.0) <==> c == Text("M")
    ensures b == Num(0.0) <==> c == Text("B")
  {
    if c == Text("M") then Num(1.0)
    else if c == Text("B") then Num(0.0)
    else Missing
  }

  /** A labelled row: its diagnosis (column `d`) is a label and its binary
      target (column `b`) is that label's code. */
  predicate LabelledRow(row: Row, d: nat, b: nat) {
    DataLoader.IsLabel(CellAt(row, d)) && CellAt(row, b) == Binary(CellAt(row, d))
  }

  /** Every row of the table is labelled. */
  predicate Labelled(t: Table) {
    && "diagnosis" in t.columns
    && "diagnosis_binary" in t.columns
    && forall i :: 0 <= i < |t.rows| ==>
         LabelledRow(t.rows[i], IndexOf(t.columns, "diagnosis"), IndexOf(t.columns, "diagnosis_binary"))
  }

  /** Removing rows keeps a labelled table labelled. */
  lemma LabelledAfterRowRemoval(t: Table, u: Table)
    requires Labelled(t) && u.columns == t.columns && Sequences.IsSubsequence(u.rows, t.rows)
    ensures Labelled(u)
  {
    Sequences.SubsequenceElements(u.rows, t.rows);
    forall i | 0 <= i < |u.rows|
      ensures LabelledRow(u.rows[i], IndexOf(t.columns, "diagnosis"), IndexOf(t.columns, "diagnosis_binary"))
    {
      assert u.rows[i] in t.rows;
      var m :| 0 <= m < |t.rows| && t.rows[m] == u.rows[i];
    }
  }

  /** The labelling step: adds (or overwrites) "diagnosis_binary", and
      rejects the table when some diagnosis did not map. */
  function AddBinaryTarget(t: Table): (r: Result<Table>)
    requires WellFormed(t)
    ensures "diagnosis" !in t.columns ==> r == Err(KeyError)
    ensures "diagnosis" in t.columns ==>
      (r.Ok? <==> forall i :: 0 <= i < |t.rows| ==> DataLoader.IsLabel(Column(t, "diagnosis")[i]))
    ensures "diagnosis" in t.columns && r.Err? ==> r.exc == ValueError
    ensures r.Ok? ==>
      && WellFormed(r.value)
      && r.value.columns == (if "diagnosis_binary" in t.columns then t.columns else t.columns + ["diagnosis_binary"])
      && |r.value.rows| == |t.rows|
      && (forall c :: c in t.columns && c != "diagnosis_binary" ==> Column(r.value, c) == Column(t, c))
      && Labelled(r.value)
  {
    if "diagnosis" !in t.columns then Err(KeyError)
    else
      var labels := Column(t, "diagnosis");
      var binary := seq(|labels|, i requires 0 <= i < |labels| => Binary(labels[i]));
      if Missing in binary then
        assert exists i :: 0 <= i < |t.rows| && !DataLoader.IsLabel(labels[i]) by {
          var i :| 0 <= i < |binary| && binary[i] == Missing;
        }
        Err(ValueError)
      else
        BinaryColumnLabels(t, binary);
        Ok(SetColumn(t, "diagnosis_binary", binary))
  }

  /** Storing the mapped diagnoses, none of them missing, labels every row. */
  lemma BinaryColumnLabels(t: Table, binary: seq<Cell>)
    requires WellFormed(t) && "diagnosis" in t.columns && "diagnosis" != "diagnosis_binary"
    requires |binary| == |t.rows| && Missing !in binary
    requires forall i :: 0 <= i < |binary| ==> binary[i] == Binary(Column(t, "diagnosis")[i])
    ensures Labelled(SetColumn(t, "diagnosis_binary", binary))
  {
    var u := SetColumn(t, "diagnosis_binary", binary);
    var d := IndexOf(u.columns, "diagnosis");
    var b := IndexOf(u.columns, "diagnosis_binary");
    forall i | 0 <= i < |u.rows| ensures LabelledRow(u.rows[i], d, b) {
      assert CellAt(u.rows[i], d) == Column(u, "diagnosis")[i] == Column(t, "diagnosis")[i];
      assert CellAt(u.rows[i], b) == Column(u, "diagnosis_binary")[i] == binary[i];
      assert binary[i] in binary;
    }
  }

  /** The features whose outliers are removed, in order. */
  const KeyFeatures: seq<string> := ["radius_mean", "area_mean", "perimeter_mean"]

  /** Outlier removal, one feature after another: for a feature the table
      has, the rows outside its bounds are dropped.  `inBounds(f, rows, row)`
      is the interquartile-range test, whose bounds the library computes
      from the current rows. */
  function RemoveOutliers(t: Table, features: seq<string>, inBounds: (string, seq<Row>, Row) -> bool): (u: Table)
    requires WellFormed(t)
    ensures u.columns == t.columns && WellFormed(u)
    ensures Sequences.IsSubsequence(u.rows, t.rows)
    decreases |features|
  {
    Sequences.SubsequenceReflexive(t.rows);
    if |features| == 0 then t
    else
      var f := features[0];
      var next :=
        if f in t.columns then Table(t.columns, Sequences.Filter(row => inBounds(f, t.rows, row), t.rows))
        else t;
      assert forall r :: 0 <= r < |next.rows| ==> next.rows[r] in t.rows;
      var u := RemoveOutliers(next, features[1..], inBounds);
      Sequences.SubsequenceTransitive(u.rows, next.rows, t.rows);
      u
  }

  /** Without any feature column, no row is removed. */
  lemma {:induction false} RemoveOutliersWithoutFeatures(t: Table, features: seq<string>, inBounds: (string, seq<Row>, Row) -> bool)
    requires WellFormed(t)
    requires forall i :: 0 <= i < |features| ==> features[i] !in t.columns
    ensures RemoveOutliers(t, features, inBounds) == t
    decreases |features|
  {
    if |features| > 0 {
      RemoveOutliersWithoutFeatures(t, features[1..], inBounds);
    }
  }

  /** `preprocess_data`: drop duplicated identifiers (KeyError without an
      "id" column), fill missing values, add the binary target (KeyError
      without a "diagnosis" column, ValueError when a diagnosis does not
      map), then remove outliers.  `fill` gives each column's replacement
      value. */
  function PreprocessData(t: Table, fill: string -> Cell, inBounds: (string, seq<Row>, Row) -> bool): (r: Result<Table>)
    requires WellFormed(t)
    ensures "id" !in t.columns ==> r == Err(KeyError)
    ensures "id" in t.columns && "diagnosis" !in t.columns ==> r == Err(KeyError)
    ensures "id" in t.columns && "diagnosis" in t.columns ==>
      var kept := KeepFirst(t.rows, IndexOf(t.columns, "id"));
      var d := IndexOf(t.columns, "diagnosis");
      && (r.Ok? <==> forall i :: 0 <= i < |kept| ==> DataLoader.IsLabel(CellAt(kept[i], d)))
      && (r.Err? ==> r.exc == ValueError)
    ensures r.Ok? ==>
      && WellFormed(r.value)
      && r.value.columns == (if "diagnosis_binary" in t.columns then t.columns else t.columns + ["diagnosis_binary"])
      && |r.value.rows| <= |t.rows|
      && Labelled(r.value)
  {
    var deduped :- DropDuplicateIds(t);
    var imputed := ImputeMissing(deduped, fill);
    LabellingOutcome(t, deduped, imputed);
    var labelled :- AddBinaryTarget(imputed);
    Sequences.SubsequenceLength(deduped.rows, t.rows);
    OutlierRemovalKeepsLabels(labelled, inBounds);
    Ok(RemoveOutliers(labelled, KeyFeatures, inBounds))
  }

  /** The labelling step succeeds exactly when every deduplicated row
      carries a label: imputation never touches the diagnoses. */
  lemma LabellingOutcome(t: Table, deduped: Table, imputed: Table)
    requires WellFormed(t) && "id" in t.columns
    requires deduped == Table(t.columns, KeepFirst(t.rows, IndexOf(t.columns, "id"))) && WellFormed(deduped)
    requires imputed.columns == deduped.columns && WellFormed(imputed) && |imputed.rows| == |deduped.rows|
    requires "diagnosis" in t.columns ==> Column(imputed, "diagnosis") == Column(deduped, "diagnosis")
    ensures "diagnosis" in t.columns ==>
      (AddBinaryTarget(imputed).Ok? <==>
         forall i :: 0 <= i < |deduped.rows| ==> DataLoader.IsLabel(CellAt(deduped.rows[i], IndexOf(t.columns, "diagnosis"))))
  {
    DiagnosisSurvivesImputation(t, deduped, imputed);
  }

  /** Outlier removal keeps a labelled table labelled and never adds rows. */
  lemma OutlierRemovalKeepsLabels(labelled: Table, inBounds: (string, seq<Row>, Row) -> bool)
    requires WellFormed(labelled) && Labelled(labelled)
    ensures var u := RemoveOutliers(labelled, KeyFeatures, inBounds);
      u.columns == labelled.columns && WellFormed(u) && |u.rows| <= |labelled.rows| && Labelled(u)
  {
    var u := RemoveOutliers(labelled, KeyFeatures, inBounds);
    Sequences.SubsequenceLength(u.rows, labelled.rows);
    LabelledAfterRowRemoval(labelled, u);
  }

  /** The diagnoses the labelling step sees are those of the deduplicated
      rows: imputation never touches them. */
  lemma DiagnosisSurvivesImputation(t: Table, deduped: Table, imputed: Table)
    requires WellFormed(t) && "id" in t.columns
    requires deduped == Table(t.columns, KeepFirst(t.rows, IndexOf(t.columns, "id"))) && WellFormed(deduped)
    requires imputed.columns == deduped.columns && WellFormed(imputed) && |imputed.rows| == |deduped.rows|
    requires "diagnosis" in t.columns ==> Column(imputed, "diagnosis") == Column(deduped, "diagnosis")
    ensures "diagnosis" in t.columns ==> forall i :: 0 <= i < |deduped.rows| ==>
      Column(imputed, "diagnosis")[i] == CellAt(deduped.rows[i], IndexOf(t.columns, "diagnosis"))
  {
  }

  /** The identifier column of `rows`, in row order. */
  function Keys(rows: seq<Row>, k: nat): (keys: seq<Cell>)
    ensures |keys| == |rows|
    ensures forall i :: 0 <= i < |rows| ==> keys[i] == CellAt(rows[i], k)
  {
    seq(|rows|, i requires 0 <= i < |rows| => CellAt(rows[i], k))
  }

  /** Deleting rows deletes their identifiers. */
  lemma {:induction false} SubsequenceKeys(xs: seq<Row>, ys: seq<Row>, k: nat)
    requires Sequences.IsSubsequence(xs, ys)
    ensures Sequences.IsSubsequence(Keys(xs, k), Keys(ys, k))
    decreases |ys|
  {
    if |ys| > 0 {
      assert Keys(ys, k)[1..] == Keys(ys[1..], k);
      if |xs| > 0 && xs[0] == ys[0] && Sequences.IsSubsequence(xs[1..], ys[1..]) {
        SubsequenceKeys(xs[1..], ys[1..], k);
        assert Keys(xs, k)[1..] == Keys(xs[1..], k);
      } else {
        SubsequenceKeys(xs, ys[1..], k);
      }
    }
  }

  /** Imputation leaves an identifier column without gaps as it was. */
  lemma ImputationKeepsKeys(t: Table, deduped: Table, fill: string -> Cell)
    requires WellFormed(t) && "id" in t.columns
    requires forall r :: 0 <= r < |t.rows| ==> CellAt(t.rows[r], IndexOf(t.columns, "id")) != Missing
    requires WellFormed(deduped) && deduped.columns == t.columns
    requires Sequences.IsSubsequence(deduped.rows, t.rows)
    ensures Keys(ImputeMissing(deduped, fill).rows, IndexOf(t.columns, "id")) == Keys(deduped.rows, IndexOf(t.columns, "id"))
  {
    var k := IndexOf(t.columns, "id");
    var imputed := ImputeMissing(deduped, fill);
    Sequences.SubsequenceElements(deduped.rows, t.rows);
    forall i | 0 <= i < |deduped.rows| ensures CellAt(imputed.rows[i], k) == CellAt(deduped.rows[i], k) {
      assert deduped.rows[i] in t.rows;
      var m :| 0 <= m < |t.rows| && t.rows[m] == deduped.rows[i];
    }
  }

  /** Adding the binary target leaves the identifier column as it was. */
  lemma LabellingKeepsKeys(imputed: Table)
    requires WellFormed(imputed) && "id" in imputed.columns && "diagnosis" in imputed.columns
    requires forall i :: 0 <= i < |imputed.rows| ==> DataLoader.IsLabel(Column(imputed, "diagnosis")[i])
    ensures var labelled := AddBinaryTarget(imputed).value;
      && "id" in labelled.columns
      && Keys(labelled.rows, IndexOf(labelled.columns, "id")) == Keys(imputed.rows, IndexOf(imputed.columns, "id"))
  {
    var k := IndexOf(imputed.columns, "id");
    var labelled := AddBinaryTarget(imputed).value;
    var k2 := IndexOf(labelled.columns, "id");
    assert Column(labelled, "id") == Column(imputed, "id");
    forall i | 0 <= i < |labelled.rows| ensures CellAt(labelled.rows[i], k2) == CellAt(imputed.rows[i], k) {
      assert CellAt(labelled.rows[i], k2) == Column(labelled, "id")[i];
      assert CellAt(imputed.rows[i], k) == Column(imputed, "id")[i];
    }
  }

  /** Imputation fills nothing in an identifier column without gaps, so
      distinct identifiers stay distinct. */
  lemma ImputationKeepsIds(t: Table, deduped: Table, fill: string -> Cell)
    requires WellFormed(t) && "id" in t.columns
    requires forall r :: 0 <= r < |t.rows| ==> CellAt(t.rows[r], IndexOf(t.columns, "id")) != Missing
    requires WellFormed(deduped) && deduped.columns == t.columns
    requires Sequences.IsSubsequence(deduped.rows, t.rows)
    requires DistinctIds(deduped.rows, IndexOf(t.columns, "id"))
    ensures DistinctIds(ImputeMissing(deduped, fill).rows, IndexOf(t.columns, "id"))
  {
    ImputationKeepsKeys(t, deduped, fill);
  }

  /** Adding the binary target leaves the identifier column alone. */
  lemma LabellingKeepsIds(imputed: Table)
    requires WellFormed(imputed) && "id" in imputed.columns
    requires DistinctIds(imputed.rows, IndexOf(imputed.columns, "id"))
    requires AddBinaryTarget(imputed).Ok?
    ensures var labelled := AddBinaryTarget(imputed).value;
      "id" in labelled.columns && DistinctIds(labelled.rows, IndexOf(labelled.columns, "id"))
  {
    LabellingKeepsKeys(imputed);
  }

  /** When no identifier is missing, the cleaned table has one row per
      identifier: imputation has nothing to fill in the "id" column, and
      outlier removal only drops rows. */
  lemma PreprocessKeepsIdsDistinct(t: Table, fill: string -> Cell, inBounds: (string, seq<Row>, Row) -> bool)
    requires WellFormed(t) && "id" in t.columns
    requires forall r :: 0 <= r < |t.rows| ==> CellAt(t.rows[r], IndexOf(t.columns, "id")) != Missing
    ensures PreprocessData(t, fill, inBounds).Ok? ==>
      var u := PreprocessData(t, fill, inBounds).value;
      "id" in u.columns && DistinctIds(u.rows, IndexOf(u.columns, "id"))
  {
    if PreprocessData(t, fill, inBounds).Err? {
      return;
    }
    var deduped := DropDuplicateIds(t).value;
    ImputationKeepsIds(t, deduped, fill);
    var imputed := ImputeMissing(deduped, fill);
    LabellingKeepsIds(imputed);
    var labelled := AddBinaryTarget(imputed).value;
    var u := RemoveOutliers(labelled, KeyFeatures, inBounds);
    assert PreprocessData(t, fill, inBounds).value == u;
    var k2 := IndexOf(labelled.columns, "id");
    assert Sequences.DistinctBy(row => CellAt(row, k2), labelled.rows);
    Sequences.SubsequenceDistinctBy(row => CellAt(row, k2), u.rows, labelled.rows);
  }

  /** When no identifier is missing, the identifiers of the cleaned table
      are, in order, a selection of those of the first occurrences: every
      surviving row is the first row of its identifier, and the input
      order is kept. */
  lemma PreprocessKeepsFirstOccurrences(t: Table, fill: string -> Cell, inBounds: (string, seq<Row>, Row) -> bool)
    requires WellFormed(t) && "id" in t.columns
    requires forall r :: 0 <= r < |t.rows| ==> CellAt(t.rows[r], IndexOf(t.columns, "id")) != Missing
    ensures PreprocessData(t, fill, inBounds).Ok? ==>
      var u := PreprocessData(t, fill, inBounds).value;
      var k := IndexOf(t.columns, "id");
      && "id" in u.columns
      && Sequences.IsSubsequence(Keys(u.rows, IndexOf(u.columns, "id")), Keys(KeepFirst(t.rows, k), k))
  {
    if PreprocessData(t, fill, inBounds).Err? {
      return;
    }
    var k := IndexOf(t.columns, "id");
    var deduped := DropDuplicateIds(t).value;
    ImputationKeepsKeys(t, deduped, fill);
    var imputed := ImputeMissing(deduped, fill);
    LabellingKeepsKeys(imputed);
    var labelled := AddBinaryTarget(imputed).value;
    var u := RemoveOutliers(labelled, KeyFeatures, inBounds);
    assert PreprocessData(t, fill, inBounds).value == u;
    SubsequenceKeys(u.rows, labelled.rows, IndexOf(labelled.columns, "id"));
  }

  /** The columns that are not features. */
  const ExcludedColumns: seq<string> := ["id", "diagnosis", "diagnosis_binary"]

  predicate IsFeature(c: string) {
    c !in ExcludedColumns
  }

  /** The feature columns: all but the excluded ones, in table order. */
  function FeatureColumns(columns: seq<string>): (features: seq<string>)
    ensures forall c :: c in features <==> c in columns && c !in ExcludedColumns
    ensures Sequences.IsSubsequence(features, columns)
  {
    Sequences.Filter(IsFeature, columns)
  }

  /** No measurement of the schema is an excluded column. */
  lemma MeasurementsAreFeatures()
    ensures forall i :: 2 <= i < |DataLoader.ColumnNames| ==> DataLoader.ColumnNames[i] !in ExcludedColumns
  {
  }

  /** The two key columns are not features. */
  lemma FilterSkipsKeys(rest: seq<string>)
    ensures Sequences.Filter(IsFeature, ["id", "diagnosis"] + rest) == Sequences.Filter(IsFeature, rest)
  {
    var names := ["id", "diagnosis"] + rest;
    assert !IsFeature("id") && !IsFeature("diagnosis");
    assert names[1..] == ["diagnosis"] + rest;
    assert names[1..][1..] == rest;
  }

  /** Behind the two key columns, and before the binary target, the
      measurements are exactly the features. */
  lemma FeatureColumnsAroundMeasurements(measurements: seq<string>)
    requires forall i :: 0 <= i < |measurements| ==> measurements[i] !in ExcludedColumns
    ensures FeatureColumns(["id", "diagnosis"] + measurements + ["diagnosis_binary"]) == measurements
  {
    var rest := measurements + ["diagnosis_binary"];
    assert ["id", "diagnosis"] + measurements + ["diagnosis_binary"] == ["id", "diagnosis"] + rest;
    FilterSkipsKeys(rest);
    Sequences.FilterAll(IsFeature, measurements);
    Sequences.FilterAppend(IsFeature, measurements, "diagnosis_binary");
  }

  /** On a loaded and labelled table the features are the thirty
      measurements, in schema order. */
  lemma FeatureColumnsOfSchema()
    ensures FeatureColumns(DataLoader.ColumnNames + ["diagnosis_binary"]) == DataLoader.ColumnNames[2..]
  {
    MeasurementsAreFeatures();
    var measurements := DataLoader.ColumnNames[2..];
    assert DataLoader.ColumnNames == ["id", "diagnosis"] + measurements;
    FeatureColumnsAroundMeasurements(measurements);
  }

  /** The feature matrix and the target of `prepare_features`. */
  datatype Features = Features(x: Table, y: seq<Cell>)

  /** `prepare_features`: the feature columns (missing values filled with
      the per-column replacement `fill`), and the "diagnosis_binary" column
      as the target (KeyError when absent, ValueError when it has a missing
      value). */
  function PrepareFeatures(t: Table, fill: string -> Cell): (r: Result<Features>)
    requires WellFormed(t)
    ensures "diagnosis_binary" !in t.columns ==> r == Err(KeyError)
    ensures "diagnosis_binary" in t.columns ==>
      && (r.Err? <==> Missing in Column(t, "diagnosis_binary"))
      && (r.Err? ==> r.exc == ValueError)
    ensures r.Ok? ==>
      && r.value.x.columns == FeatureColumns(t.columns)
      && WellFormed(r.value.x)
      && |r.value.x.rows| == |t.rows|
      && r.value.y == Column(t, "diagnosis_binary")
      && (forall c, i :: c in r.value.x.columns && 0 <= i < |t.rows| && Column(t, c)[i] != Missing ==>
            Column(r.value.x, c)[i] == Column(t, c)[i])
      // every feature gap takes its column's value
      && (forall c, i :: c in r.value.x.columns && 0 <= i < |t.rows| && Column(t, c)[i] == Missing ==>
            Column(r.value.x, c)[i] == fill(c))
  {
    var features := FeatureColumns(t.columns);
    assert Sequences.DistinctBy(c => c, t.columns);
    Sequences.SubsequenceDistinctBy(c => c, features, t.columns);
    var x := Project(t, features);
    if "diagnosis_binary" !in t.columns then Err(KeyError)
    else
      var y := Column(t, "diagnosis_binary");
      var filled := if HasMissing(x) then FillMissing(x, fill, {}) else x;
      FeatureGapsFilled(t, x, fill);
      if Missing in y then Err(ValueError) else Ok(Features(filled, y))
  }

  /** Filling the projected features keeps their present values and
      gives each gap its column's value. */
  lemma FeatureGapsFilled(t: Table, x: Table, fill: string -> Cell)
    requires WellFormed(t) && WellFormed(x) && |x.rows| == |t.rows|
    requires forall c :: c in x.columns ==> c in t.columns && Column(x, c) == Column(t, c)
    ensures var filled := if HasMissing(x) then FillMissing(x, fill, {}) else x;
      && filled.columns == x.columns && WellFormed(filled)
      && (forall c, i :: c in x.columns && 0 <= i < |t.rows| && Column(t, c)[i] != Missing ==>
            Column(filled, c)[i] == Column(t, c)[i])
      && (forall c, i :: c in x.columns && 0 <= i < |t.rows| && Column(t, c)[i] == Missing ==>
            Column(filled, c)[i] == fill(c))
  {
    var filled := if HasMissing(x) then FillMissing(x, fill, {}) else x;
    forall c, i | c in x.columns && 0 <= i < |t.rows|
      ensures Column(t, c)[i] != Missing ==> Column(filled, c)[i] == Column(t, c)[i]
      ensures Column(t, c)[i] == Missing ==> Column(filled, c)[i] == fill(c)
    {
      var j := IndexOf(x.columns, c);
      assert Column(x, c)[i] == x.rows[i][j];
      assert Column(filled, c)[i] == filled.rows[i][j];
    }
  }

  /** The row positions `train_test_split` puts in each partition. */
  datatype Split = Split(train: seq<nat>, test: seq<nat>)

  predicate ValidSplit(s: Split, n: nat) {
    && (forall i :: 0 <= i < |s.train| ==> s.train[i] < n)
    && (forall i :: 0 <= i < |s.test| ==> s.test[i] < n)
  }

  /** The elements at the given positions, in the order given. */
  function Select<T>(xs: seq<T>, positions: seq<nat>): (ys: seq<T>)
    requires forall i :: 0 <= i < |positions| ==> positions[i] < |xs|
    ensures |ys| == |positions|
    ensures forall i :: 0 <= i < |positions| ==> ys[i] == xs[positions[i]]
  {
    seq(|positions|, i requires 0 <= i < |positions| => xs[positions[i]])
  }

  /** The five results of `split_and_scale_data`. */
  datatype ScaledSplit<S> = ScaledSplit(xTrain: seq<Row>, xTest: seq<Row>, yTrain: seq<Cell>, yTest: seq<Cell>, scaler: S)

  /** `split_and_scale_data`: split (the library's stratified split is
      `split`; features and target of different lengths are a ValueError),
      fit the scaler on the training features, and transform both
      partitions with that one fitted scaler. */
  function SplitAndScale<S>(x: Table, y: seq<Cell>, split: Result<Split>, fit: seq<Row> -> S, transform: (S, Row) -> Row): (r: Result<ScaledSplit<S>>)
    requires split.Ok? ==> ValidSplit(split.value, |x.rows|)
    ensures |y| != |x.rows| ==> r == Err(ValueError)
    ensures |y| == |x.rows| ==> (r.Ok? <==> split.Ok?) && (split.Err? ==> r == Err(split.exc))
    ensures r.Ok? ==>
      var s := split.value;
      && r.value.scaler == fit(Select(x.rows, s.train))
      && |r.value.xTrain| == |s.train| && |r.value.xTest| == |s.test|
      && (forall i :: 0 <= i < |s.train| ==> r.value.xTrain[i] == transform(r.value.scaler, x.rows[s.train[i]]))
      && (forall i :: 0 <= i < |s.test| ==> r.value.xTest[i] == transform(r.value.scaler, x.rows[s.test[i]]))
      && |r.value.yTrain| == |s.train| && |r.value.yTest| == |s.test|
      && (forall i :: 0 <= i < |s.train| ==> r.value.yTrain[i] == y[s.train[i]])
      && (forall i :: 0 <= i < |s.test| ==> r.value.yTest[i] == y[s.test[i]])
  {
    if |y| != |x.rows| then Err(ValueError)
    else
      var s :- split;
      var train := Select(x.rows, s.train);
      var test := Select(x.rows, s.test);
      var scaler := fit(train);
      Ok(ScaledSplit(
        seq(|train|, i requires 0 <= i < |train| => transform(scaler, train[i])),
        seq(|test|, i requires 0 <= i < |test| => transform(scaler, test[i])),
        Select(y, s.train),
        Select(y, s.test),
        scaler))
  }

  /** The scaler, and the scaled training partition, depend on the training
      rows alone: two feature tables that agree on the training rows give
      the same ones, whatever their test rows hold. */
  lemma ScalerIgnoresTestRows<S>(x1: Table, x2: Table, y: seq<Cell>, s: Split, fit: seq<Row> -> S, transform: (S, Row) -> Row)
    requires |x1.rows| == |x2.rows| == |y|
    requires ValidSplit(s, |x1.rows|)
    requires forall i :: 0 <= i < |s.train| ==> x1.rows[s.train[i]] == x2.rows[s.train[i]]
    ensures SplitAndScale(x1, y, Ok(s), fit, transform).Ok?
    ensures SplitAndScale(x1, y, Ok(s), fit, transform).value.scaler
         == SplitAndScale(x2, y, Ok(s), fit, transform).value.scaler
    ensures SplitAndScale(x1, y, Ok(s), fit, transform).value.xTrain
         == SplitAndScale(x2, y, Ok(s), fit, transform).value.xTrain
  {
    assert Select(x1.rows, s.train) == Select(x2.rows, s.train);
  }

  /** The files `save_processed_data` writes, in the order it writes them. */
  const ProcessedDataNames: seq<string> := ["X_train.csv", "y_train.csv", "X_test.csv", "y_test.csv"]

  function ProcessedDataFile(outputDir: string, name: string): string {
    outputDir + "/" + name
  }

  function ProcessedDataFiles(outputDir: string): (paths: seq<string>)
    ensures |paths| == |ProcessedDataNames|
    ensures forall i :: 0 <= i < |paths| ==> paths[i] == ProcessedDataFile(outputDir, ProcessedDataNames[i])
  {
    seq(|ProcessedDataNames|, i requires 0 <= i < |ProcessedDataNames| => ProcessedDataFile(outputDir, ProcessedDataNames[i]))
  }

  /** Files of different names under one directory are different files. */
  lemma ProcessedDataFileInjective(outputDir: string, a: string, b: string)
    ensures ProcessedDataFile(outputDir, a) == ProcessedDataFile(outputDir, b) <==> a == b
  {
    var n := |outputDir| + 1;
    if ProcessedDataFile(outputDir, a) == ProcessedDataFile(outputDir, b) {
      assert ProcessedDataFile(outputDir, a)[n..] == a;
      assert ProcessedDataFile(outputDir, b)[n..] == b;
    }
  }

  /** The four files are distinct, whatever the directory. */
  lemma ProcessedDataFilesDistinct(outputDir: string)
    ensures forall i, j :: 0 <= i < j < |ProcessedDataNames| ==>
      ProcessedDataFiles(outputDir)[i] != ProcessedDataFiles(outputDir)[j]
  {
    forall i, j | 0 <= i < j < |ProcessedDataNames|
      ensures ProcessedDataFiles(outputDir)[i] != ProcessedDataFiles(outputDir)[j]
    {
      ProcessedDataFileInjective(outputDir, ProcessedDataNames[i], ProcessedDataNames[j]);
    }
  }

  /** `save_processed_data`: creates the directory, then writes the four
      files in order; the first failing step raises OSError and nothing
      after it is written.  `written` is the log of files written. */
  method SaveProcessedData(outputDir: string, makedirsFails: bool, writable: string -> bool)
    returns (written: seq<string>, error: Option<Exc>)
    ensures written <= ProcessedDataFiles(outputDir)
    ensures error.None? <==>
      !makedirsFails && forall i :: 0 <= i < |ProcessedDataNames| ==> writable(ProcessedDataFiles(outputDir)[i])
    ensures error.None? ==> written == ProcessedDataFiles(outputDir)
    ensures error.Some? ==> error == Some(OSError)
    // a failure to create the directory writes nothing
    ensures makedirsFails ==> written == [] && error.Some?
    // a failed write stops the method at exactly that file
    ensures error.Some? && !makedirsFails ==>
      |written| < |ProcessedDataNames| && !writable(ProcessedDataFiles(outputDir)[|written|])
    ensures forall i :: 0 <= i < |written| ==> writable(written[i])
  {
    written := [];
    if makedirsFails {
      return [], Some(OSError);
    }
    var files := ProcessedDataFiles(outputDir);
    var i := 0;
    while i < |files|
      invariant 0 <= i <= |files|
      invariant written == files[..i]
      invariant forall j :: 0 <= j < i ==> writable(files[j])
    {
      if !writable(files[i]) {
        return written, Some(OSError);
      }
      written := written + [files[i]];
      i := i + 1;
    }
    error := None;
  }
}
