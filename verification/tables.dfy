/** Tables as the pipeline sees them: a list of column names and a list of
    rows over those columns.  Cell values matter only through equality
    (duplicates, labels) and through being missing or not. */
module Tables {

  datatype Cell = Missing | Num(x: real) | Text(s: string)

  type Row = seq<Cell>

  datatype Table = Table(columns: seq<string>, rows: seq<Row>)

  /** Column names are distinct and every row has one cell per column. */
  predicate WellFormed(t: Table) {
    && (forall i, j :: 0 <= i < j < |t.columns| ==> t.columns[i] != t.columns[j])
    && (forall r :: 0 <= r < |t.rows| ==> |t.rows[r]| == |t.columns|)
  }

  /** The position of a column name. */
  function IndexOf(names: seq<string>, name: string): (k: nat)
    requires name in names
    ensures k < |names| && names[k] == name
    ensures forall j :: 0 <= j < k ==> names[j] != name
  {
    if names[0] == name then 0 else 1 + IndexOf(names[1..], name)
  }

  /** The cells of one column, row by row. */
  function Column(t: Table, name: string): (col: seq<Cell>)
    requires WellFormed(t) && name in t.columns
    ensures |col| == |t.rows|
  {
    var k := IndexOf(t.columns, name);
    seq(|t.rows|, r requires 0 <= r < |t.rows| => t.rows[r][k])
  }

  /** `df.empty`: no rows or no columns. */
  predicate IsEmpty(t: Table) {
    |t.rows| == 0 || |t.columns| == 0
  }

  /** `df.isnull().sum().sum() > 0`. */
  predicate HasMissing(t: Table) {
    exists r, c :: 0 <= r < |t.rows| && 0 <= c < |t.rows[r]| && t.rows[r][c] == Missing
  }

  /** `df.duplicated().sum() > 0`: some row repeats an earlier one exactly
      (missing cells compare equal to each other). */
  predicate HasDuplicateRows(t: Table) {
    exists i, j :: 0 <= i < j < |t.rows| && t.rows[i] == t.rows[j]
  }

  /** The value set of a column, `set(df[name].unique())`; a missing cell
      counts as one value. */
  function Values(col: seq<Cell>): set<Cell> {
    set r | 0 <= r < |col| :: col[r]
  }

  /** A position holding the name with no earlier occurrence is the one
      `IndexOf` finds. */
  lemma IndexOfIsFirst(names: seq<string>, name: string, k: nat)
    requires k < |names| && names[k] == name
    requires forall j :: 0 <= j < k ==> names[j] != name
    ensures IndexOf(names, name) == k
  {
  }

  /** `df[name] = values`: overwrites the column when it exists, appends it
      as the last column otherwise; every other column is untouched. */
  function SetColumn(t: Table, name: string, values: seq<Cell>): (u: Table)
    requires WellFormed(t) && |values| == |t.rows|
    ensures WellFormed(u) && |u.rows| == |t.rows|
    ensures u.columns == if name in t.columns then t.columns else t.columns + [name]
    ensures Column(u, name) == values
    ensures forall c :: c in t.columns && c != name ==> Column(u, c) == Column(t, c)
  {
    if name in t.columns then
      var k := IndexOf(t.columns, name);
      Table(t.columns, seq(|t.rows|, r requires 0 <= r < |t.rows| => t.rows[r][k := values[r]]))
    else
      var u := Table(t.columns + [name], seq(|t.rows|, r requires 0 <= r < |t.rows| => t.rows[r] + [values[r]]));
      assert forall c :: c in t.columns ==> IndexOf(u.columns, c) == IndexOf(t.columns, c) by {
        forall c | c in t.columns ensures IndexOf(u.columns, c) == IndexOf(t.columns, c) {
          IndexOfIsFirst(u.columns, c, IndexOf(t.columns, c));
        }
      }
      IndexOfIsFirst(u.columns, name, |t.columns|);
      u
  }

  /** `df[names]`: the named columns, in the order given. */
  function Project(t: Table, names: seq<string>): (u: Table)
    requires WellFormed(t)
    requires forall i :: 0 <= i < |names| ==> names[i] in t.columns
    requires forall i, j :: 0 <= i < j < |names| ==> names[i] != names[j]
    ensures u.columns == names && WellFormed(u) && |u.rows| == |t.rows|
    ensures forall c :: c in names ==> Column(u, c) == Column(t, c)
  {
    Table(names, seq(|t.rows|, r requires 0 <= r < |t.rows| =>
      seq(|names|, j requires 0 <= j < |names| => t.rows[r][IndexOf(t.columns, names[j])])))
  }

  /** `fillna` with one replacement value per column, skipping the columns
      in `except`.  The replacement (a median or a mode, computed by the
      library) may itself be missing, as the median of an all-missing
      column is. */
  function FillMissing(t: Table, fill: string -> Cell, except: set<string>): (u: Table)
    requires WellFormed(t)
    ensures u.columns == t.columns && WellFormed(u) && |u.rows| == |t.rows|
    // present values are never changed
    ensures forall r, j :: 0 <= r < |t.rows| && 0 <= j < |t.columns| && t.rows[r][j] != Missing ==>
      u.rows[r][j] == t.rows[r][j]
    // the excepted columns are left as they were
    ensures forall c :: c in t.columns && c in except ==> Column(u, c) == Column(t, c)
    // a missing value elsewhere takes its column's replacement
    ensures forall r, j :: 0 <= r < |t.rows| && 0 <= j < |t.columns| && t.rows[r][j] == Missing && t.columns[j] !in except ==>
      u.rows[r][j] == fill(t.columns[j])
  {
    Table(t.columns, seq(|t.rows|, r requires 0 <= r < |t.rows| =>
      seq(|t.columns|, j requires 0 <= j < |t.columns| =>
        if t.rows[r][j] == Missing && t.columns[j] !in except then fill(t.columns[j]) else t.rows[r][j])))
  }
}
