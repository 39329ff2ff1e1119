/**
 * The data frames the enrichment stage and the publisher read and write:
 * named columns and rows of cells, a cell being a text or a missing value
 * (NaN). Assigning a column replaces it in place when the name exists and
 * appends it otherwise.
 */
module Tables {
  import opened Wrappers

  datatype Cell = Missing | Text(s: string)

  datatype Table = Table(columns: seq<string>, rows: seq<seq<Cell>>)

  /** The field texts `pd.read_csv` reads as a missing value by default. */
  const NaTexts: set<string> := {
    "", "#N/A", "#N/A N/A", "#NA", "-1.#IND", "-1.#QNAN", "-NaN", "-nan", "1.#IND", "1.#QNAN",
    "<NA>", "N/A", "NA", "NULL", "NaN", "None", "n/a", "nan", "null"
  }

  /** `pd.read_csv` on one field: a missing-value text becomes NaN, any other text stays. */
  function CsvCell(s: string): (c: Cell)
    ensures c.Missing? <==> s in NaTexts
    ensures c.Text? ==> c.s == s
  {
    if s in NaTexts then Missing else Text(s)
  }

  /** One cell written by `to_csv` (NaN as an empty field) and read back. */
  function ReadBack(c: Cell): (r: Cell)
    ensures c.Missing? ==> r.Missing?
    ensures c.Text? ==> r == CsvCell(c.s)
  {
    match c
    case Missing => Missing
    case Text(s) => CsvCell(s)
  }

  /** Reading a cell back a second time changes nothing more. */
  lemma ReadBackIdempotent(c: Cell)
    ensures ReadBack(ReadBack(c)) == ReadBack(c)
  {
  }

  /** A table written with `to_csv(index=False)` and read back with `read_csv`: cell by cell. */
  function Reread(t: Table): (r: Table)
    ensures r.columns == t.columns && |r.rows| == |t.rows|
    ensures forall i :: 0 <= i < |t.rows| ==> |r.rows[i]| == |t.rows[i]|
    ensures forall i, j :: 0 <= i < |t.rows| && 0 <= j < |t.rows[i]| ==> r.rows[i][j] == ReadBack(t.rows[i][j])
  {
    Table(t.columns, seq(|t.rows|, i requires 0 <= i < |t.rows| =>
      seq(|t.rows[i]|, j requires 0 <= j < |t.rows[i]| => ReadBack(t.rows[i][j]))))
  }

  /** Rereading keeps a table well formed, keeps its columns, and reads each named column back cell by cell. */
  lemma RereadNamed(t: Table, name: string)
    requires WellFormed(t) && HasColumn(t, name)
    ensures WellFormed(Reread(t)) && HasColumn(Reread(t), name)
    ensures forall i :: 0 <= i < |t.rows| ==> Named(Reread(t), name)[i] == ReadBack(Named(t, name)[i])
  {
  }

  /** Column names are distinct and every row has one cell per column. */
  predicate WellFormed(t: Table) {
    && (forall i, j :: 0 <= i < j < |t.columns| ==> t.columns[i] != t.columns[j])
    && (forall i :: 0 <= i < |t.rows| ==> |t.rows[i]| == |t.columns|)
  }

  /** Position of column `name`. */
  function ColIndex(columns: seq<string>, name: string): (r: Option<nat>)
    ensures r.Some? ==> r.value < |columns| && columns[r.value] == name
    ensures r.None? ==> name !in columns
  {
    if columns == [] then None
    else if columns[0] == name then Some(0)
    else match ColIndex(columns[1..], name)
      case None => None
      case Some(k) => Some(k + 1)
  }

  predicate HasColumn(t: Table, name: string) {
    ColIndex(t.columns, name).Some?
  }

  /** The header after `df[name] = ...`: unchanged when `name` is a column already, `name` appended otherwise. */
  function WithColumn(columns: seq<string>, name: string): (r: seq<string>)
    ensures columns <= r && name in r
    ensures forall c :: c in r ==> c in columns || c == name
  {
    if name in columns then columns else columns + [name]
  }

  /** In a well-formed table, a column's position is the only one carrying its name. */
  lemma ColIndexUnique(t: Table, k: nat)
    requires WellFormed(t) && k < |t.columns|
    ensures ColIndex(t.columns, t.columns[k]) == Some(k)
  {
    var r := ColIndex(t.columns, t.columns[k]);
    assert t.columns[r.value] == t.columns[k];
  }

  /** `df[name]`: the cells of column `k`, row by row. */
  function Column(t: Table, k: nat): seq<Cell>
    requires WellFormed(t) && k < |t.columns|
  {
    seq(|t.rows|, i requires 0 <= i < |t.rows| => t.rows[i][k])
  }

  /** `df[name]` by name. */
  function Named(t: Table, name: string): seq<Cell>
    requires WellFormed(t) && HasColumn(t, name)
  {
    Column(t, ColIndex(t.columns, name).value)
  }

  /**
   * `df[name] = values`: an existing column is overwritten where it stands,
   * a new one is appended; the table stays well formed, the other columns
   * keep their positions and contents, and the rows keep their number.
   */
  function SetColumn(t: Table, name: string, values: seq<Cell>): (r: Table)
    requires WellFormed(t) && |values| == |t.rows|
    ensures WellFormed(r) && |r.rows| == |t.rows|
    ensures r.columns == if HasColumn(t, name) then t.columns else t.columns + [name]
    ensures HasColumn(r, name) && Named(r, name) == values
    ensures forall k :: 0 <= k < |t.columns| && t.columns[k] != name ==> Column(r, k) == Column(t, k)
  {
    match ColIndex(t.columns, name)
    case Some(k) =>
      var r := Table(t.columns, seq(|t.rows|, i requires 0 <= i < |t.rows| => t.rows[i][k := values[i]]));
      ColIndexUnique(r, k);
      r
    case None =>
      var r := Table(t.columns + [name], seq(|t.rows|, i requires 0 <= i < |t.rows| => t.rows[i] + [values[i]]));
      ColIndexUnique(r, |t.columns|);
      r
  }

  /** The header after an assignment, in terms of names alone. */
  lemma SetColumnHeader(t: Table, name: string, values: seq<Cell>)
    requires WellFormed(t) && |values| == |t.rows|
    ensures SetColumn(t, name, values).columns == WithColumn(t.columns, name)
  {
    assert HasColumn(t, name) <==> name in t.columns;
  }

  /** Assigning a column leaves every other named column as it was. */
  lemma SetColumnKeepsOthers(t: Table, name: string, values: seq<Cell>, other: string)
    requires WellFormed(t) && |values| == |t.rows|
    requires other != name && HasColumn(t, other)
    ensures HasColumn(SetColumn(t, name, values), other)
    ensures Named(SetColumn(t, name, values), other) == Named(t, other)
  {
    var r := SetColumn(t, name, values);
    var k := ColIndex(t.columns, other).value;
    ColIndexUnique(r, k);
  }

  /** `SetColumnKeepsOthers` for every other column at once. */
  lemma SetColumnKeepsAll(t: Table, name: string, values: seq<Cell>)
    requires WellFormed(t) && |values| == |t.rows|
    ensures forall other :: other != name && HasColumn(t, other) ==>
      HasColumn(SetColumn(t, name, values), other) && Named(SetColumn(t, name, values), other) == Named(t, other)
  {
    forall other | other != name && HasColumn(t, other)
      ensures HasColumn(SetColumn(t, name, values), other) && Named(SetColumn(t, name, values), other) == Named(t, other)
    {
      SetColumnKeepsOthers(t, name, values, other);
    }
  }

  /**
   * Two assignments in turn, to two different names: both columns hold their
   * values, the header gains whichever of the two it lacked, in that order,
   * and every other column keeps its contents.
   */
  lemma SetTwoColumns(t: Table, a: string, va: seq<Cell>, b: string, vb: seq<Cell>)
    requires WellFormed(t) && |va| == |t.rows| && |vb| == |t.rows| && a != b
    ensures var r := SetColumn(SetColumn(t, a, va), b, vb);
      && WellFormed(r) && |r.rows| == |t.rows|
      && t.columns <= r.columns && r.columns == WithColumn(WithColumn(t.columns, a), b)
      && HasColumn(r, a) && Named(r, a) == va
      && HasColumn(r, b) && Named(r, b) == vb
      && forall c :: c != a && c != b && HasColumn(t, c) ==> HasColumn(r, c) && Named(r, c) == Named(t, c)
  {
    var s := SetColumn(t, a, va);
    var r := SetColumn(s, b, vb);
    SetColumnHeader(t, a, va);
    SetColumnHeader(s, b, vb);
    assert t.columns <= s.columns <= r.columns;
    SetColumnKeepsOthers(s, b, vb, a);
    SetColumnKeepsAll(t, a, va);
    SetColumnKeepsAll(s, b, vb);
  }
}
