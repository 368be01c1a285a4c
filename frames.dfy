/**
 * The tabular values the screener handles: a parsed HTML table is a set of
 * column headers and an ordered sequence of rows; a row maps headers to cells.
 * A header a row does not map reads as NaN, which is how pandas fills the
 * columns a concatenated frame has but one of its parts lacked.
 */
module Frames {

  /** One cell as the HTML parser delivers it. */
  datatype Cell = Missing | Text(s: string) | Number(n: int)

  type Row = map<string, Cell>

  datatype Table = Table(columns: set<string>, rows: seq<Row>)

  const EmptyTable := Table({}, [])

  /** The cell of `row` under header `col`; NaN where the row has none. */
  function Get(row: Row, col: string): Cell
  {
    if col in row then row[col] else Missing
  }

  /** `DataFrame.empty`: true when either axis has length zero. */
  predicate IsEmpty(t: Table)
  {
    |t.rows| == 0 || t.columns == {}
  }

  /** A row as it appears in a frame with column set `cols`. */
  function Restrict(row: Row, cols: set<string>): (r: Row)
    ensures forall c :: Get(r, c) == if c in cols then Get(row, c) else Missing
  {
    map c | c in row && c in cols :: row[c]
  }

  /** `pd.concat([a, b], ignore_index=True)`: columns united, rows of `a` then rows of `b`. */
  function Append(a: Table, b: Table): Table
  {
    Table(a.columns + b.columns, a.rows + b.rows)
  }

  /** Concatenating an empty frame changes nothing. */
  lemma AppendEmpty(a: Table)
    ensures Append(a, EmptyTable) == a && Append(EmptyTable, a) == a
  {
    assert a.rows + [] == a.rows && [] + a.rows == a.rows;
    assert a.columns + {} == a.columns && {} + a.columns == a.columns;
  }

  /** Concatenating frames one after another is associative. */
  lemma AppendAssociative(a: Table, b: Table, c: Table)
    ensures Append(Append(a, b), c) == Append(a, Append(b, c))
  {
    assert (a.rows + b.rows) + c.rows == a.rows + (b.rows + c.rows);
    assert (a.columns + b.columns) + c.columns == a.columns + (b.columns + c.columns);
  }

  /** `pd.concat(all_tables, ignore_index=True)` over the tables of one page. */
  function Combine(tables: seq<Table>): Table
    decreases |tables|
  {
    if tables == [] then EmptyTable
    else
      var first := tables[0];
      Append(Table(first.columns, seq(|first.rows|, i requires 0 <= i < |first.rows| => Restrict(first.rows[i], first.columns))),
             Combine(tables[1..]))
  }

  /** The combined frame has the union of the tables' headers, and all their rows. */
  lemma {:induction false} CombineShape(tables: seq<Table>)
    ensures forall c :: c in Combine(tables).columns <==> exists k :: 0 <= k < |tables| && c in tables[k].columns
    ensures |Combine(tables).rows| == RowCount(tables)
    decreases |tables|
  {
    if tables != [] {
      CombineShape(tables[1..]);
      forall c | exists k :: 0 <= k < |tables| && c in tables[k].columns
        ensures c in Combine(tables).columns
      {
        var k :| 0 <= k < |tables| && c in tables[k].columns;
        if k > 0 { assert c in tables[1..][k - 1].columns; }
      }
    }
  }

  /** Total number of rows over a list of tables. */
  function RowCount(tables: seq<Table>): nat
    decreases |tables|
  {
    if tables == [] then 0 else |tables[0].rows| + RowCount(tables[1..])
  }
}
