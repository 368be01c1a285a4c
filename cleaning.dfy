/**
 * The per-horizon cleanup applied to a fetched frame: keep the name and the
 * declared numeric columns, coerce those to numbers (failures become NaN),
 * keep the rows whose return is strictly positive, then drop every row that
 * still holds a NaN.
 */
module Cleaning {
  import opened Wrappers
  import opened Frames
  import opened Sequences
  import Pagination

  /** The numeric columns one horizon keeps beside 'Name', and which of them is its return. */
  datatype Schema = Schema(numeric: seq<string>, returnIndex: nat)

  /** A projected row: the name cell and the coerced numeric columns, in schema order. */
  datatype Record = Record(name: Cell, values: seq<Option<int>>)

  /** Selecting columns a frame does not have raises `KeyError`. */
  datatype CleanError = KeyError(missing: set<string>)

  /** Every column the projection selects. */
  function Declared(s: Schema): seq<string>
  {
    [Pagination.NameColumn] + s.numeric
  }

  /** `pd.to_numeric(errors='coerce')` on one cell, given how text is parsed. */
  function Coerce(c: Cell, parse: string -> Option<int>): Option<int>
  {
    match c
    case Missing => None
    case Number(n) => Some(n)
    case Text(s) => parse(s)
  }

  /** One row projected onto the schema, numeric columns coerced; 'Name' is kept as it is. */
  function Project(row: Row, s: Schema, parse: string -> Option<int>): Record
  {
    Record(Get(row, Pagination.NameColumn),
           seq(|s.numeric|, i requires 0 <= i < |s.numeric| => Coerce(Get(row, s.numeric[i]), parse)))
  }

  /** Every row of a frame projected and coerced. */
  function ProjectAll(rows: seq<Row>, s: Schema, parse: string -> Option<int>): seq<Record>
  {
    seq(|rows|, i requires 0 <= i < |rows| => Project(rows[i], s, parse))
  }

  /** The return column holds a number greater than zero (NaN compares false). */
  predicate Positive(r: Record, k: nat)
  {
    k < |r.values| && r.values[k].Some? && r.values[k].value > 0
  }

  /** The mask `df[col] > 0` for the return column at index k. */
  function PositiveAt(k: nat): Record -> bool
  {
    (r: Record) => Positive(r, k)
  }

  /** No NaN in the row: what `dropna` keeps. */
  predicate Complete(r: Record)
  {
    r.name != Missing && forall i :: 0 <= i < |r.values| ==> r.values[i].Some?
  }

  /** `dropna`: the rows without NaN, in order, every copy of each. */
  function DropMissing(rs: seq<Record>): (r: seq<Record>)
    ensures forall x :: x in r <==> x in rs && Complete(x)
    ensures forall x :: multiset(r)[x] == if Complete(x) then multiset(rs)[x] else 0
    ensures IsSubsequence(r, rs)
  {
    FilterMembers(rs, Complete);
    FilterCounts(rs, Complete);
    FilterIsSubsequence(rs, Complete);
    Filter(rs, Complete)
  }

  /**
   * The positive-return mask followed by `dropna`: keeps exactly the complete
   * rows with a positive return, every copy of each, in their original order.
   */
  function CleanRecords(rs: seq<Record>, k: nat): (r: seq<Record>)
    ensures forall x :: x in r <==> x in rs && Positive(x, k) && Complete(x)
    ensures forall x :: multiset(r)[x] == if Positive(x, k) && Complete(x) then multiset(rs)[x] else 0
    ensures IsSubsequence(r, rs)
  {
    var positive := Filter(rs, PositiveAt(k));
    FilterMembers(rs, PositiveAt(k));
    FilterCounts(rs, PositiveAt(k));
    FilterIsSubsequence(rs, PositiveAt(k));
    SubsequenceTransitive(DropMissing(positive), positive, rs);
    DropMissing(positive)
  }

  /** Cleaning rows that are already clean changes nothing. */
  lemma CleanRecordsIdempotent(rs: seq<Record>, k: nat)
    ensures CleanRecords(CleanRecords(rs, k), k) == CleanRecords(rs, k)
  {
    var once := CleanRecords(rs, k);
    FilterKeepsAll(once, PositiveAt(k));
    FilterKeepsAll(once, Complete);
  }

  /**
   * The cleanup of one horizon's fetched frame. An empty frame gives an empty
   * result; a non-empty frame lacking a selected column raises KeyError;
   * otherwise the result holds exactly the projected rows that are complete
   * and have a positive return, every copy of each, in their original order.
   */
  function Clean(t: Table, s: Schema, parse: string -> Option<int>): (r: Result<seq<Record>, CleanError>)
    ensures IsEmpty(t) ==> r == Success([])
    ensures r.Failure? <==> !IsEmpty(t) && exists c :: c in Declared(s) && c !in t.columns
    ensures r.Failure? ==> r.error.missing != {} && forall c :: c in r.error.missing <==> c in Declared(s) && c !in t.columns
    ensures r.Success? ==> forall x :: x in r.value <==>
      !IsEmpty(t) && x in ProjectAll(t.rows, s, parse) && Positive(x, s.returnIndex) && Complete(x)
    ensures r.Success? && !IsEmpty(t) ==> forall x ::
      multiset(r.value)[x] == if Positive(x, s.returnIndex) && Complete(x) then multiset(ProjectAll(t.rows, s, parse))[x] else 0
    ensures r.Success? ==> IsSubsequence(r.value, ProjectAll(t.rows, s, parse))
    ensures r.Success? ==> forall x :: x in r.value ==> |x.values| == |s.numeric|
  {
    if IsEmpty(t) then
      EmptyIsSubsequence(ProjectAll(t.rows, s, parse));
      Success([])
    else
      var missing := set c | c in Declared(s) && c !in t.columns;
      assert forall c :: c in Declared(s) && c !in t.columns ==> c in missing;
      if missing != {} then Failure(KeyError(missing))
      else Success(CleanRecords(ProjectAll(t.rows, s, parse), s.returnIndex))
  }
}
