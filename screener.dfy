/**
 * The GARP screen as a whole: fetch the 3-month, 6-month and 12-month
 * screens in turn, clean each, merge them on 'Name' and sort by the 6-month
 * return, largest first.
 */
module Screener {
  import opened Wrappers
  import opened Frames
  import opened Pagination
  import opened Cleaning
  import opened Merging

  /** The 3-month screen keeps the current price and the 3-month return. */
  const Horizon3 := Schema(["CMP  Rs.", "3mth return  %"], 1)
  /** The 6-month screen keeps the 6-month return. */
  const Horizon6 := Schema(["6mth return  %"], 0)
  /** The 12-month screen keeps the 1-year return. */
  const Horizon12 := Schema(["1Yr return  %"], 0)

  /** Where '6mth return  %' sits among the merged numeric columns. */
  const SortColumn: nat := |Horizon3.numeric| + Horizon6.returnIndex

  /**
   * The script after the three fetches: clean each horizon in turn (a
   * KeyError ends the run), then merge and sort.
   */
  function Screen(t3: Table, t6: Table, t12: Table, parse: string -> Option<int>): Result<seq<Record>, CleanError>
  {
    match Clean(t3, Horizon3, parse)
    case Failure(e) => Failure(e)
    case Success(c3) =>
      match Clean(t6, Horizon6, parse)
      case Failure(e) => Failure(e)
      case Success(c6) =>
        match Clean(t12, Horizon12, parse)
        case Failure(e) => Failure(e)
        case Success(c12) => Success(MergeAndSort(c3, c6, c12, SortColumn))
  }

  /** Appending a row's columns keeps the positions, and the positivity, of the left row's columns. */
  lemma JoinedKeepsPositive(a: Record, b: Record, k: nat)
    requires Positive(a, k)
    ensures Positive(Joined(a, b), k)
  {
    assert Joined(a, b).values[k] == a.values[k];
  }

  /** The right row's columns move up by the width of the left row. */
  lemma JoinedShiftsPositive(a: Record, b: Record, k: nat)
    requires Positive(b, k)
    ensures Positive(Joined(a, b), |a.values| + k)
  {
    assert Joined(a, b).values[|a.values| + k] == b.values[k];
  }

  /** A row of the first join lays out the 3-month and 6-month returns at indices 1 and 2, both positive. */
  lemma FirstJoinLayout(c3: seq<Record>, c6: seq<Record>, ab: Record)
    requires forall r :: r in c3 ==> |r.values| == 2 && Positive(r, 1)
    requires forall r :: r in c6 ==> |r.values| == 1 && Positive(r, 0)
    requires ab in Join(c3, c6)
    ensures |ab.values| == 3 && Positive(ab, 1) && Positive(ab, 2)
  {
    var a, b :| a in c3 && b in c6 && a.name == b.name && ab == Joined(a, b);
    JoinedKeepsPositive(a, b, 1);
    JoinedShiftsPositive(a, b, 0);
  }

  /** A merged row of the cleaned horizons lays out the three returns at indices 1, 2 and 3, all positive. */
  lemma MergedRowLayout(c3: seq<Record>, c6: seq<Record>, c12: seq<Record>, x: Record)
    requires forall r :: r in c3 ==> |r.values| == 2 && Positive(r, 1)
    requires forall r :: r in c6 ==> |r.values| == 1 && Positive(r, 0)
    requires forall r :: r in c12 ==> |r.values| == 1 && Positive(r, 0)
    requires x in Join(Join(c3, c6), c12)
    ensures |x.values| == 4 && Positive(x, 1) && Positive(x, 2) && Positive(x, 3)
  {
    var ab, c :| ab in Join(c3, c6) && c in c12 && ab.name == c.name && x == Joined(ab, c);
    FirstJoinLayout(c3, c6, ab);
    JoinedKeepsPositive(ab, c, 1);
    JoinedKeepsPositive(ab, c, 2);
    JoinedShiftsPositive(ab, c, 0);
  }

  /**
   * Every row of a successful screen has the columns Name, 'CMP  Rs.',
   * '3mth return  %', '6mth return  %' and '1Yr return  %', no NaN, and
   * strictly positive 3-month, 6-month and 1-year returns; the rows are
   * ordered by the 6-month return, largest first.
   */
  lemma ScreenedRowsArePositive(t3: Table, t6: Table, t12: Table, parse: string -> Option<int>)
    requires Screen(t3, t6, t12, parse).Success?
    ensures var rows := Screen(t3, t6, t12, parse).value;
      && SortedDesc(rows, SortColumn)
      && forall x :: x in rows ==>
           && |x.values| == 4
           && Complete(x)
           && Positive(x, 1) && Positive(x, 2) && Positive(x, 3)
  {
    var c3 := Clean(t3, Horizon3, parse).value;
    var c6 := Clean(t6, Horizon6, parse).value;
    var c12 := Clean(t12, Horizon12, parse).value;
    assert forall r :: r in c3 ==> |r.values| == 2 && Positive(r, 1);
    assert forall r :: r in c6 ==> |r.values| == 1 && Positive(r, 0);
    assert forall r :: r in c12 ==> |r.values| == 1 && Positive(r, 0);
    forall x | x in MergeAndSort(c3, c6, c12, SortColumn)
      ensures |x.values| == 4 && Positive(x, 1) && Positive(x, 2) && Positive(x, 3)
    {
      assert x in multiset(DropMissing(Join(Join(c3, c6), c12)));
      MergedRowLayout(c3, c6, c12, x);
    }
  }

  /** The cleanup of this horizon raises KeyError: its frame is not empty and lacks a selected column. */
  predicate LacksColumns(t: Table, s: Schema)
  {
    !IsEmpty(t) && exists c :: c in Declared(s) && c !in t.columns
  }

  /**
   * The run ends with KeyError exactly when some horizon's frame is not
   * empty and lacks a column it selects; the error names the missing
   * columns of the first such horizon.
   */
  lemma ScreenFailsExactly(t3: Table, t6: Table, t12: Table, parse: string -> Option<int>)
    ensures Screen(t3, t6, t12, parse).Failure? <==>
      LacksColumns(t3, Horizon3) || LacksColumns(t6, Horizon6) || LacksColumns(t12, Horizon12)
    ensures Screen(t3, t6, t12, parse).Failure? ==> forall c :: c in Screen(t3, t6, t12, parse).error.missing <==>
      if LacksColumns(t3, Horizon3) then c in Declared(Horizon3) && c !in t3.columns
      else if LacksColumns(t6, Horizon6) then c in Declared(Horizon6) && c !in t6.columns
      else c in Declared(Horizon12) && c !in t12.columns
  {
  }

  /** A horizon whose fetch returned nothing leaves the merged screen empty, unless a cleanup raises. */
  lemma EmptyFetchEmptiesScreen(t3: Table, t6: Table, t12: Table, parse: string -> Option<int>)
    requires IsEmpty(t3) || IsEmpty(t6) || IsEmpty(t12)
    ensures Screen(t3, t6, t12, parse).Success? ==> Screen(t3, t6, t12, parse).value == []
  {
    if Screen(t3, t6, t12, parse).Success? {
      MergeWithEmptyHorizon(Clean(t3, Horizon3, parse).value, Clean(t6, Horizon6, parse).value,
                            Clean(t12, Horizon12, parse).value, SortColumn);
    }
  }

  /**
   * The module-level script: each horizon is fetched and then cleaned before
   * the next is fetched, and a KeyError returns at once. The result is the
   * one Screen specifies; what it means is stated by ScreenedRowsArePositive,
   * ScreenFailsExactly and EmptyFetchEmptiesScreen.
   */
  method RunScreener(site3: nat -> PageOutcome, site6: nat -> PageOutcome, site12: nat -> PageOutcome,
                     parse: string -> Option<int>)
    returns (result: Result<seq<Record>, CleanError>)
    ensures result == Screen(Fetch(site3).data, Fetch(site6).data, Fetch(site12).data, parse)
  {
    var garp3, _, _ := FetchScreenerData(site3, Judge(site3));
    var clean3 := Clean(garp3, Horizon3, parse);
    if clean3.Failure? {
      return Failure(clean3.error);
    }
    var garp6, _, _ := FetchScreenerData(site6, Judge(site6));
    var clean6 := Clean(garp6, Horizon6, parse);
    if clean6.Failure? {
      return Failure(clean6.error);
    }
    var garp12, _, _ := FetchScreenerData(site12, Judge(site12));
    var clean12 := Clean(garp12, Horizon12, parse);
    if clean12.Failure? {
      return Failure(clean12.error);
    }
    result := Success(MergeAndSort(clean3.value, clean6.value, clean12.value, SortColumn));
  }
}
