/**
 * `fetchScreenerData`: request pages 1, 2, ... of a paginated screen, clean
 * each page's rows, accumulate them, and stop on the first page that fails,
 * is malformed, is empty after cleanup, or is short. The network and the HTML
 * parser are abstracted into `site`, the outcome of requesting each page.
 */
module Pagination {
  import opened Frames
  import opened Sequences

  const FirstPage: nat := 1
  const PageLimit: nat := 100
  /** Rows on a full page of the screen; fewer means the last page. */
  const FullPageSize: nat := 25
  const SerialColumn := "S.No."
  const NameColumn := "Name"

  /** What requesting one page yields: the parsed tables, an HTTP error, or any other exception. */
  datatype PageOutcome = Parsed(tables: seq<Table>) | HttpError(code: int) | Failed

  /** Why a page ends the loop without adding rows. */
  datatype Cause =
    | NoTables          // the page had no tables
    | MissingColumns    // 'S.No.' or 'Name' is not a header of the page
    | NoValidRows       // nothing left after row cleanup
    | NotFound          // HTTP 404
    | HttpFailure(code: int)
    | Error             // any other exception

  /** Why the loop ended. */
  datatype StopReason = Halted(cause: Cause) | ShortPage | LimitReached

  /** What one page does to the loop: stop with nothing, or append `page` (and stop if `last`). */
  datatype Verdict = Halt(cause: Cause) | Accept(page: Table, last: bool)

  /** A row whose serial number is present and is not a repeated header row. */
  predicate ValidSerial(row: Row)
  {
    Get(row, SerialColumn) != Missing && Get(row, SerialColumn) != Text(SerialColumn)
  }

  /** The per-page decision of one loop iteration, as a function of the page's outcome. */
  function PageVerdict(o: PageOutcome): Verdict
  {
    match o
    case HttpError(code) => Halt(if code == 404 then NotFound else HttpFailure(code))
    case Failed => Halt(Error)
    case Parsed(tables) =>
      if tables == [] then Halt(NoTables)
      else
        var combined := Combine(tables);
        if !(SerialColumn in combined.columns && NameColumn in combined.columns) then Halt(MissingColumns)
        else
          var cleaned := Filter(combined.rows, ValidSerial);
          if |cleaned| == 0 then Halt(NoValidRows)
          else Accept(Table(combined.columns, cleaned), |cleaned| < FullPageSize)
  }

  /**
   * A page that is kept is non-empty, has both required headers, holds
   * exactly the combined rows whose serial number is valid, and is the last
   * one exactly when it is short.
   */
  lemma AcceptedPageIsClean(o: PageOutcome)
    requires PageVerdict(o).Accept?
    ensures o.Parsed? && o.tables != []
    ensures var page := PageVerdict(o).page;
      && |page.rows| > 0
      && (PageVerdict(o).last <==> |page.rows| < FullPageSize)
      && page.columns == Combine(o.tables).columns
      && SerialColumn in page.columns && NameColumn in page.columns
      && forall row :: row in page.rows <==> row in Combine(o.tables).rows && ValidSerial(row)
  {
    FilterMembers(Combine(o.tables).rows, ValidSerial);
  }

  /**
   * A kept page holds every copy of each combined row whose serial number is
   * valid and no copy of any other, in the order of the combined frame.
   */
  lemma AcceptedPageKeepsEveryCopy(o: PageOutcome)
    requires PageVerdict(o).Accept?
    ensures o.Parsed? && o.tables != []
    ensures var page := PageVerdict(o).page;
      && (forall row :: multiset(page.rows)[row] == if ValidSerial(row) then multiset(Combine(o.tables).rows)[row] else 0)
      && IsSubsequence(page.rows, Combine(o.tables).rows)
  {
    FilterCounts(Combine(o.tables).rows, ValidSerial);
    FilterIsSubsequence(Combine(o.tables).rows, ValidSerial);
  }

  /** Every row of a kept page has a valid serial number. */
  lemma AcceptedRowsHaveSerials(o: PageOutcome)
    requires PageVerdict(o).Accept?
    ensures forall row :: row in PageVerdict(o).page.rows ==> ValidSerial(row)
  {
    FilterMembers(Combine(o.tables).rows, ValidSerial);
  }

  /** A full page holds at least FullPageSize rows. */
  lemma FullPageHasRows(o: PageOutcome)
    requires IsFull(PageVerdict(o))
    ensures |PageVerdict(o).page.rows| >= FullPageSize
  {
  }

  /**
   * A page stops the loop without adding rows exactly when the request
   * failed, or the page has no tables, lacks a required header, or has no
   * row with a valid serial number.
   */
  lemma PageHaltsExactly(o: PageOutcome)
    ensures PageVerdict(o).Halt? <==>
      || o.HttpError?
      || o.Failed?
      || o.tables == []
      || SerialColumn !in Combine(o.tables).columns
      || NameColumn !in Combine(o.tables).columns
      || forall row :: row in Combine(o.tables).rows ==> !ValidSerial(row)
  {
    if o.Parsed? && o.tables != [] {
      var rows := Combine(o.tables).rows;
      FilterMembers(rows, ValidSerial);
      if |Filter(rows, ValidSerial)| != 0 {
        assert Filter(rows, ValidSerial)[0] in Filter(rows, ValidSerial);
      }
    }
  }

  /** How each page is judged, as a function of the page number. */
  function Judge(site: nat -> PageOutcome): nat -> Verdict
  {
    (p: nat) => PageVerdict(site(p))
  }

  /** The rows a verdict adds to the accumulated data. */
  function Contribution(v: Verdict): Table
  {
    if v.Accept? then v.page else EmptyTable
  }

  /** A verdict after which the loop requests the next page. */
  predicate IsFull(v: Verdict)
  {
    v.Accept? && !v.last
  }

  /** Why the loop stops on a page that is not full. */
  function StopOf(v: Verdict): StopReason
  {
    if v.Halt? then Halted(v.cause) else ShortPage
  }

  /** The result of the loop: the accumulated data, the last page requested, and why it stopped. */
  datatype Fetched = Fetched(data: Table, lastPage: nat, reason: StopReason)

  /** The loop from page `page` onwards, given the verdict on each page. */
  function FetchFrom(verdictOf: nat -> Verdict, page: nat): Fetched
    decreases PageLimit - page
  {
    if page >= PageLimit then Fetched(EmptyTable, page - 1, LimitReached)
    else
      match verdictOf(page)
      case Halt(cause) => Fetched(EmptyTable, page, Halted(cause))
      case Accept(p, last) =>
        if last then Fetched(p, page, ShortPage)
        else
          var rest := FetchFrom(verdictOf, page + 1);
          Fetched(Append(p, rest.data), rest.lastPage, rest.reason)
  }

  /** What `fetchScreenerData` returns for a site. */
  function Fetch(site: nat -> PageOutcome): Fetched
  {
    FetchFrom(Judge(site), FirstPage)
  }

  /** The in-order concatenation of the contributions of pages lo .. hi-1. */
  function Gathered(verdictOf: nat -> Verdict, lo: nat, hi: nat): Table
    decreases hi - lo
  {
    if lo >= hi then EmptyTable else Append(Contribution(verdictOf(lo)), Gathered(verdictOf, lo + 1, hi))
  }

  /** Gathering one more page appends its contribution at the end. */
  lemma {:induction false} GatheredSnoc(verdictOf: nat -> Verdict, lo: nat, hi: nat)
    requires lo <= hi
    ensures Gathered(verdictOf, lo, hi + 1) == Append(Gathered(verdictOf, lo, hi), Contribution(verdictOf(hi)))
    decreases hi - lo
  {
    if lo == hi {
      AppendEmpty(Contribution(verdictOf(hi)));
    } else {
      GatheredSnoc(verdictOf, lo + 1, hi);
      AppendAssociative(Contribution(verdictOf(lo)), Gathered(verdictOf, lo + 1, hi), Contribution(verdictOf(hi)));
    }
  }

  /**
   * The loop stops on the first page q that is not full: the pages before it
   * were all full and appended in order, q is the last page requested, and q
   * adds its rows only if it is a short page.
   */
  lemma {:induction false} FetchStopsAtFirstNotFull(verdictOf: nat -> Verdict, page: nat, q: nat)
    requires page <= q < PageLimit
    requires forall p :: page <= p < q ==> IsFull(verdictOf(p))
    requires !IsFull(verdictOf(q))
    ensures FetchFrom(verdictOf, page).lastPage == q
    ensures FetchFrom(verdictOf, page).reason == StopOf(verdictOf(q))
    ensures FetchFrom(verdictOf, page).data ==
      if verdictOf(q).Halt? then Gathered(verdictOf, page, q) else Append(Gathered(verdictOf, page, q), verdictOf(q).page)
    decreases q - page
  {
    if page == q {
      if verdictOf(q).Accept? {
        AppendEmpty(verdictOf(q).page);
      }
    } else {
      FetchStopsAtFirstNotFull(verdictOf, page + 1, q);
      if verdictOf(q).Accept? {
        AppendAssociative(verdictOf(page).page, Gathered(verdictOf, page + 1, q), verdictOf(q).page);
      }
    }
  }

  /** When every page up to the limit is full, the loop runs out of pages holding all of them. */
  lemma {:induction false} FetchReachesLimit(verdictOf: nat -> Verdict, page: nat)
    requires page <= PageLimit
    requires forall p :: page <= p < PageLimit ==> IsFull(verdictOf(p))
    ensures FetchFrom(verdictOf, page) == Fetched(Gathered(verdictOf, page, PageLimit), PageLimit - 1, LimitReached)
    decreases PageLimit - page
  {
    if page < PageLimit {
      FetchReachesLimit(verdictOf, page + 1);
    }
  }

  /** Every row the loop returns has a valid serial number. */
  lemma {:induction false} FetchedRowsHaveSerials(site: nat -> PageOutcome, page: nat)
    ensures forall row :: row in FetchFrom(Judge(site), page).data.rows ==> ValidSerial(row)
    decreases PageLimit - page
  {
    if page < PageLimit && PageVerdict(site(page)).Accept? {
      AcceptedRowsHaveSerials(site(page));
      if !PageVerdict(site(page)).last {
        FetchedRowsHaveSerials(site, page + 1);
      }
    }
  }

  /**
   * Every page before the last one requested was full; the loop ran out of
   * pages only if every page below the limit was full, and otherwise the last
   * page requested is not full and decides why the loop stopped.
   */
  lemma {:induction false} FetchedPagesBeforeLastAreFull(verdictOf: nat -> Verdict, page: nat)
    requires page <= PageLimit
    ensures var f := FetchFrom(verdictOf, page);
      && (forall p :: page <= p < f.lastPage ==> IsFull(verdictOf(p)))
      && (f.reason.LimitReached? ==> f.lastPage == PageLimit - 1 && forall p :: page <= p < PageLimit ==> IsFull(verdictOf(p)))
      && (!f.reason.LimitReached? ==>
            page <= f.lastPage < PageLimit && !IsFull(verdictOf(f.lastPage)) && f.reason == StopOf(verdictOf(f.lastPage)))
    decreases PageLimit - page
  {
    if page < PageLimit && IsFull(verdictOf(page)) {
      FetchedPagesBeforeLastAreFull(verdictOf, page + 1);
    }
  }

  /**
   * Every page followed by another request was full and added at least
   * FullPageSize rows, so the data holds at least FullPageSize rows per such page.
   */
  lemma {:induction false} FetchedRowCount(site: nat -> PageOutcome, page: nat)
    requires page <= PageLimit
    ensures forall p :: page <= p < FetchFrom(Judge(site), page).lastPage ==>
      IsFull(PageVerdict(site(p))) && |PageVerdict(site(p)).page.rows| >= FullPageSize
    ensures |FetchFrom(Judge(site), page).data.rows| >= FullPageSize * (FetchFrom(Judge(site), page).lastPage - page)
    decreases PageLimit - page
  {
    FetchedPagesBeforeLastAreFull(Judge(site), page);
    forall p | page <= p < FetchFrom(Judge(site), page).lastPage
      ensures IsFull(PageVerdict(site(p))) && |PageVerdict(site(p)).page.rows| >= FullPageSize
    {
      assert Judge(site)(p) == PageVerdict(site(p));
      FullPageHasRows(site(p));
    }
    if page < PageLimit && IsFull(PageVerdict(site(page))) {
      FullPageHasRows(site(page));
      FetchedRowCount(site, page + 1);
    }
  }

  /**
   * The body of one iteration's `try` block: classify the outcome of
   * requesting a page, combine its tables, check the required columns and
   * drop rows without a valid serial number. It computes the same decision
   * as PageVerdict, step by step; what that decision means is stated by
   * PageHaltsExactly, AcceptedPageIsClean and AcceptedPageKeepsEveryCopy.
   */
  method ReadPage(outcome: PageOutcome) returns (verdict: Verdict)
    ensures verdict == PageVerdict(outcome)
  {
    if outcome.HttpError? {
      return Halt(if outcome.code == 404 then NotFound else HttpFailure(outcome.code));
    }
    if outcome.Failed? {
      return Halt(Error);
    }
    var allTables := outcome.tables;
    if allTables == [] {
      return Halt(NoTables);
    }
    var combined := Combine(allTables);
    if !(SerialColumn in combined.columns && NameColumn in combined.columns) {
      return Halt(MissingColumns);
    }
    combined := Table(combined.columns, Filter(combined.rows, ValidSerial));
    if |combined.rows| == 0 {
      return Halt(NoValidRows);
    }
    return Accept(combined, |combined.rows| < FullPageSize);
  }

  /**
   * The loop as written: the counter starts at 1 and runs while below
   * PageLimit, so at most 99 pages are requested; `requested` lists the page
   * numbers put into the URLs, in order. `verdictOf` is specification only:
   * it names the verdict on every page, so that the loop is proved against
   * FetchFrom.
   */
  method FetchScreenerData(site: nat -> PageOutcome, ghost verdictOf: nat -> Verdict)
    returns (data: Table, requested: seq<nat>, reason: StopReason)
    requires forall p {:trigger PageVerdict(site(p))} :: verdictOf(p) == PageVerdict(site(p))
    ensures Fetched(data, |requested|, reason) == FetchFrom(verdictOf, FirstPage)
    ensures 1 <= |requested| < PageLimit
    ensures forall i :: 0 <= i < |requested| ==> requested[i] == i + 1
  {
    data := EmptyTable;
    requested := [];
    reason := LimitReached;
    var currentPage := FirstPage;
    while currentPage < PageLimit
      invariant FirstPage <= currentPage <= PageLimit
      invariant |requested| == currentPage - 1
      invariant forall i :: 0 <= i < |requested| ==> requested[i] == i + 1
      invariant forall p :: FirstPage <= p < currentPage ==> IsFull(verdictOf(p))
      invariant data == Gathered(verdictOf, FirstPage, currentPage)
      decreases PageLimit - currentPage
    {
      requested := requested + [currentPage];
      var verdict := ReadPage(site(currentPage));
      if verdict.Halt? {
        FetchStopsAtFirstNotFull(verdictOf, FirstPage, currentPage);
        reason := Halted(verdict.cause);
        break;
      }
      GatheredSnoc(verdictOf, FirstPage, currentPage);
      data := Append(data, verdict.page);
      if verdict.last {
        FetchStopsAtFirstNotFull(verdictOf, FirstPage, currentPage);
        reason := ShortPage;
        break;
      }
      currentPage := currentPage + 1;
    }
    if currentPage == PageLimit {
      FetchReachesLimit(verdictOf, FirstPage);
    }
  }
}
