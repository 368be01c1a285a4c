# GARP screener, modelled in Dafny

The GARP screener pulls three stock screens from a paginated screening site:
3-month, 6-month and 1-year returns. It cleans each screen, joins the three on
the company name and sorts the result by the 6-month return, largest first.

This project models that pipeline and proves its properties:

- **Pagination** (`pagination.dfy`) models `fetchScreenerData`.
  - The loop is an imperative `method`, proved against the recursive specification function `FetchFrom`.
  - The body of the `try` block is `ReadPage`, proved against the per-page decision `PageVerdict`.
  - A page request yields one of three outcomes: the parsed tables, an HTTP error, or any other exception.
  - These outcomes are a parameter (`site`), because the network and the HTML parser lie outside the model.
- **Frames** (`frames.dfy`) holds the tabular values.
  - A table is a set of headers and a sequence of rows; a row maps headers to cells.
  - A header that a row does not map reads as NaN, which is how `pd.concat` fills missing columns.
  - The module defines concatenation (`Append`, `Combine`) and `DataFrame.empty` (`IsEmpty`).
- **Cleaning** (`cleaning.dfy`) models the per-horizon cleanup.
  - It projects each row onto 'Name' and the horizon's numeric columns and coerces them to numbers.
  - It keeps the rows whose return is strictly positive, then drops the rows holding NaN.
  - An empty frame gives an empty result.
  - A non-empty frame that lacks a selected column raises KeyError.
- **Merging** (`merging.dfy`) models the two inner joins on 'Name', the final `dropna` and the descending sort, which puts NaN last.
- **Screener** (`screener.dfy`) models the script as a whole.
  - There are three schemas, one per horizon, and the sort column follows from them.
  - `Screen` is a function of the three fetched frames.
  - `RunScreener` fetches and cleans one horizon after another.
- **Sequences** and **Wrappers** hold generic helpers:
  - order-preserving filtering and the subsequence relation;
  - `Option` and `Result`.

Two behaviours of the script differ from what one might expect, and the model follows the script:

- **Page limit.** The limit is 100, but the loop guard is strict. At most 99 pages are ever requested (`FetchScreenerData` ensures `|requested| < PageLimit`).
- **Missing columns.** A non-empty frame that lacks a projected column raises KeyError, and nothing catches it, so the run ends. One might expect such a frame to give an empty dataset, but the script substitutes an empty dataset only when the fetch returned nothing. `Clean` and `Screen` return `Failure(KeyError(missing))` in this case.

## Model

| member | source | states |
|---|---|---|
| Frames.Restrict | garp_screener.py:47 | a row placed in a concatenated frame reads its own cell under each of its table's headers and NaN elsewhere |
| Frames.AppendEmpty | garp_screener.py:30 | concatenating with the initially empty accumulator, on either side, changes nothing |
| Frames.AppendAssociative | garp_screener.py:68 | accumulating page by page gives the same frame however the concatenations are grouped |
| Frames.CombineShape | garp_screener.py:47 | the combined page has exactly the union of the tables' headers, and as many rows as all of them together |
| Pagination.AcceptedPageIsClean | garp_screener.py:47-73 | a page whose rows are kept had tables and both 'S.No.' and 'Name' headers; its rows are exactly the combined rows whose serial is neither NaN nor a repeated header; it is non-empty; it is the last page exactly when it has fewer than 25 rows |
| Pagination.AcceptedPageKeepsEveryCopy | garp_screener.py:55-60 | a kept page holds every copy of each combined row whose serial is valid and no copy of any other row, in the order of the combined frame |
| Pagination.PageHaltsExactly | garp_screener.py:40-84 | a page stops the loop without adding rows if and only if the request raised, or the page had no tables, lacked 'S.No.' or 'Name', or had no row with a valid serial |
| Pagination.ReadPage | garp_screener.py:40-84 | the imperative body of the `try` block and its handlers computes exactly the per-page decision, including 404 versus any other HTTP code and the catch-all exception |
| Pagination.GatheredSnoc | garp_screener.py:68 | accumulating one more page appends its rows after everything accumulated so far |
| Pagination.FetchStopsAtFirstNotFull | garp_screener.py:36-86 | the loop ends on the first page that is not a full page: that page is the last one requested and decides the reason; the result is the full pages before it in order, followed by its own rows only when it is a short page |
| Pagination.FetchReachesLimit | garp_screener.py:31-36 | when every page below the limit is full, the loop stops at page 99 holding all of them in order |
| Pagination.FetchedPagesBeforeLastAreFull | garp_screener.py:36-86 | every page before the last one requested was full; the loop ran out of pages only when every page below the limit was full, ending at page 99; otherwise the last page requested is not full and decides why the loop stopped |
| Pagination.FetchedRowsHaveSerials | garp_screener.py:55-68 | every fetched row has a serial number that is neither NaN nor the header text |
| Pagination.FetchedRowCount | garp_screener.py:68-86 | every page before the last one requested was full and contributed at least 25 rows, so the data holds at least 25 rows per such page |
| Pagination.FetchScreenerData | garp_screener.py:29-90 | the loop requests pages 1, 2, … in order, at least one and fewer than 100 of them, and returns exactly what the page-by-page specification `FetchFrom` gives for the same pages |
| Cleaning.DropMissing | garp_screener.py:103 | `dropna` keeps every copy of each row without NaN and no copy of any other row, in their original order |
| Cleaning.CleanRecords | garp_screener.py:102-103 | the positive-return mask followed by `dropna` keeps every copy of each complete row with a strictly positive return and no copy of any other row, in order |
| Cleaning.CleanRecordsIdempotent | garp_screener.py:102-103 | cleaning already-cleaned rows changes nothing |
| Cleaning.Clean | garp_screener.py:98-107 | an empty frame gives no rows; a non-empty frame fails with KeyError if and only if it lacks a selected column, and the error names exactly the missing ones; otherwise the result holds every copy of each projected row that is complete and has a positive return, and no other row, in order, each with one value per numeric column |
| Merging.Matches | garp_screener.py:139 | a row occurs among the pairings of one left row exactly when it joins that row with a right row of the same name (how often: MatchesCounts) |
| Merging.Join | garp_screener.py:139-140 | a row occurs in the inner join on 'Name' exactly when it joins an equally named left and right row (how often: JoinCounts) |
| Merging.MatchesCounts | garp_screener.py:139 | joining one left row yields each joined row as many times as there are right rows of that name producing it |
| Merging.JoinCounts | garp_screener.py:139-140 | the inner join yields each row as many times as there are pairs of equally named left and right rows producing it, so repeated rows are all kept |
| Merging.JoinWithEmpty | garp_screener.py:139-140 | an inner join with an empty side is empty |
| Merging.JoinedNamesOccurInBoth | garp_screener.py:139-140 | every joined row's name occurs on both sides |
| Merging.JoinedIsComplete | garp_screener.py:139-141 | joining two rows without NaN gives a row without NaN |
| Merging.JoinOfCompleteIsComplete | garp_screener.py:139-141 | joining datasets without NaN gives a dataset without NaN |
| Merging.Insert | garp_screener.py:147 | placing a row into a descending sequence keeps it descending and adds exactly that row |
| Merging.SortDescending | garp_screener.py:147 | the sort returns a permutation of its input, non-increasing in the sort column, with NaN last |
| Merging.MergedRowsAreCommon | garp_screener.py:139-141 | every row left after both joins and `dropna` has no NaN and a name present in all three horizons |
| Merging.MergeAndSort | garp_screener.py:139-147 | the merged result is sorted descending on the key column; it is a permutation of the NaN-free rows of both joins; every row has no NaN and a name present in all three horizons |
| Merging.MergedRowsAreMatchingTriples | garp_screener.py:139-141 | with cleaned inputs, a row is in the merged result if and only if it joins one row of each horizon, all three with the same name |
| Merging.MergedNamesAreCommon | garp_screener.py:139-141 | with cleaned inputs, the merged result names exactly the names common to all three horizons |
| Merging.MergeDropsNothing | garp_screener.py:141 | with cleaned inputs, the final `dropna` removes no row |
| Merging.MergeWithEmptyHorizon | garp_screener.py:139-140 | if any horizon is empty, the merged result is empty |
| Screener.FirstJoinLayout | garp_screener.py:139 | a row of the first join has three values, with the 3-month and 6-month returns at positions 1 and 2, both positive |
| Screener.MergedRowLayout | garp_screener.py:139-140 | a row of the second join has four values, with the 3-month, 6-month and 1-year returns at positions 1, 2 and 3, all positive |
| Screener.ScreenedRowsArePositive | garp_screener.py:97-147 | every row of a successful screen holds the price and the three returns, has no NaN and has strictly positive 3-month, 6-month and 1-year returns; the rows are in non-increasing order of the 6-month return |
| Screener.ScreenFailsExactly | garp_screener.py:97-135 | the run ends with KeyError if and only if some horizon's frame is non-empty and lacks a column it selects; the error names the missing columns of the first such horizon |
| Screener.EmptyFetchEmptiesScreen | garp_screener.py:97-147 | a horizon that fetched nothing leaves the final screen empty |
| Screener.RunScreener | garp_screener.py:94-147 | the script fetches and cleans the three horizons one after another and produces exactly `Screen` of the three fetched frames |

## Left out

- Network and HTML parsing (`pd.read_html`): each page request is abstracted as the `site` parameter. URL construction is reduced to the page numbers placed in the URLs (`requested`).
- `time.sleep`, every `print` and `pd.set_option`: they do not affect the data.
- The Excel write (`to_excel`) and its error handler: file output is outside the model.
- Floating point: numeric cells are integers, and `pd.to_numeric(errors='coerce')` is given by the `parse` parameter (text to a number or NaN).
- DataFrame index labels: `ignore_index=True` everywhere makes them irrelevant, so rows are plain sequences.
- Column-name suffixes of `pd.merge`: the three horizons share no column besides 'Name', so joined values are plain concatenations.
- Merging.SortDescending: states only order and permutation. The pandas sort is not stable, so the relative order of rows with equal 6-month returns is not modelled.
- Merging.MergeAndSort: when each horizon names each company at most once, the result has exactly one row per common name. Only the set of names (`MergedNamesAreCommon`) is proved, not that row count.
- Rebalance computation and snapshot storage: they do not appear in this source file.
