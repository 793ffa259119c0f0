# OptionsWheel screener — decision logic in Dafny

This project models the decision logic of the OptionsWheel stock screener.
The screener has two entry points:

- `analyze_stocks.py` screens a ticker universe in two stages:
  - a batched price pre-filter keeps tickers quoted below 100;
  - a per-ticker evaluation of four bullish-pullback criteria files each
    remaining ticker as PASS (all four hold), NEAR (exactly one fails) or
    nothing, then ranks both lists by `DiffPct`.
- `display_results.py` re-orders saved result rows with PASS first, then by
  `DiffPct`, and shows a fixed set of columns.

The external parts are parameters of the model:

- the quote provider (`PriceFilter.QuoteFetch`);
- the history provider (`Analysis.HistoryFetch`);
- the indicator maths (`Analysis.Measure`, which turns the price bars into a
  `Criteria.Snapshot`).

Every ordering the source gets from Python's `list.sort` or from pandas'
multi-key `sort_values` is modelled by one reference stable sort,
`Sorting.SortBy`. It is proved sorted, a permutation of its input and stable.
It is also proved to be the only sequence with those properties.

Modules and files:

| file | module | what |
|---|---|---|
| wrappers.dfy | Wrappers | `Option`; `Field` (a JSON key that is missing, `null`, or present) |
| sequences.dfy | Sequences | a general fact about sequence concatenation used by the loop proofs |
| price_filter.dfy | PriceFilter | `batch_price_filter`: batching, the price ceiling, candidate order |
| criteria.dfy | Criteria | the four named criteria and the `passed` / `failed` split |
| analysis.dfy | Analysis | `deep_analysis`: discard guards, PASS / NEAR / drop, the candidate loop |
| stable_sort.dfy | Sorting | the reference stable sort and its properties |
| screen.dfy | Screen | `main`: both phases followed by the two `DiffPct` sorts |
| display.dfy | Display | `display`: the `StatusOrder` key, the two-key ordering, the columns |

## Model

| member | source | states |
|---|---|---|
| PriceFilter.MarketPrice | OptionsWheel/analyze_stocks.py:44 | `item.get('regularMarketPrice')`: the price when the key is present with a value, nothing when the key is missing or `null` |
| PriceFilter.DisplayName | OptionsWheel/analyze_stocks.py:49 | `item.get('shortName', '')`: the name when present, `''` when the key is missing, and `None` when it holds `null` |
| PriceFilter.IsCheap | OptionsWheel/analyze_stocks.py:45 | An item is kept when its price is present and strictly below `PRICE_LIMIT` (100) |
| PriceFilter.ToCandidate | OptionsWheel/analyze_stocks.py:46-50 | The appended candidate: the item's symbol, its price and its display name |
| PriceFilter.KeepCheap | OptionsWheel/analyze_stocks.py:43-50 | The item loop over one response: the candidates of the cheap items, in response order; never more candidates than items, each priced below 100 |
| PriceFilter.FromResponse | OptionsWheel/analyze_stocks.py:41-50 | What one batch contributes: nothing when the fetch failed or returned an empty list (`if data:`), the cheap items otherwise |
| PriceFilter.Batches | OptionsWheel/analyze_stocks.py:37-38 | The slices `tickers[i:i+50]` for `i` in `range(0, len(tickers), 50)`; each holds 1 to 50 tickers |
| PriceFilter.Screened | OptionsWheel/analyze_stocks.py:36-52 | The whole pre-filter as a function: each batch's contribution, batch after batch |
| PriceFilter.BatchPriceFilter | OptionsWheel/analyze_stocks.py:35-52 | The batch loop and the item loop append exactly `Screened(tickers, fetch)`: for each batch in turn, the cheap items of its response, in response order |
| PriceFilter.BatchesPartition | OptionsWheel/analyze_stocks.py:37-38 | The batches concatenate back to the ticker list; each batch holds 1 to 50 tickers; every batch but the last holds exactly 50 |
| PriceFilter.BatchIsSlice | OptionsWheel/analyze_stocks.py:37-38 | There are ceil(n/50) batches, and batch j is the slice `tickers[50j : 50(j+1)]`, with the upper bound clamped to the length as Python does |
| PriceFilter.KeepCheapMembers | OptionsWheel/analyze_stocks.py:42-50 | A candidate comes from one response exactly when some item in it has a present price below 100 and converts to that candidate (symbol, price, `shortName`, or `''` when the key is missing) |
| PriceFilter.KeepCheapAppend | OptionsWheel/analyze_stocks.py:42-50 | Filtering keeps response order: filtering a concatenation gives the concatenation of the filtered parts |
| PriceFilter.ScreenedBelowLimit | OptionsWheel/analyze_stocks.py:41-45 | Every candidate's price is strictly below `PRICE_LIMIT` |
| PriceFilter.ScreenedProvenance | OptionsWheel/analyze_stocks.py:36-50 | A candidate is produced exactly when some batch's fetch succeeded and its response holds a cheap item that converts to it; a failed batch contributes nothing |
| PriceFilter.ScreenBatchesAppend | OptionsWheel/analyze_stocks.py:36-50 | Candidate order is batch order, then response order |
| PriceFilter.ScreenedStep | OptionsWheel/analyze_stocks.py:36-51 | One loop turn: the output for the tickers from index i onward is this batch's contribution followed by the output for the tickers after the batch |
| PriceFilter.ThreeTickerScreen | OptionsWheel/analyze_stocks.py:35-52 | Tickers quoted at 50, 150 and 99 give exactly the candidates at 50 and 99, in that order; a missing `shortName` becomes `''` |
| Criteria.Name | OptionsWheel/analyze_stocks.py:158-163 | The display names "Price > EMA50", "ADX < 30", "30 <= RSI <= 50", "RSI Rising (3d)" used as the keys of `conds` |
| Criteria.RsiToday | OptionsWheel/analyze_stocks.py:150 | `rsi_series.iloc[-1]`: the last RSI value |
| Criteria.RsiThreeSessionsAgo | OptionsWheel/analyze_stocks.py:151 | `rsi_series.iloc[-4] if len(rsi_series) >= 4 else None` |
| Criteria.Holds | OptionsWheel/analyze_stocks.py:158-163 | The values of `conds`: price > ema50; adx < 30; 30 <= today's RSI <= 50; the RSI three sessions ago is present and below today's |
| Criteria.NamesWhere | OptionsWheel/analyze_stocks.py:165-166 | The comprehension over `conds.items()` in insertion order, keeping the names whose value equals the wanted outcome; at most as many names as criteria |
| Criteria.Passed | OptionsWheel/analyze_stocks.py:165 | `passed`: the names of the criteria that hold, in the fixed order |
| Criteria.Failed | OptionsWheel/analyze_stocks.py:166 | `failed`: the names of the criteria that do not hold, in the fixed order |
| Criteria.RsiRisingExactly | OptionsWheel/analyze_stocks.py:150-162 | "RSI Rising (3d)" holds exactly when the RSI series has at least 4 values and the last exceeds the one at index len-4; a shorter series fails it |
| Criteria.NamesWhereMembers | OptionsWheel/analyze_stocks.py:165-166 | A name is in the comprehension for a given outcome exactly when some criterion with that name has that outcome |
| Criteria.SplitPartitions | OptionsWheel/analyze_stocks.py:165-166 | For any list of criteria, the passed and failed names together are the list's names as a multiset, and each side keeps the list's order |
| Criteria.PassedFailedPartition | OptionsWheel/analyze_stocks.py:158-166 | `passed` and `failed` partition the four names "Price > EMA50", "ADX < 30", "30 <= RSI <= 50", "RSI Rising (3d)"; together they hold 4 names; each keeps the fixed order |
| Criteria.FailedNamesAreCriteria | OptionsWheel/analyze_stocks.py:158-166 | Every name in `failed` is one of the four criterion names |
| Criteria.FailedExactly | OptionsWheel/analyze_stocks.py:158-166 | A criterion's name is in `failed` exactly when the criterion does not hold, and in `passed` exactly when it holds |
| Criteria.FailedCount | OptionsWheel/analyze_stocks.py:165-185 | No failed name exactly when all four criteria hold; one exactly when one fails and the rest hold (and then `failed` is that one's name); two or more exactly when two different criteria fail |
| Criteria.AdxOnlyFailure | OptionsWheel/analyze_stocks.py:158-166 | With ADX 35 and every other criterion met, `failed` is ["ADX < 30"] and `passed` holds the other three names in order |
| Analysis.QuotesOf | OptionsWheel/analyze_stocks.py:131 | `data.get('quotes', [])`: the quotes, or the empty list when the key is missing |
| Analysis.FrameEmpty | OptionsWheel/analyze_stocks.py:135-136 | `pd.DataFrame(quotes).empty`: there are no bars, or no bar has any key, so the frame has no column |
| Analysis.MakeRecord | OptionsWheel/analyze_stocks.py:168-179 | `res_data`: the candidate's symbol and name with the rounded price, EMA50, ADX, RSI, RVI, MACD, signal and `DiffPct`, and no `Failed Criterion` |
| Analysis.Classify | OptionsWheel/analyze_stocks.py:127-185 | A candidate is discarded exactly when its fetch failed, it has fewer than 60 quotes, or its frame is empty; a PASS record has no `Failed Criterion`; a NEAR record names one of the four criteria; both keep the candidate's symbol and name |
| Analysis.ClassifyByFailedCount | OptionsWheel/analyze_stocks.py:168-185 | With a usable history: PASS exactly when `failed` is empty; NEAR exactly when it has one entry, and `Failed Criterion` is that entry; dropped exactly when it has two or more; apart from `Failed Criterion`, a PASS or NEAR record is `res_data`, the candidate's symbol and name with the rounded figures |
| Analysis.ClassifyByCriteria | OptionsWheel/analyze_stocks.py:158-185 | With a usable history: PASS exactly when all four criteria hold; NEAR exactly when one fails and the others hold; dropped exactly when two different criteria fail |
| Analysis.NearMissNamesFailure | OptionsWheel/analyze_stocks.py:181-184 | For a NEAR verdict, a criterion fails exactly when its name is the recorded `Failed Criterion` |
| Analysis.Passes | OptionsWheel/analyze_stocks.py:113-189 | `results` has at most one record per candidate, and no record in it has a `Failed Criterion` |
| Analysis.NearMisses | OptionsWheel/analyze_stocks.py:113-189 | `near_misses` has at most one record per candidate, and each names one of the four criteria as its `Failed Criterion` |
| Analysis.PassesAppend | OptionsWheel/analyze_stocks.py:122-182 | `results` follows candidate order: the records for a concatenation of candidates are the first part's records followed by the second part's |
| Analysis.NearMissesAppend | OptionsWheel/analyze_stocks.py:122-185 | `near_misses` follows candidate order in the same way |
| Analysis.NoRecordWithoutVerdict | OptionsWheel/analyze_stocks.py:127-185 | A candidate that is discarded (failed fetch, fewer than 60 quotes, empty frame) or has two or more failures leaves both lists as they would be without it |
| Analysis.RecordsFromCandidates | OptionsWheel/analyze_stocks.py:122-189 | A record is in `results` (`near_misses`) exactly when some candidate's verdict is PASS (NEAR) with that record |
| Analysis.LoopStep | OptionsWheel/analyze_stocks.py:122-185 | One turn of the candidate loop appends to each list what that candidate's verdict contributes, and nothing else |
| Analysis.DeepAnalysis | OptionsWheel/analyze_stocks.py:113-189 | The loop, with its `continue` guards and appends, returns exactly `Passes` and `NearMisses` of the candidates |
| Sorting.Insert | OptionsWheel/analyze_stocks.py:203-204 | Inserting into a sorted sequence keeps it sorted and adds exactly the new element |
| Sorting.SortBy | OptionsWheel/analyze_stocks.py:203-204 | The sort by key is non-decreasing, a permutation of its input, and has the same length |
| Sorting.WithKeyMembers | OptionsWheel/analyze_stocks.py:203-204 | The key group of k holds exactly the elements whose key is k |
| Sorting.SortByStable | OptionsWheel/analyze_stocks.py:203-204 | Stability: for every key value, the elements with that key come out in their input order |
| Sorting.StableSortUnique | OptionsWheel/analyze_stocks.py:203-204 | Two sorted sequences whose key groups all agree are equal, so every stable sort (Timsort included) gives `SortBy`'s result |
| Sorting.ThenBySorted | OptionsWheel/display_results.py:11 | A stable sort by the minor key followed by a stable sort by the major key orders lexicographically by (major, minor) |
| Sorting.GroupsCommute | OptionsWheel/display_results.py:11 | Selecting the group of one key and then of another gives the same sequence as selecting them in the other order |
| Screen.DiffPctOf | OptionsWheel/analyze_stocks.py:203-204 | The sort key `lambda x: x['DiffPct']` of both `list.sort` calls |
| Screen.RunScreen | OptionsWheel/analyze_stocks.py:191-204 | The candidates are the pre-filter's output, all below the ceiling; each final list is the analysis output sorted by `DiffPct`: a permutation, non-decreasing, and stable; PASS records carry no `Failed Criterion`, and NEAR records name one of the four |
| Display.StatusOrder | OptionsWheel/display_results.py:10 | The key is 0 exactly when `Status` is 'PASS', and 1 for any other value, a `null` or missing one included |
| Display.Ordered | OptionsWheel/display_results.py:11 | The ordered rows are a permutation of the input rows, with the same length |
| Display.OrderedByStatusThenDiff | OptionsWheel/display_results.py:9-11 | Every PASS row precedes every non-PASS row, and among rows of equal status `DiffPct` does not decrease |
| Display.OrderedKeepsTies | OptionsWheel/display_results.py:11 | Rows with equal `StatusOrder` and equal `DiffPct` keep their order from the file |
| Display.HasKey | OptionsWheel/display_results.py:8 | Whether one row carries a key, a key holding `null` included: `Symbol` and the seven numeric keys always, `Name`, `Status` and `Failed Criterion` when present in that row, no other key |
| Display.HasColumn | OptionsWheel/display_results.py:8 | Among the modelled keys, `pd.DataFrame(data['results'])` has a column exactly when at least one row carries that key; an empty `results` gives no column |
| Display.Column | OptionsWheel/display_results.py:8-14 | One row's cell in a shown column or in `StatusOrder`, blank for a missing or `null` value, and nothing for any other name; whether the frame has that column is decided by `HasColumn` |
| Display.Cells | OptionsWheel/display_results.py:13 | A row's shown cells are the 11 columns `Symbol, Name, Status, Price, EMA50, DiffPct, ADX, RSI, RVI, MACD, Failed Criterion`, in that order |
| Display.MissingColumns | OptionsWheel/display_results.py:8-14 | A column name is reported missing exactly when it is asked for and no row carries that key; a key present with `null` still makes a column |
| Display.Show | OptionsWheel/display_results.py:8-14 | `KeyError(['Status'])` exactly when no row carries a `Status` key (an empty `results` included); with a `Status` column, a `KeyError` lists exactly the shown columns that no row carries; otherwise a table with the fixed header and one line per row, holding the columns of the ordered rows, where a missing or `null` value is blank |
| Display.OneFullRowHasAllColumns | OptionsWheel/display_results.py:8 | A row that carries `Name`, `Status` and `Failed Criterion`, even as `null`, gives the frame every shown column |
| Display.NullKeysMakeColumns | OptionsWheel/display_results.py:8-14 | Rows with `"Failed Criterion": null`, or with `"Status": null`, are shown as a table |
| Display.MissingNameColumn | OptionsWheel/display_results.py:8-14 | Rows none of which has a `Name` key give a `KeyError` for `Name` alone |

## Left out

- The HTTP layer is not modelled: `safe_get`, the 429 retry loop, `raise_for_status`, URL building and `time.sleep`. Each provider is a function parameter whose `None` stands for a failed or empty response.
- `get_tickers` and the JSON load in `display` are file I/O. The ticker list and the saved rows are inputs.
- The indicators `calculate_ema`, `calculate_rsi`, `calculate_adx`, `calculate_macd` and `calculate_rvi` are pandas floating-point numerics, and so are `round(..., 2)` and the `DiffPct` arithmetic. They all sit behind the `Measure` parameter. A `Snapshot` keeps two sets of values. The criteria compare the unrounded price, EMA(50), ADX and RSI series (OptionsWheel/analyze_stocks.py:159-162). The record stores the separate rounded `Figures` (lines 168-178). Nothing relates the two sets, because rounding is not modelled. The only requirement on it is one RSI value per bar, as pandas keeps. NaN and infinite values, and the comparisons on them, are out of scope. Numbers are `real`.
- Date parsing and `sort_values('date')` happen inside `Measure`. The guard `df.empty` is modelled on the raw bars.
- Progress messages, the two printed tables in `main` and `DataFrame.to_string` rendering are not modelled. This includes the near-miss column subset at OptionsWheel/analyze_stocks.py:216. `Display.Show` yields the cells, not the text.
- Some crashes of the source are not modelled:
  - a `KeyError` on an item without `symbol`;
  - a `TypeError` on a `quotes` value of `null`, which the model reads as a missing key;
  - a `KeyError` on bars without `date` or `close` (lines 139-145), or without `high` or `low`, which `calculate_adx` reads (lines 71-72, called at line 153);
  - a parse error from `pd.to_datetime` on a date string it cannot read (line 140).
  The model assumes these keys are present.
- The hard-coded end date and the 120-day history window are not modelled; they only shape the request URL.
- The Python lists mutated in place (`candidates.append`, `list.sort`) are modelled as sequence variables that are reassigned. No other code holds these lists, so aliasing does not arise.
- `list.sort` and pandas' multi-key `sort_values` are modelled by one stable sort. `Sorting.StableSortUnique` shows that any stable sort gives the same result. That pandas sorts on several columns stably (lexicographically) is assumed from its documentation, and `Display.Ordered` uses two stable passes for it.
- Display.HasKey: the keys of a saved row that are not shown, such as `Signal` (written by `res_data` at OptionsWheel/analyze_stocks.py:177), are not modelled, so the frame's extra columns are not represented; they do not affect the ordering or the shown table.
- Display.Show: the rows are assumed to carry `Symbol` and the numeric columns. Only `Status`, `Name` and `Failed Criterion` may be missing or `null`. A `KeyError` is modelled by the list of missing columns, not by its message text.
- `display_results.py` reads `analysis_results.json` and expects each row to carry a `Status` key, but `analyze_stocks.py` writes no file and sets no `Status` (OptionsWheel/analyze_stocks.py:168-183). The file and the rows are therefore inputs of `Display.Show`. Rows shaped like the analyser's records carry no `Status`, and `Display.Show` on them is `KeyError(['Status'])`.
- `analyze_stocks.py` has only the four bullish criteria (lines 158-163). It has no bearish variant and no REJECTED status: a ticker with two or more failures is silently dropped.
