# Procurement dashboard pages, modelled in Dafny

The repository is a Streamlit dashboard for a vendor in the Korean public
procurement market. This project models the rule-based logic inside five of
its pages:

- **Year page** (`home_app.py`) and **listing page** (`g2b_app.py`) of
  delivery requests. Each resolves a *comparison day*: a lag-based
  candidate, moved to Friday when today is a weekend day or a Monday, then
  walked back over a literal holiday list. Each takes two cumulative slices
  of the deliveries: rows received up to today and rows received up to the
  comparison day. The year page keeps only the rows of the two partner
  vendors (미도플러스, 에코그라운드). The pages show KPI cards: a count, an
  amount sum and a quantity sum, each with a delta. The year page formats
  the delta as a coloured HTML span (`format_delta`). The listing page gives
  it a signed text and a `delta_color`, and also shows a partner quantity
  share. Both pages end with a searchable table sorted by receipt date.
- **Budget-list page** (`listup_app.py`). It has two budget tables: local
  governments and education offices. Their numeric columns are normalised in
  place: `'None'` becomes null, commas are stripped, and unparsable text
  becomes null. One column is then filtered by range or by text. Rows
  flagged `삭제` are hidden from the editable view. Edited rows are written
  back into the whole table by index label.
- **Bid-notice page** (`info21C_app.py`). Its `filter_data` derives slider
  bounds and a default range from a numeric column, widens a degenerate
  range to `(0, max)`, and filters by that range or by a text search. It
  shows the row count.
- **News page** (`news_app.py`). It has `make_clickable`, a title/content
  search, and a date reformat on the loaded table after the search. Without
  a search term, the shown table *is* the loaded table, so it carries the
  reformat. With a term it is a new table that does not.

Modules:

- `Wrappers`: Option and Result.
- `Text`: numerals, grouped numbers, comma stripping, case-insensitive
  substring.
- `Tables`: selections, search, range, count, sum, bounds, descending sort,
  count label.
- `ReportDate`: the date resolver.
- `Deliveries`: slices, partner rows, delivery tables.
- `KpiFormat`: value and delta texts.
- `KpiPanels`: the cards of both pages.
- `Cells`: dataframe cells and the `.str` search.
- `BudgetList`: the budget page, with the class `BudgetSheet`.
- `BidFilter`: the bid-notice page.
- `News`: the news page, with the class `NewsFrame`.

Days are integers counted from 1970-01-01, and `weekday()` is
`(d + 3) % 7`. `datetime.now()` becomes the parameter `today`. The calendar
formatting `strftime('%Y-%m-%d')` becomes a function parameter (`isoDate`,
`fmt`).

With the code's own holiday list, Monday 2025-06-09 compares with Thursday
2025-06-05, because Friday 2025-06-06 is listed
(`ReportDate.HomeMonday20250609`).

## Model

| member | source | states |
|---|---|---|
| ReportDate.WalkBack | home_app.py:45-46 | the walk ends on a day not after its start that is not a holiday; every day skipped is a holiday; a non-holiday start is kept |
| ReportDate.ResolveDates | home_app.py:34-48 | the loop returns today and the comparison day; the comparison day is at most the candidate and is not a holiday, and every day between them was a holiday |
| ReportDate.NoHolidayNoWalk | home_app.py:45-46 | when the candidate is not a holiday it is the comparison day |
| ReportDate.WeekendCandidateIsFriday | home_app.py:38-43 | on Saturday, Sunday and Monday the candidate is the preceding Friday, at most three days back |
| ReportDate.HomeCandidate | home_app.py:36-43 | year page: three days back on Monday, one on Saturday, two on every other day, decided by today's weekday |
| ReportDate.G2bCandidate | g2b_app.py:26-33 | listing page: three days back on Monday, two on Sunday, one otherwise; the Saturday branch equals the default |
| ReportDate.ComparisonBeforeToday | home_app.py:36-46 | with a lag of at least one day the comparison day is strictly before today |
| ReportDate.WalkBackIsLatest | g2b_app.py:35-36 | the comparison day is the latest non-holiday not after the candidate |
| ReportDate.HomeMonday20250609 | home_app.py:22-46 | with the literal list, Monday 2025-06-09 compares with 2025-06-05 because 2025-06-06 is listed |
| ReportDate.G2bTuesday20250304 | g2b_app.py:12-36 | Tuesday 2025-03-04 steps off the holiday 2025-03-03 onto Sunday 2025-03-02 |
| ReportDate.HomeFriday20251010 | home_app.py:22-46 | Friday 2025-10-10 walks over 10-08, 10-07 and 10-06 to Sunday 2025-10-05 |
| ReportDate.ComparisonMayBeSunday | g2b_app.py:35-36 | the weekend is not re-checked after the walk: the comparison day can be a Sunday |
| Deliveries.CurrentYear | home_app.py:18 | exactly the rows received within the current year, as a subsequence |
| Deliveries.UpTo | home_app.py:55-56 | exactly the rows received up to and including the day, as a subsequence |
| Deliveries.PartnerRows | home_app.py:58-59 | exactly the rows whose vendor name contains 미도플러스 or 에코그라운드 |
| Deliveries.PartnerUpToCommute | home_app.py:55-59 | selecting partner rows and cutting at a day commute |
| Deliveries.SlicesNested | home_app.py:55-59 | the comparison-day slice is a subsequence of the today slice, before and after the partner selection |
| Deliveries.SliceSplit | g2b_app.py:49-50 | the today slice cut at the comparison day is the comparison slice; the rest is what arrived in between |
| Deliveries.CountDeltaIsArrivals | g2b_app.py:55-57 | today's count minus the comparison day's is the count of what arrived in between |
| Deliveries.SumDeltaIsArrivals | g2b_app.py:68-70 | today's sum minus the comparison day's is the sum of what arrived in between |
| Deliveries.EmptyComparisonSlice | home_app.py:55 | a comparison day before every row gives an empty comparison slice |
| Deliveries.Search | home_app.py:183-184 | an empty term keeps all rows; otherwise kept rows are exactly those whose chosen column contains the term ignoring case, nulls never matching |
| Deliveries.HomeTable | home_app.py:169-189 | the year page's table is sorted newest first and is a permutation of the searched partner rows up to today |
| Deliveries.G2bTable | g2b_app.py:141-161 | the listing page's table is sorted newest first and is a permutation of all searched rows up to today |
| KpiFormat.ValueTextNoData | home_app.py:99-123 | a card shows 데이터 없음 exactly when its aggregate is not positive |
| KpiFormat.FormatDeltaTag | home_app.py:61-77 | green ▲ exactly for a rise, red ▼ exactly for a fall, black - exactly for no change |
| KpiFormat.FlatDeltaHasNoNumber | home_app.py:77 | a zero delta prints the dash and no digit |
| KpiFormat.ReadFormatDelta | home_app.py:72-77 | the formatted span reads back as the delta |
| KpiFormat.DeltaTextMeaning | g2b_app.py:58 | the delta text is empty exactly for zero; otherwise it starts with the sign and reads back as the delta |
| KpiFormat.DeltaColourTrichotomy | g2b_app.py:59 | the colour is exactly one of inverse, normal and off, by the sign |
| KpiPanels.HomeKpis | home_app.py:89-126 | the year page's cards exist exactly when data was loaded |
| KpiPanels.PartnerDeltas | home_app.py:93-95 | deltas of the partner slices are the aggregates of the partner rows that arrived in between |
| KpiPanels.HomeDeltasAreArrivals | home_app.py:93-125 | each delta shown is the formatted aggregate of the partner deliveries received after the comparison day |
| KpiPanels.HomeDeltasNeverFall | home_app.py:93-119 | the count never shows ▼; the amount and quantity never do when their values are not negative |
| KpiPanels.HomeValuesNoData | home_app.py:97-123 | each card shows 데이터 없음 exactly when its today aggregate is not positive |
| KpiPanels.HomeComparisonBeforeYear | home_app.py:18-56 | a comparison day before the year makes each delta the whole today aggregate |
| KpiPanels.G2bKpis | g2b_app.py:54-137 | the listing page's metrics exist exactly when data was loaded; the quantity-share card is the corrected one (see Findings) |
| KpiPanels.G2bCaseDelta | g2b_app.py:55-66 | the count delta is the number of quantity entries that arrived; never inverse; empty text exactly when none arrived |
| KpiPanels.G2bSumDeltas | g2b_app.py:68-92 | amount and quantity deltas are the sums that arrived; never inverse for non-negative values |
| KpiPanels.G2bValuesNoData | g2b_app.py:63-89 | each metric shows 데이터 없음 exactly when its today aggregate is not positive |
| KpiPanels.PartnerPartBounded | g2b_app.py:96-97 | with non-negative quantities the partner part is between 0 and the whole |
| KpiPanels.RateCardColour | g2b_app.py:128-130 | a share that did not fall is never inverse; one that did not rise is never normal |
| KpiPanels.QuantityRateAsWrittenNeverMoves | g2b_app.py:126-130 | as written, the share card is always off, its text blank (or +nan for a zero total), whatever the comparison day |
| KpiPanels.QuantityRateCounterexample | g2b_app.py:126-130 | a table where the intended card rises from 0 % to 50 % while the card as written shows no change |
| KpiPanels.QuantityRateRisesWithPartners | g2b_app.py:126-130 | corrected card: when every arrival is a partner's, the share is never shown falling |
| KpiPanels.QuantityRateFallsWithoutPartners | g2b_app.py:126-130 | corrected card: when no arrival is a partner's, the share is never shown rising |
| Text.ParseShowInt | listup_app.py:26 | an integer written as text parses back to itself |
| Text.GroupedReadsBack | home_app.py:73-75 | a thousands-grouped number parses back once its commas are stripped |
| Text.SignedGroupedReadsBack | g2b_app.py:58 | likewise for the explicitly signed form |
| Tables.Select | home_app.py:58-59 | a mask selection keeps exactly the rows that pass, in order |
| Tables.SelectMultiplicity | home_app.py:58-59 | a selection keeps each passing row as often as the table holds it, and no failing row |
| Tables.TextSearch | listup_app.py:40-45 | empty term: the whole table; otherwise exactly the rows whose text contains the term ignoring case, nulls excluded |
| Tables.RangeSelect | listup_app.py:36-38 | exactly the rows whose value lies in the inclusive range; nulls dropped |
| Tables.Bounds | info21C_app.py:18-19 | column min and max are actual values bounding every value; none exactly when all are null |
| Tables.FullRangeKeepsAllValued | listup_app.py:32-38 | the default range (min, max) keeps every non-null row |
| Tables.SortDescending | home_app.py:187 | `sort_values(ascending=False)`: sorted descending and a permutation |
| Tables.CountLabelReadsBack | listup_app.py:49 | the "N 건" label reads back as the number of rows shown |
| Cells.SearchCells | listup_app.py:89-94 | the text filter on a dataframe column, including the failure on a column without text |
| BudgetList.ParseCell | listup_app.py:24-26 | a parsed cell is null or a number; 'None' and null become null; text becomes its comma-free numeral's value, or null |
| BudgetList.ParseCellNumber | listup_app.py:26 | a number cell is unchanged by parsing |
| BudgetList.ParseCellGrouped | listup_app.py:26 | "1,234,000"-style text parses to its value |
| BudgetList.ParseCellIdempotent | listup_app.py:24-26 | parsing a parsed cell changes nothing |
| BudgetList.ParseColumn | listup_app.py:25-26 | one column is rewritten in every row; every other column is unchanged |
| BudgetList.ParseColumnsCells | listup_app.py:24-26 | after the loop each listed column holds its parsed cells; others are unchanged |
| BudgetList.ParseColumnsKeys | listup_app.py:73-75 | the loop adds exactly the listed columns to each row |
| BudgetList.ParseColumnsIdempotent | listup_app.py:24-26 | normalising a normalised table changes nothing |
| BudgetList.NormalisedColumnNumeric | listup_app.py:24-26 | after the loop every listed column holds only numbers and nulls |
| BudgetList.TabsNormalised | listup_app.py:21-26 | each tab's own numeric columns (seven for the local governments, 금액 and 면적 for the education offices) hold only numbers and nulls after normalising, so the range comparisons on them see only numbers and nulls |
| BudgetList.BudgetSheet.NormaliseNumeric | listup_app.py:73-75 | the in-place loop leaves the table the column-by-column parse of the old one |
| BudgetList.SelectionOfTable | listup_app.py:36-48 | any selection of the indexed table has ascending labels naming its own rows |
| BudgetList.ListFilter | listup_app.py:31-45 | numeric column: exactly the rows in the inclusive range; other column: the text search |
| BudgetList.ListDefaultRange | listup_app.py:32-38 | at the default range a numeric filter keeps exactly the rows holding a number |
| BudgetList.EditableView | listup_app.py:48 | exactly the filtered rows whose 삭제 flag is False, in order |
| BudgetList.MergedUntouched | listup_app.py:57 | a row no edit names is unchanged, hidden and deleted rows included |
| BudgetList.MergedWritten | listup_app.py:105 | every edited row ends up at the label it carries |
| BudgetList.MergeUnedited | listup_app.py:51-57 | writing back an unedited view gives the table back |
| BudgetList.BudgetSheet.ApplyEdits | listup_app.py:105 | the in-place loop leaves the table merged with the edits |
| BudgetList.TabView | listup_app.py:85-97 | the editable view of the filtered table names rows of its table, each label once, in order |
| BudgetList.TabSaveEffect | listup_app.py:48-57 | saving writes each edit at its label and leaves every row outside the view as it was |
| BudgetList.BudgetSheet.ShowTab | listup_app.py:17-57 | one tab: normalise, filter, show the count, merge the edits; a failing search stops after normalising |
| BidFilter.SliderBounds | info21C_app.py:18-19 | the slider ends are the column's min and max, or (0, 0) for an all-null column |
| BidFilter.DefaultRange | info21C_app.py:20 | the default range is the bounds when min < max, otherwise (0, max) |
| BidFilter.FilterData | info21C_app.py:17-37 | numeric column: exactly the rows in the inclusive range; other column: empty term keeps all, else exactly the matching rows or the accessor error; always with the count label |
| BidFilter.FilterDataCount | info21C_app.py:37 | the count shown is the number of rows shown |
| BidFilter.DefaultRangeKeepsValued | info21C_app.py:20-28 | on a column with distinct values the default range keeps every row holding a number |
| BidFilter.DegenerateColumn | info21C_app.py:18-28 | a constant column v gets the default range (0, v); filtered by that range unchanged, it keeps every row when v >= 0 and none when v < 0 |
| News.LinkTarget | news_app.py:10-11 | a recognised link is exactly `make_clickable` of its address |
| News.LinkTargetOfClickable | news_app.py:10-11 | every built link is recognised with its address |
| News.ClickableInjective | news_app.py:10-11 | different addresses give different links |
| News.SearchNews | news_app.py:30-33 | empty term: all articles; otherwise exactly those whose title or content contains the term ignoring case, nulls excluded |
| News.Reformat | news_app.py:36 | every date becomes text, a timestamp its formatted day |
| News.Reformatted | news_app.py:36 | only dates change and all become text |
| News.ReformattedIdempotent | news_app.py:36 | rewriting the dates twice is rewriting them once |
| News.SearchThenReformat | news_app.py:30-36 | searching the rewritten table is rewriting the searched table |
| News.NewsFrame.ReformatDates | news_app.py:36 | the loaded table is left with its dates rewritten |
| News.NewsPage | news_app.py:28-39 | no term: the shown table is the loaded table itself, dates rewritten; a term: a new table of the matches, dates not rewritten |

## Left out

- Streamlit widgets, headers, tabs, markdown and HTML rendering, `st.stop`
  and the session user. The chosen column, the search term, the slider range
  and the editor's output are parameters.
- The header lines that print the earliest date of the loaded table
  (g2b_app.py:45, news_app.py:18). They run before any emptiness test. On
  an empty table the earliest date is missing and formatting it raises, so
  both pages stop there. The model has no such failure. Its empty-table
  results (KpiPanels.G2bKpis giving no panel for `rows == []`, and
  News.NewsPage of an empty table) stand for a page that is never shown.
- Loading data, saving it to the database, and logging user actions
  (listup_app.py:59-61, listup_app.py:108-109). These are calls into code
  that is not part of this model.
- Charts and the map of the year page (home_app.py:193-299). They are
  visualisation over floating-point coordinates.
- `datetime.now()`, the calendar, `strftime` and `strptime`. Days are
  integers given as parameters, the current year is given by its first day
  and the next year's, and the date formatting is a function parameter.
- The share cards other than the listing page's quantity share: the count
  and amount shares of both pages and all three share cards of the year
  page (home_app.py:128-165, g2b_app.py:99-124). They are floating-point
  division with rounding and unguarded zero denominators.
- KpiPanels.G2bKpis: shows the corrected quantity-share card
  (KpiPanels.QuantityRate), not the card written at g2b_app.py:126-130,
  which never moves (KpiPanels.QuantityRateAsWritten; see Findings).
- KpiPanels.QuantityRate: compares the shares without `round(..., 2)`.
  Two shares within rounding of each other count as different here and
  equal in the page. An infinite share (a zero total with a non-zero partner
  part, possible only with negative quantities) is treated like NaN.
- Regular-expression semantics of `str.contains`. The term and the vendor
  pattern `미도플러스|에코그라운드` are read as literal substrings.
- Text.ContainsIgnoringCase: folds only ASCII letters. Python's Unicode case
  folding is not modelled.
- BudgetList.ParseCell: reads only integer numerals with an optional sign.
  Text that `pd.to_numeric` reads as a decimal, in exponent form or with
  surrounding blanks becomes null here. So do "inf", "-inf" and "Infinity",
  which `pd.to_numeric` reads as infinite floats.
- KpiFormat.ValueText: writes integers. The page would print a column
  holding nulls as a float sum with a trailing ".0".
- KpiFormat.DeltaText: writes integers too. When the amount or quantity
  column holds a null, pandas sums it as a float, and the listing page
  prints the delta with a trailing ".0" ("+1,500.0" where the model has
  "+1,500"). KpiPanels.MetricOf uses this text. The year page's
  `format_delta` writes fixed decimals and is not affected.
- Deliveries.IsPartnerVendor: the vendor name is never null in the model. A
  null vendor would make the page's mask fail.
- Cells.NumericColumn: stands in for `is_numeric_dtype`, meaning every cell
  is null or a number. Flag columns, which pandas counts as numeric, take
  the text branch here.
- Cells.HasText: stands in for pandas' dtype inference behind `.str`. A
  non-empty column with no text cell is the accessor error.
- Cells.Get: a missing column reads as null, where pandas raises `KeyError`.
  So BudgetList.ParseColumn adds a missing numeric column of nulls.
- BudgetList.EditableView: keeps only cells that are the flag `False`.
  pandas' `== False` also matches the number 0.
- BudgetList.EditedView: stands in for the editor widget. The editor is assumed
  to return one row per row of the view, under the same labels, with contents
  chosen by the user.
- BudgetList.Indexed: the loaded budget tables carry the default index
  0, 1, ... One row per label is assumed to come back from the editor. Rows
  added or removed in the editor are not modelled.
- BidFilter.DegenerateColumn: assumes the slider returns its default range
  unchanged. What the widget does with a reversed range (0, v) for v < 0 is
  not modelled.
- Streamlit's own validation of slider bounds and values, fractional slider
  positions, and the all-null numeric column whose `float(NaN)` bounds the
  budget page passes to the slider. The range is given as integer
  parameters.
- The broad `try/except` of info21C_app.py:41-68. It only displays the
  error, and the model returns that error as `Err`.
- The column projection `view_columns` (home_app.py:171-173,
  g2b_app.py:143-145). The tables keep whole rows. Sorting on the
  'YYYY-MM-DD' text is modelled as sorting on the day number, which orders
  the same way.
- Tables.SortDescending: fixes no order among rows of the same day. The
  page's `sort_values` is not stable, so the model promises only that the
  result is sorted and is a permutation.
- News.Reformat: a date that is already text is left as it is. Re-parsing
  it with `pd.to_datetime` is taken to give the same text.
- News.Reformat: a date cell cannot be missing in the model. In the page a
  missing date becomes NaT, and then NaN after formatting, not text. So
  "every date becomes text" in News.Reformat and News.Reformatted holds
  only for tables whose every article has a date.

## Findings

| source | as written | input that shows it | evidently intended | confidence | as-written member | corrected member |
|---|---|---|---|---|---|---|
| g2b_app.py:127 | `yesterday_sum_rate` is computed from `today_data_filtered` and `today_data`, so the quantity-share delta is always 0 (or NaN) and the card never moves | one non-partner delivery of quantity 1 on day 1 and one 미도플러스 delivery of quantity 1 on day 2, today = 2, comparison day = 1: the share rises from 0 % to 50 % but the card shows "off" (KpiPanels.QuantityRateCounterexample) | compute it from `yesterday_data_filtered` and `yesterday_data`, as the count and amount shares do at lines 101 and 114 | high; not executed | KpiPanels.QuantityRateAsWritten | KpiPanels.QuantityRate |
