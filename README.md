# Sales report processor: a verified model

This project models the reporting core of `scripts/data_processor.py`, the
offline step that turns a table of sales orders into dashboard reports. After
loading and cleaning the table, the script builds twelve independent reports.
All but the order-status distribution use only the orders whose status is
`Completed`. Each report is
built with group-by, sum, distinct-count, mean, sort, top-N, running-sum and
window steps:

- key figures (KPIs);
- monthly trends, with growth and a three-month moving average;
- category performance, with a Pareto class;
- regional performance;
- channel, payment method, day-of-week and Prime membership breakdowns;
- courier performance;
- top products and top brands;
- the order-status distribution, which is the only report over all orders.

The model is pure, as the script is. A cleaned order is the datatype
`SalesData.Row`, and every report is a function from `seq<Row>` to a sequence
of report rows. Around each report, lemmas state what its numbers mean:

- each row summarises exactly the orders of its key;
- no key appears twice, and every key of the input has a row;
- the grouped totals add up to the overall totals;
- the shares add up to 100;
- sort order and top-N selection hold;
- orders with another status change nothing.

Shared machinery:

- `Aggregates` defines `Fraction`, a quotient that may have a zero
  denominator, and the `Sum`/`Where`/`NUnique`/`GroupBy` operations.
- `Ordering` holds the stable sorts and `Largest`, the model of
  `sort_values(...).head(n)` and `nlargest`.
- `Windows` holds `pct_change`, `rolling(3).mean()` and `cumsum`.
- `Cleaning` holds the per-row defaults and the late-delivery rule of
  `load_and_clean_data`.

Money is `real`, so every figure is exact and the rounding to two decimals
the script applies is not modelled. A ratio is a `Fraction`. It is `Defined`
exactly when its denominator is non-zero, and `Value` gives its quotient
only then. The model's undefined value stands for pandas' NaN or infinity.

## Model

| member | source | states |
|---|---|---|
| SalesData.Completed | scripts/data_processor.py:69 | only input rows whose status is `Completed`, and every such row |
| SalesData.CompletedMultiset | scripts/data_processor.py:69 | the completed rows keep each row whose status is `Completed` exactly as often as it occurs in the input, and no other row |
| SalesData.OtherStatusIgnored | scripts/data_processor.py:69 | inserting a row with another status anywhere leaves the completed rows unchanged |
| SalesData.CompletedUnitsTotal | scripts/data_processor.py:75 | the integer unit total equals the same total taken over reals |
| SalesData.MonthOrdinalInjective | scripts/data_processor.py:93 | two `YearMonth` keys with the same month ordinal are the same month, so ordering by ordinal orders the keys |
| Cleaning.Lower | scripts/data_processor.py:54 | ASCII lower-casing, which keeps the length of the text and decides `== 'yes'` exactly, since no other character lower-cases to y, e or s |
| Cleaning.LateFlag | scripts/data_processor.py:53-54 | a missing cell is not late, and only a present three-character text can be; `LateFlagIsCaseInsensitiveYes` states it exactly |
| Cleaning.PrimeFlag | scripts/data_processor.py:52 | a member exactly when the Prime cell holds a non-zero number; a missing cell is filled with 0 and is not a member |
| Cleaning.Clean | scripts/data_processor.py:32-54 | identifiers, date parts and the channel are copied; every present label and number is kept (the missing ones are in `CleanFillsLabels`); the Prime flag is the non-zero test |
| Cleaning.CleanAll | scripts/data_processor.py:32-54 | cleaning yields one row per raw row, in order, each the cleaning of its raw row |
| Cleaning.LateFlagIsCaseInsensitiveYes | scripts/data_processor.py:53-54 | `IsLate` holds exactly when the late-delivery text is "yes" in any mix of cases; a missing cell counts as "No" and is not late |
| Cleaning.CleanFillsLabels | scripts/data_processor.py:32-54 | missing Category, Region, Country, Payment_Method and Courier become "Unknown" and a missing Brand "Unknown Brand" (:32-37); a missing revenue, profit, units, refund or shipping cost becomes 0 (:49); a missing Prime flag is false (:52); a missing late flag is not late (:53-54) |
| Cleaning.CleanKeepsCompleteRows | scripts/data_processor.py:32-54 | cleaning a row that has no missing cell returns it unchanged |
| Aggregates.Value | scripts/data_processor.py:77 | a quotient has a value exactly when its denominator is non-zero |
| Aggregates.ValueTimesDenominator | scripts/data_processor.py:77 | a defined quotient times its denominator gives back its numerator |
| Aggregates.Count | scripts/data_processor.py:242 | the number of rows with a flag set is at most the number of rows |
| Aggregates.Percent | scripts/data_processor.py:77 | `part / whole * 100` is defined exactly when the whole is non-zero |
| Aggregates.Mean | scripts/data_processor.py:76 | a column mean is defined exactly when there is at least one row |
| Aggregates.PercentTrue | scripts/data_processor.py:79-80 | the mean of a flag times 100 is defined exactly when there is at least one row |
| Aggregates.Complement | scripts/data_processor.py:249 | `100 - rate` is defined exactly when the rate is |
| Aggregates.ComplementValue | scripts/data_processor.py:249 | the value of `100 - rate` is 100 minus the rate's value |
| Aggregates.RateOfCount | scripts/data_processor.py:248-249 | a count k of n >= 1 rows as a percentage is defined, lies in [0, 100], times n gives 100k, and its complement is 100 minus it |
| Aggregates.RatioOfCount | scripts/data_processor.py:76 | a total over n >= 1 rows divided by n is defined and times n gives back the total |
| Aggregates.PercentTimesWhole | scripts/data_processor.py:77 | a percentage of a non-zero whole times the whole is 100 times the part |
| Aggregates.PercentOfPart | scripts/data_processor.py:79 | a part between 0 and a positive whole is between 0 and 100 percent of it |
| Aggregates.MeanTimesCount | scripts/data_processor.py:76 | the mean of a non-empty column times the row count is the column sum |
| Aggregates.Where | scripts/data_processor.py:69 | a selection holds only rows of the input whose key equals the given one, every such row, and no more rows than the input |
| Aggregates.WhereMultiset | scripts/data_processor.py:69 | a selection keeps each row with the given key exactly as often as it occurs in the input, and no other row |
| Aggregates.Distinct | scripts/data_processor.py:74 | the distinct values have no duplicate and are exactly the values of the input |
| Aggregates.NUnique | scripts/data_processor.py:74 | the distinct count is at most the row count and at least 1 on a non-empty input |
| Aggregates.GroupsFor | scripts/data_processor.py:118-123 | one group per given key, holding the rows with that key |
| Aggregates.GroupBy | scripts/data_processor.py:118-123 | one non-empty group per distinct key, each holding exactly the rows with its key, no key twice, every row's key present |
| Aggregates.GroupsCoverRows | scripts/data_processor.py:118-123 | every distinct key has rows, and every row's key is among the distinct keys |
| Aggregates.GroupsCover | scripts/data_processor.py:118-123 | every row's key has a group |
| Aggregates.GroupByPreservesSum | scripts/data_processor.py:118-123 | the per-group sums of a column add up to the column's total over all rows |
| Aggregates.SumPerGroup | scripts/data_processor.py:118-125 | a report column holding each group's sum adds up to the sum over the groups |
| Aggregates.SumPermutation | scripts/data_processor.py:132 | reordering rows does not change a column total |
| Aggregates.SumConcat | scripts/data_processor.py:133 | the total of two concatenated tables is the sum of their totals |
| Aggregates.SumIntAsReal | scripts/data_processor.py:75 | an integer total read as a real is the real total of the same values |
| Aggregates.PercentsSumTo100 | scripts/data_processor.py:129 | each value divided by a non-zero column total, times 100, adds up to 100 |
| Aggregates.SharesSumTo100 | scripts/data_processor.py:129 | the `Percent` shares of a column with a non-zero total add up to 100 |
| Aggregates.IndexSumsTo100PerRow | scripts/data_processor.py:209-210 | values indexed against the column mean (times 100) add up to 100 per row |
| Aggregates.PercentNonNegative | scripts/data_processor.py:129 | a non-negative part of a positive whole has a non-negative share |
| Aggregates.WhereConcat | scripts/data_processor.py:69 | selecting from two concatenated tables is concatenating the selections |
| Aggregates.SumNonNegative | scripts/data_processor.py:133 | a column of non-negative values has a non-negative total |
| Ordering.Insert | scripts/data_processor.py:132 | inserting into a descending sequence keeps it descending and adds exactly that element |
| Ordering.SortDesc | scripts/data_processor.py:132 | `sort_values(ascending=False)`: the result is descending and a permutation of the input |
| Ordering.SortAsc | scripts/data_processor.py:212 | `sort_values()`: the result is ascending and a permutation of the input |
| Ordering.Largest | scripts/data_processor.py:271 | `nlargest(n)`: min(n, size) rows, descending, each taken from the input at most as often as it occurs there |
| Ordering.LargestDominates | scripts/data_processor.py:271 | a row left out of the top n scores no higher than any row kept |
| Ordering.PermutationKeepsDistinct | scripts/data_processor.py:132 | reordering keeps a sequence free of duplicates |
| Ordering.ReorderedGroups | scripts/data_processor.py:93 | groups in another order still each hold exactly the rows of their key, with no key twice |
| Ordering.SelectionKeeps | scripts/data_processor.py:253 | rows selected from a table keep any property all its rows have |
| Ordering.KeysStayDistinct | scripts/data_processor.py:253 | rows selected from a table with distinct keys have distinct keys |
| Ordering.KeysCovered | scripts/data_processor.py:132 | reordering keeps every key present |
| Ordering.SharesSurviveSort | scripts/data_processor.py:129-132 | shares of the column total are still shares of the total after sorting |
| Ordering.SortedSummaries | scripts/data_processor.py:132 | a sorted table of group summaries still summarises each group once and covers every key |
| Ordering.SelectedSummaries | scripts/data_processor.py:271 | a top-n selection of group summaries summarises each selected group once |
| Ordering.GroupedTotal | scripts/data_processor.py:118-125 | a report column of per-group sums, in any group order, adds up to the total over the rows |
| Windows.Growth | scripts/data_processor.py:105-106 | growth from a zero month to a zero month is 0 (NaN filled with 0); from a zero month to a non-zero one it is undefined (infinity survives `fillna`) |
| Windows.GrowthCompounds | scripts/data_processor.py:105 | `cur == prev * (1 + growth / 100)`, and from a positive month growth is positive exactly when revenue rose |
| Windows.GrowthAfter | scripts/data_processor.py:105 | each later entry is the growth from its predecessor |
| Windows.GrowthSeries | scripts/data_processor.py:105-106 | the first month has growth 0; every later month has the growth from the month before |
| Windows.Slide | scripts/data_processor.py:109 | the window keeps the last (at most) two values, so each mean spans three |
| Windows.RollFrom | scripts/data_processor.py:109-110 | the rolling mean continued from a window of earlier values |
| Windows.RollFromShift | scripts/data_processor.py:109 | sliding the window one step is dropping the oldest value |
| Windows.RollingMean3 | scripts/data_processor.py:109-110 | from the third month the mean of that month and the two before it; the first two months their own revenue |
| Windows.CumFrom | scripts/data_processor.py:133 | a running total continued from an earlier total |
| Windows.TotalPrefixes | scripts/data_processor.py:133 | each prefix total is the first value plus a prefix total of the rest |
| Windows.CumSum | scripts/data_processor.py:133 | `cumsum`: entry i is the total of the first i+1 values |
| Windows.CumSumSteps | scripts/data_processor.py:133 | the first entry is the first value, and consecutive entries differ by the next value |
| Windows.CumSumLast | scripts/data_processor.py:133 | the last running total is the whole total |
| Windows.CumSumMonotone | scripts/data_processor.py:133 | over non-negative values the running total never decreases |
| Windows.TotalOfColumn | scripts/data_processor.py:133 | the total of a column's values is the column sum |
| Windows.CumSumOfColumn | scripts/data_processor.py:133 | the running total of a column at i is the sum over the first i+1 rows |
| Kpis.CalculateKpis | scripts/data_processor.py:67-87 | totals over the completed rows; zero orders exactly when nothing was completed; total orders, unique customers, products and countries are the distinct order ids, buyer emails, product names and countries, at most the rows; average order value, margin, Prime and late percentages and mean discount as the quotients the script divides |
| Kpis.KpiRates | scripts/data_processor.py:76-80 | for any figures formed as the script forms them over n >= 1 rows, the Prime and late percentages are defined, lie in [0, 100] and are count*100/n, and the average order value times n is the revenue |
| Kpis.KpiRatesOfReport | scripts/data_processor.py:76-80 | once an order is completed, the KPIs' Prime and late percentages are defined, lie in [0, 100] and are the flagged count per hundred completed rows, and the average order value times the completed row count is the total revenue |
| Kpis.KpisIgnoreOtherStatuses | scripts/data_processor.py:69 | a row with another status does not change the KPIs |
| Trends.MonthGroups | scripts/data_processor.py:93-98 | the monthly groups of the completed rows, in ascending month order |
| Trends.MonthSummary | scripts/data_processor.py:93-98 | a month's revenue, profit and units are its rows' sums, and its orders the distinct order ids |
| Trends.WithWindows | scripts/data_processor.py:105-110 | adds only growth and moving average: the first growth is 0, later growth is measured from the month before, and the average spans three months or is the month's own revenue |
| Trends.MonthCount | scripts/data_processor.py:93 | one row per distinct completed month |
| Trends.MonthRows | scripts/data_processor.py:93-110 | each row holds its group's sums and distinct orders, and the growth and moving-average columns have their closed forms over the rows' revenues |
| Trends.MonthlyTrends | scripts/data_processor.py:89-112 | one row per month with completed orders, growth and moving average as described |
| Trends.MonthlyTrendsGroups | scripts/data_processor.py:93-98 | each row's figures are the sums and distinct orders of exactly the completed rows of its month |
| Trends.MonthsAscending | scripts/data_processor.py:93 | months come out strictly ascending |
| Trends.StrictlyAscending | scripts/data_processor.py:93 | groups sorted by month with distinct months are strictly ascending |
| Trends.MonthsCovered | scripts/data_processor.py:93 | every month with a completed order has a row |
| Trends.MonthlyTotals | scripts/data_processor.py:93-98 | the monthly revenue, profit and units add up to the completed totals |
| Category.Summary | scripts/data_processor.py:118-128 | a category's sums and distinct orders, and its margin as profit over revenue |
| Category.WithShares | scripts/data_processor.py:129 | each revenue share is the row's revenue as a percentage of the table's total |
| Category.WithPareto | scripts/data_processor.py:133-136 | the running share is the sum of the shares up to the row (absent when the share is), and "Top Performer" exactly when it is at most 80 |
| Category.ParetoClass | scripts/data_processor.py:134-136 | "Top Performer" exactly when the running share is a number at most 80, otherwise "Supporting", an undefined share included |
| Category.Ranked | scripts/data_processor.py:129-132 | the summaries with shares, sorted by revenue, descending |
| Category.CategoryTable | scripts/data_processor.py:118-136 | descending by revenue with margin, share, running share and Pareto class as the script defines them |
| Category.ParetoColumns | scripts/data_processor.py:133-136 | adding the Pareto columns to sorted rows with consistent shares yields all category columns |
| Category.CategoryPerformance | scripts/data_processor.py:114-138 | one row per completed category, descending by revenue, with every derived column as defined |
| Category.RankedFacts | scripts/data_processor.py:129-132 | the sorted rows keep their margins and shares of the total |
| Category.RatiosSurviveSort | scripts/data_processor.py:132 | margins and shares still hold after sorting |
| Category.SharesAgree | scripts/data_processor.py:128-129 | after adding shares, every row's margin and share agree with its figures |
| Category.ParetoKeepsColumns | scripts/data_processor.py:133-136 | the Pareto step keeps every other column and the revenue total |
| Category.SummariesOfGroups | scripts/data_processor.py:118-129 | each summary describes exactly the completed rows of its category |
| Category.RankedSummarizes | scripts/data_processor.py:132 | after sorting, each row still summarises its category once and every category is present |
| Category.TableSummarizes | scripts/data_processor.py:118-136 | each row of the table summarises its category, no category twice, every category present |
| Category.CategoryGroups | scripts/data_processor.py:114-138 | each report row summarises exactly its category's completed rows, no category twice, every completed category present |
| Category.TableTotals | scripts/data_processor.py:118-125 | table revenue, profit and units add up to the sums over the groups |
| Category.CategoryTotals | scripts/data_processor.py:118-125 | category revenue, profit and units add up to the completed totals |
| Category.SharesComplete | scripts/data_processor.py:129-133 | with a non-zero total the shares sum to 100 and the last running share is 100 |
| Category.CategorySharesSumTo100 | scripts/data_processor.py:129-133 | with non-zero completed revenue the category shares sum to 100 and the final running share is 100 |
| Category.ParetoPrefixOfTable | scripts/data_processor.py:133-136 | over non-negative revenues the running share never decreases and the top performers are a prefix |
| Category.ParetoPrefix | scripts/data_processor.py:132-136 | if no completed order has negative revenue, "Top Performer" categories come first |
| Category.CategoryIgnoresOtherStatuses | scripts/data_processor.py:116 | a row with another status does not change the report |
| Regional.Summary | scripts/data_processor.py:144-155 | a (region, country) pair's sums and distinct orders and customers, and revenue per order and per customer |
| Regional.RegionalTable | scripts/data_processor.py:144-155 | one summary per group, in group order (no `sort_values`; pandas' sorted group order is not modelled) |
| Regional.RegionalPerformance | scripts/data_processor.py:140-157 | one row per distinct (region, country) pair of the completed orders |
| Regional.TableSummarizes | scripts/data_processor.py:144-155 | each row summarises its pair, no pair twice, every pair present |
| Regional.RegionalGroups | scripts/data_processor.py:140-157 | each row summarises exactly its pair's completed rows, no pair twice, every completed pair present |
| Regional.RegionalCounts | scripts/data_processor.py:144-149 | every row has at least one order and one customer |
| Regional.RegionalRatios | scripts/data_processor.py:154-155 | with orders and customers >= 1 both ratios are defined, and each times its divisor is the revenue |
| Regional.RegionalTotals | scripts/data_processor.py:144-149 | regional revenue and profit add up to the completed totals |
| Regional.RegionalIgnoresOtherStatuses | scripts/data_processor.py:142 | a row with another status does not change the report |
| Channel.WithChannel | scripts/data_processor.py:163 | the rows grouped by channel are only completed rows that have a channel, and every such row (pandas drops missing keys) |
| Channel.WithChannelMultiset | scripts/data_processor.py:163 | the rows grouped by channel keep each completed row that has a channel exactly as often as it occurs, and no row without one |
| Channel.Summary | scripts/data_processor.py:163-168 | a channel's sums and distinct orders |
| Channel.WithShares | scripts/data_processor.py:173 | each market share is the revenue as a percentage of the table's total |
| Channel.ChannelTable | scripts/data_processor.py:163-175 | descending by revenue, a permutation of the summaries with shares |
| Channel.ChannelPerformance | scripts/data_processor.py:159-175 | one row per channel of the completed orders, descending by revenue, with shares of the total |
| Channel.SummariesOfGroups | scripts/data_processor.py:163-173 | each summary describes exactly its channel's rows |
| Channel.TableSummarizes | scripts/data_processor.py:163-175 | each sorted row summarises its channel, no channel twice, every channel present |
| Channel.ChannelGroups | scripts/data_processor.py:159-175 | each row summarises its channel's completed rows, no channel twice, every channel present |
| Channel.TableTotals | scripts/data_processor.py:163-168 | table revenue, profit and units add up to the sums over the groups |
| Channel.ChannelTotals | scripts/data_processor.py:163-168 | channel revenue, profit and units add up to the totals over completed rows that have a channel |
| Channel.ChannelSharesSumTo100 | scripts/data_processor.py:173 | with non-zero revenue the market shares sum to 100 |
| Channel.ChannelIgnoresOtherStatuses | scripts/data_processor.py:161 | a row with another status does not change the report |
| Payment.Summary | scripts/data_processor.py:181-185 | a method's revenue, fees, distinct orders, and mean revenue per row |
| Payment.WithShares | scripts/data_processor.py:191 | each share is the revenue as a percentage of the table's total |
| Payment.PaymentTable | scripts/data_processor.py:181-193 | descending by revenue, a permutation of the summaries with shares |
| Payment.PaymentAnalysis | scripts/data_processor.py:177-193 | one row per completed payment method, descending by revenue, with shares |
| Payment.SummariesOfGroups | scripts/data_processor.py:181-191 | each summary describes exactly its method's rows |
| Payment.TableSummarizes | scripts/data_processor.py:181-193 | each sorted row summarises its method, no method twice, every method present |
| Payment.PaymentGroups | scripts/data_processor.py:177-193 | each row summarises its method's completed rows, no method twice, every method present |
| Payment.MeanOrderValue | scripts/data_processor.py:182 | the average order value is defined, and times the method's row count it is the method's revenue |
| Payment.TableTotals | scripts/data_processor.py:181-185 | table revenue and fees add up to the sums over the groups |
| Payment.PaymentTotals | scripts/data_processor.py:181-185 | method revenue and fees add up to the completed totals |
| Payment.PaymentSharesSumTo100 | scripts/data_processor.py:191 | with non-zero revenue the shares sum to 100 |
| Payment.PaymentIgnoresOtherStatuses | scripts/data_processor.py:179 | a row with another status does not change the report |
| DayOfWeek.Summary | scripts/data_processor.py:199-206 | a day's revenue and distinct orders, and revenue per order |
| DayOfWeek.WithIndex | scripts/data_processor.py:209-210 | each index is the day's revenue over the mean day revenue, times 100 |
| DayOfWeek.IndexOf | scripts/data_processor.py:209-210 | the index is defined exactly when the table's revenue total is non-zero; `IndexOfMean` gives its value |
| DayOfWeek.IndexOfMean | scripts/data_processor.py:209-210 | on n ≥ 1 rows with a non-zero total, the index is the revenue over the mean `total / n`, times 100 |
| DayOfWeek.DayTable | scripts/data_processor.py:199-212 | ascending by day number, a permutation of the indexed summaries |
| DayOfWeek.IndexOfWithIndex | scripts/data_processor.py:209-210 | the indexed rows satisfy the index column definition |
| DayOfWeek.IndexSurvivesSort | scripts/data_processor.py:212 | the index column definition still holds after sorting |
| DayOfWeek.DayOfWeekAnalysis | scripts/data_processor.py:195-212 | one row per completed (day number, day name), ascending by day number, with the index |
| DayOfWeek.SummariesOfGroups | scripts/data_processor.py:199-210 | each summary describes exactly its day's rows |
| DayOfWeek.TableSummarizes | scripts/data_processor.py:199-212 | each sorted row summarises its day, no day twice, every day present |
| DayOfWeek.DayGroups | scripts/data_processor.py:195-212 | each row summarises its day's completed rows, no day twice, every day present |
| DayOfWeek.DayTotals | scripts/data_processor.py:199-202 | day revenues add up to the completed revenue |
| DayOfWeek.IndexAverages100 | scripts/data_processor.py:209-210 | with non-zero revenue the day indices average exactly 100 |
| DayOfWeek.IndexOfTable | scripts/data_processor.py:209-210 | on a table with the index column, the indices sum to 100 times the number of rows |
| DayOfWeek.DayIgnoresOtherStatuses | scripts/data_processor.py:197 | a row with another status does not change the report |
| Prime.Summary | scripts/data_processor.py:218-232 | a membership group's sums, distinct orders and customers, mean revenue, orders and revenue per customer |
| Prime.PrimeTable | scripts/data_processor.py:218-227 | ascending by membership (non-members first), a permutation of the summaries |
| Prime.Label | scripts/data_processor.py:227 | members are labelled "Prime" and non-members "Non-Prime", and no other way round; `MembershipOrder` gives the label order of the table |
| Prime.PrimeAnalysis | scripts/data_processor.py:214-234 | one row per membership value among the completed rows; with both present, "Non-Prime" comes before "Prime" |
| Prime.TableOrder | scripts/data_processor.py:218-227 | with distinct keys the table has at most two rows, and with two the first is "Non-Prime" and the second "Prime" |
| Prime.MembershipOrder | scripts/data_processor.py:227 | rows ascending by membership with no membership twice are labelled in that order |
| Prime.MembersSplit | scripts/data_processor.py:218 | every row is a member or not |
| Prime.MembersNone | scripts/data_processor.py:218 | no row with a membership means a count of zero |
| Prime.MembersAtMostOne | scripts/data_processor.py:218 | with distinct memberships each value occurs at most once |
| Prime.SummariesOfGroups | scripts/data_processor.py:218-232 | each summary describes exactly its group's rows |
| Prime.TableSummarizes | scripts/data_processor.py:218-232 | each sorted row summarises the rows of its membership |
| Prime.TableKeys | scripts/data_processor.py:218-227 | no membership twice, and every membership of the rows present |
| Prime.PrimeGroups | scripts/data_processor.py:214-234 | each row summarises exactly the completed rows of its membership |
| Prime.PrimeKeys | scripts/data_processor.py:214-234 | no membership twice, and every completed row's membership present |
| Prime.PrimeRatios | scripts/data_processor.py:219-232 | with rows and customers the three ratios are defined and each times its divisor gives its dividend |
| Prime.PrimeCounts | scripts/data_processor.py:218-224 | a summarising row has a customer and rows |
| Prime.PrimeTotals | scripts/data_processor.py:218-224 | Prime and non-Prime revenue and profit add up to the completed totals |
| Prime.PrimeIgnoresOtherStatuses | scripts/data_processor.py:216 | a row with another status does not change the report |
| Shipping.Summary | scripts/data_processor.py:240-249 | a courier's distinct shipments, late count, late rate as percent late, on-time rate as its complement, and mean cost and days |
| Shipping.Couriers | scripts/data_processor.py:240-245 | one row per completed courier |
| Shipping.ShippingPerformance | scripts/data_processor.py:236-253 | at most ten couriers, the ten with most shipments, descending, each one of the couriers |
| Shipping.CourierSummaries | scripts/data_processor.py:240-249 | each summary describes exactly its courier's rows |
| Shipping.ShippingGroups | scripts/data_processor.py:236-253 | each reported courier summarises its completed rows, no courier twice |
| Shipping.SelectedCouriers | scripts/data_processor.py:253 | a selection of courier summaries keeps them summarising and distinct |
| Shipping.ShippingDominates | scripts/data_processor.py:253 | a courier left out has no more shipments than any courier kept |
| Shipping.CourierCounts | scripts/data_processor.py:242-248 | a courier has at least one row, and its late rate is its late count as a percentage of them |
| Shipping.CourierRates | scripts/data_processor.py:248-249 | both rates are defined and lie in [0, 100], on-time is 100 minus late, and late times rows is 100 times the late count |
| Shipping.ShippingRates | scripts/data_processor.py:247-253 | every courier in the report has both rates defined and in [0, 100], and its on-time rate is 100 minus its late rate |
| Shipping.ShippingIgnoresOtherStatuses | scripts/data_processor.py:238 | a row with another status does not change the report |
| Products.ProductSummary | scripts/data_processor.py:259-269 | a (product, category, brand) triple's sums and distinct orders, and its margin |
| Products.AllProducts | scripts/data_processor.py:259-269 | one row per completed product triple |
| Products.TopProducts | scripts/data_processor.py:255-271 | at most twenty products, the largest by revenue, descending, each one of the products |
| Products.ProductSummaries | scripts/data_processor.py:259-269 | each summary describes exactly its triple's rows |
| Products.TopProductGroups | scripts/data_processor.py:255-271 | each reported product summarises its completed rows, no triple twice |
| Products.SelectedProducts | scripts/data_processor.py:271 | a selection of product summaries keeps them summarising and distinct |
| Products.TopProductsDominate | scripts/data_processor.py:271 | a product left out has no more revenue than any product kept |
| Products.ProductMargin | scripts/data_processor.py:269 | the margin is defined exactly when revenue is non-zero, and then margin times revenue is 100 times profit |
| Products.TopProductsIgnoreOtherStatuses | scripts/data_processor.py:257 | a row with another status does not change the report |
| Products.BrandSummary | scripts/data_processor.py:277-286 | a brand's sums and distinct orders |
| Products.WithShares | scripts/data_processor.py:287 | each market share is the revenue as a percentage of the table's total |
| Products.AllBrands | scripts/data_processor.py:277-287 | one row per completed brand, shares taken of the table's total |
| Products.SharesOfWithShares | scripts/data_processor.py:287 | rows given shares carry shares of their own total |
| Products.TopBrands | scripts/data_processor.py:273-289 | at most fifteen brands, the largest by revenue, descending, each one of the brands |
| Products.BrandSummaries | scripts/data_processor.py:277-287 | each summary describes exactly its brand's rows |
| Products.TopBrandGroups | scripts/data_processor.py:273-289 | each reported brand summarises its completed rows, no brand twice |
| Products.SelectedBrands | scripts/data_processor.py:289 | a selection of brand summaries keeps them summarising and distinct |
| Products.TopBrandsDominate | scripts/data_processor.py:289 | a brand left out has no more revenue than any brand kept |
| Products.BrandTotals | scripts/data_processor.py:277-287 | brand revenues add up to the completed revenue |
| Products.TopBrandShares | scripts/data_processor.py:287-289 | the shares of the top brands are shares of the whole completed revenue, not of the top fifteen |
| Products.BrandSharesSumTo100 | scripts/data_processor.py:287 | with non-zero revenue the shares of all brands sum to 100 |
| Products.TopBrandsIgnoreOtherStatuses | scripts/data_processor.py:275 | a row with another status does not change the report |
| OrderStatus.Summary | scripts/data_processor.py:293-297 | a status's distinct orders, revenue and refunds |
| OrderStatus.WithShares | scripts/data_processor.py:302 | each order share is the status's orders as a percentage of all statuses' orders |
| OrderStatus.StatusTable | scripts/data_processor.py:293-302 | one row per group with its order share |
| OrderStatus.StatusDistribution | scripts/data_processor.py:291-304 | one row per status over all rows (not only completed), non-empty for a non-empty input |
| OrderStatus.SummariesOfGroups | scripts/data_processor.py:293-302 | each row describes exactly its status's rows |
| OrderStatus.StatusGroups | scripts/data_processor.py:291-304 | each row summarises its status, no status twice, every status present |
| OrderStatus.StatusTotals | scripts/data_processor.py:293-297 | status revenue and refunds add up to the totals over all rows |
| OrderStatus.StatusOrdersPositive | scripts/data_processor.py:293-297 | every status row counts at least one order |
| OrderStatus.OrderSharesSumTo100 | scripts/data_processor.py:302 | on a non-empty input the order shares sum to 100 |

## Left out

- Reading the workbook, creating the output directory, writing JSON and console output are I/O. The model starts from rows already in memory.
- Date handling (`pd.to_datetime`, `strftime`, the period conversion) and `data_period` in the KPIs are library date behaviour. `YearMonth`, the day number and the day name arrive as row fields. `data_period` is not modelled, and neither is the generation timestamp.
- `round(..., 2)` and `round(1)` are binary floating point. All figures are exact reals, so every statement holds "before rounding". In the script `cumulative_share` sums already-rounded shares, `on_time_rate` subtracts the rounded late rate, and the per-order and per-customer ratios divide rounded revenue. The model uses the exact values throughout.
- NaN and infinity are not modelled as float values. A quotient with a zero denominator is an undefined `Fraction`. An undefined growth or share stays undefined. An undefined running share is `None`, and its Pareto class is "Supporting", as `NaN <= 80` is false.
- Cleaning.Lower: only the ASCII capitals A-Z are lower-cased, while Python's `str.lower` also maps other letters and may change the length (`'İ'` becomes two code points). The late flag is unaffected, because no character outside ASCII lower-cases to `y`, `e` or `s`.
- `pd.to_numeric(errors='coerce')` parses text. A numeric cell is `Option<real>` (`UnitsSold` is `Option<int>`): a present number is kept, and a missing or unparsable one (`None`) becomes 0. Columns the script reads without coercion (`Payment_Fees`, `Days `, `DiscountRate`) are taken as numbers.
- Cleaning.PrimeFlag: the Prime cell is taken as a number (a boolean reads as 0 or 1). `astype(bool)` on a text cell is True for any non-empty text, even "No", and the model does not represent a text Prime cell.
- Kpis.CalculateKpis: units are whole numbers, because `Cleaning.RawRow.units` is `Option<int>`. `pd.to_numeric` could give a fractional `UnitsSold`, and `int(...)` would then truncate the unit total. The model does not capture either.
- Order id, buyer email, status, product name and day name have no default in the script, and the model takes them as present. `Channel` has no default either and may be missing (`Option<string>`). The channel report drops such rows, as pandas' group-by drops missing keys.
- Group-by with text keys: pandas returns the groups sorted by key, while `GroupBy` keeps first-appearance order. Two consequences:
  - The regional and order-status reports have no `sort_values`, so pandas returns them in sorted key order. The model states them as rows with distinct keys and does not promise that order.
  - Among rows with equal revenue or shipments, the order left by the stable sorts is not pandas' order.
  - At the cut of `head(10)` and `nlargest(20)`/`nlargest(15)`, ties also decide which couriers, products or brands are kept. pandas keeps the first in its sorted key order, and the model keeps the first in order of appearance. The contracts (`Largest`, `LargestDominates`) hold for either choice.
- Month, day-number and membership keys are sorted explicitly (`Ascending`), matching pandas' order for those keys.
- Prime.PrimeAnalysis: the row keeps the membership as a boolean, and `Prime.Label` maps it to "Prime"/"Non-Prime". Contracts speak of the boolean and the label order.
- DayOfWeek.WithIndex: the index is written as `revenue * n * 100 / total`, with n the number of day rows. This equals `revenue / mean * 100` whenever the total is non-zero (`IndexOfMean`). When the mean is zero the script yields NaN or infinity, and the model's index is undefined.
- The script's other functions (`main`, `load_and_clean_data` beyond the per-row cleaning) are plumbing and are not modelled.
