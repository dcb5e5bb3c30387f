# FIFO tax-lot matching, modelled in Dafny

This project models the capital-gains engine of `FIFO.py`. It matches each sale of a security against the oldest open purchase lots of that security, first in, first out. Each lot touched produces one report of a closed lot: shares, acquisition date, cost basis, sale date and proceeds. Incidental fees are shared out in proportion to shares.

The model has five modules:

- `Transactions` (`transaction.dfy`) covers the class `Transaction`.
  - `TxData` holds the field values of a trade: amount, price, costs and date.
  - The pure arithmetic `is_buy`, `total_costs`, `partial_costs` and `sales` becomes `IsBuy`, `TotalCosts`, `PartialCosts` and `Sales`.
  - The in-place mutators `sell_parts` and `split` are methods of the class `Transaction`. Each is proved to make the transition given by the function of the same name on `TxData`.
- `Reports` (`report.dfy`) covers the class `Report`.
  - `ReportData` holds the field values; `profit` and `is_single` become `Profit` and `IsSingle`.
  - `merge` is both a function and an in-place method of the class `Report`.
  - `CoalesceFrom`/`Coalesce` specify the merging pass of `get_reports`. `Dedup` is an independent reference definition: it cuts every run of equal neighbours to one entry.
- `Fifo` (`fifo.dfy`) covers the class `FIFO`, the lot queue of one security.
  - `FifoData` is its abstract state: the last date, the open lots oldest first, and the pending reports.
  - `Consume` is the matching loop of a sell as a recursive function.
  - The class `FIFO` keeps the queue as a sequence of `Transaction` objects and mutates them in place, as the source does. Its methods are proved against `FifoData.Add`, `Drain` and `SplitLots`.
- `Statement` (`statement.dfy`) covers the class `StockStatement`, one queue per stock code.
  - Each queue is kept in insertion order, as the source's dictionary keeps it.
- `Sequences` (`sequences.dfy`) states distinctness of sequences. It is used to show that updating one lot object leaves the others alone.

Conventions:

- Amounts, prices and costs are `real`, so the arithmetic is exact.
- Dates are integers. A fresh queue's last date is `Fifo.Epoch`. It stands for the sentinel date 0001-01-02, before every real trade.
- A failing `assert` in the source, or an exception such as indexing an empty queue, becomes a `requires` of the member.

## Model

| member | source | states |
|---|---|---|
| Transactions.TxData.IsBuy | FIFO.py:20-22 | a trade is a buy exactly when its amount is positive; a zero amount is refused; `TxData.Split` by a positive multiplier keeps it |
| Transactions.TxData.TotalCosts | FIFO.py:26-30 | the basis a trade brings: its fees, plus amount times price for a buy; `ConsumeReports` shows the report of a fully closed lot carries exactly this, plus its share of the sell's fees |
| Transactions.TxData.PartialCosts | FIFO.py:33-35 | the part of a sell's fees carried by `x` of its shares, in proportion; bounded by `PartialCostsBounds` and additive by `PartialCostsSplit` |
| Transactions.TxData.Sales | FIFO.py:38-41 | proceeds of `x` shares at the sell's price; `ConsumeSales` sums them over a match |
| Transactions.TxData.SellParts | FIFO.py:45-50 | selling `x < amount` shares leaves a lot of `amount - x` shares, still positive, at the same price and date |
| Transactions.TxData.Split | FIFO.py:52-54 | a split by `m` multiplies the amount by `m` and keeps costs and date; for `m > 0` a buy stays a buy and a sell a sell |
| Transactions.PartialCostsBounds | FIFO.py:33-35 | all of a sell's shares carry exactly its fees; a part carries between none and all of non-negative fees |
| Transactions.SellPartsConserves | FIFO.py:45-50 | the lot keeps its fees in proportion to the shares left; the basis returned plus the basis left equals the lot's basis before |
| Transactions.SplitKeepsValue | FIFO.py:52-54 | a split keeps amount times price of the trade |
| Transactions.SplitRoundTrip | FIFO.py:52-54 | splitting by `m` and then by `1/m` restores the trade |
| Transactions.Transaction.constructor | FIFO.py:8-13 | the new object holds the given amount, price, costs and date |
| Transactions.Transaction.SellParts | FIFO.py:45-50 | the object makes the `TxData.SellParts` transition in place and returns the basis of the shares sold |
| Transactions.Transaction.Split | FIFO.py:52-54 | the object makes the `TxData.Split` transition in place |
| Transactions.ValuesSnoc | FIFO.py:138 | appending a trade object to the queue appends its values |
| Reports.ReportData.Profit | FIFO.py:69-70 | gain of a closure, proceeds less basis; additive under `Merge` |
| Reports.ReportData.IsSingle | FIFO.py:72-74 | two reports close the same trade when both dates agree; after `Coalesce` no neighbours satisfy it |
| Reports.ReportData.Merge | FIFO.py:69-80 | merging two closures of one trade keeps the trade's dates and adds amount, costs, sales and so profit |
| Reports.MergeAssoc | FIFO.py:76-80 | merging three closures of one trade gives the same report in either grouping |
| Reports.Report.constructor | FIFO.py:57-63 | the new object holds the given fields |
| Reports.Report.Merge | FIFO.py:76-80 | the object becomes its merge with the other closure, even when the other is itself |
| Reports.CoalesceFrom | FIFO.py:162-183 | the accumulator pass of get_reports; `FIFO.GetReports` is proved to compute it and `CoalesceFromKeys` relates it to `Dedup` |
| Reports.Coalesce | FIFO.py:159-185 | merged get_reports of a list; its order, totals, positivity and idempotence are the lemmas below |
| Reports.CoalesceKeys | FIFO.py:159-185 | merging keeps the order of trades and merges only neighbours: the output's trades are the input's with each run of one trade cut to one, so reports of a trade separated by another stay apart |
| Reports.DedupNoRepeats | FIFO.py:159-185 | the reference deduplication has no two equal neighbours |
| Reports.DedupOfNoRepeats | FIFO.py:159-185 | a sequence without equal neighbours is its own deduplication |
| Reports.CoalesceNoAdjacentSingles | FIFO.py:159-185 | after merging, no two neighbouring reports close the same trade |
| Reports.CoalesceFromRun | FIFO.py:174-175 | a run of reports of one trade becomes one report with the run's dates and the sums of its amounts, costs and sales |
| Reports.CoalesceAppend | FIFO.py:176-180 | where two lists meet between different trades, merging their concatenation merges each list on its own, so no report's fields move across a change of trade |
| Reports.CoalesceTotals | FIFO.py:159-185 | merging neither creates nor loses shares, cost basis or proceeds |
| Reports.CoalescePositive | FIFO.py:159-185 | merging reports of positive amounts gives reports of positive amounts |
| Reports.CoalesceIdempotent | FIFO.py:159-185 | merging an already merged list changes nothing |
| Fifo.Closure | FIFO.py:148-156 | the report for selling `x` shares of a lot: acquired on the lot's date, sold on the sell's date, costs the sell's fee share plus the basis of those shares, proceeds at the sell's price |
| Fifo.Consume | FIFO.py:141-157 | the matching loop of a sell as a recursion over the oldest lots; what it keeps and closes is stated by the `Consume*` lemmas |
| Fifo.FifoData.Add | FIFO.py:132-157 | add_transaction on the queue state; `AddKeepsInv`, `AddBuy`, `SellConservation`, `SellShape` and `SellReports` state what it does |
| Fifo.FifoData.Drain | FIFO.py:159-185 | get_reports on the queue state: the reports, merged if asked, and the queue left with its lots, its last date and nothing pending |
| Fifo.Empty | FIFO.py:114-118 | a fresh queue keeps the queue invariant |
| Fifo.FifoData.SplitLots | FIFO.py:187-189 | a split restates every open lot by the `TxData.Split` transition and keeps the order, the last date and the pending reports |
| Fifo.ConsumeOpen | FIFO.py:141-157 | matching `q` shares removes exactly `q` open shares |
| Fifo.ConsumeAmount | FIFO.py:141-157 | the reports of a match close `q` shares in all |
| Fifo.ConsumeSales | FIFO.py:141-157 | the reports of a match bring in the proceeds of `q` shares at the sell's price |
| Fifo.ConsumeCosts | FIFO.py:146-156 | the reports' cost basis is the sell's fees for `q` shares plus exactly the basis that left the queue |
| Fifo.LeftShape | FIFO.py:143-157 | what a match leaves: a prefix of lots removed, the rest open, and at most the next lot shrunk to exactly what `sell_parts` leaves of it (same date and price, fees in proportion) |
| Fifo.ConsumeLeft | FIFO.py:143-157 | every match leaves its lots as `LeftShape` says |
| Fifo.PopLeft | FIFO.py:146-147 | popping the head lot in full adds it to the removed prefix |
| Fifo.ConsumeClosed | FIFO.py:143-157 | a match makes at most one report per lot, oldest first; report `i` closes a positive amount of lot `i` on the sell's date |
| Fifo.MatchReports | FIFO.py:143-157 | what one report per lot touched means: a popped prefix of `k` lots, report `i < k` closing all of lot `i` with all of its basis, and one more report, for exactly the shares `sell_parts` took, when and only when lot `k` was shrunk |
| Fifo.ConsumeReports | FIFO.py:143-157 | every match makes its reports as `MatchReports` says |
| Fifo.PopReports | FIFO.py:146-151 | popping the head lot in full puts the report of the whole lot in front of the reports of the rest of the match |
| Fifo.LeftKeepsOrder | FIFO.py:143-157 | what a match leaves of an ordered queue is still in date order and dated no later than before |
| Fifo.ClosedSettled | FIFO.py:148-156 | every report of a match was acquired no later than it was sold |
| Fifo.AddKeepsInv | FIFO.py:132-157 | add_transaction keeps the queue invariant: lots open, in date order, none after the last date; reports positive and dated consistently |
| Fifo.AddBuy | FIFO.py:132-138 | a buy joins the tail, the other lots and the reports are unchanged, and the open quantity grows by its amount |
| Fifo.SellConservation | FIFO.py:141-157 | a sell of `Q` shares drops the open quantity by `Q`; its reports close `Q` shares for `Q` times its price; their cost basis is its fees plus the basis that left the queue; earlier reports stay in front |
| Fifo.SellReports | FIFO.py:139-157 | the reports a sell appends are made lot by lot as `MatchReports` says |
| Fifo.SellShape | FIFO.py:143-157 | a sell pops a prefix of lots; the new head is either untouched or exactly what `sell_parts` leaves of it; report `i` is acquired on the date of lot `i` and sold on the sell's date |
| Fifo.SplitRoundTrip | FIFO.py:187-189 | a split by `m` followed by one by `1/m` restores the queue |
| Fifo.SplitKeepsInv | FIFO.py:187-189 | a split by a positive multiplier keeps the queue invariant and the queue's total basis |
| Fifo.SplitBasis | FIFO.py:187-189 | lot by lot, a split keeps each lot's fees, date and amount times price, and so the total basis |
| Fifo.WorkedExample | FIFO.py:132-157 | buying 100 and selling 40 then 60 closes the lot in two reports with the expected costs and proceeds |
| Fifo.Step | FIFO.py:143-157 | one pass of the loop body: the head lot closed in full when the quantity covers it, otherwise partly sold |
| Fifo.StepConsume | FIFO.py:143-157 | one pass of the loop body closes a positive number of shares, at most those left; after it the rest of the match is the match of what is left |
| Fifo.FIFO.constructor | FIFO.py:114-118 | a new queue is empty with no pending reports and keeps the invariant |
| Fifo.FIFO.AddTransaction | FIFO.py:132-157 | the queue makes the `FifoData.Add` transition and keeps its invariant; a buy object is appended and no foreign object enters the queue |
| Fifo.FIFO.QueueLot | FIFO.py:137-138 | a buy is appended at the tail and the queue stays free of duplicates |
| Fifo.FIFO.MatchLots | FIFO.py:139-157 | the loop leaves the queue holding the lots of the whole match and appends all of its reports |
| Fifo.FIFO.MatchedAll | FIFO.py:142 | once nothing is left to match, the queue and the reports are the outcome of the whole match |
| Fifo.FIFO.SellStep | FIFO.py:142-157 | one iteration keeps the loop's bookkeeping, appends one report and makes the loop measure decrease |
| Fifo.FIFO.MatchHead | FIFO.py:143-157 | the head lot is popped when the quantity covers it and otherwise shrunk in place; the report and shares closed are those of one `Step` |
| Fifo.FIFO.GetReports | FIFO.py:159-185 | hands out the pending reports, merged by `Coalesce` if asked, and leaves none pending and the lots as they were |
| Fifo.FIFO.Split | FIFO.py:187-189 | every lot object is restated in place and the queue makes the `SplitLots` transition and keeps its invariant |
| Fifo.FIFO.SplitEach | FIFO.py:188-189 | after the loop, every lot object holds its old value split by the multiplier |
| Statement.Record | FIFO.py:203-205 | a trade goes to the queue of its code, created fresh on first use; no other queue changes |
| Statement.SplitCode | FIFO.py:213-215 | a split restates only the queue of its code |
| Statement.Cleared | FIFO.py:207-211 | after get_reports no queue has pending reports and every queue keeps its lots and its last date |
| Statement.Collected | FIFO.py:207-211 | get_reports of the account: each code's merged reports, paired with it, in order; `CollectedReportsOf` recovers each code's share |
| Statement.Tagged | FIFO.py:210 | each report of a code is paired with that code, in order |
| Statement.CollectedReportsOf | FIFO.py:207-211 | the reports handed out for a code are exactly that code's pending reports, merged, in order; reports of other codes are never merged into them |
| Statement.StockStatement.constructor | FIFO.py:192-193 | a new account has no queues |
| Statement.StockStatement.AddTransaction | FIFO.py:203-205 | the account makes the `Record` transition; an unseen code is appended to the order of first use |
| Statement.StockStatement.GetReports | FIFO.py:207-211 | hands out every queue's merged reports, paired with its code, in order of first use, and leaves the account `Cleared` |
| Statement.StockStatement.Split | FIFO.py:213-215 | only a code already traded can be split; the account makes the `SplitCode` transition |

## Left out

- `Tiger.py` is not part of this model. It parses broker CSV exports and time stamps, loads the split schedule, and writes files.
- `to_nec_csv` and `Report.to_nec_csv_row` (FIFO.py:82-111) are not modelled: they format output with `strftime` and float-to-string conversion.
- The `__repr__` methods are not modelled: they only render debug strings.
- Floating-point rounding is not modelled: quantities are exact reals. In the source, `amount -= first.amount` may miss zero by a rounding error.
- Time zones are not modelled. Dates are integers; only their order and equality matter to the engine.
- `Transactions.TxData.Sales`: the default argument of `sales` (no amount, meaning the whole sell) is not modelled. The engine always passes an amount.
- Fifo.FIFO.Split: requires a positive multiplier. The source accepts any; zero fails on the division when lots are open, and a negative one would leave lots with negative amounts.
- Statement.SplitCode: requires a positive multiplier, for the same reason as `Fifo.FIFO.Split`. Zero on an empty queue, which the source lets through, is not modelled.
- Statement.StockStatement.Split: requires a positive multiplier, for the same reason as `Fifo.FIFO.Split`. Zero on an empty queue, which the source lets through, is not modelled.
- Fifo.FIFO.AddTransaction: requires the trade object not to be in the queue already. Queuing the same object twice would alias two lots.
- Fifo.FIFO.AddTransaction: a sell of more shares than are open is excluded by a `requires`. The source raises `IndexError` on the empty queue only after it has popped lots and appended reports. That partial state is not modelled.
- Fifo.FIFO.GetReports: reports are held as values, not `Report` objects. The source merges objects in place (`acc.merge`); those objects are no longer reachable from the queue once `_reports` is reset, so no caller can tell the difference.
- Statement.StockStatement.AddTransaction: the account holds each queue as its `FifoData` state rather than as a `FIFO` object, and takes the trade's values rather than a `Transaction` object. The `FIFO` class is proved to make exactly the `FifoData` transitions. What the account does not capture is object identity: it does not model a caller holding a reference to one of its queues or lots.
- Statement.StockStatement.GetReports: always merges, as the source's call `v.get_reports()` does with its default argument.
- `Fifo.FIFO.QueueLot`, `MatchLots`, `SellStep`, `MatchHead` and `SplitEach` are not separate operations of the source. They are the branches and loops of `add_transaction` and `split`, each given its own frame.
