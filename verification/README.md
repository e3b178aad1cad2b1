# Bounded trade ledger of the stock tracker

This project models the in-memory core of a small console stock tracker. The
core is a ledger of at most five trades. It is kept as a fixed array of
`MAX_TRADES` slots plus a count. It offers:

- an accept/reject insertion that refuses a full ledger and refuses trades
  with non-positive shares or price;
- a count query;
- a total-value aggregate (sum of shares × price);
- an index-checked risk lookup that falls back to `Low`.

The repository holds two copies of the class. The multi-file one is
`StockApp.h`/`StockApp.cpp`; the single-file one is `assignment.cpp`. The model
keeps them apart where they differ.

Modules:

- `Trades` (trades.dfy) covers `Trade.h`. It holds the `RiskLevel` enumeration
  and its ordinals, the menu conversion `choice - 1`, and the `Trade` record.
  It also defines the insertion check `Valid` (the test at `StockApp.cpp:133`)
  and the per-trade `Value`. Last comes `TotalOf`, the recursive reference definition of the portfolio sum.
- `StockApp` (stock_app.dfy) covers `StockApp.h`/`StockApp.cpp`. The state
  `App(trades, numTrades)` keeps the array-plus-count layout. `Stored(app)` is
  the ledger it represents: the occupied prefix, in insertion order. The module
  also has the operations, the report projection, and the reference `FirstValid`
  for any sequence of offered trades, with the lemmas that tie the fold of
  `AddTradeTest` to it.
- `Assignment` (assignment.dfy) covers `assignment.cpp`. That copy has only a
  constructor, `addTrade`, `displaySummary`, `saveReportToFileSimple` and the
  menu; it has no `addTradeTest` and no query methods. Its layout, capacity,
  constructor and report writing are identical to the other copy, so they are
  reused from `StockApp`. Only the differences are modelled here: the
  symbol-checked `addTrade`, the "Med" risk text, and the summary. The input
  that `addTrade`'s prompt loops can exit with (`assignment.cpp:64-104`) is the
  predicate `AcceptedInput`: non-empty symbol, positive shares and price, and a
  risk choice in 1..3. The summary returns early on an empty ledger and sums
  while it prints.
- `Scenarios` (scenarios.dfy) states the doctest cases of `main.cpp` as lemmas.
  Each holds for any contents that the constructor leaves in the slot array.

Prices are exact `real`s and shares are C++ `int`s (`Int32`). So `Value` and
`TotalOf` are exact sums, standing in for `double` arithmetic. The `const`
queries are functions of the state that return no new state, so they cannot
modify the ledger. `addTradeTest` is the one non-interactive mutator. It
returns a plain `(bool, App)` pair.

The interactive `addTrade` is modelled on the input its prompt loops finally
accept. That acceptance is a precondition, and it applies only when the ledger
is not full, because a full ledger returns before reading anything.

## Notes on the source

- The out-of-range default of the risk lookup. `StockApp.cpp:163` returns `Low`
  for any index outside `0..numTrades-1`. The doctest at `main.cpp:63-66`
  expects `Medium` for index 0 of an empty ledger. The model follows the code,
  and `Scenarios.InvalidIndexDefaultIsLow` proves the result is `Low` and not
  `Medium`, so that doctest would fail against the code.
- The two copies disagree on the summary text for `Medium`: "Medium" in
  `StockApp.cpp` and "Med" in `assignment.cpp`.
  `Assignment.RiskLabelsDifferOnlyOnMedium` states exactly where they differ.
- Only `assignment.cpp` insists on a non-empty symbol. `StockApp.AddTrade`
  stores whatever symbol is typed, and so does `addTradeTest`.
- Only `assignment.cpp` short-circuits the summary of an empty ledger.
  `StockApp.DisplaySummary` always yields a total, while
  `Assignment.DisplaySummary` yields `None`.

## Model

| member | source | states |
|---|---|---|
| `Trades.Ordinal` | Trade.h:5-9 | each enumerator's underlying value is below 3 (declaration order Low, Medium, High) |
| `Trades.OrdinalInjective` | Trade.h:5-9 | the three enumerators have pairwise distinct ordinals, so the enumeration is closed with values 0, 1, 2 |
| `Trades.RiskFromChoice` | StockApp.cpp:54 | a menu choice r in 1..3 becomes the enumerator whose ordinal is r − 1 |
| `Trades.ChoiceOf` | StockApp.cpp:45 | every risk level has a menu number in 1..3 that converts back to it |
| `Trades.ChoiceBijection` | assignment.cpp:95-107 | choice ↦ choice − 1 is a bijection from {1,2,3} onto {Low, Medium, High}, in both directions |
| `Trades.ValidHasPositiveValue` | StockApp.cpp:133 | a trade that passes the insertion check has a strictly positive value |
| `Trades.TotalOfAppend` | StockApp.cpp:152-154 | one more trade in the sum adds exactly shares × price |
| `Trades.TotalOfConcat` | StockApp.cpp:148-158 | the portfolio sum is additive over concatenation of trade sequences |
| `Trades.TotalOfValidPositive` | StockApp.cpp:148-158 | a sum over admitted trades is non-negative, and positive when there is at least one |
| `StockApp.Stored` | StockApp.h:8-9 | the represented ledger has exactly `numTrades` entries, and they are the first slots of the array |
| `StockApp.New` | StockApp.cpp:8 | a fresh ledger satisfies the invariant, stores nothing, and totals 0, whatever the slots hold |
| `StockApp.AddTradeTest` | StockApp.cpp:128-140 | accepts iff count < 5 and shares > 0 and price > 0. A refusal changes nothing. An acceptance stores the trade at index old-count, raises the count by one, leaves every other slot unchanged, adds exactly the trade's value to the total, and preserves the invariant |
| `StockApp.GetNumTrades` | StockApp.cpp:143-145 | the count is the length of the stored ledger and stays within 0..5 (StockApp.h:7) |
| `StockApp.GetTotalPortfolioValue` | StockApp.cpp:148-158 | the summing loop equals the recursive sum of shares × price over the occupied slots. It is non-negative on reachable states, and positive when any trade is stored |
| `StockApp.GetRiskAt` | StockApp.cpp:161-167 | an occupied index gives the stored risk; a negative or too-large index gives Low |
| `StockApp.AddTrade` | StockApp.cpp:14-56 | a full ledger returns unchanged. Otherwise the accepted input is stored exactly as `addTradeTest` would store it, with risk from the menu choice, and the invariant is preserved |
| `StockApp.RiskLabel` | StockApp.cpp:69-73 | every label is non-empty, and "Medium" is the text of Medium and of nothing else |
| `StockApp.RiskLabelInjective` | StockApp.cpp:69-73 | distinct risk levels are displayed with distinct texts |
| `StockApp.DisplaySummary` | StockApp.cpp:58-78 | one row per stored trade in order, with symbol, shares, price and this copy's risk text, plus the portfolio total, even when empty |
| `StockApp.Project` | assignment.cpp:169-173 | the report has one (symbol, shares, price) record per trade, in order |
| `StockApp.ProjectAppend` | StockApp.cpp:87-91 | storing one more trade appends exactly one record to the report |
| `StockApp.ProjectIgnoresRisk` | assignment.cpp:155-173 | the report omits risk: ledgers differing only in risk give the same report |
| `StockApp.SaveReport` | StockApp.cpp:80-95 | the writing loop emits exactly the projection of the stored trades |
| `StockApp.FirstValidAdmitsAll` | StockApp.cpp:128-140 | with room for all of them, every valid offered trade is admitted, in order |
| `StockApp.AddAllAppendsFirstValid` | StockApp.cpp:128-140 | after any sequence of insertions, the ledger is the old ledger followed by the first (5 − count) valid trades offered, in order (append-only, rejected trades contribute nothing) |
| `StockApp.FullLedgerIsFrozen` | StockApp.cpp:130 | on a full ledger every insertion is refused and any sequence of insertions leaves it unchanged |
| `StockApp.TotalAfterInserts` | StockApp.cpp:148-158 | from a fresh ledger, the total and the count are those of exactly the admitted trades |
| `StockApp.RiskAfterInserts` | StockApp.cpp:161-167 | from a fresh ledger, index i holds the risk supplied with the i-th admitted trade, and every other index gives Low |
| `StockApp.AddAllPreservesInv` | StockApp.cpp:133-136 | every state reached by insertions keeps 0 ≤ count ≤ 5 and only valid stored trades |
| `Assignment.AddTrade` | assignment.cpp:46-113 | a full ledger returns unchanged. Otherwise the validated input is stored as `addTradeTest` would store it, with ordinal choice − 1, and non-empty symbols stay an invariant |
| `Assignment.AddTradeAgreesWithStockApp` | assignment.cpp:64-67 | on input both copies accept, the two interactive insertions have the same effect; the copies differ only in the symbol check |
| `Assignment.RiskLabel` | assignment.cpp:139-143 | every label is non-empty, and "Med" is the text of Medium and of nothing else |
| `Assignment.RiskLabelInjective` | assignment.cpp:139-143 | distinct risk levels are displayed with distinct texts |
| `Assignment.RiskLabelsDifferOnlyOnMedium` | assignment.cpp:141 | the two copies show the same text for every risk level except Medium |
| `Assignment.DisplaySummary` | assignment.cpp:116-153 | an empty ledger gives no rows and no total. Otherwise there is one row per stored trade in order, and the total summed in the same loop equals the portfolio sum |
| `Assignment.AddTradeSequence` | assignment.cpp:49-52 | a run of accepted additions raises the count by one each, until it saturates at 5 |
| `Assignment.AddTradeSequenceKeepsStrictInv` | assignment.cpp:64-91 | every trade this copy stores has a non-empty symbol, shares > 0 and price > 0 |
| `Scenarios.TotalWithMultipleTrades` | main.cpp:20-26 | AAPL 10 × 100 then MSFT 5 × 200 are both accepted: total 2000, count 2, risks Low then Medium |
| `Scenarios.TotalWithSingleTrade` | main.cpp:28-33 | GOOG 2 × 500 gives total 1000 |
| `Scenarios.TotalWithNoTrades` | main.cpp:35-38 | a fresh ledger totals 0 |
| `Scenarios.InvalidTradeNotIncluded` | main.cpp:40-45 | a trade with −5 shares can be constructed, is refused, and leaves count and total at 0 |
| `Scenarios.RiskStoredCorrectly` | main.cpp:49-61 | the risk given with the first trade is the one returned for index 0 |
| `Scenarios.InvalidIndexDefaultIsLow` | main.cpp:63-66 | index 0 of an empty ledger gives Low, not the Medium the doctest expects |
| `Scenarios.CountIncreasesWhenAdding` | main.cpp:70-76 | trades A and B are both accepted and the count becomes 2 |
| `Scenarios.MaximumTradesEnforced` | main.cpp:78-85 | five valid trades fill the ledger and a sixth is refused |
| `Scenarios.FreshLedgerAndSingleInserts` | main.cpp:87-102 | a fresh ledger has count 0, a valid trade is accepted, and a trade with −1 shares is refused |

## Left out

- Console I/O is not modelled: prompts, `cin.fail()`/`clear()`/`ignore()` recovery, and the re-prompt loops. Only the input the loops finally accept is modelled, as a precondition.
- The banner and the menu loop (`displayBanner`, `showMenu`, choices 1–4) are left out. They only dispatch to the modelled operations.
- `iomanip` column widths and two-decimal formatting are left out. A summary row is modelled as its fields plus the risk text.
- The report file is modelled only as the records the loop writes. Opening `report.txt`, the open-failure message, and the textual rendering of numbers are left out.
- IEEE-754 rounding and overflow of `double` are left out. Prices are exact reals, and `shares * price` is an exact product.
- A NaN price is not modelled. In the source, `t.price <= 0` is false for NaN, so `addTradeTest` (`StockApp.cpp:133`) accepts and stores a NaN price. A `real` cannot be NaN, so that state cannot occur in the model, and `Inv`'s "every stored price > 0" does not cover it.
- Out-of-enumerator risk values are excluded. The unscoped enum of `Trade.h:5-9` can hold a value such as `static_cast<RiskLevel>(3)`, which `addTradeTest` would store and `getRiskAt` would return. `RiskLevel` has exactly three values, so the model cannot represent such a trade.
- Reading the report back is not modelled. A symbol may contain spaces, and the report record keeps it whole, but the line `StockApp.cpp:88-90` writes separates fields by spaces, so such a line cannot be parsed back into its record. The source has no reader of the report.
- Program entry points (`main` in both copies) and the doctest harness are left out. The test cases appear only as the `Scenarios` lemmas.
