/**
 The earlier, single-file copy of the `StockApp` class. That copy has only a
 constructor, `addTrade`, `displaySummary`, `saveReportToFileSimple` and the
 menu; it has none of the test-friendly insertion or the query methods. Its
 state layout, capacity, constructor and report writing are identical to
 those of module `StockApp` and are reused from there. This module holds what
 the copy does differently: a symbol-checked interactive insertion, an
 abbreviated risk text, and a summary that stops early on an empty ledger and
 sums as it prints. `AddTradeTest` appears in the contracts here only as the
 reference transition that the interactive insertion is compared with.
 */
module Assignment {
  import opened Trades
  import opened StockApp

  datatype Option<T> = None | Some(value: T)

  /** The input the prompt loops of this copy's `addTrade` can exit with. */
  predicate AcceptedInput(symbol: string, shares: Int32, price: real, choice: int) {
    |symbol| > 0 && shares > 0 && price > 0.0 && 1 <= choice <= 3
  }

  /** The reachable states of this copy: the ledger invariant plus non-empty symbols. */
  predicate StrictInv(app: App) {
    Inv(app) && forall i :: 0 <= i < app.numTrades ==> |app.trades[i].symbol| > 0
  }

  /**
   The effective transition of this copy's `addTrade`: a full ledger returns
   before any input is read; otherwise the accepted input becomes one trade,
   with the risk taken from the menu choice, stored in the next slot.
   */
  function AddTrade(app: App, symbol: string, shares: Int32, price: real, choice: int): (app': App)
    requires WellFormed(app)
    requires app.numTrades < MaxTrades ==> AcceptedInput(symbol, shares, price, choice)
    ensures WellFormed(app')
    ensures app.numTrades >= MaxTrades ==> app' == app
    ensures app.numTrades < MaxTrades ==>
      AddTradeTest(app, Trade(symbol, shares, price, RiskFromChoice(choice))) == (true, app')
    ensures app.numTrades < MaxTrades ==> Ordinal(app'.trades[app.numTrades].risk) == choice - 1
    ensures StrictInv(app) ==> StrictInv(app')
  {
    if app.numTrades >= MaxTrades then app
    else
      var t := Trade(symbol, shares, price, RiskFromChoice(choice));
      App(app.trades[app.numTrades := t], app.numTrades + 1)
  }

  /** On input both copies accept, the two interactive insertions have the same effect. */
  lemma AddTradeAgreesWithStockApp(app: App, symbol: string, shares: Int32, price: real, choice: int)
    requires WellFormed(app)
    requires app.numTrades < MaxTrades ==> AcceptedInput(symbol, shares, price, choice)
    ensures AddTrade(app, symbol, shares, price, choice) == StockApp.AddTrade(app, symbol, shares, price, choice)
  {
  }

  /** This copy's risk text, which abbreviates Medium. */
  function RiskLabel(r: RiskLevel): (text: string)
    ensures |text| > 0
    ensures text == "Med" <==> r == Medium
  {
    match r
    case Low => "Low"
    case Medium => "Med"
    case High => "High"
  }

  /** Distinct risk levels are shown with distinct texts in this copy too. */
  lemma RiskLabelInjective(a: RiskLevel, b: RiskLevel)
    ensures RiskLabel(a) == RiskLabel(b) <==> a == b
  {
  }

  /** The two copies show the same text for every risk level except Medium. */
  lemma RiskLabelsDifferOnlyOnMedium(r: RiskLevel)
    ensures RiskLabel(r) == StockApp.RiskLabel(r) <==> r != Medium
  {
  }

  /**
   This copy's summary view: nothing (and no total) for an empty ledger;
   otherwise one row per stored trade and a total accumulated in the same
   loop that prints the rows.
   */
  method DisplaySummary(app: App) returns (rows: seq<SummaryRow>, total: Option<real>)
    requires WellFormed(app)
    ensures total.None? <==> app.numTrades == 0
    ensures total.Some? ==> total.value == TotalOf(Stored(app))
    ensures |rows| == app.numTrades
    ensures forall i :: 0 <= i < |rows| ==>
      var t := Stored(app)[i];
      rows[i] == SummaryRow(t.symbol, t.shares, t.price, RiskLabel(t.risk))
  {
    if app.numTrades == 0 {
      return [], None;
    }
    var sum := 0.0;
    rows := [];
    var i := 0;
    while i < app.numTrades
      invariant 0 <= i <= app.numTrades
      invariant sum == TotalOf(app.trades[..i])
      invariant |rows| == i
      invariant forall j :: 0 <= j < i ==>
        rows[j] == SummaryRow(app.trades[j].symbol, app.trades[j].shares, app.trades[j].price,
                              RiskLabel(app.trades[j].risk))
    {
      var t := app.trades[i];
      rows := rows + [SummaryRow(t.symbol, t.shares, t.price, RiskLabel(t.risk))];
      assert app.trades[..i + 1] == app.trades[..i] + [t];
      TotalOfAppend(app.trades[..i], t);
      sum := sum + (t.shares as real) * t.price;
      i := i + 1;
    }
    total := Some(sum);
  }

  /** Every state this copy reaches from its constructor has non-empty symbols. */
  lemma {:induction false} AddTradeSequenceKeepsStrictInv(app: App, inputs: seq<(string, Int32, real, int)>)
    requires StrictInv(app)
    requires forall k :: 0 <= k < |inputs| ==> AcceptedInput(inputs[k].0, inputs[k].1, inputs[k].2, inputs[k].3)
    ensures StrictInv(AddTradeSequence(app, inputs))
    decreases |inputs|
  {
    if |inputs| > 0 {
      var x := inputs[0];
      AddTradeSequenceKeepsStrictInv(AddTrade(app, x.0, x.1, x.2, x.3), inputs[1..]);
    }
  }

  /** A run of menu choice 1 with the given accepted inputs, one after another. */
  function AddTradeSequence(app: App, inputs: seq<(string, Int32, real, int)>): (r: App)
    requires WellFormed(app)
    requires forall k :: 0 <= k < |inputs| ==> AcceptedInput(inputs[k].0, inputs[k].1, inputs[k].2, inputs[k].3)
    ensures WellFormed(r)
    ensures r.numTrades == if app.numTrades + |inputs| <= MaxTrades then app.numTrades + |inputs| else MaxTrades
    decreases |inputs|
  {
    if |inputs| == 0 then app
    else
      var x := inputs[0];
      AddTradeSequence(AddTrade(app, x.0, x.1, x.2, x.3), inputs[1..])
  }
}
