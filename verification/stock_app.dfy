/**
 The bounded trade ledger of the `StockApp` class: a fixed array of
 `MaxTrades` slots and a separate count of how many of them hold trades.
 Queries are functions of the state and return no new state, which is how
 the `const` qualifier on them is reflected here.
 */
module StockApp {
  import opened Trades

  /** Capacity of the ledger. */
  const MaxTrades: nat := 5

  /** The class's two data members: the slot array and the count. */
  datatype App = App(trades: seq<Trade>, numTrades: int)

  /** The declared layout: exactly `MaxTrades` slots and a count that stays inside them. */
  predicate WellFormed(app: App) {
    |app.trades| == MaxTrades && 0 <= app.numTrades <= MaxTrades
  }

  /** Every reachable state: well formed, and every occupied slot passed the insertion check. */
  predicate Inv(app: App) {
    WellFormed(app) && forall i :: 0 <= i < app.numTrades ==> Valid(app.trades[i])
  }

  /** The ledger the state represents: the occupied slots, in insertion order. */
  function Stored(app: App): (s: seq<Trade>)
    requires WellFormed(app)
    ensures |s| == app.numTrades
    ensures forall i :: 0 <= i < |s| ==> s[i] == app.trades[i]
  {
    app.trades[..app.numTrades]
  }

  /**
   The constructor. It sets the count to zero and leaves the slots with
   whatever the default `Trade` constructor put there, which is the
   parameter here.
   */
  function New(slots: seq<Trade>): (app: App)
    requires |slots| == MaxTrades
    ensures Inv(app)
    ensures Stored(app) == []
    ensures TotalOf(Stored(app)) == 0.0
  {
    App(slots, 0)
  }

  /**
   The test-friendly insertion: refuse when the array is full, refuse a trade
   with non-positive shares or price, otherwise store it in the next slot.
   */
  function AddTradeTest(app: App, t: Trade): (r: (bool, App))
    requires WellFormed(app)
    ensures WellFormed(r.1)
    ensures r.0 <==> app.numTrades < MaxTrades && Valid(t)
    ensures !r.0 ==> r.1 == app
    ensures r.0 ==> r.1.numTrades == app.numTrades + 1 && r.1.trades[app.numTrades] == t
    ensures r.0 ==> Stored(r.1) == Stored(app) + [t]
    ensures forall i :: 0 <= i < MaxTrades && i != app.numTrades ==> r.1.trades[i] == app.trades[i]
    ensures Inv(app) ==> Inv(r.1)
    ensures TotalOf(Stored(r.1)) == TotalOf(Stored(app)) + (if r.0 then Value(t) else 0.0)
  {
    if app.numTrades >= MaxTrades then (false, app)
    else if t.shares <= 0 || t.price <= 0.0 then (false, app)
    else
      var app' := App(app.trades[app.numTrades := t], app.numTrades + 1);
      assert Stored(app') == Stored(app) + [t];
      TotalOfAppend(Stored(app), t);
      (true, app')
  }

  /** The trade count; it never leaves 0..MaxTrades. */
  function GetNumTrades(app: App): (n: int)
    requires WellFormed(app)
    ensures n == |Stored(app)|
    ensures 0 <= n <= MaxTrades
  {
    app.numTrades
  }

  /** The summing loop over the occupied slots. */
  method GetTotalPortfolioValue(app: App) returns (total: real)
    requires WellFormed(app)
    ensures total == TotalOf(Stored(app))
    ensures Inv(app) ==> total >= 0.0
    ensures Inv(app) && app.numTrades > 0 ==> total > 0.0
  {
    total := 0.0;
    var i := 0;
    while i < app.numTrades
      invariant 0 <= i <= app.numTrades
      invariant total == TotalOf(app.trades[..i])
    {
      assert app.trades[..i + 1] == app.trades[..i] + [app.trades[i]];
      TotalOfAppend(app.trades[..i], app.trades[i]);
      total := total + (app.trades[i].shares as real) * app.trades[i].price;
      i := i + 1;
    }
    if Inv(app) {
      TotalOfValidPositive(Stored(app));
    }
  }

  /** Index-checked risk lookup; any index outside the occupied slots yields Low. */
  function GetRiskAt(app: App, index: int): (r: RiskLevel)
    requires WellFormed(app)
    ensures 0 <= index < app.numTrades ==> r == Stored(app)[index].risk
    ensures index < 0 || index >= app.numTrades ==> r == Low
  {
    if index < 0 || index >= app.numTrades then Low else app.trades[index].risk
  }

  /**
   The effective transition of the interactive `addTrade`: on a full ledger it
   returns at once, before reading anything; otherwise the prompt loops only
   let through positive shares and price and a risk choice in 1..3, and the
   symbol is taken as typed (possibly empty).
   */
  function AddTrade(app: App, symbol: string, shares: Int32, price: real, choice: int): (app': App)
    requires WellFormed(app)
    requires app.numTrades < MaxTrades ==> shares > 0 && price > 0.0 && 1 <= choice <= 3
    ensures WellFormed(app')
    ensures app.numTrades >= MaxTrades ==> app' == app
    ensures app.numTrades < MaxTrades ==>
      Stored(app') == Stored(app) + [Trade(symbol, shares, price, RiskFromChoice(choice))]
    ensures app.numTrades < MaxTrades ==>
      AddTradeTest(app, Trade(symbol, shares, price, RiskFromChoice(choice))) == (true, app')
    ensures Inv(app) ==> Inv(app')
  {
    if app.numTrades >= MaxTrades then app
    else
      var t := Trade(symbol, shares, price, RiskFromChoice(choice));
      var app' := App(app.trades[app.numTrades := t], app.numTrades + 1);
      assert Stored(app') == Stored(app) + [t];
      app'
  }

  /** Text the summary table shows for each risk level in this copy of the class. */
  function RiskLabel(r: RiskLevel): (text: string)
    ensures |text| > 0
    ensures text == "Medium" <==> r == Medium
  {
    match r
    case Low => "Low"
    case Medium => "Medium"
    case High => "High"
  }

  /** Distinct risk levels are shown with distinct labels. */
  lemma RiskLabelInjective(a: RiskLevel, b: RiskLevel)
    ensures RiskLabel(a) == RiskLabel(b) <==> a == b
  {
  }

  /** One row of the summary table, before column formatting. */
  datatype SummaryRow = SummaryRow(symbol: string, shares: Int32, price: real, riskText: string)

  /**
   The summary view: one row per occupied slot with this copy's risk text,
   and the total it obtains from `GetTotalPortfolioValue`. The table is shown
   even when the ledger is empty.
   */
  method DisplaySummary(app: App) returns (rows: seq<SummaryRow>, total: real)
    requires WellFormed(app)
    ensures |rows| == app.numTrades
    ensures forall i :: 0 <= i < |rows| ==>
      var t := Stored(app)[i];
      rows[i] == SummaryRow(t.symbol, t.shares, t.price, RiskLabel(t.risk))
    ensures total == TotalOf(Stored(app))
  {
    total := GetTotalPortfolioValue(app);
    rows := [];
    var i := 0;
    while i < app.numTrades
      invariant 0 <= i <= app.numTrades
      invariant |rows| == i
      invariant forall j :: 0 <= j < i ==>
        rows[j] == SummaryRow(app.trades[j].symbol, app.trades[j].shares, app.trades[j].price,
                              RiskLabel(app.trades[j].risk))
    {
      var t := app.trades[i];
      rows := rows + [SummaryRow(t.symbol, t.shares, t.price, RiskLabel(t.risk))];
      i := i + 1;
    }
  }

  /** One line of the saved report: the risk level is not written. */
  datatype ReportRecord = ReportRecord(symbol: string, shares: Int32, price: real)

  /** The report projection of a sequence of trades, one record per trade, in order. */
  function Project(ts: seq<Trade>): (rs: seq<ReportRecord>)
    ensures |rs| == |ts|
    ensures forall i :: 0 <= i < |ts| ==>
      rs[i].symbol == ts[i].symbol && rs[i].shares == ts[i].shares && rs[i].price == ts[i].price
    decreases |ts|
  {
    if |ts| == 0 then []
    else Project(ts[..|ts| - 1]) + [ReportRecord(ts[|ts| - 1].symbol, ts[|ts| - 1].shares, ts[|ts| - 1].price)]
  }

  /** Storing one more trade appends exactly one record to the report. */
  lemma ProjectAppend(ts: seq<Trade>, t: Trade)
    ensures Project(ts + [t]) == Project(ts) + [ReportRecord(t.symbol, t.shares, t.price)]
  {
    assert (ts + [t])[..|ts|] == ts;
  }

  /** Two ledgers that differ only in the risk levels produce the same report. */
  lemma ProjectIgnoresRisk(a: seq<Trade>, b: seq<Trade>)
    requires |a| == |b|
    requires forall i :: 0 <= i < |a| ==>
      a[i].symbol == b[i].symbol && a[i].shares == b[i].shares && a[i].price == b[i].price
    ensures Project(a) == Project(b)
  {
  }

  /**
   The writing loop of the report save, with the file stream abstracted to
   the sequence of records written. Opening failure is left out.
   */
  method SaveReport(app: App) returns (records: seq<ReportRecord>)
    requires WellFormed(app)
    ensures records == Project(Stored(app))
  {
    records := [];
    var i := 0;
    while i < app.numTrades
      invariant 0 <= i <= app.numTrades
      invariant records == Project(app.trades[..i])
    {
      assert app.trades[..i + 1] == app.trades[..i] + [app.trades[i]];
      ProjectAppend(app.trades[..i], app.trades[i]);
      records := records + [ReportRecord(app.trades[i].symbol, app.trades[i].shares, app.trades[i].price)];
      i := i + 1;
    }
  }

  // ---------- Sequences of insertions ----------

  /** The state after offering each trade of `ts` to `AddTradeTest`, in order. */
  function AddAll(app: App, ts: seq<Trade>): (r: App)
    requires WellFormed(app)
    ensures WellFormed(r)
    decreases |ts|
  {
    if |ts| == 0 then app else AddAll(AddTradeTest(app, ts[0]).1, ts[1..])
  }

  /**
   Reference definition of what a ledger with `room` free slots admits from an
   offered sequence: its first `room` valid trades, in the order offered.
   */
  function FirstValid(ts: seq<Trade>, room: nat): (r: seq<Trade>)
    ensures |r| <= room
    ensures |r| <= |ts|
    ensures forall i :: 0 <= i < |r| ==> Valid(r[i])
    decreases |ts|
  {
    if |ts| == 0 || room == 0 then []
    else if Valid(ts[0]) then [ts[0]] + FirstValid(ts[1..], room - 1)
    else FirstValid(ts[1..], room)
  }

  /** When every offered trade is valid and there is room for all of them, all are admitted. */
  lemma {:induction false} FirstValidAdmitsAll(ts: seq<Trade>, room: nat)
    requires forall i :: 0 <= i < |ts| ==> Valid(ts[i])
    requires |ts| <= room
    ensures FirstValid(ts, room) == ts
    decreases |ts|
  {
    if |ts| > 0 {
      FirstValidAdmitsAll(ts[1..], room - 1);
      assert ts == [ts[0]] + ts[1..];
    }
  }

  /** Insertion is append-only: the ledger grows by exactly the trades the reference admits. */
  lemma {:induction false} AddAllAppendsFirstValid(app: App, ts: seq<Trade>)
    requires WellFormed(app)
    ensures Stored(AddAll(app, ts)) == Stored(app) + FirstValid(ts, MaxTrades - app.numTrades)
    decreases |ts|
  {
    if |ts| > 0 {
      var t, rest := ts[0], ts[1..];
      var step := AddTradeTest(app, t);
      AddAllAppendsFirstValid(step.1, rest);
      if step.0 {
        assert FirstValid(ts, MaxTrades - app.numTrades)
            == [t] + FirstValid(rest, MaxTrades - app.numTrades - 1);
        assert Stored(app) + [t] + FirstValid(rest, MaxTrades - app.numTrades - 1)
            == Stored(app) + ([t] + FirstValid(rest, MaxTrades - app.numTrades - 1));
      } else if app.numTrades >= MaxTrades {
        assert FirstValid(ts, 0) == [];
        assert FirstValid(rest, 0) == [];
      } else {
        assert !Valid(t);
      }
    }
  }

  /** Once the ledger is full, every further insertion is refused and nothing changes. */
  lemma {:induction false} FullLedgerIsFrozen(app: App, ts: seq<Trade>)
    requires WellFormed(app) && app.numTrades == MaxTrades
    ensures AddAll(app, ts) == app
    ensures forall i :: 0 <= i < |ts| ==> !AddTradeTest(app, ts[i]).0
    decreases |ts|
  {
    if |ts| > 0 {
      FullLedgerIsFrozen(app, ts[1..]);
    }
  }

  /** Starting empty, the total is the sum over exactly the admitted trades. */
  lemma TotalAfterInserts(slots: seq<Trade>, ts: seq<Trade>)
    requires |slots| == MaxTrades
    ensures TotalOf(Stored(AddAll(New(slots), ts))) == TotalOf(FirstValid(ts, MaxTrades))
    ensures GetNumTrades(AddAll(New(slots), ts)) == |FirstValid(ts, MaxTrades)|
  {
    AddAllAppendsFirstValid(New(slots), ts);
    assert [] + FirstValid(ts, MaxTrades) == FirstValid(ts, MaxTrades);
  }

  /** Starting empty, position i holds the risk of the i-th admitted trade; beyond that, Low. */
  lemma RiskAfterInserts(slots: seq<Trade>, ts: seq<Trade>, i: int)
    requires |slots| == MaxTrades
    ensures 0 <= i < |FirstValid(ts, MaxTrades)| ==>
      GetRiskAt(AddAll(New(slots), ts), i) == FirstValid(ts, MaxTrades)[i].risk
    ensures i < 0 || i >= |FirstValid(ts, MaxTrades)| ==> GetRiskAt(AddAll(New(slots), ts), i) == Low
  {
    AddAllAppendsFirstValid(New(slots), ts);
    assert [] + FirstValid(ts, MaxTrades) == FirstValid(ts, MaxTrades);
  }

  /** Every state reached from the constructor by insertions satisfies the invariant. */
  lemma {:induction false} AddAllPreservesInv(app: App, ts: seq<Trade>)
    requires Inv(app)
    ensures Inv(AddAll(app, ts))
    decreases |ts|
  {
    if |ts| > 0 {
      AddAllPreservesInv(AddTradeTest(app, ts[0]).1, ts[1..]);
    }
  }
}
