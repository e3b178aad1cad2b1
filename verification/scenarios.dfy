/**
 The doctest cases of main.cpp as lemmas about the model. Each holds for any
 contents of the slot array the constructor leaves behind.
 */
module Scenarios {
  import opened Trades
  import opened StockApp

  /** Two valid trades: 10 x 100 plus 5 x 200 is 2000, both counted, risks in order. */
  lemma TotalWithMultipleTrades(slots: seq<Trade>)
    requires |slots| == MaxTrades
    ensures var a1 := AddTradeTest(New(slots), Trade("AAPL", 10, 100.0, Low));
            var a2 := AddTradeTest(a1.1, Trade("MSFT", 5, 200.0, Medium));
            a1.0 && a2.0
            && TotalOf(Stored(a2.1)) == 2000.0
            && GetNumTrades(a2.1) == 2
            && GetRiskAt(a2.1, 0) == Low && GetRiskAt(a2.1, 1) == Medium
  {
    var a1 := AddTradeTest(New(slots), Trade("AAPL", 10, 100.0, Low));
    var a2 := AddTradeTest(a1.1, Trade("MSFT", 5, 200.0, Medium));
    assert TotalOf(Stored(a1.1)) == 1000.0;
  }

  /** One trade of 2 x 500. */
  lemma TotalWithSingleTrade(slots: seq<Trade>)
    requires |slots| == MaxTrades
    ensures TotalOf(Stored(AddTradeTest(New(slots), Trade("GOOG", 2, 500.0, High)).1)) == 1000.0
  {
  }

  /** A fresh ledger totals 0. */
  lemma TotalWithNoTrades(slots: seq<Trade>)
    requires |slots| == MaxTrades
    ensures TotalOf(Stored(New(slots))) == 0.0
  {
  }

  /** A trade with negative shares can be built, is refused, and adds nothing. */
  lemma InvalidTradeNotIncluded(slots: seq<Trade>)
    requires |slots| == MaxTrades
    ensures var bad := Trade("BAD", -5, 10.0, Low);
            var r := AddTradeTest(New(slots), bad);
            !Valid(bad) && !r.0 && GetNumTrades(r.1) == 0 && TotalOf(Stored(r.1)) == 0.0
  {
  }

  /** The stored risk is returned for an occupied slot. */
  lemma RiskStoredCorrectly(slots: seq<Trade>, risk: RiskLevel)
    requires |slots| == MaxTrades
    ensures GetRiskAt(AddTradeTest(New(slots), Trade("MID", 1, 10.0, risk)).1, 0) == risk
  {
  }

  /**
   An out-of-range lookup on an empty ledger yields Low. The doctest at
   main.cpp:63-66 expects Medium here; the code returns Low.
   */
  lemma InvalidIndexDefaultIsLow(slots: seq<Trade>)
    requires |slots| == MaxTrades
    ensures GetRiskAt(New(slots), 0) == Low
    ensures GetRiskAt(New(slots), 0) != Medium
  {
  }

  /** Two accepted trades give a count of two. */
  lemma CountIncreasesWhenAdding(slots: seq<Trade>)
    requires |slots| == MaxTrades
    ensures var a1 := AddTradeTest(New(slots), Trade("A", 1, 1.0, Low));
            var a2 := AddTradeTest(a1.1, Trade("B", 1, 1.0, Low));
            a1.0 && a2.0 && GetNumTrades(a2.1) == 2
  {
  }

  /** Five accepted trades fill the ledger and a sixth is refused. */
  lemma MaximumTradesEnforced(slots: seq<Trade>)
    requires |slots| == MaxTrades
    ensures var x := Trade("X", 1, 1.0, Low);
            var full := AddAll(New(slots), [x, x, x, x, x]);
            GetNumTrades(full) == MaxTrades
            && !AddTradeTest(full, Trade("OVER", 1, 1.0, Low)).0
  {
    var x := Trade("X", 1, 1.0, Low);
    AddAllAppendsFirstValid(New(slots), [x, x, x, x, x]);
    FirstValidAdmitsAll([x, x, x, x, x], MaxTrades);
  }

  /** A fresh ledger is empty, and a valid trade is accepted; a negative one is not. */
  lemma FreshLedgerAndSingleInserts(slots: seq<Trade>)
    requires |slots| == MaxTrades
    ensures GetNumTrades(New(slots)) == 0
    ensures AddTradeTest(New(slots), Trade("OK", 1, 10.0, Low)).0
    ensures !AddTradeTest(New(slots), Trade("BAD", -1, 10.0, Low)).0
  {
  }
}
