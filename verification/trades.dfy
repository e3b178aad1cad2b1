/**
 The value types of the stock tracker: the three-valued risk classification
 and the trade record, plus the per-trade value and the portfolio sum that
 every copy of the ledger computes.
 */
module Trades {

  /** The range of a C++ `int` on the platforms the program targets. */
  type Int32 = x: int | -0x8000_0000 <= x < 0x8000_0000

  /** A closed enumeration, declared in the order Low, Medium, High. */
  datatype RiskLevel = Low | Medium | High

  /** The underlying value C++ gives each enumerator: its declaration position. */
  function Ordinal(r: RiskLevel): (n: nat)
    ensures n < 3
  {
    match r
    case Low => 0
    case Medium => 1
    case High => 2
  }

  /** Distinct enumerators have distinct ordinals. */
  lemma OrdinalInjective(a: RiskLevel, b: RiskLevel)
    ensures Ordinal(a) == Ordinal(b) <==> a == b
  {
  }

  /**
   The menu conversion `static_cast<RiskLevel>(r - 1)` for a choice the prompt
   loop has already confined to 1..3.
   */
  function RiskFromChoice(choice: int): (r: RiskLevel)
    requires 1 <= choice <= 3
    ensures Ordinal(r) == choice - 1
  {
    if choice == 1 then Low else if choice == 2 then Medium else High
  }

  /** The menu number that selects a given risk level. */
  function ChoiceOf(r: RiskLevel): (choice: int)
    ensures 1 <= choice <= 3
    ensures RiskFromChoice(choice) == r
  {
    Ordinal(r) + 1
  }

  /** The choice mapping is a bijection from {1, 2, 3} onto the three risk levels. */
  lemma ChoiceBijection()
    ensures forall c :: 1 <= c <= 3 ==> ChoiceOf(RiskFromChoice(c)) == c
    ensures forall r :: RiskFromChoice(ChoiceOf(r)) == r
    ensures forall c, d :: 1 <= c <= 3 && 1 <= d <= 3 && RiskFromChoice(c) == RiskFromChoice(d) ==> c == d
  {
  }

  /**
   One trade. The record itself carries no invariant: any field values can be
   constructed, and positivity is only enforced when the ledger admits it.
   */
  datatype Trade = Trade(symbol: string, shares: Int32, price: real, risk: RiskLevel)

  /** The check a ledger applies before storing a trade: it refuses non-positive shares or price. */
  predicate Valid(t: Trade) {
    !(t.shares <= 0 || t.price <= 0.0)
  }

  /** Market value of one trade: shares times price, computed exactly. */
  function Value(t: Trade): real {
    (t.shares as real) * t.price
  }

  /** A trade that passes the insertion check has a strictly positive value. */
  lemma ValidHasPositiveValue(t: Trade)
    requires Valid(t)
    ensures Value(t) > 0.0
  {
  }

  /**
   Sum of shares times price over a sequence of trades. It peels the LAST
   trade, so a prefix sum grows by one trade at a time in index order, the
   way the summing loops of the program accumulate.
   */
  function TotalOf(ts: seq<Trade>): real
    decreases |ts|
  {
    if |ts| == 0 then 0.0 else TotalOf(ts[..|ts| - 1]) + Value(ts[|ts| - 1])
  }

  /** Appending one trade adds exactly its value. */
  lemma TotalOfAppend(ts: seq<Trade>, t: Trade)
    ensures TotalOf(ts + [t]) == TotalOf(ts) + Value(t)
  {
    assert (ts + [t])[..|ts|] == ts;
  }

  /** The sum over a concatenation is the sum of the sums. */
  lemma {:induction false} TotalOfConcat(a: seq<Trade>, b: seq<Trade>)
    ensures TotalOf(a + b) == TotalOf(a) + TotalOf(b)
    decreases |b|
  {
    if |b| == 0 {
      assert a + b == a;
    } else {
      var init, last := b[..|b| - 1], b[|b| - 1];
      assert b == init + [last];
      assert a + b == (a + init) + [last];
      TotalOfAppend(a + init, last);
      TotalOfConcat(a, init);
      TotalOfAppend(init, last);
    }
  }

  /** A sequence of admitted trades has a non-negative total, positive when non-empty. */
  lemma {:induction false} TotalOfValidPositive(ts: seq<Trade>)
    requires forall i :: 0 <= i < |ts| ==> Valid(ts[i])
    ensures TotalOf(ts) >= 0.0
    ensures |ts| > 0 ==> TotalOf(ts) > 0.0
    decreases |ts|
  {
    if |ts| > 0 {
      TotalOfValidPositive(ts[..|ts| - 1]);
      ValidHasPositiveValue(ts[|ts| - 1]);
    }
  }
}
