/** Concrete cases of the resolver and the aggregation, worked out by the verifier. */
module Scenarios {
  import opened Wrappers
  import opened Calendar
  import opened Cycle
  import opened Statement

  /** Before the 8th the cycle began on the 8th of the previous month; on the 8th it begins. */
  lemma RollBackAndStart()
    ensures CycleStart(8, Date(2024, 3, 5)) == Ok(Date(2024, 2, 8))
    ensures CycleStart(8, Date(2024, 3, 8)) == Ok(Date(2024, 3, 8))
  {
  }

  /** Anchor 31: February 2024 clamps to the 29th, so the 15th belongs to January's cycle. */
  lemma ClampToMonthLength()
    ensures CycleStart(31, Date(2024, 2, 15)) == Ok(Date(2024, 1, 31))
    ensures CycleStart(31, Date(2024, 2, 29)) == Ok(Date(2024, 2, 29))
    ensures CycleStart(31, Date(2023, 4, 30)) == Ok(Date(2023, 4, 30))
  {
  }

  /** January steps back to December of the year before. */
  lemma RollBackOverNewYear()
    ensures CycleStart(8, Date(2024, 1, 3)) == Ok(Date(2023, 12, 8))
  {
  }

  /** The earliest dates have no earlier cycle, a non-positive anchor is no day,
      and an anchor beyond the C `int` range overflows the date constructor. */
  lemma ResolverFailures()
    ensures CycleStart(8, Date(1, 1, 3)) == Err(OutOfRange)
    ensures CycleStart(40, Date(1, 1, 31)) == Ok(Date(1, 1, 31))
    ensures CycleStart(0, Date(2024, 3, 5)) == Err(InvalidDate)
    ensures CycleStart(-1_000_000_000_000, Date(2024, 3, 5)) == Err(OutOfRange)
  {
  }

  /** From the 31st of a 31-day month into a leap February: clamped to the 29th. */
  lemma NextCycleIntoLeapFebruary()
    ensures NextCycleStart(31, Date(2024, 1, 31)) == Ok(Date(2024, 2, 29))
  {
    NextCycleStartIsNextMonth(31, Date(2024, 1, 31));
  }

  /** From the 31st into a common-year February: clamped to the 28th. */
  lemma NextCycleIntoCommonFebruary()
    ensures NextCycleStart(31, Date(2023, 1, 31)) == Ok(Date(2023, 2, 28))
  {
    NextCycleStartIsNextMonth(31, Date(2023, 1, 31));
  }

  /** From a clamped 29 February back to the 31st of March. */
  lemma NextCycleOutOfLeapFebruary()
    ensures NextCycleStart(31, Date(2024, 2, 29)) == Ok(Date(2024, 3, 31))
  {
    NextCycleStartIsNextMonth(31, Date(2024, 2, 29));
  }

  /** From a clamped 30 April to the 31st of May. */
  lemma NextCycleOutOfThirtyDayMonth()
    ensures NextCycleStart(31, Date(2023, 4, 30)) == Ok(Date(2023, 5, 31))
  {
    NextCycleStartIsNextMonth(31, Date(2023, 4, 30));
  }

  /** From December into January of the next year. */
  lemma NextCycleOverNewYear()
    ensures NextCycleStart(8, Date(2023, 12, 8)) == Ok(Date(2024, 1, 8))
  {
    NextCycleStartIsNextMonth(8, Date(2023, 12, 8));
  }

  /** Spending 100.50 and 40.00 of 1000.00, in cents: 140.50 spent, 859.50 left. */
  lemma StatementTotals()
    ensures var budget := Budget(1, Date(2024, 3, 8), 100000);
            var txs := [Transaction(1, Date(2024, 3, 10), Time(9, 0, 0, 0), 10050, "rent"),
                        Transaction(1, Date(2024, 3, 12), Time(18, 30, 0, 0), 4000, "food")];
            var r := StatementFor(1, 8, budget, txs);
            r.Page? && r.summary.totalSpent == 14050 && r.summary.remainingBalance == 85950
  {
    var budget := Budget(1, Date(2024, 3, 8), 100000);
    var txs := [Transaction(1, Date(2024, 3, 10), Time(9, 0, 0, 0), 10050, "rent"),
                Transaction(1, Date(2024, 3, 12), Time(18, 30, 0, 0), 4000, "food")];
    NextCycleStartIsNextMonth(8, budget.monthStart);
    assert Select(txs, 1, budget.monthStart, Some(Date(2024, 4, 8))) == txs;
  }

  /** The balance is not clamped: spending 1200.00 of 1000.00 leaves -200.00. */
  lemma OverspendingIsNegative()
    ensures var budget := Budget(1, Date(2024, 3, 8), 100000);
            var txs := [Transaction(1, Date(2024, 3, 9), Time(12, 0, 0, 0), 120000, "laptop")];
            var r := StatementFor(1, 8, budget, txs);
            r.Page? && r.summary.remainingBalance == -20000
  {
    var budget := Budget(1, Date(2024, 3, 8), 100000);
    var txs := [Transaction(1, Date(2024, 3, 9), Time(12, 0, 0, 0), 120000, "laptop")];
    NextCycleStartIsNextMonth(8, budget.monthStart);
    assert Select(txs, 1, budget.monthStart, Some(Date(2024, 4, 8))) == txs;
  }

  /** The home page keeps a row dated in a later cycle; the statement of the same budget does not. */
  lemma LiveViewKeepsLaterRows()
    ensures var budget := Budget(1, Date(2024, 3, 8), 100000);
            var later := Transaction(1, Date(2024, 4, 9), Time(8, 0, 0, 0), 500, "coffee");
            var live := LiveView(1, 8, Date(2024, 3, 20), [budget], [later]);
            var statement := StatementFor(1, 8, budget, [later]);
            live.Page? && later in live.summary.transactions
            && statement.Page? && later !in statement.summary.transactions
  {
    var budget := Budget(1, Date(2024, 3, 8), 100000);
    var later := Transaction(1, Date(2024, 4, 9), Time(8, 0, 0, 0), 500, "coffee");
    var live := LiveView(1, 8, Date(2024, 3, 20), [budget], [later]);
    assert multiset(live.summary.transactions)[later] == 1;
    NextCycleStartIsNextMonth(8, budget.monthStart);
    var statement := StatementFor(1, 8, budget, [later]);
    assert multiset(statement.summary.transactions)[later] == 0;
  }
}
