/**
  The statement aggregation of app.py: which transactions belong to a budget
  cycle, in which order they are listed, and the totals shown beside them.
  The persistence layer's queries become pure functions over sequences of
  records; the HTML page and the PDF document become a `Summary` value.
*/
module Statement {
  import opened Wrappers
  import opened Calendar
  import opened Cycle

  /** `datetime.time`: compared field by field. */
  datatype Time = Time(hour: int, minute: int, second: int, microsecond: int)

  /** A spending record (models.py `Transaction`); `amount` is in minor currency units. */
  datatype Transaction = Transaction(userId: int, date: Date, time: Time, amount: int, description: string)

  /** The allocation of one cycle (models.py `MonthlyBudget`). */
  datatype Budget = Budget(userId: int, monthStart: Date, salaryCredited: int)

  /** What the home page and the downloadable statement show. */
  datatype Summary = Summary(
    budget: Budget,
    cycleStart: Date,
    transactions: seq<Transaction>,
    totalSpent: int,
    remainingBalance: int)

  /** The outcome of a request: the page, the redirect taken when no budget
      was found, or the exception raised by date handling. */
  datatype Response = Page(summary: Summary) | NoBudgetFound | DateFailure(error: DateError)

  predicate TimeBefore(a: Time, b: Time) {
    || a.hour < b.hour
    || (a.hour == b.hour && a.minute < b.minute)
    || (a.hour == b.hour && a.minute == b.minute && a.second < b.second)
    || (a.hour == b.hour && a.minute == b.minute && a.second == b.second && a.microsecond < b.microsecond)
  }

  // ---------------------------------------------------------------------------
  // Selecting transactions

  /** The query filter: the user's transactions dated on or after `start` and,
      when an end is given, strictly before it. */
  predicate InRange(t: Transaction, user: int, start: Date, end: Option<Date>) {
    && t.userId == user
    && !Before(t.date, start)
    && (end.None? || Before(t.date, end.value))
  }

  /** The transactions that pass the filter, each as often as it is stored. */
  function Select(txs: seq<Transaction>, user: int, start: Date, end: Option<Date>): (r: seq<Transaction>)
    ensures forall t :: multiset(r)[t] == if InRange(t, user, start, end) then multiset(txs)[t] else 0
  {
    if txs == [] then []
    else
      assert txs == [txs[0]] + txs[1..];
      (if InRange(txs[0], user, start, end) then [txs[0]] else []) + Select(txs[1..], user, start, end)
  }

  // ---------------------------------------------------------------------------
  // Ordering (ORDER BY)

  datatype Order =
    | DateAscending        // the statement: `order_by(date.asc())`
    | DateTimeDescending   // the home page: `order_by(date.desc(), time.desc())`

  /** `a` may be listed before `b`. */
  predicate Precedes(order: Order, a: Transaction, b: Transaction) {
    match order
    case DateAscending => !Before(b.date, a.date)
    case DateTimeDescending => Before(b.date, a.date) || (b.date == a.date && !TimeBefore(a.time, b.time))
  }

  predicate Sorted(s: seq<Transaction>, order: Order) {
    forall i, j :: 0 <= i < j < |s| ==> Precedes(order, s[i], s[j])
  }

  lemma PrecedesTotal(order: Order, a: Transaction, b: Transaction)
    ensures Precedes(order, a, b) || Precedes(order, b, a)
  {
  }

  lemma PrecedesTransitive(order: Order, a: Transaction, b: Transaction, c: Transaction)
    requires Precedes(order, a, b) && Precedes(order, b, c)
    ensures Precedes(order, a, c)
  {
  }

  /** Putting `x` in front keeps a list sorted when `x` may precede its head. */
  lemma SortedCons(order: Order, x: Transaction, s: seq<Transaction>)
    requires Sorted(s, order)
    requires forall z :: z in multiset(s) ==> Precedes(order, x, z)
    ensures Sorted([x] + s, order)
  {
    forall i, j | 0 <= i < j < |[x] + s| ensures Precedes(order, ([x] + s)[i], ([x] + s)[j]) {
      if i == 0 {
        assert ([x] + s)[j] == s[j - 1];
        assert s[j - 1] in multiset(s);
      } else {
        assert ([x] + s)[i] == s[i - 1] && ([x] + s)[j] == s[j - 1];
      }
    }
  }

  /** The head of a sorted list may precede every element of the list. */
  lemma HeadPrecedesAll(order: Order, s: seq<Transaction>)
    requires Sorted(s, order) && s != []
    ensures forall z :: z in multiset(s) ==> Precedes(order, s[0], z)
  {
    forall z | z in multiset(s) ensures Precedes(order, s[0], z) {
      var j :| 0 <= j < |s| && s[j] == z;
      if j == 0 { PrecedesTotal(order, z, z); }
    }
  }

  /** Inserts `x` into a sorted list, after the elements that may precede it. */
  function Insert(order: Order, x: Transaction, s: seq<Transaction>): (r: seq<Transaction>)
    requires Sorted(s, order)
    ensures Sorted(r, order)
    ensures multiset(r) == multiset(s) + multiset{x}
  {
    if s == [] then [x]
    else if Precedes(order, x, s[0]) then
      HeadPrecedesAll(order, s);
      forall z | z in multiset(s) ensures Precedes(order, x, z) {
        PrecedesTransitive(order, x, s[0], z);
      }
      SortedCons(order, x, s);
      [x] + s
    else
      PrecedesTotal(order, x, s[0]);
      assert s == [s[0]] + s[1..];
      var rest := Insert(order, x, s[1..]);
      HeadPrecedesAll(order, s);
      assert multiset(s) == multiset{s[0]} + multiset(s[1..]);
      SortedCons(order, s[0], rest);
      [s[0]] + rest
  }

  /** The rows in the order the query returns them: the same rows, sorted.
      The query leaves the order of rows that compare equal unspecified, and
      so does this contract. */
  function Sort(order: Order, s: seq<Transaction>): (r: seq<Transaction>)
    ensures Sorted(r, order)
    ensures multiset(r) == multiset(s)
  {
    if s == [] then []
    else
      assert s == [s[0]] + s[1..];
      Insert(order, s[0], Sort(order, s[1..]))
  }

  // ---------------------------------------------------------------------------
  // Totals

  /** `sum(t.amount for t in transactions)`. */
  function Total(s: seq<Transaction>): int {
    if s == [] then 0 else s[0].amount + Total(s[1..])
  }

  lemma {:induction false} TotalAppend(a: seq<Transaction>, b: seq<Transaction>)
    ensures Total(a + b) == Total(a) + Total(b)
  {
    if a != [] {
      assert (a + b)[1..] == a[1..] + b;
      TotalAppend(a[1..], b);
    } else {
      assert a + b == b;
    }
  }

  /** `sum` starts from 0 and adds the amounts from left to right: the total of
      a listing is the total of all but its last row plus that row's amount. */
  lemma {:induction false} TotalSumsLeftToRight(s: seq<Transaction>)
    ensures s == [] ==> Total(s) == 0
    ensures s != [] ==> Total(s) == Total(s[..|s| - 1]) + s[|s| - 1].amount
  {
    if s != [] {
      var init, last := s[..|s| - 1], s[|s| - 1];
      assert s == init + [last];
      TotalAppend(init, [last]);
      assert Total([last]) == last.amount + Total([last][1..]);
      assert [last][1..] == [];
    }
  }

  /** The total does not depend on the order in which the rows are listed. */
  lemma {:induction false} TotalPermutation(a: seq<Transaction>, b: seq<Transaction>)
    requires multiset(a) == multiset(b)
    ensures Total(a) == Total(b)
    decreases |a|
  {
    if a != [] {
      var x := a[0];
      assert x in multiset(b);
      var k :| 0 <= k < |b| && b[k] == x;
      var rest := b[..k] + b[k + 1..];
      assert b == b[..k] + [x] + b[k + 1..];
      assert a == [x] + a[1..];
      assert multiset(a) == multiset{x} + multiset(a[1..]);
      assert multiset(b) == multiset(b[..k]) + multiset{x} + multiset(b[k + 1..]);
      assert multiset(rest) == multiset(b[..k]) + multiset(b[k + 1..]);
      assert multiset(a[1..]) == multiset(a) - multiset{x};
      assert multiset(rest) == multiset(b) - multiset{x};
      TotalPermutation(a[1..], rest);
      TotalAppend(b[..k] + [x], b[k + 1..]);
      TotalAppend(b[..k], [x]);
      TotalAppend(b[..k], b[k + 1..]);
    }
  }

  /** The page's figures for the listed transactions: how much was spent and
      what is left of the allocation, negative when spending exceeds it. */
  function Summarize(budget: Budget, cycleStart: Date, listed: seq<Transaction>): (s: Summary)
    ensures s.transactions == listed && s.budget == budget && s.cycleStart == cycleStart
    ensures s.totalSpent == Total(listed)
    ensures s.remainingBalance + s.totalSpent == budget.salaryCredited
  {
    var totalSpent := Total(listed);
    Summary(budget, cycleStart, listed, totalSpent, budget.salaryCredited - totalSpent)
  }

  // ---------------------------------------------------------------------------
  // Budget lookup (`MonthlyBudget.query.filter...first()`)

  datatype BudgetQuery =
    | StartingOn(start: Date)             // `filter_by(month_start_date=start)`
    | StartingIn(year: int, month: int)   // `extract("year"/"month", month_start_date)`

  predicate Matches(b: Budget, user: int, q: BudgetQuery) {
    && b.userId == user
    && match q
       case StartingOn(d) => b.monthStart == d
       case StartingIn(y, m) => b.monthStart.year == y && b.monthStart.month == m
  }

  /** The first stored budget of `user` that matches `q`, if there is one. */
  function FindBudget(budgets: seq<Budget>, user: int, q: BudgetQuery): (r: Option<Budget>)
    ensures r.None? <==> forall b :: b in budgets ==> !Matches(b, user, q)
    ensures r.Some? ==> exists i :: 0 <= i < |budgets| && budgets[i] == r.value
                                    && Matches(r.value, user, q)
                                    && forall j :: 0 <= j < i ==> !Matches(budgets[j], user, q)
  {
    if budgets == [] then None
    else if Matches(budgets[0], user, q) then Some(budgets[0])
    else
      var r := FindBudget(budgets[1..], user, q);
      assert forall b :: b in budgets ==> b == budgets[0] || b in budgets[1..];
      if r.Some? then
        var i :| 0 <= i < |budgets[1..]| && budgets[1..][i] == r.value
                 && Matches(r.value, user, q)
                 && forall j :: 0 <= j < i ==> !Matches(budgets[1..][j], user, q);
        assert budgets[i + 1] == r.value;
        assert forall j :: 0 <= j < i + 1 ==> !Matches(budgets[j], user, q) by {
          forall j | 0 <= j < i + 1 ensures !Matches(budgets[j], user, q) {
            if j > 0 { assert budgets[j] == budgets[1..][j - 1]; }
          }
        }
        r
      else r
  }

  // ---------------------------------------------------------------------------
  // The two handlers

  /**
    The home page (`index`): the current cycle's budget and every transaction
    of the user dated on or after the cycle start, with no upper bound, most
    recent first.
  */
  function LiveView(user: int, anchor: int, today: Date, budgets: seq<Budget>, txs: seq<Transaction>): (r: Response)
    requires IsValid(today)
    ensures r.DateFailure? <==> CycleStart(anchor, today).Err?
    ensures r.DateFailure? ==> r.error == CycleStart(anchor, today).error
    ensures r.NoBudgetFound? <==>
              CycleStart(anchor, today).Ok?
              && forall b :: b in budgets ==> !Matches(b, user, StartingOn(CycleStart(anchor, today).value))
    ensures r.Page? ==>
              var cycleStart := CycleStart(anchor, today).value;
              && r.summary.cycleStart == cycleStart
              && r.summary.budget in budgets
              && Matches(r.summary.budget, user, StartingOn(cycleStart))
              && FindBudget(budgets, user, StartingOn(cycleStart)) == Some(r.summary.budget)
              && (forall t :: multiset(r.summary.transactions)[t]
                               == if InRange(t, user, cycleStart, None) then multiset(txs)[t] else 0)
              && Sorted(r.summary.transactions, DateTimeDescending)
              && r.summary.totalSpent == Total(Select(txs, user, cycleStart, None))
              && r.summary.remainingBalance == r.summary.budget.salaryCredited - r.summary.totalSpent
  {
    match CycleStart(anchor, today)
    case Err(e) => DateFailure(e)
    case Ok(cycleStart) =>
      match FindBudget(budgets, user, StartingOn(cycleStart))
      case None => NoBudgetFound
      case Some(budget) =>
        var selected := Select(txs, user, cycleStart, None);
        var listed := Sort(DateTimeDescending, selected);
        TotalPermutation(listed, selected);
        Page(Summarize(budget, cycleStart, listed))
  }

  /**
    The statement of one budget (`download_statement` from line 243 on): the
    user's transactions from the budget's start up to, and not including, the
    next cycle start, oldest first.
  */
  function StatementFor(user: int, anchor: int, budget: Budget, txs: seq<Transaction>): (r: Response)
    requires IsValid(budget.monthStart)
    ensures !r.NoBudgetFound?
    ensures r.DateFailure? <==> anchor < 1 || Ordinal(budget.monthStart) + 32 > MaxOrdinal
    ensures r.DateFailure? ==> r.error == NextCycleStart(anchor, budget.monthStart).error
    ensures r.Page? ==>
              var cycleStart := budget.monthStart;
              var nextCycleStart := NextCycleStart(anchor, cycleStart).value;
              && r.summary.cycleStart == cycleStart
              && r.summary.budget == budget
              && (forall t :: multiset(r.summary.transactions)[t]
                               == if InRange(t, user, cycleStart, Some(nextCycleStart)) then multiset(txs)[t] else 0)
              && Sorted(r.summary.transactions, DateAscending)
              && r.summary.totalSpent == Total(Select(txs, user, cycleStart, Some(nextCycleStart)))
              && r.summary.remainingBalance == budget.salaryCredited - r.summary.totalSpent
  {
    var cycleStart := budget.monthStart;
    match NextCycleStart(anchor, cycleStart)
    case Err(e) => DateFailure(e)
    case Ok(nextCycleStart) =>
      var selected := Select(txs, user, cycleStart, Some(nextCycleStart));
      var listed := Sort(DateAscending, selected);
      TotalPermutation(listed, selected);
      Page(Summarize(budget, cycleStart, listed))
  }

  /** A query argument Python treats as true: present, an integer, and not 0. */
  predicate Given(arg: Option<int>) {
    arg.Some? && arg.value != 0
  }

  /**
    `download_statement`: with a year and a month, the statement of the first
    budget of the user that starts in that month; otherwise that of the
    budget of the current cycle.
  */
  function DownloadStatement(user: int, anchor: int, today: Date, budgets: seq<Budget>,
                             txs: seq<Transaction>, year: Option<int>, month: Option<int>): (r: Response)
    requires IsValid(today)
    requires forall b :: b in budgets ==> IsValid(b.monthStart)
    ensures r.Page? ==> r.summary.budget in budgets && r.summary.budget.userId == user
    ensures r.Page? ==> r == StatementFor(user, anchor, r.summary.budget, txs)
    // with a year and a month: the first budget starting in that month
    ensures Given(year) && Given(month) ==>
              var q := StartingIn(year.value, month.value);
              && (r.NoBudgetFound? <==>
                    IsValid(Date(year.value, month.value, 1)) && forall b :: b in budgets ==> !Matches(b, user, q))
              && (r.Page? ==> FindBudget(budgets, user, q) == Some(r.summary.budget))
              && (FindBudget(budgets, user, q).Some? ==>
                    r == StatementFor(user, anchor, FindBudget(budgets, user, q).value, txs))
              && (FindBudget(budgets, user, q).None? && !IsValid(Date(year.value, month.value, 1)) ==>
                    r == DateFailure(if IsCInt(year.value) && IsCInt(month.value) then InvalidDate else OutOfRange))
    // otherwise: the budget of the cycle containing today
    ensures !(Given(year) && Given(month)) ==>
              && (CycleStart(anchor, today).Err? ==> r == DateFailure(CycleStart(anchor, today).error))
              && (r.NoBudgetFound? <==>
                    CycleStart(anchor, today).Ok?
                    && forall b :: b in budgets ==> !Matches(b, user, StartingOn(CycleStart(anchor, today).value)))
              && (r.Page? ==> r.summary.cycleStart == CycleStart(anchor, today).value)
              && (CycleStart(anchor, today).Ok?
                  && FindBudget(budgets, user, StartingOn(CycleStart(anchor, today).value)).Some? ==>
                    r == StatementFor(user, anchor,
                                      FindBudget(budgets, user, StartingOn(CycleStart(anchor, today).value)).value, txs))
  {
    if Given(year) && Given(month) then
      match FindBudget(budgets, user, StartingIn(year.value, month.value))
      // the flash message formats `datetime.date(year, month, 1)`, which
      // raises for a month that does not exist or an argument wider than a C int
      case None =>
        (match MakeDate(year.value, month.value, 1)
         case Ok(_) => NoBudgetFound
         case Err(e) => DateFailure(e))
      case Some(budget) => StatementFor(user, anchor, budget, txs)
    else
      match CycleStart(anchor, today)
      case Err(e) => DateFailure(e)
      case Ok(cycleStart) =>
        match FindBudget(budgets, user, StartingOn(cycleStart))
        case None => NoBudgetFound
        case Some(budget) => StatementFor(user, anchor, budget, txs)
  }

  // ---------------------------------------------------------------------------
  // What the statement and the home page hold

  /**
    For a budget that starts on a cycle start of the anchor, the statement
    lists exactly the user's transactions whose date the resolver maps to
    that cycle start.
  */
  lemma StatementHoldsItsCycle(user: int, anchor: int, budget: Budget, txs: seq<Transaction>, t: Transaction)
    requires IsCycleStart(anchor, budget.monthStart) && IsValid(t.date)
    requires StatementFor(user, anchor, budget, txs).Page?
    ensures t in StatementFor(user, anchor, budget, txs).summary.transactions
        <==> t in txs && t.userId == user && CycleStart(anchor, t.date) == Ok(budget.monthStart)
  {
    var listed := StatementFor(user, anchor, budget, txs).summary.transactions;
    assert t in listed <==> multiset(listed)[t] > 0;
    StatementWindowIsCycle(anchor, budget.monthStart, t.date);
  }

  /**
    A transaction dated exactly on the next cycle start is left out of the
    statement and listed in the statement of the budget beginning that day.
  */
  lemma BoundaryTransactionInNextStatement(user: int, anchor: int, budget: Budget, nextBudget: Budget,
                                           txs: seq<Transaction>, t: Transaction)
    requires IsValid(budget.monthStart)
    requires StatementFor(user, anchor, budget, txs).Page?
    requires nextBudget.monthStart == NextCycleStart(anchor, budget.monthStart).value
    requires StatementFor(user, anchor, nextBudget, txs).Page?
    requires t in txs && t.userId == user && t.date == nextBudget.monthStart
    ensures t !in StatementFor(user, anchor, budget, txs).summary.transactions
    ensures t in StatementFor(user, anchor, nextBudget, txs).summary.transactions
  {
    var end := NextCycleStart(anchor, budget.monthStart).value;
    assert !InRange(t, user, budget.monthStart, Some(end));
    var listed := StatementFor(user, anchor, budget, txs).summary.transactions;
    assert multiset(listed)[t] == 0;
    NextCycleStartIsNextMonth(anchor, nextBudget.monthStart);
    var nextEnd := NextCycleStart(anchor, nextBudget.monthStart).value;
    assert InRange(t, user, nextBudget.monthStart, Some(nextEnd));
    assert multiset(txs)[t] > 0;
    var nextListed := StatementFor(user, anchor, nextBudget, txs).summary.transactions;
    assert multiset(nextListed)[t] > 0;
  }

  /**
    The home page has no upper bound: it lists this cycle's statement and,
    in addition, every transaction of the user dated on or after the next
    cycle start.
  */
  lemma LiveViewIsStatementPlusLater(user: int, anchor: int, today: Date, budgets: seq<Budget>, txs: seq<Transaction>)
    requires IsValid(today)
    requires LiveView(user, anchor, today, budgets, txs).Page?
    requires StatementFor(user, anchor, LiveView(user, anchor, today, budgets, txs).summary.budget, txs).Page?
    ensures var live := LiveView(user, anchor, today, budgets, txs).summary;
            var statement := StatementFor(user, anchor, live.budget, txs).summary;
            var nextCycleStart := NextCycleStart(anchor, live.cycleStart).value;
            multiset(live.transactions)
              == multiset(statement.transactions) + multiset(Select(txs, user, nextCycleStart, None))
  {
    var live := LiveView(user, anchor, today, budgets, txs).summary;
    NextCycleStartIsNextMonth(anchor, live.cycleStart);
    SelectSplits(txs, user, live.cycleStart, NextCycleStart(anchor, live.cycleStart).value);
  }

  /** From `start` on is the window `[start, end)` plus everything from `end` on. */
  lemma SelectSplits(txs: seq<Transaction>, user: int, start: Date, end: Date)
    requires Before(start, end)
    ensures multiset(Select(txs, user, start, None))
         == multiset(Select(txs, user, start, Some(end))) + multiset(Select(txs, user, end, None))
  {
    var all := multiset(Select(txs, user, start, None));
    var window := multiset(Select(txs, user, start, Some(end)));
    var later := multiset(Select(txs, user, end, None));
    forall t ensures all[t] == (window + later)[t] {
      if Before(t.date, end) {
        assert !InRange(t, user, end, None);
      } else {
        assert !InRange(t, user, start, Some(end));
        assert InRange(t, user, start, None) == InRange(t, user, end, None);
      }
    }
  }
}
