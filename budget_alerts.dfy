/** The budget-alert checker of lib/inngest/function.js: for every budget whose
    user has a default account, add up that account's expenses of the current
    month and, when they reach 80% of the budget and no alert has gone out this
    calendar month, send an alert and record when it was sent. */
module BudgetAlerts {
  import opened Wrappers
  import opened Calendar
  import opened Ledger
  import opened Database

  /** The alert e-mail, as the data handed to the template. */
  datatype Alert = Alert(budgetId: Id, userId: Id, accountName: string, budgetAmount: int, totalExpenses: int)

  /** `isNewMonth`: the two instants fall in different calendar months. */
  predicate IsNewMonth(lastAlert: DateTime, current: DateTime) {
    lastAlert.month != current.month || lastAlert.year != current.year
  }

  /** Two instants are in the same calendar month exactly when they share the
      month's first midnight, so `isNewMonth` is false for any two instants of
      one month and true across any month boundary. */
  lemma IsNewMonthIffDifferentMonth(a: DateTime, b: DateTime)
    requires Valid(a) && Valid(b)
    ensures !IsNewMonth(a, b) <==> StartOfMonth(a) == StartOfMonth(b)
  {
  }

  /** The first default account of the user, as `user.accounts[0]` of the
      query filtered on `isDefault`. */
  function DefaultAccount(accounts: seq<Account>, userId: Id): (r: Option<Account>)
    ensures r.Some? ==> r.value in accounts && r.value.userId == userId && r.value.isDefault
    ensures r.None? <==> forall a :: a in accounts ==> !(a.userId == userId && a.isDefault)
  {
    match FirstIndex(accounts, (a: Account) => a.userId == userId && a.isDefault)
    case None => None
    case Some(i) => Some(accounts[i])
  }

  /** The aggregate's date range: from the first midnight of the month of `now`
      to the midnight that STARTS the month's last day, both included. */
  predicate InMonthRange(d: DateTime, now: DateTime)
    requires Valid(now)
  {
    AtOrBefore(StartOfMonth(now), d) && AtOrBefore(d, EndOfMonth(now))
  }

  /** The window is the calendar month of `now` minus the last day after its
      first midnight: an expense at noon on 31 January is outside January's
      window. */
  lemma MonthWindow(d: DateTime, now: DateTime)
    requires Valid(d) && Valid(now)
    ensures InMonthRange(d, now) <==>
      && d.year == now.year && d.month == now.month
      && (d.day < DaysInMonth(now.year, now.month) || d.seconds == 0)
  {
  }

  predicate CountsAsExpense(t: Transaction, userId: Id, accountId: Id, now: DateTime)
    requires Valid(now)
  {
    t.userId == userId && t.accountId == accountId && t.txType == Expense && InMonthRange(t.date, now)
  }

  /** The `_sum` of the month's expense amounts of one account; no row gives 0. */
  function MonthExpenses(txs: seq<Transaction>, userId: Id, accountId: Id, now: DateTime): int
    requires Valid(now)
  {
    if txs == [] then 0
    else (if CountsAsExpense(txs[0], userId, accountId, now) then txs[0].amount else 0)
         + MonthExpenses(txs[1..], userId, accountId, now)
  }

  /** The sum depends on `now` only through its calendar month. */
  lemma {:induction false} MonthExpensesByMonth(txs: seq<Transaction>, userId: Id, accountId: Id, now1: DateTime, now2: DateTime)
    requires Valid(now1) && Valid(now2) && !IsNewMonth(now1, now2)
    ensures MonthExpenses(txs, userId, accountId, now1) == MonthExpenses(txs, userId, accountId, now2)
  {
    if txs != [] {
      MonthExpensesByMonth(txs[1..], userId, accountId, now1, now2);
    }
  }

  /** `(totalExpenses / budgetAmount) * 100 >= 80` evaluated exactly. For a
      positive budget this is `100 * total >= 80 * budget`; dividing by a negative
      budget flips the comparison; a zero budget gives Infinity (an alert) for
      positive spending and NaN or -Infinity (no alert) otherwise. */
  predicate ThresholdReached(total: int, budget: int) {
    if budget > 0 then 100 * total >= 80 * budget
    else if budget < 0 then 100 * total <= 80 * budget
    else total > 0
  }

  /** The source's percentage, for a non-zero budget. */
  function PercentageUsed(total: int, budget: int): real
    requires budget != 0
  {
    (total as real / budget as real) * 100.0
  }

  /** The integer threshold agrees with the source's percentage test. */
  lemma ThresholdIsEightyPercent(total: int, budget: int)
    requires budget != 0
    ensures ThresholdReached(total, budget) <==> PercentageUsed(total, budget) >= 80.0
  {
    var t, b := total as real, budget as real;
    var q := t / b;
    assert q * b == t;
    if budget > 0 {
      assert q * 100.0 >= 80.0 <==> q * 100.0 * b >= 80.0 * b;
    } else {
      assert q * 100.0 >= 80.0 <==> q * 100.0 * b <= 80.0 * b;
    }
  }

  /** The alert condition of one budget, given its month's expenses. */
  predicate AlertDue(b: Budget, total: int, now: DateTime) {
    ThresholdReached(total, b.amount) && (b.lastAlertSent.None? || IsNewMonth(b.lastAlertSent.value, now))
  }

  /** The alert one budget produces at `now`, if any. */
  function CheckBudget(b: Budget, accounts: seq<Account>, txs: seq<Transaction>, now: DateTime): (r: Option<Alert>)
    requires Valid(now)
    ensures DefaultAccount(accounts, b.userId).None? ==> r.None?
    ensures r.Some? ==> b.lastAlertSent.None? || IsNewMonth(b.lastAlertSent.value, now)
    ensures r.Some? ==> r.value.budgetId == b.id && r.value.userId == b.userId
                        && ThresholdReached(r.value.totalExpenses, b.amount)
  {
    match DefaultAccount(accounts, b.userId)
    case None => None
    case Some(a) =>
      var total := MonthExpenses(txs, b.userId, a.id, now);
      if AlertDue(b, total, now) then Some(Alert(b.id, b.userId, a.name, b.amount, total)) else None
  }

  /** A budget after its check: stamped with `now` when it alerted. */
  function AfterCheck(b: Budget, alert: Option<Alert>, now: DateTime): Budget {
    if alert.Some? then b.(lastAlertSent := Some(now)) else b
  }

  datatype BudgetRun = BudgetRun(budgets: seq<Budget>, alerts: seq<Alert>)

  /** One run of the checker over the budgets in query order: the budgets table
      afterwards and the alerts sent, in order. */
  function CheckBudgets(budgets: seq<Budget>, accounts: seq<Account>, txs: seq<Transaction>, now: DateTime): (r: BudgetRun)
    requires Valid(now)
    ensures |r.budgets| == |budgets| && |r.alerts| <= |budgets|
    ensures forall j :: 0 <= j < |budgets| ==>
      r.budgets[j] == AfterCheck(budgets[j], CheckBudget(budgets[j], accounts, txs, now), now)
    decreases |budgets|
  {
    if budgets == [] then BudgetRun([], [])
    else
      var n := |budgets| - 1;
      var prefix := CheckBudgets(budgets[..n], accounts, txs, now);
      var alert := CheckBudget(budgets[n], accounts, txs, now);
      BudgetRun(prefix.budgets + [AfterCheck(budgets[n], alert, now)],
                prefix.alerts + if alert.Some? then [alert.value] else [])
  }

  /** Every alert of a run is the alert of one of its budgets. */
  lemma {:induction false} AlertsComeFromBudgets(budgets: seq<Budget>, accounts: seq<Account>, txs: seq<Transaction>, now: DateTime)
    requires Valid(now)
    ensures forall al :: al in CheckBudgets(budgets, accounts, txs, now).alerts ==>
      exists j :: 0 <= j < |budgets| && CheckBudget(budgets[j], accounts, txs, now) == Some(al)
  {
    if budgets != [] {
      var n := |budgets| - 1;
      var prefix := CheckBudgets(budgets[..n], accounts, txs, now);
      var alert := CheckBudget(budgets[n], accounts, txs, now);
      var r := CheckBudgets(budgets, accounts, txs, now);
      assert r.alerts == prefix.alerts + if alert.Some? then [alert.value] else [];
      AlertsComeFromBudgets(budgets[..n], accounts, txs, now);
      forall al | al in r.alerts
        ensures exists j :: 0 <= j < |budgets| && CheckBudget(budgets[j], accounts, txs, now) == Some(al)
      {
        if al in prefix.alerts {
          var j :| 0 <= j < n && CheckBudget(budgets[..n][j], accounts, txs, now) == Some(al);
          assert budgets[..n][j] == budgets[j];
        } else {
          assert CheckBudget(budgets[n], accounts, txs, now) == Some(al);
        }
      }
    }
  }

  /** The alerts the budgets call for, in budget order, read front to back: the
      reference the checker's outbox is compared with. */
  function AlertsOf(budgets: seq<Budget>, accounts: seq<Account>, txs: seq<Transaction>, now: DateTime): (r: seq<Alert>)
    requires Valid(now)
    ensures |r| <= |budgets|
  {
    if budgets == [] then []
    else
      var alert := CheckBudget(budgets[0], accounts, txs, now);
      (if alert.Some? then [alert.value] else []) + AlertsOf(budgets[1..], accounts, txs, now)
  }

  lemma {:induction false} AlertsOfAppend(budgets: seq<Budget>, b: Budget, accounts: seq<Account>, txs: seq<Transaction>, now: DateTime)
    requires Valid(now)
    ensures var alert := CheckBudget(b, accounts, txs, now);
      AlertsOf(budgets + [b], accounts, txs, now)
        == AlertsOf(budgets, accounts, txs, now) + if alert.Some? then [alert.value] else []
  {
    if budgets != [] {
      assert (budgets + [b])[1..] == budgets[1..] + [b];
      AlertsOfAppend(budgets[1..], b, accounts, txs, now);
    }
  }

  /** An alert is among the reference alerts exactly when some budget calls for it. */
  lemma {:induction false} AlertsOfMembers(budgets: seq<Budget>, accounts: seq<Account>, txs: seq<Transaction>, now: DateTime)
    requires Valid(now)
    ensures forall al :: al in AlertsOf(budgets, accounts, txs, now) <==>
      exists j :: 0 <= j < |budgets| && CheckBudget(budgets[j], accounts, txs, now) == Some(al)
  {
    if budgets != [] {
      var tail := budgets[1..];
      AlertsOfMembers(tail, accounts, txs, now);
      forall al
        ensures al in AlertsOf(budgets, accounts, txs, now) <==>
          exists j :: 0 <= j < |budgets| && CheckBudget(budgets[j], accounts, txs, now) == Some(al)
      {
        if exists j :: 0 <= j < |budgets| && CheckBudget(budgets[j], accounts, txs, now) == Some(al) {
          var j :| 0 <= j < |budgets| && CheckBudget(budgets[j], accounts, txs, now) == Some(al);
          if j > 0 {
            assert tail[j - 1] == budgets[j];
          }
        }
        if al in AlertsOf(tail, accounts, txs, now) {
          var j :| 0 <= j < |tail| && CheckBudget(tail[j], accounts, txs, now) == Some(al);
          assert budgets[j + 1] == tail[j];
        }
      }
    }
  }

  /** No two alerts name the same budget. */
  predicate UniqueAlerts(alerts: seq<Alert>) {
    forall i, k :: 0 <= i < k < |alerts| ==> alerts[i].budgetId != alerts[k].budgetId
  }

  /** Under unique budget keys no two reference alerts name the same budget. */
  lemma {:induction false} AlertsOfDistinct(budgets: seq<Budget>, accounts: seq<Account>, txs: seq<Transaction>, now: DateTime)
    requires Valid(now) && UniqueIds(BudgetIds(budgets))
    ensures UniqueAlerts(AlertsOf(budgets, accounts, txs, now))
  {
    if budgets != [] {
      var tail := budgets[1..];
      assert forall i :: 0 <= i < |tail| ==> BudgetIds(tail)[i] == BudgetIds(budgets)[i + 1];
      AlertsOfDistinct(tail, accounts, txs, now);
      AlertsOfMembers(tail, accounts, txs, now);
      var rest := AlertsOf(tail, accounts, txs, now);
      forall k | 0 <= k < |rest|
        ensures rest[k].budgetId != budgets[0].id
      {
        assert rest[k] in rest;
        var j :| 0 <= j < |tail| && CheckBudget(tail[j], accounts, txs, now) == Some(rest[k]);
        assert BudgetIds(budgets)[0] != BudgetIds(budgets)[j + 1];
      }
      var alert := CheckBudget(budgets[0], accounts, txs, now);
      if alert.Some? {
        var r := AlertsOf(budgets, accounts, txs, now);
        assert r == [alert.value] + rest;
        forall i, k | 0 <= i < k < |r|
          ensures r[i].budgetId != r[k].budgetId
        {
          assert r[k] == rest[k - 1];
          if i == 0 {
            assert r[0].budgetId == budgets[0].id != rest[k - 1].budgetId;
          } else {
            assert r[i] == rest[i - 1];
            assert rest[i - 1].budgetId != rest[k - 1].budgetId;
          }
        }
      } else {
        assert AlertsOf(budgets, accounts, txs, now) == rest;
      }
    }
  }

  /** The outbox of a run is exactly the reference alerts: every budget that
      calls for an alert has it sent, in budget order, and nothing else is sent. */
  lemma {:induction false} OutboxIsAlertsOf(budgets: seq<Budget>, accounts: seq<Account>, txs: seq<Transaction>, now: DateTime)
    requires Valid(now)
    ensures CheckBudgets(budgets, accounts, txs, now).alerts == AlertsOf(budgets, accounts, txs, now)
    decreases |budgets|
  {
    if budgets != [] {
      var n := |budgets| - 1;
      OutboxIsAlertsOf(budgets[..n], accounts, txs, now);
      AlertsOfAppend(budgets[..n], budgets[n], accounts, txs, now);
      assert budgets[..n] + [budgets[n]] == budgets;
    }
  }

  /** Every alerting budget's alert is in the outbox, and with unique budget
      keys the outbox names each budget at most once: a budget is named by an
      alert of the run exactly when it alerts (and so is stamped). */
  lemma EveryDueAlertIsSent(budgets: seq<Budget>, accounts: seq<Account>, txs: seq<Transaction>, now: DateTime)
    requires Valid(now) && UniqueIds(BudgetIds(budgets))
    ensures var r := CheckBudgets(budgets, accounts, txs, now);
      && (forall j :: 0 <= j < |budgets| && CheckBudget(budgets[j], accounts, txs, now).Some? ==>
            CheckBudget(budgets[j], accounts, txs, now).value in r.alerts)
      && (forall j :: 0 <= j < |budgets| ==>
            (CheckBudget(budgets[j], accounts, txs, now).Some? <==> exists al :: al in r.alerts && al.budgetId == budgets[j].id))
      && UniqueAlerts(r.alerts)
  {
    var r := CheckBudgets(budgets, accounts, txs, now);
    OutboxIsAlertsOf(budgets, accounts, txs, now);
    AlertsOfMembers(budgets, accounts, txs, now);
    AlertsOfDistinct(budgets, accounts, txs, now);
    forall j | 0 <= j < |budgets| && (exists al :: al in r.alerts && al.budgetId == budgets[j].id)
      ensures CheckBudget(budgets[j], accounts, txs, now).Some?
    {
      var al :| al in r.alerts && al.budgetId == budgets[j].id;
      var k :| 0 <= k < |budgets| && CheckBudget(budgets[k], accounts, txs, now) == Some(al);
      assert BudgetIds(budgets)[k] == BudgetIds(budgets)[j];
    }
  }

  /** A run in which no budget alerts sends nothing. */
  lemma {:induction false} QuietRunSendsNothing(budgets: seq<Budget>, accounts: seq<Account>, txs: seq<Transaction>, now: DateTime)
    requires Valid(now)
    requires forall j :: 0 <= j < |budgets| ==> CheckBudget(budgets[j], accounts, txs, now).None?
    ensures CheckBudgets(budgets, accounts, txs, now).alerts == []
  {
    if budgets != [] {
      var n := |budgets| - 1;
      assert forall j :: 0 <= j < n ==> budgets[..n][j] == budgets[j];
      QuietRunSendsNothing(budgets[..n], accounts, txs, now);
    }
  }

  /** `checkBudgetAlert` on the store. The budgets are read once; for each one
      with a default account the month's expenses are summed, and when the alert
      is due it is sent and `lastAlertSent` is set to `now`. The send's result is
      not read, so the stamp is written whether or not the e-mail went out. */
  method CheckBudgetAlert(s: Store, now: DateTime) returns (outbox: seq<Alert>)
    requires s.Valid() && Valid(now)
    modifies s`budgets
    ensures s.Valid()
    ensures var r := CheckBudgets(old(s.budgets), s.accounts, s.transactions, now);
      s.budgets == r.budgets && outbox == r.alerts
  {
    var fetched, accounts, txs := s.budgets, s.accounts, s.transactions;
    outbox := [];
    var i := 0;
    while i < |fetched|
      invariant 0 <= i <= |fetched|
      invariant s.Valid() && s.accounts == accounts && s.transactions == txs
      invariant s.budgets == CheckBudgets(fetched[..i], accounts, txs, now).budgets + fetched[i..]
      invariant outbox == CheckBudgets(fetched[..i], accounts, txs, now).alerts
    {
      var b := fetched[i];
      ghost var done := CheckBudgets(fetched[..i], accounts, txs, now).budgets;
      CheckBudgetsStep(fetched, i, accounts, txs, now);
      var account := DefaultAccount(s.accounts, b.userId);
      if account.Some? {
        var total := MonthExpenses(s.transactions, b.userId, account.value.id, now);
        if AlertDue(b, total, now) {
          var alert := Alert(b.id, b.userId, account.value.name, b.amount, total);
          assert CheckBudget(b, accounts, txs, now) == Some(alert);
          outbox := outbox + [alert];
          ReplaceNext(done, fetched, i, b.(lastAlertSent := Some(now)));
          UpdateBudgetAt(s.budgets, i, now);
          s.SetLastAlertSent(b.id, now);
        } else {
          assert CheckBudget(b, accounts, txs, now) == None;
          ReplaceNext(done, fetched, i, b);
        }
      } else {
        assert CheckBudget(b, accounts, txs, now) == None;
        ReplaceNext(done, fetched, i, b);
      }
      i := i + 1;
    }
    assert fetched[..i] == fetched;
  }

  /** One more budget checked extends the run by that budget's row and alert. */
  lemma CheckBudgetsStep(budgets: seq<Budget>, i: nat, accounts: seq<Account>, txs: seq<Transaction>, now: DateTime)
    requires Valid(now) && i < |budgets|
    ensures var before := CheckBudgets(budgets[..i], accounts, txs, now);
      var alert := CheckBudget(budgets[i], accounts, txs, now);
      CheckBudgets(budgets[..i + 1], accounts, txs, now)
        == BudgetRun(before.budgets + [AfterCheck(budgets[i], alert, now)],
                     before.alerts + if alert.Some? then [alert.value] else [])
  {
    assert budgets[..i + 1][..i] == budgets[..i];
  }

  lemma ReplaceNext(done: seq<Budget>, rest: seq<Budget>, i: nat, x: Budget)
    requires |done| == i < |rest|
    ensures (done + rest[i..])[i := x] == done + [x] + rest[i + 1..]
    ensures (done + rest[i..])[i] == rest[i]
  {
  }

  // ---------------------------------------------------------------------------
  // Properties of the checker

  /** A budget whose user has no default account is skipped: no alert names it
      and its row is unchanged. */
  lemma SkippedWithoutDefaultAccount(budgets: seq<Budget>, accounts: seq<Account>, txs: seq<Transaction>, now: DateTime, j: nat)
    requires Valid(now) && j < |budgets|
    requires forall a :: a in accounts ==> !(a.userId == budgets[j].userId && a.isDefault)
    ensures CheckBudget(budgets[j], accounts, txs, now).None?
    ensures CheckBudgets(budgets, accounts, txs, now).budgets[j] == budgets[j]
  {
  }

  /** A budget alerts exactly when its user has a default account, the month's
      expenses on it reach the threshold, and no alert was recorded earlier in
      the same calendar month; an alerting budget is stamped with `now`. */
  lemma {:induction false} AlertCondition(b: Budget, accounts: seq<Account>, txs: seq<Transaction>, now: DateTime)
    requires Valid(now)
    ensures CheckBudget(b, accounts, txs, now).Some? <==>
      exists a :: a in accounts && a.userId == b.userId && a.isDefault
        && DefaultAccount(accounts, b.userId) == Some(a)
        && ThresholdReached(MonthExpenses(txs, b.userId, a.id, now), b.amount)
        && (b.lastAlertSent.None? || IsNewMonth(b.lastAlertSent.value, now))
  {
    match DefaultAccount(accounts, b.userId)
    case None =>
    case Some(a) =>
      assert a in accounts;
  }

  /** A budget that alerted at `now1` does not alert again in the same calendar
      month, whatever the accounts and transactions are by then. */
  lemma OncePerMonth(b: Budget, accounts1: seq<Account>, txs1: seq<Transaction>, now1: DateTime,
                     accounts2: seq<Account>, txs2: seq<Transaction>, now2: DateTime)
    requires Valid(now1) && Valid(now2) && !IsNewMonth(now1, now2)
    requires CheckBudget(b, accounts1, txs1, now1).Some?
    ensures CheckBudget(AfterCheck(b, CheckBudget(b, accounts1, txs1, now1), now1), accounts2, txs2, now2).None?
  {
  }

  /** Two positions of a table with unique keys that hold the same key are one. */
  lemma SameBudget(budgets: seq<Budget>, j: nat, k: nat)
    requires UniqueIds(BudgetIds(budgets)) && j < |budgets| && k < |budgets|
    requires budgets[j].id == budgets[k].id
    ensures j == k
  {
    assert BudgetIds(budgets)[j] == BudgetIds(budgets)[k];
  }

  /** The alert the second run sends for position `k` names a different budget
      from the one the first run sent for position `j`. */
  lemma NotRealertedAt(budgets: seq<Budget>, accounts1: seq<Account>, txs1: seq<Transaction>, now1: DateTime,
                       accounts2: seq<Account>, txs2: seq<Transaction>, now2: DateTime, j: nat, k: nat)
    requires Valid(now1) && Valid(now2) && !IsNewMonth(now1, now2) && UniqueIds(BudgetIds(budgets))
    requires j < |budgets| && k < |budgets|
    requires CheckBudget(budgets[j], accounts1, txs1, now1).Some?
    requires CheckBudget(AfterCheck(budgets[k], CheckBudget(budgets[k], accounts1, txs1, now1), now1), accounts2, txs2, now2).Some?
    ensures CheckBudget(budgets[j], accounts1, txs1, now1).value.budgetId
      != CheckBudget(AfterCheck(budgets[k], CheckBudget(budgets[k], accounts1, txs1, now1), now1), accounts2, txs2, now2).value.budgetId
  {
    if budgets[j].id == budgets[k].id {
      SameBudget(budgets, j, k);
      OncePerMonth(budgets[j], accounts1, txs1, now1, accounts2, txs2, now2);
    }
  }

  /** Over any tables, a later run in the same calendar month sends no alert
      for a budget that the first run alerted for. */
  lemma NoSecondAlertInTheMonth(budgets: seq<Budget>, accounts1: seq<Account>, txs1: seq<Transaction>, now1: DateTime,
                                accounts2: seq<Account>, txs2: seq<Transaction>, now2: DateTime)
    requires Valid(now1) && Valid(now2) && !IsNewMonth(now1, now2) && UniqueIds(BudgetIds(budgets))
    ensures var first := CheckBudgets(budgets, accounts1, txs1, now1);
      var second := CheckBudgets(first.budgets, accounts2, txs2, now2);
      forall al1, al2 :: al1 in first.alerts && al2 in second.alerts ==> al1.budgetId != al2.budgetId
  {
    var first := CheckBudgets(budgets, accounts1, txs1, now1);
    var second := CheckBudgets(first.budgets, accounts2, txs2, now2);
    AlertsComeFromBudgets(budgets, accounts1, txs1, now1);
    AlertsComeFromBudgets(first.budgets, accounts2, txs2, now2);
    forall al1, al2 | al1 in first.alerts && al2 in second.alerts
      ensures al1.budgetId != al2.budgetId
    {
      var j :| 0 <= j < |budgets| && CheckBudget(budgets[j], accounts1, txs1, now1) == Some(al1);
      var k :| 0 <= k < |first.budgets| && CheckBudget(first.budgets[k], accounts2, txs2, now2) == Some(al2);
      assert first.budgets[k] == AfterCheck(budgets[k], CheckBudget(budgets[k], accounts1, txs1, now1), now1);
      NotRealertedAt(budgets, accounts1, txs1, now1, accounts2, txs2, now2, j, k);
    }
  }

  /** No budget alerts twice in one calendar month: a second run in the month
      of the first, over the same accounts and transactions, sends nothing and
      writes nothing. */
  lemma AtMostOneAlertPerMonth(budgets: seq<Budget>, accounts: seq<Account>, txs: seq<Transaction>, now1: DateTime, now2: DateTime)
    requires Valid(now1) && Valid(now2) && !IsNewMonth(now1, now2)
    ensures var first := CheckBudgets(budgets, accounts, txs, now1);
      var second := CheckBudgets(first.budgets, accounts, txs, now2);
      second.alerts == [] && second.budgets == first.budgets
  {
    var first := CheckBudgets(budgets, accounts, txs, now1);
    forall j | 0 <= j < |budgets|
      ensures CheckBudget(first.budgets[j], accounts, txs, now2).None?
    {
      var b := budgets[j];
      var alert := CheckBudget(b, accounts, txs, now1);
      match DefaultAccount(accounts, b.userId)
      case None =>
      case Some(a) =>
        MonthExpensesByMonth(txs, b.userId, a.id, now1, now2);
    }
    QuietRunSendsNothing(first.budgets, accounts, txs, now2);
  }
}
