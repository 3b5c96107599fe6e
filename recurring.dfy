/** The recurring-transaction scheduler of lib/inngest/function.js: a daily
    trigger that selects the recurring transactions due for processing and emits
    one event per transaction, and a per-event processor that, in one database
    transaction, books an occurrence of the transaction, moves its account's
    balance and advances the original's schedule. */
module Recurring {
  import opened Wrappers
  import opened Calendar
  import opened Ledger
  import opened Database

  // ---------------------------------------------------------------------------
  // Trigger

  /** The payload of a `transaction.recurring.process` event. Either field may
      be missing from a malformed event. */
  datatype Event = Event(transactionId: Option<Id>, userId: Option<Id>)

  /** The trigger's database filter: recurring, completed, and never processed
      or scheduled at or before `now`. A missing `nextRecurringDate` does not
      satisfy the `lte` condition. */
  predicate SelectedByTrigger(t: Transaction, now: DateTime) {
    && t.isRecurring
    && t.status == Completed
    && (t.lastProcessed.None? || (t.nextRecurringDate.Some? && AtOrBefore(t.nextRecurringDate.value, now)))
  }

  function EventFor(t: Transaction): Event {
    Event(Some(t.id), Some(t.userId))
  }

  /** The events of the trigger, in the order the query returns the rows. */
  function TriggerEvents(txs: seq<Transaction>, now: DateTime): (r: seq<Event>)
    ensures |r| <= |txs|
    ensures forall e :: e in r ==> exists t :: t in txs && SelectedByTrigger(t, now) && e == EventFor(t)
    ensures forall t :: t in txs && SelectedByTrigger(t, now) ==> EventFor(t) in r
  {
    if txs == [] then []
    else
      var rest := TriggerEvents(txs[1..], now);
      assert forall t :: t in txs[1..] ==> t in txs;
      assert forall t :: t in txs ==> t == txs[0] || t in txs[1..];
      (if SelectedByTrigger(txs[0], now) then [EventFor(txs[0])] else []) + rest
  }

  /** What the trigger sends (nothing when no row is selected) and the
      `triggered` count it returns. */
  datatype TriggerResult = TriggerResult(sent: seq<Event>, triggered: nat)

  function TriggerRecurringTransactions(txs: seq<Transaction>, now: DateTime): (r: TriggerResult)
    ensures r.triggered == |r.sent|
    ensures r.sent == [] <==> forall t :: t in txs ==> !SelectedByTrigger(t, now)
  {
    var events := TriggerEvents(txs, now);
    assert events != [] ==> events[0] in events;
    TriggerResult(events, |events|)
  }

  /** The number of events that name transaction `id`. */
  function EventsFor(events: seq<Event>, id: Id): nat {
    if events == [] then 0
    else (if events[0].transactionId == Some(id) then 1 else 0) + EventsFor(events[1..], id)
  }

  lemma {:induction false} EventsForAppend(a: seq<Event>, b: seq<Event>, id: Id)
    ensures EventsFor(a + b, id) == EventsFor(a, id) + EventsFor(b, id)
  {
    if a == [] {
      assert a + b == b;
    } else {
      assert (a + b)[0] == a[0];
      assert (a + b)[1..] == a[1..] + b;
      EventsForAppend(a[1..], b, id);
    }
  }

  lemma {:induction false} EventsForNone(events: seq<Event>, id: Id)
    requires forall e :: e in events ==> e.transactionId != Some(id)
    ensures EventsFor(events, id) == 0
  {
    if events != [] {
      assert events[0] in events;
      assert forall e :: e in events[1..] ==> e in events;
      EventsForNone(events[1..], id);
    }
  }

  /** Over a table keyed by `id`, the trigger emits exactly one event for each
      selected transaction, carrying its user, and none for any other row. */
  lemma {:induction false} OneEventPerSelectedTransaction(txs: seq<Transaction>, now: DateTime, i: nat)
    requires i < |txs| && UniqueIds(TransactionIds(txs))
    ensures EventsFor(TriggerEvents(txs, now), txs[i].id) == if SelectedByTrigger(txs[i], now) then 1 else 0
    ensures SelectedByTrigger(txs[i], now) ==> EventFor(txs[i]) in TriggerEvents(txs, now)
  {
    var ids := TransactionIds(txs);
    var head: seq<Event> := if SelectedByTrigger(txs[0], now) then [EventFor(txs[0])] else [];
    var rest := TriggerEvents(txs[1..], now);
    assert TriggerEvents(txs, now) == head + rest;
    EventsForAppend(head, rest, txs[i].id);
    assert ids[1..] == TransactionIds(txs[1..]);
    UniqueIdsTail(ids);
    if i == 0 {
      forall e | e in rest ensures e.transactionId != Some(txs[0].id) {
        var t :| t in txs[1..] && SelectedByTrigger(t, now) && e == EventFor(t);
        assert t.id in ids[1..];
      }
      EventsForNone(rest, txs[0].id);
    } else {
      assert txs[0].id != txs[i].id by { assert ids[0] != ids[i]; }
      assert txs[1..][i - 1] == txs[i];
      OneEventPerSelectedTransaction(txs[1..], now, i - 1);
    }
  }

  // ---------------------------------------------------------------------------
  // Processor

  /** `isTransactionDue`: never processed, or scheduled at or before `now`. A
      missing `nextRecurringDate` reads as `new Date(null)`, the epoch, and so
      as due. */
  predicate IsTransactionDue(t: Transaction, now: DateTime) {
    match t.lastProcessed
    case None => true
    case Some(_) =>
      match t.nextRecurringDate
      case None => true
      case Some(next) => AtOrBefore(next, now)
  }

  /** Every row the trigger selects passes the processor's re-check. */
  lemma SelectedIsDue(t: Transaction, now: DateTime)
    requires SelectedByTrigger(t, now)
    ensures IsTransactionDue(t, now)
  {
  }

  const MissingEventData: string := "Missing required event data"

  /** What the database client throws when `update` finds no row. */
  const RecordNotFound: string := "Record to update not found."

  const RecurringSuffix: string := "  (Recurring)"

  /** How one event ends: the `{error}` value for a malformed event, a silent
      return when there is nothing due, a committed unit, or an error thrown
      from inside the database transaction (and so rolled back). */
  datatype ProcessOutcome = Malformed(error: string) | Skipped | Processed | Failed(message: string)

  /** The string a template literal makes of a nullable description. */
  function DescriptionText(o: Option<string>): string {
    match o
    case None => "null"
    case Some(s) => s
  }

  /** The one-off transaction booked for a due recurring transaction `t`. */
  function Occurrence(t: Transaction, now: DateTime, id: Id): Transaction {
    Transaction(
      id, t.txType, t.amount, Some(DescriptionText(t.description) + RecurringSuffix), now,
      t.category, t.userId, t.accountId, false, None, None, None, DefaultStatus)
  }

  /** `findUnique({where: {id, userId}})`: the row with that key, provided it
      belongs to that user. */
  function FindOwned(txs: seq<Transaction>, id: Id, userId: Id): (r: Option<nat>)
    ensures r.Some? ==> r.value < |txs| && txs[r.value].id == id && txs[r.value].userId == userId
    ensures r.Some? ==> forall j :: 0 <= j < r.value ==> !(txs[j].id == id && txs[j].userId == userId)
    ensures r.None? <==> forall j :: 0 <= j < |txs| ==> !(txs[j].id == id && txs[j].userId == userId)
  {
    FirstIndex(txs, (t: Transaction) => t.id == id && t.userId == userId)
  }

  datatype ProcessResult = ProcessResult(accounts: seq<Account>, transactions: seq<Transaction>, outcome: ProcessOutcome)

  /** The committed effect of processing one event at `now`. */
  function ProcessRecurring(accounts: seq<Account>, txs: seq<Transaction>, ev: Event, now: DateTime): (r: ProcessResult)
    requires Valid(now)
    ensures r.outcome != Processed ==> r.accounts == accounts && r.transactions == txs
    ensures r.outcome.Malformed? <==> !Present(ev.transactionId) || !Present(ev.userId)
    ensures r.outcome.Malformed? ==> r.outcome.error == MissingEventData
  {
    if !Present(ev.transactionId) || !Present(ev.userId) then
      ProcessResult(accounts, txs, Malformed(MissingEventData))
    else
      match FindOwned(txs, ev.transactionId.value, ev.userId.value)
      case None => ProcessResult(accounts, txs, Skipped)
      case Some(i) =>
        var t := txs[i];
        if !IsTransactionDue(t, now) then ProcessResult(accounts, txs, Skipped)
        else if t.accountId !in AccountIds(accounts) then ProcessResult(accounts, txs, Failed(RecordNotFound))
        else
          match NextRecurringDate(now, t.recurringInterval)
          case Failure(e) => ProcessResult(accounts, txs, Failed(e))
          case Success(next) =>
            var occurrence := Occurrence(t, now, FreshId(TransactionIds(txs)));
            ProcessResult(
              IncrementBalance(accounts, t.accountId, BalanceChange(t.txType, t.amount)),
              SetSchedule(txs + [occurrence], t.id, now, next),
              Processed)
  }

  /** `processRecurringTransactions` on the store: the guard, the user-scoped
      lookup and the due re-check, then the three writes of one `$transaction`,
      undone together when one of them throws. */
  method ProcessRecurringTransactions(s: Store, ev: Event, now: DateTime) returns (outcome: ProcessOutcome)
    requires s.Valid() && Valid(now)
    modifies s`accounts, s`transactions
    ensures s.Valid()
    ensures var r := ProcessRecurring(old(s.accounts), old(s.transactions), ev, now);
      s.accounts == r.accounts && s.transactions == r.transactions && outcome == r.outcome
  {
    if !Present(ev.transactionId) || !Present(ev.userId) {
      return Malformed(MissingEventData);
    }
    var found := FindOwned(s.transactions, ev.transactionId.value, ev.userId.value);
    if found.None? {
      return Skipped;
    }
    var t := s.transactions[found.value];
    if !IsTransactionDue(t, now) {
      return Skipped;
    }
    var savedAccounts, savedTransactions := s.accounts, s.transactions;
    var occurrence := Occurrence(t, now, FreshId(TransactionIds(s.transactions)));
    s.InsertTransaction(occurrence);
    var updated := s.IncrementBalance(t.accountId, BalanceChange(t.txType, t.amount));
    if !updated {
      s.Restore(savedAccounts, savedTransactions);
      return Failed(RecordNotFound);
    }
    var next := NextRecurringDate(now, t.recurringInterval);
    if next.Failure? {
      s.Restore(savedAccounts, savedTransactions);
      return Failed(next.error);
    }
    s.SetSchedule(t.id, now, next.value);
    outcome := Processed;
  }

  // ---------------------------------------------------------------------------
  // Properties of one processing step

  /** The outcome of an event with both fields present: nothing happens unless
      the user's transaction exists and is due; a due transaction is processed
      exactly when its account exists and its interval is recognised, and
      otherwise the unit fails with the error thrown inside it. */
  lemma ProcessOutcomeCases(accounts: seq<Account>, txs: seq<Transaction>, ev: Event, now: DateTime)
    requires Valid(now) && Present(ev.transactionId) && Present(ev.userId)
    ensures var r := ProcessRecurring(accounts, txs, ev, now);
      var found := FindOwned(txs, ev.transactionId.value, ev.userId.value);
      && (r.outcome == Skipped <==> found.None? || !IsTransactionDue(txs[found.value], now))
      && (found.Some? && IsTransactionDue(txs[found.value], now) ==>
            var t := txs[found.value];
            && (t.accountId !in AccountIds(accounts) ==> r.outcome == Failed(RecordNotFound))
            && (t.accountId in AccountIds(accounts) && NextRecurringDate(now, t.recurringInterval).Failure? ==>
                  r.outcome == Failed(InvalidInterval))
            && (r.outcome == Processed <==>
                  t.accountId in AccountIds(accounts) && NextRecurringDate(now, t.recurringInterval).Success?))
  {
  }

  /** A processed event books exactly one new row, the occurrence: same type,
      amount, category, user and account as the original, not recurring, dated
      `now`, its description marked as generated, under a fresh key. Every
      earlier row is unchanged except the original, whose `lastProcessed`
      becomes `now` and whose `nextRecurringDate` becomes the next date from
      `now`, which is strictly later than `now`. */
  lemma {:induction false} ProcessedTransactions(accounts: seq<Account>, txs: seq<Transaction>, ev: Event, now: DateTime)
    requires Valid(now)
    requires ProcessRecurring(accounts, txs, ev, now).outcome == Processed
    ensures Present(ev.transactionId) && Present(ev.userId)
    ensures var r := ProcessRecurring(accounts, txs, ev, now);
      var i := FindOwned(txs, ev.transactionId.value, ev.userId.value).value;
      var t := txs[i];
      var next := NextRecurringDate(now, t.recurringInterval);
      && IsTransactionDue(t, now)
      && next.Success? && Before(now, next.value)
      && |r.transactions| == |txs| + 1
      && (forall j :: 0 <= j < |txs| && txs[j].id != t.id ==> r.transactions[j] == txs[j])
      && r.transactions[i] == t.(lastProcessed := Some(now), nextRecurringDate := Some(next.value))
      && var o := r.transactions[|txs|];
         && o.id !in TransactionIds(txs) && o.id != ""
         && o.txType == t.txType && o.amount == t.amount && o.category == t.category
         && o.userId == t.userId && o.accountId == t.accountId
         && !o.isRecurring && o.date == now
         && o.description == Some(DescriptionText(t.description) + "  (Recurring)")
  {
    var i := FindOwned(txs, ev.transactionId.value, ev.userId.value).value;
    var t := txs[i];
    var newId := FreshId(TransactionIds(txs));
    assert newId != t.id by { assert TransactionIds(txs)[i] == t.id; }
  }

  /** A processed event moves the account's balance by minus the amount for an
      expense and plus the amount otherwise; no other account changes, so the
      money across all accounts moves by exactly that much. */
  lemma ProcessedBalance(accounts: seq<Account>, txs: seq<Transaction>, ev: Event, now: DateTime)
    requires Valid(now) && UniqueIds(AccountIds(accounts))
    requires ProcessRecurring(accounts, txs, ev, now).outcome == Processed
    ensures Present(ev.transactionId) && Present(ev.userId)
    ensures var r := ProcessRecurring(accounts, txs, ev, now);
      var t := txs[FindOwned(txs, ev.transactionId.value, ev.userId.value).value];
      var delta := if t.txType == Expense then -t.amount else t.amount;
      && |r.accounts| == |accounts|
      && (forall j :: 0 <= j < |accounts| ==>
            r.accounts[j] == if accounts[j].id == t.accountId
                             then accounts[j].(balance := accounts[j].balance + delta)
                             else accounts[j])
      && TotalBalance(r.accounts) == TotalBalance(accounts) + delta
  {
    var t := txs[FindOwned(txs, ev.transactionId.value, ev.userId.value).value];
    IncrementBalanceTotal(accounts, t.accountId, BalanceChange(t.txType, t.amount));
  }

  /** A second delivery of an event that has just been processed finds the
      transaction no longer due and changes nothing. */
  lemma {:induction false} ProcessingTwiceIsProcessingOnce(accounts: seq<Account>, txs: seq<Transaction>, ev: Event, now: DateTime)
    requires Valid(now)
    requires ProcessRecurring(accounts, txs, ev, now).outcome == Processed
    ensures var r := ProcessRecurring(accounts, txs, ev, now);
      ProcessRecurring(r.accounts, r.transactions, ev, now) == ProcessResult(r.accounts, r.transactions, Skipped)
  {
    var r := ProcessRecurring(accounts, txs, ev, now);
    ProcessedTransactions(accounts, txs, ev, now);
    var id, uid := ev.transactionId.value, ev.userId.value;
    var i := FindOwned(txs, id, uid).value;
    var next := NextRecurringDate(now, txs[i].recurringInterval).value;
    FindOwnedAfterUpdate(txs, r.transactions, i, id, uid);
    assert !AtOrBefore(next, now);
    assert !IsTransactionDue(r.transactions[i], now);
  }

  /** A lookup that found row `i` finds it again after an update that keeps
      the key and owner of every row up to `i`. */
  lemma FindOwnedAfterUpdate(txs: seq<Transaction>, txs': seq<Transaction>, i: nat, id: Id, userId: Id)
    requires FindOwned(txs, id, userId) == Some(i) && i < |txs'|
    requires forall j :: 0 <= j <= i ==> txs'[j].id == txs[j].id && txs'[j].userId == txs[j].userId
    ensures FindOwned(txs', id, userId) == Some(i)
  {
    forall j | 0 <= j < i
      ensures !(txs'[j].id == id && txs'[j].userId == userId)
    {
      assert !(txs[j].id == id && txs[j].userId == userId);
    }
  }
}
