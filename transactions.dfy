/** The `createTransaction` server action of actions/transaction.js: the
    authentication, rate-limit, user and account gates, then one database
    transaction that inserts the row and writes the account's new balance. Every
    error, whichever gate or statement throws it, reaches the caller prefixed
    with "Failed to create transaction: ". */
module Transactions {
  import opened Wrappers
  import opened Calendar
  import opened Ledger
  import opened Database
  import Dashboard

  const Unauthorized: string := "Unauthorized"
  const RequestBlocked: string := "Request Blocked"
  const UserNotFound: string := "User not found"
  const AccountNotFound: string := "Account not found"
  const FailurePrefix: string := "Failed to create transaction: "

  // ---------------------------------------------------------------------------
  // Decimal rendering of the rate limiter's numbers

  function DigitChar(d: nat): (c: char)
    requires d < 10
    ensures '0' <= c <= '9' && (c as int) - ('0' as int) == d
  {
    "0123456789"[d]
  }

  predicate IsDigits(s: string) {
    forall i :: 0 <= i < |s| ==> '0' <= s[i] <= '9'
  }

  /** A natural number as a template literal renders it: its decimal digits,
      without leading zeros. */
  function NatToString(n: nat): (r: string)
    ensures |r| >= 1 && IsDigits(r)
    ensures r[0] == '0' ==> n == 0
  {
    if n < 10 then [DigitChar(n)] else NatToString(n / 10) + [DigitChar(n % 10)]
  }

  /** The number a string of decimal digits denotes. */
  function DecimalValue(s: string): nat
    requires IsDigits(s)
  {
    if s == [] then 0 else DecimalValue(s[..|s| - 1]) * 10 + ((s[|s| - 1] as int) - ('0' as int))
  }

  /** Rendering loses nothing: the digits read back as the number. */
  lemma {:induction false} NatToStringRoundTrip(n: nat)
    ensures DecimalValue(NatToString(n)) == n
  {
    var r := NatToString(n);
    if n >= 10 {
      NatToStringRoundTrip(n / 10);
      assert r[..|r| - 1] == NatToString(n / 10);
    }
  }

  // ---------------------------------------------------------------------------
  // Gates

  /** The rate limiter's verdict on this request, an input to the model. */
  datatype RateDecision = Allowed | RateLimited(remaining: nat, reset: nat) | Blocked

  function RateLimitMessage(remaining: nat, reset: nat): string {
    "Rate limit exceeded. Try again in " + NatToString(reset) + " seconds. You have "
      + NatToString(remaining) + " requests left."
  }

  /** The form data passed to `createTransaction`; `amount` is in cents. */
  datatype TxInput = TxInput(
    txType: TxType,
    amount: int,
    description: Option<string>,
    date: DateTime,
    category: string,
    accountId: Id,
    isRecurring: bool,
    recurringInterval: Option<Interval>)

  /** `findUnique({where: {id, userId}})` on the accounts table. */
  function FindAccountOf(accounts: seq<Account>, id: Id, userId: Id): (r: Option<nat>)
    ensures r.Some? ==> r.value < |accounts| && accounts[r.value].id == id && accounts[r.value].userId == userId
    ensures r.None? <==> forall j :: 0 <= j < |accounts| ==> !(accounts[j].id == id && accounts[j].userId == userId)
  {
    FirstIndex(accounts, (a: Account) => a.id == id && a.userId == userId)
  }

  /** Who is creating the transaction and the position of the account it goes to. */
  datatype Admission = Admission(user: User, accountIndex: nat)

  /** The gates in the order the action checks them: signed in, not rate
      limited, not blocked, known to the ledger, owner of the account. */
  function Admit(users: seq<User>, accounts: seq<Account>, clerkUserId: Option<Id>,
                 decision: RateDecision, accountId: Id): (r: Result<Admission, string>)
    ensures !Present(clerkUserId) ==> r == Failure(Unauthorized)
    ensures Present(clerkUserId) && decision.RateLimited? ==>
      r == Failure(RateLimitMessage(decision.remaining, decision.reset))
    ensures Present(clerkUserId) && decision.Blocked? ==> r == Failure(RequestBlocked)
    ensures Present(clerkUserId) && decision.Allowed? && (forall u :: u in users ==> u.clerkUserId != clerkUserId.value) ==>
      r == Failure(UserNotFound)
    ensures r.Success? ==>
      && Present(clerkUserId) && decision.Allowed?
      && r.value.user in users && r.value.user.clerkUserId == clerkUserId.value
      && r.value.accountIndex < |accounts|
      && accounts[r.value.accountIndex].id == accountId
      && accounts[r.value.accountIndex].userId == r.value.user.id
  {
    if !Present(clerkUserId) then Failure(Unauthorized)
    else
      match decision
      case RateLimited(remaining, reset) => Failure(RateLimitMessage(remaining, reset))
      case Blocked => Failure(RequestBlocked)
      case Allowed =>
        match FindUserByClerkId(users, clerkUserId.value)
        case None => Failure(UserNotFound)
        case Some(user) =>
          match FindAccountOf(accounts, accountId, user.id)
          case None => Failure(AccountNotFound)
          case Some(k) => Success(Admission(user, k))
  }

  /** Once signed in, allowed and known, the caller is admitted exactly when
      they own an account with the requested key. */
  lemma AdmitOwnedAccount(users: seq<User>, accounts: seq<Account>, clerkUserId: Option<Id>, accountId: Id)
    requires Present(clerkUserId)
    requires FindUserByClerkId(users, clerkUserId.value).Some?
    ensures var user := FindUserByClerkId(users, clerkUserId.value).value;
      (Admit(users, accounts, clerkUserId, Allowed, accountId).Success? <==>
        exists j :: 0 <= j < |accounts| && accounts[j].id == accountId && accounts[j].userId == user.id)
  {
  }

  // ---------------------------------------------------------------------------
  // The created row

  /** Whether `data.recurringInterval` is truthy: present and not empty. */
  predicate HasInterval(interval: Option<Interval>) {
    interval.Some? && interval.value != Unrecognised("")
  }

  /** The row `transaction.create` inserts: the form data, the caller as owner,
      and a next occurrence only for a recurring transaction with an interval.
      An interval the calendar does not know makes the computation throw before
      anything is written. */
  function NewRow(input: TxInput, userId: Id, id: Id): (r: Result<Transaction, string>)
    requires Valid(input.date)
    ensures r.Failure? <==> input.isRecurring && HasInterval(input.recurringInterval) && input.recurringInterval.value.Unrecognised?
    ensures r.Failure? ==> r.error == InvalidInterval
    ensures r.Success? ==>
      var t := r.value;
      && t.id == id && t.userId == userId && t.txType == input.txType && t.amount == input.amount
      && t.description == input.description && t.date == input.date && t.category == input.category
      && t.accountId == input.accountId && t.isRecurring == input.isRecurring
      && t.recurringInterval == input.recurringInterval
      && t.lastProcessed.None? && t.status == Completed
      && (t.nextRecurringDate.Some? <==> input.isRecurring && HasInterval(input.recurringInterval))
      && (t.nextRecurringDate.Some? ==> Before(input.date, t.nextRecurringDate.value))
  {
    var next :=
      if input.isRecurring && HasInterval(input.recurringInterval)
      then match NextRecurringDate(input.date, input.recurringInterval)
        case Failure(e) => Failure(e)
        case Success(d) => Success(Some(d))
      else Success(None);
    match next
    case Failure(e) => Failure(e)
    case Success(nextDate) =>
      Success(Transaction(id, input.txType, input.amount, input.description, input.date, input.category,
                          userId, input.accountId, input.isRecurring, input.recurringInterval,
                          nextDate, None, DefaultStatus))
  }

  /** `serializeAmount`: the record with its decimal `amount` as a plain number. */
  function SerializeAmount(rec: Record): (r: Record)
    requires "amount" in rec && rec["amount"].Dec?
    ensures r.Keys == rec.Keys
    ensures r["amount"] == Num(rec["amount"].cents)
    ensures forall k :: k in rec && k != "amount" ==> r[k] == rec[k]
  {
    rec["amount" := Num(rec["amount"].cents)]
  }

  /** On a transaction row, which has no `balance`, `serializeAmount` does what
      the dashboard's `serializeTransaction` does. */
  lemma SerializeAmountAgrees(t: Transaction)
    ensures SerializeAmount(TxRecord(t)) == Dashboard.SerializeTransaction(TxRecord(t))
  {
    var rec := TxRecord(t);
    assert SerializeAmount(rec).Keys == Dashboard.SerializeTransaction(rec).Keys;
  }

  // ---------------------------------------------------------------------------
  // The action

  /** The two tables after the call, and the row it created or the error it
      throws. */
  datatype CreateResult = CreateResult(accounts: seq<Account>, transactions: seq<Transaction>, result: Result<Transaction, string>)

  /** What the caller receives: the created row with its amount serialised, or
      the error. */
  function Response(created: Result<Transaction, string>): (r: Result<Record, string>)
    ensures r.Success? <==> created.Success?
    ensures r.Failure? ==> r.error == created.error
    ensures r.Success? ==> "amount" in r.value && r.value["amount"] == Num(created.value.amount)
  {
    match created
    case Failure(e) => Failure(e)
    case Success(row) => Success(SerializeAmount(TxRecord(row)))
  }

  /** The committed effect of `createTransaction`. The new balance is read
      before the database transaction starts and written as an absolute value. */
  function CreateTransactionOutcome(users: seq<User>, accounts: seq<Account>, txs: seq<Transaction>,
                                    clerkUserId: Option<Id>, decision: RateDecision, input: TxInput): (r: CreateResult)
    requires Valid(input.date)
    ensures r.result.Failure? ==> r.accounts == accounts && r.transactions == txs
    ensures r.result.Failure? ==> FailurePrefix <= r.result.error
    ensures r.result.Success? ==> r.transactions == txs + [r.result.value]
  {
    match Admit(users, accounts, clerkUserId, decision, input.accountId)
    case Failure(e) => CreateResult(accounts, txs, Failure(FailurePrefix + e))
    case Success(admission) =>
      var account := accounts[admission.accountIndex];
      var newBalance := account.balance + BalanceChange(input.txType, input.amount);
      match NewRow(input, admission.user.id, FreshId(TransactionIds(txs)))
      case Failure(e) => CreateResult(accounts, txs, Failure(FailurePrefix + e))
      case Success(row) =>
        CreateResult(SetBalance(accounts, account.id, newBalance), txs + [row], Success(row))
  }

  /** `createTransaction` on the store. */
  method CreateTransaction(s: Store, clerkUserId: Option<Id>, decision: RateDecision, input: TxInput)
    returns (result: Result<Record, string>)
    requires s.Valid() && Valid(input.date)
    modifies s`accounts, s`transactions
    ensures s.Valid()
    ensures var r := CreateTransactionOutcome(old(s.users), old(s.accounts), old(s.transactions), clerkUserId, decision, input);
      s.accounts == r.accounts && s.transactions == r.transactions && result == Response(r.result)
  {
    var users, accounts, txs := s.users, s.accounts, s.transactions;
    var admission := Admit(users, accounts, clerkUserId, decision, input.accountId);
    if admission.Failure? {
      return Failure(FailurePrefix + admission.error);
    }
    var account := accounts[admission.value.accountIndex];
    var newBalance := account.balance + BalanceChange(input.txType, input.amount);
    var row := NewRow(input, admission.value.user.id, FreshId(TransactionIds(txs)));
    if row.Failure? {
      return Failure(FailurePrefix + row.error);
    }
    assert CreateTransactionOutcome(users, accounts, txs, clerkUserId, decision, input)
        == CreateResult(SetBalance(accounts, account.id, newBalance), txs + [row.value], row);
    s.InsertTransaction(row.value);
    s.SetBalance(account.id, newBalance);
    result := Success(SerializeAmount(TxRecord(row.value)));
  }

  // ---------------------------------------------------------------------------
  // Properties

  /** Each gate that refuses the call makes it throw its own message behind
      the common prefix, before anything is written. */
  lemma CreateTransactionGates(users: seq<User>, accounts: seq<Account>, txs: seq<Transaction>,
                               clerkUserId: Option<Id>, decision: RateDecision, input: TxInput)
    requires Valid(input.date)
    ensures var r := CreateTransactionOutcome(users, accounts, txs, clerkUserId, decision, input);
      var refused := (e: string) => CreateResult(accounts, txs, Failure(FailurePrefix + e));
      && (!Present(clerkUserId) ==> r == refused(Unauthorized))
      && (Present(clerkUserId) && decision.RateLimited? ==>
            r == refused(RateLimitMessage(decision.remaining, decision.reset)))
      && (Present(clerkUserId) && decision.Blocked? ==> r == refused(RequestBlocked))
      && (Present(clerkUserId) && decision.Allowed? && FindUserByClerkId(users, clerkUserId.value).None? ==>
            r == refused(UserNotFound))
      && (Present(clerkUserId) && decision.Allowed? && FindUserByClerkId(users, clerkUserId.value).Some? &&
          (forall j :: 0 <= j < |accounts| ==>
             !(accounts[j].id == input.accountId && accounts[j].userId == FindUserByClerkId(users, clerkUserId.value).value.id)) ==>
            r == refused(AccountNotFound))
  {
  }

  /** A successful call appends exactly the row built from the form for the
      caller, under a key not used before, and returns it serialised. */
  lemma CreatedTransaction(users: seq<User>, accounts: seq<Account>, txs: seq<Transaction>,
                           clerkUserId: Option<Id>, decision: RateDecision, input: TxInput)
    requires Valid(input.date)
    requires CreateTransactionOutcome(users, accounts, txs, clerkUserId, decision, input).result.Success?
    ensures var r := CreateTransactionOutcome(users, accounts, txs, clerkUserId, decision, input);
      var admission := Admit(users, accounts, clerkUserId, decision, input.accountId);
      var row := r.result.value;
      && admission.Success?
      && r.transactions == txs + [row]
      && row.id !in TransactionIds(txs)
      && NewRow(input, admission.value.user.id, row.id) == Success(row)
      && Response(r.result) == Success(Dashboard.SerializeTransaction(TxRecord(row)))
  {
    var row := CreateTransactionOutcome(users, accounts, txs, clerkUserId, decision, input).result.value;
    SerializeAmountAgrees(row);
  }

  /** A successful call moves the balance of the chosen account, and only that
      one, by the signed amount: an expense lowers it, an income raises it. */
  lemma CreateTransactionBalance(users: seq<User>, accounts: seq<Account>, txs: seq<Transaction>,
                                 clerkUserId: Option<Id>, decision: RateDecision, input: TxInput)
    requires Valid(input.date) && UniqueIds(AccountIds(accounts))
    requires CreateTransactionOutcome(users, accounts, txs, clerkUserId, decision, input).result.Success?
    ensures var r := CreateTransactionOutcome(users, accounts, txs, clerkUserId, decision, input);
      && |r.accounts| == |accounts|
      && (forall j :: 0 <= j < |accounts| && accounts[j].id != input.accountId ==> r.accounts[j] == accounts[j])
      && (forall j :: 0 <= j < |accounts| && accounts[j].id == input.accountId ==>
            r.accounts[j] == accounts[j].(balance := accounts[j].balance + BalanceChange(input.txType, input.amount)))
  {
    var k := Admit(users, accounts, clerkUserId, decision, input.accountId).value.accountIndex;
    var delta := BalanceChange(input.txType, input.amount);
    var r := CreateTransactionOutcome(users, accounts, txs, clerkUserId, decision, input);
    var after := SetBalance(accounts, accounts[k].id, accounts[k].balance + delta);
    CreateTransactionAccounts(users, accounts, txs, clerkUserId, decision, input);
    SetBalanceAt(accounts, k, accounts[k].balance + delta);
    forall j | 0 <= j < |accounts| && accounts[j].id == input.accountId
      ensures r.accounts[j] == accounts[j].(balance := accounts[j].balance + delta)
    {
      assert j == k;
    }
  }

  /** Across all accounts, a successful call moves the total by the signed amount. */
  lemma CreateTransactionTotal(users: seq<User>, accounts: seq<Account>, txs: seq<Transaction>,
                               clerkUserId: Option<Id>, decision: RateDecision, input: TxInput)
    requires Valid(input.date) && UniqueIds(AccountIds(accounts))
    requires CreateTransactionOutcome(users, accounts, txs, clerkUserId, decision, input).result.Success?
    ensures TotalBalance(CreateTransactionOutcome(users, accounts, txs, clerkUserId, decision, input).accounts)
         == TotalBalance(accounts) + BalanceChange(input.txType, input.amount)
  {
    var k := Admit(users, accounts, clerkUserId, decision, input.accountId).value.accountIndex;
    CreateTransactionAccounts(users, accounts, txs, clerkUserId, decision, input);
    SetBalanceTotal(accounts, k, accounts[k].balance + BalanceChange(input.txType, input.amount));
  }

  /** The accounts table after a successful call: one balance overwritten. */
  lemma CreateTransactionAccounts(users: seq<User>, accounts: seq<Account>, txs: seq<Transaction>,
                                  clerkUserId: Option<Id>, decision: RateDecision, input: TxInput)
    requires Valid(input.date)
    requires CreateTransactionOutcome(users, accounts, txs, clerkUserId, decision, input).result.Success?
    ensures var k := Admit(users, accounts, clerkUserId, decision, input.accountId).value.accountIndex;
      && k < |accounts| && accounts[k].id == input.accountId
      && CreateTransactionOutcome(users, accounts, txs, clerkUserId, decision, input).accounts
           == SetBalance(accounts, accounts[k].id, accounts[k].balance + BalanceChange(input.txType, input.amount))
  {
  }

  /** Under unique keys, overwriting the balance of the row at `k` changes that
      row's balance and nothing else. */
  lemma SetBalanceAt(accounts: seq<Account>, k: nat, balance: int)
    requires k < |accounts| && UniqueIds(AccountIds(accounts))
    ensures var after := SetBalance(accounts, accounts[k].id, balance);
      && |after| == |accounts|
      && after[k] == accounts[k].(balance := balance)
      && (forall j :: 0 <= j < |accounts| && accounts[j].id != accounts[k].id ==> after[j] == accounts[j])
      && (forall j :: 0 <= j < |accounts| && accounts[j].id == accounts[k].id ==> j == k)
  {
    var ids := AccountIds(accounts);
    forall j | 0 <= j < |accounts| && accounts[j].id == accounts[k].id
      ensures j == k
    {
      assert ids[j] == ids[k];
    }
  }

  /** A recurring transaction whose interval the calendar does not know is
      refused after every gate has passed, and nothing is written. */
  lemma InvalidIntervalPersistsNothing(users: seq<User>, accounts: seq<Account>, txs: seq<Transaction>,
                                       clerkUserId: Option<Id>, input: TxInput, name: string)
    requires Valid(input.date)
    requires Admit(users, accounts, clerkUserId, Allowed, input.accountId).Success?
    requires input.isRecurring && input.recurringInterval == Some(Unrecognised(name)) && name != ""
    ensures var r := CreateTransactionOutcome(users, accounts, txs, clerkUserId, Allowed, input);
      r == CreateResult(accounts, txs, Failure(FailurePrefix + InvalidInterval))
  {
  }

  /** A non-recurring transaction, or one without an interval, is stored
      without a next occurrence; a recurring one with a known interval is stored
      with the date its first repetition falls on. */
  lemma CreatedSchedule(users: seq<User>, accounts: seq<Account>, txs: seq<Transaction>,
                        clerkUserId: Option<Id>, decision: RateDecision, input: TxInput)
    requires Valid(input.date)
    requires CreateTransactionOutcome(users, accounts, txs, clerkUserId, decision, input).result.Success?
    ensures var row := CreateTransactionOutcome(users, accounts, txs, clerkUserId, decision, input).result.value;
      && (!input.isRecurring || !HasInterval(input.recurringInterval) ==> row.nextRecurringDate.None?)
      && (input.isRecurring && HasInterval(input.recurringInterval) ==>
            Success(row.nextRecurringDate.value) == NextRecurringDate(input.date, input.recurringInterval))
  {
  }
}
