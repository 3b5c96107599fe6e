/** The rows of the finance ledger (users, accounts, transactions, budgets), the
    recurrence-date calculator shared by the scheduler and by transaction
    creation, and the plain records the server actions return to the client.
    Money is held as an exact integer number of cents. */
module Ledger {
  import opened Wrappers
  import opened Calendar

  /** Database identifiers are strings; the empty string counts as missing. */
  type Id = string

  /** JavaScript truthiness of an optional identifier: present and non-empty. */
  predicate Present(o: Option<Id>) {
    o.Some? && o.value != ""
  }

  datatype TxType = Income | Expense

  /** A recurrence interval as stored; any other spelling is kept so that the
      calculator can reject it. */
  datatype Interval = Daily | Weekly | Monthly | Yearly | Unrecognised(name: string)

  datatype Status = Completed | OtherStatus(name: string)

  datatype Transaction = Transaction(
    id: Id,
    txType: TxType,
    amount: int,
    description: Option<string>,
    date: DateTime,
    category: string,
    userId: Id,
    accountId: Id,
    isRecurring: bool,
    recurringInterval: Option<Interval>,
    nextRecurringDate: Option<DateTime>,
    lastProcessed: Option<DateTime>,
    status: Status)

  datatype Account = Account(
    id: Id,
    userId: Id,
    name: string,
    accountType: string,
    balance: int,
    isDefault: bool,
    createdAt: DateTime)

  datatype Budget = Budget(id: Id, userId: Id, amount: int, lastAlertSent: Option<DateTime>)

  /** `clerkUserId` is the identity the authentication service hands out; `id`
      is the ledger's own key, used by every other table. */
  datatype User = User(id: Id, clerkUserId: Id, email: string, name: string)

  const InvalidInterval: string := "Invalid interval"

  /** The status a new row gets when its creator does not give one. */
  const DefaultStatus: Status := Completed

  // ---------------------------------------------------------------------------
  // Recurrence

  /** `calculateNextRecurringDate`: one day, seven days, one calendar month (the
      day kept, rolling over when the month is short) or one year after `d`;
      a missing or unrecognised interval throws "Invalid interval". */
  function NextRecurringDate(d: DateTime, interval: Option<Interval>): (r: Result<DateTime, string>)
    requires Valid(d)
    ensures r.Success? <==> interval.Some? && !interval.value.Unrecognised?
    ensures r.Success? ==> Valid(r.value) && Before(d, r.value) && r.value.seconds == d.seconds
    ensures r.Failure? ==> r.error == InvalidInterval
  {
    match interval
    case Some(Daily) => AddDaysIsLater(d, 1); Success(AddDays(d, 1))
    case Some(Weekly) => AddDaysIsLater(d, 7); Success(AddDays(d, 7))
    case Some(Monthly) => AddMonthIsLater(d); Success(AddMonth(d))
    case Some(Yearly) => AddYearIsLater(d); Success(AddYear(d))
    case _ => Failure(InvalidInterval)
  }

  /** The signed effect of a transaction on its account's balance. */
  function BalanceChange(t: TxType, amount: int): int {
    if t == Expense then -amount else amount
  }

  // ---------------------------------------------------------------------------
  // Lookup and identifiers

  /** The position of the first element satisfying `p`, as `findFirst`,
      `findUnique` and `findMany(...)[0]` return it. */
  function FirstIndex<T>(s: seq<T>, p: T -> bool): (r: Option<nat>)
    ensures r.Some? ==> r.value < |s| && p(s[r.value])
    ensures r.Some? ==> forall j :: 0 <= j < r.value ==> !p(s[j])
    ensures r.None? <==> forall j :: 0 <= j < |s| ==> !p(s[j])
  {
    if s == [] then None
    else if p(s[0]) then Some(0)
    else
      match FirstIndex(s[1..], p)
      case None => None
      case Some(i) => Some(i + 1)
  }

  function TransactionIds(txs: seq<Transaction>): (r: seq<Id>)
    ensures |r| == |txs| && forall i :: 0 <= i < |txs| ==> r[i] == txs[i].id
  {
    seq(|txs|, i requires 0 <= i < |txs| => txs[i].id)
  }

  function AccountIds(accounts: seq<Account>): (r: seq<Id>)
    ensures |r| == |accounts| && forall i :: 0 <= i < |accounts| ==> r[i] == accounts[i].id
  {
    seq(|accounts|, i requires 0 <= i < |accounts| => accounts[i].id)
  }

  function BudgetIds(budgets: seq<Budget>): (r: seq<Id>)
    ensures |r| == |budgets| && forall i :: 0 <= i < |budgets| ==> r[i] == budgets[i].id
  {
    seq(|budgets|, i requires 0 <= i < |budgets| => budgets[i].id)
  }

  /** A table's primary key: no identifier occurs twice. */
  predicate UniqueIds(ids: seq<Id>) {
    forall i, j :: 0 <= i < j < |ids| ==> ids[i] != ids[j]
  }

  /** The length of the longest identifier in use. */
  function LongestId(used: seq<Id>): (n: nat)
    ensures forall i :: 0 <= i < |used| ==> |used[i]| <= n
  {
    if used == [] then 0
    else
      var rest := LongestId(used[1..]);
      assert forall i :: 1 <= i < |used| ==> used[i] == used[1..][i - 1];
      if |used[0]| > rest then |used[0]| else rest
  }

  /** A non-empty identifier not yet in use, standing for the key the database
      generates for an inserted row. */
  function FreshId(used: seq<Id>): (r: Id)
    ensures r != "" && r !in used
  {
    seq(LongestId(used) + 1, _ => 'n')
  }

  function FindUserByClerkId(users: seq<User>, clerkUserId: Id): (r: Option<User>)
    ensures r.Some? ==> r.value in users && r.value.clerkUserId == clerkUserId
    ensures r.None? ==> forall u :: u in users ==> u.clerkUserId != clerkUserId
  {
    match FirstIndex(users, (u: User) => u.clerkUserId == clerkUserId)
    case None => None
    case Some(i) => Some(users[i])
  }

  // ---------------------------------------------------------------------------
  // Updates by key, as the database applies them

  /** `account.update({where: {id}, data: {balance: {increment: delta}}})` */
  function IncrementBalance(accounts: seq<Account>, id: Id, delta: int): seq<Account> {
    seq(|accounts|, i requires 0 <= i < |accounts| =>
      if accounts[i].id == id then accounts[i].(balance := accounts[i].balance + delta) else accounts[i])
  }

  /** `account.update({where: {id}, data: {balance}})` */
  function SetBalance(accounts: seq<Account>, id: Id, balance: int): seq<Account> {
    seq(|accounts|, i requires 0 <= i < |accounts| =>
      if accounts[i].id == id then accounts[i].(balance := balance) else accounts[i])
  }

  /** `transaction.update({where: {id}, data: {lastProcessed, nextRecurringDate}})` */
  function SetSchedule(txs: seq<Transaction>, id: Id, processed: DateTime, next: DateTime): seq<Transaction> {
    seq(|txs|, i requires 0 <= i < |txs| =>
      if txs[i].id == id then txs[i].(lastProcessed := Some(processed), nextRecurringDate := Some(next))
      else txs[i])
  }

  /** `account.updateMany({where: {userId, isDefault: true}, data: {isDefault: false}})` */
  function ClearDefaults(accounts: seq<Account>, userId: Id): seq<Account> {
    seq(|accounts|, i requires 0 <= i < |accounts| =>
      if accounts[i].userId == userId && accounts[i].isDefault then accounts[i].(isDefault := false)
      else accounts[i])
  }

  /** `budget.update({where: {id}, data: {lastAlertSent}})` */
  function SetLastAlertSent(budgets: seq<Budget>, id: Id, sent: DateTime): seq<Budget> {
    seq(|budgets|, i requires 0 <= i < |budgets| =>
      if budgets[i].id == id then budgets[i].(lastAlertSent := Some(sent)) else budgets[i])
  }

  /** Under a primary key, updating the row with key `id` changes one position. */
  lemma UpdateBudgetAt(budgets: seq<Budget>, i: nat, sent: DateTime)
    requires i < |budgets| && UniqueIds(BudgetIds(budgets))
    ensures SetLastAlertSent(budgets, budgets[i].id, sent)
         == budgets[i := budgets[i].(lastAlertSent := Some(sent))]
  {
    var ids := BudgetIds(budgets);
    forall j | 0 <= j < |budgets| && j != i
      ensures budgets[j].id != budgets[i].id
    {
      if j < i { assert ids[j] != ids[i]; } else { assert ids[i] != ids[j]; }
    }
  }

  /** The money held across all accounts. */
  function TotalBalance(accounts: seq<Account>): int {
    if accounts == [] then 0 else accounts[0].balance + TotalBalance(accounts[1..])
  }

  lemma UniqueIdsTail(ids: seq<Id>)
    requires ids != [] && UniqueIds(ids)
    ensures UniqueIds(ids[1..]) && ids[0] !in ids[1..]
  {
    forall k | 0 <= k < |ids| - 1
      ensures ids[1..][k] != ids[0]
    {
      assert ids[0] != ids[k + 1];
    }
  }

  /** Incrementing the row with key `id` moves the total by `delta` when that
      row exists, and leaves it alone otherwise. */
  lemma {:induction false} IncrementBalanceTotal(accounts: seq<Account>, id: Id, delta: int)
    requires UniqueIds(AccountIds(accounts))
    ensures TotalBalance(IncrementBalance(accounts, id, delta))
         == TotalBalance(accounts) + (if id in AccountIds(accounts) then delta else 0)
  {
    if accounts != [] {
      var ids := AccountIds(accounts);
      assert IncrementBalance(accounts, id, delta)[1..] == IncrementBalance(accounts[1..], id, delta);
      assert ids[1..] == AccountIds(accounts[1..]);
      UniqueIdsTail(ids);
      IncrementBalanceTotal(accounts[1..], id, delta);
      assert id in ids <==> id == accounts[0].id || id in AccountIds(accounts[1..]);
    }
  }

  /** Overwriting the balance of the row with key `id` moves the total by the
      difference between the new and the old balance. */
  lemma {:induction false} SetBalanceTotal(accounts: seq<Account>, k: nat, balance: int)
    requires k < |accounts| && UniqueIds(AccountIds(accounts))
    ensures TotalBalance(SetBalance(accounts, accounts[k].id, balance))
         == TotalBalance(accounts) - accounts[k].balance + balance
  {
    var id := accounts[k].id;
    var ids := AccountIds(accounts);
    assert SetBalance(accounts, id, balance)[1..] == SetBalance(accounts[1..], id, balance);
    assert ids[1..] == AccountIds(accounts[1..]);
    UniqueIdsTail(ids);
    if k == 0 {
      SetBalanceAbsent(accounts[1..], id, balance);
    } else {
      assert accounts[0].id != id by { assert ids[0] != ids[k]; }
      SetBalanceTotal(accounts[1..], k - 1, balance);
    }
  }

  lemma {:induction false} SetBalanceAbsent(accounts: seq<Account>, id: Id, balance: int)
    requires id !in AccountIds(accounts)
    ensures SetBalance(accounts, id, balance) == accounts
  {
    var ids := AccountIds(accounts);
    forall i | 0 <= i < |accounts| ensures accounts[i].id != id {
      assert ids[i] == accounts[i].id;
    }
  }

  // ---------------------------------------------------------------------------
  // Records handed back to the client

  /** A field value of a row as the client receives it: a database decimal
      (`Dec`) or a plain JavaScript number (`Num`), both in cents, or another
      scalar. */
  datatype Value = Str(s: string) | Dec(cents: int) | Num(n: int) | Flag(b: bool) | Date(d: DateTime) | Null

  type Record = map<string, Value>

  function TxTypeName(t: TxType): string {
    if t == Expense then "EXPENSE" else "INCOME"
  }

  function IntervalName(i: Interval): string {
    match i
    case Daily => "DAILY"
    case Weekly => "WEEKLY"
    case Monthly => "MONTHLY"
    case Yearly => "YEARLY"
    case Unrecognised(name) => name
  }

  function StatusName(s: Status): string {
    match s
    case Completed => "COMPLETED"
    case OtherStatus(name) => name
  }

  function OptionalText(o: Option<string>): Value {
    match o
    case None => Null
    case Some(s) => Str(s)
  }

  function OptionalDate(o: Option<DateTime>): Value {
    match o
    case None => Null
    case Some(d) => Date(d)
  }

  function OptionalInterval(o: Option<Interval>): Value {
    match o
    case None => Null
    case Some(i) => Str(IntervalName(i))
  }

  /** A transaction row as the database client returns it. */
  function TxRecord(t: Transaction): (r: Record)
    ensures "amount" in r && r["amount"] == Dec(t.amount) && "balance" !in r
  {
    map[
      "id" := Str(t.id),
      "type" := Str(TxTypeName(t.txType)),
      "amount" := Dec(t.amount),
      "description" := OptionalText(t.description),
      "date" := Date(t.date),
      "category" := Str(t.category),
      "userId" := Str(t.userId),
      "accountId" := Str(t.accountId),
      "isRecurring" := Flag(t.isRecurring),
      "recurringInterval" := OptionalInterval(t.recurringInterval),
      "nextRecurringDate" := OptionalDate(t.nextRecurringDate),
      "lastProcessed" := OptionalDate(t.lastProcessed),
      "status" := Str(StatusName(t.status))
    ]
  }

  /** An account row as the database client returns it. */
  function AccountRecord(a: Account): (r: Record)
    ensures "balance" in r && r["balance"] == Dec(a.balance) && "amount" !in r
  {
    map[
      "id" := Str(a.id),
      "userId" := Str(a.userId),
      "name" := Str(a.name),
      "type" := Str(a.accountType),
      "balance" := Dec(a.balance),
      "isDefault" := Flag(a.isDefault),
      "createdAt" := Date(a.createdAt)
    ]
  }
}
