/** The account server actions of actions/dashboard.js: the serialisation of
    rows for the client, account creation with its default-account rule, and the
    two per-user listings, newest first. */
module Dashboard {
  import opened Wrappers
  import opened Calendar
  import opened Ledger
  import opened Database

  const Unauthorized: string := "Unauthorized"
  const UserNotFound: string := "User not found"
  const InvalidBalance: string := "Invalid balance amount"

  // ---------------------------------------------------------------------------
  // Serialisation

  /** The two money columns that `serializeTransaction` converts. */
  predicate IsMoneyField(k: string) {
    k == "balance" || k == "amount"
  }

  /** `serializeTransaction`: a copy of the record in which `balance` and
      `amount`, when they hold database decimals, hold the same amount as plain
      numbers; every other field is copied as it is. */
  function SerializeTransaction(rec: Record): (r: Record)
    ensures r.Keys == rec.Keys
    ensures forall k :: k in rec && IsMoneyField(k) && rec[k].Dec? ==> r[k] == Num(rec[k].cents)
    ensures forall k :: k in rec && !(IsMoneyField(k) && rec[k].Dec?) ==> r[k] == rec[k]
  {
    var withBalance :=
      if "balance" in rec && rec["balance"].Dec? then rec["balance" := Num(rec["balance"].cents)] else rec;
    if "amount" in withBalance && withBalance["amount"].Dec?
    then withBalance["amount" := Num(withBalance["amount"].cents)]
    else withBalance
  }

  /** Serialising twice is serialising once: nothing decimal is left. */
  lemma SerializeTransactionIsIdempotent(rec: Record)
    ensures SerializeTransaction(SerializeTransaction(rec)) == SerializeTransaction(rec)
    ensures forall k :: k in SerializeTransaction(rec) && IsMoneyField(k) ==> !SerializeTransaction(rec)[k].Dec?
  {
    var once := SerializeTransaction(rec);
    var twice := SerializeTransaction(once);
    assert twice.Keys == once.Keys;
    assert forall k :: k in once ==> twice[k] == once[k];
  }

  // ---------------------------------------------------------------------------
  // Ordering

  /** Ordered by `key` descending, as `orderBy: {key: "desc"}`. */
  predicate NewestFirst<T>(s: seq<T>, key: T -> DateTime) {
    forall i, j :: 0 <= i < j < |s| ==> AtOrBefore(key(s[j]), key(s[i]))
  }

  function InsertNewestFirst<T>(x: T, s: seq<T>, key: T -> DateTime): (r: seq<T>)
    requires NewestFirst(s, key)
    ensures multiset(r) == multiset(s) + multiset{x}
    ensures NewestFirst(r, key)
  {
    if s == [] then [x]
    else if AtOrBefore(key(s[0]), key(x)) then
      assert forall j :: 0 <= j < |s| ==> AtOrBefore(key(s[j]), key(x)) by {
        forall j | 0 <= j < |s| ensures AtOrBefore(key(s[j]), key(x)) {
          if j > 0 { AtOrBeforeIsTransitive(key(s[j]), key(s[0]), key(x)); }
        }
      }
      [x] + s
    else
      var rest := InsertNewestFirst(x, s[1..], key);
      assert s == [s[0]] + s[1..];
      AtOrBeforeIsTotal(key(s[0]), key(x));
      assert forall j :: 0 <= j < |rest| ==> AtOrBefore(key(rest[j]), key(s[0])) by {
        forall j | 0 <= j < |rest| ensures AtOrBefore(key(rest[j]), key(s[0])) {
          assert rest[j] in multiset(rest);
          if rest[j] != x {
            assert rest[j] in multiset(s[1..]);
            var k :| 0 <= k < |s[1..]| && s[1..][k] == rest[j];
            assert s[k + 1] == rest[j];
          }
        }
      }
      [s[0]] + rest
  }

  /** The rows in descending order of `key`; rows with equal keys may come in
      any order, as the database leaves them unordered. */
  function SortNewestFirst<T>(s: seq<T>, key: T -> DateTime): (r: seq<T>)
    ensures multiset(r) == multiset(s)
    ensures NewestFirst(r, key)
  {
    if s == [] then []
    else
      assert s == [s[0]] + s[1..];
      InsertNewestFirst(s[0], SortNewestFirst(s[1..], key), key)
  }

  function CreatedAt(a: Account): DateTime {
    a.createdAt
  }

  function TxDate(t: Transaction): DateTime {
    t.date
  }

  // ---------------------------------------------------------------------------
  // Per-user listings

  /** `findMany({where: {userId}})` on the accounts table. */
  function AccountsOf(accounts: seq<Account>, userId: Id): (r: seq<Account>)
    ensures forall a :: a in r <==> a in accounts && a.userId == userId
    ensures forall a :: multiset(r)[a] == if a.userId == userId then multiset(accounts)[a] else 0
    ensures |r| <= |accounts|
  {
    if accounts == [] then []
    else
      var rest := AccountsOf(accounts[1..], userId);
      assert accounts == [accounts[0]] + accounts[1..];
      if accounts[0].userId == userId then [accounts[0]] + rest else rest
  }

  /** `findMany({where: {userId}})` on the transactions table. */
  function TransactionsOf(txs: seq<Transaction>, userId: Id): (r: seq<Transaction>)
    ensures forall t :: t in r <==> t in txs && t.userId == userId
    ensures forall t :: multiset(r)[t] == if t.userId == userId then multiset(txs)[t] else 0
    ensures |r| <= |txs|
  {
    if txs == [] then []
    else
      var rest := TransactionsOf(txs[1..], userId);
      assert txs == [txs[0]] + txs[1..];
      if txs[0].userId == userId then [txs[0]] + rest else rest
  }

  /** The listed accounts as the client receives them, balances as numbers. */
  function SerializeAccounts(rows: seq<Account>): (r: seq<Record>)
    ensures |r| == |rows|
    ensures forall i :: 0 <= i < |rows| ==> "balance" in r[i] && r[i]["balance"] == Num(rows[i].balance)
  {
    seq(|rows|, i requires 0 <= i < |rows| => SerializeTransaction(AccountRecord(rows[i])))
  }

  /** The listed transactions as the client receives them, amounts as numbers. */
  function SerializeTransactions(rows: seq<Transaction>): (r: seq<Record>)
    ensures |r| == |rows|
    ensures forall i :: 0 <= i < |rows| ==> "amount" in r[i] && r[i]["amount"] == Num(rows[i].amount)
  {
    seq(|rows|, i requires 0 <= i < |rows| => SerializeTransaction(TxRecord(rows[i])))
  }

  /** The ledger user behind an authentication identity, or the error thrown
      before any query when there is none. */
  function CurrentUser(users: seq<User>, clerkUserId: Option<Id>): (r: Result<User, string>)
    ensures r.Success? ==> r.value in users && Present(clerkUserId) && r.value.clerkUserId == clerkUserId.value
    ensures r.Failure? ==> r.error == if Present(clerkUserId) then UserNotFound else Unauthorized
    ensures r.Failure? && Present(clerkUserId) ==> forall u :: u in users ==> u.clerkUserId != clerkUserId.value
  {
    if !Present(clerkUserId) then Failure(Unauthorized)
    else
      match FindUserByClerkId(users, clerkUserId.value)
      case None => Failure(UserNotFound)
      case Some(u) => Success(u)
  }

  /** `getUserAccounts` */
  function GetUserAccounts(users: seq<User>, accounts: seq<Account>, clerkUserId: Option<Id>): (r: Result<seq<Record>, string>)
  {
    match CurrentUser(users, clerkUserId)
    case Failure(e) => Failure(e)
    case Success(u) => Success(SerializeAccounts(SortNewestFirst(AccountsOf(accounts, u.id), CreatedAt)))
  }

  /** `getUserAccounts` lists exactly the caller's accounts, each once, newest
      first, each serialised; without a caller or a ledger user it throws. */
  lemma GetUserAccountsLists(users: seq<User>, accounts: seq<Account>, clerkUserId: Option<Id>)
    ensures CurrentUser(users, clerkUserId).Failure? ==>
      GetUserAccounts(users, accounts, clerkUserId) == Failure(CurrentUser(users, clerkUserId).error)
    ensures CurrentUser(users, clerkUserId).Success? ==>
        var r := GetUserAccounts(users, accounts, clerkUserId);
        var u := CurrentUser(users, clerkUserId).value;
        var rows := SortNewestFirst(AccountsOf(accounts, u.id), CreatedAt);
        && r.Success?
        && multiset(rows) == multiset(AccountsOf(accounts, u.id))
        && (forall a :: multiset(rows)[a] == if a.userId == u.id then multiset(accounts)[a] else 0)
        && (forall a :: a in rows <==> a in accounts && a.userId == u.id)
        && (forall i, j :: 0 <= i < j < |rows| ==> AtOrBefore(rows[j].createdAt, rows[i].createdAt))
        && r.value == SerializeAccounts(rows)
  {
    match CurrentUser(users, clerkUserId)
    case Failure(e) =>
    case Success(u) =>
      var rows := SortNewestFirst(AccountsOf(accounts, u.id), CreatedAt);
      assert GetUserAccounts(users, accounts, clerkUserId) == Success(SerializeAccounts(rows));
      forall a ensures a in rows <==> a in AccountsOf(accounts, u.id) {
        assert a in rows <==> a in multiset(rows);
      }
      assert NewestFirst(rows, CreatedAt);
  }

  /** `getDashboardData` */
  function GetDashboardData(users: seq<User>, txs: seq<Transaction>, clerkUserId: Option<Id>): (r: Result<seq<Record>, string>)
  {
    match CurrentUser(users, clerkUserId)
    case Failure(e) => Failure(e)
    case Success(u) => Success(SerializeTransactions(SortNewestFirst(TransactionsOf(txs, u.id), TxDate)))
  }

  /** `getDashboardData` lists exactly the caller's transactions, newest first,
      each serialised; without a caller or a ledger user it throws. */
  lemma GetDashboardDataLists(users: seq<User>, txs: seq<Transaction>, clerkUserId: Option<Id>)
    ensures CurrentUser(users, clerkUserId).Failure? ==>
      GetDashboardData(users, txs, clerkUserId) == Failure(CurrentUser(users, clerkUserId).error)
    ensures CurrentUser(users, clerkUserId).Success? ==>
        var r := GetDashboardData(users, txs, clerkUserId);
        var u := CurrentUser(users, clerkUserId).value;
        var rows := SortNewestFirst(TransactionsOf(txs, u.id), TxDate);
        && r.Success?
        && multiset(rows) == multiset(TransactionsOf(txs, u.id))
        && (forall t :: multiset(rows)[t] == if t.userId == u.id then multiset(txs)[t] else 0)
        && (forall t :: t in rows <==> t in txs && t.userId == u.id)
        && (forall i, j :: 0 <= i < j < |rows| ==> AtOrBefore(rows[j].date, rows[i].date))
        && r.value == SerializeTransactions(rows)
  {
    match CurrentUser(users, clerkUserId)
    case Failure(e) =>
    case Success(u) =>
      var rows := SortNewestFirst(TransactionsOf(txs, u.id), TxDate);
      assert GetDashboardData(users, txs, clerkUserId) == Success(SerializeTransactions(rows));
      forall t ensures t in rows <==> t in TransactionsOf(txs, u.id) {
        assert t in rows <==> t in multiset(rows);
      }
      assert NewestFirst(rows, TxDate);
  }

  // ---------------------------------------------------------------------------
  // Account creation

  /** The `isDefault` field as the form or a caller may send it. */
  datatype DefaultFlag = FlagBool(b: bool) | FlagText(s: string) | FlagAbsent

  /** `createAccount`'s input after form decoding; `balance` is the result of
      `parseFloat`, `None` standing for NaN. */
  datatype AccountInput = AccountInput(name: string, accountType: string, balance: Option<int>, isDefault: DefaultFlag)

  /** A user's first account is the default whatever was asked; a later one
      only when `isDefault` is the string "true" or the boolean true. */
  predicate ShouldBeDefault(existing: nat, flag: DefaultFlag) {
    existing == 0 || flag == FlagText("true") || flag == FlagBool(true)
  }

  /** The accounts table after the call and what the call yields: the
      serialised account, or the message of the error it catches (the caller
      itself receives `undefined`). */
  datatype AccountResult = AccountResult(accounts: seq<Account>, result: Result<Record, string>)

  /** The committed effect of `createAccount` at `now`. */
  function CreateAccountOutcome(users: seq<User>, accounts: seq<Account>, clerkUserId: Option<Id>,
                                input: AccountInput, now: DateTime): (r: AccountResult)
    ensures r.result.Failure? ==> r.accounts == accounts
    ensures r.result.Failure? <==> CurrentUser(users, clerkUserId).Failure? || input.balance.None?
    ensures r.result.Failure? ==> r.result.error in {Unauthorized, UserNotFound, InvalidBalance}
    ensures r.result.Failure? ==>
      r.result.error == if CurrentUser(users, clerkUserId).Failure? then CurrentUser(users, clerkUserId).error else InvalidBalance
  {
    match CurrentUser(users, clerkUserId)
    case Failure(e) => AccountResult(accounts, Failure(e))
    case Success(u) =>
      match input.balance
      case None => AccountResult(accounts, Failure(InvalidBalance))
      case Some(balance) =>
        var isDefault := ShouldBeDefault(|AccountsOf(accounts, u.id)|, input.isDefault);
        var row := Account(FreshId(AccountIds(accounts)), u.id, input.name, input.accountType, balance, isDefault, now);
        var cleared := if isDefault then ClearDefaults(accounts, u.id) else accounts;
        AccountResult(cleared + [row], Success(SerializeTransaction(AccountRecord(row))))
  }

  /** `createAccount` on the store: the gates, then (for a default account)
      the `updateMany` clearing the user's other defaults, then the insert. Every
      failure is caught, logged and turned into an `undefined` result. */
  method CreateAccount(s: Store, clerkUserId: Option<Id>, input: AccountInput, now: DateTime) returns (result: Result<Record, string>)
    requires s.Valid()
    modifies s`accounts
    ensures s.Valid()
    ensures var r := CreateAccountOutcome(old(s.users), old(s.accounts), clerkUserId, input, now);
      s.accounts == r.accounts && result == r.result
  {
    var user := CurrentUser(s.users, clerkUserId);
    if user.Failure? {
      return Failure(user.error);
    }
    if input.balance.None? {
      return Failure(InvalidBalance);
    }
    var existing := AccountsOf(s.accounts, user.value.id);
    var isDefault := ShouldBeDefault(|existing|, input.isDefault);
    var id := FreshId(AccountIds(s.accounts));
    if isDefault {
      s.ClearDefaults(user.value.id);
      assert AccountIds(s.accounts) == AccountIds(old(s.accounts));
    }
    var row := Account(id, user.value.id, input.name, input.accountType, input.balance.value, isDefault, now);
    s.InsertAccount(row);
    result := Success(SerializeTransaction(AccountRecord(row)));
  }

  /** No user has two default accounts. */
  predicate AtMostOneDefault(accounts: seq<Account>) {
    forall i, j :: 0 <= i < j < |accounts| && accounts[i].userId == accounts[j].userId ==>
      !(accounts[i].isDefault && accounts[j].isDefault)
  }

  /** Every user with an account has a default one. */
  predicate DefaultExists(accounts: seq<Account>) {
    forall i :: 0 <= i < |accounts| ==> HasDefault(accounts, accounts[i].userId)
  }

  predicate HasDefault(accounts: seq<Account>, userId: Id) {
    exists j :: 0 <= j < |accounts| && accounts[j].userId == userId && accounts[j].isDefault
  }

  /** A created account belongs to the caller, holds the parsed balance and is
      appended after the existing rows; it is the default exactly when it is the
      caller's first account or `isDefault` asked for it. When it is the default,
      every other account of the caller loses its default flag; other users'
      accounts are untouched. */
  lemma CreatedAccount(users: seq<User>, accounts: seq<Account>, clerkUserId: Option<Id>, input: AccountInput, now: DateTime)
    requires CreateAccountOutcome(users, accounts, clerkUserId, input, now).result.Success?
    ensures CurrentUser(users, clerkUserId).Success? && input.balance.Some?
    ensures var r := CreateAccountOutcome(users, accounts, clerkUserId, input, now);
      var u := CurrentUser(users, clerkUserId).value;
      var row := r.accounts[|accounts|];
      && |r.accounts| == |accounts| + 1
      && row.userId == u.id && row.balance == input.balance.value && row.id !in AccountIds(accounts)
      && row.name == input.name && row.createdAt == now
      && (row.isDefault <==>
            (forall a :: a in accounts ==> a.userId != u.id)
            || input.isDefault == FlagText("true") || input.isDefault == FlagBool(true))
      && (forall j :: 0 <= j < |accounts| && accounts[j].userId != u.id ==> r.accounts[j] == accounts[j])
      && (forall j :: 0 <= j < |accounts| && accounts[j].userId == u.id ==>
            r.accounts[j] == accounts[j].(isDefault := accounts[j].isDefault && !row.isDefault))
  {
    var u := CurrentUser(users, clerkUserId).value;
    var existing := AccountsOf(accounts, u.id);
    if |existing| > 0 {
      assert existing[0] in existing;
    } else {
      forall a | a in accounts ensures a.userId != u.id {
      }
    }
  }

  /** Appending a user's new default account after clearing that user's
      other defaults, or a non-default one as it is, keeps defaults unique. */
  lemma AppendKeepsAtMostOneDefault(accounts: seq<Account>, row: Account)
    requires AtMostOneDefault(accounts)
    ensures row.isDefault ==> AtMostOneDefault(ClearDefaults(accounts, row.userId) + [row])
    ensures !row.isDefault ==> AtMostOneDefault(accounts + [row])
  {
    var after := (if row.isDefault then ClearDefaults(accounts, row.userId) else accounts) + [row];
    var n := |accounts|;
    forall i, j | 0 <= i < j < |after| && after[i].userId == after[j].userId
      ensures !(after[i].isDefault && after[j].isDefault)
    {
      if j < n {
        assert !(accounts[i].isDefault && accounts[j].isDefault);
      }
    }
  }

  /** Appending a user's new default account after clearing that user's other
      defaults keeps a default for every user who has an account. */
  lemma AppendDefaultKeepsDefaultExists(accounts: seq<Account>, row: Account)
    requires DefaultExists(accounts) && row.isDefault
    ensures DefaultExists(ClearDefaults(accounts, row.userId) + [row])
  {
    var n := |accounts|;
    var after := ClearDefaults(accounts, row.userId) + [row];
    forall i | 0 <= i < |after|
      ensures HasDefault(after, after[i].userId)
    {
      if after[i].userId == row.userId {
        assert after[n].userId == after[i].userId && after[n].isDefault;
      } else {
        assert after[i] == accounts[i];
        assert HasDefault(accounts, accounts[i].userId);
        var j :| 0 <= j < n && accounts[j].userId == accounts[i].userId && accounts[j].isDefault;
        assert after[j] == accounts[j];
      }
    }
  }

  /** Appending a non-default account for a user who already has one keeps a
      default for every user who has an account. */
  lemma AppendOtherKeepsDefaultExists(accounts: seq<Account>, row: Account, k: nat)
    requires DefaultExists(accounts) && !row.isDefault
    requires k < |accounts| && accounts[k].userId == row.userId
    ensures DefaultExists(accounts + [row])
  {
    var n := |accounts|;
    var after := accounts + [row];
    forall i | 0 <= i < |after|
      ensures HasDefault(after, after[i].userId)
    {
      var i' := if i < n then i else k;
      assert after[i].userId == accounts[i'].userId;
      assert HasDefault(accounts, accounts[i'].userId);
      var j :| 0 <= j < n && accounts[j].userId == accounts[i'].userId && accounts[j].isDefault;
      assert after[j] == accounts[j];
    }
  }

  /** Account creation keeps each user's default account unique and keeps a
      default account for every user who has accounts. */
  lemma CreateAccountKeepsOneDefault(users: seq<User>, accounts: seq<Account>, clerkUserId: Option<Id>, input: AccountInput, now: DateTime)
    requires AtMostOneDefault(accounts) && DefaultExists(accounts)
    ensures var r := CreateAccountOutcome(users, accounts, clerkUserId, input, now);
      AtMostOneDefault(r.accounts) && DefaultExists(r.accounts)
  {
    var r := CreateAccountOutcome(users, accounts, clerkUserId, input, now);
    if r.result.Success? {
      var u := CurrentUser(users, clerkUserId).value;
      var existing := AccountsOf(accounts, u.id);
      var row := r.accounts[|accounts|];
      assert r.accounts == (if row.isDefault then ClearDefaults(accounts, u.id) else accounts) + [row];
      AppendKeepsAtMostOneDefault(accounts, row);
      if row.isDefault {
        AppendDefaultKeepsDefaultExists(accounts, row);
      } else {
        assert existing[0] in accounts;
        var k :| 0 <= k < |accounts| && accounts[k] == existing[0];
        AppendOtherKeepsDefaultExists(accounts, row, k);
      }
    }
  }
}
