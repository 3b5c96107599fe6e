/** The relational store behind the ledger: one table per entity, each keyed by
    its `id` column. The methods are the single-statement operations the code
    issues through the database client (`create`, `update`, `updateMany`); a
    `$transaction` block is made all-or-nothing by its caller restoring the
    tables it saved when a statement inside it throws. */
module Database {
  import opened Calendar
  import opened Ledger

  class Store {
    var users: seq<User>
    var accounts: seq<Account>
    var transactions: seq<Transaction>
    var budgets: seq<Budget>

    /** The primary-key constraints of the three keyed tables the core writes. */
    predicate Valid()
      reads this
    {
      && UniqueIds(AccountIds(accounts))
      && UniqueIds(TransactionIds(transactions))
      && UniqueIds(BudgetIds(budgets))
    }

    /** A store over tables that already satisfy their primary-key constraints. */
    constructor (users: seq<User>, accounts: seq<Account>, transactions: seq<Transaction>, budgets: seq<Budget>)
      requires UniqueIds(AccountIds(accounts)) && UniqueIds(TransactionIds(transactions)) && UniqueIds(BudgetIds(budgets))
      ensures Valid()
      ensures this.users == users && this.accounts == accounts
      ensures this.transactions == transactions && this.budgets == budgets
    {
      this.users := users;
      this.accounts := accounts;
      this.transactions := transactions;
      this.budgets := budgets;
    }

    /** `transaction.create`: a row with a key not yet in the table is appended. */
    method InsertTransaction(t: Transaction)
      requires Valid() && t.id !in TransactionIds(transactions)
      modifies this`transactions
      ensures Valid()
      ensures transactions == old(transactions) + [t]
    {
      UniqueIdsExtend(TransactionIds(transactions), t.id);
      transactions := transactions + [t];
      assert TransactionIds(transactions) == old(TransactionIds(transactions)) + [t.id];
    }

    /** `account.create` */
    method InsertAccount(a: Account)
      requires Valid() && a.id !in AccountIds(accounts)
      modifies this`accounts
      ensures Valid()
      ensures accounts == old(accounts) + [a]
    {
      UniqueIdsExtend(AccountIds(accounts), a.id);
      accounts := accounts + [a];
      assert AccountIds(accounts) == old(AccountIds(accounts)) + [a.id];
    }

    /** `account.update` with a balance increment; `found` is false, and nothing
        changes, when no row has key `id` (the client then throws). */
    method IncrementBalance(id: Id, delta: int) returns (found: bool)
      requires Valid()
      modifies this`accounts
      ensures Valid()
      ensures found <==> id in AccountIds(old(accounts))
      ensures accounts == if found then Ledger.IncrementBalance(old(accounts), id, delta) else old(accounts)
    {
      found := id in AccountIds(accounts);
      if found {
        accounts := Ledger.IncrementBalance(accounts, id, delta);
        assert AccountIds(accounts) == old(AccountIds(accounts));
      }
    }

    /** `account.update` overwriting the balance of an existing row. */
    method SetBalance(id: Id, balance: int)
      requires Valid()
      modifies this`accounts
      ensures Valid()
      ensures accounts == Ledger.SetBalance(old(accounts), id, balance)
    {
      accounts := Ledger.SetBalance(accounts, id, balance);
      assert AccountIds(accounts) == old(AccountIds(accounts));
    }

    /** `transaction.update` of the two scheduling columns. */
    method SetSchedule(id: Id, processed: DateTime, next: DateTime)
      requires Valid()
      modifies this`transactions
      ensures Valid()
      ensures transactions == Ledger.SetSchedule(old(transactions), id, processed, next)
    {
      transactions := Ledger.SetSchedule(transactions, id, processed, next);
      assert TransactionIds(transactions) == old(TransactionIds(transactions));
    }

    /** `account.updateMany` clearing the default flag of one user's accounts. */
    method ClearDefaults(userId: Id)
      requires Valid()
      modifies this`accounts
      ensures Valid()
      ensures accounts == Ledger.ClearDefaults(old(accounts), userId)
    {
      accounts := Ledger.ClearDefaults(accounts, userId);
      assert AccountIds(accounts) == old(AccountIds(accounts));
    }

    /** `budget.update` of `lastAlertSent`. */
    method SetLastAlertSent(id: Id, sent: DateTime)
      requires Valid()
      modifies this`budgets
      ensures Valid()
      ensures budgets == Ledger.SetLastAlertSent(old(budgets), id, sent)
    {
      budgets := Ledger.SetLastAlertSent(budgets, id, sent);
      assert BudgetIds(budgets) == old(BudgetIds(budgets));
    }

    /** Rolls a `$transaction` back to the tables saved when it began. */
    method Restore(savedAccounts: seq<Account>, savedTransactions: seq<Transaction>)
      requires UniqueIds(AccountIds(savedAccounts)) && UniqueIds(TransactionIds(savedTransactions))
      requires UniqueIds(BudgetIds(budgets))
      modifies this`accounts, this`transactions
      ensures Valid()
      ensures accounts == savedAccounts && transactions == savedTransactions
    {
      accounts := savedAccounts;
      transactions := savedTransactions;
    }
  }

  /** Appending a key not yet present keeps the keys unique. */
  lemma UniqueIdsExtend(ids: seq<Id>, id: Id)
    requires UniqueIds(ids) && id !in ids
    ensures UniqueIds(ids + [id])
  {
    var ext := ids + [id];
    forall i, j | 0 <= i < j < |ext|
      ensures ext[i] != ext[j]
    {
      if j == |ids| {
        assert ext[i] == ids[i];
      }
    }
  }
}
