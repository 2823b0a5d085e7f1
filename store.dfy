/**
 * The database the three services share: the user, account and transaction
 * tables with their identity counters, and the invariants every service
 * call keeps. The central one is the ledger: replaying an account's
 * transactions in the order they were saved, from the balance the account
 * was opened with, reproduces every recorded balance-after and ends at the
 * account's current balance.
 */
module Store {
  import opened Wrappers
  import opened Errors
  import opened Users
  import opened BankAccounts
  import opened Transactions
  import opened Repositories

  /** The effect of one stored transaction on a balance: a deposit adds, anything else subtracts. */
  function Apply(balance: int, t: Transaction): int {
    if t.transactionType == "DEPOSIT" then balance + t.amount else balance - t.amount
  }

  /** A plain left fold of the effects, ignoring what the rows recorded. */
  function Fold(start: int, history: seq<Transaction>): int
    decreases |history|
  {
    if history == [] then start else Fold(Apply(start, history[0]), history[1..])
  }

  /**
   * Replaying `history` from `start`: each row's balance-after is the
   * balance before it with its effect applied, and the last one (or `start`,
   * for no rows) is `balance`.
   */
  ghost predicate Replays(start: int, history: seq<Transaction>, balance: int)
    decreases |history|
  {
    if history == [] then balance == start
    else history[0].balanceAfter == Apply(start, history[0]) && Replays(history[0].balanceAfter, history[1..], balance)
  }

  /** Appending a row whose balance-after is the current balance with its effect applied extends the replay. */
  lemma {:induction false} ReplaysAppend(start: int, history: seq<Transaction>, balance: int, t: Transaction)
    requires Replays(start, history, balance)
    requires t.balanceAfter == Apply(balance, t)
    ensures Replays(start, history + [t], t.balanceAfter)
    decreases |history|
  {
    if history != [] {
      assert (history + [t])[1..] == history[1..] + [t];
      ReplaysAppend(history[0].balanceAfter, history[1..], balance, t);
    }
  }

  /** A replayed balance is the balance-after of the latest row. */
  lemma {:induction false} BalanceIsLatestBalanceAfter(start: int, history: seq<Transaction>, balance: int)
    requires Replays(start, history, balance) && history != []
    ensures balance == history[|history| - 1].balanceAfter
    decreases |history|
  {
    if |history| > 1 {
      BalanceIsLatestBalanceAfter(history[0].balanceAfter, history[1..], balance);
    }
  }

  /** A replayed balance is the fold of the effects over the opening balance. */
  lemma {:induction false} BalanceIsFold(start: int, history: seq<Transaction>, balance: int)
    requires Replays(start, history, balance)
    ensures balance == Fold(start, history)
    decreases |history|
  {
    if history != [] {
      BalanceIsFold(history[0].balanceAfter, history[1..], balance);
    }
  }

  ghost predicate UsersKeyed(users: map<int, User>) {
    forall id :: id in users ==> users[id].id == id
  }

  /** No two users share an email. */
  ghost predicate EmailsUnique(users: map<int, User>) {
    forall a, b :: a in users && b in users && users[a].email == users[b].email ==> a == b
  }

  /** Each account is stored under its id, belongs to a stored user and has a non-negative balance. */
  ghost predicate AccountsWellFormed(users: map<int, User>, accounts: map<int, Account>) {
    forall id :: id in accounts ==> accounts[id].id == id && accounts[id].ownerId in users && accounts[id].balance >= 0
  }

  /** The unique column on the account number. */
  ghost predicate NumbersUnique(accounts: map<int, Account>) {
    forall a, b :: a in accounts && b in accounts && accounts[a].accountNumber == accounts[b].accountNumber ==> a == b
  }

  /** Each row belongs to a stored account, records a non-negative balance and has an id already issued. */
  ghost predicate TransactionsWellFormed(accounts: map<int, Account>, txs: seq<Transaction>, nextTransactionId: int) {
    forall i :: 0 <= i < |txs| ==> txs[i].accountId in accounts && txs[i].balanceAfter >= 0 && txs[i].id < nextTransactionId
  }

  /** Transaction ids increase in the order the rows were saved: each row's id is below every later row's. */
  ghost predicate IdsIncreasing(txs: seq<Transaction>)
    decreases |txs|
  {
    txs == [] || ((forall t :: t in txs[1..] ==> txs[0].id < t.id) && IdsIncreasing(txs[1..]))
  }

  /** So no two rows share an id, and a row saved earlier has the smaller one. */
  lemma {:induction false} IdsIncreasingByPosition(txs: seq<Transaction>)
    requires IdsIncreasing(txs)
    ensures forall i, j :: 0 <= i < j < |txs| ==> txs[i].id < txs[j].id
    decreases |txs|
  {
    if txs != [] {
      IdsIncreasingByPosition(txs[1..]);
      forall i, j | 0 <= i < j < |txs| ensures txs[i].id < txs[j].id {
        assert txs[j] == txs[1..][j - 1];
        if i > 0 { assert txs[i] == txs[1..][i - 1]; }
      }
    }
  }

  /** The cascade keeps the surviving rows in their order, so their ids still increase. */
  lemma {:induction false} PurgeKeepsIdsIncreasing(txs: seq<Transaction>, gone: int)
    requires IdsIncreasing(txs)
    ensures IdsIncreasing(Purge(txs, gone))
    decreases |txs|
  {
    if txs != [] {
      var rest := Purge(txs[1..], gone);
      PurgeKeepsIdsIncreasing(txs[1..], gone);
      if txs[0].accountId != gone {
        assert ([txs[0]] + rest)[1..] == rest;
      } else {
        assert Purge(txs, gone) == rest;
      }
    }
  }

  /** A row appended with an id above every saved row's keeps the ids increasing. */
  lemma {:induction false} AppendKeepsIdsIncreasing(txs: seq<Transaction>, t: Transaction)
    requires IdsIncreasing(txs) && forall u :: u in txs ==> u.id < t.id
    ensures IdsIncreasing(txs + [t])
    decreases |txs|
  {
    if txs == [] {
      assert ([t])[1..] == [];
    } else {
      AppendKeepsIdsIncreasing(txs[1..], t);
      assert (txs + [t])[1..] == txs[1..] + [t];
    }
  }

  /** Every account's history replays from its opening balance to its current balance. */
  ghost predicate LedgerConsistent(accounts: map<int, Account>, txs: seq<Transaction>, opening: map<int, int>) {
    && opening.Keys == accounts.Keys
    && forall id :: id in accounts ==> Replays(opening[id], ForAccount(txs, id), accounts[id].balance)
  }

  ghost predicate Invariant(
    users: map<int, User>, accounts: map<int, Account>, txs: seq<Transaction>, opening: map<int, int>,
    nextUserId: int, nextAccountId: int, nextTransactionId: int)
  {
    && UsersKeyed(users)
    && EmailsUnique(users)
    && (forall id :: id in users ==> id < nextUserId)
    && AccountsWellFormed(users, accounts)
    && NumbersUnique(accounts)
    && (forall id :: id in accounts ==> id < nextAccountId)
    && TransactionsWellFormed(accounts, txs, nextTransactionId)
    && IdsIncreasing(txs)
    && LedgerConsistent(accounts, txs, opening)
  }

  /** Under the invariant every account's balance is that of its latest transaction, if it has one. */
  lemma LatestTransactionCarriesBalance(
    users: map<int, User>, accounts: map<int, Account>, txs: seq<Transaction>, opening: map<int, int>,
    nextUserId: int, nextAccountId: int, nextTransactionId: int, id: int)
    requires Invariant(users, accounts, txs, opening, nextUserId, nextAccountId, nextTransactionId)
    requires id in accounts && ForAccount(txs, id) != []
    ensures accounts[id].balance == ForAccount(txs, id)[|ForAccount(txs, id)| - 1].balanceAfter
  {
    BalanceIsLatestBalanceAfter(opening[id], ForAccount(txs, id), accounts[id].balance);
  }

  // ---------------------------------------------------------------------
  // Each kind of table write keeps the invariant
  // ---------------------------------------------------------------------

  /** Inserting a user under the next id, with an email nobody holds. */
  lemma InsertUserKeepsInvariant(
    users: map<int, User>, accounts: map<int, Account>, txs: seq<Transaction>, opening: map<int, int>,
    nextUserId: int, nextAccountId: int, nextTransactionId: int, u: User)
    requires Invariant(users, accounts, txs, opening, nextUserId, nextAccountId, nextTransactionId)
    requires u.id == nextUserId && !ExistsByEmail(users, u.email)
    ensures Invariant(users[u.id := u], accounts, txs, opening, nextUserId + 1, nextAccountId, nextTransactionId)
  {
  }

  /**
   * Saving an existing user back: the email is either the one the user
   * already had or one nobody holds.
   */
  lemma SaveUserKeepsInvariant(
    users: map<int, User>, accounts: map<int, Account>, txs: seq<Transaction>, opening: map<int, int>,
    nextUserId: int, nextAccountId: int, nextTransactionId: int, u: User)
    requires Invariant(users, accounts, txs, opening, nextUserId, nextAccountId, nextTransactionId)
    requires u.id in users && (u.email == users[u.id].email || !ExistsByEmail(users, u.email))
    ensures Invariant(users[u.id := u], accounts, txs, opening, nextUserId, nextAccountId, nextTransactionId)
  {
  }

  /** Removing a user who owns no account. */
  lemma RemoveUserKeepsInvariant(
    users: map<int, User>, accounts: map<int, Account>, txs: seq<Transaction>, opening: map<int, int>,
    nextUserId: int, nextAccountId: int, nextTransactionId: int, id: int)
    requires Invariant(users, accounts, txs, opening, nextUserId, nextAccountId, nextTransactionId)
    requires !HasBankAccounts(accounts, id)
    ensures Invariant(users - {id}, accounts, txs, opening, nextUserId, nextAccountId, nextTransactionId)
  {
  }

  /**
   * Inserting an account under the next id, owned by a stored user, with a
   * non-negative balance and a number no stored account carries. Its history
   * is empty, so it replays to its opening balance.
   */
  lemma InsertAccountKeepsInvariant(
    users: map<int, User>, accounts: map<int, Account>, txs: seq<Transaction>, opening: map<int, int>,
    nextUserId: int, nextAccountId: int, nextTransactionId: int, a: Account)
    requires Invariant(users, accounts, txs, opening, nextUserId, nextAccountId, nextTransactionId)
    requires a.id == nextAccountId && a.ownerId in users && a.balance >= 0
    requires !ExistsByAccountNumber(accounts, a.accountNumber)
    ensures Invariant(users, accounts[a.id := a], txs, opening[a.id := a.balance],
                      nextUserId, nextAccountId + 1, nextTransactionId)
  {
  }

  /** Saving an existing account back with its balance, number and owner as they were. */
  lemma SaveAccountKeepsInvariant(
    users: map<int, User>, accounts: map<int, Account>, txs: seq<Transaction>, opening: map<int, int>,
    nextUserId: int, nextAccountId: int, nextTransactionId: int, a: Account)
    requires Invariant(users, accounts, txs, opening, nextUserId, nextAccountId, nextTransactionId)
    requires a.id in accounts
    requires a.balance == accounts[a.id].balance && a.accountNumber == accounts[a.id].accountNumber
    requires a.ownerId == accounts[a.id].ownerId
    ensures Invariant(users, accounts[a.id := a], txs, opening, nextUserId, nextAccountId, nextTransactionId)
  {
  }

  /** Removing an account together with every row of its history. */
  lemma RemoveAccountKeepsInvariant(
    users: map<int, User>, accounts: map<int, Account>, txs: seq<Transaction>, opening: map<int, int>,
    nextUserId: int, nextAccountId: int, nextTransactionId: int, id: int)
    requires Invariant(users, accounts, txs, opening, nextUserId, nextAccountId, nextTransactionId)
    ensures Invariant(users, accounts - {id}, Purge(txs, id), opening - {id},
                      nextUserId, nextAccountId, nextTransactionId)
  {
    var txs' := Purge(txs, id);
    forall i | 0 <= i < |txs'|
      ensures txs'[i].accountId in accounts - {id} && txs'[i].balanceAfter >= 0 && txs'[i].id < nextTransactionId
    {
      assert txs'[i] in txs;
    }
    forall k | k in accounts - {id}
      ensures Replays(opening[k], ForAccount(txs', k), accounts[k].balance)
    {
      PurgeKeepsOthers(txs, id, k);
    }
    PurgeKeepsIdsIncreasing(txs, id);
  }

  /** Posting a row to a stored account keeps every row's account, balance and id within bounds. */
  lemma PostKeepsRowsWellFormed(accounts: map<int, Account>, accounts': map<int, Account>, txs: seq<Transaction>,
                                nextTransactionId: int, t: Transaction)
    requires TransactionsWellFormed(accounts, txs, nextTransactionId)
    requires accounts'.Keys == accounts.Keys && t.accountId in accounts
    requires t.id == nextTransactionId && t.balanceAfter >= 0
    ensures TransactionsWellFormed(accounts', txs + [t], nextTransactionId + 1)
  {
    var txs' := txs + [t];
    forall i | 0 <= i < |txs'|
      ensures txs'[i].accountId in accounts' && txs'[i].balanceAfter >= 0 && txs'[i].id < nextTransactionId + 1
    {
      if i < |txs| { assert txs'[i] == txs[i]; }
    }
  }

  /** A row saved under the next id comes after every row already saved. */
  lemma PostKeepsIdsIncreasing(txs: seq<Transaction>, nextTransactionId: int, t: Transaction)
    requires IdsIncreasing(txs) && (forall i :: 0 <= i < |txs| ==> txs[i].id < nextTransactionId)
    requires t.id == nextTransactionId
    ensures IdsIncreasing(txs + [t])
  {
    AppendKeepsIdsIncreasing(txs, t);
  }

  /**
   * Posting a row whose balance-after is the account's balance with the
   * row's effect applied, and making that the account's balance, keeps every
   * history replaying to its account's balance.
   */
  lemma PostKeepsLedger(accounts: map<int, Account>, txs: seq<Transaction>, opening: map<int, int>,
                        t: Transaction, updatedAt: nat)
    requires LedgerConsistent(accounts, txs, opening)
    requires t.accountId in accounts && t.balanceAfter == Apply(accounts[t.accountId].balance, t)
    ensures LedgerConsistent(accounts[t.accountId := accounts[t.accountId].(balance := t.balanceAfter, updatedAt := updatedAt)],
                             txs + [t], opening)
  {
    var accounts' := accounts[t.accountId := accounts[t.accountId].(balance := t.balanceAfter, updatedAt := updatedAt)];
    forall k | k in accounts'
      ensures Replays(opening[k], ForAccount(txs + [t], k), accounts'[k].balance)
    {
      ForAccountAppend(txs, t, k);
      if k == t.accountId {
        ReplaysAppend(opening[k], ForAccount(txs, k), accounts[k].balance, t);
      } else {
        assert ForAccount(txs + [t], k) == ForAccount(txs, k);
      }
    }
  }

  /**
   * Posting a row to an account under the next id: the row's balance-after
   * is the account's balance with the row's effect applied, and becomes the
   * account's balance.
   */
  lemma PostKeepsInvariant(
    users: map<int, User>, accounts: map<int, Account>, txs: seq<Transaction>, opening: map<int, int>,
    nextUserId: int, nextAccountId: int, nextTransactionId: int, t: Transaction, updatedAt: nat)
    requires Invariant(users, accounts, txs, opening, nextUserId, nextAccountId, nextTransactionId)
    requires t.accountId in accounts && t.id == nextTransactionId
    requires t.balanceAfter == Apply(accounts[t.accountId].balance, t) && t.balanceAfter >= 0
    ensures Invariant(users, accounts[t.accountId := accounts[t.accountId].(balance := t.balanceAfter, updatedAt := updatedAt)],
                      txs + [t], opening, nextUserId, nextAccountId, nextTransactionId + 1)
  {
    var accounts' := accounts[t.accountId := accounts[t.accountId].(balance := t.balanceAfter, updatedAt := updatedAt)];
    PostKeepsRowsWellFormed(accounts, accounts', txs, nextTransactionId, t);
    PostKeepsLedger(accounts, txs, opening, t, updatedAt);
    PostKeepsIdsIncreasing(txs, nextTransactionId, t);
  }

  /** Under the invariant every account's balance is its opening balance with its history's effects applied in order. */
  lemma BalanceIsFoldOfHistory(
    users: map<int, User>, accounts: map<int, Account>, txs: seq<Transaction>, opening: map<int, int>,
    nextUserId: int, nextAccountId: int, nextTransactionId: int, id: int)
    requires Invariant(users, accounts, txs, opening, nextUserId, nextAccountId, nextTransactionId)
    requires id in accounts
    ensures accounts[id].balance == Fold(opening[id], ForAccount(txs, id))
  {
    BalanceIsFold(opening[id], ForAccount(txs, id), accounts[id].balance);
  }

  class Database {
    var users: map<int, User>
    var accounts: map<int, Account>
    var transactions: seq<Transaction>   // in the order the rows were saved
    var nextUserId: int                  // the identity columns' next values
    var nextAccountId: int
    var nextTransactionId: int
    ghost var openingBalance: map<int, int>

    ghost predicate Valid()
      reads this
    {
      Invariant(users, accounts, transactions, openingBalance, nextUserId, nextAccountId, nextTransactionId)
    }

    constructor ()
      ensures Valid()
      ensures users == map[] && accounts == map[] && transactions == []
    {
      users := map[];
      accounts := map[];
      transactions := [];
      nextUserId := 1;
      nextAccountId := 1;
      nextTransactionId := 1;
      openingBalance := map[];
    }

    // -------------------------------------------------------------------
    // The repositories' inherited save and delete
    // -------------------------------------------------------------------

    /** userRepository.save of a new user: the identity column supplies the id. */
    method InsertUser(firstName: string, lastName: string, email: string, phoneNumber: string, address: string)
      returns (u: User)
      modifies this`users, this`nextUserId
      ensures u == User(old(nextUserId), firstName, lastName, email, phoneNumber, address)
      ensures users == old(users)[u.id := u] && nextUserId == old(nextUserId) + 1
    {
      u := User(nextUserId, firstName, lastName, email, phoneNumber, address);
      users := users[u.id := u];
      nextUserId := nextUserId + 1;
    }

    /** userRepository.save of a stored user: its row is replaced. */
    method SaveUser(u: User)
      requires u.id in users
      modifies this`users
      ensures users == old(users)[u.id := u]
    {
      users := users[u.id := u];
    }

    /** userRepository.delete. */
    method RemoveUser(id: int)
      modifies this`users
      ensures users == old(users) - {id}
    {
      users := users - {id};
    }

    /**
     * bankAccountRepository.save of a new account object: the pre-persist
     * hook runs, then the row is inserted under the next id. When the number
     * is already stored, the unique column refuses the insert and nothing is
     * stored.
     */
    method InsertAccount(entity: BankAccount, now: nat, millis: nat, random: real) returns (r: Outcome<Account>)
      requires 0.0 <= random < 1.0 && entity.accountId.None?
      modifies this`accounts, this`nextAccountId, this`openingBalance, entity
      ensures entity.accountName == old(entity.accountName) && entity.accountType == old(entity.accountType)
      ensures entity.balance == old(entity.balance) && entity.ownerId == old(entity.ownerId)
      ensures entity.createdAt == Some(now) && entity.updatedAt == Some(now)
      ensures entity.accountNumber ==
        if old(entity.accountNumber).None? then Some(GenerateAccountNumber(millis, Draw(random))) else old(entity.accountNumber)
      ensures r.Failure? <==> ExistsByAccountNumber(old(accounts), entity.accountNumber.value)
      ensures r.Failure? ==> r.error.Internal? && unchanged(this)
      ensures r.Success? ==> && entity.Persisted() && r.value == entity.Row() && r.value.id == old(nextAccountId)
                             && accounts == old(accounts)[r.value.id := r.value]
                             && nextAccountId == old(nextAccountId) + 1
                             && openingBalance == old(openingBalance)[r.value.id := r.value.balance]
    {
      entity.OnCreate(now, millis, random);
      var number := entity.accountNumber.value;
      if ExistsByAccountNumber(accounts, number) {
        return Failure(Internal("duplicate value in unique column account_number"));
      }
      entity.accountId := Some(nextAccountId);
      var row := entity.Row();
      accounts := accounts[row.id := row];
      openingBalance := openingBalance[row.id := row.balance];
      nextAccountId := nextAccountId + 1;
      r := Success(row);
    }

    /** bankAccountRepository.save of a stored account: its row is replaced. */
    method SaveAccount(a: Account)
      requires a.id in accounts
      modifies this`accounts
      ensures accounts == old(accounts)[a.id := a]
      ensures users == old(users) && transactions == old(transactions) && openingBalance == old(openingBalance)
      ensures nextUserId == old(nextUserId) && nextAccountId == old(nextAccountId) && nextTransactionId == old(nextTransactionId)
    {
      accounts := accounts[a.id := a];
    }

    /** bankAccountRepository.delete, cascading to the account's transactions. */
    method RemoveAccount(id: int)
      modifies this`accounts, this`transactions, this`openingBalance
      ensures accounts == old(accounts) - {id}
      ensures transactions == Purge(old(transactions), id)
      ensures openingBalance == old(openingBalance) - {id}
    {
      accounts := accounts - {id};
      transactions := Purge(transactions, id);
      openingBalance := openingBalance - {id};
    }

    /**
     * transactionRepository.save of a new transaction object: the
     * pre-persist hook dates it, then the row is appended under the next id.
     */
    method InsertTransaction(entity: TransactionEntity, now: nat) returns (t: Transaction)
      requires entity.transactionId.None?
      modifies this`transactions, this`nextTransactionId, entity
      ensures t == Transaction(old(nextTransactionId), entity.amount, entity.transactionType, entity.description,
                               entity.balanceAfter, now, entity.accountId)
      ensures entity.amount == old(entity.amount) && entity.transactionType == old(entity.transactionType)
      ensures entity.description == old(entity.description) && entity.balanceAfter == old(entity.balanceAfter)
      ensures entity.accountId == old(entity.accountId)
      ensures entity.Persisted() && entity.Row() == t
      ensures transactions == old(transactions) + [t] && nextTransactionId == old(nextTransactionId) + 1
      ensures users == old(users) && accounts == old(accounts) && openingBalance == old(openingBalance)
      ensures nextUserId == old(nextUserId) && nextAccountId == old(nextAccountId)
    {
      entity.OnCreate(now);
      entity.transactionId := Some(nextTransactionId);
      t := entity.Row();
      transactions := transactions + [t];
      nextTransactionId := nextTransactionId + 1;
    }
  }
}
