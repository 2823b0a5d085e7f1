/**
 * The transaction service: posting a deposit or a withdrawal to an account,
 * and listing transactions newest first. Posting checks, in this order,
 * that the account exists and belongs to the requester, that the type names
 * a transaction type, and that a withdrawal is covered by the balance; only
 * then are the new balance and the transaction row written, both carrying
 * the same balance.
 */
module TransactionService {
  import opened Wrappers
  import opened Errors
  import opened JavaText
  import opened TransactionTypes
  import opened BankAccounts
  import opened Transactions
  import opened Repositories
  import opened Store
  import opened BankAccountService

  function InsufficientFunds(balance: int): string {
    "Insufficient funds. Current balance: " + MoneyString(balance)
  }

  /**
   * The balance after a transaction of `kind`: a deposit adds the amount; a
   * withdrawal subtracts it unless it exceeds the balance, which is refused
   * with the balance in the message. From a non-negative balance and amount
   * the result is never negative.
   */
  function Settle(balance: int, kind: TransactionType, amount: int): (r: Outcome<int>)
    ensures kind == DEPOSIT ==> r == Success(balance + amount)
    ensures kind == WITHDRAWAL ==> (r.Failure? <==> amount > balance)
    ensures r.Failure? ==> r.error == UnprocessableEntity(InsufficientFunds(balance))
    ensures kind == WITHDRAWAL && r.Success? ==> r.value == balance - amount
    ensures balance >= 0 && amount >= 0 && r.Success? ==> r.value >= 0
  {
    if kind == DEPOSIT then Success(balance + amount)
    else if balance < amount then Failure(UnprocessableEntity(InsufficientFunds(balance)))
    else Success(balance - amount)
  }

  /** A withdrawal of what was just deposited restores the balance. */
  lemma WithdrawalUndoesDeposit(balance: int, amount: int)
    requires balance >= 0 && amount >= 0
    ensures Settle(Settle(balance, DEPOSIT, amount).value, WITHDRAWAL, amount) == Success(balance)
  {
  }

  /** Settling agrees with the ledger's replay of the stored row, whose type is the constant's name. */
  lemma SettleIsReplayStep(balance: int, kind: TransactionType, t: Transaction)
    requires t.transactionType == Value(kind) && Settle(balance, kind, t.amount).Success?
    ensures Apply(balance, t) == Settle(balance, kind, t.amount).value
  {
    assert Value(WITHDRAWAL) != "DEPOSIT" by {
      assert Value(WITHDRAWAL)[0] == 'W';
    }
  }

  /**
   * createTransaction, as a function of the account table: the ownership
   * lookup's refusal, else the type parse's refusal, else the funds check's
   * refusal; otherwise the row the call stores.
   */
  function Posting(accounts: map<int, Account>, nextTransactionId: int, accountId: int, authenticatedUserId: int,
                   transactionType: Option<string>, amount: int, description: Option<string>, now: nat)
    : (r: Outcome<Transaction>)
    ensures var owned := FindByIdAndValidateOwnership(accounts, accountId, authenticatedUserId, Access);
            owned.Failure? ==> r == Failure(owned.error)
    ensures var owned := FindByIdAndValidateOwnership(accounts, accountId, authenticatedUserId, Access);
            owned.Success? && FromValue(transactionType).Failure? ==> r == Failure(FromValue(transactionType).error)
    ensures var owned := FindByIdAndValidateOwnership(accounts, accountId, authenticatedUserId, Access);
            var kind := FromValue(transactionType);
            owned.Success? && kind.Success? ==>
              && (r.Failure? <==> kind.value == WITHDRAWAL && amount > owned.value.balance)
              && (r.Failure? ==> r.error == UnprocessableEntity(InsufficientFunds(owned.value.balance)))
              && (r.Success? ==> r.value.transactionType == Value(kind.value))
    ensures r.Success? ==>
              && accountId in accounts && accounts[accountId].ownerId == authenticatedUserId
              && FromValue(transactionType) == Success(if r.value.transactionType == "DEPOSIT" then DEPOSIT else WITHDRAWAL)
              && r.value == Transaction(nextTransactionId, amount, r.value.transactionType, description,
                                        Apply(accounts[accountId].balance, r.value), now, accountId)
    ensures r.Success? && amount >= 0 && accounts[accountId].balance >= 0 ==> r.value.balanceAfter >= 0
  {
    var account :- FindByIdAndValidateOwnership(accounts, accountId, authenticatedUserId, Access);
    var kind :- FromValue(transactionType);
    var balance :- Settle(account.balance, kind, amount);
    var t := Transaction(nextTransactionId, amount, Value(kind), description, balance, now, accountId);
    SettleIsReplayStep(account.balance, kind, t);
    assert Value(WITHDRAWAL) != "DEPOSIT" by {
      assert Value(WITHDRAWAL)[0] == 'W';
    }
    Success(t)
  }

  /** When all three checks pass, the posted row carries the settled balance and the constant's name. */
  lemma PostingAccepts(accounts: map<int, Account>, nextTransactionId: int, accountId: int, authenticatedUserId: int,
                       transactionType: Option<string>, amount: int, description: Option<string>, now: nat,
                       kind: TransactionType)
    requires FindByIdAndValidateOwnership(accounts, accountId, authenticatedUserId, Access).Success?
    requires FromValue(transactionType) == Success(kind)
    requires Settle(accounts[accountId].balance, kind, amount).Success?
    ensures Posting(accounts, nextTransactionId, accountId, authenticatedUserId, transactionType, amount, description, now)
              == Success(Transaction(nextTransactionId, amount, Value(kind), description,
                                     Settle(accounts[accountId].balance, kind, amount).value, now, accountId))
  {
  }

  /**
   * A posted row meets the constraints the entity declares whenever the
   * amount is at least 0.01; the service itself lets an amount of 0.00
   * through, which the constraints do not admit.
   */
  lemma PostedRowMeetsConstraints(accounts: map<int, Account>, nextTransactionId: int, accountId: int,
                                  authenticatedUserId: int, transactionType: Option<string>, amount: int,
                                  description: Option<string>, now: nat)
    requires Posting(accounts, nextTransactionId, accountId, authenticatedUserId, transactionType, amount, description, now).Success?
    ensures var t := Posting(accounts, nextTransactionId, accountId, authenticatedUserId, transactionType, amount, description, now).value;
            DeclaredConstraints(t) <==> amount >= 1
  {
    var t := Posting(accounts, nextTransactionId, accountId, authenticatedUserId, transactionType, amount, description, now).value;
    assert t.transactionType == "DEPOSIT" || t.transactionType == "WITHDRAWAL";
    assert Trim(t.transactionType) != [] by {
      TrimEmptyIffBlank(t.transactionType);
      assert t.transactionType[0] > ' ';
    }
  }

  /** A deposit of 500.00 onto 1000.00 leaves 1500.00; a deposit of 0.00 leaves the balance as it was. */
  lemma DepositExamples(accounts: map<int, Account>, a: Account)
    requires a.id in accounts && accounts[a.id] == a && a.ownerId == 1 && a.balance == 100000
    ensures Posting(accounts, 1, a.id, 1, Some("DEPOSIT"), 50000, None, 0).value.balanceAfter == 150000
    ensures Posting(accounts, 1, a.id, 1, Some("DEPOSIT"), 0, None, 0).value.balanceAfter == 100000
  {
    RoundTrip(DEPOSIT);
  }

  /** A withdrawal of 200.00 from 1000.00 leaves 800.00; withdrawing the whole balance leaves 0.00. */
  lemma WithdrawalExamples(accounts: map<int, Account>, a: Account)
    requires a.id in accounts && accounts[a.id] == a && a.ownerId == 1 && a.balance == 100000
    ensures Posting(accounts, 1, a.id, 1, Some("WITHDRAWAL"), 20000, None, 0).value.balanceAfter == 80000
    ensures Posting(accounts, 1, a.id, 1, Some("WITHDRAWAL"), 100000, None, 0).value.balanceAfter == 0
  {
    RoundTrip(WITHDRAWAL);
  }

  /** Withdrawing 1500.00 from 1000.00 is refused, and the message shows the balance. */
  lemma InsufficientFundsExample(accounts: map<int, Account>, a: Account)
    requires a.id in accounts && accounts[a.id] == a && a.ownerId == 1 && a.balance == 100000
    ensures Posting(accounts, 1, a.id, 1, Some("WITHDRAWAL"), 150000, None, 0) ==
              Failure(UnprocessableEntity("Insufficient funds. Current balance: 1000.00"))
  {
    RoundTrip(WITHDRAWAL);
    assert MoneyString(100000) == "1000.00" by {
      assert NatToString(1) == "1";
      assert NatToString(10) == "10" by { assert NatToString(10) == NatToString(1) + [DigitChar(0)]; }
      assert NatToString(100) == "100" by { assert NatToString(100) == NatToString(10) + [DigitChar(0)]; }
      assert NatToString(1000) == "1000" by { assert NatToString(1000) == NatToString(100) + [DigitChar(0)]; }
    }
    assert InsufficientFunds(100000) == "Insufficient funds. Current balance: 1000.00";
  }

  /** Posting to someone else's account is refused before the type is even read. */
  lemma StrangerPostingExample(accounts: map<int, Account>, a: Account)
    requires a.id in accounts && accounts[a.id] == a && a.ownerId == 1
    ensures Posting(accounts, 1, a.id, 2, None, 50000, None, 0) ==
              Failure(Forbidden("You can only access your own bank accounts"))
  {
  }

  /**
   * The writes of a posting: the account row with its new balance (saved
   * first), then the transaction row carrying the same balance.
   */
  method Persist(db: Database, entity: TransactionEntity, row: Account, now: nat) returns (saved: Transaction)
    requires db.Valid() && entity.transactionId.None?
    requires entity.accountId in db.accounts
    requires row == db.accounts[entity.accountId].(balance := entity.balanceAfter, updatedAt := row.updatedAt)
    requires entity.balanceAfter >= 0
    requires entity.balanceAfter == Apply(db.accounts[entity.accountId].balance,
               Transaction(db.nextTransactionId, entity.amount, entity.transactionType, entity.description,
                           entity.balanceAfter, now, entity.accountId))
    modifies db`accounts, db`transactions, db`nextTransactionId, entity
    ensures db.Valid()
    ensures saved == Transaction(old(db.nextTransactionId), old(entity.amount), old(entity.transactionType),
                                 old(entity.description), old(entity.balanceAfter), now, old(entity.accountId))
    ensures db.accounts == old(db.accounts)[old(entity.accountId) := row]
    ensures db.transactions == old(db.transactions) + [saved] && db.nextTransactionId == old(db.nextTransactionId) + 1
  {
    ghost var t := Transaction(db.nextTransactionId, entity.amount, entity.transactionType, entity.description,
                               entity.balanceAfter, now, entity.accountId);
    ghost var users, opening, nu, na := db.users, db.openingBalance, db.nextUserId, db.nextAccountId;
    ghost var accounts', txs', nt' := db.accounts[t.accountId := row], db.transactions + [t], db.nextTransactionId + 1;
    PostKeepsInvariant(db.users, db.accounts, db.transactions, db.openingBalance,
      db.nextUserId, db.nextAccountId, db.nextTransactionId, t, row.updatedAt);
    assert Invariant(users, accounts', txs', opening, nu, na, nt');
    db.SaveAccount(row);
    saved := db.InsertTransaction(entity, now);
    assert db.accounts == accounts' && db.transactions == txs' && db.nextTransactionId == nt';
  }

  /**
   * createTransaction: the stored row and the account's new balance are the
   * ones Posting describes; the account's row is stamped with the clock at
   * commit only when its balance actually moved. A refused call stores
   * nothing.
   */
  method CreateTransaction(db: Database, accountId: int, authenticatedUserId: int, transactionType: Option<string>,
                           amount: int, description: Option<string>, now: nat)
    returns (r: Outcome<Transaction>)
    requires db.Valid() && amount >= 0
    modifies db`accounts, db`transactions, db`nextTransactionId
    ensures db.Valid()
    ensures r == Posting(old(db.accounts), old(db.nextTransactionId), accountId, authenticatedUserId,
                         transactionType, amount, description, now)
    ensures r.Failure? ==> unchanged(db)
    ensures r.Success? ==>
              && db.transactions == old(db.transactions) + [r.value]
              && db.nextTransactionId == old(db.nextTransactionId) + 1
              && db.accounts == old(db.accounts)[accountId :=
                   Flushed(old(db.accounts)[accountId], old(db.accounts)[accountId].(balance := r.value.balanceAfter), now)]
  {
    var owned := FindByIdAndValidateOwnership(db.accounts, accountId, authenticatedUserId, Access);
    if owned.Failure? {
      return Failure(owned.error);
    }
    var account := owned.value;
    var kind := FromValue(transactionType);
    if kind.Failure? {
      return Failure(kind.error);
    }
    var newBalance: int;
    if kind.value == DEPOSIT {
      newBalance := account.balance + amount;
    } else {
      if account.balance < amount {
        return Failure(UnprocessableEntity(InsufficientFunds(account.balance)));
      }
      newBalance := account.balance - amount;
    }
    var entity := new TransactionEntity(amount, Value(kind.value), description, newBalance, accountId);
    SettleIsReplayStep(account.balance, kind.value,
      Transaction(db.nextTransactionId, amount, Value(kind.value), description, newBalance, now, accountId));
    PostingAccepts(db.accounts, db.nextTransactionId, accountId, authenticatedUserId, transactionType, amount,
      description, now, kind.value);
    var row := Flushed(account, account.(balance := newBalance), now);
    var saved := Persist(db, entity, row, now);
    r := Success(saved);
  }

  /** getAccountTransactions: after the ownership lookup, that account's rows, newest first. */
  function GetAccountTransactions(accounts: map<int, Account>, txs: seq<Transaction>, accountId: int, authenticatedUserId: int)
    : (r: Outcome<seq<Transaction>>)
    ensures var owned := FindByIdAndValidateOwnership(accounts, accountId, authenticatedUserId, Access);
            owned.Failure? ==> r == Failure(owned.error)
    ensures r.Success? <==> accountId in accounts && accounts[accountId].ownerId == authenticatedUserId
    ensures r.Success? ==> DateDescending(r.value) && multiset(r.value) == multiset(ForAccount(txs, accountId))
  {
    var _ :- FindByIdAndValidateOwnership(accounts, accountId, authenticatedUserId, Access);
    Success(AccountTransactionsByDateDesc(txs, accountId))
  }

  /**
   * getUserTransactions: with no lookup or ownership check, the rows of
   * every account the requester owns, newest first.
   */
  function GetUserTransactions(accounts: map<int, Account>, txs: seq<Transaction>, authenticatedUserId: int)
    : (r: seq<Transaction>)
    ensures DateDescending(r)
    ensures forall t :: t in r <==> t in txs && t.accountId in accounts && accounts[t.accountId].ownerId == authenticatedUserId
    ensures multiset(r) == multiset(ForOwner(txs, accounts, authenticatedUserId))
  {
    UserTransactionsByDateDesc(txs, accounts, authenticatedUserId)
  }
}
