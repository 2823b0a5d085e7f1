/**
 * The bank account service: opening, listing, reading, renaming and closing
 * accounts. Every call on one account first looks the account up
 * (ResourceNotFound) and only then checks that the requester owns it
 * (Forbidden), the opposite order to the user service, so a stranger learns
 * which account ids exist.
 */
module BankAccountService {
  import opened Wrappers
  import opened Errors
  import opened JavaText
  import opened Users
  import opened BankAccounts
  import opened Repositories
  import opened Store

  /** What the requester was refused: the word differs per operation. */
  datatype Action = Access | Update | Delete

  function OwnAccountsOnly(action: Action): string {
    match action
    case Access => "You can only access your own bank accounts"
    case Update => "You can only update your own bank accounts"
    case Delete => "You can only delete your own bank accounts"
  }

  function AccountNotFound(accountId: int): string {
    "Bank account not found with ID: " + LongToString(accountId)
  }

  /**
   * findByIdAndValidateOwnership (and the same lookup written out in
   * getBankAccountById, updateBankAccount and deleteBankAccount): the stored
   * account when it exists and the requester owns it.
   */
  function FindByIdAndValidateOwnership(accounts: map<int, Account>, accountId: int, authenticatedUserId: int, action: Action)
    : (r: Outcome<Account>)
    ensures r == Failure(ResourceNotFound(AccountNotFound(accountId))) <==> accountId !in accounts
    ensures r == Failure(Forbidden(OwnAccountsOnly(action))) <==>
              accountId in accounts && accounts[accountId].ownerId != authenticatedUserId
    ensures r.Success? <==> accountId in accounts && accounts[accountId].ownerId == authenticatedUserId
    ensures r.Success? ==> r.value == accounts[accountId]
  {
    var found := FindById(accounts, accountId);
    if found.None? then Failure(ResourceNotFound(AccountNotFound(accountId)))
    else if found.value.ownerId != authenticatedUserId then Failure(Forbidden(OwnAccountsOnly(action)))
    else Success(found.value)
  }

  /**
   * Existence is checked before ownership, so a stranger is told apart
   * whether an account exists: Forbidden when it does, ResourceNotFound when
   * it does not.
   */
  lemma StrangerLearnsExistence(accounts: map<int, Account>, accountId: int, authenticatedUserId: int, action: Action)
    requires accountId in accounts && accounts[accountId].ownerId != authenticatedUserId
    ensures FindByIdAndValidateOwnership(accounts, accountId, authenticatedUserId, action).error.Forbidden?
    ensures FindByIdAndValidateOwnership(accounts - {accountId}, accountId, authenticatedUserId, action).error.ResourceNotFound?
  {
  }

  /** getUserBankAccounts: exactly the requester's accounts; an unknown requester simply owns none. */
  function GetUserBankAccounts(accounts: map<int, Account>, authenticatedUserId: int): (r: set<Account>)
    ensures forall a :: a in r <==> a in accounts.Values && a.ownerId == authenticatedUserId
  {
    FindByUserUserId(accounts, authenticatedUserId)
  }

  /**
   * createBankAccount: ResourceNotFound unless the requester is a stored
   * user; otherwise a new account row with the given name, type and
   * balance, owned by the requester, numbered by the pre-persist hook and
   * stamped with the clock. A number that is already stored makes the insert
   * fail and nothing is stored.
   */
  method CreateBankAccount(db: Database, authenticatedUserId: int, accountName: string, accountType: string,
                           initialBalance: int, now: nat, millis: nat, random: real)
    returns (r: Outcome<Account>)
    requires db.Valid() && initialBalance >= 0 && 0.0 <= random < 1.0
    modifies db`accounts, db`nextAccountId, db`openingBalance
    ensures db.Valid()
    ensures authenticatedUserId !in old(db.users) ==> r == Failure(ResourceNotFound(UserNotFound(authenticatedUserId)))
    ensures authenticatedUserId in old(db.users) && ExistsByAccountNumber(old(db.accounts), GenerateAccountNumber(millis, Draw(random))) ==>
              r.Failure? && r.error.Internal?
    ensures r.Success? <==>
              authenticatedUserId in old(db.users) && !ExistsByAccountNumber(old(db.accounts), GenerateAccountNumber(millis, Draw(random)))
    ensures r.Failure? ==> unchanged(db)
    ensures r.Success? ==>
              && authenticatedUserId in old(db.users)
              && r.value == Account(old(db.nextAccountId), accountName, accountType, initialBalance,
                                    GenerateAccountNumber(millis, Draw(random)), authenticatedUserId, now, now)
              && db.accounts == old(db.accounts)[r.value.id := r.value]
              && db.nextAccountId == old(db.nextAccountId) + 1
  {
    var owner := FindById(db.users, authenticatedUserId);
    if owner.None? {
      return Failure(ResourceNotFound(UserNotFound(authenticatedUserId)));
    }
    var number := GenerateAccountNumber(millis, Draw(random));
    if !ExistsByAccountNumber(db.accounts, number) {
      InsertAccountKeepsInvariant(db.users, db.accounts, db.transactions, db.openingBalance,
        db.nextUserId, db.nextAccountId, db.nextTransactionId,
        Account(db.nextAccountId, accountName, accountType, initialBalance, number, authenticatedUserId, now, now));
    }
    var entity := new BankAccount(accountName, accountType, initialBalance, authenticatedUserId);
    r := db.InsertAccount(entity, now, millis, random);
  }

  /** The account after a partial update: a supplied name or type replaces the stored one; nothing else moves. */
  function PatchedAccount(a: Account, p: AccountPatch): (r: Account)
    ensures r.name == (if p.name.Some? then p.name.value else a.name)
    ensures r.accountType == (if p.accountType.Some? then p.accountType.value else a.accountType)
    ensures r.id == a.id && r.balance == a.balance && r.accountNumber == a.accountNumber && r.ownerId == a.ownerId
    ensures r.createdAt == a.createdAt && r.updatedAt == a.updatedAt
  {
    a.(name := if p.name.Some? then p.name.value else a.name,
       accountType := if p.accountType.Some? then p.accountType.value else a.accountType)
  }

  /** An update supplying neither field leaves the account as stored. */
  lemma EmptyAccountPatchIsIdentity(a: Account)
    ensures PatchedAccount(a, AccountPatch(None, None)) == a
  {
  }

  /**
   * The row written at commit. The entity's pre-update hook, which sets only
   * the update time to the clock, runs only when a column actually changed.
   */
  function Flushed(loaded: Account, edited: Account, now: nat): (r: Account)
    ensures edited == loaded ==> r == loaded
    ensures edited != loaded ==> r == edited.(updatedAt := now)
  {
    if edited != loaded then edited.(updatedAt := now) else edited
  }

  /**
   * updateBankAccount: the ownership lookup, then the supplied name and
   * type replace the stored ones. Balance, number, owner and creation time
   * never change. The account returned is the edited object as it stood
   * before commit, so it carries the previous update time even when the row
   * is stamped anew.
   */
  method UpdateBankAccount(db: Database, accountId: int, authenticatedUserId: int, patch: AccountPatch, now: nat)
    returns (r: Outcome<Account>)
    requires db.Valid()
    modifies db`accounts
    ensures db.Valid()
    ensures var found := FindByIdAndValidateOwnership(old(db.accounts), accountId, authenticatedUserId, Update);
            && (found.Failure? ==> r == Failure(found.error) && unchanged(db))
            && (found.Success? ==> r == Success(PatchedAccount(found.value, patch)))
    ensures r.Success? ==> db.accounts == old(db.accounts)[accountId := Flushed(old(db.accounts)[accountId], r.value, now)]
  {
    var found := FindByIdAndValidateOwnership(db.accounts, accountId, authenticatedUserId, Update);
    if found.Failure? {
      return Failure(found.error);
    }
    var account := found.value;
    if patch.name.Some? {
      account := account.(name := patch.name.value);
    }
    if patch.accountType.Some? {
      account := account.(accountType := patch.accountType.value);
    }
    var row := Flushed(found.value, account, now);
    SaveAccountKeepsInvariant(db.users, db.accounts, db.transactions, db.openingBalance,
      db.nextUserId, db.nextAccountId, db.nextTransactionId, row);
    db.SaveAccount(row);
    r := Success(account);
  }

  /**
   * deleteBankAccount: the ownership lookup, then the account goes and,
   * through the cascade, every transaction of it; every other account's
   * history stays exactly as it was.
   */
  method DeleteBankAccount(db: Database, accountId: int, authenticatedUserId: int) returns (r: Outcome<()>)
    requires db.Valid()
    modifies db`accounts, db`transactions, db`openingBalance
    ensures db.Valid()
    ensures var found := FindByIdAndValidateOwnership(old(db.accounts), accountId, authenticatedUserId, Delete);
            && (found.Failure? ==> r == Failure(found.error) && unchanged(db))
            && (found.Success? <==> r.Success?)
    ensures r.Success? ==> && db.accounts == old(db.accounts) - {accountId}
                           && db.transactions == Purge(old(db.transactions), accountId)
                           && ForAccount(db.transactions, accountId) == []
                           && forall other :: other != accountId ==>
                                ForAccount(db.transactions, other) == ForAccount(old(db.transactions), other)
  {
    var found := FindByIdAndValidateOwnership(db.accounts, accountId, authenticatedUserId, Delete);
    if found.Failure? {
      return Failure(found.error);
    }
    RemoveAccountKeepsInvariant(db.users, db.accounts, db.transactions, db.openingBalance,
      db.nextUserId, db.nextAccountId, db.nextTransactionId, accountId);
    ghost var before := db.transactions;
    db.RemoveAccount(accountId);
    PurgeEmptiesAccount(before, accountId);
    forall other | other != accountId
      ensures ForAccount(db.transactions, other) == ForAccount(before, other)
    {
      PurgeKeepsOthers(before, accountId, other);
    }
    r := Success(());
  }
}
