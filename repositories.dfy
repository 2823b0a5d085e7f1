/**
 * The repositories' queries, as pure functions over the stored tables. Each
 * derived query means what its name says (filter by owner, by account or by
 * number; order by transaction date, newest first); the one hand-written
 * query counts a user's accounts.
 */
module Repositories {
  import opened Wrappers
  import opened Users
  import opened BankAccounts
  import opened Transactions

  // ---------------------------------------------------------------------
  // Inherited lookup by primary key
  // ---------------------------------------------------------------------

  function FindById<T>(table: map<int, T>, id: int): (r: Option<T>)
    ensures r.Some? <==> id in table
    ensures r.Some? ==> r.value == table[id]
  {
    if id in table then Some(table[id]) else None
  }

  // ---------------------------------------------------------------------
  // Users
  // ---------------------------------------------------------------------

  /** findByEmail: a stored user with that email, if there is one. */
  ghost function FindByEmail(users: map<int, User>, email: string): (r: Option<User>)
    ensures r.Some? ==> r.value in users.Values && r.value.email == email
    ensures r.None? ==> forall id :: id in users ==> users[id].email != email
  {
    if exists id :: id in users && users[id].email == email then
      Some(users[var id :| id in users && users[id].email == email; id])
    else None
  }

  /** existsByEmail: whether findByEmail finds someone. */
  function ExistsByEmail(users: map<int, User>, email: string): (r: bool)
    ensures r <==> FindByEmail(users, email).Some?
  {
    exists id | id in users :: users[id].email == email
  }

  /** When emails are unique, findByEmail finds exactly the holder of the email. */
  lemma FindByEmailUnique(users: map<int, User>, email: string, id: int)
    requires forall a, b :: a in users && b in users && users[a].email == users[b].email ==> a == b
    requires id in users && users[id].email == email
    ensures FindByEmail(users, email) == Some(users[id])
  {
  }

  /** The ids of the accounts a user owns. */
  function OwnedIds(accounts: map<int, Account>, userId: int): set<int> {
    set id | id in accounts && accounts[id].ownerId == userId
  }

  lemma OwnedCountPositive(accounts: map<int, Account>, userId: int)
    ensures |OwnedIds(accounts, userId)| > 0 <==> exists id :: id in accounts && accounts[id].ownerId == userId
  {
    var owned := OwnedIds(accounts, userId);
    if exists id :: id in accounts && accounts[id].ownerId == userId {
      var id :| id in accounts && accounts[id].ownerId == userId;
      assert id in owned;
    }
  }

  /** hasBankAccounts: `COUNT(ba) > 0` over the accounts whose owner is the user. */
  function HasBankAccounts(accounts: map<int, Account>, userId: int): (r: bool)
    ensures r <==> exists id :: id in accounts && accounts[id].ownerId == userId
  {
    OwnedCountPositive(accounts, userId);
    |OwnedIds(accounts, userId)| > 0
  }

  // ---------------------------------------------------------------------
  // Bank accounts
  // ---------------------------------------------------------------------

  /** findByUserUserId: the accounts whose owner is the user (a list in no particular order). */
  function FindByUserUserId(accounts: map<int, Account>, userId: int): (r: set<Account>)
    ensures forall id :: id in accounts && accounts[id].ownerId == userId ==> accounts[id] in r
    ensures forall a :: a in r ==> a in accounts.Values && a.ownerId == userId
    ensures r == {} <==> !HasBankAccounts(accounts, userId)
  {
    set id | id in accounts && accounts[id].ownerId == userId :: accounts[id]
  }

  /** findByAccountNumber: the account carrying that number, if any. */
  ghost function FindByAccountNumber(accounts: map<int, Account>, number: string): (r: Option<Account>)
    ensures r.Some? ==> r.value in accounts.Values && r.value.accountNumber == number
    ensures r.None? ==> forall id :: id in accounts ==> accounts[id].accountNumber != number
  {
    if exists id :: id in accounts && accounts[id].accountNumber == number then
      Some(accounts[var id :| id in accounts && accounts[id].accountNumber == number; id])
    else None
  }

  /** existsByAccountNumber: whether findByAccountNumber finds an account. */
  function ExistsByAccountNumber(accounts: map<int, Account>, number: string): (r: bool)
    ensures r <==> FindByAccountNumber(accounts, number).Some?
  {
    exists id | id in accounts :: accounts[id].accountNumber == number
  }

  // ---------------------------------------------------------------------
  // Transactions
  // ---------------------------------------------------------------------

  /** The rows of one account, in table order. */
  function ForAccount(txs: seq<Transaction>, accountId: int): (r: seq<Transaction>)
    ensures forall t :: t in r <==> t in txs && t.accountId == accountId
    ensures |r| <= |txs|
  {
    if txs == [] then []
    else (if txs[0].accountId == accountId then [txs[0]] else []) + ForAccount(txs[1..], accountId)
  }

  /** Saving a row adds it to its own account's history and to no other. */
  lemma {:induction false} ForAccountAppend(txs: seq<Transaction>, t: Transaction, accountId: int)
    ensures ForAccount(txs + [t], accountId) == ForAccount(txs, accountId) + (if t.accountId == accountId then [t] else [])
  {
    if txs != [] {
      assert (txs + [t])[1..] == txs[1..] + [t];
      ForAccountAppend(txs[1..], t, accountId);
    } else {
      assert ForAccount([t], accountId) == (if t.accountId == accountId then [t] else []) + ForAccount([], accountId);
    }
  }

  /** The cascade of deleting an account: every row of that account goes, every other row stays in order. */
  function Purge(txs: seq<Transaction>, accountId: int): (r: seq<Transaction>)
    ensures forall t :: t in r <==> t in txs && t.accountId != accountId
  {
    if txs == [] then []
    else (if txs[0].accountId != accountId then [txs[0]] else []) + Purge(txs[1..], accountId)
  }

  /** The cascade leaves every other account's history exactly as it was. */
  lemma {:induction false} PurgeKeepsOthers(txs: seq<Transaction>, gone: int, kept: int)
    requires gone != kept
    ensures ForAccount(Purge(txs, gone), kept) == ForAccount(txs, kept)
  {
    if txs != [] {
      PurgeKeepsOthers(txs[1..], gone, kept);
      var head := if txs[0].accountId != gone then [txs[0]] else [];
      ForAccountConcat(head, Purge(txs[1..], gone), kept);
    }
  }

  /** After the cascade the account has no history left. */
  lemma {:induction false} PurgeEmptiesAccount(txs: seq<Transaction>, gone: int)
    ensures ForAccount(Purge(txs, gone), gone) == []
  {
    if txs != [] {
      PurgeEmptiesAccount(txs[1..], gone);
      var head := if txs[0].accountId != gone then [txs[0]] else [];
      ForAccountConcat(head, Purge(txs[1..], gone), gone);
    }
  }

  lemma {:induction false} ForAccountConcat(a: seq<Transaction>, b: seq<Transaction>, accountId: int)
    ensures ForAccount(a + b, accountId) == ForAccount(a, accountId) + ForAccount(b, accountId)
  {
    if a != [] {
      assert (a + b)[1..] == a[1..] + b;
      ForAccountConcat(a[1..], b, accountId);
    } else {
      assert a + b == b;
    }
  }

  /** The rows whose account belongs to the user, in table order. */
  function ForOwner(txs: seq<Transaction>, accounts: map<int, Account>, userId: int): (r: seq<Transaction>)
    ensures forall t :: t in r <==> t in txs && t.accountId in accounts && accounts[t.accountId].ownerId == userId
  {
    if txs == [] then []
    else
      var t := txs[0];
      (if t.accountId in accounts && accounts[t.accountId].ownerId == userId then [t] else [])
        + ForOwner(txs[1..], accounts, userId)
  }

  ghost predicate DateDescending(s: seq<Transaction>) {
    forall i, j :: 0 <= i < j < |s| ==> s[i].transactionDate >= s[j].transactionDate
  }

  /** Places a row after every row dated at or after it. */
  function InsertByDate(t: Transaction, s: seq<Transaction>): (r: seq<Transaction>)
    ensures multiset(r) == multiset(s) + multiset{t}
  {
    if s == [] || t.transactionDate > s[0].transactionDate then [t] + s
    else
      assert s == [s[0]] + s[1..];
      [s[0]] + InsertByDate(t, s[1..])
  }

  /** Inserting into a newest-first list keeps it newest first. */
  lemma {:induction false} InsertKeepsOrder(t: Transaction, s: seq<Transaction>)
    requires DateDescending(s)
    ensures DateDescending(InsertByDate(t, s))
  {
    if s != [] && t.transactionDate <= s[0].transactionDate {
      var rest := InsertByDate(t, s[1..]);
      InsertKeepsOrder(t, s[1..]);
      var r := [s[0]] + rest;
      assert r == InsertByDate(t, s);
      forall i, j | 0 <= i < j < |r| ensures r[i].transactionDate >= r[j].transactionDate {
        if i == 0 {
          var x := r[j];
          assert x == rest[j - 1];
          assert x in multiset(rest);
          if x != t {
            assert x in s[1..];
            var k :| 0 <= k < |s[1..]| && s[1..][k] == x;
            assert s[k + 1] == x;
          }
        } else {
          assert r[i] == rest[i - 1] && r[j] == rest[j - 1];
        }
      }
    }
  }

  /** ORDER BY transactionDate DESC. Rows with equal dates come in an order the store picks. */
  function SortByDateDesc(s: seq<Transaction>): (r: seq<Transaction>)
    ensures DateDescending(r)
    ensures multiset(r) == multiset(s)
  {
    if s == [] then []
    else
      assert s == [s[0]] + s[1..];
      var rest := SortByDateDesc(s[1..]);
      InsertKeepsOrder(s[0], rest);
      InsertByDate(s[0], rest)
  }

  /** findByBankAccountAccountIdOrderByTransactionDateDesc: one account's rows, newest first. */
  function AccountTransactionsByDateDesc(txs: seq<Transaction>, accountId: int): (r: seq<Transaction>)
    ensures DateDescending(r)
    ensures multiset(r) == multiset(ForAccount(txs, accountId))
    ensures forall t :: t in r <==> t in txs && t.accountId == accountId
  {
    var r := SortByDateDesc(ForAccount(txs, accountId));
    assert forall t :: t in r <==> t in multiset(ForAccount(txs, accountId));
    r
  }

  /** findByBankAccountUserUserIdOrderByTransactionDateDesc: the rows of every account the user owns, newest first. */
  function UserTransactionsByDateDesc(txs: seq<Transaction>, accounts: map<int, Account>, userId: int): (r: seq<Transaction>)
    ensures DateDescending(r)
    ensures multiset(r) == multiset(ForOwner(txs, accounts, userId))
    ensures forall t :: t in r <==> t in txs && t.accountId in accounts && accounts[t.accountId].ownerId == userId
  {
    var r := SortByDateDesc(ForOwner(txs, accounts, userId));
    assert forall t :: t in r <==> t in multiset(ForOwner(txs, accounts, userId));
    r
  }
}
