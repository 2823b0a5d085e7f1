/**
 * The bank account entity: the stored row, the mutable entity object with
 * its persistence hooks, and the generated account number.
 */
module BankAccounts {
  import opened Wrappers
  import opened JavaText

  /** A stored account row; the balance is a count of cents (scale 2). */
  datatype Account = Account(
    id: int,
    name: string,
    accountType: string,
    balance: int,
    accountNumber: string,
    ownerId: int,
    createdAt: nat,
    updatedAt: nat)

  /** A partial update of name and type: a None field is one the request left out. */
  datatype AccountPatch = AccountPatch(name: Option<string>, accountType: Option<string>)

  /**
   * "EB", the clock in milliseconds and a draw in 0..999, each written in
   * plain decimal with no padding. Nothing checks the result against the
   * numbers already issued; only the unique column does.
   */
  function GenerateAccountNumber(millis: nat, draw: nat): (n: string)
    requires draw < 1000
    ensures |n| >= 4 && n[..2] == "EB" && AllDigits(n[2..])
  {
    "EB" + NatToString(millis) + NatToString(draw)
  }

  /** Within one millisecond, distinct draws give distinct numbers. */
  lemma SameMillisDistinctDraws(millis: nat, d1: nat, d2: nat)
    requires d1 < 1000 && d2 < 1000 && d1 != d2
    ensures GenerateAccountNumber(millis, d1) != GenerateAccountNumber(millis, d2)
  {
    var prefix := "EB" + NatToString(millis);
    if GenerateAccountNumber(millis, d1) == GenerateAccountNumber(millis, d2) {
      var n := GenerateAccountNumber(millis, d1);
      assert NatToString(d1) == n[|prefix|..] == NatToString(d2);
      NatToStringInjective(d1, d2);
    }
  }

  /** Across milliseconds the numbers can coincide, since neither part is padded. */
  lemma NumbersCanCollide()
    ensures GenerateAccountNumber(9, 99) == GenerateAccountNumber(99, 9)
  {
    assert NatToString(9) == "9";
    assert NatToString(99) == "99" by {
      assert NatToString(99) == NatToString(9) + [DigitChar(9)];
    }
  }

  /** The draw `(int)(Math.random() * 1000)` made from a random value in [0, 1). */
  function Draw(random: real): (d: nat)
    requires 0.0 <= random < 1.0
    ensures d < 1000 && d as real <= random * 1000.0 < d as real + 1.0
  {
    (random * 1000.0).Floor
  }

  /**
   * The entity object. Its id, account number and timestamps stay unset
   * (None) until the object is first saved.
   */
  class BankAccount {
    var accountId: Option<int>
    var accountName: string
    var accountType: string
    var balance: int
    var accountNumber: Option<string>
    var createdAt: Option<nat>
    var updatedAt: Option<nat>
    var ownerId: int

    constructor (accountName: string, accountType: string, balance: int, ownerId: int)
      ensures this.accountName == accountName && this.accountType == accountType
      ensures this.balance == balance && this.ownerId == ownerId
      ensures accountId == None && accountNumber == None && createdAt == None && updatedAt == None
    {
      this.accountName := accountName;
      this.accountType := accountType;
      this.balance := balance;
      this.ownerId := ownerId;
      accountId := None;
      accountNumber := None;
      createdAt := None;
      updatedAt := None;
    }

    /**
     * The pre-persist hook: both timestamps from the clock, and a generated
     * account number unless one is already set.
     */
    method OnCreate(now: nat, millis: nat, random: real)
      requires 0.0 <= random < 1.0
      modifies this
      ensures createdAt == Some(now) && updatedAt == Some(now)
      ensures accountNumber ==
        if old(accountNumber).None? then Some(GenerateAccountNumber(millis, Draw(random))) else old(accountNumber)
      ensures accountId == old(accountId) && accountName == old(accountName) && accountType == old(accountType)
      ensures balance == old(balance) && ownerId == old(ownerId)
    {
      createdAt := Some(now);
      updatedAt := Some(now);
      if accountNumber.None? {
        accountNumber := Some(GenerateAccountNumber(millis, Draw(random)));
      }
    }

    predicate Persisted()
      reads this
    {
      accountId.Some? && accountNumber.Some? && createdAt.Some? && updatedAt.Some?
    }

    /** The row the object is stored as. */
    function Row(): (a: Account)
      reads this
      requires Persisted()
      ensures a.id == accountId.value && a.accountNumber == accountNumber.value && a.ownerId == ownerId
      ensures a.name == accountName && a.accountType == accountType && a.balance == balance
      ensures a.createdAt == createdAt.value && a.updatedAt == updatedAt.value
    {
      Account(accountId.value, accountName, accountType, balance, accountNumber.value, ownerId,
              createdAt.value, updatedAt.value)
    }
  }
}
