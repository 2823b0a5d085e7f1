/** The transaction entity: the stored row and the mutable entity object with its persistence hook. */
module Transactions {
  import opened Wrappers
  import opened JavaText

  /**
   * A stored transaction row. Amount and balance after are counts of cents;
   * the type is the constant's name as text; the date is the clock reading
   * taken when the row was first saved.
   */
  datatype Transaction = Transaction(
    id: int,
    amount: int,
    transactionType: string,
    description: Option<string>,
    balanceAfter: int,
    transactionDate: nat,
    accountId: int)

  /**
   * The constraints the entity declares on its columns: an amount of at
   * least 0.01 and a type that is not blank. Nothing in the services checks
   * them before saving.
   */
  predicate DeclaredConstraints(t: Transaction) {
    t.amount >= 1 && Trim(t.transactionType) != []
  }

  /** The entity object; id and date stay unset (None) until it is first saved. */
  class TransactionEntity {
    var transactionId: Option<int>
    var amount: int
    var transactionType: string
    var description: Option<string>
    var balanceAfter: int
    var transactionDate: Option<nat>
    var accountId: int

    constructor (amount: int, transactionType: string, description: Option<string>, balanceAfter: int, accountId: int)
      ensures this.amount == amount && this.transactionType == transactionType
      ensures this.description == description && this.balanceAfter == balanceAfter
      ensures this.accountId == accountId
      ensures transactionId == None && transactionDate == None
    {
      this.amount := amount;
      this.transactionType := transactionType;
      this.description := description;
      this.balanceAfter := balanceAfter;
      this.accountId := accountId;
      transactionId := None;
      transactionDate := None;
    }

    /** The pre-persist hook: the date is the clock reading at the first save. */
    method OnCreate(now: nat)
      modifies this`transactionDate
      ensures transactionDate == Some(now)
    {
      transactionDate := Some(now);
    }

    predicate Persisted()
      reads this
    {
      transactionId.Some? && transactionDate.Some?
    }

    /** The row the object is stored as. */
    function Row(): (t: Transaction)
      reads this
      requires Persisted()
      ensures t.id == transactionId.value && t.transactionDate == transactionDate.value
      ensures t.amount == amount && t.transactionType == transactionType && t.description == description
      ensures t.balanceAfter == balanceAfter && t.accountId == accountId
    {
      Transaction(transactionId.value, amount, transactionType, description, balanceAfter,
                  transactionDate.value, accountId)
    }
  }
}
