/** The records the stores hold. */
module Models {
  import opened Wrappers
  import opened Platform

  /** Money is `decimal`, which is exact for the sums and differences the ledger
      takes; it is held here as a whole number of cents. */
  type Money = int

  const CentsPerDollar: Money := 100

  /** An account. `id` and `username` are init-only; `balance` has a public
      setter, which the model writes as the update `a.(balance := b)`. */
  datatype Account = Account(id: nat, username: string, balance: Money)

  /** Deposit and Withdrawal are declared; Transfer is used by the ledger
      service and is added here. */
  datatype TransactionType = Deposit | Withdrawal | Transfer

  /** A transaction: every property is init-only, so a value is never changed
      once built. `balanceAfter`, `receiverAccountId` and
      `receiverAccountUsername` are set by object initialisers in the ledger
      service and are absent otherwise. */
  datatype Transaction = Transaction(
    id: nat,
    accountId: nat,
    amount: Money,
    transactionType: TransactionType,
    timeOfTransaction: int,
    balanceAfter: Option<Money>,
    receiverAccountId: Option<nat>,
    receiverAccountUsername: Option<string>)

  /** `new Account(username, initialBalance)`: a fresh id, the given username
      and balance; the initial balance defaults to 0. */
  method NewAccount(rt: Runtime, username: string, initialBalance: Money := 0) returns (a: Account)
    requires rt.Valid()
    modifies rt
    ensures rt.Valid() && rt.nextGuid == old(rt.nextGuid) + 1 && rt.now == old(rt.now)
    ensures a == Account(old(rt.nextGuid), username, initialBalance) && a.id != 0
  {
    var id := rt.NewGuid();
    a := Account(id, username, initialBalance);
  }

  /** `new Transaction(accountId, amount, type)`: a fresh id, the clock's
      current time, the three arguments copied, the optional fields absent. */
  method NewTransaction(rt: Runtime, accountId: nat, amount: Money, transactionType: TransactionType)
    returns (t: Transaction)
    requires rt.Valid()
    modifies rt
    ensures rt.Valid() && rt.nextGuid == old(rt.nextGuid) + 1 && rt.now == old(rt.now)
    ensures t == Transaction(old(rt.nextGuid), accountId, amount, transactionType, rt.now, None, None, None)
    ensures t.id != 0
  {
    var id := rt.NewGuid();
    t := Transaction(id, accountId, amount, transactionType, rt.now, None, None, None);
  }
}
