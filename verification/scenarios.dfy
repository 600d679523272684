/** The repository's unit tests, replayed on the model: each method builds the
    stores and a service, runs one operation and asserts what the test
    asserts. Amounts are in cents. */
module Scenarios {
  import opened Wrappers
  import opened Text
  import opened Platform
  import opened Models
  import opened Accounts
  import opened Transactions
  import opened Ledger
  import opened TransactionServices
  import Web = WebAccountServices
  import Legacy = LegacyAccountServices

  /** A runtime, both stores wired together, the ledger service, and one
      account holding `balance`. */
  method Setup(username: string, balance: Money)
    returns (rt: Runtime, accounts: AccountRepository, log: TransactionRepository,
             service: TransactionService, account: Account)
    ensures fresh(rt) && fresh(accounts) && fresh(log)
    ensures rt.Valid() && service.Valid()
    ensures service.accountRepository == accounts && service.transactionRepository == log
    ensures log.accountRepository == accounts
    ensures accounts.accounts == [account] && log.transactions == []
    ensures account.id != 0 && account.username == username && account.balance == balance
    ensures account.id < rt.nextGuid
    ensures HasAccount(accounts.accounts, account.id)
  {
    rt := new Runtime(0);
    accounts := new AccountRepository();
    log := new TransactionRepository(accounts);
    service := new TransactionService(accounts, log);
    account := NewAccount(rt, username, balance);
    var added := accounts.Add(Some(account));
    assert added == Pass;
    assert accounts.accounts[0].id == account.id;
  }

  method DepositWithValidAmountUpdatesBalance() {
    var rt, accounts, log, service, account := Setup("test123", 100 * CentsPerDollar);
    var r := service.Deposit(rt, account.id, 50 * CentsPerDollar);
    assert r == Pass;
    assert accounts.accounts == [account.(balance := 150 * CentsPerDollar)];
    assert |log.transactions| == 1;
    assert log.transactions[0].accountId == account.id && log.transactions[0].amount == 50 * CentsPerDollar
           && log.transactions[0].transactionType == TransactionType.Deposit;
  }

  method DepositWithUnknownAccountIsNotFound() {
    var rt, accounts, log, service, account := Setup("test123", 100 * CentsPerDollar);
    var unknown := rt.NewGuid();
    var r := service.Deposit(rt, unknown, 50 * CentsPerDollar);
    assert r == Fail(NotFound);
    assert accounts.accounts == [account] && log.transactions == [];
  }

  method DepositWithNegativeAmountIsArgumentError() {
    var rt, accounts, log, service, account := Setup("test123", 100 * CentsPerDollar);
    var r := service.Deposit(rt, account.id, -50 * CentsPerDollar);
    assert r == Fail(ArgumentError);
  }

  method WithdrawWithSufficientFundsUpdatesBalance() {
    var rt, accounts, log, service, account := Setup("test123", 100 * CentsPerDollar);
    var r := service.Withdraw(rt, account.id, 50 * CentsPerDollar);
    assert r == Pass;
    assert accounts.accounts == [account.(balance := 50 * CentsPerDollar)];
    assert |log.transactions| == 1;
    assert log.transactions[0].accountId == account.id && log.transactions[0].amount == 50 * CentsPerDollar
           && log.transactions[0].transactionType == TransactionType.Withdrawal;
  }

  method WithdrawWithInsufficientFundsIsInvalidOperation() {
    var rt, accounts, log, service, account := Setup("test123", 40 * CentsPerDollar);
    var r := service.Withdraw(rt, account.id, 50 * CentsPerDollar);
    assert r == Fail(InvalidOperation);
    assert accounts.accounts == [account] && log.transactions == [];
  }

  /** A transfer between the two accounts of a two-account store. */
  lemma TransferBetweenTwo(a: Account, b: Account, amount: Money, guid: nat, now: int)
    requires a.id != 0 && b.id != 0 && a.id != b.id
    ensures var r := ApplyTransfer(State([a, b], []), a.id, b.id, amount, guid, now);
            && (amount > 0 && a.balance < amount ==> r == Failure(InvalidOperation))
            && (0 < amount <= a.balance ==>
                  r == Success(State([a.(balance := a.balance - amount), b.(balance := b.balance + amount)], [
                         Transaction(guid, a.id, amount, TransactionType.Transfer, now,
                                     Some(a.balance - amount), Some(b.id), Some(b.username)),
                         Transaction(guid + 1, b.id, amount, TransactionType.Transfer, now,
                                     Some(b.balance + amount), Some(a.id), Some(a.username))])))
  {
    assert FirstById([a, b], a.id) == Some(0);
    assert FirstById([a, b], b.id) == Some(1) by {
      assert [a, b][1..] == [b];
    }
    if 0 < amount <= a.balance {
      var a', b' := a.(balance := a.balance - amount), b.(balance := b.balance + amount);
      assert [a, b][0 := a'][1 := b'] == [a', b'];
      var debit := Transaction(guid, a.id, amount, TransactionType.Transfer, now,
                               Some(a.balance - amount), Some(b.id), Some(b.username));
      var credit := Transaction(guid + 1, b.id, amount, TransactionType.Transfer, now,
                                Some(b.balance + amount), Some(a.id), Some(a.username));
      assert [] + [debit, credit] == [debit, credit];
    }
  }

  /** Two accounts, "from123" and "to123", in the store and the ledger
      service over it. */
  method SetupTwo(fromBalance: Money, toBalance: Money)
    returns (rt: Runtime, accounts: AccountRepository, log: TransactionRepository,
             service: TransactionService, a: Account, b: Account)
    ensures fresh(rt) && fresh(accounts) && fresh(log)
    ensures rt.Valid() && service.Valid()
    ensures service.accountRepository == accounts && service.transactionRepository == log
    ensures accounts.accounts == [a, b] && log.transactions == []
    ensures a.id != 0 && b.id != 0 && a.id != b.id
    ensures a.balance == fromBalance && b.balance == toBalance
  {
    rt, accounts, log, service, a := Setup("from123", fromBalance);
    b := NewAccount(rt, "to123", toBalance);
    assert !UsernameTaken(accounts.accounts, "to123") by {
      assert |FoldCase(a.username)| != |FoldCase("to123")|;
    }
    var added := accounts.Add(Some(b));
    assert added == Pass;
  }

  method TransferWithValidAccountsUpdatesBalances() {
    var rt, accounts, log, service, from, to := SetupTwo(100 * CentsPerDollar, 50 * CentsPerDollar);
    TransferBetweenTwo(from, to, 50 * CentsPerDollar, rt.nextGuid, rt.now);
    var r := service.Transfer(rt, from.id, to.id, 50 * CentsPerDollar);
    assert r == Pass;
    assert accounts.accounts == [from.(balance := 50 * CentsPerDollar), to.(balance := 100 * CentsPerDollar)];
    assert |log.transactions| == 2;
    assert log.transactions[0].accountId == from.id && log.transactions[0].amount == 50 * CentsPerDollar
           && log.transactions[0].transactionType == TransactionType.Transfer;
    assert log.transactions[1].accountId == to.id && log.transactions[1].amount == 50 * CentsPerDollar
           && log.transactions[1].transactionType == TransactionType.Transfer;
  }

  method TransferWithInsufficientFundsIsInvalidOperation() {
    var rt, accounts, log, service, from, to := SetupTwo(40 * CentsPerDollar, 50 * CentsPerDollar);
    TransferBetweenTwo(from, to, 50 * CentsPerDollar, rt.nextGuid, rt.now);
    var r := service.Transfer(rt, from.id, to.id, 50 * CentsPerDollar);
    assert r == Fail(InvalidOperation);
    assert accounts.accounts == [from, to] && log.transactions == [];
  }

  method AddStoresTransaction() {
    var rt, accounts, log, service, account := Setup("test123", 0);
    var t := NewTransaction(rt, account.id, 100 * CentsPerDollar, TransactionType.Deposit);
    var added := log.Add(Some(t));
    assert added == Pass;
    assert History(accounts.accounts, [], account.id) == Success([]);
    HistoryAppendLatest(accounts.accounts, [], t);
    assert log.transactions == [] + [t] && [t] + [] == [t];
    assert log.GetByAccountId(account.id) == Success([t]);
  }

  method AddOfUnknownAccountIsNotFound() {
    var rt, accounts, log, service, account := Setup("test123", 0);
    var unknown := rt.NewGuid();
    var t := NewTransaction(rt, unknown, 100 * CentsPerDollar, TransactionType.Deposit);
    var added := log.Add(Some(t));
    assert added == Fail(NotFound);
    assert log.transactions == [];
  }

  method HistoryOfEmptyGuidOrUnknownAccountFails() {
    var rt, accounts, log, service, account := Setup("test123", 0);
    assert log.GetByAccountId(0) == Failure(ArgumentError);
    var unknown := rt.NewGuid();
    assert log.GetByAccountId(unknown) == Failure(NotFound);
  }

  /** Two records of one account, the second stamped later: the history lists
      the second first. */
  lemma NewerOfTwoFirst(accounts: seq<Account>, t1: Transaction, t2: Transaction)
    requires t1.accountId == t2.accountId && t1.accountId != 0 && HasAccount(accounts, t1.accountId)
    requires t1.timeOfTransaction < t2.timeOfTransaction
    ensures History(accounts, [t1, t2], t1.accountId) == Success([t2, t1])
  {
    OfAccountAppend([t1], [t2], t1.accountId);
    assert OfAccount([t1], t1.accountId) == [t1] && OfAccount([t2], t1.accountId) == [t2];
    assert [t1] + [t2] == [t1, t2];
    OrderAppendLatest([t1], t2);
    assert OrderByTimeDescending([t1]) == [t1] by {
      assert [t1][1..] == [];
    }
    assert OrderByTimeDescending(OfAccount([t1, t2], t1.accountId)) == [t2, t1];
    assert LookupById(accounts, t1.accountId).Success? && LookupById(accounts, t1.accountId).value.Some?;
  }

  /** With time passing between the two records, the later one comes first. */
  method HistoryIsNewestFirst() {
    var rt, accounts, log, service, account := Setup("test123", 0);
    var t1 := NewTransaction(rt, account.id, 100 * CentsPerDollar, TransactionType.Deposit);
    rt.Advance(10);
    var t2 := NewTransaction(rt, account.id, 50 * CentsPerDollar, TransactionType.Withdrawal);
    var added := log.Add(Some(t1));
    assert added == Pass;
    added := log.Add(Some(t2));
    assert added == Pass;
    NewerOfTwoFirst(accounts.accounts, t1, t2);
    assert log.GetByAccountId(account.id) == Success([t2, t1]);
  }

  /** With no time passing between the two records, the stable sort keeps
      them in the order they were added. */
  method HistoryTieKeepsInsertionOrder() {
    var rt, accounts, log, service, account := Setup("test123", 0);
    var t1 := NewTransaction(rt, account.id, 100 * CentsPerDollar, TransactionType.Deposit);
    var t2 := NewTransaction(rt, account.id, 50 * CentsPerDollar, TransactionType.Withdrawal);
    var added := log.Add(Some(t1));
    assert added == Pass;
    added := log.Add(Some(t2));
    assert added == Pass;
    OrderTieKeepsInsertionOrder(t1, t2);
    OfAccountAppend([t1], [t2], account.id);
    assert OfAccount([t1], account.id) == [t1] && OfAccount([t2], account.id) == [t2];
    assert log.transactions == [t1] + [t2];
    assert log.GetByAccountId(account.id) == Success([t1, t2]);
  }

  /** The older service: a deposit followed by an equal withdrawal restores the
      balance and leaves two records without balances. */
  method LegacyDepositThenWithdraw() {
    var rt, accounts, log, service, account := Setup("test123", 100 * CentsPerDollar);
    var legacy := new Legacy.AccountService(accounts, log);
    var r := legacy.Deposit(rt, account.id, 50 * CentsPerDollar);
    assert r == Pass;
    assert accounts.accounts == [account.(balance := 150 * CentsPerDollar)];
    assert accounts.accounts[0].id == account.id;
    r := legacy.Withdraw(rt, account.id, 50 * CentsPerDollar);
    assert r == Pass;
    assert accounts.accounts == [account];
    assert |log.transactions| == 2 && log.transactions[0].balanceAfter.None?
           && log.transactions[1].balanceAfter.None?;
  }

  /** The two creations the account-creation scenario relies on: "alice" with
      exactly $10,000 in an empty store, then "ALICE" beside her. */
  lemma AliceThenDuplicate()
    ensures Web.CreateAccountOn([], Web.AccountCreateModel("alice", Web.BalanceLimit), 1)
              == Success(Web.Creation(Web.CreateAccountResult(true, None, Some(1)),
                                      [Account(1, "alice", Web.BalanceLimit)]))
    ensures Web.CreateAccountOn([Account(1, "alice", Web.BalanceLimit)], Web.AccountCreateModel("ALICE", 0), 2)
              == Success(Web.Refused(Web.DuplicateUsernameMessage, [Account(1, "alice", Web.BalanceLimit)]))
  {
    assert !IsWhiteSpace('a') && !IsWhiteSpace('A');
    var alice := Account(1, "alice", Web.BalanceLimit);
    assert !UsernameTaken([], "alice");
    assert [] + [alice] == [alice];
    assert EqualsIgnoreCase([alice][0].username, "ALICE") by {
      assert FoldCase("alice") == FoldCase("ALICE");
    }
    assert UsernameTaken([alice], "ALICE");
  }

  /** Account creation: exactly $10,000 is accepted, a second account under the
      same name in other letters is refused, and more than $10,000 is refused
      before the name is looked at. */
  method CreateAccountLimitAndDuplicate() {
    var rt := new Runtime(0);
    var accounts := new AccountRepository();
    var service := new Web.AccountService(accounts);
    AliceThenDuplicate();
    var r := service.CreateAccount(rt, Web.AccountCreateModel("alice", Web.BalanceLimit));
    assert r == Success(Web.CreateAccountResult(true, None, Some(1)));
    assert accounts.accounts == [Account(1, "alice", Web.BalanceLimit)];
    r := service.CreateAccount(rt, Web.AccountCreateModel("ALICE", 0));
    assert r == Success(Web.CreateAccountResult(false, Some(Web.DuplicateUsernameMessage), None));
    r := service.CreateAccount(rt, Web.AccountCreateModel("   ", Web.BalanceLimit + 1));
    assert r == Success(Web.CreateAccountResult(false, Some(Web.BalanceLimitMessage), None));
    assert |accounts.accounts| == 1;
  }
}
