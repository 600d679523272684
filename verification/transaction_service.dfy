/** The ledger service: Deposit, Withdraw and Transfer over the two stores,
    and the transaction history of an account. */
module TransactionServices {
  import opened Wrappers
  import opened Platform
  import opened Models
  import opened Accounts
  import opened Transactions
  import opened Ledger

  class TransactionService {
    const accountRepository: AccountRepository
    const transactionRepository: TransactionRepository

    /** The transaction store consults the same account store as the service,
        as the scoped registration of one AccountRepository arranges. */
    ghost predicate Valid() {
      transactionRepository.accountRepository == accountRepository
    }

    /** The contents of both stores. */
    ghost function Contents(): State
      reads accountRepository, transactionRepository
    {
      State(accountRepository.accounts, transactionRepository.transactions)
    }

    constructor (accountRepository: AccountRepository, transactionRepository: TransactionRepository)
      requires transactionRepository.accountRepository == accountRepository
      ensures Valid()
      ensures this.accountRepository == accountRepository && this.transactionRepository == transactionRepository
    {
      this.accountRepository := accountRepository;
      this.transactionRepository := transactionRepository;
    }

    /** Deposit: the record is appended with the balance it will leave, then
        the raised balance is committed. */
    method Deposit(rt: Runtime, accountId: nat, amount: Money) returns (r: Outcome)
      requires Valid() && rt.Valid()
      modifies accountRepository, transactionRepository, rt
      ensures Valid() && rt.Valid() && rt.now == old(rt.now)
      ensures var spec := ApplyDeposit(old(Contents()), accountId, amount, old(rt.nextGuid), old(rt.now));
              && r == OutcomeOf(spec)
              && Contents() == (if spec.Success? then spec.value else old(Contents()))
              && rt.nextGuid == old(rt.nextGuid) + (if spec.Success? then 1 else 0)
    {
      if amount <= 0 {
        return Fail(ArgumentError);
      }
      var found := accountRepository.GetById(accountId);
      if found.Failure? {
        return Fail(found.error);
      }
      if found.value.None? {
        return Fail(NotFound);
      }
      var account := found.value.value;
      var transaction := NewTransaction(rt, accountId, amount, TransactionType.Deposit);
      transaction := transaction.(balanceAfter := Some(account.balance + amount));
      var added := transactionRepository.Add(Some(transaction));
      assert added == Pass;
      account := account.(balance := account.balance + amount);
      var updated := accountRepository.Update(Some(account));
      assert updated == Pass;
      r := Pass;
    }

    /** Withdraw: as Deposit, with the funds checked first. */
    method Withdraw(rt: Runtime, accountId: nat, amount: Money) returns (r: Outcome)
      requires Valid() && rt.Valid()
      modifies accountRepository, transactionRepository, rt
      ensures Valid() && rt.Valid() && rt.now == old(rt.now)
      ensures var spec := ApplyWithdraw(old(Contents()), accountId, amount, old(rt.nextGuid), old(rt.now));
              && r == OutcomeOf(spec)
              && Contents() == (if spec.Success? then spec.value else old(Contents()))
              && rt.nextGuid == old(rt.nextGuid) + (if spec.Success? then 1 else 0)
    {
      if amount <= 0 {
        return Fail(ArgumentError);
      }
      var found := accountRepository.GetById(accountId);
      if found.Failure? {
        return Fail(found.error);
      }
      if found.value.None? {
        return Fail(NotFound);
      }
      var account := found.value.value;
      if account.balance < amount {
        return Fail(InvalidOperation);
      }
      var transaction := NewTransaction(rt, accountId, amount, TransactionType.Withdrawal);
      transaction := transaction.(balanceAfter := Some(account.balance - amount));
      var added := transactionRepository.Add(Some(transaction));
      assert added == Pass;
      account := account.(balance := account.balance - amount);
      var updated := accountRepository.Update(Some(account));
      assert updated == Pass;
      r := Pass;
    }

    /** Transfer: both records are appended, then both balances committed. */
    method Transfer(rt: Runtime, fromAccountId: nat, toAccountId: nat, amount: Money) returns (r: Outcome)
      requires Valid() && rt.Valid()
      modifies accountRepository, transactionRepository, rt
      ensures Valid() && rt.Valid() && rt.now == old(rt.now)
      ensures var spec := ApplyTransfer(old(Contents()), fromAccountId, toAccountId, amount,
                                        old(rt.nextGuid), old(rt.now));
              && r == OutcomeOf(spec)
              && Contents() == (if spec.Success? then spec.value else old(Contents()))
              && rt.nextGuid == old(rt.nextGuid) + (if spec.Success? then 2 else 0)
    {
      if amount <= 0 {
        return Fail(ArgumentError);
      }
      if fromAccountId == toAccountId {
        return Fail(ArgumentError);
      }
      var foundFrom := accountRepository.GetById(fromAccountId);
      if foundFrom.Failure? {
        return Fail(foundFrom.error);
      }
      if foundFrom.value.None? {
        return Fail(NotFound);
      }
      var foundTo := accountRepository.GetById(toAccountId);
      if foundTo.Failure? {
        return Fail(foundTo.error);
      }
      if foundTo.value.None? {
        return Fail(NotFound);
      }
      var fromAccount := foundFrom.value.value;
      var toAccount := foundTo.value.value;
      if fromAccount.balance < amount {
        return Fail(InvalidOperation);
      }
      CommitTransfer(rt, fromAccount, toAccount, amount);
      r := Pass;
    }

    /** The committing half of Transfer, once every check has passed: both
        records are appended, then both balances are committed. */
    method CommitTransfer(rt: Runtime, source: Account, destination: Account, amount: Money)
      requires Valid() && rt.Valid()
      requires amount > 0 && source.id != 0 && destination.id != 0 && source.id != destination.id
      requires HasAccount(accountRepository.accounts, source.id)
      requires HasAccount(accountRepository.accounts, destination.id)
      requires source == accountRepository.accounts[FirstById(accountRepository.accounts, source.id).value]
      requires destination == accountRepository.accounts[FirstById(accountRepository.accounts, destination.id).value]
      requires source.balance >= amount
      modifies accountRepository, transactionRepository, rt
      ensures Valid() && rt.Valid() && rt.now == old(rt.now) && rt.nextGuid == old(rt.nextGuid) + 2
      ensures var spec := ApplyTransfer(old(Contents()), source.id, destination.id, amount,
                                        old(rt.nextGuid), old(rt.now));
              spec.Success? && Contents() == spec.value
    {
      TransferSucceeds(Contents(), source.id, destination.id, amount, rt.nextGuid, rt.now);
      RecordTransfer(rt, source, destination, amount);
      CommitBalances(source.(balance := source.balance - amount), destination.(balance := destination.balance + amount));
    }

    /** The two Transfer records: the source's, naming the destination, then
        the destination's, naming the source, each with its new balance. */
    method RecordTransfer(rt: Runtime, source: Account, destination: Account, amount: Money)
      requires Valid() && rt.Valid()
      requires source.id != 0 && destination.id != 0
      requires HasAccount(accountRepository.accounts, source.id)
      requires HasAccount(accountRepository.accounts, destination.id)
      modifies transactionRepository, rt
      ensures rt.Valid() && rt.now == old(rt.now) && rt.nextGuid == old(rt.nextGuid) + 2
      ensures transactionRepository.transactions == old(transactionRepository.transactions) + [
                Transaction(old(rt.nextGuid), source.id, amount, TransactionType.Transfer, rt.now,
                            Some(source.balance - amount), Some(destination.id), Some(destination.username)),
                Transaction(old(rt.nextGuid) + 1, destination.id, amount, TransactionType.Transfer, rt.now,
                            Some(destination.balance + amount), Some(source.id), Some(source.username))]
    {
      ghost var log := transactionRepository.transactions;
      var debit := NewTransaction(rt, source.id, amount, TransactionType.Transfer);
      debit := debit.(balanceAfter := Some(source.balance - amount),
                      receiverAccountId := Some(destination.id),
                      receiverAccountUsername := Some(destination.username));
      var added := transactionRepository.Add(Some(debit));
      assert added == Pass;

      var credit := NewTransaction(rt, destination.id, amount, TransactionType.Transfer);
      credit := credit.(balanceAfter := Some(destination.balance + amount),
                        receiverAccountId := Some(source.id),
                        receiverAccountUsername := Some(source.username));
      added := transactionRepository.Add(Some(credit));
      assert added == Pass;
      assert transactionRepository.transactions == log + [debit, credit];
    }

    /** The two balance updates: each replaces the entry with its id. */
    method CommitBalances(source: Account, destination: Account)
      requires source.id != 0 && destination.id != 0 && source.id != destination.id
      requires HasAccount(accountRepository.accounts, source.id)
      requires HasAccount(accountRepository.accounts, destination.id)
      modifies accountRepository
      ensures accountRepository.accounts ==
                old(accountRepository.accounts)[FirstById(old(accountRepository.accounts), source.id).value := source]
                                               [FirstById(old(accountRepository.accounts), destination.id).value := destination]
    {
      ghost var before := accountRepository.accounts;
      var updated := accountRepository.Update(Some(source));
      assert updated == Pass;
      assert FirstById(accountRepository.accounts, destination.id) == FirstById(before, destination.id) by {
        assert SameIds(before, accountRepository.accounts);
        FirstByIdSameIds(before, accountRepository.accounts, destination.id);
      }
      updated := accountRepository.Update(Some(destination));
      assert updated == Pass;
    }

    /** GetTransactionHistory: the store's answer, errors included, unchanged. */
    function GetTransactionHistory(accountId: nat): (r: Result<seq<Transaction>>)
      reads this, accountRepository, transactionRepository, transactionRepository.accountRepository
      requires Valid()
      ensures r == History(Contents().accounts, Contents().log, accountId)
    {
      transactionRepository.GetByAccountId(accountId)
    }
  }
}
