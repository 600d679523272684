/** The older account service: Deposit and Withdraw over the two stores, with
    records that carry no balance and name no other account. Its transaction
    store is whatever the caller hands over, so the account list that store
    consults (`known` below) need not be the one the service updates. */
module LegacyAccountServices {
  import opened Wrappers
  import opened Platform
  import opened Models
  import opened Accounts
  import opened Transactions
  import opened Ledger

  /** Whether the service gets as far as building the record, which draws an
      identifier: the amount is positive and the account exists. */
  predicate DepositBuildsRecord(accounts: seq<Account>, accountId: nat, amount: Money) {
    amount > 0 && accountId != 0 && HasAccount(accounts, accountId)
  }

  /** As for Deposit, and the funds suffice. */
  predicate WithdrawBuildsRecord(accounts: seq<Account>, accountId: nat, amount: Money) {
    DepositBuildsRecord(accounts, accountId, amount) && BalanceOf(accounts, accountId) >= amount
  }

  /** Deposit: a non-positive amount, then Guid.Empty, are ArgumentError; an
      account unknown to the service's store, then one unknown to the store the
      transaction store consults, are NotFound. Otherwise a Deposit record is
      appended and the balance raised by the record's amount. */
  function ApplyLegacyDeposit(s: State, known: seq<Account>, accountId: nat, amount: Money, guid: nat, now: int)
    : Result<State>
  {
    if amount <= 0 || accountId == 0 then Failure(ArgumentError)
    else match FirstById(s.accounts, accountId)
      case None => Failure(NotFound)
      case Some(k) =>
        if !HasAccount(known, accountId) then Failure(NotFound)
        else
          var record := Transaction(guid, accountId, amount, TransactionType.Deposit, now, None, None, None);
          var account := s.accounts[k].(balance := s.accounts[k].balance + record.amount);
          Success(State(s.accounts[k := account], s.log + [record]))
  }

  /** What the older Deposit does, stated on the stores. */
  lemma LegacyDepositEffect(s: State, known: seq<Account>, accountId: nat, amount: Money, guid: nat, now: int)
    returns (r: Result<State>)
    ensures r == ApplyLegacyDeposit(s, known, accountId, amount, guid, now)
    ensures r.Failure? <==> !DepositBuildsRecord(s.accounts, accountId, amount) || !HasAccount(known, accountId)
    ensures r.Failure? ==> r.error == if amount <= 0 || accountId == 0 then ArgumentError else NotFound
    ensures r.Success? ==>
              var k := FirstById(s.accounts, accountId).value;
              var after := r.value.accounts;
              && OnlyBalancesChanged(s.accounts, after)
              && after[k].balance == s.accounts[k].balance + amount
              && (forall i :: 0 <= i < |after| && i != k ==> after[i] == s.accounts[i])
              && Total(after) == Total(s.accounts) + amount
              && r.value.log == s.log + [Transaction(guid, accountId, amount, TransactionType.Deposit, now,
                                                     None, None, None)]
  {
    r := ApplyLegacyDeposit(s, known, accountId, amount, guid, now);
    if r.Success? {
      var k := FirstById(s.accounts, accountId).value;
      TotalUpdate(s.accounts, k, r.value.accounts[k]);
    }
  }

  /** Withdraw: as Deposit, with a balance below the amount InvalidOperation
      ("Insufficient funds") before anything is recorded. Otherwise a
      Withdrawal record is appended and the balance lowered by its amount. */
  function ApplyLegacyWithdraw(s: State, known: seq<Account>, accountId: nat, amount: Money, guid: nat, now: int)
    : Result<State>
  {
    if amount <= 0 || accountId == 0 then Failure(ArgumentError)
    else match FirstById(s.accounts, accountId)
      case None => Failure(NotFound)
      case Some(k) =>
        if s.accounts[k].balance < amount then Failure(InvalidOperation)
        else if !HasAccount(known, accountId) then Failure(NotFound)
        else
          var record := Transaction(guid, accountId, amount, TransactionType.Withdrawal, now, None, None, None);
          var account := s.accounts[k].(balance := s.accounts[k].balance - record.amount);
          Success(State(s.accounts[k := account], s.log + [record]))
  }

  /** What the older Withdraw does, stated on the stores. */
  lemma LegacyWithdrawEffect(s: State, known: seq<Account>, accountId: nat, amount: Money, guid: nat, now: int)
    returns (r: Result<State>)
    ensures r == ApplyLegacyWithdraw(s, known, accountId, amount, guid, now)
    ensures r.Failure? <==> !WithdrawBuildsRecord(s.accounts, accountId, amount) || !HasAccount(known, accountId)
    ensures r.Failure? ==> r.error == if amount <= 0 || accountId == 0 then ArgumentError
                                      else if !HasAccount(s.accounts, accountId) then NotFound
                                      else if BalanceOf(s.accounts, accountId) < amount then InvalidOperation
                                      else NotFound
    ensures r.Success? ==>
              var k := FirstById(s.accounts, accountId).value;
              var after := r.value.accounts;
              && OnlyBalancesChanged(s.accounts, after)
              && after[k].balance == s.accounts[k].balance - amount
              && after[k].balance >= 0
              && (forall i :: 0 <= i < |after| && i != k ==> after[i] == s.accounts[i])
              && Total(after) == Total(s.accounts) - amount
              && r.value.log == s.log + [Transaction(guid, accountId, amount, TransactionType.Withdrawal, now,
                                                     None, None, None)]
  {
    r := ApplyLegacyWithdraw(s, known, accountId, amount, guid, now);
    if r.Success? {
      var k := FirstById(s.accounts, accountId).value;
      TotalUpdate(s.accounts, k, r.value.accounts[k]);
    }
  }

  /** With the transaction store consulting the service's own account store,
      the older Deposit is the ledger's Deposit with the balance left out of
      the record: the same outcome, the same accounts, the same record
      otherwise. */
  lemma LegacyDepositAsLedger(s: State, accountId: nat, amount: Money, guid: nat, now: int)
    ensures var l := ApplyLegacyDeposit(s, s.accounts, accountId, amount, guid, now);
            var d := ApplyDeposit(s, accountId, amount, guid, now);
            && OutcomeOf(l) == OutcomeOf(d)
            && (l.Success? ==> l.value.accounts == d.value.accounts
                               && l.value.log == s.log + [d.value.log[|s.log|].(balanceAfter := None)])
  {
    var l := LegacyDepositEffect(s, s.accounts, accountId, amount, guid, now);
    DepositErrors(s, accountId, amount, guid, now);
    if l.Success? {
      DepositEffect(s, accountId, amount, guid, now);
      var d := ApplyDeposit(s, accountId, amount, guid, now);
      var k := FirstById(s.accounts, accountId).value;
      assert l.value.accounts[k] == d.value.accounts[k];
    }
  }

  /** The same for Withdraw. */
  lemma LegacyWithdrawAsLedger(s: State, accountId: nat, amount: Money, guid: nat, now: int)
    ensures var l := ApplyLegacyWithdraw(s, s.accounts, accountId, amount, guid, now);
            var w := ApplyWithdraw(s, accountId, amount, guid, now);
            && OutcomeOf(l) == OutcomeOf(w)
            && (l.Success? ==> l.value.accounts == w.value.accounts
                               && l.value.log == s.log + [w.value.log[|s.log|].(balanceAfter := None)])
  {
    var l := LegacyWithdrawEffect(s, s.accounts, accountId, amount, guid, now);
    WithdrawErrors(s, accountId, amount, guid, now);
    if l.Success? {
      WithdrawEffect(s, accountId, amount, guid, now);
      var w := ApplyWithdraw(s, accountId, amount, guid, now);
      var k := FirstById(s.accounts, accountId).value;
      assert l.value.accounts[k] == w.value.accounts[k];
    }
  }

  /** Deposit of an amount followed by a Withdraw of the same amount from the
      same account: the Withdraw succeeds exactly when the balance was not
      negative to begin with, and then the accounts are as they were and the
      log holds the two records. */
  lemma LegacyDepositThenWithdraw(s: State, accountId: nat, amount: Money, g1: nat, t1: int, g2: nat, t2: int)
    requires ApplyLegacyDeposit(s, s.accounts, accountId, amount, g1, t1).Success?
    ensures var d := ApplyLegacyDeposit(s, s.accounts, accountId, amount, g1, t1).value;
            var w := ApplyLegacyWithdraw(d, d.accounts, accountId, amount, g2, t2);
            && (w.Success? <==> BalanceOf(s.accounts, accountId) >= 0)
            && (w.Success? ==>
                  && w.value.accounts == s.accounts
                  && w.value.log == s.log + [
                       Transaction(g1, accountId, amount, TransactionType.Deposit, t1, None, None, None),
                       Transaction(g2, accountId, amount, TransactionType.Withdrawal, t2, None, None, None)])
  {
    var d := LegacyDepositEffect(s, s.accounts, accountId, amount, g1, t1);
    BalanceChangesKeepLookups(s.accounts, d.value.accounts);
    var w := LegacyWithdrawEffect(d.value, d.value.accounts, accountId, amount, g2, t2);
    if w.Success? {
      var k := FirstById(s.accounts, accountId).value;
      assert w.value.accounts[k] == s.accounts[k];
      assert forall i :: 0 <= i < |s.accounts| ==> w.value.accounts[i] == s.accounts[i];
    }
  }

  /** The older Deposit and Withdraw keep the stores consistent when the
      transaction store consults the service's own account store. */
  lemma LegacyDepositKeepsConsistent(s: State, accountId: nat, amount: Money, guid: nat, now: int)
    requires Consistent(s, guid, now) && ApplyLegacyDeposit(s, s.accounts, accountId, amount, guid, now).Success?
    ensures Consistent(ApplyLegacyDeposit(s, s.accounts, accountId, amount, guid, now).value, guid + 1, now)
  {
    LegacyDepositAsLedger(s, accountId, amount, guid, now);
    DepositKeepsConsistent(s, accountId, amount, guid, now);
    var d := ApplyDeposit(s, accountId, amount, guid, now).value;
    var l := ApplyLegacyDeposit(s, s.accounts, accountId, amount, guid, now).value;
    assert d.log == s.log + [d.log[|s.log|]];
    assert forall i :: 0 <= i < |l.log| ==> l.log[i].id == d.log[i].id && l.log[i].accountId == d.log[i].accountId
                                            && l.log[i].amount == d.log[i].amount
                                            && l.log[i].timeOfTransaction == d.log[i].timeOfTransaction;
  }

  lemma LegacyWithdrawKeepsConsistent(s: State, accountId: nat, amount: Money, guid: nat, now: int)
    requires Consistent(s, guid, now) && ApplyLegacyWithdraw(s, s.accounts, accountId, amount, guid, now).Success?
    ensures Consistent(ApplyLegacyWithdraw(s, s.accounts, accountId, amount, guid, now).value, guid + 1, now)
  {
    LegacyWithdrawAsLedger(s, accountId, amount, guid, now);
    WithdrawKeepsConsistent(s, accountId, amount, guid, now);
    var w := ApplyWithdraw(s, accountId, amount, guid, now).value;
    var l := ApplyLegacyWithdraw(s, s.accounts, accountId, amount, guid, now).value;
    assert w.log == s.log + [w.log[|s.log|]];
    assert forall i :: 0 <= i < |l.log| ==> l.log[i].id == w.log[i].id && l.log[i].accountId == w.log[i].accountId
                                            && l.log[i].amount == w.log[i].amount
                                            && l.log[i].timeOfTransaction == w.log[i].timeOfTransaction;
  }

  class AccountService {
    const accountRepository: AccountRepository
    const transactionRepository: TransactionRepository

    /** The contents of both stores. */
    ghost function Contents(): State
      reads accountRepository, transactionRepository
    {
      State(accountRepository.accounts, transactionRepository.transactions)
    }

    constructor (accountRepository: AccountRepository, transactionRepository: TransactionRepository)
      ensures this.accountRepository == accountRepository && this.transactionRepository == transactionRepository
    {
      this.accountRepository := accountRepository;
      this.transactionRepository := transactionRepository;
    }

    /** Deposit: the record is appended first, then the raised balance is
        committed. */
    method Deposit(rt: Runtime, accountId: nat, amount: Money) returns (r: Outcome)
      requires rt.Valid()
      modifies accountRepository, transactionRepository, rt
      ensures rt.Valid() && rt.now == old(rt.now)
      ensures var spec := ApplyLegacyDeposit(old(Contents()), old(transactionRepository.accountRepository.accounts),
                                             accountId, amount, old(rt.nextGuid), old(rt.now));
              && r == OutcomeOf(spec)
              && Contents() == (if spec.Success? then spec.value else old(Contents()))
              && rt.nextGuid == old(rt.nextGuid)
                                + (if DepositBuildsRecord(old(accountRepository.accounts), accountId, amount) then 1 else 0)
    {
      if amount <= 0 {
        return Fail(ArgumentError);
      }
      var found := accountRepository.GetById(accountId);
      if found.Failure? {
        return Fail(found.error);
      }
      if found.value.None? {
        return Fail(NotFound);
      }
      var account := found.value.value;
      var transaction := NewTransaction(rt, accountId, amount, TransactionType.Deposit);
      var added := transactionRepository.Add(Some(transaction));
      if added.Fail? {
        return added;
      }
      account := account.(balance := account.balance + transaction.amount);
      var updated := accountRepository.Update(Some(account));
      assert updated == Pass;
      r := Pass;
    }

    /** Withdraw: the funds are checked, the record is appended, then the
        lowered balance is committed. */
    method Withdraw(rt: Runtime, accountId: nat, amount: Money) returns (r: Outcome)
      requires rt.Valid()
      modifies accountRepository, transactionRepository, rt
      ensures rt.Valid() && rt.now == old(rt.now)
      ensures var spec := ApplyLegacyWithdraw(old(Contents()), old(transactionRepository.accountRepository.accounts),
                                              accountId, amount, old(rt.nextGuid), old(rt.now));
              && r == OutcomeOf(spec)
              && Contents() == (if spec.Success? then spec.value else old(Contents()))
              && rt.nextGuid == old(rt.nextGuid)
                                + (if WithdrawBuildsRecord(old(accountRepository.accounts), accountId, amount) then 1 else 0)
    {
      if amount <= 0 {
        return Fail(ArgumentError);
      }
      var found := accountRepository.GetById(accountId);
      if found.Failure? {
        return Fail(found.error);
      }
      if found.value.None? {
        return Fail(NotFound);
      }
      var account := found.value.value;
      if account.balance < amount {
        return Fail(InvalidOperation);
      }
      var transaction := NewTransaction(rt, accountId, amount, TransactionType.Withdrawal);
      var added := transactionRepository.Add(Some(transaction));
      if added.Fail? {
        return added;
      }
      account := account.(balance := account.balance - transaction.amount);
      var updated := accountRepository.Update(Some(account));
      assert updated == Pass;
      r := Pass;
    }
  }
}
