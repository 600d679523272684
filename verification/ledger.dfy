/** What Deposit, Withdraw and Transfer of the ledger service do to the two
    stores, stated on their contents: the list of accounts and the log. The
    service's methods are proved to have exactly these effects; the lemmas
    below state what follows from them. */
module Ledger {
  import opened Wrappers
  import opened Models
  import opened Accounts
  import opened Transactions

  datatype State = State(accounts: seq<Account>, log: seq<Transaction>)

  function OutcomeOf(r: Result<State>): Outcome {
    if r.Success? then Pass else Fail(r.error)
  }

  /** The balance of the account GetById finds. */
  function BalanceOf(accounts: seq<Account>, id: nat): Money
    requires HasAccount(accounts, id)
  {
    accounts[FirstById(accounts, id).value].balance
  }

  /** The money held by all accounts together. */
  function Total(accounts: seq<Account>): Money {
    if accounts == [] then 0 else accounts[0].balance + Total(accounts[1..])
  }

  lemma {:induction false} TotalUpdate(accounts: seq<Account>, i: nat, a: Account)
    requires i < |accounts|
    ensures Total(accounts[i := a]) == Total(accounts) - accounts[i].balance + a.balance
  {
    if i > 0 {
      assert accounts[i := a][1..] == accounts[1..][i - 1 := a];
      TotalUpdate(accounts[1..], i - 1, a);
    }
  }

  /** Same length and the same id and username at every position: at most the
      balances differ. */
  predicate OnlyBalancesChanged(before: seq<Account>, after: seq<Account>) {
    |before| == |after|
    && forall i :: 0 <= i < |before| ==> after[i].id == before[i].id && after[i].username == before[i].username
  }

  predicate NonNegative(accounts: seq<Account>) {
    forall i :: 0 <= i < |accounts| ==> accounts[i].balance >= 0
  }

  /** Deposit: a non-positive amount, then Guid.Empty, are ArgumentError, an
      unknown account is NotFound. Otherwise the balance rises by the amount and
      one Deposit record carrying the new balance is appended. */
  function ApplyDeposit(s: State, accountId: nat, amount: Money, guid: nat, now: int): Result<State>
  {
    if amount <= 0 || accountId == 0 then Failure(ArgumentError)
    else match FirstById(s.accounts, accountId)
      case None => Failure(NotFound)
      case Some(k) =>
        var account := s.accounts[k].(balance := s.accounts[k].balance + amount);
        var record := Transaction(guid, accountId, amount, TransactionType.Deposit, now,
                                  Some(account.balance), None, None);
        Success(State(s.accounts[k := account], s.log + [record]))
  }

  /** When Deposit fails, and with which error. */
  lemma DepositErrors(s: State, accountId: nat, amount: Money, guid: nat, now: int)
    ensures var r := ApplyDeposit(s, accountId, amount, guid, now);
            && (r.Failure? <==> amount <= 0 || accountId == 0 || !HasAccount(s.accounts, accountId))
            && (r.Failure? ==> r.error == if amount <= 0 || accountId == 0 then ArgumentError else NotFound)
  {
  }

  /** What a successful Deposit does to the stores. */
  lemma DepositEffect(s: State, accountId: nat, amount: Money, guid: nat, now: int)
    requires ApplyDeposit(s, accountId, amount, guid, now).Success?
    ensures var r := ApplyDeposit(s, accountId, amount, guid, now);
            var k := FirstById(s.accounts, accountId).value;
            var after := r.value.accounts;
            && amount > 0 && HasAccount(s.accounts, accountId)
            && OnlyBalancesChanged(s.accounts, after)
            && after[k].balance == s.accounts[k].balance + amount
            && (forall i :: 0 <= i < |after| && i != k ==> after[i] == s.accounts[i])
            && r.value.log == s.log + [Transaction(guid, accountId, amount, TransactionType.Deposit, now,
                                                   Some(after[k].balance), None, None)]
  {
  }

  /** A successful Deposit raises the money held in all accounts by the amount. */
  lemma DepositRaisesTotal(s: State, accountId: nat, amount: Money, guid: nat, now: int)
    requires ApplyDeposit(s, accountId, amount, guid, now).Success?
    ensures Total(ApplyDeposit(s, accountId, amount, guid, now).value.accounts) == Total(s.accounts) + amount
  {
    var k := FirstById(s.accounts, accountId).value;
    TotalUpdate(s.accounts, k, ApplyDeposit(s, accountId, amount, guid, now).value.accounts[k]);
  }

  /** Withdraw: as Deposit, and a balance below the amount is InvalidOperation
      ("Insufficient funds"). Otherwise the balance falls by the amount, so it
      stays non-negative, and one Withdrawal record carrying it is appended. */
  function ApplyWithdraw(s: State, accountId: nat, amount: Money, guid: nat, now: int): Result<State>
  {
    if amount <= 0 || accountId == 0 then Failure(ArgumentError)
    else match FirstById(s.accounts, accountId)
      case None => Failure(NotFound)
      case Some(k) =>
        if s.accounts[k].balance < amount then Failure(InvalidOperation)
        else
          var account := s.accounts[k].(balance := s.accounts[k].balance - amount);
          var record := Transaction(guid, accountId, amount, TransactionType.Withdrawal, now,
                                    Some(account.balance), None, None);
          Success(State(s.accounts[k := account], s.log + [record]))
  }

  /** When Withdraw fails, and with which error. */
  lemma WithdrawErrors(s: State, accountId: nat, amount: Money, guid: nat, now: int)
    ensures var r := ApplyWithdraw(s, accountId, amount, guid, now);
            && (r.Failure? <==> amount <= 0 || accountId == 0 || !HasAccount(s.accounts, accountId)
                                || BalanceOf(s.accounts, accountId) < amount)
            && (r.Failure? ==> r.error == if amount <= 0 || accountId == 0 then ArgumentError
                                          else if !HasAccount(s.accounts, accountId) then NotFound
                                          else InvalidOperation)
  {
  }

  /** What a successful Withdraw does to the stores. */
  lemma WithdrawEffect(s: State, accountId: nat, amount: Money, guid: nat, now: int)
    requires ApplyWithdraw(s, accountId, amount, guid, now).Success?
    ensures var r := ApplyWithdraw(s, accountId, amount, guid, now);
            var k := FirstById(s.accounts, accountId).value;
            var after := r.value.accounts;
            && amount > 0 && HasAccount(s.accounts, accountId)
            && OnlyBalancesChanged(s.accounts, after)
            && after[k].balance == s.accounts[k].balance - amount
            && after[k].balance >= 0
            && (forall i :: 0 <= i < |after| && i != k ==> after[i] == s.accounts[i])
            && r.value.log == s.log + [Transaction(guid, accountId, amount, TransactionType.Withdrawal, now,
                                                   Some(after[k].balance), None, None)]
  {
  }

  /** A successful Withdraw lowers the money held in all accounts by the amount. */
  lemma WithdrawLowersTotal(s: State, accountId: nat, amount: Money, guid: nat, now: int)
    requires ApplyWithdraw(s, accountId, amount, guid, now).Success?
    ensures Total(ApplyWithdraw(s, accountId, amount, guid, now).value.accounts) == Total(s.accounts) - amount
  {
    var k := FirstById(s.accounts, accountId).value;
    TotalUpdate(s.accounts, k, ApplyWithdraw(s, accountId, amount, guid, now).value.accounts[k]);
  }

  /** Transfer: a non-positive amount, then a transfer to the same account,
      then Guid.Empty as source, are ArgumentError; an unknown source is
      NotFound; Guid.Empty as destination is ArgumentError; an unknown
      destination is NotFound; a source balance below the amount is
      InvalidOperation. Otherwise the amount moves from source to destination,
      the total is conserved, and two Transfer records are appended: the
      source's (first identifier) and the destination's (second), each naming
      the other account and carrying its own new balance. */
  function ApplyTransfer(s: State, fromId: nat, toId: nat, amount: Money, guid: nat, now: int): Result<State>
  {
    if amount <= 0 || fromId == toId || fromId == 0 then Failure(ArgumentError)
    else match FirstById(s.accounts, fromId)
      case None => Failure(NotFound)
      case Some(i) =>
        if toId == 0 then Failure(ArgumentError)
        else match FirstById(s.accounts, toId)
          case None => Failure(NotFound)
          case Some(j) =>
            var source := s.accounts[i];
            var destination := s.accounts[j];
            if source.balance < amount then Failure(InvalidOperation)
            else
              var debit := Transaction(guid, fromId, amount, TransactionType.Transfer, now,
                                       Some(source.balance - amount), Some(toId), Some(destination.username));
              var credit := Transaction(guid + 1, toId, amount, TransactionType.Transfer, now,
                                        Some(destination.balance + amount), Some(fromId), Some(source.username));
              var debited := s.accounts[i := source.(balance := source.balance - amount)];
              Success(State(debited[j := destination.(balance := destination.balance + amount)],
                            s.log + [debit, credit]))
  }

  /** When Transfer fails, and with which error: the checks come in the order
      amount, same account, source, destination, funds. */
  lemma TransferErrors(s: State, fromId: nat, toId: nat, amount: Money, guid: nat, now: int)
    ensures var r := ApplyTransfer(s, fromId, toId, amount, guid, now);
            && (fromId == toId ==> r == Failure(ArgumentError))
            && (r.Failure? <==> amount <= 0 || fromId == toId || fromId == 0 || !HasAccount(s.accounts, fromId)
                                || toId == 0 || !HasAccount(s.accounts, toId)
                                || BalanceOf(s.accounts, fromId) < amount)
            && (r.Failure? ==> r.error == if amount <= 0 || fromId == toId || fromId == 0 then ArgumentError
                                          else if !HasAccount(s.accounts, fromId) then NotFound
                                          else if toId == 0 then ArgumentError
                                          else if !HasAccount(s.accounts, toId) then NotFound
                                          else InvalidOperation)
  {
  }

  /** What a successful Transfer does to the stores. */
  lemma TransferEffect(s: State, fromId: nat, toId: nat, amount: Money, guid: nat, now: int)
    requires ApplyTransfer(s, fromId, toId, amount, guid, now).Success?
    ensures var r := ApplyTransfer(s, fromId, toId, amount, guid, now);
            var i := FirstById(s.accounts, fromId).value;
            var j := FirstById(s.accounts, toId).value;
            var after := r.value.accounts;
            && amount > 0 && HasAccount(s.accounts, fromId) && HasAccount(s.accounts, toId)
            && i != j
            && OnlyBalancesChanged(s.accounts, after)
            && after[i].balance == s.accounts[i].balance - amount
            && after[j].balance == s.accounts[j].balance + amount
            && after[i].balance >= 0
            && after[i].balance + after[j].balance == s.accounts[i].balance + s.accounts[j].balance
            && (forall k :: 0 <= k < |after| && k != i && k != j ==> after[k] == s.accounts[k])
            && r.value.log == s.log + [
                 Transaction(guid, fromId, amount, TransactionType.Transfer, now,
                             Some(after[i].balance), Some(toId), Some(s.accounts[j].username)),
                 Transaction(guid + 1, toId, amount, TransactionType.Transfer, now,
                             Some(after[j].balance), Some(fromId), Some(s.accounts[i].username))]
  {
  }

  /** A successful Transfer moves money between two accounts and so leaves the
      money held in all accounts as it was. */
  lemma TransferKeepsTotal(s: State, fromId: nat, toId: nat, amount: Money, guid: nat, now: int)
    requires ApplyTransfer(s, fromId, toId, amount, guid, now).Success?
    ensures Total(ApplyTransfer(s, fromId, toId, amount, guid, now).value.accounts) == Total(s.accounts)
  {
    var after := ApplyTransfer(s, fromId, toId, amount, guid, now).value.accounts;
    var i := FirstById(s.accounts, fromId).value;
    var j := FirstById(s.accounts, toId).value;
    var debited := s.accounts[i := after[i]];
    TotalUpdate(s.accounts, i, after[i]);
    TotalUpdate(debited, j, after[j]);
    assert after == debited[j := after[j]];
  }

  /** The value ApplyTransfer takes once every check passes, spelled out for
      the service's committing half. */
  lemma TransferSucceeds(s: State, fromId: nat, toId: nat, amount: Money, guid: nat, now: int)
    requires amount > 0 && fromId != toId && fromId != 0 && toId != 0
    requires HasAccount(s.accounts, fromId) && HasAccount(s.accounts, toId)
    requires BalanceOf(s.accounts, fromId) >= amount
    ensures var i := FirstById(s.accounts, fromId).value;
            var j := FirstById(s.accounts, toId).value;
            var source := s.accounts[i];
            var destination := s.accounts[j];
            ApplyTransfer(s, fromId, toId, amount, guid, now)
              == Success(State(
                   s.accounts[i := source.(balance := source.balance - amount)]
                             [j := destination.(balance := destination.balance + amount)],
                   s.log + [Transaction(guid, fromId, amount, TransactionType.Transfer, now,
                                        Some(source.balance - amount), Some(toId), Some(destination.username)),
                            Transaction(guid + 1, toId, amount, TransactionType.Transfer, now,
                                        Some(destination.balance + amount), Some(fromId), Some(source.username))]))
  {
  }

  /** Changing balances only leaves every lookup by id as it was. */
  lemma BalanceChangesKeepLookups(before: seq<Account>, after: seq<Account>)
    requires OnlyBalancesChanged(before, after)
    ensures forall id :: FirstById(after, id) == FirstById(before, id)
    ensures forall id :: HasAccount(after, id) == HasAccount(before, id)
    ensures UniqueUsernames(before) ==> UniqueUsernames(after)
  {
    assert SameIds(before, after);
    forall id
      ensures FirstById(after, id) == FirstById(before, id)
    {
      FirstByIdSameIds(before, after, id);
    }
  }

  /** Deposit followed by a Withdraw of the same amount from the same account:
      the Withdraw succeeds exactly when the balance was not negative to begin
      with, and then every account is back where it started. */
  lemma DepositThenWithdraw(s: State, accountId: nat, amount: Money, g1: nat, t1: int, g2: nat, t2: int)
    requires ApplyDeposit(s, accountId, amount, g1, t1).Success?
    ensures var d := ApplyDeposit(s, accountId, amount, g1, t1).value;
            var w := ApplyWithdraw(d, accountId, amount, g2, t2);
            && (w.Success? <==> BalanceOf(s.accounts, accountId) >= 0)
            && (w.Success? ==> w.value.accounts == s.accounts && |w.value.log| == |s.log| + 2)
  {
    var d := ApplyDeposit(s, accountId, amount, g1, t1).value;
    BalanceChangesKeepLookups(s.accounts, d.accounts);
    var w := ApplyWithdraw(d, accountId, amount, g2, t2);
    if w.Success? {
      var k := FirstById(s.accounts, accountId).value;
      assert w.value.accounts[k] == s.accounts[k];
      assert forall i :: 0 <= i < |s.accounts| ==> w.value.accounts[i] == s.accounts[i];
    }
  }

  /** What holds of the stores when every account came from the account-creation
      rule with a non-negative balance and every change went through this
      service, drawing identifiers and times from one runtime: usernames unique
      ignoring case, balances non-negative, identifiers non-empty, issued and
      distinct, records with positive amounts, stamped no later than the clock,
      and each belonging to an existing account. */
  predicate Consistent(s: State, nextGuid: nat, now: int) {
    && UniqueUsernames(s.accounts)
    && NonNegative(s.accounts)
    && (forall i :: 0 <= i < |s.accounts| ==> 0 < s.accounts[i].id < nextGuid)
    && (forall i, j :: 0 <= i < j < |s.accounts| ==> s.accounts[i].id != s.accounts[j].id)
    && (forall i :: 0 <= i < |s.log| ==>
          0 < s.log[i].id < nextGuid && s.log[i].amount > 0 && s.log[i].timeOfTransaction <= now
          && HasAccount(s.accounts, s.log[i].accountId))
    && (forall i, j :: 0 <= i < j < |s.log| ==> s.log[i].id != s.log[j].id)
  }

  /** The account half of Consistent survives a change of balances only, and
      the old records still belong to existing accounts. */
  lemma BalanceChangesKeepConsistent(s: State, after: seq<Account>, nextGuid: nat, now: int)
    requires Consistent(s, nextGuid, now)
    requires OnlyBalancesChanged(s.accounts, after) && NonNegative(after)
    ensures Consistent(State(after, s.log), nextGuid, now)
  {
    BalanceChangesKeepLookups(s.accounts, after);
  }

  /** Appending records that are freshly identified, positive, stamped with the
      clock and belong to existing accounts keeps the stores consistent. */
  lemma AppendKeepsConsistent(s: State, records: seq<Transaction>, nextGuid: nat, newGuid: nat, now: int)
    requires Consistent(s, nextGuid, now) && nextGuid <= newGuid
    requires forall i :: 0 <= i < |records| ==>
               nextGuid <= records[i].id < newGuid && records[i].amount > 0
               && records[i].timeOfTransaction <= now && HasAccount(s.accounts, records[i].accountId)
    requires forall i, j :: 0 <= i < j < |records| ==> records[i].id != records[j].id
    ensures Consistent(State(s.accounts, s.log + records), newGuid, now)
  {
    var log := s.log + records;
    forall i, j | 0 <= i < j < |log|
      ensures log[i].id != log[j].id
    {
      if j >= |s.log| && i < |s.log| {
        assert log[i].id < nextGuid <= log[j].id;
      }
    }
  }

  /** Changing balances only, to non-negative ones, and appending fresh,
      positive, current records of existing accounts keeps the stores
      consistent. */
  lemma ChangeKeepsConsistent(s: State, accounts: seq<Account>, records: seq<Transaction>,
                              guid: nat, newGuid: nat, now: int)
    requires Consistent(s, guid, now) && guid <= newGuid
    requires OnlyBalancesChanged(s.accounts, accounts) && NonNegative(accounts)
    requires forall k :: 0 <= k < |records| ==>
               guid <= records[k].id < newGuid && records[k].amount > 0 && records[k].timeOfTransaction <= now
               && HasAccount(s.accounts, records[k].accountId)
    requires forall k, l :: 0 <= k < l < |records| ==> records[k].id != records[l].id
    ensures Consistent(State(accounts, s.log + records), newGuid, now)
  {
    BalanceChangesKeepConsistent(s, accounts, guid, now);
    BalanceChangesKeepLookups(s.accounts, accounts);
    AppendKeepsConsistent(State(accounts, s.log), records, guid, newGuid, now);
  }

  lemma DepositKeepsConsistent(s: State, accountId: nat, amount: Money, guid: nat, now: int)
    requires Consistent(s, guid, now) && ApplyDeposit(s, accountId, amount, guid, now).Success?
    ensures Consistent(ApplyDeposit(s, accountId, amount, guid, now).value, guid + 1, now)
  {
    DepositEffect(s, accountId, amount, guid, now);
    var r := ApplyDeposit(s, accountId, amount, guid, now);
    var k := FirstById(s.accounts, accountId).value;
    var record := r.value.log[|s.log|];
    assert r.value.log == s.log + [record];
    ChangeKeepsConsistent(s, r.value.accounts, [record], guid, guid + 1, now);
  }

  lemma WithdrawKeepsConsistent(s: State, accountId: nat, amount: Money, guid: nat, now: int)
    requires Consistent(s, guid, now) && ApplyWithdraw(s, accountId, amount, guid, now).Success?
    ensures Consistent(ApplyWithdraw(s, accountId, amount, guid, now).value, guid + 1, now)
  {
    WithdrawEffect(s, accountId, amount, guid, now);
    var r := ApplyWithdraw(s, accountId, amount, guid, now);
    var k := FirstById(s.accounts, accountId).value;
    var record := r.value.log[|s.log|];
    assert r.value.log == s.log + [record];
    ChangeKeepsConsistent(s, r.value.accounts, [record], guid, guid + 1, now);
  }

  lemma TransferKeepsConsistent(s: State, fromId: nat, toId: nat, amount: Money, guid: nat, now: int)
    requires Consistent(s, guid, now) && ApplyTransfer(s, fromId, toId, amount, guid, now).Success?
    ensures Consistent(ApplyTransfer(s, fromId, toId, amount, guid, now).value, guid + 2, now)
  {
    TransferEffect(s, fromId, toId, amount, guid, now);
    var r := ApplyTransfer(s, fromId, toId, amount, guid, now);
    var i := FirstById(s.accounts, fromId).value;
    var j := FirstById(s.accounts, toId).value;
    var debit, credit := r.value.log[|s.log|], r.value.log[|s.log| + 1];
    assert r.value.log == s.log + [debit, credit];
    ChangeKeepsConsistent(s, r.value.accounts, [debit, credit], guid, guid + 2, now);
  }

  /** The records of an account in a log all belong to that account and come
      from the log. */
  lemma OfAccountMembers(log: seq<Transaction>, accountId: nat)
    ensures forall x :: x in OfAccount(log, accountId) ==> x in log && x.accountId == accountId
  {
    OfAccountCounts(log, accountId);
    forall x | x in OfAccount(log, accountId)
      ensures x in log && x.accountId == accountId
    {
      assert multiset(OfAccount(log, accountId))[x] > 0;
    }
  }

  /** Changing balances does not change any history. */
  lemma HistoryIgnoresBalances(before: seq<Account>, after: seq<Account>, log: seq<Transaction>, id: nat)
    requires OnlyBalancesChanged(before, after)
    ensures History(after, log, id) == History(before, log, id)
  {
    BalanceChangesKeepLookups(before, after);
  }

  /** A record later than every earlier record of its account heads that
      account's history. */
  lemma HistoryAppendLatest(accounts: seq<Account>, log: seq<Transaction>, record: Transaction)
    requires record.accountId != 0 && HasAccount(accounts, record.accountId)
    requires forall i :: 0 <= i < |log| && log[i].accountId == record.accountId ==>
               log[i].timeOfTransaction < record.timeOfTransaction
    ensures History(accounts, log + [record], record.accountId)
              == Success([record] + History(accounts, log, record.accountId).value)
  {
    var id := record.accountId;
    OfAccountAppend(log, [record], id);
    assert [record][1..] == [];
    assert OfAccount([record], id) == [record];
    OfAccountMembers(log, id);
    var mine := OfAccount(log, id);
    forall i | 0 <= i < |mine|
      ensures mine[i].timeOfTransaction < record.timeOfTransaction
    {
      assert mine[i] in mine;
    }
    OrderAppendLatest(mine, record);
  }

  /** A record of one account leaves the history of every other account as it
      was. */
  lemma HistoryAppendOther(accounts: seq<Account>, log: seq<Transaction>, record: Transaction, other: nat)
    requires other != record.accountId
    ensures History(accounts, log + [record], other) == History(accounts, log, other)
  {
    OfAccountAppend(log, [record], other);
    assert [record][1..] == [];
    assert OfAccount([record], other) == [];
    assert OfAccount(log, other) + [] == OfAccount(log, other);
  }

  /** After a Deposit stamped later than every earlier record of the account,
      its history is the new record followed by the history before. */
  lemma HistoryAfterDeposit(s: State, accountId: nat, amount: Money, guid: nat, now: int)
    requires ApplyDeposit(s, accountId, amount, guid, now).Success?
    requires forall i :: 0 <= i < |s.log| && s.log[i].accountId == accountId ==>
               s.log[i].timeOfTransaction < now
    ensures var d := ApplyDeposit(s, accountId, amount, guid, now).value;
            History(d.accounts, d.log, accountId)
              == Success([d.log[|s.log|]] + History(s.accounts, s.log, accountId).value)
  {
    var d := ApplyDeposit(s, accountId, amount, guid, now).value;
    var record := d.log[|s.log|];
    assert d.log == s.log + [record];
    assert record.accountId == accountId && record.timeOfTransaction == now;
    HistoryIgnoresBalances(s.accounts, d.accounts, d.log, accountId);
    HistoryAppendLatest(s.accounts, s.log, record);
  }

  /** A Deposit leaves the history of every other account as it was. */
  lemma DepositKeepsOtherHistories(s: State, accountId: nat, amount: Money, guid: nat, now: int, other: nat)
    requires ApplyDeposit(s, accountId, amount, guid, now).Success? && other != accountId
    ensures var d := ApplyDeposit(s, accountId, amount, guid, now).value;
            History(d.accounts, d.log, other) == History(s.accounts, s.log, other)
  {
    var d := ApplyDeposit(s, accountId, amount, guid, now).value;
    var record := d.log[|s.log|];
    assert d.log == s.log + [record];
    assert record.accountId == accountId;
    HistoryIgnoresBalances(s.accounts, d.accounts, d.log, other);
    HistoryAppendOther(s.accounts, s.log, record, other);
  }
}
