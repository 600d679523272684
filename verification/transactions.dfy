/** The in-memory transaction log: append-only, each record guarded by the
    existence of its account, queried per account newest first. */
module Transactions {
  import opened Wrappers
  import opened Models
  import opened Accounts

  /** The records of one account, in log order (the `Where` of the query). */
  function OfAccount(log: seq<Transaction>, accountId: nat): (r: seq<Transaction>)
  {
    if log == [] then []
    else
      assert log == [log[0]] + log[1..];
      (if log[0].accountId == accountId then [log[0]] else []) + OfAccount(log[1..], accountId)
  }

  /** The filter keeps every record of the account, as often as it occurs, and
      no other record. */
  lemma {:induction false} OfAccountCounts(log: seq<Transaction>, accountId: nat)
    ensures forall t :: multiset(OfAccount(log, accountId))[t] ==
                        if t.accountId == accountId then multiset(log)[t] else 0
  {
    if log != [] {
      OfAccountCounts(log[1..], accountId);
      var head := if log[0].accountId == accountId then [log[0]] else [];
      assert log == [log[0]] + log[1..];
      assert multiset(log) == multiset{log[0]} + multiset(log[1..]);
      assert multiset(OfAccount(log, accountId)) == multiset(head) + multiset(OfAccount(log[1..], accountId));
    }
  }

  /** The records stamped with one time, in order; used to state stability. */
  function AtTime(s: seq<Transaction>, time: int): seq<Transaction> {
    if s == [] then []
    else (if s[0].timeOfTransaction == time then [s[0]] else []) + AtTime(s[1..], time)
  }

  predicate SortedByTimeDesc(s: seq<Transaction>) {
    forall i, j :: 0 <= i < j < |s| ==> s[i].timeOfTransaction >= s[j].timeOfTransaction
  }

  /** Puts `x` before the first record that is not later than it. */
  function Insert(x: Transaction, s: seq<Transaction>): (r: seq<Transaction>)
    requires SortedByTimeDesc(s)
    ensures SortedByTimeDesc(r)
    ensures |r| == |s| + 1 && (r[0] == x || (s != [] && r[0] == s[0]))
    ensures multiset(r) == multiset(s) + multiset{x}
  {
    if s == [] || s[0].timeOfTransaction <= x.timeOfTransaction then [x] + s
    else
      assert s == [s[0]] + s[1..];
      [s[0]] + Insert(x, s[1..])
  }

  /** `OrderByDescending(t => t.TimeOfTransaction)`, a stable sort: built by
      inserting each record, from the first, before the later-sorted rest. */
  function OrderByTimeDescending(s: seq<Transaction>): (r: seq<Transaction>)
    ensures SortedByTimeDesc(r)
    ensures multiset(r) == multiset(s)
  {
    if s == [] then []
    else
      assert s == [s[0]] + s[1..];
      Insert(s[0], OrderByTimeDescending(s[1..]))
  }

  lemma AtTimeCons(x: Transaction, s: seq<Transaction>, time: int)
    ensures AtTime([x] + s, time) == (if x.timeOfTransaction == time then [x] else []) + AtTime(s, time)
  {
    assert ([x] + s)[1..] == s;
  }

  lemma {:induction false} InsertAtTime(x: Transaction, s: seq<Transaction>, time: int)
    requires SortedByTimeDesc(s)
    ensures AtTime(Insert(x, s), time) ==
            if x.timeOfTransaction == time then [x] + AtTime(s, time) else AtTime(s, time)
  {
    if s == [] || s[0].timeOfTransaction <= x.timeOfTransaction {
      AtTimeCons(x, s, time);
      if s != [] && x.timeOfTransaction == time {
        assert s == [s[0]] + s[1..];
      }
    } else {
      assert s == [s[0]] + s[1..];
      AtTimeCons(s[0], Insert(x, s[1..]), time);
      AtTimeCons(s[0], s[1..], time);
      InsertAtTime(x, s[1..], time);
    }
  }

  /** The sort is stable: the records stamped with any one time keep their
      relative order. */
  lemma {:induction false} OrderByTimeDescendingIsStable(s: seq<Transaction>, time: int)
    ensures AtTime(OrderByTimeDescending(s), time) == AtTime(s, time)
  {
    if s != [] {
      OrderByTimeDescendingIsStable(s[1..], time);
      InsertAtTime(s[0], OrderByTimeDescending(s[1..]), time);
      AtTimeCons(s[0], s[1..], time);
      assert s == [s[0]] + s[1..];
    }
  }

  /** A record later than every record already sorted comes first. */
  lemma {:induction false} OrderAppendLatest(s: seq<Transaction>, x: Transaction)
    requires forall i :: 0 <= i < |s| ==> s[i].timeOfTransaction < x.timeOfTransaction
    ensures OrderByTimeDescending(s + [x]) == [x] + OrderByTimeDescending(s)
  {
    if s == [] {
      assert [] + [x] == [x];
      assert [x][1..] == [];
    } else {
      var rest := s[1..];
      assert (s + [x])[1..] == rest + [x];
      assert (s + [x])[0] == s[0];
      OrderAppendLatest(rest, x);
      var sorted := OrderByTimeDescending(rest);
      assert x.timeOfTransaction > s[0].timeOfTransaction;
      assert Insert(s[0], [x] + sorted) == [x] + Insert(s[0], sorted) by {
        assert ([x] + sorted)[1..] == sorted;
      }
    }
  }

  /** A record stamped with the same time as the only earlier record comes
      after it: ties keep insertion order, older first. */
  lemma OrderTieKeepsInsertionOrder(t1: Transaction, t2: Transaction)
    requires t1.timeOfTransaction == t2.timeOfTransaction
    ensures OrderByTimeDescending([t1, t2]) == [t1, t2]
  {
    assert [t1, t2][1..] == [t2];
    assert [t2][1..] == [];
  }

  lemma {:induction false} OfAccountAppend(a: seq<Transaction>, b: seq<Transaction>, accountId: nat)
    ensures OfAccount(a + b, accountId) == OfAccount(a, accountId) + OfAccount(b, accountId)
  {
    if a == [] {
      assert a + b == b;
    } else {
      var head := if a[0].accountId == accountId then [a[0]] else [];
      assert (a + b)[0] == a[0];
      assert (a + b)[1..] == a[1..] + b;
      OfAccountAppend(a[1..], b, accountId);
      calc {
        OfAccount(a + b, accountId);
        head + OfAccount(a[1..] + b, accountId);
        head + (OfAccount(a[1..], accountId) + OfAccount(b, accountId));
        (head + OfAccount(a[1..], accountId)) + OfAccount(b, accountId);
        OfAccount(a, accountId) + OfAccount(b, accountId);
      }
    }
  }

  /** GetByAccountId over an account list and a log: Guid.Empty is rejected,
      an unknown account is NotFound; otherwise exactly the account's records,
      most recent first, records with equal times in log order. */
  function History(accounts: seq<Account>, log: seq<Transaction>, accountId: nat): (r: Result<seq<Transaction>>)
    ensures r.Failure? <==> accountId == 0 || !HasAccount(accounts, accountId)
    ensures r.Failure? ==> r.error == if accountId == 0 then ArgumentError else NotFound
    ensures r.Success? ==> SortedByTimeDesc(r.value)
    ensures r.Success? ==>
              forall t :: multiset(r.value)[t] == if t.accountId == accountId then multiset(log)[t] else 0
    ensures r.Success? ==>
              forall time :: AtTime(r.value, time) == AtTime(OfAccount(log, accountId), time)
  {
    match LookupById(accounts, accountId)
    case Failure(e) => Failure(e)
    case Success(None) => Failure(NotFound)
    case Success(Some(_)) =>
      var mine := OfAccount(log, accountId);
      OfAccountCounts(log, accountId);
      assert forall time :: AtTime(OrderByTimeDescending(mine), time) == AtTime(mine, time) by {
        forall time ensures AtTime(OrderByTimeDescending(mine), time) == AtTime(mine, time) {
          OrderByTimeDescendingIsStable(mine, time);
        }
      }
      Success(OrderByTimeDescending(mine))
  }

  /** The in-memory transaction repository; it consults the account repository
      it was built with. */
  class TransactionRepository {
    const accountRepository: AccountRepository
    var transactions: seq<Transaction>

    constructor (accountRepository: AccountRepository)
      ensures this.accountRepository == accountRepository && transactions == []
    {
      this.accountRepository := accountRepository;
      transactions := [];
    }

    /** Add: null is rejected, a record whose account id is Guid.Empty is
        rejected by the lookup, a record of an unknown account is NotFound;
        otherwise the record is appended and nothing earlier changes. */
    method Add(transaction: Option<Transaction>) returns (r: Outcome)
      modifies this
      ensures transaction.None? ==> r == Fail(ArgumentError) && transactions == old(transactions)
      ensures transaction.Some? && transaction.value.accountId == 0 ==>
                r == Fail(ArgumentError) && transactions == old(transactions)
      ensures transaction.Some? && transaction.value.accountId != 0
              && !HasAccount(accountRepository.accounts, transaction.value.accountId) ==>
                r == Fail(NotFound) && transactions == old(transactions)
      ensures transaction.Some? && transaction.value.accountId != 0
              && HasAccount(accountRepository.accounts, transaction.value.accountId) ==>
                r == Pass && transactions == old(transactions) + [transaction.value]
    {
      if transaction.None? {
        return Fail(ArgumentError);
      }
      var account := accountRepository.GetById(transaction.value.accountId);
      if account.Failure? {
        return Fail(account.error);
      }
      if account.value.None? {
        return Fail(NotFound);
      }
      transactions := transactions + [transaction.value];
      r := Pass;
    }

    /** GetByAccountId: a new list; the stored log is only read. */
    function GetByAccountId(accountId: nat): Result<seq<Transaction>>
      reads this, accountRepository
    {
      History(accountRepository.accounts, transactions, accountId)
    }
  }
}
