# ATM ledger — a Dafny model

This project models the in-memory ledger of the ATM application (C#, ASP.NET):
an account store, an append-only transaction store, and the services on top of
them. The ledger service offers Deposit, Withdraw, Transfer and a per-account
transaction history. An older account service offers Deposit and Withdraw whose
records carry no balance. The web front end creates accounts.

The model is split by source file:

| file | models |
|---|---|
| `wrappers.dfy` | `Option`, `Result`, `Outcome` and the three exception kinds that reach callers |
| `text.dfy` | `string.IsNullOrWhiteSpace` and ordinal case-insensitive equality |
| `platform.dfy` | `Guid.NewGuid` and `DateTime.Now`, as a counter and a clock read from one runtime object |
| `models.dfy` | `Account`, `Transaction`, `TransactionType` and their constructors |
| `accounts.dfy` | `AccountRepository` (Add, GetById, GetByUsername, Update) |
| `transactions.dfy` | `TransactionRepository` (Add, GetByAccountId) and the newest-first stable ordering |
| `ledger.dfy` | what Deposit, Withdraw and Transfer do to the two stores, and the lemmas about it |
| `transaction_service.dfy` | the ledger service class, its methods proved against `ledger.dfy` |
| `account_service.dfy` | the older account service (Deposit, Withdraw without `BalanceAfter`) |
| `web_account_service.dfy` | account creation (`CreateAccountAsync`) |
| `scenarios.dfy` | the repository's unit tests replayed on the model |

Modelling choices:

- Money (`decimal`) is an `int` number of cents. The web limit of 10,000 is
  `10000 * CentsPerDollar`.
- A `Guid` is a `nat`, and `0` is `Guid.Empty`. `Guid.NewGuid()` takes the next
  value of a counter in `Platform.Runtime`, which starts at 1. So every
  identifier drawn is fresh and non-empty.
- `DateTime.Now` reads the runtime's clock. `Runtime.Advance` lets time pass
  between operations. Both records of one Transfer therefore carry the same
  time.
- A thrown exception becomes an error value: `ArgumentError` for
  `ArgumentException` and `ArgumentNullException`, `NotFound` for
  `KeyNotFoundException`, `InvalidOperation` for `InvalidOperationException`.
  A `null` argument is `None`.
- Accounts and transactions are values. `account.Balance += amount` followed by
  `Update(account)` is modelled as building the changed value and storing it.
- The stores and services are classes whose fields the methods update. Each
  service method is proved to have exactly the effect of a specification
  function (`Ledger.ApplyDeposit` and the others). The lemmas state what those
  functions do and what follows from them.
- In the web application one account store is shared by the transaction store
  and the ledger service (scoped registration,
  `Atm.Web/Program.cs:15-17`). The ledger service requires this wiring
  (`TransactionService.Valid`). The older account service has no registration,
  so its model allows a transaction store that consults a different account
  store.

Points where the code does something a reader might not expect:

- The history is ordered with a stable `OrderByDescending`. Records with equal
  times keep log order, so the older one comes first. The interface only
  promises "ordered by transaction time descending"
  (`Atm.Domain/Repositories/Transactions/ITransactionRepository.cs:21`), so one
  might expect the newer insertion first; the code does not do that.
  `Transactions.OrderTieKeepsInsertionOrder` and
  `Scenarios.HistoryTieKeepsInsertionOrder` show the code's order. The test at
  `Atm.Tests/Transactions/TransactionRepositoryTests.cs:73-92` expects the
  newer record first without pausing between the two constructions, so it
  relies on `DateTime.Now` advancing between them (not executed).
- The `Transaction` class and the `TransactionType` enum in the source have no
  `BalanceAfter`, `ReceiverAccountId` or `ReceiverAccountUsername` property and
  no `Transfer` member, yet the ledger service sets and uses them. The model
  adds them as the service uses them: optional fields, and a `Transfer` tag.
- Apart from `decimal` overflow, which is left out (see `decimal` precision
  and range below), the "Failed to process …" wrapping in the services is
  never reached: every other exception their callees can throw is one of the
  kinds the filters pass through. So there is no separate "operation failed"
  error.

## Model

| member | source | states |
|---|---|---|
| Text.IsNullOrWhiteSpace | Atm.Application/Repositories/Accounts/AccountsRepository.cs:41 | blank means null, empty, or only white-space characters |
| Text.FoldCase | Atm.Application/Repositories/Accounts/AccountsRepository.cs:46 | the folded string has the same length and upper-cases each ASCII letter in place |
| Text.EqualsIgnoreCaseIff | Atm.Application/Repositories/Accounts/AccountsRepository.cs:21 | two names are equal ignoring case exactly when they have the same length and agree letter by letter after upper-casing |
| Text.EqualsIgnoreCaseKeepsBlank | Atm.Application/Repositories/Accounts/AccountsRepository.cs:41-46 | names equal ignoring case are blank together |
| Platform.Runtime.constructor | Atm.Domain/Models/Transactions/Transaction.cs:9-13 | the identifier counter starts at the first non-empty Guid, the clock at the given time |
| Platform.Runtime.NewGuid | Atm.Domain/Models/Accounts/Account.cs:32 | each Guid drawn is non-empty and larger than every earlier one; the clock does not move |
| Platform.Runtime.Advance | Atm.Tests/Transactions/TransactionRepositoryTests.cs:121 | time moves forward by the given amount; no identifier is drawn |
| Models.NewAccount | Atm.Domain/Models/Accounts/Account.cs:30-35 | a new account has a fresh non-empty id, the given username and the given balance, 0 by default |
| Models.NewTransaction | Atm.Domain/Models/Transactions/Transaction.cs:7-14 | a new record has a fresh non-empty id, the current time, the given account, amount and type, and no optional field |
| Accounts.FirstById | Atm.Application/Repositories/Accounts/AccountsRepository.cs:37 | the position found holds the id and no earlier position does; none exactly when no account has the id |
| Accounts.FirstByUsername | Atm.Application/Repositories/Accounts/AccountsRepository.cs:46 | the position found matches ignoring case and no earlier one does; none exactly when the username is not taken |
| Accounts.LookupById | Atm.Application/Repositories/Accounts/AccountsRepository.cs:30-38 | Guid.Empty is an ArgumentError and only it; otherwise the first account with the id, or none when there is none |
| Accounts.LookupByUsername | Atm.Application/Repositories/Accounts/AccountsRepository.cs:39-47 | a blank or null name is an ArgumentError and only it; otherwise the first case-insensitive match, or none when the name is not taken |
| Accounts.AppendKeepsUnique | Atm.Application/Repositories/Accounts/AccountsRepository.cs:21-26 | appending an account whose name is not taken keeps usernames unique ignoring case |
| Accounts.ReplaceKeepsUnique | Atm.Application/Repositories/Accounts/AccountsRepository.cs:63-64 | replacing an entry by one with the same username keeps usernames unique |
| Accounts.UpdateMayBreakUnique | Atm.Application/Repositories/Accounts/AccountsRepository.cs:50-65 | Update does not check usernames: a concrete update that makes two usernames equal ignoring case |
| Accounts.FirstByIdSameIds | Atm.Application/Repositories/Accounts/AccountsRepository.cs:37 | lists with the same ids at every position give the same lookup by id |
| Accounts.AccountRepository.constructor | Atm.Application/Repositories/Accounts/AccountsRepository.cs:11 | a new store is empty |
| Accounts.AccountRepository.Add | Atm.Application/Repositories/Accounts/AccountsRepository.cs:14-27 | null is an ArgumentError, a name taken ignoring case is InvalidOperation, both leaving the store unchanged; otherwise the account is appended; unique usernames stay unique |
| Accounts.AccountRepository.Update | Atm.Application/Repositories/Accounts/AccountsRepository.cs:50-65 | null and Guid.Empty are ArgumentError, an unknown id is NotFound, each leaving the store unchanged; otherwise only the first entry with the id is replaced |
| Transactions.OfAccountCounts | Atm.Application/Repositories/Transactions/TransactionRepository.cs:57 | the filter keeps every record of the account as often as it occurs in the log, and nothing else |
| Transactions.Insert | Atm.Application/Repositories/Transactions/TransactionRepository.cs:58 | inserting into a newest-first list keeps it newest-first and adds exactly the one record |
| Transactions.OrderByTimeDescending | Atm.Application/Repositories/Transactions/TransactionRepository.cs:58 | the result is newest first and a permutation of the input |
| Transactions.InsertAtTime | Atm.Application/Repositories/Transactions/TransactionRepository.cs:58 | insertion places the record before every record with the same time |
| Transactions.OrderByTimeDescendingIsStable | Atm.Application/Repositories/Transactions/TransactionRepository.cs:58 | the sort is stable: records with equal times keep their log order |
| Transactions.OrderAppendLatest | Atm.Application/Repositories/Transactions/TransactionRepository.cs:58 | a record later than all others heads the sorted list, the rest in their sorted order |
| Transactions.OrderTieKeepsInsertionOrder | Atm.Application/Repositories/Transactions/TransactionRepository.cs:58 | of two records with the same time, the one logged first comes first |
| Transactions.OfAccountAppend | Atm.Application/Repositories/Transactions/TransactionRepository.cs:57 | filtering a concatenation concatenates the filtered parts |
| Transactions.History | Atm.Application/Repositories/Transactions/TransactionRepository.cs:43-60 | Guid.Empty is ArgumentError, an unknown account NotFound, and only these fail; otherwise exactly the account's records, newest first, equal times in log order |
| Transactions.TransactionRepository.constructor | Atm.Application/Repositories/Transactions/TransactionRepository.cs:20-23 | a new log is empty and consults the given account store |
| Transactions.TransactionRepository.Add | Atm.Application/Repositories/Transactions/TransactionRepository.cs:26-40 | null and an empty account id are ArgumentError, an unknown account is NotFound, each leaving the log unchanged; otherwise the record is appended |
| Ledger.TotalUpdate | Atm.Application/Services/Transactions/TransactionService.cs:41-42 | replacing one account changes the total by the difference of the two balances |
| Ledger.DepositErrors | Atm.Application/Services/Transactions/TransactionService.cs:22-33 | Deposit fails exactly for a non-positive amount or Guid.Empty (ArgumentError) or an unknown account (NotFound) |
| Ledger.DepositEffect | Atm.Application/Services/Transactions/TransactionService.cs:35-42 | a successful Deposit changes only that balance, raising it by the amount, and appends one Deposit record with the new balance |
| Ledger.DepositRaisesTotal | Atm.Application/Services/Transactions/TransactionService.cs:41-42 | a successful Deposit raises the money in all accounts by the amount |
| Ledger.WithdrawErrors | Atm.Application/Services/Transactions/TransactionService.cs:52-68 | Withdraw fails as Deposit does, and also with InvalidOperation for a balance below the amount, in that order |
| Ledger.WithdrawEffect | Atm.Application/Services/Transactions/TransactionService.cs:70-77 | a successful Withdraw changes only that balance, lowering it by the amount and leaving it non-negative, and appends one Withdrawal record with the new balance |
| Ledger.WithdrawLowersTotal | Atm.Application/Services/Transactions/TransactionService.cs:76-77 | a successful Withdraw lowers the money in all accounts by the amount |
| Ledger.TransferErrors | Atm.Application/Services/Transactions/TransactionService.cs:89-116 | a transfer to the same account is always ArgumentError; the errors come in the code's order (amount, same account, source, destination, funds), and nothing else fails |
| Ledger.TransferEffect | Atm.Application/Services/Transactions/TransactionService.cs:118-142 | a successful Transfer moves the amount from the source to the destination, leaves every other account and the pair's sum as they were, and appends the debit and credit records, each naming the other account and carrying its own new balance |
| Ledger.TransferKeepsTotal | Atm.Application/Services/Transactions/TransactionService.cs:137-142 | a successful Transfer leaves the money in all accounts as it was |
| Ledger.TransferSucceeds | Atm.Application/Services/Transactions/TransactionService.cs:118-142 | once every check passes, the new stores are the two updated balances and the two records |
| Ledger.BalanceChangesKeepLookups | Atm.Application/Repositories/Accounts/AccountsRepository.cs:50-65 | changing balances leaves every lookup by id and the uniqueness of usernames as they were |
| Ledger.DepositThenWithdraw | Atm.Application/Services/Transactions/TransactionService.cs:41-76 | after a Deposit, withdrawing the same amount succeeds exactly when the balance was not negative, and then every account is as before with two more records |
| Ledger.BalanceChangesKeepConsistent | Atm.Application/Services/Transactions/TransactionService.cs:41-42 | changing non-negative balances keeps the stores consistent |
| Ledger.AppendKeepsConsistent | Atm.Application/Repositories/Transactions/TransactionRepository.cs:26-40 | appending fresh, positive, current records of existing accounts keeps the stores consistent |
| Ledger.ChangeKeepsConsistent | Atm.Application/Services/Transactions/TransactionService.cs:35-42 | changing balances to non-negative ones and appending fresh records of existing accounts keeps the stores consistent |
| Ledger.DepositKeepsConsistent | Atm.Application/Services/Transactions/TransactionService.cs:20-48 | a Deposit keeps the stores consistent: unique names, non-negative balances, distinct fresh ids, every record of an existing account |
| Ledger.WithdrawKeepsConsistent | Atm.Application/Services/Transactions/TransactionService.cs:50-83 | a Withdraw keeps the stores consistent |
| Ledger.TransferKeepsConsistent | Atm.Application/Services/Transactions/TransactionService.cs:87-148 | a Transfer keeps the stores consistent |
| Ledger.OfAccountMembers | Atm.Application/Repositories/Transactions/TransactionRepository.cs:57 | every record in an account's history belongs to that account and is in the log |
| Ledger.HistoryIgnoresBalances | Atm.Application/Repositories/Transactions/TransactionRepository.cs:50-54 | changing balances changes no history |
| Ledger.HistoryAppendLatest | Atm.Application/Repositories/Transactions/TransactionRepository.cs:56-59 | a record later than the account's earlier ones heads that account's history |
| Ledger.HistoryAppendOther | Atm.Application/Repositories/Transactions/TransactionRepository.cs:57 | a record of one account leaves every other account's history unchanged |
| Ledger.HistoryAfterDeposit | Atm.Application/Services/Transactions/TransactionService.cs:35-39 | after a later Deposit, the history is the new record followed by the history before |
| Ledger.DepositKeepsOtherHistories | Atm.Application/Services/Transactions/TransactionService.cs:35-39 | a Deposit leaves every other account's history unchanged |
| TransactionServices.TransactionService.constructor | Atm.Application/Services/Transactions/TransactionService.cs:14-18 | the service keeps both stores, wired to one account store |
| TransactionServices.TransactionService.Deposit | Atm.Application/Services/Transactions/TransactionService.cs:20-48 | the outcome and the new contents of both stores are those of `Ledger.ApplyDeposit`; a failure changes nothing; one Guid is drawn on success |
| TransactionServices.TransactionService.Withdraw | Atm.Application/Services/Transactions/TransactionService.cs:50-83 | the outcome and the new contents are those of `Ledger.ApplyWithdraw`; a failure changes nothing |
| TransactionServices.TransactionService.Transfer | Atm.Application/Services/Transactions/TransactionService.cs:87-148 | the outcome and the new contents are those of `Ledger.ApplyTransfer`; a failure changes nothing; two Guids are drawn on success |
| TransactionServices.TransactionService.CommitTransfer | Atm.Application/Services/Transactions/TransactionService.cs:118-142 | once all checks pass, the two appends and the two updates give exactly the contents `Ledger.ApplyTransfer` describes |
| TransactionServices.TransactionService.RecordTransfer | Atm.Application/Services/Transactions/TransactionService.cs:118-135 | the log grows by exactly the debit record then the credit record, with consecutive fresh ids and the current time |
| TransactionServices.TransactionService.CommitBalances | Atm.Application/Services/Transactions/TransactionService.cs:137-142 | the source's entry, then the destination's entry, is replaced, and nothing else in the store |
| TransactionServices.TransactionService.GetTransactionHistory | Atm.Application/Services/Transactions/TransactionService.cs:150-160 | the store's history, errors included, unchanged |
| LegacyAccountServices.LegacyDepositEffect | Atm.Application/Services/Accounts/AccountService.cs:19-44 | fails exactly for a non-positive amount or Guid.Empty (ArgumentError) or an account unknown to either store (NotFound); otherwise only that balance rises by the amount and one Deposit record without a balance is appended |
| LegacyAccountServices.LegacyWithdrawEffect | Atm.Application/Services/Accounts/AccountService.cs:46-76 | as Deposit, with insufficient funds InvalidOperation before anything is recorded; otherwise only that balance falls by the amount and stays non-negative, and one Withdrawal record is appended |
| LegacyAccountServices.LegacyDepositAsLedger | Atm.Application/Services/Accounts/AccountService.cs:34-38 | with one account store, the older Deposit has the ledger Deposit's outcome and accounts, and its record is the ledger's without the balance |
| LegacyAccountServices.LegacyWithdrawAsLedger | Atm.Application/Services/Accounts/AccountService.cs:66-70 | the same for Withdraw |
| LegacyAccountServices.LegacyDepositThenWithdraw | Atm.Application/Services/Accounts/AccountService.cs:37-69 | Deposit then Withdraw of the same amount restores every balance exactly when the balance was not negative, leaving the two records |
| LegacyAccountServices.LegacyDepositKeepsConsistent | Atm.Application/Services/Accounts/AccountService.cs:19-44 | the older Deposit keeps the stores consistent |
| LegacyAccountServices.LegacyWithdrawKeepsConsistent | Atm.Application/Services/Accounts/AccountService.cs:46-76 | the older Withdraw keeps the stores consistent |
| LegacyAccountServices.AccountService.constructor | Atm.Application/Services/Accounts/AccountService.cs:13-17 | the service keeps both stores |
| LegacyAccountServices.AccountService.Deposit | Atm.Application/Services/Accounts/AccountService.cs:19-44 | the outcome and the new contents are those of `ApplyLegacyDeposit`; a failure changes no store; a Guid is drawn once the account is found |
| LegacyAccountServices.AccountService.Withdraw | Atm.Application/Services/Accounts/AccountService.cs:46-76 | the outcome and the new contents are those of `ApplyLegacyWithdraw`; a failure changes no store |
| WebAccountServices.CreateAccountEffect | Atm.Web/Services/Accounts/AccountService.cs:16-33 | over 10,000 is refused first (exactly 10,000 passes); then a blank name is ArgumentError; then a name taken ignoring case is refused; a refusal changes nothing; otherwise exactly one account with the name and balance is appended and its id returned; unique names stay unique |
| WebAccountServices.CreatedAccountIsFound | Atm.Web/Services/Accounts/AccountService.cs:29-32 | after a creation the account is found by its name in any letter case and by its id |
| WebAccountServices.DuplicateIsRefused | Atm.Web/Services/Accounts/AccountService.cs:23-27 | creating the same name again in other letters is refused as a duplicate and adds nothing |
| WebAccountServices.AppendAccountKeepsConsistent | Atm.Web/Services/Accounts/AccountService.cs:29-30 | appending an account with a fresh id, an untaken name and a non-negative balance keeps the stores consistent |
| WebAccountServices.CreateKeepsConsistent | Atm.Web/Services/Accounts/AccountService.cs:29-30 | creating an account with a non-negative balance keeps the stores consistent |
| WebAccountServices.NegativeBalanceAccepted | Atm.Web/Services/Accounts/AccountService.cs:18 | the service itself does not reject a negative initial balance |
| WebAccountServices.AccountService.constructor | Atm.Web/Services/Accounts/AccountService.cs:11-14 | the service keeps the account store |
| WebAccountServices.AccountService.CreateAccount | Atm.Web/Services/Accounts/AccountService.cs:16-33 | the triple returned and the new store are those of `CreateAccountOn`; a Guid is drawn only when an account is created |
| Scenarios.Setup | Atm.Tests/Transactions/TransactionServiceTests.cs:17-23 | a fresh runtime, two wired stores, the service, and one stored account with the given name and balance |
| Scenarios.NewerOfTwoFirst | Atm.Tests/Transactions/TransactionRepositoryTests.cs:114-134 | of two records of one account, the later-stamped one is listed first |
| Scenarios.TransferBetweenTwo | Atm.Tests/Transactions/TransactionServiceTests.cs:109-153 | between the two accounts of a two-account store, a transfer beyond the source's balance is InvalidOperation and one within it gives the two new balances and the two records |
| Scenarios.SetupTwo | Atm.Tests/Transactions/TransactionServiceTests.cs:109-117 | two stored accounts with distinct non-empty ids and the given balances, and the wired service |
| Scenarios.AliceThenDuplicate | Atm.Web/Services/Accounts/AccountService.cs:18-32 | exactly 10,000 under a new name creates the account; the same name in capitals beside it is refused as a duplicate |

## Left out

- Concurrency and locking: the source takes no locks, and the model is
  sequential. The read-modify-write race between two withdrawals is not
  modelled.
- Atomicity beyond the sequential case: the services append records before
  committing balances. With one shared account store no step after the first
  append can fail, apart from `decimal` overflow (below), so nothing partial
  is left. With two different account stores, the second Transfer append could fail after the first; the ledger
  service's `Valid` wiring excludes that case.
- TransactionServices.TransactionService.Deposit: requires the transaction store to consult the service's own account store, as the web application's registration arranges; the same holds for Withdraw and Transfer.
- Real clocks and random Guids: both come from `Platform.Runtime`. Distinctness
  of random Guids is an assumption the counter makes true.
- `decimal` precision and range: amounts are whole cents with no overflow.
  Sub-cent amounts are not modelled. C# `decimal` arithmetic is checked, so a
  huge balance makes `Balance + amount` throw `OverflowException`, which the
  services wrap as "Failed to process …". In Transfer that addition
  (`TransactionService.cs:131`) comes after the debit record is added (:126),
  so an overflow there would leave the debit record with no balance changed.
  The model has no such case.
- Text.FoldCase: folds only `a`–`z`, while `OrdinalIgnoreCase` also folds
  non-ASCII letters; `EqualsIgnoreCase`, `FirstByUsername` and
  `LookupByUsername` inherit this.
- Exception messages other than the web service's two result messages.
- Constructor `null` checks of the services and the transaction store:
  references in the model cannot be null.
- Aliasing of `Account` objects: the model stores account values, so a caller
  holding the object returned by `GetById` does not see later changes.
- `async`: `CreateAccountAsync` awaits nothing and is modelled as a plain
  method.
- Dependency injection, HTTP, Razor components and the data-annotation checks
  of `AccountCreateModel`. `CreateKeepsConsistent` assumes the non-negative
  balance the `Range` annotation enforces.
- The older `Atm.Domain/Models/Account.cs` and the service interfaces: they
  declare types or members with no implementation here.
- Scenario methods in `scenarios.dfy` replay the tests with a real transaction
  store instead of mocks, so their checks on `Update` and `Add` call counts are
  stated as the resulting store contents.
