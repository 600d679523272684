/** Account creation in the web front end: a balance limit, then a
    case-insensitive duplicate check, then the new account is added. */
module WebAccountServices {
  import opened Wrappers
  import opened Text
  import opened Platform
  import opened Models
  import opened Accounts
  import opened Ledger

  /** Ten thousand dollars: larger initial balances are for a bank manager. */
  const BalanceLimit: Money := 10000 * CentsPerDollar

  const BalanceLimitMessage: string := "For balances over $10,000, please contact a bank manager."
  const DuplicateUsernameMessage: string := "An account with this username already exists."

  /** The form's fields. Its annotations (a username of 2 to 9 characters, a
      balance from 0 to 10000) are checked by the framework before the service
      runs, not by the service. */
  datatype AccountCreateModel = AccountCreateModel(accountNumber: string, initialBalance: Money)

  /** The (isSuccess, errorMessage, createdAccountId) triple. */
  datatype CreateAccountResult = CreateAccountResult(isSuccess: bool, errorMessage: Option<string>,
                                                     createdAccountId: Option<nat>)

  /** The triple and the account list afterwards. */
  datatype Creation = Creation(result: CreateAccountResult, accounts: seq<Account>)

  function Refused(message: string, accounts: seq<Account>): Creation {
    Creation(CreateAccountResult(false, Some(message), None), accounts)
  }

  /** CreateAccountAsync over a list, the new account taking identifier `guid`.
      A blank username makes the lookup throw, which reaches the caller. */
  function CreateAccountOn(accounts: seq<Account>, model: AccountCreateModel, guid: nat): Result<Creation> {
    if model.initialBalance > BalanceLimit then Success(Refused(BalanceLimitMessage, accounts))
    else match LookupByUsername(accounts, Some(model.accountNumber))
      case Failure(e) => Failure(e)
      case Success(Some(_)) => Success(Refused(DuplicateUsernameMessage, accounts))
      case Success(None) =>
        var account := Account(guid, model.accountNumber, model.initialBalance);
        Success(Creation(CreateAccountResult(true, None, Some(account.id)), accounts + [account]))
  }

  /** What account creation does: the limit is checked first (strictly, so
      exactly $10,000 passes), then a blank username is ArgumentError, then a
      username taken ignoring case is refused; otherwise exactly one account
      with the given username and balance is appended and its id returned.
      A refusal leaves the list as it was, and unique usernames stay unique. */
  lemma CreateAccountEffect(accounts: seq<Account>, model: AccountCreateModel, guid: nat) returns (r: Result<Creation>)
    ensures r == CreateAccountOn(accounts, model, guid)
    ensures r.Failure? <==> model.initialBalance <= BalanceLimit && AllWhiteSpace(model.accountNumber)
    ensures r.Failure? ==> r.error == ArgumentError
    ensures model.initialBalance > BalanceLimit ==> r == Success(Refused(BalanceLimitMessage, accounts))
    ensures model.initialBalance <= BalanceLimit && !AllWhiteSpace(model.accountNumber)
            && UsernameTaken(accounts, model.accountNumber) ==>
              r == Success(Refused(DuplicateUsernameMessage, accounts))
    ensures r.Success? && r.value.result.isSuccess <==>
              model.initialBalance <= BalanceLimit && !AllWhiteSpace(model.accountNumber)
              && !UsernameTaken(accounts, model.accountNumber)
    ensures r.Success? && r.value.result.isSuccess ==>
              && r.value.result == CreateAccountResult(true, None, Some(guid))
              && r.value.accounts == accounts + [Account(guid, model.accountNumber, model.initialBalance)]
    ensures r.Success? && !r.value.result.isSuccess ==>
              r.value.accounts == accounts && r.value.result.errorMessage.Some?
              && r.value.result.createdAccountId.None?
    ensures r.Success? && UniqueUsernames(accounts) ==> UniqueUsernames(r.value.accounts)
  {
    r := CreateAccountOn(accounts, model, guid);
    if r.Success? && r.value.result.isSuccess && UniqueUsernames(accounts) {
      AppendKeepsUnique(accounts, Account(guid, model.accountNumber, model.initialBalance));
    }
  }

  /** After a successful creation the account is found by its username, in
      any letter case, and, its identifier being fresh, by its identifier. */
  lemma CreatedAccountIsFound(accounts: seq<Account>, model: AccountCreateModel, guid: nat, name: string)
    requires CreateAccountOn(accounts, model, guid).Success?
    requires CreateAccountOn(accounts, model, guid).value.result.isSuccess
    requires EqualsIgnoreCase(name, model.accountNumber)
    requires guid != 0 && !HasAccount(accounts, guid)
    ensures var after := CreateAccountOn(accounts, model, guid).value.accounts;
            var account := Account(guid, model.accountNumber, model.initialBalance);
            && LookupByUsername(after, Some(name)) == Success(Some(account))
            && LookupById(after, guid) == Success(Some(account))
  {
    var account := Account(guid, model.accountNumber, model.initialBalance);
    var after := accounts + [account];
    assert CreateAccountOn(accounts, model, guid).value.accounts == after;
    assert !UsernameTaken(accounts, model.accountNumber) && !AllWhiteSpace(model.accountNumber);
    EqualsIgnoreCaseKeepsBlank(name, model.accountNumber);
    assert after[|accounts|] == account;
    var byName := FirstByUsername(after, name);
    assert byName.Some? by {
      assert EqualsIgnoreCase(after[|accounts|].username, name);
    }
    assert byName == Some(|accounts|);
    var byId := FirstById(after, guid);
    assert byId.Some? by {
      assert after[|accounts|].id == guid;
    }
    assert byId == Some(|accounts|);
  }

  /** A second creation under the same username in another letter case, within
      the limit, is refused as a duplicate and adds nothing. */
  lemma DuplicateIsRefused(accounts: seq<Account>, first: AccountCreateModel, second: AccountCreateModel,
                           g1: nat, g2: nat)
    requires CreateAccountOn(accounts, first, g1).Success?
    requires CreateAccountOn(accounts, first, g1).value.result.isSuccess
    requires EqualsIgnoreCase(second.accountNumber, first.accountNumber)
    requires second.initialBalance <= BalanceLimit
    ensures var after := CreateAccountOn(accounts, first, g1).value.accounts;
            CreateAccountOn(after, second, g2) == Success(Refused(DuplicateUsernameMessage, after))
  {
    var r := CreateAccountEffect(accounts, first, g1);
    var after := r.value.accounts;
    EqualsIgnoreCaseKeepsBlank(second.accountNumber, first.accountNumber);
    assert EqualsIgnoreCase(after[|accounts|].username, second.accountNumber);
    assert UsernameTaken(after, second.accountNumber);
    var s := CreateAccountEffect(after, second, g2);
  }

  /** Appending an account with a fresh identifier, a username not taken and
      a non-negative balance keeps the stores consistent. */
  lemma AppendAccountKeepsConsistent(s: State, account: Account, guid: nat, now: int)
    requires Consistent(s, guid, now) && account.id == guid && guid != 0 && account.balance >= 0
    requires !UsernameTaken(s.accounts, account.username)
    ensures Consistent(State(s.accounts + [account], s.log), guid + 1, now)
  {
    var after := s.accounts + [account];
    AppendKeepsUnique(s.accounts, account);
    forall i | 0 <= i < |s.log|
      ensures HasAccount(after, s.log[i].accountId)
    {
      assert HasAccount(s.accounts, s.log[i].accountId);
      var k :| 0 <= k < |s.accounts| && s.accounts[k].id == s.log[i].accountId;
      assert after[k] == s.accounts[k];
    }
  }

  /** A creation with a non-negative balance and a fresh identifier keeps the
      stores consistent; the form's Range annotation is what rules out a
      negative balance, which the service itself would accept. */
  lemma CreateKeepsConsistent(s: State, model: AccountCreateModel, guid: nat, now: int)
    requires Consistent(s, guid, now) && guid != 0 && model.initialBalance >= 0
    requires CreateAccountOn(s.accounts, model, guid).Success?
    ensures Consistent(State(CreateAccountOn(s.accounts, model, guid).value.accounts, s.log), guid + 1, now)
  {
    var r := CreateAccountOn(s.accounts, model, guid);
    if r.value.result.isSuccess {
      AppendAccountKeepsConsistent(s, Account(guid, model.accountNumber, model.initialBalance), guid, now);
    }
  }

  /** The service itself accepts a negative initial balance. */
  lemma NegativeBalanceAccepted()
    ensures CreateAccountOn([], AccountCreateModel("ab", -1), 1).value.result.isSuccess
  {
    var r := CreateAccountEffect([], AccountCreateModel("ab", -1), 1);
    assert !IsWhiteSpace('a');
    assert !UsernameTaken([], "ab");
  }

  class AccountService {
    const accountRepository: AccountRepository

    constructor (accountRepository: AccountRepository)
      ensures this.accountRepository == accountRepository
    {
      this.accountRepository := accountRepository;
    }

    /** CreateAccountAsync, run synchronously (it awaits nothing). */
    method CreateAccount(rt: Runtime, model: AccountCreateModel) returns (r: Result<CreateAccountResult>)
      requires rt.Valid()
      modifies accountRepository, rt
      ensures rt.Valid() && rt.now == old(rt.now)
      ensures var spec := CreateAccountOn(old(accountRepository.accounts), model, old(rt.nextGuid));
              && r == (if spec.Success? then Success(spec.value.result) else Failure(spec.error))
              && accountRepository.accounts == (if spec.Success? then spec.value.accounts
                                                else old(accountRepository.accounts))
              && rt.nextGuid == old(rt.nextGuid) + (if spec.Success? && spec.value.result.isSuccess then 1 else 0)
    {
      if model.initialBalance > BalanceLimit {
        return Success(CreateAccountResult(false, Some(BalanceLimitMessage), None));
      }
      var existing := accountRepository.GetByUsername(Some(model.accountNumber));
      if existing.Failure? {
        return Failure(existing.error);
      }
      if existing.value.Some? {
        return Success(CreateAccountResult(false, Some(DuplicateUsernameMessage), None));
      }
      var account := NewAccount(rt, model.accountNumber, model.initialBalance);
      var added := accountRepository.Add(Some(account));
      assert added == Pass;
      r := Success(CreateAccountResult(true, None, Some(account.id)));
    }
  }
}
