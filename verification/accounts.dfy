/** The in-memory account store: a list of accounts whose usernames are unique
    ignoring case, with lookup by id and by username and replacement by id. */
module Accounts {
  import opened Wrappers
  import opened Text
  import opened Models

  predicate HasAccount(accounts: seq<Account>, id: nat) {
    exists i :: 0 <= i < |accounts| && accounts[i].id == id
  }

  predicate UsernameTaken(accounts: seq<Account>, username: string) {
    exists i :: 0 <= i < |accounts| && EqualsIgnoreCase(accounts[i].username, username)
  }

  /** No two accounts have usernames that are equal ignoring case. */
  predicate UniqueUsernames(accounts: seq<Account>) {
    forall i, j :: 0 <= i < j < |accounts| ==> !EqualsIgnoreCase(accounts[i].username, accounts[j].username)
  }

  /** The position of the first account with the given id (FirstOrDefault). */
  function FirstById(accounts: seq<Account>, id: nat): (r: Option<nat>)
    ensures r.Some? ==> r.value < |accounts| && accounts[r.value].id == id
    ensures r.Some? ==> forall j :: 0 <= j < r.value ==> accounts[j].id != id
    ensures r.None? <==> !HasAccount(accounts, id)
  {
    if accounts == [] then None
    else if accounts[0].id == id then Some(0)
    else match FirstById(accounts[1..], id)
      case None => None
      case Some(k) => Some(k + 1)
  }

  /** The position of the first account whose username equals the given one
      ignoring case. */
  function FirstByUsername(accounts: seq<Account>, username: string): (r: Option<nat>)
    ensures r.Some? ==> r.value < |accounts| && EqualsIgnoreCase(accounts[r.value].username, username)
    ensures r.Some? ==> forall j :: 0 <= j < r.value ==> !EqualsIgnoreCase(accounts[j].username, username)
    ensures r.None? <==> !UsernameTaken(accounts, username)
  {
    if accounts == [] then None
    else if EqualsIgnoreCase(accounts[0].username, username) then Some(0)
    else match FirstByUsername(accounts[1..], username)
      case None => None
      case Some(k) => Some(k + 1)
  }

  /** GetById over a list: Guid.Empty is rejected, otherwise the first account
      with that id, or none. */
  function LookupById(accounts: seq<Account>, accountId: nat): (r: Result<Option<Account>>)
    ensures r.Failure? <==> accountId == 0
    ensures r.Failure? ==> r.error == ArgumentError
    ensures r.Success? && r.value.None? ==> !HasAccount(accounts, accountId)
    ensures r.Success? && r.value.Some? ==>
              exists i :: 0 <= i < |accounts| && accounts[i] == r.value.value && accounts[i].id == accountId
                          && forall j :: 0 <= j < i ==> accounts[j].id != accountId
  {
    if accountId == 0 then Failure(ArgumentError)
    else match FirstById(accounts, accountId)
      case None => Success(None)
      case Some(i) => Success(Some(accounts[i]))
  }

  /** GetByUsername over a list: a null, empty or blank name is rejected,
      otherwise the first case-insensitive match, or none. */
  function LookupByUsername(accounts: seq<Account>, username: Option<string>): (r: Result<Option<Account>>)
    ensures r.Failure? <==> IsNullOrWhiteSpace(username)
    ensures r.Failure? ==> r.error == ArgumentError
    ensures r.Success? && r.value.None? ==> !UsernameTaken(accounts, username.value)
    ensures r.Success? && r.value.Some? ==>
              exists i :: 0 <= i < |accounts| && accounts[i] == r.value.value
                          && EqualsIgnoreCase(accounts[i].username, username.value)
                          && forall j :: 0 <= j < i ==> !EqualsIgnoreCase(accounts[j].username, username.value)
  {
    if IsNullOrWhiteSpace(username) then Failure(ArgumentError)
    else match FirstByUsername(accounts, username.value)
      case None => Success(None)
      case Some(i) => Success(Some(accounts[i]))
  }

  /** Appending an account whose username is not yet taken keeps the usernames
      unique. */
  lemma AppendKeepsUnique(accounts: seq<Account>, a: Account)
    requires UniqueUsernames(accounts) && !UsernameTaken(accounts, a.username)
    ensures UniqueUsernames(accounts + [a])
  {
    var s := accounts + [a];
    forall i, j | 0 <= i < j < |s|
      ensures !EqualsIgnoreCase(s[i].username, s[j].username)
    {
      if j == |accounts| {
        assert !EqualsIgnoreCase(accounts[i].username, a.username);
      }
    }
  }

  /** Replacing an entry by one with the same username keeps the usernames
      unique. */
  lemma ReplaceKeepsUnique(accounts: seq<Account>, i: nat, a: Account)
    requires UniqueUsernames(accounts) && i < |accounts| && a.username == accounts[i].username
    ensures UniqueUsernames(accounts[i := a])
  {
  }

  /** Update does not look at usernames: replacing an entry by an account with
      the same id and another entry's username breaks uniqueness. */
  lemma UpdateMayBreakUnique()
    ensures var before := [Account(1, "alice", 0), Account(2, "bob", 0)];
            UniqueUsernames(before) && FirstById(before, 1) == Some(0)
            && !UniqueUsernames(before[0 := Account(1, "BOB", 0)])
  {
    var before := [Account(1, "alice", 0), Account(2, "bob", 0)];
    var after := before[0 := Account(1, "BOB", 0)];
    assert FoldCase("alice")[0] != FoldCase("bob")[0];
    assert !EqualsIgnoreCase(before[0].username, before[1].username);
    assert FoldCase("BOB") == FoldCase("bob") by {
      assert forall i :: 0 <= i < 3 ==> FoldCase("BOB")[i] == FoldCase("bob")[i];
    }
    assert EqualsIgnoreCase(after[0].username, after[1].username);
  }

  /** Two lists with the same ids at the same positions. */
  predicate SameIds(a: seq<Account>, b: seq<Account>) {
    |a| == |b| && forall i :: 0 <= i < |a| ==> a[i].id == b[i].id
  }

  /** The first position of an id depends only on the ids. */
  lemma {:induction false} FirstByIdSameIds(a: seq<Account>, b: seq<Account>, id: nat)
    requires SameIds(a, b)
    ensures FirstById(a, id) == FirstById(b, id)
  {
    if a != [] {
      assert SameIds(a[1..], b[1..]);
      FirstByIdSameIds(a[1..], b[1..], id);
    }
  }

  /** The in-memory account repository. */
  class AccountRepository {
    var accounts: seq<Account>

    constructor ()
      ensures accounts == []
    {
      accounts := [];
    }

    /** Add: null is rejected, a username already present ignoring case is
        rejected, otherwise the account is appended. */
    method Add(account: Option<Account>) returns (r: Outcome)
      modifies this
      ensures account.None? ==> r == Fail(ArgumentError) && accounts == old(accounts)
      ensures account.Some? && UsernameTaken(old(accounts), account.value.username) ==>
                r == Fail(InvalidOperation) && accounts == old(accounts)
      ensures account.Some? && !UsernameTaken(old(accounts), account.value.username) ==>
                r == Pass && accounts == old(accounts) + [account.value]
      ensures UniqueUsernames(old(accounts)) ==> UniqueUsernames(accounts)
    {
      if account.None? {
        return Fail(ArgumentError);
      }
      if FirstByUsername(accounts, account.value.username).Some? {
        return Fail(InvalidOperation);
      }
      if UniqueUsernames(accounts) {
        AppendKeepsUnique(accounts, account.value);
      }
      accounts := accounts + [account.value];
      r := Pass;
    }

    function GetById(accountId: nat): Result<Option<Account>>
      reads this
    {
      LookupById(accounts, accountId)
    }

    function GetByUsername(username: Option<string>): Result<Option<Account>>
      reads this
    {
      LookupByUsername(accounts, username)
    }

    /** Update: null is rejected, Guid.Empty is rejected by the lookup, an
        unknown id is NotFound; otherwise the first entry with that id is
        replaced in place. The entry is found by reference (IndexOf of the
        object GetById returned), which is the first position holding that id. */
    method Update(account: Option<Account>) returns (r: Outcome)
      modifies this
      ensures account.None? ==> r == Fail(ArgumentError) && accounts == old(accounts)
      ensures account.Some? && account.value.id == 0 ==> r == Fail(ArgumentError) && accounts == old(accounts)
      ensures account.Some? && account.value.id != 0 && !HasAccount(old(accounts), account.value.id) ==>
                r == Fail(NotFound) && accounts == old(accounts)
      ensures account.Some? && account.value.id != 0 && HasAccount(old(accounts), account.value.id) ==>
                r == Pass && |accounts| == |old(accounts)|
                && accounts == old(accounts)[FirstById(old(accounts), account.value.id).value := account.value]
    {
      if account.None? {
        return Fail(ArgumentError);
      }
      var existing := GetById(account.value.id);
      if existing.Failure? {
        return Fail(existing.error);
      }
      if existing.value.None? {
        return Fail(NotFound);
      }
      var index := FirstById(accounts, account.value.id).value;
      accounts := accounts[index := account.value];
      r := Pass;
    }
  }
}
