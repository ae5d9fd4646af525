/**
 Account queries and creation: thin delegation to the account store.
 */
module AccountService {
  import opened Common
  import opened ApiModel
  import opened Entity
  import Accounts = AccountRepository

  /** Creates the requested account at time `now`; fails, like the store's
      insert, when the key is already taken. */
  function CreateAccount(accounts: AccountTable, request: CreateAccountRequest, now: Time)
    : (r: Result<Accounts.Saved, Accounts.SaveError>)
    ensures r == Accounts.Save(accounts, request.accountKey, request.email, now)
    ensures r.Err? <==> request.accountKey in accounts
    ensures r.Ok? ==> r.value.response == AccountResponse(request.accountKey, request.email, Active)
  {
    Accounts.Save(accounts, request.accountKey, request.email, now)
  }

  /** Looks an account up by key; absent keys answer `None`. The table is
      only read. */
  function GetAccount(accounts: AccountTable, accountKey: string): (r: Option<AccountResponse>)
    ensures r == Accounts.FindByAccountKey(accounts, accountKey)
    ensures r.None? <==> accountKey !in accounts
    ensures r.Some? ==> r.value == AccountResponse(accountKey, accounts[accountKey].email, accounts[accountKey].status)
  {
    Accounts.FindByAccountKey(accounts, accountKey)
  }

  /** A created account is then served by `GetAccount` as ACTIVE. */
  lemma CreateThenGet(accounts: AccountTable, request: CreateAccountRequest, now: Time)
    requires request.accountKey !in accounts
    ensures CreateAccount(accounts, request, now).Ok?
    ensures GetAccount(CreateAccount(accounts, request, now).value.accounts, request.accountKey)
            == Some(AccountResponse(request.accountKey, request.email, Active))
  {
  }
}
