/**
 The account store: accounts keyed by their external account key. Each
 operation is one single-row transaction, modelled as one pure step.
 */
module AccountRepository {
  import opened Common
  import opened Entity
  import opened ApiModel

  /** The unique index on `account_key` refuses a second row with the same key. */
  datatype SaveError = DuplicateAccountKey(accountKey: string)

  /** The table after an insert, and the inserted row as read back. */
  datatype Saved = Saved(accounts: AccountTable, response: AccountResponse)

  /** The table after an update, and the updated row as read back (`None` when no row matched). */
  datatype Updated = Updated(accounts: AccountTable, response: Option<AccountResponse>)

  /** The view of a stored row. */
  function ToAccountResponse(accountKey: string, a: Account): AccountResponse {
    AccountResponse(accountKey, a.email, a.status)
  }

  /** Whether an account with this key exists. */
  predicate ExistsByAccountKey(accounts: AccountTable, accountKey: string) {
    accountKey in accounts
  }

  /** Reads the account with this key, if any. */
  function FindByAccountKey(accounts: AccountTable, accountKey: string): (r: Option<AccountResponse>)
    ensures r.Some? <==> ExistsByAccountKey(accounts, accountKey)
    ensures r.Some? ==>
      && r.value.accountKey == accountKey
      && r.value.email == accounts[accountKey].email
      && r.value.status == accounts[accountKey].status
  {
    if accountKey in accounts then Some(ToAccountResponse(accountKey, accounts[accountKey])) else None
  }

  /** Inserts an ACTIVE account at time `now`; fails on the unique index when
      the key is already present. */
  function Save(accounts: AccountTable, accountKey: string, email: string, now: Time): (r: Result<Saved, SaveError>)
    ensures r.Err? <==> ExistsByAccountKey(accounts, accountKey)
    ensures r.Err? ==> r.error == DuplicateAccountKey(accountKey)
    ensures r.Ok? ==> r.value.accounts.Keys == accounts.Keys + {accountKey}
    ensures r.Ok? ==> AgreeExcept(accounts, r.value.accounts, accountKey)
    ensures r.Ok? ==> var a := r.value.accounts[accountKey];
                      && a.email == email
                      && a.status == Active
                      && a.createdAt == now
                      && a.updatedAt.None?
    ensures r.Ok? ==> Some(r.value.response) == FindByAccountKey(r.value.accounts, accountKey)
  {
    if accountKey in accounts then
      Err(DuplicateAccountKey(accountKey))
    else
      var accounts' := accounts[accountKey := NewAccount(email, now)];
      Ok(Saved(accounts', ToAccountResponse(accountKey, accounts'[accountKey])))
  }

  /** Replaces the email of the account with this key and stamps `updatedAt`;
      a no-op answering `None` when no account has that key. */
  function UpdateEmail(accounts: AccountTable, accountKey: string, email: string, now: Time): (r: Updated)
    ensures !ExistsByAccountKey(accounts, accountKey) ==> r.accounts == accounts && r.response.None?
    ensures ExistsByAccountKey(accounts, accountKey) ==>
      && r.accounts.Keys == accounts.Keys
      && AgreeExcept(accounts, r.accounts, accountKey)
      && r.response == FindByAccountKey(r.accounts, accountKey)
    ensures ExistsByAccountKey(accounts, accountKey) ==>
      var before, after := accounts[accountKey], r.accounts[accountKey];
      && after.email == email
      && after.status == before.status
      && after.createdAt == before.createdAt
      && after.updatedAt == Some(now)
  {
    if accountKey !in accounts then
      Updated(accounts, None)
    else
      var a' := accounts[accountKey].(email := email, updatedAt := Some(now));
      var accounts' := accounts[accountKey := a'];
      Updated(accounts', Some(ToAccountResponse(accountKey, a')))
  }

  /** Overwrites the status of the account with this key, whatever it was,
      and stamps `updatedAt`; a no-op answering `None` when no account has that key. */
  function UpdateStatus(accounts: AccountTable, accountKey: string, status: AccountStatus, now: Time): (r: Updated)
    ensures !ExistsByAccountKey(accounts, accountKey) ==> r.accounts == accounts && r.response.None?
    ensures ExistsByAccountKey(accounts, accountKey) ==>
      && r.accounts.Keys == accounts.Keys
      && AgreeExcept(accounts, r.accounts, accountKey)
      && r.response == FindByAccountKey(r.accounts, accountKey)
    ensures ExistsByAccountKey(accounts, accountKey) ==>
      var before, after := accounts[accountKey], r.accounts[accountKey];
      && after.status == status
      && after.email == before.email
      && after.createdAt == before.createdAt
      && after.updatedAt == Some(now)
  {
    if accountKey !in accounts then
      Updated(accounts, None)
    else
      var a' := accounts[accountKey].(status := status, updatedAt := Some(now));
      var accounts' := accounts[accountKey := a'];
      Updated(accounts', Some(ToAccountResponse(accountKey, a')))
  }

  /** A saved account is found under its key as ACTIVE with the given email,
      and every other key reads as before. */
  lemma SaveThenFind(accounts: AccountTable, accountKey: string, email: string, now: Time, other: string)
    requires !ExistsByAccountKey(accounts, accountKey)
    ensures Save(accounts, accountKey, email, now).Ok?
    ensures var saved := Save(accounts, accountKey, email, now).value;
            && FindByAccountKey(saved.accounts, accountKey) == Some(AccountResponse(accountKey, email, Active))
            && (other != accountKey ==> FindByAccountKey(saved.accounts, other) == FindByAccountKey(accounts, other))
  {
  }

  /** Read-your-write: after a successful email update, a lookup yields the new
      email, and it is the very record the update returned. */
  lemma UpdateEmailThenFind(accounts: AccountTable, accountKey: string, email: string, now: Time)
    requires ExistsByAccountKey(accounts, accountKey)
    ensures var u := UpdateEmail(accounts, accountKey, email, now);
            && u.response.Some?
            && FindByAccountKey(u.accounts, accountKey) == u.response
            && u.response.value.email == email
            && u.response.value.status == accounts[accountKey].status
  {
  }

  /** Status updates are not restricted to any transition order: from any
      status, any status can be written, and the last write wins. */
  lemma StatusLastWriteWins(accounts: AccountTable, accountKey: string, s1: AccountStatus, s2: AccountStatus, t1: Time, t2: Time)
    requires ExistsByAccountKey(accounts, accountKey)
    ensures var first := UpdateStatus(accounts, accountKey, s1, t1).accounts;
            var second := UpdateStatus(first, accountKey, s2, t2);
            && second.response == Some(AccountResponse(accountKey, accounts[accountKey].email, s2))
            && second.accounts[accountKey].updatedAt == Some(t2)
  {
  }
}
