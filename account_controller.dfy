/**
 * app/Http/Controllers/Api/AccountController.php: registration of a user with
 * one account, and the owner-scoped show, update and soft delete. The
 * authenticated user is the explicit `caller`; uuids and mt_rand's draws are
 * supplied; password hashing and token issuing are not modelled.
 */
module AccountController {
  import opened Wrappers
  import opened Rules
  import opened Models
  import Luhn
  import StoreAccountRequest
  import UpdateAccountRequest

  /**
   * The caller's live accounts with this account number: the query
   * where(user_id)->where(account_number) shared by show, update and destroy.
   */
  function OwnedMatches(accounts: map<AccountId, Account>, caller: UserId, number: string): set<AccountId>
  {
    set id | id in accounts && OwnsLive(accounts, caller, id) && accounts[id].number == number
  }

  /** With account numbers unique, the query finds at most one account. */
  lemma AtMostOneMatch(users: map<UserId, User>, accounts: map<AccountId, Account>,
                       ledger: seq<LedgerEntry>, opening: map<AccountId, int>,
                       caller: UserId, number: string, a: AccountId, b: AccountId)
    requires Consistent(users, accounts, ledger, opening)
    requires a in OwnedMatches(accounts, caller, number) && b in OwnedMatches(accounts, caller, number)
    ensures a == b
  {
    assert accounts[a].number == number == accounts[b].number;
  }

  datatype CreateResult = Registered(user: User, account: Account) | Invalid | Failed

  /**
   * The users insert is refused: the uuid is taken (primary key), or the
   * unique users.name column already holds the account name.
   */
  predicate UserInsertRefused(users: map<UserId, User>, userId: UserId, name: string)
  {
    userId in users || exists u :: u in users && users[u].name == name
  }

  /**
   * After the user row: no account number was drawn, or the accounts insert is
   * refused (the uuid or the number is taken, or the currency column's enum
   * does not hold the currency).
   */
  predicate AccountInsertRefused(accounts: map<AccountId, Account>, accountId: AccountId,
                                 number: Option<string>, currency: string)
  {
    || number.None?
    || accountId in accounts
    || (exists id :: id in accounts && accounts[id].number == number.value)
    || currency !in SchemaCurrencies
  }

  /**
   * store(): validate, insert the user (named after the account), draw an
   * account number, insert the account. There is no database transaction: when
   * the account insert fails, the user row has already been written. A valid
   * registration fails exactly when one of the two inserts is refused.
   */
  method StoreAccount(db: Database, raw: StoreAccountRequest.RawNewAccount, userId: UserId,
                      accountId: AccountId, draws: seq<nat>) returns (res: CreateResult)
    requires db.Valid()
    requires forall k :: 0 <= k < |draws| ==> draws[k] <= Luhn.MaxDraw
    modifies db
    ensures db.Valid()
    ensures db.ledger == old(db.ledger)
    ensures res.Invalid? <==> !StoreAccountRequest.Passes(raw, old(db.Emails()), old(db.AccountNames()))
    ensures res.Invalid? ==> db.users == old(db.users) && db.accounts == old(db.accounts)
    ensures res.Failed? <==>
      && StoreAccountRequest.Passes(raw, old(db.Emails()), old(db.AccountNames()))
      && var req := StoreAccountRequest.Validate(raw, old(db.Emails()), old(db.AccountNames())).value;
         || UserInsertRefused(old(db.users), userId, req.accountName)
         || AccountInsertRefused(old(db.accounts), accountId, Luhn.FirstValidDraw(draws), req.currency)
    ensures res.Registered? ==>
      var req := StoreAccountRequest.Validate(raw, old(db.Emails()), old(db.AccountNames())).value;
      && res.user == User(userId, req.accountName, req.email)
      && res.account.id == accountId && res.account.userId == userId
      && res.account.name == req.accountName
      && res.account.accountType == req.accountType && res.account.currency == req.currency
      && res.account.balance == req.initialBalance && res.account.balance >= 0
      && !res.account.deleted
      && |res.account.number| == Luhn.AccountNumberLength && Luhn.AllDigits(res.account.number)
      && Luhn.LuhnValid(res.account.number)
      && Luhn.FirstValidDraw(draws) == Some(res.account.number)
      && db.users == old(db.users)[userId := res.user]
      && db.accounts == old(db.accounts)[accountId := res.account]
      && db.opening == old(db.opening)[accountId := req.initialBalance]
    // a failure after the user insert leaves the user row and no account
    ensures res.Failed? ==>
      var req := StoreAccountRequest.Validate(raw, old(db.Emails()), old(db.AccountNames())).value;
      && db.accounts == old(db.accounts) && db.opening == old(db.opening)
      && db.users == (if UserInsertRefused(old(db.users), userId, req.accountName) then old(db.users)
                      else old(db.users)[userId := User(userId, req.accountName, req.email)])
  {
    var v := StoreAccountRequest.Validate(raw, db.Emails(), db.AccountNames());
    if v.None? {
      return CreateResult.Invalid;
    }
    var req := v.value;
    // users.id is the primary key; users.name and users.email are unique
    if UserInsertRefused(db.users, userId, req.accountName) {
      return CreateResult.Failed;
    }
    var user := User(userId, req.accountName, req.email);
    AddUserKeepsConsistent(db.users, db.accounts, db.ledger, db.opening, user);
    db.users := db.users[userId := user];
    var number := Luhn.GenerateAccountNumber(draws);
    // accounts.id is the primary key, account_number is unique, currency is an enum
    if AccountInsertRefused(db.accounts, accountId, number, req.currency) {
      return CreateResult.Failed;
    }
    StoreAccountRequest.AccountTypesMatchSchema();
    var account := Account(accountId, userId, req.accountName, number.value, req.accountType, req.currency,
                           req.initialBalance, false);
    AddAccountKeepsConsistent(db.users, db.accounts, db.ledger, db.opening, account);
    db.accounts := db.accounts[accountId := account];
    db.opening := db.opening[accountId := req.initialBalance];
    res := Registered(user, account);
  }

  /**
   * show(): the caller's live account with this number. An absent account, one
   * owned by someone else and a soft-deleted one all give the same None.
   */
  method Show(db: Database, caller: UserId, number: string) returns (r: Option<Account>)
    ensures r.None? <==> OwnedMatches(db.accounts, caller, number) == {}
    ensures r.Some? ==> exists id :: id in OwnedMatches(db.accounts, caller, number) && db.accounts[id] == r.value
    ensures r.Some? ==> r.value.userId == caller && r.value.number == number && !r.value.deleted
  {
    var found := OwnedMatches(db.accounts, caller, number);
    if found == {} {
      return None;
    }
    var id :| id in found;
    r := Some(db.accounts[id]);
  }

  datatype UpdateResult = Updated(account: Account) | Invalid | NotFound | Failed

  /**
   * The fillable fields among the validated ones, written over the row. Email
   * and password are validated but are not account attributes.
   */
  function ApplyUpdate(a: Account, raw: UpdateAccountRequest.RawAccountUpdate): (b: Account)
    ensures b.id == a.id && b.userId == a.userId && b.number == a.number
    ensures b.balance == a.balance && b.deleted == a.deleted
    ensures b.name == (if raw.accountName.Text? then raw.accountName.s else a.name)
    ensures b.accountType == (if raw.accountType.Text? then raw.accountType.s else a.accountType)
    ensures b.currency == (if raw.currency.Text? then raw.currency.s else a.currency)
  {
    a.(name := if raw.accountName.Text? then raw.accountName.s else a.name,
       accountType := if raw.accountType.Text? then raw.accountType.s else a.accountType,
       currency := if raw.currency.Text? then raw.currency.s else a.currency)
  }

  /** Email and password in an update request have no effect on the account. */
  lemma CredentialsDoNotTouchAccount(a: Account, raw: UpdateAccountRequest.RawAccountUpdate, email: Value, password: Value)
    ensures ApplyUpdate(a, raw.(email := email, password := password)) == ApplyUpdate(a, raw)
  {
  }

  /** A request with no account fields leaves the account as it is. */
  lemma NoFieldsNoChange(a: Account, raw: UpdateAccountRequest.RawAccountUpdate)
    requires raw.accountName.Absent? && raw.accountType.Absent? && raw.currency.Absent?
    ensures ApplyUpdate(a, raw) == a
  {
  }

  /**
   * A fillable field sent as null (or blank, which the middleware makes null)
   * is written as NULL, which the NOT NULL columns refuse.
   */
  predicate WritesNull(raw: UpdateAccountRequest.RawAccountUpdate)
  {
    Nullish(raw.accountName) || Nullish(raw.accountType) || Nullish(raw.currency)
  }

  /**
   * The UPDATE is refused: it writes NULL into a NOT NULL column, or a currency
   * the column's enum does not hold. Columns not sent are not written.
   */
  predicate UpdateRefused(raw: UpdateAccountRequest.RawAccountUpdate)
  {
    WritesNull(raw) || (raw.currency.Text? && raw.currency.s !in SchemaCurrencies)
  }

  /**
   * update(): validate, find the caller's account by number, write the validated
   * fillable fields in one UPDATE. A database refusal (NULL into a NOT NULL
   * column, a currency outside the column's enum) changes nothing; the
   * validator has already excluded a taken name.
   */
  method Update(db: Database, caller: UserId, number: string, raw: UpdateAccountRequest.RawAccountUpdate)
    returns (res: UpdateResult)
    requires db.Valid()
    modifies db
    ensures db.Valid()
    ensures db.users == old(db.users) && db.ledger == old(db.ledger) && db.opening == old(db.opening)
    ensures res.Invalid? <==> !UpdateAccountRequest.Passes(raw, old(db.Emails()), old(db.AccountNames()))
    ensures res.NotFound? <==> UpdateAccountRequest.Passes(raw, old(db.Emails()), old(db.AccountNames()))
                               && OwnedMatches(old(db.accounts), caller, number) == {}
    ensures res.Failed? <==> UpdateAccountRequest.Passes(raw, old(db.Emails()), old(db.AccountNames()))
                             && OwnedMatches(old(db.accounts), caller, number) != {}
                             && UpdateRefused(raw)
    ensures res.Updated? ==>
      && res.account.id in OwnedMatches(old(db.accounts), caller, number)
      && res.account == ApplyUpdate(old(db.accounts)[res.account.id], raw)
      && db.accounts == old(db.accounts)[res.account.id := res.account]
    ensures !res.Updated? ==> db.accounts == old(db.accounts)
  {
    if !UpdateAccountRequest.Passes(raw, db.Emails(), db.AccountNames()) {
      return UpdateResult.Invalid;
    }
    var found := OwnedMatches(db.accounts, caller, number);
    if found == {} {
      return UpdateResult.NotFound;
    }
    var id :| id in found;
    var account := ApplyUpdate(db.accounts[id], raw);
    if UpdateRefused(raw) {
      return UpdateResult.Failed;
    }
    StoreAccountRequest.AccountTypesMatchSchema();
    RewriteKeepsConsistent(db.users, db.accounts, db.ledger, db.opening, account);
    db.accounts := db.accounts[id := account];
    res := Updated(account);
  }

  datatype DestroyResult = Deleted | NotFound

  /**
   * destroy(): soft-delete the caller's account with this number. Afterwards no
   * lookup by the caller finds it; the row, its balance and its ledger remain.
   */
  method Destroy(db: Database, caller: UserId, number: string) returns (res: DestroyResult)
    requires db.Valid()
    modifies db
    ensures db.Valid()
    ensures db.users == old(db.users) && db.ledger == old(db.ledger) && db.opening == old(db.opening)
    ensures res.NotFound? <==> OwnedMatches(old(db.accounts), caller, number) == {}
    ensures res.NotFound? ==> db.accounts == old(db.accounts)
    ensures res.Deleted? ==> exists id :: id in OwnedMatches(old(db.accounts), caller, number)
                                && db.accounts == old(db.accounts)[id := old(db.accounts)[id].(deleted := true)]
    ensures OwnedMatches(db.accounts, caller, number) == {}
  {
    var found := OwnedMatches(db.accounts, caller, number);
    if found == {} {
      return DestroyResult.NotFound;
    }
    var id :| id in found;
    forall other | other in found
      ensures other == id
    {
      AtMostOneMatch(db.users, db.accounts, db.ledger, db.opening, caller, number, id, other);
    }
    RewriteKeepsConsistent(db.users, db.accounts, db.ledger, db.opening, db.accounts[id].(deleted := true));
    db.accounts := db.accounts[id := db.accounts[id].(deleted := true)];
    res := Deleted;
  }
}
