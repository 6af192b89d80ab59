/**
 * The persisted entities (app/Models, database/migrations) and the database
 * that holds them. Money is integer cents: the columns are decimal(15,2).
 */
module Models {
  type UserId = string
  type AccountId = string

  datatype TxType = Credit | Debit

  /** The currencies the accounts.currency enum column stores. */
  const SchemaCurrencies: set<string> := {"USD", "EUR", "GBP"}
  /** The account types the accounts.account_type enum column stores. */
  const SchemaAccountTypes: set<string> := {"Personal", "Business"}

  datatype User = User(id: UserId, name: string, email: string)

  /** A row of the accounts table; `deleted` is the soft-delete marker (deleted_at). */
  datatype Account = Account(
    id: AccountId,
    userId: UserId,
    name: string,
    number: string,
    accountType: string,
    currency: string,
    balance: int,
    deleted: bool)

  /** A row of the transactions table, with the intended balance_after snapshot. */
  datatype LedgerEntry = LedgerEntry(
    id: string,
    accountId: AccountId,
    txType: TxType,
    amount: int,
    description: string,
    balanceAfter: int,
    createdAt: int)

  /** The balance after applying one movement of the given type. */
  function Applied(balance: int, t: TxType, amount: int): int
  {
    if t == Credit then balance + amount else balance - amount
  }

  function Signed(e: LedgerEntry): int
  {
    if e.txType == Credit then e.amount else -e.amount
  }

  /** Credits minus debits recorded in `ledger` for account `id`. */
  function Net(ledger: seq<LedgerEntry>, id: AccountId): int
    decreases |ledger|
  {
    if ledger == [] then 0
    else
      var last := ledger[|ledger| - 1];
      Net(ledger[..|ledger| - 1], id) + (if last.accountId == id then Signed(last) else 0)
  }

  /** Appending one entry moves only that entry's account. */
  lemma NetAppend(ledger: seq<LedgerEntry>, e: LedgerEntry, id: AccountId)
    ensures Net(ledger + [e], id) == Net(ledger, id) + (if e.accountId == id then Signed(e) else 0)
  {
    assert (ledger + [e])[..|ledger|] == ledger;
  }

  /** An account the caller owns and that is not soft-deleted (Eloquent's default scope). */
  predicate OwnsLive(accounts: map<AccountId, Account>, caller: UserId, id: AccountId)
  {
    id in accounts && accounts[id].userId == caller && !accounts[id].deleted
  }

  /** Entry k's balanceAfter is its account's replayed balance up to and including it. */
  ghost predicate EntryReplays(ledger: seq<LedgerEntry>, opening: map<AccountId, int>, k: int)
    requires 0 <= k < |ledger|
  {
    var e := ledger[k];
    && e.accountId in opening
    && e.amount > 0
    && e.balanceAfter == opening[e.accountId] + Net(ledger[..k + 1], e.accountId)
  }

  /**
   * The database invariant. Keys match ids, the unique indexes on
   * account_number and account_name hold, every account's owner exists, the
   * enum columns hold one of their values, and the
   * replay invariant: each balance is its opening balance plus its net ledger
   * movement, each entry's balanceAfter is the replay up to that entry, and no
   * balance is negative.
   */
  ghost predicate Consistent(users: map<UserId, User>, accounts: map<AccountId, Account>,
                             ledger: seq<LedgerEntry>, opening: map<AccountId, int>)
  {
    && (forall u :: u in users ==> users[u].id == u)
    && opening.Keys == accounts.Keys
    && (forall id :: id in accounts ==> accounts[id].id == id && accounts[id].userId in users)
    && (forall id :: id in accounts ==>
          accounts[id].currency in SchemaCurrencies && accounts[id].accountType in SchemaAccountTypes)
    && (forall a, b :: a in accounts && b in accounts && a != b ==>
          accounts[a].number != accounts[b].number && accounts[a].name != accounts[b].name)
    && (forall id :: id in accounts ==> opening[id] >= 0)
    && (forall id :: id in accounts ==> accounts[id].balance >= 0)
    && (forall id :: id in accounts ==> accounts[id].balance == opening[id] + Net(ledger, id))
    && (forall k :: 0 <= k < |ledger| ==> EntryReplays(ledger, opening, k))
  }

  /** An account with no entries in the ledger has net movement 0. */
  lemma {:induction false} NetOfAbsent(ledger: seq<LedgerEntry>, id: AccountId)
    requires forall k :: 0 <= k < |ledger| ==> ledger[k].accountId != id
    ensures Net(ledger, id) == 0
    decreases |ledger|
  {
    if ledger != [] {
      NetOfAbsent(ledger[..|ledger| - 1], id);
    }
  }

  /** Registering a user with a fresh id keeps the invariant. */
  lemma AddUserKeepsConsistent(users: map<UserId, User>, accounts: map<AccountId, Account>,
                               ledger: seq<LedgerEntry>, opening: map<AccountId, int>, user: User)
    requires Consistent(users, accounts, ledger, opening)
    requires user.id !in users
    ensures Consistent(users[user.id := user], accounts, ledger, opening)
  {
  }

  /**
   * Opening an account with a fresh id, number and name, an existing owner,
   * enum values the columns store and a non-negative balance keeps the invariant, with that balance as its
   * opening balance: it has no ledger entries yet.
   */
  lemma AddAccountKeepsConsistent(users: map<UserId, User>, accounts: map<AccountId, Account>,
                                  ledger: seq<LedgerEntry>, opening: map<AccountId, int>, a: Account)
    requires Consistent(users, accounts, ledger, opening)
    requires a.id !in accounts && a.userId in users && a.balance >= 0
    requires a.currency in SchemaCurrencies && a.accountType in SchemaAccountTypes
    requires forall id :: id in accounts ==> accounts[id].number != a.number && accounts[id].name != a.name
    ensures Consistent(users, accounts[a.id := a], ledger, opening[a.id := a.balance])
  {
    var opening' := opening[a.id := a.balance];
    forall k | 0 <= k < |ledger|
      ensures ledger[k].accountId != a.id
    {
      assert EntryReplays(ledger, opening, k);
    }
    NetOfAbsent(ledger, a.id);
    forall k | 0 <= k < |ledger|
      ensures EntryReplays(ledger, opening', k)
    {
      assert EntryReplays(ledger, opening, k);
    }
  }

  /**
   * Rewriting an account row keeps the invariant when id, owner and balance stay
   * the number and name remain unique and the enum columns hold one of their
   * values: an update, or a soft delete.
   */
  lemma RewriteKeepsConsistent(users: map<UserId, User>, accounts: map<AccountId, Account>,
                               ledger: seq<LedgerEntry>, opening: map<AccountId, int>, a: Account)
    requires Consistent(users, accounts, ledger, opening)
    requires a.id in accounts
    requires a.userId == accounts[a.id].userId && a.balance == accounts[a.id].balance
    requires forall id :: id in accounts && id != a.id ==> accounts[id].number != a.number && accounts[id].name != a.name
    requires a.currency in SchemaCurrencies && a.accountType in SchemaAccountTypes
    ensures Consistent(users, accounts[a.id := a], ledger, opening)
  {
    var accounts' := accounts[a.id := a];
    assert accounts'.Keys == accounts.Keys;
    forall id | id in accounts'
      ensures accounts'[id].id == id && accounts'[id].userId in users
      ensures accounts'[id].currency in SchemaCurrencies && accounts'[id].accountType in SchemaAccountTypes
      ensures accounts'[id].balance >= 0
    {
    }
    forall x, y | x in accounts' && y in accounts' && x != y
      ensures accounts'[x].number != accounts'[y].number && accounts'[x].name != accounts'[y].name
    {
      if x != a.id && y != a.id {
        assert accounts'[x] == accounts[x] && accounts'[y] == accounts[y];
      }
    }
    forall id | id in accounts'
      ensures accounts'[id].balance == opening[id] + Net(ledger, id)
    {
      assert accounts'[id].balance == accounts[id].balance;
    }
  }

  /** The tables, and the opening balance each account was created with. */
  class Database {
    var users: map<UserId, User>
    var accounts: map<AccountId, Account>
    var ledger: seq<LedgerEntry>
    /** initial_balance of each account, the start of its replay. */
    ghost var opening: map<AccountId, int>

    ghost predicate Valid()
      reads this
    {
      Consistent(users, accounts, ledger, opening)
    }

    constructor ()
      ensures Valid()
      ensures users == map[] && accounts == map[] && ledger == [] && opening == map[]
    {
      users, accounts, ledger, opening := map[], map[], [], map[];
    }

    /** The id column of the accounts table, soft-deleted rows included. */
    function AccountIds(): set<AccountId>
      reads this
    {
      accounts.Keys
    }

    /** The account_name column, soft-deleted rows included. */
    function AccountNames(): set<string>
      reads this
    {
      set id | id in accounts :: accounts[id].name
    }

    /** The email column of the users table. */
    function Emails(): set<string>
      reads this
    {
      set u | u in users :: users[u].email
    }
  }
}
