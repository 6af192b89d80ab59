/**
 * app/Http/Controllers/Api/TransactionController.php: recording a credit or
 * debit against one of the caller's accounts, and listing the caller's ledger.
 * The authenticated user is the explicit `caller`; the transaction uuid and the
 * creation time are supplied.
 */
module TransactionController {
  import opened Wrappers
  import opened Models
  import TransactionRequest

  type TxRequest = TransactionRequest.TxRequest

  /** paginate(15) */
  const PageSize: nat := 15

  /**
   * Created: the ledger row written. NotFound: the account is not the caller's
   * (or does not exist, or is soft-deleted). InsufficientFunds: a debit above the
   * balance. Invalid: refused by the form request. Failed: an exception after a
   * partial write (only on the as-written path of the Findings).
   */
  datatype StoreResult = Created(entry: LedgerEntry) | NotFound | InsufficientFunds | Invalid | Failed

  /** A debit that the funds check refuses: strictly more than the balance. */
  predicate Overdraws(balance: int, req: TxRequest)
  {
    req.txType == Debit && balance < req.amount
  }

  /**
   * Accepting a movement that does not overdraw keeps the database invariant:
   * the account's new balance is its replay, the new entry's balanceAfter is the
   * new balance, and every other account and entry is as before.
   */
  lemma {:induction false} AcceptKeepsConsistent(users: map<UserId, User>, accounts: map<AccountId, Account>,
                                                  ledger: seq<LedgerEntry>, opening: map<AccountId, int>,
                                                  e: LedgerEntry)
    requires Consistent(users, accounts, ledger, opening)
    requires e.accountId in accounts && e.amount > 0
    requires !(e.txType == Debit && accounts[e.accountId].balance < e.amount)
    requires e.balanceAfter == Applied(accounts[e.accountId].balance, e.txType, e.amount)
    ensures e.balanceAfter >= 0
    ensures Consistent(users, accounts[e.accountId := accounts[e.accountId].(balance := e.balanceAfter)],
                       ledger + [e], opening)
  {
    var id := e.accountId;
    var accounts' := accounts[id := accounts[id].(balance := e.balanceAfter)];
    var ledger' := ledger + [e];
    forall x | x in accounts'
      ensures accounts'[x].balance == opening[x] + Net(ledger', x)
    {
      NetAppend(ledger, e, x);
    }
    forall k | 0 <= k < |ledger'|
      ensures EntryReplays(ledger', opening, k)
    {
      if k < |ledger| {
        assert ledger'[..k + 1] == ledger[..k + 1];
        assert EntryReplays(ledger, opening, k);
      } else {
        assert ledger'[..k + 1] == ledger';
        NetAppend(ledger, e, id);
      }
    }
  }

  /**
   * The contract of store(), between the tables before and after: which outcome
   * a request gets, and that only an accepted one changes anything.
   */
  ghost predicate StoreSpec(before: map<AccountId, Account>, ledger: seq<LedgerEntry>,
                            after: map<AccountId, Account>, ledger': seq<LedgerEntry>,
                            caller: UserId, req: TxRequest, txId: string, now: int, res: StoreResult)
  {
    && (res.NotFound? <==> !OwnsLive(before, caller, req.accountId))
    && (res.InsufficientFunds? <==> OwnsLive(before, caller, req.accountId) && Overdraws(before[req.accountId].balance, req))
    && (res.Created? <==> OwnsLive(before, caller, req.accountId) && !Overdraws(before[req.accountId].balance, req))
    && (res.Created? ==>
          var a := before[req.accountId];
          var nb := Applied(a.balance, req.txType, req.amount);
          && nb >= 0
          && res.entry == LedgerEntry(txId, req.accountId, req.txType, req.amount, req.description, nb, now)
          && after == before[req.accountId := a.(balance := nb)]
          && ledger' == ledger + [res.entry])
    && (!res.Created? ==> after == before && ledger' == ledger)
  }

  /**
   * store(): ownership check, funds check, balance update and ledger append. The
   * source saves the balance and then creates the row as two separate writes;
   * here they are one step, with balance_after the new balance.
   */
  method Store(db: Database, caller: UserId, req: TxRequest, txId: string, now: int) returns (res: StoreResult)
    requires db.Valid()
    requires req.amount > 0
    modifies db
    ensures db.Valid()
    ensures StoreSpec(old(db.accounts), old(db.ledger), db.accounts, db.ledger, caller, req, txId, now, res)
    ensures db.users == old(db.users) && db.opening == old(db.opening)
  {
    if !OwnsLive(db.accounts, caller, req.accountId) {
      return NotFound;
    }
    var account := db.accounts[req.accountId];
    if req.txType == Debit && account.balance < req.amount {
      return InsufficientFunds;
    }
    var newBalance := Applied(account.balance, req.txType, req.amount);
    var entry := LedgerEntry(txId, req.accountId, req.txType, req.amount, req.description, newBalance, now);
    AcceptKeepsConsistent(db.users, db.accounts, db.ledger, db.opening, entry);
    db.accounts := db.accounts[req.accountId := account.(balance := newBalance)];
    db.ledger := db.ledger + [entry];
    res := Created(entry);
  }

  /** A request as it reaches the route: the form request first, then store(). */
  method HandleTransaction(db: Database, caller: UserId, raw: TransactionRequest.RawTransaction,
                           txId: string, now: int) returns (res: StoreResult)
    requires db.Valid()
    modifies db
    ensures db.Valid()
    ensures res.Invalid? <==> !TransactionRequest.Passes(raw, old(db.accounts).Keys)
    ensures res.Invalid? ==> db.accounts == old(db.accounts) && db.ledger == old(db.ledger)
    ensures !res.Invalid? ==>
      StoreSpec(old(db.accounts), old(db.ledger), db.accounts, db.ledger, caller,
                TransactionRequest.Validate(raw, old(db.accounts).Keys).value, txId, now, res)
    ensures db.users == old(db.users)
  {
    var v := TransactionRequest.Validate(raw, db.AccountIds());
    if v.None? {
      return Invalid;
    }
    res := Store(db, caller, v.value, txId, now);
  }

  // ---- index(): the caller's transactions, filtered and paginated ----

  /**
   * A query parameter of index(): not sent, sent empty or null (the default
   * middleware turns an empty string into null; `has()` still reports it), or
   * sent with a value.
   */
  datatype Param<T> = NotSent | SentNull | Sent(value: T)

  /**
   * The query index() builds: the entry's account is the caller's and not
   * soft-deleted (whereHas applies the account's default scope), and each filter
   * that was sent holds. A null account_id becomes `whereNull('account_id')`,
   * which no row meets: every row has an account. A null date bound never gets
   * here: the query fails (`QueryFails`).
   */
  predicate Visible(accounts: map<AccountId, Account>, caller: UserId, account: Param<AccountId>,
                    from: Param<int>, to: Param<int>, e: LedgerEntry)
  {
    && OwnsLive(accounts, caller, e.accountId)
    && !account.SentNull?
    && (account.Sent? ==> e.accountId == account.value)
    && (from.Sent? ==> from.value <= e.createdAt)
    && (to.Sent? ==> e.createdAt <= to.value)
  }

  /** The entries of `ledger` the query selects, in ledger order. */
  function Matching(ledger: seq<LedgerEntry>, accounts: map<AccountId, Account>, caller: UserId,
                    account: Param<AccountId>, from: Param<int>, to: Param<int>): (r: seq<LedgerEntry>)
    ensures |r| <= |ledger|
    ensures forall e :: e in r <==> e in ledger && Visible(accounts, caller, account, from, to, e)
    decreases |ledger|
  {
    if ledger == [] then []
    else
      var rest := Matching(ledger[..|ledger| - 1], accounts, caller, account, from, to);
      var last := ledger[|ledger| - 1];
      assert ledger == ledger[..|ledger| - 1] + [last];
      if Visible(accounts, caller, account, from, to, last) then rest + [last] else rest
  }

  /** The page the paginator serves: a missing or invalid page number means page 1. */
  function PageNumber(page: int): nat
  {
    if page >= 1 then page else 1
  }

  function Min(a: int, b: int): int { if a <= b then a else b }

  /** One more ledger entry extends the selection by that entry exactly when it is selected. */
  lemma MatchingStep(ledger: seq<LedgerEntry>, i: nat, accounts: map<AccountId, Account>, caller: UserId,
                     account: Param<AccountId>, from: Param<int>, to: Param<int>)
    requires i < |ledger|
    ensures Matching(ledger[..i + 1], accounts, caller, account, from, to)
            == Matching(ledger[..i], accounts, caller, account, from, to)
               + (if Visible(accounts, caller, account, from, to, ledger[i]) then [ledger[i]] else [])
  {
    assert ledger[..i + 1][..i] == ledger[..i];
  }

  /**
   * A date bound sent empty or null makes the query fail: `where(column, op, null)`
   * with an operator other than `=`, `<>` or `!=` throws, and the catch answers
   * with a failure.
   */
  predicate QueryFails(from: Param<int>, to: Param<int>)
  {
    from.SentNull? || to.SentNull?
  }

  /** The filter walk of index(): the entries of `ledger` the query selects, in order. */
  method Select(ledger: seq<LedgerEntry>, accounts: map<AccountId, Account>, caller: UserId,
                account: Param<AccountId>, from: Param<int>, to: Param<int>) returns (matched: seq<LedgerEntry>)
    ensures matched == Matching(ledger, accounts, caller, account, from, to)
  {
    matched := [];
    var i := 0;
    while i < |ledger|
      invariant 0 <= i <= |ledger|
      invariant matched == Matching(ledger[..i], accounts, caller, account, from, to)
    {
      MatchingStep(ledger, i, accounts, caller, account, from, to);
      if Visible(accounts, caller, account, from, to, ledger[i]) {
        matched := matched + [ledger[i]];
      }
      i := i + 1;
    }
    assert ledger[..i] == ledger;
  }

  /**
   * index(): walks the ledger applying the filters, then cuts out the requested
   * page of at most 15 entries. None: the query failed.
   */
  method Index(db: Database, caller: UserId, account: Param<AccountId>, from: Param<int>, to: Param<int>,
               page: int) returns (r: Option<seq<LedgerEntry>>)
    ensures r.None? <==> QueryFails(from, to)
    ensures r.Some? ==> |r.value| <= PageSize
    ensures r.Some? ==> forall e :: e in r.value ==> e in db.ledger && Visible(db.accounts, caller, account, from, to, e)
    ensures r.Some? ==>
            var m := Matching(db.ledger, db.accounts, caller, account, from, to);
            var start := Min((PageNumber(page) - 1) * PageSize, |m|);
            r.value == m[start..Min(start + PageSize, |m|)]
  {
    if QueryFails(from, to) {
      return None;
    }
    var matched := Select(db.ledger, db.accounts, caller, account, from, to);
    var start := Min((PageNumber(page) - 1) * PageSize, |matched|);
    var end := Min(start + PageSize, |matched|);
    SliceMembers(matched, start, end);
    r := Some(matched[start..end]);
  }

  lemma SliceMembers<T>(s: seq<T>, i: nat, j: nat)
    requires i <= j <= |s|
    ensures forall e :: e in s[i..j] ==> e in s
  {
    forall e | e in s[i..j]
      ensures e in s
    {
      var k :| 0 <= k < j - i && s[i..j][k] == e;
      assert s[i + k] == e;
    }
  }

  /** An account_id sent empty or null selects nothing. */
  lemma NullAccountFilterMatchesNothing(ledger: seq<LedgerEntry>, accounts: map<AccountId, Account>, caller: UserId,
                                        from: Param<int>, to: Param<int>)
    ensures Matching(ledger, accounts, caller, SentNull, from, to) == []
  {
  }

  /** When at most one page matches, page 1 lists every matching entry. */
  lemma FirstPageIsComplete(ledger: seq<LedgerEntry>, accounts: map<AccountId, Account>, caller: UserId,
                            account: Param<AccountId>, from: Param<int>, to: Param<int>)
    requires |Matching(ledger, accounts, caller, account, from, to)| <= PageSize
    ensures var m := Matching(ledger, accounts, caller, account, from, to);
            m[Min((PageNumber(1) - 1) * PageSize, |m|)..Min(Min((PageNumber(1) - 1) * PageSize, |m|) + PageSize, |m|)] == m
  {
  }

  // ---- store() as written ----

  /**
   * store() as the source has it: after $account->save(), building the row
   * reads the never-assigned $newBalance; the framework turns that warning into
   * an exception, so the balance stays changed, no row is created and the call
   * fails.
   */
  function StoreAsWritten(accounts: map<AccountId, Account>, ledger: seq<LedgerEntry>, caller: UserId,
                          req: TxRequest): (r: (map<AccountId, Account>, seq<LedgerEntry>, StoreResult))
    ensures r.1 == ledger
    ensures r.2.Failed? <==> OwnsLive(accounts, caller, req.accountId) && !Overdraws(accounts[req.accountId].balance, req)
    ensures r.2.Failed? ==> r.0 == accounts[req.accountId := accounts[req.accountId].(balance :=
                              Applied(accounts[req.accountId].balance, req.txType, req.amount))]
    ensures !r.2.Failed? ==> r.0 == accounts
  {
    if !OwnsLive(accounts, caller, req.accountId) then (accounts, ledger, NotFound)
    else
      var a := accounts[req.accountId];
      if Overdraws(a.balance, req) then (accounts, ledger, InsufficientFunds)
      else
        var saved := accounts[req.accountId := a.(balance := Applied(a.balance, req.txType, req.amount))];
        (saved, ledger, Failed)
  }

  /**
   * An account opened with 100.00 and credited 50.00 on the as-written path
   * holds 150.00 while its ledger still replays to 100.00.
   */
  lemma AsWrittenBreaksReplay()
    ensures var a := Account("acc", "owner", "Ann", "000000000000", "Personal", "USD", 10000, false);
            var users := map["owner" := User("owner", "Ann", "ann@example.com")];
            var accounts := map["acc" := a];
            var opening := map["acc" := 10000];
            var r := StoreAsWritten(accounts, [], "owner", TransactionRequest.TxRequest("acc", Credit, 5000, ""));
            && Consistent(users, accounts, [], opening)
            && r.2 == Failed
            && r.0["acc"].balance == 15000
            && r.0["acc"].balance != opening["acc"] + Net(r.1, "acc")
            && !Consistent(users, r.0, r.1, opening)
  {
  }
}
