/** The rules of app/Http/Requests/TransactionRequest.php and the request they admit. */
module TransactionRequest {
  import opened Wrappers
  import opened Rules
  import opened Models

  const TransactionTypes: set<string> := {"Credit", "Debit"}
  const MaxDescription: nat := 500

  datatype RawTransaction = RawTransaction(accountId: Value, txType: Value, amount: Value, description: Value)

  /** A request that passed validation, as the controller reads it. */
  datatype TxRequest = TxRequest(accountId: AccountId, txType: TxType, amount: int, description: string)

  /** rules(): `accountIds` is the id column of the accounts table (all rows). */
  predicate Passes(raw: RawTransaction, accountIds: set<AccountId>)
  {
    && Required(raw.accountId) && ExistsIn(raw.accountId, accountIds)
    && Required(raw.txType) && InList(raw.txType, TransactionTypes)
    && Required(raw.amount) && IsNumeric(raw.amount) && GreaterThan(raw.amount, 0)
    && (Skipped(raw.description) || (IsString(raw.description) && MaxLength(raw.description, MaxDescription)))
  }

  /**
   * The FormRequest guard: a request breaking any rule is refused before the
   * controller runs (None); otherwise the typed request the controller works on.
   */
  function Validate(raw: RawTransaction, accountIds: set<AccountId>): (r: Option<TxRequest>)
    ensures r.Some? <==> Passes(raw, accountIds)
    ensures r.Some? ==> raw.accountId == Text(r.value.accountId) && r.value.accountId in accountIds
    ensures r.Some? ==> (r.value.txType == Credit <==> raw.txType == Text("Credit"))
    ensures r.Some? ==> (r.value.txType == Debit <==> raw.txType == Text("Debit"))
    ensures r.Some? ==> raw.amount == Number(r.value.amount) && r.value.amount > 0
    ensures r.Some? ==> |r.value.description| <= MaxDescription
    // `$request->description ?? ''`
    ensures r.Some? ==> r.value.description == (if Skipped(raw.description) then "" else raw.description.s)
  {
    if Passes(raw, accountIds) then
      Some(TxRequest(raw.accountId.s,
                     if raw.txType.s == "Credit" then Credit else Debit,
                     raw.amount.cents,
                     TextOr(raw.description, "")))
    else None
  }

  /** The four fields, each in plain terms. */
  lemma PassesMeaning(raw: RawTransaction, accountIds: set<AccountId>)
    ensures Passes(raw, accountIds) <==>
      && raw.accountId.Text? && raw.accountId.s in accountIds && !Blank(raw.accountId.s)
      && (raw.txType == Text("Credit") || raw.txType == Text("Debit"))
      && raw.amount.Number? && raw.amount.cents > 0
      && (raw.description.Absent? || raw.description.Null? || (raw.description.Text? && (Blank(raw.description.s) || |raw.description.s| <= MaxDescription)))
  {
    assert !Blank("Credit") by { assert !IsSpace("Credit"[0]); }
    assert !Blank("Debit") by { assert !IsSpace("Debit"[0]); }
  }
}
