/** The rules of app/Http/Requests/UpdateAccountRequest.php: every field optional. */
module UpdateAccountRequest {
  import opened Rules
  import StoreAccountRequest

  datatype RawAccountUpdate = RawAccountUpdate(
    email: Value, password: Value, accountName: Value, accountType: Value, currency: Value)

  /**
   * rules(): `emails` is the email column of users, `names` the account_name
   * column of accounts. The unique rule has no ignore clause, so the account
   * being updated counts as well.
   */
  predicate Passes(raw: RawAccountUpdate, emails: set<string>, names: set<string>)
  {
    && (Skipped(raw.email) || (IsEmail(raw.email) && UniqueIn(raw.email, emails)))
    && (Skipped(raw.password) || (IsString(raw.password) && MinLength(raw.password, StoreAccountRequest.MinPassword)))
    && (Skipped(raw.accountName) || (IsString(raw.accountName) && MaxLength(raw.accountName, StoreAccountRequest.MaxName)
                                     && UniqueIn(raw.accountName, names)))
    && (Skipped(raw.accountType) || InList(raw.accountType, StoreAccountRequest.AccountTypes))
    && (Skipped(raw.currency) || InList(raw.currency, StoreAccountRequest.Currencies))
  }

  /** A present, non-blank field must satisfy its rules; the rest pass unchecked. */
  lemma PassesMeaning(raw: RawAccountUpdate, emails: set<string>, names: set<string>)
    ensures Passes(raw, emails, names) <==>
      && (!Skipped(raw.email) ==> raw.email.Text? && raw.email.s !in emails)
      && (!Skipped(raw.password) ==> raw.password.Text? && |raw.password.s| >= 8)
      && (!Skipped(raw.accountName) ==> raw.accountName.Text? && |raw.accountName.s| <= 255 && raw.accountName.s !in names)
      && (!Skipped(raw.accountType) ==> raw.accountType == Text("Personal") || raw.accountType == Text("Business"))
      && (!Skipped(raw.currency) ==> raw.currency.Text? && raw.currency.s in {"USD", "EUR", "GBP", "JPY", "AUD"})
  {
  }

  /** A request with no fields at all is valid. */
  lemma EmptyUpdatePasses(emails: set<string>, names: set<string>)
    ensures Passes(RawAccountUpdate(Absent, Absent, Absent, Absent, Absent), emails, names)
  {
  }

  /** Resubmitting any name that is already in use, the account's own included, fails. */
  lemma TakenNameFails(raw: RawAccountUpdate, emails: set<string>, names: set<string>)
    requires raw.accountName.Text? && !Blank(raw.accountName.s) && raw.accountName.s in names
    ensures !Passes(raw, emails, names)
  {
  }
}
