/** The rules of app/Http/Requests/StoreAccountRequest.php and the request they admit. */
module StoreAccountRequest {
  import opened Wrappers
  import opened Rules
  import Models

  const AccountTypes: set<string> := {"Personal", "Business"}
  const Currencies: set<string> := {"USD", "EUR", "GBP", "JPY", "AUD"}
  const MinPassword: nat := 8
  const MaxName: nat := 255

  datatype RawNewAccount = RawNewAccount(
    email: Value, password: Value, accountName: Value,
    accountType: Value, currency: Value, initialBalance: Value)

  /** A registration that passed validation, as the controller reads it. */
  datatype NewAccount = NewAccount(
    email: string, password: string, accountName: string,
    accountType: string, currency: string, initialBalance: int)

  /**
   * rules(): `emails` is the email column of users, `names` the account_name
   * column of accounts (soft-deleted rows included).
   */
  predicate Passes(raw: RawNewAccount, emails: set<string>, names: set<string>)
  {
    && Required(raw.email) && IsEmail(raw.email) && UniqueIn(raw.email, emails)
    && Required(raw.password) && IsString(raw.password) && MinLength(raw.password, MinPassword)
    && Required(raw.accountName) && IsString(raw.accountName) && MaxLength(raw.accountName, MaxName)
       && UniqueIn(raw.accountName, names)
    && Required(raw.accountType) && InList(raw.accountType, AccountTypes)
    && Required(raw.currency) && InList(raw.currency, Currencies)
    && (Skipped(raw.initialBalance) || (IsNumeric(raw.initialBalance) && AtLeast(raw.initialBalance, 0)))
  }

  /**
   * The FormRequest guard (None: refused before the controller runs), and the
   * validated fields; `initial_balance ?? 0` gives the opening balance.
   */
  function Validate(raw: RawNewAccount, emails: set<string>, names: set<string>): (r: Option<NewAccount>)
    ensures r.Some? <==> Passes(raw, emails, names)
    ensures r.Some? ==> raw.email == Text(r.value.email) && r.value.email !in emails
    ensures r.Some? ==> raw.password == Text(r.value.password) && |r.value.password| >= MinPassword
    ensures r.Some? ==> raw.accountName == Text(r.value.accountName) && !Blank(r.value.accountName)
                        && |r.value.accountName| <= MaxName && r.value.accountName !in names
    ensures r.Some? ==> raw.accountType == Text(r.value.accountType) && r.value.accountType in AccountTypes
    ensures r.Some? ==> raw.currency == Text(r.value.currency) && r.value.currency in Currencies
    ensures r.Some? ==> r.value.initialBalance >= 0
    ensures r.Some? ==> r.value.initialBalance == (if raw.initialBalance.Number? then raw.initialBalance.cents else 0)
  {
    if Passes(raw, emails, names) then
      Some(NewAccount(raw.email.s, raw.password.s, raw.accountName.s, raw.accountType.s, raw.currency.s,
                      if raw.initialBalance.Number? then raw.initialBalance.cents else 0))
    else None
  }

  /** The validator admits JPY and AUD, which the currency column cannot store. */
  lemma CurrenciesExceedSchema()
    ensures "JPY" in Currencies && "JPY" !in Models.SchemaCurrencies
    ensures "AUD" in Currencies && "AUD" !in Models.SchemaCurrencies
    ensures Models.SchemaCurrencies < Currencies
  {
  }

  /** The account types the validator admits are exactly those the account_type column stores. */
  lemma AccountTypesMatchSchema()
    ensures AccountTypes == Models.SchemaAccountTypes
  {
  }
}
