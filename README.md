# Account Management System: a verified model of the ledger core

This project models the core of a small Laravel banking API. It has three parts.

- **Account numbers.** `luhnCheck` is the Luhn mod-10 checksum of ISO/IEC 7812-1, Annex B. `generateLuhnAccountNumber` draws zero-padded 12-digit numbers until one passes.
- **The transaction engine.** `TransactionController::store` checks that the caller owns the account and refuses a debit above the balance. It then moves the balance and appends one ledger row. `TransactionController::index` lists the caller's rows with optional filters, 15 per page.
- **The account table and the form requests.** `AccountController` registers a user with one account and offers owner-scoped show, update and soft delete. The three FormRequest `rules()` arrays are modelled as predicates.

Modules follow the source files:

- `Luhn`: app/helper.php.
- `Rules`: the Laravel rule semantics the form requests rely on.
- `TransactionRequest`, `StoreAccountRequest`, `UpdateAccountRequest`: the validators.
- `Models`: the records, and a `Database` class holding the users table, the accounts table (a map keyed by id), the ledger (a sequence) and a ghost map of opening balances.
- `TransactionController`, `AccountController`: the controllers, as methods that modify the `Database`.

Modelling choices:

- Money is integer cents, because the columns are `decimal(15,2)`.
- The authenticated user is an explicit `caller` argument.
- Uuids, timestamps and `mt_rand`'s results are inputs.
- `Database.Valid()` is the invariant every operation keeps. It has four parts:
  - the unique indexes on `account_number` and `account_name` hold;
  - the enum columns `currency` and `account_type` hold one of their values;
  - no balance is negative;
  - the replay invariant: each balance equals its opening balance plus credits minus debits in the ledger, and each row's `balanceAfter` equals that replay up to and including the row.

Modelling choices that follow the source as written:

- `luhnCheck("")` is true; it is not an error.
- `store` writes the balance and the ledger row as two separate writes, with no database transaction. The model treats them as one step.
- The not-found path of `TransactionController::store` and `AccountController::update` catches `ModelNotFoundException`, but that class is not imported (TransactionController.php:5-12, AccountController.php:5-15). So that path does not produce its 404. It is modelled only as "failure, nothing changes" (`NotFound`).
- `StoreAccountRequest` admits the currencies JPY and AUD. The `currency` enum column stores only USD, EUR and GBP (`StoreAccountRequest.CurrenciesExceedSchema`). In `AccountController.StoreAccount` such a request passes validation and then fails at the account insert. The user row has already been written by that point, and the model keeps that partial write. In `Update` the same request fails and changes nothing.
- The `unique:` and `exists:` rules look at every row, soft-deleted ones included. Eloquent queries skip soft-deleted accounts, and so does `index`'s `whereHas`. So a transaction on a soft-deleted account passes validation and then gets `NotFound`.

## Model

| member | source | states |
|---|---|---|
| `Luhn.LuhnCheck` | app/helper.php:33-58 | The right-to-left loop returns true exactly when the weighted digit sum `LuhnSum(s, false)` is 0 mod 10. The empty string passes. |
| `Luhn.Contribution` | app/helper.php:44-51 | A digit in a plain position contributes itself. A doubled digit contributes the sum of the decimal digits of its double. Each contribution is at most 9. |
| `Luhn.LuhnSumBound` | app/helper.php:39-53 | The weighted sum of s is at most 9·\|s\|. |
| `Luhn.LeadingZeros` | app/helper.php:39-52 | Any number of leading '0' characters changes neither the sum nor `luhnCheck`. |
| `Luhn.CheckDigit` | app/helper.php:12-18 | Every prefix has a digit that completes it into a Luhn-valid string. |
| `Luhn.CheckDigitUnique` | app/helper.php:12-18 | That completing digit is the only one, so exactly one digit in ten completes an 11-digit prefix. |
| `Luhn.DetectsSingleDigitError` | app/helper.php:23-53 | Replacing one digit of a Luhn-valid string by a different digit makes it fail. |
| `Luhn.KnownVectors` | app/helper.php:33-58 | "79927398713" passes, "79927398710" fails, and the check digit of "7992739871" is '3'. |
| `Luhn.PaddedDraw` | app/helper.php:16 | `str_pad(draw, 12, '0', STR_PAD_LEFT)` of a draw in 0..999999999999 has 12 characters, all digits. Read as an integer it is the draw. It passes Luhn exactly when the unpadded decimal does. |
| `Luhn.GenerateAccountNumber` | app/helper.php:11-21 | It returns the first draw whose padded form passes, which is `FirstValidDraw` of the draws. A returned number is 12 digits and Luhn-valid. It returns None only when no draw passes. |
| `TransactionRequest.Validate` | app/Http/Requests/TransactionRequest.php:31-51 | A request is accepted exactly when the rules pass. An accepted request has an existing account id, type exactly Credit or Debit, a numeric amount > 0, and a description of at most 500 characters that defaults to ''. |
| `TransactionRequest.PassesMeaning` | app/Http/Requests/TransactionRequest.php:33-50 | The rules spelled out field by field. `type` is exactly "Credit" or "Debit". `amount` is a number > 0. `description` is absent, null, blank or at most 500 characters. |
| `StoreAccountRequest.Validate` | app/Http/Requests/StoreAccountRequest.php:31-58 | An accepted registration has a non-taken email and a password of at least 8 characters. Its account name is non-blank, at most 255 characters and not taken. Its type is Personal or Business. Its currency is one of USD, EUR, GBP, JPY, AUD. Its opening balance is `initial_balance` or 0, and in either case ≥ 0. |
| `StoreAccountRequest.AccountTypesMatchSchema` | database/migrations/2025_03_26_170407_create_accounts_table.php:48 | The validator's account types are exactly the values of the account_type enum column, so a validated type is always stored. |
| `StoreAccountRequest.CurrenciesExceedSchema` | database/migrations/2025_03_26_170407_create_accounts_table.php:53 | The currency column's enum is a strict subset of the currencies the validator admits. JPY and AUD are outside it. |
| `UpdateAccountRequest.PassesMeaning` | app/Http/Requests/UpdateAccountRequest.php:30-58 | Each present, non-blank field must satisfy its rule: email not taken, password ≥ 8, name ≤ 255 and not taken, type and currency in their lists. |
| `UpdateAccountRequest.EmptyUpdatePasses` | app/Http/Requests/UpdateAccountRequest.php:32-57 | A request with no fields is valid. |
| `UpdateAccountRequest.TakenNameFails` | app/Http/Requests/UpdateAccountRequest.php:46 | Any name already in use fails, the account's own current name included, because there is no ignore clause. |
| `Models.NetAppend` | app/Http/Controllers/Api/TransactionController.php:101-108 | Appending a row changes the net movement of that row's account only. |
| `Models.AddAccountKeepsConsistent` | app/Http/Controllers/Api/AccountController.php:47-55 | An account with a fresh id, number and name, an existing owner, enum values the columns store and a balance ≥ 0 keeps the invariant. That balance becomes its opening balance. |
| `Models.RewriteKeepsConsistent` | app/Http/Controllers/Api/AccountController.php:133 | Rewriting an account row keeps the invariant when its id, owner and balance stay, it stays unique and its enum values are ones the columns store. This covers update and soft delete. |
| `TransactionController.AcceptKeepsConsistent` | app/Http/Controllers/Api/TransactionController.php:83-107 | An accepted movement gives a new balance ≥ 0 and keeps the replay invariant. The row's balanceAfter is the new balance, and every other account and row is unchanged. |
| `TransactionController.Store` | app/Http/Controllers/Api/TransactionController.php:72-117 | A not-owned account (absent, someone else's, or soft-deleted) gives NotFound. A debit above the balance gives InsufficientFunds. Otherwise Credit adds and Debit subtracts; a debit equal to the balance leaves 0. Exactly one row is appended, with the request's account, type, amount and description and balanceAfter = new balance. Refusals change nothing. The invariant is kept. |
| `TransactionController.HandleTransaction` | app/Http/Requests/TransactionRequest.php:59-69 | A request that breaks a rule is Invalid and changes nothing; the controller never runs. Otherwise the outcome is that of `Store` on the validated request. |
| `TransactionController.Matching` | app/Http/Controllers/Api/TransactionController.php:29-50 | An entry is selected exactly when it is in the ledger and belongs to a live account of the caller. `account_id` must not be sent as null, and when sent with a value the entry must match it. from ≤ created_at ≤ to must hold for the bounds sent with a value. |
| `TransactionController.NullAccountFilterMatchesNothing` | app/Http/Controllers/Api/TransactionController.php:36-38 | An `account_id` sent empty or null selects no entry, because `has()` is true and the filter becomes a null comparison. |
| `TransactionController.Select` | app/Http/Controllers/Api/TransactionController.php:29-50 | The loop over the ledger returns exactly `Matching` of it: the selected entries, in ledger order. |
| `TransactionController.Index` | app/Http/Controllers/Api/TransactionController.php:24-66 | The query fails (None) exactly when `from` or `to` is sent empty or null. Otherwise the result has at most 15 entries, each a selected ledger entry. It is exactly the requested page of the selected entries, in ledger order. A page number below 1 is served as page 1. |
| `TransactionController.FirstPageIsComplete` | app/Http/Controllers/Api/TransactionController.php:54 | When at most 15 entries are selected, page 1 lists all of them. |
| `TransactionController.StoreAsWritten` | app/Http/Controllers/Api/TransactionController.php:93-108 | As written, an accepted request changes the balance but never extends the ledger, and the call fails. |
| `TransactionController.AsWrittenBreaksReplay` | app/Http/Controllers/Api/TransactionController.php:97-107 | An account opened with 100.00 and credited 50.00 on the as-written path holds 150.00, while its ledger replays to 100.00. |
| `AccountController.AtMostOneMatch` | database/migrations/2025_03_26_170407_create_accounts_table.php:43 | Because account_number is unique, the caller's lookup by number (AccountController.php:90-92) finds at most one account. |
| `AccountController.StoreAccount` | app/Http/Controllers/Api/AccountController.php:28-79 | An invalid request changes nothing. On success the state gains two rows. The user row carries the request's account name and email. The account row is linked to that user and uses the request's name, type and currency. Its balance is `initial_balance` or 0, and ≥ 0. Its number is 12 digits and Luhn-valid, the first passing draw. A valid registration fails exactly when the user insert is refused (uuid or user name taken), or after it when no draw passes or the account insert is refused (uuid or number taken, currency outside the enum). A refused user insert changes nothing. A failure after the user insert leaves exactly the new user row, with the request's name and email, and no account row. |
| `AccountController.Show` | app/Http/Controllers/Api/AccountController.php:85-116 | Some account, exactly when the caller owns a live account with that number, and then that account. An absent account, a foreign one and a soft-deleted one all give the same None. |
| `AccountController.ApplyUpdate` | app/Http/Controllers/Api/AccountController.php:133 | Only name, type and currency can change, each only when sent. Id, owner, number, balance and the deleted marker stay. |
| `AccountController.CredentialsDoNotTouchAccount` | app/Models/Account.php:21-29 | Email and password in an update have no effect on the account, because they are not fillable account fields. |
| `AccountController.NoFieldsNoChange` | app/Http/Controllers/Api/AccountController.php:133 | An update with no account fields leaves the account as it is. |
| `AccountController.Update` | app/Http/Controllers/Api/AccountController.php:122-162 | An invalid request is refused. An unmatched number gives NotFound. A valid update of a matched account fails exactly when it writes NULL into a NOT NULL column or sends a currency outside the enum, and then nothing changes. Otherwise it succeeds: only the caller's matching account changes, to `ApplyUpdate` of it. Users, ledger and balances are untouched. |
| `AccountController.Destroy` | app/Http/Controllers/Api/AccountController.php:167-203 | An unmatched number gives NotFound and changes nothing. Otherwise exactly the matched account is marked deleted. In both cases no later lookup by the caller finds it. Ledger and other accounts are untouched. |

## Left out

- Authentication is not modelled: Sanctum tokens, `Auth::user()`, password hashing and token issuing. The caller id is a parameter, and the stored user keeps no password.
- Uuids, clock readings and `mt_rand` are inputs. This models `Str::uuid()`, `created_at` and the random draws.
- Luhn.LuhnCheck: PHP's `strlen` and `$number[$i]` index bytes, while the model indexes characters. The two agree on ASCII input, which is the only input the source passes (twelve ASCII digits from the generator). On other input they can differ: "5ü9" is three characters here but four bytes in PHP.
- Luhn.GenerateAccountNumber: the source retries without bound. The model takes a finite sequence of draws and returns None once they run out. `StoreAccount` treats that as a failure after the user insert, which is where a generator that never returns would leave the source.
- The `email` rule's address syntax is a library rule that is not visible. Only "is a string" is modelled.
- `unique:` comparisons are modelled as exact string equality. The database collation may compare case-insensitively.
- Rendering, routing, the seeder and transfers are not part of this model: PdfController, the statement view, routes/api.php and UserSeeder. The `/transfer` route names a method that does not exist.
- HTTP response shapes, status codes, logging and pagination metadata are not modelled. Each operation returns a small result datatype instead.
- Amounts are integer cents. A `numeric` value with more than two decimals, PHP's float arithmetic and the `decimal(15,2)` column limit are not modelled.
- Numeric strings: a field the rules treat as `numeric` arrives as `Number`. A numeric string such as "12.50" is not read as a number.
- Request strings are taken as they are after the framework's trimming middleware. A blank string is treated like null, as that middleware makes it.
- Concurrency and crash atomicity are not modelled. The source's save-then-create on the balance and the row is one step here.
- TransactionController.Index: an `account_id` or date bound sent empty or null is modelled by Laravel's query builder behaviour, whose code is not part of this model. A null equality becomes `whereNull`, which no row meets. A null bound with `>=` or `<=` is refused: the builder throws, and the catch at TransactionController.php:56-65 answers with a failure.
- TransactionController.Index: rows come back in ledger order. The source has no `orderBy`, so the database's order is unspecified. `from`/`to` are integer timestamps rather than date strings.
- AccountController.Show, AccountController.Update, AccountController.Destroy: all three look the account up with `where('account_number', $id)` (AccountController.php:90-92, 127-129, 173), modelled by `OwnedMatches` as an exact string match. The database compares the value with the bigInteger column, so "12345" would also find "000000012345". That coercion is not modelled.
- The transactions table is soft-deletable, but no operation deletes a transaction.
- Uniqueness of user emails and ledger ids is not part of the invariant. Only the account indexes are.

## Findings

| source | as written | input that shows it | evidently intended | confidence | as-written member | corrected member |
|---|---|---|---|---|---|---|
| app/Http/Controllers/Api/TransactionController.php:107 | `'balance_after' => $newBalance` reads a variable that is never assigned. The balance was already saved at line 97. The framework turns the undefined-variable warning into an exception, so no row is created and the call fails. `balance_after` is also missing from the fillable list and the schema. | An owned account with balance 100.00 and a Credit of 50.00: the balance becomes 150.00 and the ledger stays empty. | The row is created with balance_after equal to the new balance, and the balance and the ledger replay stay equal. | medium (not executed; relies on the framework's default of turning warnings into exceptions) | `TransactionController.AsWrittenBreaksReplay` | `TransactionController.Store` |
