# Banking ledger model

A Dafny model of the business rules of the console banking system in `main.cpp`:
opening accounts, deposits, withdrawals, transfers between accounts, closing accounts,
the kind-specific interest and minimum-balance rules, and the transaction history view.
The MySQL store and the console are replaced by an immutable `State`:

- a map from account number to an `Account` (holder details, kind `Savings` | `Current`,
  balance, status `Active` | `Closed`);
- an append-only sequence of ledger `Entry` values (account, type, amount, balance after,
  description);
- the number the store will assign to the next account (its AUTO_INCREMENT counter,
  starting at 1).

Every operation is a pure function from the state and its inputs to
`Result<State>`: either an `Error` (the caller keeps the old state) or the whole new state.
Money is counted in integer cents, so the 1000.00 Current-account minimum is `100000`.

Modules, one file each: `Optional` (Option), `Text` (the decimal text of `std::to_string`
and its parser), `Accounts` (kinds, interest, minimum balance), `Journal` (entries,
descriptions, newest-first history), `Bank` (the operations), `Invariants` (request
sequences and the properties every reachable state keeps), `Conservation` (the money held
across all accounts).

Where the code differs from an idealised bank, the model follows the code:

- the account's status is never consulted, so a Closed account still accepts deposits and
  incoming transfers, and no "account closed" error exists;
- `closeAccount` refuses only a balance above zero;
- an initial deposit of 0 opens a Savings account and still logs an "Initial Deposit"
  entry of amount 0;
- the -1.00 "not found" balance (`Bank.NotFoundBalance`, -100 cents) becomes `None`; `Invariants.SentinelMeansMissing` shows
  nothing is lost, because balances never go negative.

## Model

| member | source | states |
|---|---|---|
| `Accounts.KindOfTypeCode` | main.cpp:224 | type code 1 opens a Savings account and every other code a Current account |
| `Accounts.CheckMinimumBalance` | main.cpp:105-107 | holds exactly when the balance is at least 1000.00; its meaning for the operations is stated by `Bank.WithdrawCurrentRespectsMinimum` and `Bank.TransferCurrentRespectsMinimum` |
| `Accounts.CalculateInterest` | main.cpp:77-103 | Savings interest is exactly a twenty-fifth (4%) of the balance, Current interest is 0, and interest on a non-negative balance lies between 0 and the balance |
| `Text.IntToStringRoundTrip` | main.cpp:410 | the account number written into a transfer description by `to_string` reads back as the same number |
| `Text.IntToStringInjective` | main.cpp:413 | distinct account numbers give distinct description suffixes |
| `Journal.TransferNotesRoundTrip` | main.cpp:409-414 | a transfer description recovers both its direction (to/from) and the counterparty account |
| `Journal.CashNotesAreNotTransfers` | main.cpp:255-338 | the "Initial Deposit", "Cash Deposit" and "Cash Withdrawal" descriptions are never read as transfers |
| `Journal.Record` | main.cpp:641-659 | one entry is appended after the unchanged earlier ones; what that means for the account's newest balance and its history is stated by `Journal.LatestBalanceAfterRecord` and `Journal.HistoryAfterRecord` |
| `Journal.LatestBalanceAfterRecord` | main.cpp:641-659 | after recording an entry, its account's newest recorded balance is that entry's balance-after and no other account's changes |
| `Journal.History` | main.cpp:483 | the history holds at most 10 entries, all of the requested account |
| `Journal.HistoryAfterRecord` | main.cpp:483 | a newly recorded entry is shown first in its account's history, followed by the previously shown entries minus the oldest when 10 were shown; other accounts' histories are unchanged |
| `Journal.RecentEntries` | main.cpp:480-504 | scanning the log from its newest end and stopping at 10 matching entries yields exactly the newest-first, at-most-10 history |
| `Bank.GetBalance` | main.cpp:603-619 | the balance lookup fails exactly when the account does not exist and otherwise yields its balance, whatever the account's status |
| `Bank.GetAccountType` | main.cpp:622-638 | the kind lookup fails exactly when the account does not exist and otherwise yields its kind |
| `Bank.CreateAccount` | main.cpp:219-256 | a negative deposit is InvalidAmount; type code 2 below 1000.00 is MinimumBalanceViolation; otherwise exactly one Active account is added under the next number, with the deposit as balance, and exactly one "Initial Deposit" entry with amount = balance-after = deposit is logged |
| `Bank.CreateAccountChecked` | main.cpp:224-230 | the same, but every account that opens as Current must bring at least 1000.00, and one that does not is refused with MinimumBalanceViolation |
| `Bank.Deposit` | main.cpp:267-299 | amount <= 0 is InvalidAmount, then a missing account is AccountNotFound; success exactly otherwise (also for Closed accounts): balance rises by the amount, no other account or field changes, and exactly one "Cash Deposit" entry is appended |
| `Bank.Withdraw` | main.cpp:302-347 | InvalidAmount, then AccountNotFound; a Current account left below 1000.00 gives MinimumBalanceViolation and a Savings overdraft InsufficientFunds; the Current minimum check precedes the funds check, so Current accounts never get InsufficientFunds and Savings never MinimumBalanceViolation; success exactly when the new balance is >= 0 and meets the minimum; only that balance changes, and one "Cash Withdrawal" entry is appended |
| `Bank.Transfer` | main.cpp:350-435 | InvalidAmount, then SameAccount, then AccountNotFound, then the source's Current minimum (MinimumBalanceViolation), then a Savings source's insufficient funds (InsufficientFunds); on success only the two balances change, their sum is preserved, and exactly the outgoing then the incoming Transfer entry are appended |
| `Bank.CloseAccount` | main.cpp:574-599 | a missing account is AccountNotFound, a positive balance PositiveBalance; success exactly when the balance is not positive; only that account's status becomes Closed, balances and the log are untouched |
| `Bank.InterestReport` | main.cpp:545-571 | the report covers exactly the Savings accounts, each with 4% of its balance |
| `Bank.WithdrawCurrentRespectsMinimum` | main.cpp:313-319 | for a Current account a positive withdrawal succeeds exactly when the remaining balance passes `checkMinimumBalance` |
| `Bank.TransferCurrentRespectsMinimum` | main.cpp:371-378 | for a Current source a transfer between existing distinct accounts succeeds exactly when the remaining balance passes `checkMinimumBalance` |
| `Bank.WithdrawalBoundary` | main.cpp:315 | withdrawing down to exactly 1000.00 succeeds; one cent more is MinimumBalanceViolation |
| `Bank.TransferShowsInBothHistories` | main.cpp:409-414 | after a transfer each side's history starts with its own Transfer entry naming the other account |
| `Invariants.Step` | main.cpp:687-750 | a rejected request of any kind leaves the whole state unchanged (for a transfer, the rollback at main.cpp:389-429 has the same effect), and the log only ever grows by appending |
| `Invariants.EmptyIsConsistent` | main.cpp:179-184 | a fresh store, with no accounts and no transactions, satisfies both invariants |
| `Invariants.OpenPreservesConsistent` | main.cpp:244-256 | opening an account keeps the state consistent |
| `Invariants.DepositPreservesConsistent` | main.cpp:278-290 | a deposit keeps the state consistent |
| `Invariants.WithdrawPreservesConsistent` | main.cpp:326-338 | a withdrawal keeps the state consistent |
| `Invariants.TransferPreservesConsistent` | main.cpp:386-414 | a transfer keeps the state consistent |
| `Invariants.ClosePreservesConsistent` | main.cpp:585-592 | closing an account keeps the state consistent |
| `Invariants.StepPreservesConsistent` | main.cpp:687-750 | every request keeps balances non-negative, entries on existing accounts, and each balance equal to the balance-after of its newest entry |
| `Invariants.RunPreservesConsistent` | main.cpp:669-752 | the same holds after any sequence of requests |
| `Invariants.CorrectedStepPreservesFunded` | main.cpp:226-230 | with the corrected opening rule, no request leaves a Current account below 1000.00 |
| `Invariants.CorrectedRunPreservesFunded` | main.cpp:226-230 | the same after any sequence of requests |
| `Invariants.UnderfundedCurrentAccount` | main.cpp:224-230 | as written, type code 3 with a zero deposit opens a Current account holding 0 |
| `Invariants.SentinelMeansMissing` | main.cpp:603-619 | in a consistent state the -1.00 balance (-100 cents) that `getBalance` reports occurs exactly for a missing account, because no account holds a negative balance |
| `Invariants.FundedCurrentCannotClose` | main.cpp:580-583 | a Current account at or above the minimum can never be closed, whatever the other accounts hold |
| `Conservation.TransferConservesTotal` | main.cpp:386-407 | a transfer leaves the money held across all accounts unchanged |
| `Conservation.DepositAddsAmount` | main.cpp:278-287 | a deposit adds exactly its amount to the money held |
| `Conservation.WithdrawRemovesAmount` | main.cpp:326-335 | a withdrawal removes exactly its amount from the money held |
| `Conservation.CreateAddsInitialDeposit` | main.cpp:233-244 | opening an account under a fresh number adds exactly the initial deposit to the money held |
| `Conservation.CloseKeepsTotal` | main.cpp:585-590 | closing an account moves no money |

## Left out

- MySQL connection, configuration and SQL text (main.cpp:15-26, 160-190): storage I/O, replaced by the map and the log.
- Console prompting and printing: `main`'s menu, `displayAccountInfo`, `displayTransaction`, `listAllAccounts` formatting and `PENALTY_FEE`, which is only displayed.
- `displayTransactionHistory` printing; its query is modelled by `Journal.History`.
- Timestamps and transaction ids assigned by the clock and the store: an entry's position in the log stands for its age. `ORDER BY transaction_date` has one-second resolution, so entries of one account recorded within the same second may come back in either order; the model orders them by append position.
- `double` arithmetic and its rounding: money is exact integer cents and interest a `real`.
- 32-bit wrap-around of `int` account numbers: numbers are unbounded.
- `setAutoCommit`/`commit`/`rollback` and concurrent callers: a transfer is one pure function that returns either the fully updated state or an error.
- Storage faults: an SQL exception swallowed by `recordTransaction` (the balance changes but no entry is logged) and a failed `executeUpdate`.
- Bank.CloseAccount: closing an account that is already Closed returns false in the source, because the `UPDATE` at main.cpp:590 changes no row; the model returns Ok. The resulting state is the same either way.
- A failing `LAST_INSERT_ID` query, which would skip the initial entry, is a storage fault and not modelled.

## Findings

| source | as written | input that shows it | evidently intended | confidence | as-written member | corrected member |
|---|---|---|---|---|---|---|
| main.cpp:224-230 | any type code other than 1 opens a Current account, but the 1000.00 minimum is checked only for type code 2 | type code 3 (or 0, or any other integer) with an initial deposit of 0 | every account that opens as Current brings at least 1000.00, as withdrawals and transfers keep it | medium, not executed | `Bank.CreateAccount`, shown by `Invariants.UnderfundedCurrentAccount` | `Bank.CreateAccountChecked`, with `Invariants.CorrectedRunPreservesFunded` |
