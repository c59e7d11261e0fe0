# Ledger validation checks of beancount, modelled in Dafny

Beancount runs a set of validation checks over the finalized, date-sorted list of
ledger entries, after all plugins have transformed it and before reports are
produced. This project models three of them, as the module
`beancount.ops.validation` is exercised by `validation_test.py`:

- `validate_inventory_booking` (`Booking`, booking.dfy). It keeps a running
  signed quantity per lot (account, currency, cost) and reports each transaction
  in which a reduction of a lot held at cost leaves that lot below zero.
- `validate_open_close` (`Lifecycle`, lifecycle.dfy). Each account moves through
  Unopened, Opened and Closed, driven by its open and close directives in list
  order. A repeated open, or a close of an account that is not open, is reported
  once and leaves the state unchanged.
- `validate_duplicate_balances` (`Balances`, balances.dfy). Balance assertions are
  grouped by (date, account). Each later assertion whose amount differs from the
  group's first one is reported.

`Ledger` (ledger.dfy) holds the directive model. Dates are ordered integers
(2014-03-01 is `20140301`) and quantities are exact integers. `Scenarios`
(scenarios.dfy) gives the ledgers of the test module as values, in the order the
parser hands them over, and proves the errors each check returns for them.

Each check is written twice:
- a `method` that runs the check in one pass over the entries, with
  a map updated step by step, and errors appended;
- a specification function that folds over the entries (`BookingErrors`,
  `OpenCloseErrors`, `DuplicateBalanceErrors`).

Each method's `ensures` says it returns exactly what the function gives. Each
function is then tied to an independent reference definition:
- booking: plain sums of posting numbers per lot (`Held`);
- open/close: the existence of earlier opens and closes (`HasOpen`,
  `ClosedAfterOpen`);
- balances: a front-to-back search for a group's first assertion (`FirstAmount`).

## Choices the tests leave open

- A transaction in which several postings go negative yields one error. The
  transaction is the unit the error carries.
- Only postings held at cost are checked. The test's cash legs go to -500 USD and
  -5000 USD and are not reported. A reading under which every lot, costed or not,
  is checked the same way would contradict the test, so the model follows the test.
- A posting is flagged when it is a reduction (negative number) of a lot held at
  cost and the lot ends below zero. An augmentation is never flagged, even when
  the lot was below zero before it and is still below zero after it. A rule that
  looked only at the resulting quantity would flag such an augmentation. The
  quantity is always updated, flagged or not.
- An open of an account that was opened earlier is reported, whether the account
  is still open or already closed. A rejected directive does not change the
  account's state. So a close before any open leaves the account unopened, and a
  later open is accepted.
- In a conflicting balance group, every later assertion whose amount differs from
  the group's first one carries an error. The first assertion never does.
  Amounts compare by number and currency.

## Model

| member | source | states |
|---|---|---|
| `Booking.ValidateInventoryBooking` | src/python/beancount/ops/validation_test.py:45-59 | the single pass with its running per-lot inventory returns exactly the booking errors of the entries |
| `Booking.Book` | src/python/beancount/ops/validation_test.py:24-42 | booking a posting moves its own lot by the posting's signed number and leaves every other lot unchanged |
| `Booking.BookEntries` | src/python/beancount/ops/validation_test.py:47-48 | at most one error per entry |
| `Booking.BookPostingsQuantity` | src/python/beancount/ops/validation_test.py:24-42 | booking a transaction's postings moves each lot by the sum of that lot's posting numbers |
| `Booking.QuantityIsHeld` | src/python/beancount/ops/validation_test.py:24-42 | the running quantity of every lot equals the plain sum of all postings to it so far |
| `Booking.BookPostingsNegative` | src/python/beancount/ops/validation_test.py:32-42 | a transaction is flagged iff one of its postings is a reduction at cost whose lot, with the postings before it, ends below zero |
| `Booking.BookingErrorsAppend` | src/python/beancount/ops/validation_test.py:47-59 | each entry adds exactly one error carrying that entry when it is an offending transaction (stated on plain sums), none otherwise, and earlier errors are kept |
| `Booking.AugmentationNotReported` | src/python/beancount/ops/validation_test.py:36-38 | a transaction with no reduction at cost is never reported, whatever the lots held before it |
| `Booking.UncostedNotReported` | src/python/beancount/ops/validation_test.py:24-26 | a transaction whose postings have no cost is never reported, even when its lots go below zero |
| `Booking.CostedLegReportedIff` | src/python/beancount/ops/validation_test.py:28-42 | a lot-at-cost plus cash-leg transaction is reported iff it is a reduction leaving the lot below zero; a reduction to exactly zero is not |
| `Booking.BookingErrorsAbout` | src/python/beancount/ops/validation_test.py:47-59 | every error is a NegativeLot error carrying one of the transactions checked |
| `Booking.BookingErrorsPrefix` | src/python/beancount/ops/validation_test.py:47-59 | the errors of a prefix of the entries are a prefix of the errors, so errors come in input order |
| `Lifecycle.Transition` | src/python/beancount/ops/validation_test.py:65-124 | an open is accepted iff the account is unopened, a close iff it is open, and an accepted directive changes the state |
| `Lifecycle.CheckEntries` | src/python/beancount/ops/validation_test.py:78-81 | at most one error per directive |
| `Lifecycle.ValidateOpenClose` | src/python/beancount/ops/validation_test.py:78-124 | the single pass with its account-to-state map returns exactly the open/close errors of the entries |
| `Lifecycle.StateIsExpected` | src/python/beancount/ops/validation_test.py:65-124 | an account is unopened until its first open, closed once a close follows an open, and open in between |
| `Lifecycle.OpenCloseErrorsAppend` | src/python/beancount/ops/validation_test.py:65-124 | an open adds one error iff the account was opened before; a close adds one error iff the account was never opened or is already closed; nothing else adds one |
| `Lifecycle.OpenCloseErrorsAbout` | src/python/beancount/ops/validation_test.py:79-81 | every error carries one of the open or close directives checked, a DuplicateOpen for an open and an InvalidClose for a close |
| `Lifecycle.OpenCloseErrorsPrefix` | src/python/beancount/ops/validation_test.py:79-81 | the errors of a prefix of the entries are a prefix of the errors |
| `Balances.CheckBalances` | src/python/beancount/ops/validation_test.py:151-153 | at most one error per assertion |
| `Balances.ValidateDuplicateBalances` | src/python/beancount/ops/validation_test.py:130-153 | the single pass with its (date, account)-to-first-amount map returns exactly the duplicate-balance errors of the entries |
| `Balances.FirstAmountAppend` | src/python/beancount/ops/validation_test.py:135-141 | appending an assertion never changes a group's first amount once it has one |
| `Balances.FirstIsFirstAmount` | src/python/beancount/ops/validation_test.py:135-141 | the amount the check remembers for a group is the amount of its first assertion, and a group is remembered iff it has one |
| `Balances.DuplicateBalanceErrorsAppend` | src/python/beancount/ops/validation_test.py:135-153 | an assertion adds exactly one error carrying itself iff its group's first amount differs from its own, none otherwise |
| `Balances.AssertionPair` | src/python/beancount/ops/validation_test.py:135-141 | two assertions opening a (date, account) group yield one error, on the second, iff their amounts differ |
| `Balances.DistinctGroupsPair` | src/python/beancount/ops/validation_test.py:143-149 | two assertions for different dates or accounts, each first of its group, yield no error whatever their amounts |
| `Balances.LaterGroupIsNew` | src/python/beancount/ops/validation_test.py:143-146 | in date order, a group dated after every entry so far has no first assertion yet |
| `Balances.DuplicateBalanceErrorsAbout` | src/python/beancount/ops/validation_test.py:151-153 | every error is a ConflictingBalance error carrying one of the assertions checked, in a group that has a first assertion |
| `Balances.DuplicateBalanceErrorsPrefix` | src/python/beancount/ops/validation_test.py:151-153 | the errors of a prefix of the entries are a prefix of the errors |
| `Scenarios.TradeStep` | src/python/beancount/ops/validation_test.py:24-42 | one GOOG-at-500-USD trade moves the lot by its units and is reported iff it is a reduction that leaves the lot below zero |
| `Scenarios.OpensBookNothing` | src/python/beancount/ops/validation_test.py:21-22 | the two open directives book nothing and yield no error |
| `Scenarios.InventoryBookingScenario` | src/python/beancount/ops/validation_test.py:19-59 | exactly two errors, in order, carrying "Go negative from zero" and "Cross to negative from above zero" |
| `Scenarios.DuplicateOpenScenario` | src/python/beancount/ops/validation_test.py:65-81 | for any three distinct accounts, the errors are DuplicateOpen on the second account's repeated open, then on the third's |
| `Scenarios.ThreeOpened` | src/python/beancount/ops/validation_test.py:86-88 | after three opens of distinct accounts all three are open and there is no error |
| `Scenarios.DuplicateCloseScenario` | src/python/beancount/ops/validation_test.py:84-105 | for any three distinct accounts, the errors are InvalidClose on the second account's repeated close, then on the third's |
| `Scenarios.CloseUnopenedScenario` | src/python/beancount/ops/validation_test.py:108-114 | a close with no earlier open yields exactly one InvalidClose error on that close |
| `Scenarios.OrderingScenario` | src/python/beancount/ops/validation_test.py:117-124 | in date order the early close is rejected once and the later open is not flagged |
| `Scenarios.DuplicateBalancesScenario` | src/python/beancount/ops/validation_test.py:130-153 | for any two distinct accounts, exactly one error, on the 2014-03-01 assertion of 101 USD |
| `Scenarios.CheckingScenarios` | src/python/beancount/ops/validation_test.py:65-153 | the duplicate-open, duplicate-close and duplicate-balance outcomes on the tests' own account names |

## Left out

- Parsing ledger text and the test decorator that does it. The ledgers are given as values.
- Automatic balancing of the cash legs written without an amount. The model gives each cash leg an explicit number (-500 USD per GOOG bought at 500 USD).
- Comparing entries as text, and printing errors.
- The unused-accounts, currency-constraint, document-path and top-level `validate` tests. They are commented out and raise "not implemented", so there is no behaviour to model. For the same reason there is no driver that concatenates the checks.
- The two balance lines without an amount (2014-01-01). No amount can be compared for them, and the asserted outcome does not depend on them.
- The options map. It is passed through, and no asserted outcome depends on it.
- Error messages and source locations. An error carries its kind and the whole directive.
- Calendar dates and decimal numbers. Dates are ordered integers and quantities are exact integers.
- Sorting. The entries reach the checks already sorted by date. The checks do not depend on it. The scenarios are written in sorted order, and `OrderingScenario` states it.
- Cost specifications beyond number and currency (acquisition date, label). The lot key compares the whole cost value, so adding them would not change any outcome here.
