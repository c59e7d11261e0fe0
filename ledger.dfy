/** The directive model the validators read: the finalized, date-sorted list of
    ledger entries an upstream parser produces, and the errors the validators
    report about them. Dates are ordered integers (2014-03-01 is 20140301) and
    quantities are exact integers. */
module Ledger {

  datatype Option<+T> = None | Some(value: T)

  type Date = int
  type Account = string
  type Currency = string

  /** A number of units of one currency, e.g. `100 USD`. */
  datatype Amount = Amount(number: int, currency: Currency)

  /** The cost basis that identifies a lot, e.g. the `{500 USD}` of `1 GOOG {500 USD}`. */
  datatype Cost = Cost(number: int, currency: Currency)

  /** One leg of a transaction; `cost` is `None` for a bare currency amount. */
  datatype Posting = Posting(account: Account, units: Amount, cost: Option<Cost>)

  datatype Directive =
    | Open(date: Date, account: Account)
    | Close(date: Date, account: Account)
    | Balance(date: Date, account: Account, amount: Amount)
    | Transaction(date: Date, narration: string, postings: seq<Posting>)

  datatype ErrorKind = NegativeLot | DuplicateOpen | InvalidClose | ConflictingBalance

  /** A validation error carries the whole directive it is about. */
  datatype ValidationError = ValidationError(kind: ErrorKind, entry: Directive)

  /** The order the parser hands the entries over in: by date, ties in input order. */
  predicate DateSorted(entries: seq<Directive>)
  {
    forall i, j :: 0 <= i < j < |entries| ==> entries[i].date <= entries[j].date
  }

  /** Every error in `errors` is of kind `kind` and is about one of `entries`. */
  predicate ErrorsAbout(errors: seq<ValidationError>, kind: ErrorKind, entries: seq<Directive>)
  {
    forall e :: e in errors ==> e.kind == kind && e.entry in entries
  }
}
