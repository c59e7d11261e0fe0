/** The ledgers of the validation test module, as the parser hands them to the
    validators (sorted by date, cash legs with explicit numbers), and the errors
    each validator returns for them. */
module Scenarios {
  import opened Ledger
  import Booking
  import Lifecycle
  import Balances

  const Cash: Account := "Assets:Investments:Cash"
  const Stock: Account := "Assets:Investments:Stock"
  const Checking1: Account := "Assets:US:Bank:Checking1"
  const Checking2: Account := "Assets:US:Bank:Checking2"
  const Checking3: Account := "Assets:US:Bank:Checking3"

  /** A transaction of `units` GOOG at a cost of 500 USD each, paid in cash. */
  function Trade(date: Date, narration: string, units: int): Directive
  {
    Transaction(date, narration, [
      Posting(Stock, Amount(units, "GOOG"), Some(Cost(500, "USD"))),
      Posting(Cash, Amount(-500 * units, "USD"), None)
    ])
  }

  const AddPositive := Trade(20140622, "Add some positive units", 1)
  const DownToZero := Trade(20140623, "Down to zero", -1)
  const NegativeFromZero := Trade(20140624, "Go negative from zero", -1)
  const PositiveMuch := Trade(20140625, "Go positive much", 11)
  const NegativeFromAbove := Trade(20140626, "Cross to negative from above zero", -15)

  function BookingLedger(): seq<Directive>
  {
    [Open(20140101, Cash), Open(20140101, Stock),
     AddPositive, DownToZero, NegativeFromZero, PositiveMuch, NegativeFromAbove]
  }

  const GoogAt500 := Booking.LotKey(Stock, "GOOG", Some(Cost(500, "USD")))

  /** Booking one trade after `entries`: the GOOG lot moves by `units`, and the
      trade is reported exactly when it is a reduction that leaves the lot below zero. */
  lemma TradeStep(entries: seq<Directive>, date: Date, narration: string, units: int)
    ensures Booking.Held(entries + [Trade(date, narration, units)], GoogAt500) == Booking.Held(entries, GoogAt500) + units
    ensures Booking.BookingErrors(entries + [Trade(date, narration, units)])
         == Booking.BookingErrors(entries)
            + (if units < 0 && Booking.Held(entries, GoogAt500) + units < 0
               then [ValidationError(NegativeLot, Trade(date, narration, units))] else [])
  {
    var t := Trade(date, narration, units);
    Booking.CostedLegReportedIff(entries, date, narration, t.postings[0], t.postings[1]);
    assert (entries + [t])[..|entries|] == entries;
    assert t.postings[..1] == [t.postings[0]] && [t.postings[0]][..0] == [];
    assert Booking.LotOf(t.postings[0]) == GoogAt500 && Booking.LotOf(t.postings[1]) != GoogAt500;
    assert Booking.PostingsTotal(t.postings[..1], GoogAt500) == units;
    assert Booking.PostingsTotal(t.postings, GoogAt500) == units;
  }

  /** The two open directives before the trades book nothing. */
  lemma OpensBookNothing()
    ensures Booking.BookingErrors([Open(20140101, Cash), Open(20140101, Stock)]) == []
    ensures Booking.Held([Open(20140101, Cash), Open(20140101, Stock)], GoogAt500) == 0
  {
    var opens := [Open(20140101, Cash), Open(20140101, Stock)];
    assert opens[..1] == [opens[0]] && [opens[0]][..0] == [];
    assert Booking.BookEntries([opens[0]]) == Booking.BookEntries([]);
    assert Booking.Held([opens[0]], GoogAt500) == 0;
  }

  /** Exactly two errors, in input order: the transaction that takes the lot from
      0 to -1 and the one that takes it from 10 to -5. Going down to exactly zero,
      going from -1 up to 10 and the cash legs going below zero are not reported. */
  lemma InventoryBookingScenario()
    ensures Booking.BookingErrors(BookingLedger())
         == [ValidationError(NegativeLot, NegativeFromZero), ValidationError(NegativeLot, NegativeFromAbove)]
  {
    var opens := [Open(20140101, Cash), Open(20140101, Stock)];
    OpensBookNothing();
    TradeStep(opens, 20140622, "Add some positive units", 1);
    var s1 := opens + [AddPositive];
    TradeStep(s1, 20140623, "Down to zero", -1);
    var s2 := s1 + [DownToZero];
    TradeStep(s2, 20140624, "Go negative from zero", -1);
    var s3 := s2 + [NegativeFromZero];
    TradeStep(s3, 20140625, "Go positive much", 11);
    var s4 := s3 + [PositiveMuch];
    TradeStep(s4, 20140626, "Cross to negative from above zero", -15);
    assert s4 + [NegativeFromAbove] == BookingLedger();
  }

  /** The open/close check processes one more directive. */
  lemma LifecycleStep(entries: seq<Directive>, d: Directive)
    ensures Lifecycle.CheckEntries(entries + [d])
         == Lifecycle.CheckEntry(Lifecycle.CheckEntries(entries), d)
  {
    assert (entries + [d])[..|entries|] == entries;
  }

  /** The ledger of the duplicate-open test, for any three distinct accounts
      (the test uses Checking1, Checking2 and Checking3). */
  function DuplicateOpenLedger(c1: Account, c2: Account, c3: Account): seq<Directive>
  {
    [Open(20140210, c1)] + [Open(20140211, c2)] + [Open(20140211, c2)]
    + [Open(20140220, c3)] + [Open(20140221, c3)]
  }

  /** An account opened twice, on the same date or on a later one, yields one
      DuplicateOpen error on the repeated open; an account opened once yields none.
      The errors name the second and then the third account. */
  lemma DuplicateOpenScenario(c1: Account, c2: Account, c3: Account)
    requires c1 != c2 && c2 != c3 && c1 != c3
    ensures Lifecycle.OpenCloseErrors(DuplicateOpenLedger(c1, c2, c3))
         == [ValidationError(DuplicateOpen, Open(20140211, c2)),
             ValidationError(DuplicateOpen, Open(20140221, c3))]
  {
    var s1 := [Open(20140210, c1)];
    LifecycleStep([], Open(20140210, c1));
    assert [] + [Open(20140210, c1)] == s1;
    LifecycleStep(s1, Open(20140211, c2));
    var s2 := s1 + [Open(20140211, c2)];
    LifecycleStep(s2, Open(20140211, c2));
    var s3 := s2 + [Open(20140211, c2)];
    LifecycleStep(s3, Open(20140220, c3));
    var s4 := s3 + [Open(20140220, c3)];
    LifecycleStep(s4, Open(20140221, c3));
  }

  /** The ledger of the duplicate-close test, for any three distinct accounts. */
  function DuplicateCloseLedger(c1: Account, c2: Account, c3: Account): seq<Directive>
  {
    [Open(20140210, c1)] + [Open(20140210, c2)] + [Open(20140210, c3)]
    + [Close(20140301, c1)]
    + [Close(20140311, c2)] + [Close(20140311, c2)]
    + [Close(20140321, c3)] + [Close(20140322, c3)]
  }

  /** The state of each account once all three are open. */
  lemma ThreeOpened(c1: Account, c2: Account, c3: Account)
    requires c1 != c2 && c2 != c3 && c1 != c3
    ensures var st := Lifecycle.CheckEntries([Open(20140210, c1)] + [Open(20140210, c2)] + [Open(20140210, c3)]);
            st.errors == [] && Lifecycle.StateOf(st.states, c1) == Lifecycle.Opened
            && Lifecycle.StateOf(st.states, c2) == Lifecycle.Opened && Lifecycle.StateOf(st.states, c3) == Lifecycle.Opened
  {
    var s1 := [Open(20140210, c1)];
    LifecycleStep([], Open(20140210, c1));
    assert [] + [Open(20140210, c1)] == s1;
    LifecycleStep(s1, Open(20140210, c2));
    LifecycleStep(s1 + [Open(20140210, c2)], Open(20140210, c3));
  }

  /** Closing an open account is accepted; closing it again, on the same date or
      on a later one, yields one InvalidClose error. The errors name the second
      and then the third account. */
  lemma DuplicateCloseScenario(c1: Account, c2: Account, c3: Account)
    requires c1 != c2 && c2 != c3 && c1 != c3
    ensures Lifecycle.OpenCloseErrors(DuplicateCloseLedger(c1, c2, c3))
         == [ValidationError(InvalidClose, Close(20140311, c2)),
             ValidationError(InvalidClose, Close(20140322, c3))]
  {
    var s3 := [Open(20140210, c1)] + [Open(20140210, c2)] + [Open(20140210, c3)];
    ThreeOpened(c1, c2, c3);
    LifecycleStep(s3, Close(20140301, c1));
    var s4 := s3 + [Close(20140301, c1)];
    LifecycleStep(s4, Close(20140311, c2));
    var s5 := s4 + [Close(20140311, c2)];
    LifecycleStep(s5, Close(20140311, c2));
    var s6 := s5 + [Close(20140311, c2)];
    LifecycleStep(s6, Close(20140321, c3));
    var s7 := s6 + [Close(20140321, c3)];
    LifecycleStep(s7, Close(20140322, c3));
  }

  /** Closing an account that was never opened yields one InvalidClose error. */
  lemma CloseUnopenedScenario(c: Account)
    ensures Lifecycle.OpenCloseErrors([Close(20140301, c)])
         == [ValidationError(InvalidClose, Close(20140301, c))]
  {
    LifecycleStep([], Close(20140301, c));
    assert [] + [Close(20140301, c)] == [Close(20140301, c)];
  }

  /** An open dated 2014-03-01 and a close dated 2014-02-01, in date order. */
  function OrderingLedger(c: Account): seq<Directive>
  {
    [Close(20140201, c)] + [Open(20140301, c)]
  }

  /** Sorted by date the close comes first, so it is the one rejected, once, and
      the later open is accepted. */
  lemma OrderingScenario(c: Account)
    ensures DateSorted(OrderingLedger(c))
    ensures Lifecycle.OpenCloseErrors(OrderingLedger(c)) == [ValidationError(InvalidClose, Close(20140201, c))]
  {
    LifecycleStep([], Close(20140201, c));
    assert [] + [Close(20140201, c)] == [Close(20140201, c)];
    LifecycleStep([Close(20140201, c)], Open(20140301, c));
  }

  function Usd(date: Date, account: Account, number: int): Directive
  {
    Balance(date, account, Amount(number, "USD"))
  }

  /** The ledger of the duplicate-balance test, for any two distinct accounts
      (the test uses Checking1 and Checking2): four pairs of assertions. */
  function BalanceLedger(a1: Account, a2: Account): seq<Directive>
  {
    [Usd(20140301, a1, 100), Usd(20140301, a1, 101)]
    + [Usd(20140302, a1, 100), Usd(20140302, a1, 100)]
    + [Usd(20140303, a1, 100), Usd(20140304, a1, 101)]
    + [Usd(20140305, a1, 100), Usd(20140305, a2, 100)]
  }

  /** Only the pair on 2014-03-01 with different amounts is reported, once and
      dated that day; identical duplicates, different dates and different
      accounts on one date are not. */
  lemma DuplicateBalancesScenario(a1: Account, a2: Account)
    requires a1 != a2
    ensures Balances.DuplicateBalanceErrors(BalanceLedger(a1, a2))
         == [ValidationError(ConflictingBalance, Usd(20140301, a1, 101))]
  {
    var p1 := [Usd(20140301, a1, 100), Usd(20140301, a1, 101)];
    Balances.AssertionPair([], p1[0], p1[1]);
    assert [] + p1 == p1;
    var p2 := [Usd(20140302, a1, 100), Usd(20140302, a1, 100)];
    Balances.LaterGroupIsNew(p1, Balances.KeyOf(p2[0]));
    Balances.AssertionPair(p1, p2[0], p2[1]);
    var s4 := p1 + p2;
    var p3 := [Usd(20140303, a1, 100), Usd(20140304, a1, 101)];
    Balances.LaterGroupIsNew(s4, Balances.KeyOf(p3[0]));
    Balances.LaterGroupIsNew(s4, Balances.KeyOf(p3[1]));
    Balances.DistinctGroupsPair(s4, p3[0], p3[1]);
    var s6 := s4 + p3;
    var p4 := [Usd(20140305, a1, 100), Usd(20140305, a2, 100)];
    Balances.LaterGroupIsNew(s6, Balances.KeyOf(p4[0]));
    Balances.LaterGroupIsNew(s6, Balances.KeyOf(p4[1]));
    Balances.DistinctGroupsPair(s6, p4[0], p4[1]);
  }

  /** The three bank accounts the tests use are distinct. */
  lemma CheckingAccountsDistinct()
    ensures Checking1 != Checking2 && Checking2 != Checking3 && Checking1 != Checking3
  {
    assert Checking1[23] != Checking2[23] && Checking2[23] != Checking3[23] && Checking1[23] != Checking3[23];
  }

  /** The open/close and duplicate-balance tests, on the tests' own accounts. */
  lemma CheckingScenarios()
    ensures Lifecycle.OpenCloseErrors(DuplicateOpenLedger(Checking1, Checking2, Checking3))
         == [ValidationError(DuplicateOpen, Open(20140211, Checking2)),
             ValidationError(DuplicateOpen, Open(20140221, Checking3))]
    ensures Lifecycle.OpenCloseErrors(DuplicateCloseLedger(Checking1, Checking2, Checking3))
         == [ValidationError(InvalidClose, Close(20140311, Checking2)),
             ValidationError(InvalidClose, Close(20140322, Checking3))]
    ensures Balances.DuplicateBalanceErrors(BalanceLedger(Checking1, Checking2))
         == [ValidationError(ConflictingBalance, Usd(20140301, Checking1, 101))]
  {
    CheckingAccountsDistinct();
    DuplicateOpenScenario(Checking1, Checking2, Checking3);
    DuplicateCloseScenario(Checking1, Checking2, Checking3);
    DuplicateBalancesScenario(Checking1, Checking2);
  }
}
